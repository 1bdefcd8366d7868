/** What the stages of the in-place transform keep: after stage s every block of 2^s entries holds
    the transform of one decimated part of the input. */
module FftStages {
  import opened Algebra
  import opened Bits
  import opened BitReversal
  import opened Fourier

  /** The part of a that block b is responsible for after t decimations by even and odd places. */
  function Block<T>(a: seq<T>, t: nat, b: nat): seq<T> {
    if t == 0 then a
    else if b % 2 == 0 then Even(Block(a, t - 1, b / 2))
    else Odd(Block(a, t - 1, b / 2))
  }

  /** Entry j of block b, for blocks of m entries. */
  function At(b: nat, m: nat, j: nat): nat {
    if b == 0 then j else m + At(b - 1, m, j)
  }

  lemma {:induction false} AtIs(b: nat, m: nat, j: nat)
    ensures At(b, m, j) == b * m + j
  {
    if b > 0 {
      AtIs(b - 1, m, j);
      assert b * m == (b - 1) * m + m;
    }
  }

  /** The lower place butterfly i works on, for half-blocks of h entries; the upper is h further. */
  function Lo(i: nat, h: nat): nat
    requires h > 0
  {
    i / h * (2 * h) + i % h
  }

  /** The input in bit-reversed order. */
  function Permuted<T>(a: seq<T>, d: nat): (r: seq<T>)
    requires |a| == Exp2(d)
    ensures |r| == |a|
  {
    seq(|a|, i requires 0 <= i < |a| => a[Rev(d, i)])
  }

  /** After stage s of t + s, with w the root of order 2^s. */
  ghost predicate StageDone<T(!new)>(R: Ring<T>, cur: seq<T>, a: seq<T>, t: nat, s: nat, w: T) {
    && |cur| == |a| == Exp2(t + s)
    && forall b: nat, j: nat | b < Exp2(t) && j < Exp2(s) :: EntryDone(R, cur, a, t, s, w, b, j)
  }

  ghost predicate EntryDone<T(!new)>(R: Ring<T>, cur: seq<T>, a: seq<T>, t: nat, s: nat, w: T, b: nat, j: nat) {
    var p := At(b, Exp2(s), j);
    p < |cur| && cur[p] == Eval(R, Block(a, t, b), R.Pow(w, j))
  }

  lemma {:induction false} BlockIndex<T>(a: seq<T>, d: nat, t: nat, b: nat, i: nat)
    requires |a| == Exp2(d) && t <= d && i < Exp2(d - t)
    ensures |Block(a, t, b)| == Exp2(d - t)
    ensures Rev(t, b) + i * Exp2(t) < |a|
    ensures Block(a, t, b)[i] == a[Rev(t, b) + i * Exp2(t)]
  {
    if t > 0 {
      var k := 2 * i + b % 2;
      BlockIndex(a, d, t - 1, b / 2, k);
      ShiftWeight(i, b % 2, Exp2(t - 1));
    }
  }

  lemma ShiftWeight(i: nat, b: nat, e: nat)
    requires b <= 1
    ensures (2 * i + b) * e == i * (2 * e) + (if b == 1 then e else 0)
  {
    assert (2 * i + b) * e == 2 * i * e + b * e;
    assert i * (2 * e) == 2 * i * e;
  }

  lemma BlockLength<T>(a: seq<T>, d: nat, t: nat, b: nat)
    requires |a| == Exp2(d) && t <= d
    ensures |Block(a, t, b)| == Exp2(d - t)
  {
    BlockIndex(a, d, t, b, 0);
  }

  lemma AtBound(t: nat, s: nat, b: nat, j: nat)
    requires b < Exp2(t) && j < Exp2(s)
    ensures At(b, Exp2(s), j) < Exp2(t + s)
  {
    Exp2Add(t, s);
    RowBound(b, Exp2(t), Exp2(s), j);
    AtIs(b, Exp2(s), j);
  }

  /** Bit reversal sets up the blocks of one entry. */
  lemma StageZero<T(!new)>(R: Ring<T>, a: seq<T>, d: nat, w: T)
    requires R.Valid() && |a| == Exp2(d)
    ensures StageDone(R, Permuted(a, d), a, d, 0, w)
  {
    forall b: nat, j: nat | b < Exp2(d) && j < Exp2(0)
      ensures EntryDone(R, Permuted(a, d), a, d, 0, w, b, j)
    {
      AtIs(b, 1, j);
      BlockIndex(a, d, d, b, 0);
      EvalSingle(R, Block(a, d, b), R.Pow(w, 0));
    }
  }

  /** The one block of the last stage is the transform of the input. */
  lemma StageLast<T(!new)>(R: Ring<T>, cur: seq<T>, a: seq<T>, d: nat, w: T)
    requires StageDone(R, cur, a, 0, d, w)
    ensures IsDft(R, a, w, cur) && cur == Dft(R, a, w)
  {
    forall i | 0 <= i < |a|
      ensures cur[i] == Eval(R, a, R.Pow(w, i))
    {
      assert EntryDone(R, cur, a, 0, d, w, 0, i);
    }
  }

  /** What one stage of butterflies turns cur into. */
  ghost predicate Butterflied<T(!new)>(R: Ring<T>, cur: seq<T>, next: seq<T>, h: nat, w: T)
    requires h > 0
  {
    && |next| == |cur| && |cur| % 2 == 0
    && forall i: nat | i < |cur| / 2 :: ButterflyDone(R, cur, next, h, w, i)
  }

  ghost predicate ButterflyDone<T(!new)>(R: Ring<T>, cur: seq<T>, next: seq<T>, h: nat, w: T, i: nat)
    requires h > 0 && |next| == |cur|
  {
    Lo(i, h) + h < |cur| && ButterflyAt(R, cur, next, Lo(i, h), h, R.Pow(w, i % h))
  }

  ghost predicate ButterflyAt<T(!new)>(R: Ring<T>, cur: seq<T>, next: seq<T>, p: nat, h: nat, r: T)
    requires |next| == |cur| && p + h < |cur|
  {
    var t := R.Mul(r, cur[p + h]);
    next[p] == R.Add(t, cur[p]) && next[p + h] == R.Sub(cur[p], t)
  }

  lemma {:induction false} AtHalves(b: nat, h: nat, j: nat)
    ensures At(b, 2 * h, j) == At(2 * b, h, j)
    ensures At(b, 2 * h, j + h) == At(2 * b + 1, h, j) == At(b, 2 * h, j) + h
  {
    if b > 0 {
      AtHalves(b - 1, h, j);
      assert At(2 * b, h, j) == h + (h + At(2 * b - 2, h, j));
      assert At(2 * b + 1, h, j) == h + At(2 * b, h, j);
    }
  }

  lemma LoOf(b: nat, h: nat, j: nat)
    requires j < h
    ensures Lo(b * h + j, h) == At(b, 2 * h, j) && (b * h + j) % h == j
  {
    DivModUnique(b * h + j, h, b, j);
    AtIs(b, 2 * h, j);
  }

  lemma LoBound(t: nat, s: nat, i: nat)
    requires i < Exp2(t + s)
    ensures Lo(i, Exp2(s)) + Exp2(s) < 2 * Exp2(t + s)
  {
    var h := Exp2(s);
    Exp2Add(t, s);
    var b, j := Split(i, h);
    DivBound(i, h, Exp2(t));
    AtBound(t, s + 1, b, j + h);
    LoOf(b, h, j); AtHalves(b, h, j);
  }

  /** Different butterflies work on different places. */
  lemma LoDistinct(i: nat, k: nat, h: nat)
    requires h > 0
    ensures Lo(i, h) == Lo(k, h) <==> i == k
    ensures Lo(i, h) != Lo(k, h) + h
  {
    var bi, ji, bk, jk := i / h, i % h, k / h, k % h;
    DivModUnique(Lo(i, h), 2 * h, bi, ji);
    DivModUnique(Lo(k, h), 2 * h, bk, jk);
    DivModUnique(Lo(k, h) + h, 2 * h, bk, jk + h);
    assert i == h * bi + ji && k == h * bk + jk;
  }

  /** A stage of butterflies doubles the blocks. */
  lemma StageStep<T(!new)>(R: Ring<T>, cur: seq<T>, next: seq<T>, a: seq<T>, t: nat, s: nat, s1: nat, w: T)
    requires R.Valid() && s1 == s + 1 && IsRoot(R, w, s1)
    requires StageDone(R, cur, a, t + 1, s, R.Mul(w, w))
    requires Butterflied(R, cur, next, Exp2(s), w)
    ensures StageDone(R, next, a, t, s1, w)
  {
    var h := Exp2(s);
    forall b: nat, j: nat | b < Exp2(t) && j < Exp2(s1)
      ensures EntryDone(R, next, a, t, s1, w, b, j)
    {
      StageStepAt(R, cur, next, a, t, s, w, b, if j < h then j else j - h, At(b, Exp2(s1), if j < h then j else j - h));
    }
  }

  lemma StageStepAt<T(!new)>(R: Ring<T>, cur: seq<T>, next: seq<T>, a: seq<T>, t: nat, s: nat, w: T, b: nat, j: nat,
      p: nat)
    requires R.Valid() && IsRoot(R, w, s + 1)
    requires StageDone(R, cur, a, t + 1, s, R.Mul(w, w))
    requires Butterflied(R, cur, next, Exp2(s), w)
    requires b < Exp2(t) && j < Exp2(s) && p == At(b, Exp2(s + 1), j)
    ensures p + Exp2(s) == At(b, Exp2(s + 1), j + Exp2(s)) < |next|
    ensures next[p] == Eval(R, Block(a, t, b), R.Pow(w, j))
    ensures next[p + Exp2(s)] == Eval(R, Block(a, t, b), R.Pow(w, j + Exp2(s)))
  {
    ButterfliedAt(R, cur, next, t, s, w, b, j, p);
    BlockLength(a, t + s + 1, t, b);
    HalvesAt(R, cur, a, t, s, R.Mul(w, w), b, j, p, Block(a, t + 1, 2 * b), Block(a, t + 1, 2 * b + 1));
    ButterflyOnBlocks(R, cur, next, a, t, b, w, s, p, j);
  }

  lemma ButterflyOnBlocks<T(!new)>(R: Ring<T>, cur: seq<T>, next: seq<T>, a: seq<T>, t: nat, b: nat, w: T, s: nat,
      p: nat, j: nat)
    requires R.Valid() && IsRoot(R, w, s + 1) && |Block(a, t, b)| == Exp2(s + 1) && j < Exp2(s)
    requires |next| == |cur| && p + Exp2(s) < |cur|
    requires ButterflyAt(R, cur, next, p, Exp2(s), R.Pow(w, j))
    requires cur[p] == Eval(R, Block(a, t + 1, 2 * b), R.Pow(R.Mul(w, w), j))
    requires cur[p + Exp2(s)] == Eval(R, Block(a, t + 1, 2 * b + 1), R.Pow(R.Mul(w, w), j))
    ensures next[p] == Eval(R, Block(a, t, b), R.Pow(w, j))
    ensures next[p + Exp2(s)] == Eval(R, Block(a, t, b), R.Pow(w, j + Exp2(s)))
  {
    BlockHalves(a, t, b);
    ButterflyMeaning(R, cur, next, Block(a, t, b), w, s, p, j);
  }

  /** What stage s left at the two places of a butterfly of the next stage: E and O are the half-blocks. */
  lemma HalvesAt<T(!new)>(R: Ring<T>, cur: seq<T>, a: seq<T>, t: nat, s: nat, ww: T, b: nat, j: nat, p: nat,
      E: seq<T>, O: seq<T>)
    requires StageDone(R, cur, a, t + 1, s, ww) && b < Exp2(t) && j < Exp2(s) && p == At(b, Exp2(s + 1), j)
    requires E == Block(a, t + 1, 2 * b) && O == Block(a, t + 1, 2 * b + 1)
    ensures p + Exp2(s) < |cur|
    ensures cur[p] == Eval(R, E, R.Pow(ww, j)) && cur[p + Exp2(s)] == Eval(R, O, R.Pow(ww, j))
  {
    var lower, upper := 2 * b, 2 * b + 1;
    HalfPlaces(b, s, j, p, lower, upper);
    HalfAt(R, cur, a, t, s, ww, b, lower, j, p, E);
    HalfAt(R, cur, a, t, s, ww, b, upper, j, p + Exp2(s), O);
  }

  /** The places of a butterfly are the same entry of the two half-blocks. */

  lemma HalfPlaces(b: nat, s: nat, j: nat, p: nat, lower: nat, upper: nat)
    requires p == At(b, Exp2(s + 1), j) && lower == 2 * b && upper == 2 * b + 1
    ensures p == At(lower, Exp2(s), j) && p + Exp2(s) == At(upper, Exp2(s), j)
  {
    AtHalves(b, Exp2(s), j);
  }

  lemma HalfAt<T(!new)>(R: Ring<T>, cur: seq<T>, a: seq<T>, t: nat, s: nat, ww: T, b: nat, half: nat, j: nat, p: nat,
      P: seq<T>)
    requires StageDone(R, cur, a, t + 1, s, ww) && b < Exp2(t) && half <= 2 * b + 1 && j < Exp2(s)
    requires p == At(half, Exp2(s), j) && P == Block(a, t + 1, half)
    ensures p < |cur| && cur[p] == Eval(R, P, R.Pow(ww, j))
  {
    assert Exp2(t + 1) == 2 * Exp2(t);
    StageAt(R, cur, a, t + 1, s, ww, half, j, p, P);
  }

  lemma ButterflyMeaning<T(!new)>(R: Ring<T>, cur: seq<T>, next: seq<T>, P: seq<T>, w: T, s: nat, p: nat, j: nat)
    requires R.Valid() && IsRoot(R, w, s + 1) && |P| == Exp2(s + 1) && j < Exp2(s)
    requires |next| == |cur| && p + Exp2(s) < |cur|
    requires ButterflyAt(R, cur, next, p, Exp2(s), R.Pow(w, j))
    requires cur[p] == Eval(R, Even(P), R.Pow(R.Mul(w, w), j))
    requires cur[p + Exp2(s)] == Eval(R, Odd(P), R.Pow(R.Mul(w, w), j))
    ensures next[p] == Eval(R, P, R.Pow(w, j))
    ensures next[p + Exp2(s)] == Eval(R, P, R.Pow(w, j + Exp2(s)))
  {
    Butterfly(R, P, w, s + 1, j);
    R.g.Comm(cur[p], R.Mul(R.Pow(w, j), cur[p + Exp2(s)]));
  }

  lemma ButterfliedAt<T(!new)>(R: Ring<T>, cur: seq<T>, next: seq<T>, t: nat, s: nat, w: T, b: nat, j: nat, p: nat)
    requires |cur| == Exp2(t + s + 1) && Butterflied(R, cur, next, Exp2(s), w)
    requires b < Exp2(t) && j < Exp2(s) && p == At(b, Exp2(s + 1), j)
    ensures p + Exp2(s) == At(b, Exp2(s + 1), j + Exp2(s)) < |cur|
    ensures ButterflyAt(R, cur, next, p, Exp2(s), R.Pow(w, j))
  {
    var h := Exp2(s);
    LoOf(b, h, j); AtHalves(b, h, j);
    AtBound(t, s + 1, b, j + h);
    AtBound(t, s, b, j);
    AtIs(b, h, j);
    var i: nat := b * h + j;
    assert i < |cur| / 2;
    assert ButterflyDone(R, cur, next, h, w, i);
  }

  lemma StageAt<T(!new)>(R: Ring<T>, cur: seq<T>, a: seq<T>, t: nat, s: nat, w: T, b: nat, j: nat, p: nat, P: seq<T>)
    requires StageDone(R, cur, a, t, s, w) && b < Exp2(t) && j < Exp2(s)
    requires p == At(b, Exp2(s), j) && P == Block(a, t, b)
    ensures p < |cur| && cur[p] == Eval(R, P, R.Pow(w, j))
  {
    assert EntryDone(R, cur, a, t, s, w, b, j);
  }

  lemma BlockHalves<T>(a: seq<T>, t: nat, b: nat)
    ensures Block(a, t + 1, 2 * b) == Even(Block(a, t, b))
    ensures Block(a, t + 1, 2 * b + 1) == Odd(Block(a, t, b))
  {
    assert 2 * b / 2 == b && (2 * b + 1) / 2 == b && (2 * b + 1) % 2 == 1;
  }
}
