/** The in-place fast Fourier transform. The iterations of a parallel loop are taken from a set, in
    any order. */
module Fft {
  import opened Algebra
  import opened Bits
  import opened BitReversal
  import opened Fourier
  import opened FftStages
  import opened ParallelFor

  /** Stage sizes are computed as 1 << s in a 32-bit int. */
  const MAX_POWER: nat := 30

  /** Exchanging every entry with its partner, done for the entries whose larger index has gone. */
  ghost predicate PartlyPermuted<T>(cur: seq<T>, old_: seq<T>, d: nat, todo: set<nat>) {
    && |cur| == |old_| == Exp2(d)
    && forall p: nat | p < |cur| :: PlaceAt(cur, old_, d, todo, p)
  }

  ghost predicate PlaceAt<T>(cur: seq<T>, old_: seq<T>, d: nat, todo: set<nat>, p: nat)
    requires |cur| == |old_| == Exp2(d) && p < |cur|
  {
    cur[p] == if (if p < Rev(d, p) then Rev(d, p) else p) in todo then old_[p] else old_[Rev(d, p)]
  }

  class FFT<T(!new, ==)> {
    const R: Ring<T>
    const s: nat
    const roots: seq<T>
    const powTwoInv: seq<T>

    ghost predicate Valid() {
      && R.Valid() && 1 <= s <= MAX_POWER
      && |roots| == Exp2(s) && |powTwoInv| == s + 1
      && IsRoot(R, roots[1], s)
      && (forall i: nat | i < |roots| :: RootAt(i))
      && (forall i: nat | i <= s :: InverseAt(i))
    }

    ghost predicate RootAt(i: nat)
      requires |roots| >= 2 && i < |roots|
    {
      roots[i] == R.Pow(roots[1], i)
    }

    ghost predicate InverseAt(i: nat)
      requires i < |powTwoInv|
    {
      R.Mul(powTwoInv[i], R.Pow(Two(R), i)) == R.one
    }

    /** The root of unity of order 2^k: root(k, 1). */
    ghost function Omega(k: nat): T
      requires |roots| == Exp2(s) && 1 <= s && k <= s
    {
      R.Pow(roots[1], Exp2(s - k))
    }

    lemma OmegaIsRoot(k: nat)
      requires Valid() && k <= s
      ensures IsRoot(R, Omega(k), k)
      ensures k > 0 ==> R.Mul(Omega(k), Omega(k)) == Omega(k - 1)
    {
      if k == 0 {
        RootOrder(R, roots[1], s);
      } else {
        SmallerRoot(R, roots[1], s, k);
        OmegaSquared(k);
      }
    }

    lemma OmegaSquared(k: nat)
      requires Valid() && 0 < k <= s
      ensures R.Mul(Omega(k), Omega(k)) == Omega(k - 1)
    {
      R.PowAdd(roots[1], Exp2(s - k), Exp2(s - k));
    }

    static method Log2(n: nat) returns (res: nat)
      requires n != 0
      ensures Exp2(res) <= n < Exp2(res + 1)
    {
      res := 0;
      var m := n;
      ghost var low: nat := 0;
      while m != 1
        invariant m >= 1 && n == m * Exp2(res) + low && low < Exp2(res)
        decreases m
      {
        low := low + if m % 2 == 1 then Exp2(res) else 0;
        assert m * Exp2(res) == m / 2 * (2 * Exp2(res)) + (if m % 2 == 1 then Exp2(res) else 0) by {
          ShiftWeight(m / 2, m % 2, Exp2(res));
        }
        m := m / 2;
        res := res + 1;
      }
    }

    /** Entry idx of the roots of order 2^domainPow. */
    method Root(domainPow: nat, idx: nat) returns (r: T)
      requires Valid() && domainPow <= s && idx < Exp2(domainPow)
      ensures r == R.Pow(Omega(domainPow), idx)
    {
      Exp2Add(domainPow, s - domainPow);
      RowBound(idx, Exp2(domainPow), Exp2(s - domainPow), 0);
      R.PowPow(roots[1], Exp2(s - domainPow), idx);
      assert idx * Exp2(s - domainPow) == Exp2(s - domainPow) * idx;
      assert RootAt(idx * Exp2(s - domainPow));
      r := roots[idx * Exp2(s - domainPow)];
    }

    constructor (R: Ring<T>, s: nat, roots: seq<T>, powTwoInv: seq<T>)
      ensures this.R == R && this.s == s && this.roots == roots && this.powTwoInv == powTwoInv
    {
      this.R, this.s, this.roots, this.powTwoInv := R, s, roots, powTwoInv;
    }

    method ReversePermutation(a: array<T>, ghost d: nat)
      requires a.Length == Exp2(d) && d <= MAX_POWER
      modifies a
      ensures a[..] == Permuted(old(a[..]), d)
    {
      var n := a.Length;
      var domainPow := Log2(n);
      Log2Unique(n, d, domainPow);
      ghost var was := a[..];
      var todo := Iterations(0, n);
      PermuteStart(was, d, todo);
      while todo != {}
        invariant todo <= Iterations(0, n)
        invariant PartlyPermuted(a[..], was, d, todo)
      {
        var i :| i in todo;
        var r := BR(i, domainPow);
        BRIsReversal(i, d);
        ghost var cur := a[..];
        if i > r {
          var tmp := a[i];
          a[i] := a[r];
          a[r] := tmp;
        }
        PermuteStep(cur, a[..], was, d, todo, i);
        todo := todo - {i};
      }
      PermuteEnd(a[..], was, d);
    }

    /** One iteration of a stage. */
    method OneButterfly(a: array<T>, st: nat, i: nat, ghost t: nat)
      requires Valid() && a.Length == Exp2(t + st + 1) && st < s && i < a.Length / 2
      modifies a
      ensures Lo(i, Exp2(st)) + Exp2(st) < a.Length
      ensures a[..] == Updated(R, old(a[..]), Lo(i, Exp2(st)), Exp2(st), R.Pow(Omega(st + 1), i % Exp2(st)))
    {
      var m := Exp2(st + 1);
      var mdiv2 := m / 2;
      var k := i / mdiv2 * m;
      var j := i % mdiv2;
      LoBound(t, st, i);
      assert k + j == Lo(i, mdiv2);
      var tw := Root(st + 1, j);
      tw := R.Mul(tw, a[k + j + mdiv2]);
      var u := a[k + j];
      a[k + j] := R.Add(tw, u);
      a[k + j + mdiv2] := R.Sub(u, tw);
    }

    /** Stage st of the transform: n / 2 butterflies, in any order. */
    method Butterflies(a: array<T>, st: nat, ghost t: nat)
      requires Valid() && a.Length == Exp2(t + st + 1) && st < s
      modifies a
      ensures Butterflied(R, old(a[..]), a[..], Exp2(st), Omega(st + 1))
    {
      ghost var was := a[..];
      ghost var w := Omega(st + 1);
      var todo := Iterations(0, a.Length / 2);
      ButterflyStart(R, was, t, st, w);
      while todo != {}
        invariant todo <= Iterations(0, a.Length / 2)
        invariant PartlyButterflied(R, was, a[..], Exp2(st), w, todo)
      {
        var i :| i in todo;
        ghost var cur := a[..];
        OneButterfly(a, st, i, t);
        ButterflyStep(R, was, cur, a[..], Exp2(st), w, todo, i);
        todo := todo - {i};
      }
    }

    /** In-place transform of an array of 2^d entries. */
    method Fft(a: array<T>, ghost d: nat)
      requires Valid() && a.Length == Exp2(d) && d <= s
      modifies a
      ensures a[..] == Dft(R, old(a[..]), Omega(d))
    {
      ghost var was := a[..];
      ReversePermutation(a, d);
      var domainPow := Log2(a.Length);
      Log2Unique(a.Length, d, domainPow);
      StageZero(R, was, d, Omega(0));
      for st := 0 to domainPow
        invariant StageDone(R, a[..], was, d - st, st, Omega(st))
      {
        ghost var cur := a[..];
        Butterflies(a, st, d - st - 1);
        OmegaIsRoot(st + 1);
        StageStep(R, cur, a[..], was, d - st - 1, st, st + 1, Omega(st + 1));
      }
      StageLast(R, a[..], was, d, Omega(d));
    }

    /** In-place inverse: transform, exchange entries i and n - i, scale by 1 / n. */
    method Ifft(a: array<T>, ghost d: nat)
      requires Valid() && a.Length == Exp2(d) && d <= s
      modifies a
      ensures a[..] == InverseDft(R, old(a[..]), Omega(d), powTwoInv[d])
    {
      ghost var was := a[..];
      Fft(a, d);
      var domainPow := Log2(a.Length);
      Log2Unique(a.Length, d, domainPow);
      assert InverseAt(d);
      ReflectAndScale(R, a, powTwoInv[domainPow], domainPow);
      ReflectEnd(R, was, a[..], Omega(d), d, powTwoInv[d]);
    }

    /** What Fft and Ifft compute with the tables undo each other, on every array of 2^d entries. */
    lemma RoundTrip(x: seq<T>, d: nat)
      requires Valid() && d <= s && |x| == Exp2(d)
      ensures InverseDft(R, Dft(R, x, Omega(d)), Omega(d), powTwoInv[d]) == x
      ensures Dft(R, InverseDft(R, x, Omega(d), powTwoInv[d]), Omega(d)) == x
    {
      OmegaIsRoot(d);
      assert InverseAt(d);
      InverseAfterDft(R, x, Omega(d), d, powTwoInv[d]);
      DftAfterInverse(R, x, Omega(d), d, powTwoInv[d]);
    }
  }

  /** The loop of the inverse: entries i and n - i are exchanged and scaled, then entries 0 and n / 2. */
  method ReflectAndScale<T(!new)>(R: Ring<T>, a: array<T>, c: T, ghost d: nat)
    requires R.Valid() && a.Length == Exp2(d) && R.Mul(c, R.Pow(Two(R), d)) == R.one
    modifies a
    ensures a[..] == ReflectedScaled(R, old(a[..]), c)
  {
    var n := a.Length;
    var nDiv2 := n / 2;
    ghost var b := a[..];
    var todo := Iterations(1, nDiv2);
    while todo != {}
      invariant todo <= Iterations(1, nDiv2)
      invariant PartlyReflected(R, b, a[..], c, todo)
    {
      var i :| i in todo;
      var r := n - i;
      ghost var cur := a[..];
      var tmp := a[i];
      a[i] := R.Mul(a[r], c);
      a[r] := R.Mul(tmp, c);
      ReflectStep(R, b, cur, a[..], c, todo, i);
      todo := todo - {i};
    }
    ghost var cur := a[..];
    a[0] := R.Mul(a[0], c);
    a[nDiv2] := R.Mul(a[nDiv2], c);
    EndsScaled(R, b, cur, a[..], c, d);
  }

  /** Entry i during the reflection: entries 0 and n / 2 are left for the end. */
  ghost predicate ReflectedAt<T(!new)>(R: Ring<T>, b: seq<T>, cur: seq<T>, c: T, todo: set<nat>, i: nat)
    requires |cur| == |b| && i < |b|
  {
    cur[i] == if i == 0 || 2 * i == |b| || (if 2 * i < |b| then i else |b| - i) in todo then b[i]
              else R.Mul(b[|b| - i], c)
  }

  ghost predicate PartlyReflected<T(!new)>(R: Ring<T>, b: seq<T>, cur: seq<T>, c: T, todo: set<nat>) {
    |cur| == |b| && forall k: nat | k < |b| :: ReflectedAt(R, b, cur, c, todo, k)
  }

  /** Entry i becomes entry -i modulo n, scaled. */
  function ReflectedScaled<T(!new)>(R: Ring<T>, b: seq<T>, c: T): (r: seq<T>)
    ensures |r| == |b|
  {
    seq(|b|, i requires 0 <= i < |b| => R.Mul(b[Reflect(|b|, i)], c))
  }

  lemma ReflectStep<T(!new)>(R: Ring<T>, b: seq<T>, cur: seq<T>, next: seq<T>, c: T, todo: set<nat>, i: nat)
    requires PartlyReflected(R, b, cur, c, todo)
    requires 1 <= i && 2 * i < |b| && i in todo
    requires next == cur[i := R.Mul(cur[|b| - i], c)][|b| - i := R.Mul(cur[i], c)]
    ensures PartlyReflected(R, b, next, c, todo - {i})
  {
    assert ReflectedAt(R, b, cur, c, todo, i) && ReflectedAt(R, b, cur, c, todo, |b| - i);
    forall k: nat | k < |b|
      ensures ReflectedAt(R, b, next, c, todo - {i}, k)
    {
      assert ReflectedAt(R, b, cur, c, todo, k);
    }
  }

  lemma EndsScaled<T(!new)>(R: Ring<T>, b: seq<T>, cur: seq<T>, next: seq<T>, c: T, d: nat)
    requires R.Valid() && |b| == Exp2(d) && R.Mul(c, R.Pow(Two(R), d)) == R.one
    requires PartlyReflected(R, b, cur, c, {})
    requires var first := cur[0 := R.Mul(cur[0], c)];
             next == first[|b| / 2 := R.Mul(first[|b| / 2], c)]
    ensures next == ReflectedScaled(R, b, c)
  {
    forall i: nat | i < |b|
      ensures next[i] == ReflectedScaled(R, b, c)[i]
    {
      assert ReflectedAt(R, b, cur, c, {}, i);
      if d == 0 { R.Unit(c); R.Unit(b[0]); }
    }
  }

  lemma ReflectEnd<T(!new)>(R: Ring<T>, was: seq<T>, next: seq<T>, w: T, d: nat, c: T)
    requires |was| == Exp2(d) && next == ReflectedScaled(R, Dft(R, was, w), c)
    ensures next == InverseDft(R, was, w, c)
  {
    var b := DftIs(R, was, w);
    forall i: nat | i < |b|
      ensures next[i] == InverseDft(R, was, w, c)[i]
    {
      assert b[Reflect(|b|, i)] == Eval(R, was, R.Pow(w, Reflect(|b|, i)));
    }
  }

  /** cur with the butterfly of root r done at places p and p + h. */
  function Updated<T(!new)>(R: Ring<T>, cur: seq<T>, p: nat, h: nat, r: T): seq<T>
    requires h > 0 && p + h < |cur|
  {
    var t := R.Mul(r, cur[p + h]);
    cur[p := R.Add(t, cur[p])][p + h := R.Sub(cur[p], t)]
  }

  /** Butterflies outside todo are done; the places of the others still hold what they held. */
  ghost predicate PartlyButterflied<T(!new)>(R: Ring<T>, was: seq<T>, cur: seq<T>, h: nat, w: T, todo: set<nat>)
    requires h > 0
  {
    && |cur| == |was| && |was| % 2 == 0
    && forall i: nat | i < |was| / 2 ::
         if i in todo then Untouched(was, cur, h, i) else ButterflyDone(R, was, cur, h, w, i)
  }

  ghost predicate Untouched<T>(was: seq<T>, cur: seq<T>, h: nat, i: nat)
    requires h > 0 && |cur| == |was|
  {
    Lo(i, h) + h < |was| && cur[Lo(i, h)] == was[Lo(i, h)] && cur[Lo(i, h) + h] == was[Lo(i, h) + h]
  }

  lemma ButterflyStart<T(!new)>(R: Ring<T>, was: seq<T>, t: nat, st: nat, w: T)
    requires |was| == Exp2(t + st + 1)
    ensures PartlyButterflied(R, was, was, Exp2(st), w, Iterations(0, |was| / 2))
  {
    forall i: nat | i < |was| / 2
      ensures Untouched(was, was, Exp2(st), i)
    {
      LoBound(t, st, i);
    }
  }

  /** One butterfly, whichever index comes up. */
  lemma ButterflyStep<T(!new)>(R: Ring<T>, was: seq<T>, cur: seq<T>, next: seq<T>, h: nat, w: T, todo: set<nat>, i: nat)
    requires h > 0 && PartlyButterflied(R, was, cur, h, w, todo)
    requires i in todo && i < |was| / 2 && Lo(i, h) + h < |was|
    requires next == Updated(R, cur, Lo(i, h), h, R.Pow(w, i % h))
    ensures PartlyButterflied(R, was, next, h, w, todo - {i})
  {
    forall k: nat | k < |was| / 2
      ensures if k in todo - {i} then Untouched(was, next, h, k) else ButterflyDone(R, was, next, h, w, k)
    {
      LoDistinct(i, k, h);
      LoDistinct(k, i, h);
      assert Untouched(was, cur, h, i);
      assert k in todo ==> Untouched(was, cur, h, k);
      assert k !in todo ==> ButterflyDone(R, was, cur, h, w, k);
    }
  }

  lemma PermuteStart<T>(was: seq<T>, d: nat, todo: set<nat>)
    requires |was| == Exp2(d) && todo == Iterations(0, |was|)
    ensures PartlyPermuted(was, was, d, todo)
  {
    forall p: nat | p < |was|
      ensures PlaceAt(was, was, d, todo, p)
    {
    }
  }

  lemma PermuteEnd<T>(cur: seq<T>, was: seq<T>, d: nat)
    requires PartlyPermuted(cur, was, d, {})
    ensures cur == Permuted(was, d)
  {
    forall p: nat | p < |cur|
      ensures cur[p] == Permuted(was, d)[p]
    {
      assert PlaceAt(cur, was, d, {}, p);
    }
  }

  lemma Log2Unique(n: nat, d: nat, e: nat)
    requires n == Exp2(d) && Exp2(e) <= n < Exp2(e + 1)
    ensures d == e
  {
    if d < e { Exp2Mono(d + 1, e); }
    if e < d { Exp2Mono(e + 1, d); }
  }

  /** One iteration of the permutation loop, whichever index comes up. */
  lemma PermuteStep<T>(cur: seq<T>, next: seq<T>, was: seq<T>, d: nat, todo: set<nat>, i: nat)
    requires PartlyPermuted(cur, was, d, todo) && i in todo && i < |cur|
    requires var r := Rev(d, i); next == if i > r then cur[i := cur[r]][r := cur[i]] else cur
    ensures PartlyPermuted(next, was, d, todo - {i})
  {
    var r := Rev(d, i);
    RevInvolution(d, i);
    assert PlaceAt(cur, was, d, todo, i) && PlaceAt(cur, was, d, todo, r);
    forall p: nat | p < |cur|
      ensures PlaceAt(next, was, d, todo - {i}, p)
    {
      assert PlaceAt(cur, was, d, todo, p);
      RevInvolution(d, p);
    }
  }
}
