/** The discrete Fourier transform over a commutative ring, as evaluation of polynomials. */
module Fourier {
  import opened Algebra
  import opened Bits

  /** The value at x of the polynomial with coefficients p, lowest first. */
  function Eval<T(!new)>(R: Ring<T>, p: seq<T>, x: T): T {
    if p == [] then R.Zero() else R.Add(p[0], R.Mul(x, Eval(R, p[1..], x)))
  }

  /** The same value as a sum of terms p[j] * x^j over the first n coefficients. */
  function PowerSum<T(!new)>(R: Ring<T>, p: seq<T>, x: T, n: nat): T
    requires n <= |p|
  {
    if n == 0 then R.Zero() else R.Add(PowerSum(R, p, x, n - 1), R.Mul(p[n - 1], R.Pow(x, n - 1)))
  }

  function Dft<T(!new)>(R: Ring<T>, a: seq<T>, w: T): (r: seq<T>)
    ensures |r| == |a|
  {
    seq(|a|, i requires 0 <= i < |a| => Eval(R, a, R.Pow(w, i)))
  }

  function Even<T>(p: seq<T>): (r: seq<T>)
    ensures |r| == |p| / 2
  {
    seq(|p| / 2, i requires 0 <= i < |p| / 2 => p[2 * i])
  }

  function Odd<T>(p: seq<T>): (r: seq<T>)
    ensures |r| == |p| / 2
  {
    seq(|p| / 2, i requires 0 <= i < |p| / 2 => p[2 * i + 1])
  }

  function AddSeq<T(!new)>(R: Ring<T>, p: seq<T>, q: seq<T>): (r: seq<T>)
    requires |p| == |q|
    ensures |r| == |p|
  {
    seq(|p|, i requires 0 <= i < |p| => R.Add(p[i], q[i]))
  }

  function SubSeq<T(!new)>(R: Ring<T>, p: seq<T>, q: seq<T>): (r: seq<T>)
    requires |p| == |q|
    ensures |r| == |p|
  {
    seq(|p|, i requires 0 <= i < |p| => R.Sub(p[i], q[i]))
  }

  /** Multiplies coefficient i by w^i. */
  function Twist<T(!new)>(R: Ring<T>, p: seq<T>, w: T): (r: seq<T>)
    ensures |r| == |p|
  {
    seq(|p|, i requires 0 <= i < |p| => R.Mul(R.Pow(w, i), p[i]))
  }

  function ScaleSeq<T(!new)>(R: Ring<T>, c: T, p: seq<T>): (r: seq<T>)
    ensures |r| == |p|
  {
    seq(|p|, i requires 0 <= i < |p| => R.Mul(c, p[i]))
  }

  /** A root of unity of order 2^d in the strong sense: its half-order power is -1. */
  ghost predicate IsRoot<T(!new)>(R: Ring<T>, w: T, d: nat) {
    if d == 0 then w == R.one else R.Pow(w, Exp2(d - 1)) == R.Neg(R.one)
  }

  /** Powers of a root of order 2^m are roots of the lower orders. */
  lemma SmallerRoot<T(!new)>(R: Ring<T>, x: T, m: nat, d: nat)
    requires R.Valid() && 1 <= d <= m && IsRoot(R, x, m)
    ensures IsRoot(R, R.Pow(x, Exp2(m - d)), d)
  {
    R.PowPow(x, Exp2(m - d), Exp2(d - 1));
    Exp2Add(m - d, d - 1);
  }

  function Two<T(!new)>(R: Ring<T>): T { R.Add(R.one, R.one) }

  // ---------- evaluation ----------

  lemma {:induction false} EvalIsSum<T(!new)>(R: Ring<T>, p: seq<T>, x: T)
    requires R.Valid()
    ensures Eval(R, p, x) == PowerSum(R, p, x, |p|)
  {
    if p != [] {
      var q, last := p[..|p| - 1], p[|p| - 1];
      EvalConcat(R, q, [last], x);
      assert p == q + [last];
      EvalIsSum(R, q, x);
      PowerSumPrefix(R, p, q, x, |q|);
      R.MulZero(x); R.g.Unit(last);
      assert [last][1..] == [];
      R.Comm(last, R.Pow(x, |q|));
    }
  }

  lemma {:induction false} PowerSumPrefix<T(!new)>(R: Ring<T>, p: seq<T>, q: seq<T>, x: T, n: nat)
    requires q <= p && n <= |q|
    ensures PowerSum(R, p, x, n) == PowerSum(R, q, x, n)
  {
    if n > 0 { PowerSumPrefix(R, p, q, x, n - 1); }
  }

  lemma {:induction false} EvalConcat<T(!new)>(R: Ring<T>, p: seq<T>, q: seq<T>, x: T)
    requires R.Valid()
    ensures Eval(R, p + q, x) == R.Add(Eval(R, p, x), R.Mul(R.Pow(x, |p|), Eval(R, q, x)))
  {
    var eq := Eval(R, q, x);
    if p == [] {
      assert p + q == q;
      R.Unit(eq); R.g.Unit(eq);
    } else {
      var t := p[1..];
      assert (p + q)[1..] == t + q;
      EvalConcat(R, t, q, x);
      R.Distribute(x, Eval(R, t, x), R.Mul(R.Pow(x, |t|), eq));
      R.Assoc(x, R.Pow(x, |t|), eq);
      R.g.Assoc(p[0], R.Mul(x, Eval(R, t, x)), R.Mul(R.Pow(x, |p|), eq));
    }
  }

  lemma {:induction false} EvalAdd<T(!new)>(R: Ring<T>, p: seq<T>, q: seq<T>, x: T)
    requires R.Valid() && |p| == |q|
    ensures Eval(R, AddSeq(R, p, q), x) == R.Add(Eval(R, p, x), Eval(R, q, x))
  {
    if p == [] {
      R.g.Unit(R.Zero());
    } else {
      assert AddSeq(R, p, q)[1..] == AddSeq(R, p[1..], q[1..]);
      EvalAdd(R, p[1..], q[1..], x);
      var ep, eq := Eval(R, p[1..], x), Eval(R, q[1..], x);
      R.Distribute(x, ep, eq);
      R.g.Swap4(p[0], q[0], R.Mul(x, ep), R.Mul(x, eq));
    }
  }

  lemma {:induction false} EvalScale<T(!new)>(R: Ring<T>, c: T, p: seq<T>, x: T)
    requires R.Valid()
    ensures Eval(R, ScaleSeq(R, c, p), x) == R.Mul(c, Eval(R, p, x))
  {
    if p == [] {
      R.MulZero(c);
    } else {
      assert ScaleSeq(R, c, p)[1..] == ScaleSeq(R, c, p[1..]);
      var e := Eval(R, p[1..], x);
      EvalScale(R, c, p[1..], x);
      R.Swap(c, x, e);
      R.Distribute(c, p[0], R.Mul(x, e));
    }
  }

  lemma EvalSub<T(!new)>(R: Ring<T>, p: seq<T>, q: seq<T>, x: T)
    requires R.Valid() && |p| == |q|
    ensures Eval(R, SubSeq(R, p, q), x) == R.Sub(Eval(R, p, x), Eval(R, q, x))
  {
    var r := SubSeq(R, p, q);
    forall i | 0 <= i < |p|
      ensures AddSeq(R, r, q)[i] == p[i]
    {
      R.g.SubAdd(p[i], q[i]);
    }
    assert AddSeq(R, r, q) == p;
    EvalAdd(R, r, q, x);
    R.g.SubAdd(Eval(R, r, x), Eval(R, q, x));
  }

  lemma {:induction false} EvalTwist<T(!new)>(R: Ring<T>, p: seq<T>, w: T, x: T)
    requires R.Valid()
    ensures Eval(R, Twist(R, p, w), x) == Eval(R, p, R.Mul(w, x))
  {
    if p != [] {
      var t, y := Twist(R, p[1..], w), R.Mul(w, x);
      assert Twist(R, p, w)[1..] == ScaleSeq(R, w, t) by {
        forall i | 0 <= i < |t|
          ensures Twist(R, p, w)[i + 1] == R.Mul(w, t[i])
        {
          R.Assoc(w, R.Pow(w, i), p[i + 1]);
        }
      }
      EvalScale(R, w, t, x);
      EvalTwist(R, p[1..], w, x);
      R.Swap(x, w, Eval(R, t, x)); R.Assoc(w, x, Eval(R, t, x));
      R.Unit(p[0]);
    }
  }

  /** p(x) = even(x^2) + x * odd(x^2). */
  lemma {:induction false} EvalSplit<T(!new)>(R: Ring<T>, p: seq<T>, x: T)
    requires R.Valid() && |p| % 2 == 0
    ensures Eval(R, p, x) ==
            R.Add(Eval(R, Even(p), R.Mul(x, x)), R.Mul(x, Eval(R, Odd(p), R.Mul(x, x))))
  {
    if p == [] {
      R.MulZero(x); R.g.Unit(R.Zero());
    } else {
      var q, xx := p[2..], R.Mul(x, x);
      EvalSplit(R, q, x);
      assert Even(p) == [p[0]] + Even(q) && Odd(p) == [p[1]] + Odd(q);
      var e, o := Eval(R, Even(q), xx), Eval(R, Odd(q), xx);
      assert Even(p)[1..] == Even(q) && Odd(p)[1..] == Odd(q) && p[1..][1..] == q;
      var eq := R.Add(e, R.Mul(x, o));
      assert Eval(R, p, x) == R.Add(p[0], R.Mul(x, R.Add(p[1], R.Mul(x, eq))));
      HornerStep(R, p[0], p[1], x, e, o);
    }
  }

  lemma HornerStep<T(!new)>(R: Ring<T>, a: T, b: T, x: T, e: T, o: T)
    requires R.Valid()
    ensures R.Add(a, R.Mul(x, R.Add(b, R.Mul(x, R.Add(e, R.Mul(x, o)))))) ==
            R.Add(R.Add(a, R.Mul(R.Mul(x, x), e)), R.Mul(x, R.Add(b, R.Mul(R.Mul(x, x), o))))
  {
    var xx := R.Mul(x, x);
    var xo := R.Mul(x, o);
    R.Distribute(x, e, xo);
    R.Distribute(x, b, R.Add(R.Mul(x, e), R.Mul(x, xo)));
    R.Distribute(x, R.Mul(x, e), R.Mul(x, xo));
    R.Assoc(x, x, e); R.Assoc(x, x, o);
    R.Distribute(x, b, R.Mul(xx, o));
    R.g.Swap(R.Mul(x, b), R.Mul(xx, e), R.Mul(x, R.Mul(xx, o)));
    R.g.Assoc(a, R.Mul(xx, e), R.Add(R.Mul(x, b), R.Mul(x, R.Mul(xx, o))));
  }

  // ---------- roots of unity ----------

  lemma RootSquare<T(!new)>(R: Ring<T>, w: T, d: nat)
    requires R.Valid() && d > 0 && IsRoot(R, w, d)
    ensures IsRoot(R, R.Mul(w, w), d - 1)
  {
    R.PowSmall(w);
    if d == 1 {
      assert R.Pow(w, Exp2(0)) == w;
      R.MulNeg(R.one, R.one); R.Unit(R.one);
    } else {
      R.PowPow(w, 2, Exp2(d - 2));
    }
  }

  lemma RootOrder<T(!new)>(R: Ring<T>, w: T, d: nat)
    requires R.Valid() && IsRoot(R, w, d)
    ensures R.Pow(w, Exp2(d)) == R.one
  {
    R.PowSmall(w);
    if d > 0 {
      R.PowAdd(w, Exp2(d - 1), Exp2(d - 1));
      R.MulNeg(R.one, R.one); R.Unit(R.one);
    }
  }

  /** Adding half the order to the exponent changes the sign. */
  lemma RootHalfTurn<T(!new)>(R: Ring<T>, w: T, d: nat, i: nat)
    requires R.Valid() && d > 0 && IsRoot(R, w, d)
    ensures R.Pow(w, i + Exp2(d - 1)) == R.Neg(R.Pow(w, i))
  {
    R.PowAdd(w, i, Exp2(d - 1));
    R.MulNeg(R.Pow(w, i), R.one); R.Unit(R.Pow(w, i));
  }

  // ---------- the butterfly ----------

  /** The transform of a polynomial from the transforms of its even and odd parts. */
  lemma Butterfly<T(!new)>(R: Ring<T>, p: seq<T>, w: T, d: nat, j: nat)
    requires R.Valid() && d > 0 && IsRoot(R, w, d) && |p| == Exp2(d) && j < Exp2(d - 1)
    ensures var ww, h := R.Mul(w, w), Exp2(d - 1);
            var u, t := Eval(R, Even(p), R.Pow(ww, j)), R.Mul(R.Pow(w, j), Eval(R, Odd(p), R.Pow(ww, j)));
            Eval(R, p, R.Pow(w, j)) == R.Add(u, t) && Eval(R, p, R.Pow(w, j + h)) == R.Sub(u, t)
  {
    var x := R.Pow(w, j);
    EvalSplit(R, p, x);
    EvalSplit(R, p, R.Neg(x));
    R.PowMul(w, w, j);
    RootHalfTurn(R, w, d, j);
    R.MulNeg(x, x);
    R.MulNeg(x, Eval(R, Odd(p), R.Mul(x, x)));
  }

  // ---------- transforming twice ----------

  /** The place transforming twice sends k to: -k modulo n. */
  function Reflect(n: nat, k: nat): (r: nat)
    requires k < n
    ensures r < n
  {
    if k == 0 then 0 else n - k
  }

  /** b lists the values of a at the powers of w. */
  ghost predicate IsDft<T(!new)>(R: Ring<T>, a: seq<T>, w: T, b: seq<T>) {
    |b| == |a| && forall i | 0 <= i < |a| :: b[i] == Eval(R, a, R.Pow(w, i))
  }

  lemma DftIs<T(!new)>(R: Ring<T>, a: seq<T>, w: T) returns (b: seq<T>)
    ensures b == Dft(R, a, w) && IsDft(R, a, w, b)
  {
    b := Dft(R, a, w);
  }

  lemma DftConcatAt<T(!new)>(R: Ring<T>, a: seq<T>, b: seq<T>, e: seq<T>, o: seq<T>, w: T, d: nat, j: nat)
    requires R.Valid() && d > 0 && IsRoot(R, w, d) && |a| == Exp2(d) && j < Exp2(d - 1)
    requires IsDft(R, a, w, b) && IsDft(R, Even(a), R.Mul(w, w), e) && IsDft(R, Odd(a), R.Mul(w, w), o)
    ensures var t := R.Mul(R.Pow(w, j), o[j]);
            b[j] == R.Add(e[j], t) && b[j + Exp2(d - 1)] == R.Sub(e[j], t)
  {
    Butterfly(R, a, w, d, j);
  }

  lemma DftConcat<T(!new)>(R: Ring<T>, a: seq<T>, b: seq<T>, e: seq<T>, o: seq<T>, w: T, d: nat)
    requires R.Valid() && d > 0 && IsRoot(R, w, d) && |a| == Exp2(d)
    requires IsDft(R, a, w, b) && IsDft(R, Even(a), R.Mul(w, w), e) && IsDft(R, Odd(a), R.Mul(w, w), o)
    ensures |b| == 2 * Exp2(d - 1) && |e| == |o| == Exp2(d - 1)
    ensures b[..Exp2(d - 1)] == AddSeq(R, e, Twist(R, o, w))
    ensures b[Exp2(d - 1)..] == SubSeq(R, e, Twist(R, o, w))
  {
    var h, t := Exp2(d - 1), Twist(R, o, w);
    var p, m := AddSeq(R, e, t), SubSeq(R, e, t);
    forall j | 0 <= j < h
      ensures b[..h][j] == p[j] && b[h..][j] == m[j]
    {
      DftConcatAt(R, a, b, e, o, w, d, j);
    }
  }

  /** The second transform at w^k, from the transforms of the even and odd parts. */
  lemma DftPieces<T(!new)>(R: Ring<T>, a: seq<T>, b: seq<T>, e: seq<T>, o: seq<T>, w: T, d: nat, k: nat)
    requires R.Valid() && d > 0 && IsRoot(R, w, d) && |a| == Exp2(d)
    requires IsDft(R, a, w, b) && IsDft(R, Even(a), R.Mul(w, w), e) && IsDft(R, Odd(a), R.Mul(w, w), o)
    ensures var u, v := Eval(R, e, R.Pow(w, k)), Eval(R, o, R.Pow(w, k + 1));
            Eval(R, b, R.Pow(w, k)) == if k % 2 == 0 then R.Add(u, u) else R.Add(v, v)
  {
    var t, x, h := Twist(R, o, w), R.Pow(w, k), Exp2(d - 1);
    DftConcat(R, a, b, e, o, w, d);
    assert b == b[..h] + b[h..];
    EvalConcat(R, b[..h], b[h..], x);
    EvalAdd(R, e, t, x); EvalSub(R, e, t, x); EvalTwist(R, o, w, x);
    HalfPower(R, w, d, k);
    var u, v := Eval(R, e, x), Eval(R, o, R.Pow(w, k + 1));
    if k % 2 == 0 {
      R.Unit(R.Sub(u, v));
      CancelOut(R, u, v);
    } else {
      TurnedOut(R, u, v);
    }
  }

  lemma CancelOut<T(!new)>(R: Ring<T>, u: T, v: T)
    requires R.Valid()
    ensures R.Add(R.Add(u, v), R.Sub(u, v)) == R.Add(u, u)
  {
    R.g.Swap4(u, v, u, R.Neg(v)); R.g.Inverse(v); R.g.Unit(R.Add(u, u));
  }

  lemma TurnedOut<T(!new)>(R: Ring<T>, u: T, v: T)
    requires R.Valid()
    ensures R.Add(R.Add(u, v), R.Mul(R.Neg(R.one), R.Sub(u, v))) == R.Add(v, v)
  {
    R.MulNeg(R.one, R.Sub(u, v)); R.Unit(R.Sub(u, v)); R.g.NegLaws(u, v);
    R.g.Comm(u, v);
    CancelOut(R, v, u);
  }

  lemma HalfPower<T(!new)>(R: Ring<T>, w: T, d: nat, k: nat)
    requires R.Valid() && d > 0 && IsRoot(R, w, d)
    ensures R.Pow(R.Pow(w, k), Exp2(d - 1)) == if k % 2 == 0 then R.one else R.Neg(R.one)
  {
    var h := Exp2(d - 1);
    R.PowPow(w, k, h);
    R.PowPow(w, h, k);
    assert k * h == h * k;
    SignPower(R, k);
  }

  lemma {:induction false} SignPower<T(!new)>(R: Ring<T>, k: nat)
    requires R.Valid()
    ensures R.Pow(R.Neg(R.one), k) == if k % 2 == 0 then R.one else R.Neg(R.one)
  {
    if k > 0 {
      SignPower(R, k - 1);
      R.MulNeg(R.one, R.one); R.Unit(R.one); R.Unit(R.Neg(R.one));
    }
  }

  lemma SquarePower<T(!new)>(R: Ring<T>, w: T, m: nat)
    requires R.Valid()
    ensures R.Pow(w, 2 * m) == R.Pow(R.Mul(w, w), m)
  {
    R.PowPow(w, 2, m); R.PowSmall(w);
  }

  lemma ScaleTwice<T(!new)>(R: Ring<T>, d: nat, x: T)
    requires R.Valid() && d > 0
    ensures var y := R.Mul(R.Pow(Two(R), d - 1), x);
            R.Add(y, y) == R.Mul(R.Pow(Two(R), d), x)
  {
    var y := R.Mul(R.Pow(Two(R), d - 1), x);
    R.Assoc(Two(R), R.Pow(Two(R), d - 1), x);
    R.Distribute(y, R.one, R.one); R.Unit(y);
  }

  lemma EvalSingle<T(!new)>(R: Ring<T>, p: seq<T>, x: T)
    requires R.Valid() && |p| == 1
    ensures Eval(R, p, x) == p[0]
  {
    R.MulZero(x); R.g.Unit(p[0]);
    assert p[1..] == [];
  }

  /** Transforming twice gives n * a[-k mod n]. */
  lemma {:induction false} DftTwice<T(!new)>(R: Ring<T>, a: seq<T>, b: seq<T>, w: T, d: nat, k: nat)
    requires R.Valid() && IsRoot(R, w, d) && |a| == Exp2(d) && k < Exp2(d) && IsDft(R, a, w, b)
    ensures Eval(R, b, R.Pow(w, k)) == R.Mul(R.Pow(Two(R), d), a[Reflect(|a|, k)])
    decreases d, 2
  {
    if d == 0 {
      EvalSingle(R, a, R.Pow(w, 0)); EvalSingle(R, b, R.Pow(w, k)); R.Unit(a[0]);
    } else {
      var e := DftIs(R, Even(a), R.Mul(w, w));
      var o := DftIs(R, Odd(a), R.Mul(w, w));
      DftTwiceStep(R, a, b, e, o, w, d, k);
    }
  }

  lemma {:induction false} DftTwiceStep<T(!new)>(R: Ring<T>, a: seq<T>, b: seq<T>, e: seq<T>, o: seq<T>, w: T, d: nat,
      k: nat)
    requires R.Valid() && d > 0 && IsRoot(R, w, d) && |a| == Exp2(d) && k < Exp2(d)
    requires IsDft(R, a, w, b) && IsDft(R, Even(a), R.Mul(w, w), e) && IsDft(R, Odd(a), R.Mul(w, w), o)
    ensures Eval(R, b, R.Pow(w, k)) == R.Mul(R.Pow(Two(R), d), a[Reflect(|a|, k)])
    decreases d, 1
  {
    DftPieces(R, a, b, e, o, w, d, k);
    if k % 2 == 0 {
      DftTwiceEven(R, a, e, w, d, k / 2);
    } else {
      DftTwiceOdd(R, a, o, w, d, k / 2 + 1);
    }
  }

  lemma {:induction false} DftTwiceEven<T(!new)>(R: Ring<T>, a: seq<T>, e: seq<T>, w: T, d: nat, m: nat)
    requires R.Valid() && d > 0 && IsRoot(R, w, d) && |a| == Exp2(d)
    requires IsDft(R, Even(a), R.Mul(w, w), e) && m < Exp2(d - 1)
    ensures var u := Eval(R, e, R.Pow(w, 2 * m));
            R.Add(u, u) == R.Mul(R.Pow(Two(R), d), a[Reflect(|a|, 2 * m)])
    decreases d, 0
  {
    RootSquare(R, w, d);
    SquarePower(R, w, m);
    DftTwice(R, Even(a), e, R.Mul(w, w), d - 1, m);
    var i := Reflect(Exp2(d - 1), m);
    assert Reflect(|a|, 2 * m) == 2 * i && Even(a)[i] == a[2 * i];
    ScaleTwice(R, d, a[2 * i]);
  }

  lemma {:induction false} DftTwiceOdd<T(!new)>(R: Ring<T>, a: seq<T>, o: seq<T>, w: T, d: nat, m: nat)
    requires R.Valid() && d > 0 && IsRoot(R, w, d) && |a| == Exp2(d)
    requires IsDft(R, Odd(a), R.Mul(w, w), o) && 0 < m <= Exp2(d - 1)
    ensures var v := Eval(R, o, R.Pow(w, 2 * m));
            R.Add(v, v) == R.Mul(R.Pow(Two(R), d), a[Reflect(|a|, 2 * m - 1)])
    decreases d, 0
  {
    RootSquare(R, w, d);
    SquarePower(R, w, m);
    RootOrder(R, R.Mul(w, w), d - 1);
    var m0 := if m == Exp2(d - 1) then 0 else m;
    assert R.Pow(R.Mul(w, w), m) == R.Pow(R.Mul(w, w), m0);
    DftTwice(R, Odd(a), o, R.Mul(w, w), d - 1, m0);
    var i := Reflect(Exp2(d - 1), m0);
    assert Reflect(|a|, 2 * m - 1) == 2 * i + 1 && Odd(a)[i] == a[2 * i + 1];
    ScaleTwice(R, d, a[2 * i + 1]);
  }

  // ---------- the inverse transform ----------

  /** Transform, reflect the places, scale by c. */
  function InverseDft<T(!new)>(R: Ring<T>, a: seq<T>, w: T, c: T): (r: seq<T>)
    ensures |r| == |a|
  {
    seq(|a|, i requires 0 <= i < |a| => R.Mul(Eval(R, a, R.Pow(w, Reflect(|a|, i))), c))
  }

  lemma ScaleAway<T(!new)>(R: Ring<T>, d: nat, c: T, x: T)
    requires R.Valid() && R.Mul(c, R.Pow(Two(R), d)) == R.one
    ensures R.Mul(c, R.Mul(R.Pow(Two(R), d), x)) == x && R.Mul(R.Mul(R.Pow(Two(R), d), x), c) == x
  {
    R.Assoc(c, R.Pow(Two(R), d), x); R.Unit(x);
    R.Comm(c, R.Mul(R.Pow(Two(R), d), x));
  }

  lemma InverseAfterAt<T(!new)>(R: Ring<T>, a: seq<T>, b: seq<T>, w: T, d: nat, c: T, i: nat)
    requires R.Valid() && IsRoot(R, w, d) && |a| == Exp2(d) && R.Mul(c, R.Pow(Two(R), d)) == R.one
    requires IsDft(R, a, w, b) && i < |a|
    ensures R.Mul(Eval(R, b, R.Pow(w, Reflect(|b|, i))), c) == a[i]
  {
    DftTwice(R, a, b, w, d, Reflect(|b|, i));
    ScaleAway(R, d, c, a[i]);
  }

  /** The inverse undoes the transform, whatever n = 2^d and the input are. */
  lemma InverseAfterDft<T(!new)>(R: Ring<T>, a: seq<T>, w: T, d: nat, c: T)
    requires R.Valid() && IsRoot(R, w, d) && |a| == Exp2(d) && R.Mul(c, R.Pow(Two(R), d)) == R.one
    ensures InverseDft(R, Dft(R, a, w), w, c) == a
  {
    var b := DftIs(R, a, w);
    forall i | 0 <= i < |a|
      ensures InverseDft(R, b, w, c)[i] == a[i]
    {
      InverseAfterAt(R, a, b, w, d, c, i);
    }
  }

  /** The inverse is the third power of the transform, scaled twice. */
  lemma InverseIsThird<T(!new)>(R: Ring<T>, a: seq<T>, b: seq<T>, e: seq<T>, f: seq<T>, w: T, d: nat, c: T)
    requires R.Valid() && IsRoot(R, w, d) && |a| == Exp2(d) && R.Mul(c, R.Pow(Two(R), d)) == R.one
    requires IsDft(R, a, w, b) && IsDft(R, b, w, e) && IsDft(R, e, w, f)
    ensures InverseDft(R, a, w, c) == ScaleSeq(R, R.Mul(c, c), f)
  {
    var r, q := InverseDft(R, a, w, c), ScaleSeq(R, R.Mul(c, c), f);
    forall i | 0 <= i < |a|
      ensures r[i] == q[i]
    {
      var x := b[Reflect(|b|, i)];
      DftTwice(R, b, e, w, d, i);
      assert f[i] == R.Mul(R.Pow(Two(R), d), x);
      R.Assoc(c, c, f[i]);
      ScaleAway(R, d, c, x);
      R.Comm(c, x);
    }
  }

  lemma DftAfterAt<T(!new)>(R: Ring<T>, a: seq<T>, b: seq<T>, e: seq<T>, f: seq<T>, w: T, d: nat, c: T, k: nat)
    requires R.Valid() && IsRoot(R, w, d) && |a| == Exp2(d) && R.Mul(c, R.Pow(Two(R), d)) == R.one
    requires IsDft(R, a, w, b) && IsDft(R, b, w, e) && IsDft(R, e, w, f) && k < |a|
    ensures Eval(R, ScaleSeq(R, R.Mul(c, c), f), R.Pow(w, k)) == a[k]
  {
    var n, x := R.Pow(Two(R), d), R.Pow(w, k);
    EvalScale(R, R.Mul(c, c), f, x);
    DftTwice(R, e, f, w, d, k);
    DftTwice(R, a, b, w, d, Reflect(|a|, k));
    assert e[Reflect(|a|, k)] == R.Mul(n, a[k]);
    R.Assoc(c, c, R.Mul(n, R.Mul(n, a[k])));
    ScaleAway(R, d, c, R.Mul(n, a[k]));
    ScaleAway(R, d, c, a[k]);
  }

  /** The transform undoes the inverse. */
  lemma DftAfterInverse<T(!new)>(R: Ring<T>, a: seq<T>, w: T, d: nat, c: T)
    requires R.Valid() && IsRoot(R, w, d) && |a| == Exp2(d) && R.Mul(c, R.Pow(Two(R), d)) == R.one
    ensures Dft(R, InverseDft(R, a, w, c), w) == a
  {
    var b := DftIs(R, a, w);
    var e := DftIs(R, b, w);
    var f := DftIs(R, e, w);
    InverseIsThird(R, a, b, e, f, w, d, c);
    var q := ScaleSeq(R, R.Mul(c, c), f);
    forall k | 0 <= k < |a|
      ensures Dft(R, q, w)[k] == a[k]
    {
      DftAfterAt(R, a, b, e, f, w, d, c, k);
    }
  }
}
