/** The quotient of A * B - C by X^n - 1 when C interpolates the products of A and B on the n-th roots. */
module Quotient {
  import opened Algebra
  import opened Bits
  import opened Fourier

  function Zeros<T(!new)>(R: Ring<T>, n: nat): (r: seq<T>)
    ensures |r| == n
  {
    seq(n, _ => R.Zero())
  }

  /** Coefficients of the product, with a zero on top: as many as the factors have together. */
  function PolyMul<T(!new)>(R: Ring<T>, p: seq<T>, q: seq<T>): (r: seq<T>)
    ensures |r| == |p| + |q|
  {
    if p == [] then Zeros(R, |q|)
    else AddSeq(R, ScaleSeq(R, p[0], q) + Zeros(R, |p|), [R.Zero()] + PolyMul(R, p[1..], q))
  }

  /** h * (X^n - 1) for h of n coefficients. */
  function TimesXnMinusOne<T(!new)>(R: Ring<T>, h: seq<T>): (r: seq<T>)
    ensures |r| == 2 * |h|
  {
    SubSeq(R, Zeros(R, |h|) + h, h + Zeros(R, |h|))
  }

  function MulSeq<T(!new)>(R: Ring<T>, p: seq<T>, q: seq<T>): (r: seq<T>)
    requires |p| == |q|
    ensures |r| == |p|
  {
    seq(|p|, i requires 0 <= i < |p| => R.Mul(p[i], q[i]))
  }

  lemma {:induction false} EvalZeros<T(!new)>(R: Ring<T>, n: nat, x: T)
    requires R.Valid()
    ensures Eval(R, Zeros(R, n), x) == R.Zero()
  {
    if n > 0 {
      assert Zeros(R, n)[1..] == Zeros(R, n - 1);
      EvalZeros(R, n - 1, x);
      R.MulZero(x); R.g.Unit(R.Zero());
    }
  }

  lemma EvalPadded<T(!new)>(R: Ring<T>, p: seq<T>, n: nat, x: T)
    requires R.Valid()
    ensures Eval(R, p + Zeros(R, n), x) == Eval(R, p, x)
    ensures Eval(R, Zeros(R, n) + p, x) == R.Mul(R.Pow(x, n), Eval(R, p, x))
  {
    EvalZeros(R, n, x);
    EvalConcat(R, p, Zeros(R, n), x);
    EvalConcat(R, Zeros(R, n), p, x);
    R.MulZero(R.Pow(x, |p|)); R.g.Unit(Eval(R, p, x));
    R.g.Unit(R.Mul(R.Pow(x, n), Eval(R, p, x)));
  }

  /** The values of h * (X^n - 1). */
  lemma EvalTimesXnMinusOne<T(!new)>(R: Ring<T>, h: seq<T>, x: T)
    requires R.Valid()
    ensures Eval(R, TimesXnMinusOne(R, h), x) == R.Mul(Eval(R, h, x), R.Sub(R.Pow(x, |h|), R.one))
  {
    var e, p := Eval(R, h, x), R.Pow(x, |h|);
    EvalSub(R, Zeros(R, |h|) + h, h + Zeros(R, |h|), x);
    EvalPadded(R, h, |h|, x);
    R.DistributeSub(e, p, R.one); R.Unit(e); R.Comm(p, e);
  }

  lemma {:induction false} EvalMul<T(!new)>(R: Ring<T>, p: seq<T>, q: seq<T>, x: T)
    requires R.Valid()
    ensures Eval(R, PolyMul(R, p, q), x) == R.Mul(Eval(R, p, x), Eval(R, q, x))
  {
    var eq := Eval(R, q, x);
    if p == [] {
      EvalZeros(R, |q|, x); R.MulZero(eq);
    } else {
      var t, m := p[1..], PolyMul(R, p[1..], q);
      EvalMul(R, t, q, x);
      EvalAdd(R, ScaleSeq(R, p[0], q) + Zeros(R, |p|), [R.Zero()] + m, x);
      EvalPadded(R, ScaleSeq(R, p[0], q), |p|, x);
      EvalScale(R, p[0], q, x);
      assert ([R.Zero()] + m)[1..] == m;
      R.g.Unit(R.Mul(x, Eval(R, m, x)));
      R.Distribute(eq, p[0], R.Mul(x, Eval(R, t, x)));
      R.Assoc(x, Eval(R, t, x), eq);
    }
  }

  /** Folding the product at n: on n-th roots of unity X^n is 1. */
  lemma FoldedAt<T(!new)>(R: Ring<T>, p: seq<T>, q: seq<T>, n: nat, x: T)
    requires R.Valid() && |p| == |q| == n && R.Pow(x, n) == R.one
    ensures var m := PolyMul(R, p, q);
            Eval(R, AddSeq(R, m[..n], m[n..]), x) == R.Mul(Eval(R, p, x), Eval(R, q, x))
  {
    var m := PolyMul(R, p, q);
    EvalMul(R, p, q, x);
    assert m == m[..n] + m[n..];
    EvalConcat(R, m[..n], m[n..], x);
    EvalAdd(R, m[..n], m[n..], x);
    R.Unit(Eval(R, m[n..], x));
  }

  /** The folded product takes the products of the values on the n-th roots. */
  lemma FoldedDft<T(!new)>(R: Ring<T>, p: seq<T>, q: seq<T>, m: seq<T>, w: T, d: nat)
    requires R.Valid() && IsRoot(R, w, d) && |p| == |q| == Exp2(d) && m == PolyMul(R, p, q)
    ensures Dft(R, AddSeq(R, m[..|p|], m[|p|..]), w) == MulSeq(R, Dft(R, p, w), Dft(R, q, w))
  {
    var f := AddSeq(R, m[..|p|], m[|p|..]);
    var l, r := Dft(R, f, w), MulSeq(R, Dft(R, p, w), Dft(R, q, w));
    forall i | 0 <= i < |p|
      ensures l[i] == r[i]
    {
      UnitPower(R, w, d, i);
      FoldedAt(R, p, q, |p|, R.Pow(w, i));
    }
  }

  lemma UnitPower<T(!new)>(R: Ring<T>, w: T, d: nat, i: nat)
    requires R.Valid() && IsRoot(R, w, d)
    ensures R.Pow(R.Pow(w, i), Exp2(d)) == R.one
  {
    var n := Exp2(d);
    R.PowPow(w, i, n); R.PowPow(w, n, i); RootOrder(R, w, d); R.PowOne(i);
    assert i * n == n * i;
  }

  /** The interpolant of the products is the folded product. */
  lemma InterpolantIsFolded<T(!new)>(R: Ring<T>, p: seq<T>, q: seq<T>, c: seq<T>, m: seq<T>, w: T, d: nat, inv: T)
    requires R.Valid() && IsRoot(R, w, d) && |p| == |q| == |c| == Exp2(d) && m == PolyMul(R, p, q)
    requires R.Mul(inv, R.Pow(Two(R), d)) == R.one
    requires Dft(R, c, w) == MulSeq(R, Dft(R, p, w), Dft(R, q, w))
    ensures c == AddSeq(R, m[..|c|], m[|c|..])
  {
    FoldedDft(R, p, q, m, w, d);
    InverseAfterDft(R, AddSeq(R, m[..|p|], m[|p|..]), w, d, inv);
    InverseAfterDft(R, c, w, d, inv);
  }

  /** lo + X^n hi = (lo + hi) + (X^n - 1) hi. */
  lemma FoldedIdentity<T(!new)>(R: Ring<T>, m: seq<T>, c: seq<T>, n: nat)
    requires R.Valid() && |m| == 2 * n && |c| == n && c == AddSeq(R, m[..n], m[n..])
    ensures SubSeq(R, m, c + Zeros(R, n)) == TimesXnMinusOne(R, m[n..])
  {
    var l, r := SubSeq(R, m, c + Zeros(R, n)), TimesXnMinusOne(R, m[n..]);
    forall i | 0 <= i < 2 * n
      ensures l[i] == r[i]
    {
      if i < n {
        assert c[i] == R.Add(m[..n][i], m[n..][i]);
        FoldedDifference(R, m[i], m[n..][i]);
      }
    }
  }

  /** A * B - C = H * (X^n - 1), coefficient by coefficient, with H the upper half of A * B. */
  lemma QuotientIdentity<T(!new)>(R: Ring<T>, p: seq<T>, q: seq<T>, c: seq<T>, m: seq<T>, w: T, d: nat, inv: T)
    requires R.Valid() && IsRoot(R, w, d) && |p| == |q| == |c| == Exp2(d) && m == PolyMul(R, p, q)
    requires R.Mul(inv, R.Pow(Two(R), d)) == R.one
    requires Dft(R, c, w) == MulSeq(R, Dft(R, p, w), Dft(R, q, w))
    ensures SubSeq(R, m, c + Zeros(R, |c|)) == TimesXnMinusOne(R, m[|c|..])
  {
    InterpolantIsFolded(R, p, q, c, m, w, d, inv);
    FoldedIdentity(R, m, c, |c|);
  }

  lemma FoldedDifference<T(!new)>(R: Ring<T>, a: T, b: T)
    requires R.Valid()
    ensures R.Sub(a, R.Add(a, b)) == R.Sub(R.Zero(), b)
  {
    R.g.NegAdd(a, b);
    R.g.Assoc(a, R.Neg(a), R.Neg(b)); R.g.Inverse(a);
  }

  /** Off the n-th roots of unity, where X^n = -1, the difference is -2 H. */
  lemma QuotientOnCoset<T(!new)>(R: Ring<T>, p: seq<T>, q: seq<T>, c: seq<T>, m: seq<T>, w: T, d: nat, inv: T, x: T)
    requires R.Valid() && IsRoot(R, w, d) && |p| == |q| == |c| == Exp2(d) && m == PolyMul(R, p, q)
    requires R.Mul(inv, R.Pow(Two(R), d)) == R.one
    requires Dft(R, c, w) == MulSeq(R, Dft(R, p, w), Dft(R, q, w))
    requires R.Pow(x, |p|) == R.Neg(R.one)
    ensures R.Sub(R.Mul(Eval(R, p, x), Eval(R, q, x)), Eval(R, c, x)) ==
            R.Neg(R.Mul(Two(R), Eval(R, m[|c|..], x)))
  {
    var n, h := |c|, m[|c|..];
    QuotientIdentity(R, p, q, c, m, w, d, inv);
    EvalSub(R, m, c + Zeros(R, n), x);
    EvalMul(R, p, q, x);
    EvalPadded(R, c, n, x);
    EvalSub(R, Zeros(R, n) + h, h + Zeros(R, n), x);
    EvalPadded(R, h, n, x);
    MinusTwice(R, Eval(R, h, x));
  }

  lemma MinusTwice<T(!new)>(R: Ring<T>, y: T)
    requires R.Valid()
    ensures R.Sub(R.Mul(R.Neg(R.one), y), y) == R.Neg(R.Mul(Two(R), y))
  {
    R.MulNeg(R.one, y); R.Unit(y);
    R.Distribute(y, R.one, R.one);
    R.g.NegAdd(y, y);
  }
}
