/** The prover's way from the values of a and b on the n-th roots to the values of the quotient on the
    shifted roots. */
module ProverQuotient {
  import opened Algebra
  import opened Bits
  import opened Fourier
  import opened Fft
  import opened ParallelFor
  import opened Quotient

  /** The loops over the whole domain: every entry is rewritten from old entries at its own place. */
  ghost predicate PartlyMapped<T>(was: seq<T>, cur: seq<T>, target: seq<T>, todo: set<nat>) {
    && |was| == |cur| == |target|
    && forall i: nat | i < |cur| :: cur[i] == if i in todo then was[i] else target[i]
  }

  lemma TwistAt<T(!new)>(R: Ring<T>, p: seq<T>, z: T, i: nat)
    requires i < |p|
    ensures Twist(R, p, z)[i] == R.Mul(R.Pow(z, i), p[i])
  {
  }

  lemma MapStep<T>(was: seq<T>, cur: seq<T>, next: seq<T>, target: seq<T>, todo: set<nat>, i: nat)
    requires PartlyMapped(was, cur, target, todo) && i in todo && i < |cur| && next == cur[i := target[i]]
    ensures PartlyMapped(was, next, target, todo - {i})
  {
  }

  lemma MapEnd<T>(was: seq<T>, cur: seq<T>, target: seq<T>)
    requires PartlyMapped(was, cur, target, {})
    ensures cur == target
  {
  }

  method ShiftOne<T(!new, ==)>(f: FFT<T>, a: array<T>, domainPower: nat, i: nat)
    requires f.Valid() && domainPower < f.s && a.Length == Exp2(domainPower) && i < a.Length
    modifies a
    ensures a[..] == old(a[..])[i := f.R.Mul(f.R.Pow(f.Omega(domainPower + 1), i), old(a[i]))]
  {
    var root := f.Root(domainPower + 1, i);
    f.R.Comm(a[i], root);
    a[i] := f.R.Mul(a[i], root);
  }

  /** Multiplies entry i by the i-th power of the root of order 2n. */
  method ShiftToCoset<T(!new, ==)>(f: FFT<T>, a: array<T>, domainPower: nat)
    requires f.Valid() && domainPower < f.s && a.Length == Exp2(domainPower)
    modifies a
    ensures a[..] == Twist(f.R, old(a[..]), f.Omega(domainPower + 1))
  {
    ghost var was := a[..];
    ghost var z := f.Omega(domainPower + 1);
    ghost var target := Twist(f.R, was, z);
    var todo := Iterations(0, a.Length);
    while todo != {}
      invariant todo <= Iterations(0, a.Length)
      invariant PartlyMapped(was, a[..], target, todo)
    {
      var i :| i in todo;
      ghost var cur := a[..];
      ShiftOne(f, a, domainPower, i);
      TwistAt(f.R, was, z, i);
      MapStep(was, cur, a[..], target, todo, i);
      todo := todo - {i};
    }
    MapEnd(was, a[..], target);
  }

  /** ifft, coset shift, fft: from values on the n-th roots to values on the odd powers of the root
      of order 2n. */
  method ToCoset<T(!new, ==)>(f: FFT<T>, a: array<T>, domainPower: nat, ghost w: T, ghost z: T, ghost inv: T)
    requires f.Valid() && domainPower < f.s && a.Length == Exp2(domainPower)
    requires w == f.Omega(domainPower) && z == f.Omega(domainPower + 1) && inv == f.powTwoInv[domainPower]
    modifies a
    ensures OnCoset(f.R, a[..], InverseDft(f.R, old(a[..]), w, inv), z)
  {
    f.Ifft(a, domainPower);
    ghost var p := a[..];
    ShiftToCoset(f, a, domainPower);
    f.Fft(a, domainPower);
    f.OmegaSquared(domainPower + 1);
    TwistedDft(f.R, p, z, w);
  }

  /** The three arrays, one after the other: they share nothing but the tables. */
  method AllToCoset<T(!new, ==)>(f: FFT<T>, a: array<T>, b: array<T>, c: array<T>, domainPower: nat,
                                 ghost w: T, ghost z: T, ghost inv: T)
    requires f.Valid() && domainPower < f.s && a.Length == b.Length == c.Length == Exp2(domainPower)
    requires a != b && a != c && b != c
    requires w == f.Omega(domainPower) && z == f.Omega(domainPower + 1) && inv == f.powTwoInv[domainPower]
    modifies a, b, c
    ensures OnCoset(f.R, a[..], InverseDft(f.R, old(a[..]), w, inv), z)
    ensures OnCoset(f.R, b[..], InverseDft(f.R, old(b[..]), w, inv), z)
    ensures OnCoset(f.R, c[..], InverseDft(f.R, old(c[..]), w, inv), z)
  {
    ToCoset(f, a, domainPower, w, z, inv);
    ToCoset(f, b, domainPower, w, z, inv);
    ToCoset(f, c, domainPower, w, z, inv);
  }

  /** v lists the values of p at z, z^3, z^5, ... */
  ghost predicate OnCoset<T(!new)>(R: Ring<T>, v: seq<T>, p: seq<T>, z: T) {
    |v| == |p| && forall k: nat | k < |v| :: v[k] == Eval(R, p, R.Pow(z, 2 * k + 1))
  }

  /** v lists -2 h at z, z^3, z^5, ... */
  ghost predicate MinusTwiceOnCoset<T(!new)>(R: Ring<T>, v: seq<T>, h: seq<T>, z: T) {
    |v| == |h| && forall k: nat | k < |v| :: v[k] == MinusTwiceAt(R, h, R.Pow(z, 2 * k + 1))
  }

  /** v lists -2 h at z, z^3, z^5, ... out of Montgomery form. */
  ghost predicate QuotientsOnCoset<T(!new)>(R: Ring<T>, v: seq<T>, h: seq<T>, z: T, fromMontgomery: T -> T) {
    |v| == |h| && forall k: nat | k < |v| :: v[k] == fromMontgomery(MinusTwiceAt(R, h, R.Pow(z, 2 * k + 1)))
  }

  /** -2 h(x) */
  function MinusTwiceAt<T(!new)>(R: Ring<T>, h: seq<T>, x: T): T { R.Neg(R.Mul(Two(R), Eval(R, h, x))) }

  lemma TwistedDft<T(!new)>(R: Ring<T>, p: seq<T>, z: T, w: T)
    requires R.Valid() && w == R.Mul(z, z)
    ensures OnCoset(R, Dft(R, Twist(R, p, z), w), p, z)
  {
    var v := DftIs(R, Twist(R, p, z), w);
    forall k: nat | k < |v|
      ensures v[k] == Eval(R, p, R.Pow(z, 2 * k + 1))
    {
      EvalTwist(R, p, z, R.Pow(w, k));
      SquarePower(R, z, k);
    }
  }

  method MulInto<T(!new)>(R: Ring<T>, c: array<T>, a: array<T>, b: array<T>)
    requires c != a && c != b && a.Length == b.Length == c.Length
    modifies c
    ensures c[..] == MulSeq(R, a[..], b[..])
  {
    ghost var was := c[..];
    ghost var target := MulSeq(R, a[..], b[..]);
    var todo := Iterations(0, c.Length);
    while todo != {}
      invariant todo <= Iterations(0, c.Length)
      invariant PartlyMapped(was, c[..], target, todo)
    {
      var i :| i in todo;
      c[i] := R.Mul(a[i], b[i]);
      todo := todo - {i};
    }
    assert c[..] == target;
  }

  /** The entries of v out of Montgomery form. */
  function Mapped<T>(v: seq<T>, fromMontgomery: T -> T): (r: seq<T>)
    ensures |r| == |v|
  {
    seq(|v|, i requires 0 <= i < |v| => fromMontgomery(v[i]))
  }

  /** a * b - c, entry by entry and out of Montgomery form, into a. */
  method MulSubInto<T(!new)>(R: Ring<T>, a: array<T>, b: array<T>, c: array<T>, fromMontgomery: T -> T)
    requires a != b && a != c && a.Length == b.Length == c.Length
    modifies a
    ensures a[..] == Mapped(SubSeq(R, MulSeq(R, old(a[..]), b[..]), c[..]), fromMontgomery)
  {
    ghost var was := a[..];
    ghost var target := Mapped(SubSeq(R, MulSeq(R, was, b[..]), c[..]), fromMontgomery);
    var todo := Iterations(0, a.Length);
    while todo != {}
      invariant todo <= Iterations(0, a.Length)
      invariant PartlyMapped(was, a[..], target, todo)
    {
      var i :| i in todo;
      a[i] := R.Mul(a[i], b[i]);
      a[i] := R.Sub(a[i], c[i]);
      a[i] := fromMontgomery(a[i]);
      todo := todo - {i};
    }
    assert a[..] == target;
  }

  /** The array handed to the last multi-exponentiation holds -2 H(z^(2k+1)) out of Montgomery form, where
      A * B - C is H * (X^n - 1) for the interpolants of a, of b and of their products. */
  method QuotientValues<T(!new, ==)>(f: FFT<T>, a: array<T>, b: array<T>, c: array<T>, domainPower: nat,
                                     fromMontgomery: T -> T)
    returns (ghost pa: seq<T>, ghost pb: seq<T>, ghost pc: seq<T>, ghost h: seq<T>)
    requires f.Valid() && domainPower < f.s && a.Length == b.Length == c.Length == Exp2(domainPower)
    requires a != b && a != c && b != c
    modifies a, b, c
    ensures |pa| == |pb| == |pc| == |h| == a.Length
    ensures Dft(f.R, pa, f.Omega(domainPower)) == old(a[..])
    ensures Dft(f.R, pb, f.Omega(domainPower)) == old(b[..])
    ensures Dft(f.R, pc, f.Omega(domainPower)) == MulSeq(f.R, old(a[..]), old(b[..]))
    ensures SubSeq(f.R, PolyMul(f.R, pa, pb), pc + Zeros(f.R, |pc|)) == TimesXnMinusOne(f.R, h)
    ensures QuotientsOnCoset(f.R, a[..], h, f.Omega(domainPower + 1), fromMontgomery)
  {
    ghost var w, z, inv := f.Omega(domainPower), f.Omega(domainPower + 1), f.powTwoInv[domainPower];
    ghost var va, vb := a[..], b[..];
    MulInto(f.R, c, a, b);
    AllToCoset(f, a, b, c, domainPower, w, z, inv);
    pa, pb, pc, h := QuotientMeaning(f, va, vb, a[..], b[..], c[..], domainPower, w, z, inv);
    MappedQuotients(f.R, SubSeq(f.R, MulSeq(f.R, a[..], b[..]), c[..]), h, z, fromMontgomery);
    MulSubInto(f.R, a, b, c, fromMontgomery);
  }

  lemma MappedQuotients<T(!new)>(R: Ring<T>, v: seq<T>, h: seq<T>, z: T, fromMontgomery: T -> T)
    requires MinusTwiceOnCoset(R, v, h, z)
    ensures QuotientsOnCoset(R, Mapped(v, fromMontgomery), h, z, fromMontgomery)
  {
  }

  /** What the values a, b, c on the coset mean when they come from values va, vb and their products. */
  lemma QuotientMeaning<T(!new)>(f: FFT<T>, va: seq<T>, vb: seq<T>, a: seq<T>, b: seq<T>, c: seq<T>, d: nat,
                                 w: T, z: T, inv: T)
    returns (pa: seq<T>, pb: seq<T>, pc: seq<T>, h: seq<T>)
    requires f.Valid() && d < f.s && |va| == |vb| == Exp2(d)
    requires w == f.Omega(d) && z == f.Omega(d + 1) && inv == f.powTwoInv[d]
    requires OnCoset(f.R, a, InverseDft(f.R, va, w, inv), z) && OnCoset(f.R, b, InverseDft(f.R, vb, w, inv), z)
    requires OnCoset(f.R, c, InverseDft(f.R, MulSeq(f.R, va, vb), w, inv), z)
    ensures |pa| == |pb| == |pc| == |h| == |va| == |a| == |b| == |c|
    ensures Dft(f.R, pa, w) == va && Dft(f.R, pb, w) == vb && Dft(f.R, pc, w) == MulSeq(f.R, va, vb)
    ensures SubSeq(f.R, PolyMul(f.R, pa, pb), pc + Zeros(f.R, |pc|)) == TimesXnMinusOne(f.R, h)
    ensures MinusTwiceOnCoset(f.R, SubSeq(f.R, MulSeq(f.R, a, b), c), h, z)
  {
    f.OmegaIsRoot(d);
    f.OmegaIsRoot(d + 1);
    assert f.InverseAt(d);
    pa := Interpolant(f.R, va, w, d, inv);
    pb := Interpolant(f.R, vb, w, d, inv);
    pc := Interpolant(f.R, MulSeq(f.R, va, vb), w, d, inv);
    h := QuotientPolynomial(f.R, pa, pb, pc, w, d, inv);
    CosetQuotient(f.R, a, b, c, pa, pb, pc, h, z, d);
  }

  lemma Interpolant<T(!new)>(R: Ring<T>, x: seq<T>, w: T, d: nat, inv: T) returns (p: seq<T>)
    requires R.Valid() && IsRoot(R, w, d) && |x| == Exp2(d) && R.Mul(inv, R.Pow(Two(R), d)) == R.one
    ensures p == InverseDft(R, x, w, inv) && |p| == |x| && Dft(R, p, w) == x
  {
    p := InverseDft(R, x, w, inv);
    DftAfterInverse(R, x, w, d, inv);
  }

  /** What A * B - C is worth where X^n is -1. */
  ghost predicate DifferenceAt<T(!new)>(R: Ring<T>, pa: seq<T>, pb: seq<T>, pc: seq<T>, h: seq<T>, x: T) {
    R.Pow(x, |pc|) == R.Neg(R.one) ==>
      R.Sub(R.Mul(Eval(R, pa, x), Eval(R, pb, x)), Eval(R, pc, x)) == R.Neg(R.Mul(Two(R), Eval(R, h, x)))
  }

  lemma QuotientPolynomial<T(!new)>(R: Ring<T>, pa: seq<T>, pb: seq<T>, pc: seq<T>, w: T, d: nat, inv: T)
    returns (h: seq<T>)
    requires R.Valid() && IsRoot(R, w, d)
    requires |pa| == |pb| == |pc| == Exp2(d) && R.Mul(inv, R.Pow(Two(R), d)) == R.one
    requires Dft(R, pc, w) == MulSeq(R, Dft(R, pa, w), Dft(R, pb, w))
    ensures |h| == |pc|
    ensures SubSeq(R, PolyMul(R, pa, pb), pc + Zeros(R, |pc|)) == TimesXnMinusOne(R, h)
    ensures forall x :: DifferenceAt(R, pa, pb, pc, h, x)
  {
    var m := PolyMul(R, pa, pb);
    h := m[|pc|..];
    QuotientIdentity(R, pa, pb, pc, m, w, d, inv);
    forall x
      ensures DifferenceAt(R, pa, pb, pc, h, x)
    {
      if R.Pow(x, |pc|) == R.Neg(R.one) { QuotientOnCoset(R, pa, pb, pc, m, w, d, inv, x); }
    }
  }

  lemma CosetQuotient<T(!new)>(R: Ring<T>, va: seq<T>, vb: seq<T>, vc: seq<T>, pa: seq<T>, pb: seq<T>, pc: seq<T>,
                               h: seq<T>, z: T, d: nat)
    requires R.Valid() && IsRoot(R, z, d + 1) && |pa| == |pb| == |pc| == |h| == Exp2(d)
    requires forall x :: DifferenceAt(R, pa, pb, pc, h, x)
    requires OnCoset(R, va, pa, z) && OnCoset(R, vb, pb, z) && OnCoset(R, vc, pc, z)
    ensures MinusTwiceOnCoset(R, SubSeq(R, MulSeq(R, va, vb), vc), h, z)
  {
    var v := SubSeq(R, MulSeq(R, va, vb), vc);
    forall k: nat | k < |v|
      ensures v[k] == R.Neg(R.Mul(Two(R), Eval(R, h, R.Pow(z, 2 * k + 1))))
    {
      OddPower(R, z, d, k);
      assert DifferenceAt(R, pa, pb, pc, h, R.Pow(z, 2 * k + 1));
    }
  }

  /** X^n is -1 on the odd powers of the root of order 2n. */
  lemma OddPower<T(!new)>(R: Ring<T>, z: T, d: nat, k: nat)
    requires R.Valid() && IsRoot(R, z, d + 1)
    ensures R.Pow(R.Pow(z, 2 * k + 1), Exp2(d)) == R.Neg(R.one)
  {
    HalfPower(R, z, d + 1, 2 * k + 1);
  }
}
