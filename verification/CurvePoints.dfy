/** Point operations on mutable points; the destination may be one of the operands. */
module CurvePoints {
  import opened Algebra
  import opened AffineCurve
  import opened XyzzFormulas

  class Point<T(!new,==)> {
    var x: T
    var y: T
    var zz: T
    var zzz: T

    constructor (x: T, y: T, zz: T, zzz: T)
      ensures Value() == Xyzz(x, y, zz, zzz)
    {
      this.x, this.y, this.zz, this.zzz := x, y, zz, zzz;
    }

    function Value(): Xyzz<T>
      reads this
    {
      Xyzz(x, y, zz, zzz)
    }
  }

  /** A point of the curve, or zero as (0, 0). */
  class PointAffine<T(!new,==)> {
    var x: T
    var y: T

    constructor (x: T, y: T)
      ensures this.x == x && this.y == y
    {
      this.x, this.y := x, y;
    }

    function Meaning(F: Field<T>): Affine<T>
      reads this
    {
      if x == F.Zero() && y == F.Zero() then Infinity else At(x, y)
    }

    function Lift(F: Field<T>): Xyzz<T>
      reads this
    {
      if x == F.Zero() && y == F.Zero() then Xyzz(F.One(), F.One(), F.Zero(), F.Zero())
      else Xyzz(x, y, F.One(), F.One())
    }
  }

  lemma LiftMeaning<T(!new)>(F: Field<T>, p: PointAffine<T>)
    requires F.Valid()
    ensures WellFormed(F, p.Lift(F)) && ToAffine(F, p.Lift(F)) == p.Meaning(F)
  {
    F.DivMul(p.x, F.One()); F.DivMul(p.y, F.One());
    F.R.Unit(p.x); F.R.Unit(p.y); F.R.Unit(F.One());
    F.R.Unit(F.Div(p.x, F.One())); F.R.Unit(F.Div(p.y, F.One()));
  }

  method IsZero<T(!new,==)>(F: Field<T>, p: Point<T>) returns (z: bool)
    ensures z == (ToAffine(F, p.Value()) == Infinity) == (p.zz == F.Zero())
  {
    z := p.zz == F.Zero();
  }

  method IsZeroAffine<T(!new,==)>(F: Field<T>, p: PointAffine<T>) returns (z: bool)
    ensures z == (p.Meaning(F) == Infinity)
  {
    z := p.x == F.Zero() && p.y == F.Zero();
  }

  method Copy<T(!new,==)>(r: Point<T>, a: Point<T>)
    modifies r
    ensures r.Value() == old(a.Value())
  {
    r.x := a.x;
    r.y := a.y;
    r.zz := a.zz;
    r.zzz := a.zzz;
  }

  method CopyFromAffine<T(!new,==)>(F: Field<T>, r: Point<T>, a: PointAffine<T>)
    requires F.Valid()
    modifies r
    ensures r.Value() == a.Lift(F) && WellFormed(F, r.Value()) && ToAffine(F, r.Value()) == a.Meaning(F)
  {
    LiftMeaning(F, a);
    var z := IsZeroAffine(F, a);
    if z {
      r.x := F.One();
      r.y := F.One();
      r.zz := F.Zero();
      r.zzz := F.Zero();
      return;
    }
    r.x := a.x;
    r.y := a.y;
    r.zz := F.One();
    r.zzz := F.One();
  }

  /** The affine form of a point. Only (0, 0), which stands for zero, is not kept apart from it. */
  method CopyToAffine<T(!new,==)>(F: Field<T>, r: PointAffine<T>, a: Point<T>)
    requires F.Valid() && WellFormed(F, a.Value())
    modifies r
    ensures var p := ToAffine(F, a.Value()); r.Meaning(F) == if p == At(F.Zero(), F.Zero()) then Infinity else p
  {
    var z := IsZero(F, a);
    if z {
      r.x := F.Zero();
      r.y := F.Zero();
      return;
    }
    r.x := F.Div(a.x, a.zz);
    r.y := F.Div(a.y, a.zzz);
  }

  /** (0, 0) can stand for zero: it is not on a curve with b other than zero. */
  lemma OriginOffCurve<T(!new)>(C: Curve<T>, p: Affine<T>)
    requires C.F.Valid() && C.b != C.F.Zero() && OnCurve(C, p)
    ensures p != At(C.F.Zero(), C.F.Zero())
  {
    var F, R := C.F, C.F.R;
    R.MulZero(F.Zero()); R.MulZero(C.a);
    R.g.Unit(F.Zero()); R.g.Unit(C.b);
  }

  method Negate<T(!new,==)>(C: Curve<T>, r: Point<T>, a: Point<T>)
    requires C.F.Valid() && WellFormed(C.F, a.Value())
    modifies r
    ensures WellFormed(C.F, r.Value()) && ToAffine(C.F, r.Value()) == NegAffine(C, old(ToAffine(C.F, a.Value())))
  {
    C.F.R.MulNeg(a.y, C.F.inv(a.zzz));
    r.x := a.x;
    r.y := C.F.Neg(a.y);
    r.zz := a.zz;
    r.zzz := a.zzz;
  }

  /** Multiplication by the curve coefficient a, with shortcuts for 0, 1 and -1. */
  method MulByA<T(!new,==)>(C: Curve<T>, ab: T) returns (r: T)
    requires C.F.Valid()
    ensures r == C.F.Mul(C.a, ab)
  {
    C.F.R.MulZero(ab); C.F.R.Unit(ab); C.F.R.MulNeg(C.F.One(), ab);
    if C.a == C.F.Zero() {
      r := C.F.Zero();
    } else if C.a == C.F.One() {
      r := ab;
    } else if C.a == C.F.Neg(C.F.One()) {
      r := C.F.Neg(ab);
    } else {
      r := C.F.Mul(C.a, ab);
    }
  }

  method Double<T(!new,==)>(C: Curve<T>, p3: Point<T>, p1: Point<T>)
    requires C.F.Valid() && WellFormed(C.F, p1.Value())
    modifies p3
    ensures WellFormed(C.F, p3.Value())
    ensures ToAffine(C.F, p3.Value()) == DoubleAffine(C, old(ToAffine(C.F, p1.Value())))
  {
    var F := C.F;
    ghost var a := p1.Value();
    var zero := IsZero(F, p1);
    if zero {
      Copy(p3, p1);
      return;
    }
    DoubleRefines(C, a);
    var U := F.Add(p1.y, p1.y);
    var V := F.Square(U);
    var W := F.Mul(U, V);
    var S := F.Mul(p1.x, V);
    var M := F.Square(p1.x);
    var tmp := F.Add(M, M);
    M := F.Add(M, tmp);
    if C.a != F.Zero() {
      tmp := F.Square(p1.zz);
      tmp := MulByA(C, tmp);
      M := F.Add(M, tmp);
    } else {
      ZeroTimes(F, F.Square(p1.zz));
      F.R.g.Unit(M);
    }
    p3.x := F.Square(M);
    p3.x := F.Sub(p3.x, S);
    p3.x := F.Sub(p3.x, S);
    tmp := F.Mul(W, p1.y);
    p3.y := F.Sub(S, p3.x);
    p3.y := F.Mul(M, p3.y);
    p3.y := F.Sub(p3.y, tmp);
    p3.zz := F.Mul(V, p1.zz);
    p3.zzz := F.Mul(W, p1.zzz);
    assert p3.Value() == DoubleFormula(C, a);
  }

  method DoubleFromAffine<T(!new,==)>(C: Curve<T>, p3: Point<T>, p1: PointAffine<T>)
    requires C.F.Valid()
    modifies p3
    ensures WellFormed(C.F, p3.Value())
    ensures ToAffine(C.F, p3.Value()) == DoubleAffine(C, p1.Meaning(C.F))
  {
    var F := C.F;
    LiftMeaning(F, p1);
    var zero := IsZeroAffine(F, p1);
    if zero {
      CopyFromAffine(F, p3, p1);
      return;
    }
    DoubleRefines(C, p1.Lift(F));
    var U := F.Add(p1.y, p1.y);
    p3.zz := F.Square(U);
    p3.zzz := F.Mul(U, p3.zz);
    var S := F.Mul(p1.x, p3.zz);
    var M := F.Square(p1.x);
    var tmp := F.Add(M, M);
    M := F.Add(tmp, M);
    F.R.g.Comm(tmp, F.Square(p1.x));
    M := F.Add(M, C.a);
    p3.x := F.Square(M);
    p3.x := F.Sub(p3.x, S);
    p3.x := F.Sub(p3.x, S);
    tmp := F.Mul(p3.zzz, p1.y);
    p3.y := F.Sub(S, p3.x);
    p3.y := F.Mul(M, p3.y);
    p3.y := F.Sub(p3.y, tmp);
    F.R.Unit(F.One()); F.R.Unit(C.a); F.R.Unit(p3.zz); F.R.Unit(p3.zzz);
    assert p3.Value() == DoubleFormula(C, p1.Lift(F));
  }

  /** p3 := p1 + p2; p3 may be p1, p2 or both. */
  method Add<T(!new,==)>(C: Curve<T>, p3: Point<T>, p1: Point<T>, p2: Point<T>)
    requires C.F.Valid() && WellFormed(C.F, p1.Value()) && WellFormed(C.F, p2.Value())
    modifies p3
    ensures WellFormed(C.F, p3.Value())
    ensures ToAffine(C.F, p3.Value()) == AddAffine(C, old(ToAffine(C.F, p1.Value())), old(ToAffine(C.F, p2.Value())))
  {
    var F := C.F;
    ghost var a, b := p1.Value(), p2.Value();
    var zero1 := IsZero(F, p1);
    if zero1 {
      Copy(p3, p2);
      return;
    }
    var zero2 := IsZero(F, p2);
    if zero2 {
      Copy(p3, p1);
      return;
    }
    AddRefines(C, a, b);
    var U1 := F.Mul(p1.x, p2.zz);
    var U2 := F.Mul(p2.x, p1.zz);
    var S1 := F.Mul(p1.y, p2.zzz);
    var S2 := F.Mul(p2.y, p1.zzz);
    var P := F.Sub(U2, U1);
    var R := F.Sub(S2, S1);
    if P == F.Zero() && R == F.Zero() {
      Double(C, p3, p1);
      return;
    }
    var PP := F.Square(P);
    var PPP := F.Mul(P, PP);
    var Q := F.Mul(U1, PP);
    p3.x := F.Square(R);
    p3.x := F.Sub(p3.x, PPP);
    p3.x := F.Sub(p3.x, Q);
    p3.x := F.Sub(p3.x, Q);
    var tmp := F.Mul(S1, PPP);
    p3.y := F.Sub(Q, p3.x);
    p3.y := F.Mul(p3.y, R);
    p3.y := F.Sub(p3.y, tmp);
    p3.zz := F.Mul(p1.zz, p2.zz);
    p3.zz := F.Mul(p3.zz, PP);
    p3.zzz := F.Mul(p1.zzz, p2.zzz);
    p3.zzz := F.Mul(p3.zzz, PPP);
    assert p3.Value() == AddFormula(F, a, b);
  }

  /** p3 := p1 + p2 for an affine p2; p3 may be p1. */
  method AddMixed<T(!new,==)>(C: Curve<T>, p3: Point<T>, p1: Point<T>, p2: PointAffine<T>)
    requires C.F.Valid() && WellFormed(C.F, p1.Value())
    modifies p3
    ensures WellFormed(C.F, p3.Value())
    ensures ToAffine(C.F, p3.Value()) == AddAffine(C, old(ToAffine(C.F, p1.Value())), p2.Meaning(C.F))
  {
    var F := C.F;
    ghost var a := p1.Value();
    LiftMeaning(F, p2);
    var zero1 := IsZero(F, p1);
    if zero1 {
      CopyFromAffine(F, p3, p2);
      return;
    }
    var zero2 := IsZeroAffine(F, p2);
    if zero2 {
      Copy(p3, p1);
      return;
    }
    AddRefines(C, a, p2.Lift(F));
    F.R.Unit(p1.x); F.R.Unit(p1.y); F.R.Unit(p1.zz); F.R.Unit(p1.zzz);
    var U2 := F.Mul(p2.x, p1.zz);
    var S2 := F.Mul(p2.y, p1.zzz);
    var P := F.Sub(U2, p1.x);
    var R := F.Sub(S2, p1.y);
    if P == F.Zero() && R == F.Zero() {
      DoubleFromAffine(C, p3, p2);
      return;
    }
    var PP := F.Square(P);
    var PPP := F.Mul(P, PP);
    var Q := F.Mul(p1.x, PP);
    p3.x := F.Square(R);
    p3.x := F.Sub(p3.x, PPP);
    p3.x := F.Sub(p3.x, Q);
    p3.x := F.Sub(p3.x, Q);
    var tmp := F.Mul(p1.y, PPP);
    p3.y := F.Sub(Q, p3.x);
    p3.y := F.Mul(p3.y, R);
    p3.y := F.Sub(p3.y, tmp);
    p3.zz := F.Mul(p1.zz, PP);
    p3.zzz := F.Mul(p1.zzz, PPP);
    assert p3.Value() == AddFormula(F, a, p2.Lift(F));
  }

  /** p3 := p1 + p2 for two affine points. */
  method AddAffines<T(!new,==)>(C: Curve<T>, p3: Point<T>, p1: PointAffine<T>, p2: PointAffine<T>)
    requires C.F.Valid()
    modifies p3
    ensures WellFormed(C.F, p3.Value())
    ensures ToAffine(C.F, p3.Value()) == AddAffine(C, p1.Meaning(C.F), p2.Meaning(C.F))
  {
    var F := C.F;
    LiftMeaning(F, p1); LiftMeaning(F, p2);
    var zero1 := IsZeroAffine(F, p1);
    if zero1 {
      CopyFromAffine(F, p3, p2);
      return;
    }
    var zero2 := IsZeroAffine(F, p2);
    if zero2 {
      CopyFromAffine(F, p3, p1);
      return;
    }
    AddRefines(C, p1.Lift(F), p2.Lift(F));
    F.R.Unit(p1.x); F.R.Unit(p1.y); F.R.Unit(p2.x); F.R.Unit(p2.y); F.R.Unit(F.One());
    var P := F.Sub(p2.x, p1.x);
    var R := F.Sub(p2.y, p1.y);
    if P == F.Zero() && R == F.Zero() {
      DoubleFromAffine(C, p3, p2);
      return;
    }
    var PP := F.Square(P);
    var PPP := F.Mul(P, PP);
    var Q := F.Mul(p1.x, PP);
    p3.x := F.Square(R);
    p3.x := F.Sub(p3.x, PPP);
    p3.x := F.Sub(p3.x, Q);
    p3.x := F.Sub(p3.x, Q);
    var tmp := F.Mul(p1.y, PPP);
    p3.y := F.Sub(Q, p3.x);
    p3.y := F.Mul(p3.y, R);
    p3.y := F.Sub(p3.y, tmp);
    F.R.Unit(PP); F.R.Unit(PPP);
    p3.zz := PP;
    p3.zzz := PPP;
    assert p3.Value() == AddFormula(F, p1.Lift(F), p2.Lift(F));
  }
}
