/** Inversion-free coordinates: (x, y, zz, zzz) stands for (x / zz, y / zzz), and for the point at
    infinity when zz is zero. The polynomial formulas compute chord and tangent in them. */
module XyzzFormulas {
  import opened Algebra
  import opened AffineCurve
  import opened RingSolver

  datatype Xyzz<T> = Xyzz(x: T, y: T, zz: T, zzz: T)

  function Cube<T(!new)>(F: Field<T>, z: T): T { F.Mul(F.Mul(z, z), z) }

  predicate WellFormed<T(!new,==)>(F: Field<T>, p: Xyzz<T>) {
    p.zz == F.Zero() || Cube(F, p.zz) == F.Square(p.zzz)
  }

  function ToAffine<T(!new,==)>(F: Field<T>, p: Xyzz<T>): Affine<T> {
    if p.zz == F.Zero() then Infinity else At(F.Div(p.x, p.zz), F.Div(p.y, p.zzz))
  }

  /** p stands for (x, y). */
  ghost predicate Stands<T(!new)>(F: Field<T>, p: Xyzz<T>, x: T, y: T) {
    && p.zz != F.Zero() && p.zzz != F.Zero() && Cube(F, p.zz) == F.Square(p.zzz)
    && p.x == F.Mul(x, p.zz) && p.y == F.Mul(y, p.zzz)
  }

  lemma StandsAffine<T(!new)>(F: Field<T>, p: Xyzz<T>, x: T, y: T)
    requires F.Valid() && Stands(F, p, x, y)
    ensures WellFormed(F, p) && ToAffine(F, p) == At(x, y)
  {
    F.DivMul(x, p.zz); F.DivMul(y, p.zzz);
  }

  lemma AffineStands<T(!new)>(F: Field<T>, p: Xyzz<T>)
    requires F.Valid() && WellFormed(F, p) && p.zz != F.Zero()
    ensures ToAffine(F, p).At? && Stands(F, p, ToAffine(F, p).x, ToAffine(F, p).y)
  {
    if p.zzz == F.Zero() {
      F.R.MulZero(p.zzz);
      F.NoZeroDivisors(F.Mul(p.zz, p.zz), p.zz);
      F.NoZeroDivisors(p.zz, p.zz);
      assert false;
    }
    F.DivMul(p.x, p.zz); F.DivMul(p.y, p.zzz);
  }

  // ---------- addition ----------

  /** The addition formula past its special cases. */
  function AddFormula<T(!new)>(F: Field<T>, p: Xyzz<T>, q: Xyzz<T>): Xyzz<T> {
    var u1, u2 := F.Mul(p.x, q.zz), F.Mul(q.x, p.zz);
    var s1, s2 := F.Mul(p.y, q.zzz), F.Mul(q.y, p.zzz);
    Combine(F, u1, s1, F.Sub(u2, u1), F.Sub(s2, s1), F.Mul(p.zz, q.zz), F.Mul(p.zzz, q.zzz))
  }

  /** The part common to all additions, from U1, S1, P, R and the products of the denominators. */
  function Combine<T(!new)>(F: Field<T>, u1: T, s1: T, p: T, r: T, zz: T, zzz: T): Xyzz<T> {
    var pp := F.Square(p);
    var ppp := F.Mul(p, pp);
    var q := F.Mul(u1, pp);
    var x3 := F.Sub(F.Sub(F.Sub(F.Square(r), ppp), q), q);
    Xyzz(x3, F.Sub(F.Mul(F.Sub(q, x3), r), F.Mul(s1, ppp)), F.Mul(zz, pp), F.Mul(zzz, ppp))
  }

  // V(0) .. V(3) are l, dx, x1 and D: the abscissa, with E * E replaced by D * D * D.
  function DxD(): Expr { Times(V(1), V(3)) }
  function DxDSquared(): Expr { Times(Times(V(1), V(3)), Times(V(1), V(3))) }
  function AbscissaLeft(): Expr {
    Minus(Minus(Minus(Times(Times(V(0), V(0)), Times(Times(V(1), V(1)), Times(Times(V(3), V(3)), V(3)))),
                      Times(DxD(), DxDSquared())),
                Times(Times(V(2), V(3)), DxDSquared())),
          Times(Times(V(2), V(3)), DxDSquared()))
  }
  function AbscissaRight(): Expr {
    Times(Minus(Minus(Times(V(0), V(0)), V(2)), Plus(V(2), V(1))), Times(V(3), DxDSquared()))
  }

  lemma AbscissaNorm()
    ensures SameNorm(4, AbscissaLeft(), AbscissaRight())
  {
    AbscissaFits();
    assert Norm(AbscissaLeft()) == Norm(AbscissaRight());
  }

  lemma AbscissaFits()
    ensures Fits(AbscissaLeft(), 4, 9) && Fits(AbscissaRight(), 4, 9)
  {
  }

  // V(0) .. V(5) are k, D, s, l, dx and E.
  function SlopeLeft(): Expr { Times(Times(V(0), Times(V(1), V(2))), Times(Times(V(3), V(4)), V(5))) }
  function SlopeRight(): Expr { Times(Times(V(3), V(0)), Times(V(5), Times(Times(V(4), V(1)), V(2)))) }

  lemma SlopeNorm()
    ensures SameNorm(6, SlopeLeft(), SlopeRight())
  {
    assert Fits(SlopeLeft(), 6, 9) && Fits(SlopeRight(), 6, 9);
  }

  /** The ordinate: (x1 D s - x3 (D s)) (l dx E) - y1 E (P s) = (l (x1 - x3) - y1) (E (P s)), P = dx D. */
  lemma Ordinate<T(!new)>(F: Field<T>, x1: T, y1: T, x3: T, l: T, dx: T, d: T, e: T, s: T)
    requires F.Valid()
    ensures var zzz := F.Mul(e, F.Mul(F.Mul(dx, d), s));
            F.Sub(F.Mul(F.Sub(F.Mul(F.Mul(x1, d), s), F.Mul(x3, F.Mul(d, s))), F.Mul(F.Mul(l, dx), e)),
              F.Mul(F.Mul(y1, e), F.Mul(F.Mul(dx, d), s))) ==
            F.Mul(F.Sub(F.Mul(l, F.Sub(x1, x3)), y1), zzz)
  {
    var R := F.R;
    R.Assoc(x1, d, s);
    R.DistributeSub(F.Mul(d, s), x1, x3);
    SlopeNorm();
    Identity(R, [F.Sub(x1, x3), d, s, l, dx, e], 6, SlopeLeft(), SlopeRight());
    var ps := F.Mul(F.Mul(dx, d), s);
    R.Assoc(y1, e, ps);
    R.DistributeSub(F.Mul(e, ps), F.Mul(l, F.Sub(x1, x3)), y1);
  }

  lemma SquareOfProduct<T(!new)>(R: Ring<T>, l: T, x: T, e: T)
    requires R.Valid()
    ensures R.Mul(R.Mul(R.Mul(l, x), e), R.Mul(R.Mul(l, x), e)) == R.Mul(R.Mul(l, l), R.Mul(R.Mul(x, x), R.Mul(e, e)))
  {
    R.Swap4(R.Mul(l, x), e, R.Mul(l, x), e);
    R.Swap4(l, x, l, x);
    R.Assoc(R.Mul(l, l), R.Mul(x, x), R.Mul(e, e));
  }

  lemma CubeOfProduct<T(!new)>(F: Field<T>, x: T, y: T)
    requires F.Valid()
    ensures Cube(F, F.Mul(x, y)) == F.Mul(Cube(F, x), Cube(F, y))
  {
    F.R.Swap4(x, y, x, y);
    F.R.Swap4(F.Mul(x, x), F.Mul(y, y), x, y);
  }

  /** Denominators stay related: (D s)^3 = (E (P s))^2 when s = P^2 and D^3 = E^2. */
  lemma DenominatorsStay<T(!new)>(F: Field<T>, d: T, e: T, p: T, s: T)
    requires F.Valid() && s == F.Square(p) && Cube(F, d) == F.Square(e)
    ensures Cube(F, F.Mul(d, s)) == F.Square(F.Mul(e, F.Mul(p, s)))
  {
    CubeOfProduct(F, d, s);
    var R := F.R;
    R.Swap4(e, F.Mul(p, s), e, F.Mul(p, s));
    R.Swap4(p, s, p, s);
    R.Assoc(s, s, s);
  }

  /** P, R and the products of denominators in terms of the affine coordinates. */
  lemma Differences<T(!new)>(F: Field<T>, p: Xyzz<T>, q: Xyzz<T>, x1: T, y1: T, x2: T, y2: T)
    requires F.Valid() && Stands(F, p, x1, y1) && Stands(F, q, x2, y2)
    ensures var d, e := F.Mul(p.zz, q.zz), F.Mul(p.zzz, q.zzz);
            && d != F.Zero() && e != F.Zero() && Cube(F, d) == F.Square(e)
            && F.Mul(p.x, q.zz) == F.Mul(x1, d) && F.Mul(p.y, q.zzz) == F.Mul(y1, e)
            && F.Sub(F.Mul(q.x, p.zz), F.Mul(p.x, q.zz)) == F.Mul(F.Sub(x2, x1), d)
            && F.Sub(F.Mul(q.y, p.zzz), F.Mul(p.y, q.zzz)) == F.Mul(F.Sub(y2, y1), e)
  {
    var R := F.R;
    var d, e := F.Mul(p.zz, q.zz), F.Mul(p.zzz, q.zzz);
    if d == F.Zero() { F.NoZeroDivisors(p.zz, q.zz); assert false; }
    if e == F.Zero() { F.NoZeroDivisors(p.zzz, q.zzz); assert false; }
    CubeOfProduct(F, p.zz, q.zz);
    R.Swap4(p.zzz, q.zzz, p.zzz, q.zzz);
    R.Assoc(x1, p.zz, q.zz); R.Assoc(x2, q.zz, p.zz); R.Comm(q.zz, p.zz);
    R.Assoc(y1, p.zzz, q.zzz); R.Assoc(y2, q.zzz, p.zzz); R.Comm(q.zzz, p.zzz);
    R.DistributeSub(d, x2, x1); R.DistributeSub(e, y2, y1);
  }

  /** The common part computes the third point of the chord, for P = dx D, R = l dx E, U1 = x1 D, S1 = y1 E. */
  lemma CombineIsChord<T(!new)>(F: Field<T>, x1: T, y1: T, dx: T, l: T, d: T, e: T, x3: T, y3: T)
    requires F.Valid() && d != F.Zero() && e != F.Zero() && dx != F.Zero() && Cube(F, d) == F.Square(e)
    requires x3 == F.Sub(F.Sub(F.Square(l), x1), F.Add(x1, dx)) && y3 == F.Sub(F.Mul(l, F.Sub(x1, x3)), y1)
    ensures Stands(F, Combine(F, F.Mul(x1, d), F.Mul(y1, e), F.Mul(dx, d), F.Mul(F.Mul(l, dx), e), d, e), x3, y3)
  {
    var R := F.R;
    var p := F.Mul(dx, d);
    var pp := F.Square(p);
    SquareOfProduct(R, l, dx, e);
    AbscissaNorm();
    Identity(R, [l, dx, x1, d], 4, AbscissaLeft(), AbscissaRight());
    Ordinate(F, x1, y1, x3, l, dx, d, e, pp);
    DenominatorsStay(F, d, e, p, pp);
    DenominatorsNonzero(F, dx, d, e, p, pp);
  }

  lemma DenominatorsNonzero<T(!new)>(F: Field<T>, dx: T, d: T, e: T, p: T, pp: T)
    requires F.Valid() && d != F.Zero() && e != F.Zero() && dx != F.Zero() && p == F.Mul(dx, d) && pp == F.Square(p)
    ensures F.Mul(d, pp) != F.Zero() && F.Mul(e, F.Mul(p, pp)) != F.Zero()
  {
    ProductNonzero(F, dx, d); ProductNonzero(F, p, p); ProductNonzero(F, p, pp);
    ProductNonzero(F, d, pp); ProductNonzero(F, e, F.Mul(p, pp));
  }

  lemma ProductNonzero<T(!new)>(F: Field<T>, a: T, b: T)
    requires F.Valid() && a != F.Zero() && b != F.Zero()
    ensures F.Mul(a, b) != F.Zero()
  {
    if F.Mul(a, b) == F.Zero() { F.NoZeroDivisors(a, b); assert false; }
  }

  // ---------- doubling ----------

  /** The doubling formula past its special case, from U, W, S, M and the old denominators. */
  function DoubleFormula<T(!new)>(C: Curve<T>, p: Xyzz<T>): Xyzz<T> {
    var F := C.F;
    var u := F.Add(p.y, p.y);
    var v := F.Square(u);
    var w := F.Mul(u, v);
    var s := F.Mul(p.x, v);
    var xx := F.Square(p.x);
    var m := F.Add(F.Add(xx, F.Add(xx, xx)), F.Mul(C.a, F.Square(p.zz)));
    var x3 := F.Sub(F.Sub(F.Square(m), s), s);
    Xyzz(x3, F.Sub(F.Mul(m, F.Sub(s, x3)), F.Mul(w, p.y)), F.Mul(v, p.zz), F.Mul(w, p.zzz))
  }

  // V(0) .. V(2) are a, x and z.
  function SlopeNumerator(): Expr {
    Plus(Plus(Times(Times(V(1), V(2)), Times(V(1), V(2))), Plus(Times(Times(V(1), V(2)), Times(V(1), V(2))),
      Times(Times(V(1), V(2)), Times(V(1), V(2))))),
         Times(V(0), Times(V(2), V(2))))
  }
  function SlopeFactored(): Expr {
    Times(Plus(Plus(Times(V(1), V(1)), Plus(Times(V(1), V(1)), Times(V(1), V(1)))), V(0)), Times(V(2), V(2)))
  }

  lemma NumeratorNorm()
    ensures SameNorm(3, SlopeNumerator(), SlopeFactored())
  {
    assert Fits(SlopeNumerator(), 3, 9) && Fits(SlopeFactored(), 3, 9);
  }

  // V(0) .. V(3) are l, x, u and z: the abscissa, with V = u u z z z.
  function TangentX(): Expr {
    Minus(Minus(Times(Times(Times(V(0), V(2)), Times(V(3), V(3))), Times(Times(V(0), V(2)), Times(V(3), V(3)))),
                Times(Times(V(1), V(3)), Times(Times(V(2), V(2)), Times(Times(V(3), V(3)), V(3))))),
          Times(Times(V(1), V(3)), Times(Times(V(2), V(2)), Times(Times(V(3), V(3)), V(3)))))
  }
  function TangentXFactored(): Expr {
    Times(Minus(Minus(Times(V(0), V(0)), V(1)), V(1)), Times(Times(Times(V(2), V(2)), Times(Times(V(3), V(3)), V(3))),
      V(3)))
  }

  lemma TangentXNorm()
    ensures SameNorm(4, TangentX(), TangentXFactored())
  {
    assert Fits(TangentX(), 4, 9) && Fits(TangentXFactored(), 4, 9);
  }

  // V(0) .. V(5) are k, l, u, z, V and w.
  function TangentSlopeTerm(): Expr {
    Times(Times(Times(V(1), V(2)), Times(V(3), V(3))), Times(V(0), Times(V(4), V(3))))
  }
  function TangentSlopeMoved(): Expr {
    Times(Times(V(1), V(0)), Times(Times(V(2), V(4)), Times(Times(V(3), V(3)), V(3))))
  }
  function OldOrdinateTerm(): Expr { Times(Times(Times(V(2), V(5)), V(4)), Times(V(0), V(5))) }
  function OldOrdinateMoved(): Expr { Times(V(0), Times(Times(V(2), V(4)), Times(V(5), V(5)))) }
  function NewDenominator(): Expr { Times(Times(Times(V(2), V(5)), V(4)), V(5)) }
  function NewDenominatorMoved(): Expr { Times(Times(V(2), V(4)), Times(V(5), V(5))) }

  lemma TangentYNorms()
    ensures SameNorm(6, TangentSlopeTerm(), TangentSlopeMoved())
    ensures SameNorm(6, OldOrdinateTerm(), OldOrdinateMoved())
    ensures SameNorm(6, NewDenominator(), NewDenominatorMoved())
  {
    SlopeTermNorm(); OldOrdinateNorm();
    assert Fits(NewDenominator(), 6, 9) && Fits(NewDenominatorMoved(), 6, 9);
  }

  lemma SlopeTermNorm()
    ensures SameNorm(6, TangentSlopeTerm(), TangentSlopeMoved())
  {
    assert Fits(TangentSlopeTerm(), 6, 9) && Fits(TangentSlopeMoved(), 6, 9);
  }

  lemma OldOrdinateNorm()
    ensures SameNorm(6, OldOrdinateTerm(), OldOrdinateMoved())
  {
    assert Fits(OldOrdinateTerm(), 6, 9) && Fits(OldOrdinateMoved(), 6, 9);
  }

  /** The ordinate of the doubled point, when w w = z z z: M (S - X3) - W Y1 with S - X3 = k V z. */
  lemma TangentOrdinate<T(!new)>(F: Field<T>, k: T, l: T, y: T, u: T, z: T, v: T, w: T)
    requires F.Valid() && Cube(F, z) == F.Square(w)
    ensures F.Sub(F.Mul(F.Mul(F.Mul(l, u), F.Mul(z, z)), F.Mul(k, F.Mul(v, z))),
            F.Mul(F.Mul(F.Mul(u, w), v), F.Mul(y, w))) ==
            F.Mul(F.Sub(F.Mul(l, k), y), F.Mul(F.Mul(F.Mul(u, w), v), w))
  {
    TangentYNorms();
    var R := F.R;
    Identity(R, [k, l, u, z, v, w], 6, TangentSlopeTerm(), TangentSlopeMoved());
    Identity(R, [y, l, u, z, v, w], 6, OldOrdinateTerm(), OldOrdinateMoved());
    Identity(R, [y, l, u, z, v, w], 6, NewDenominator(), NewDenominatorMoved());
    R.DistributeSub(F.Mul(F.Mul(u, v), F.Square(w)), F.Mul(l, k), y);
  }

  lemma TangentAbscissa<T(!new)>(F: Field<T>, l: T, x: T, u: T, z: T)
    requires F.Valid()
    ensures var v := F.Mul(F.Square(u), Cube(F, z)); var m := F.Mul(F.Mul(l, u), F.Mul(z, z));
            F.Sub(F.Sub(F.Square(m), F.Mul(F.Mul(x, z), v)), F.Mul(F.Mul(x, z), v)) ==
            F.Mul(F.Sub(F.Sub(F.Square(l), x), x), F.Mul(v, z))
  {
    TangentXNorm();
    Identity(F.R, [l, x, u, z], 4, TangentX(), TangentXFactored());
  }

  lemma TangentNumerator<T(!new)>(C: Curve<T>, x: T, z: T)
    requires C.F.Valid()
    ensures var F := C.F; var xx, m := F.Square(F.Mul(x, z)), F.Mul(x, x);
            F.Add(F.Add(xx, F.Add(xx, xx)), F.Mul(C.a, F.Square(z))) ==
            F.Mul(F.Add(F.Add(m, F.Add(m, m)), C.a), F.Mul(z, z))
  {
    NumeratorNorm();
    Identity(C.F.R, [C.a, x, z], 3, SlopeNumerator(), SlopeFactored());
  }

  /** (V z)^3 = (W w)^2 for V = U^2 and W = U V. */
  lemma DoubledDenominators<T(!new)>(F: Field<T>, u: T, v: T, z: T, w: T)
    requires F.Valid() && v == F.Square(u) && Cube(F, z) == F.Square(w)
    ensures Cube(F, F.Mul(v, z)) == F.Square(F.Mul(F.Mul(u, v), w))
  {
    DenominatorsStay(F, z, w, u, v);
    F.R.Comm(v, z); F.R.Comm(F.Mul(u, v), w);
  }

  lemma DoubleIsTangent<T(!new)>(C: Curve<T>, p: Xyzz<T>, x: T, y: T, l: T, x3: T, y3: T)
    requires C.F.Valid() && Stands(C.F, p, x, y) && C.F.Add(y, y) != C.F.Zero()
    requires l == TangentSlope(C, x, y) && x3 == C.F.Sub(C.F.Sub(C.F.Square(l), x), x) &&
             y3 == C.F.Sub(C.F.Mul(l, C.F.Sub(x, x3)), y)
    ensures Stands(C.F, DoubleFormula(C, p), x3, y3)
  {
    var F, R := C.F, C.F.R;
    var z, w, u0 := p.zz, p.zzz, F.Add(y, y);
    var u := F.Mul(u0, w);
    R.Distribute(w, y, y);
    var v := F.Square(u);
    R.Swap4(u0, w, u0, w);
    var m2 := F.Mul(x, x);
    F.DivMul(F.Add(F.Add(m2, F.Add(m2, m2)), C.a), u0);
    TangentNumerator(C, x, z);
    TangentAbscissa(F, l, x, u0, z);
    R.Assoc(x, z, v); R.Comm(z, v);
    R.DistributeSub(F.Mul(v, z), x, x3);
    TangentOrdinate(F, F.Sub(x, x3), l, y, u0, z, v, w);
    DoubledDenominators(F, u, v, z, w);
    ProductNonzero(F, u0, w); ProductNonzero(F, u, u); ProductNonzero(F, u, v);
    ProductNonzero(F, v, z); ProductNonzero(F, F.Mul(u, v), w);
  }

  // ---------- the formulas refine chord and tangent ----------

  lemma ZeroTimes<T(!new)>(F: Field<T>, a: T)
    requires F.Valid()
    ensures F.Mul(F.Zero(), a) == F.Zero() && F.Mul(a, F.Zero()) == F.Zero()
  {
    F.R.MulZero(a);
  }

  /** Doubling any well-formed point. */
  lemma DoubleRefines<T(!new)>(C: Curve<T>, p: Xyzz<T>)
    requires C.F.Valid() && WellFormed(C.F, p) && p.zz != C.F.Zero()
    ensures WellFormed(C.F, DoubleFormula(C, p))
    ensures ToAffine(C.F, DoubleFormula(C, p)) == DoubleAffine(C, ToAffine(C.F, p))
  {
    var F := C.F;
    AffineStands(F, p);
    var x, y := ToAffine(F, p).x, ToAffine(F, p).y;
    if F.Add(y, y) == F.Zero() {
      F.R.Distribute(p.zzz, y, y);
      ZeroTimes(F, p.zzz); ZeroTimes(F, F.Zero()); ZeroTimes(F, p.zz);
    } else {
      var l := TangentSlope(C, x, y);
      var x3 := F.Sub(F.Sub(F.Square(l), x), x);
      var y3 := F.Sub(F.Mul(l, F.Sub(x, x3)), y);
      DoubleIsTangent(C, p, x, y, l, x3, y3);
      StandsAffine(F, DoubleFormula(C, p), x3, y3);
    }
  }

  /** Whether the differences P and R both vanish. */
  predicate SamePoint<T(!new,==)>(F: Field<T>, p: Xyzz<T>, q: Xyzz<T>) {
    && F.Sub(F.Mul(q.x, p.zz), F.Mul(p.x, q.zz)) == F.Zero()
    && F.Sub(F.Mul(q.y, p.zzz), F.Mul(p.y, q.zzz)) == F.Zero()
  }

  lemma SamePointDecides<T(!new)>(F: Field<T>, p: Xyzz<T>, q: Xyzz<T>, x1: T, y1: T, x2: T, y2: T)
    requires F.Valid() && Stands(F, p, x1, y1) && Stands(F, q, x2, y2)
    ensures F.Sub(F.Mul(q.x, p.zz), F.Mul(p.x, q.zz)) == F.Zero() <==> x1 == x2
    ensures SamePoint(F, p, q) <==> x1 == x2 && y1 == y2
  {
    Differences(F, p, q, x1, y1, x2, y2);
    F.R.g.SubZero(x2, x1); F.R.g.SubZero(y2, y1);
    var d, e := F.Mul(p.zz, q.zz), F.Mul(p.zzz, q.zzz);
    if x1 != x2 { ProductNonzero(F, F.Sub(x2, x1), d); }
    if y1 != y2 { ProductNonzero(F, F.Sub(y2, y1), e); }
    ZeroTimes(F, d); ZeroTimes(F, e);
  }

  /** Adding two well-formed points that are not zero and not the same. */
  lemma AddRefines<T(!new)>(C: Curve<T>, p: Xyzz<T>, q: Xyzz<T>)
    requires C.F.Valid() && WellFormed(C.F, p) && WellFormed(C.F, q)
    requires p.zz != C.F.Zero() && q.zz != C.F.Zero()
    ensures if SamePoint(C.F, p, q) then ToAffine(C.F, p) == ToAffine(C.F, q) else
            WellFormed(C.F, AddFormula(C.F, p, q)) &&
            ToAffine(C.F, AddFormula(C.F, p, q)) == AddAffine(C, ToAffine(C.F, p), ToAffine(C.F, q))
  {
    var F := C.F;
    AffineStands(F, p); AffineStands(F, q);
    var x1, y1, x2, y2 := ToAffine(F, p).x, ToAffine(F, p).y, ToAffine(F, q).x, ToAffine(F, q).y;
    SamePointDecides(F, p, q, x1, y1, x2, y2);
    Differences(F, p, q, x1, y1, x2, y2);
    if x1 == x2 {
      ZeroTimes(F, F.Zero()); ZeroTimes(F, F.Mul(p.zz, q.zz));
    } else {
      AddIsChord(C, p, q, x1, y1, x2, y2);
    }
  }

  lemma AddIsChord<T(!new)>(C: Curve<T>, p: Xyzz<T>, q: Xyzz<T>, x1: T, y1: T, x2: T, y2: T)
    requires C.F.Valid() && Stands(C.F, p, x1, y1) && Stands(C.F, q, x2, y2) && x1 != x2
    ensures WellFormed(C.F, AddFormula(C.F, p, q))
    ensures ToAffine(C.F, AddFormula(C.F, p, q)) == AddAffine(C, At(x1, y1), At(x2, y2))
  {
    var F := C.F;
    var l, dx := ChordSlope(C, x1, y1, x2, y2), F.Sub(x2, x1);
    var x3 := F.Sub(F.Sub(F.Square(l), x1), x2);
    var y3 := F.Sub(F.Mul(l, F.Sub(x1, x3)), y1);
    F.R.g.SubZero(x2, x1);
    F.DivMul(F.Sub(y2, y1), dx);
    F.R.g.Comm(x1, dx); F.R.g.SubAdd(x2, x1);
    Differences(F, p, q, x1, y1, x2, y2);
    CombineIsChord(F, x1, y1, dx, l, F.Mul(p.zz, q.zz), F.Mul(p.zzz, q.zzz), x3, y3);
    StandsAffine(F, AddFormula(F, p, q), x3, y3);
  }
}
