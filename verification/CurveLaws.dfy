/** What fixes the sum of two curve points without naming how it is computed: the reflected sum lies on the
    line through the points, and subtracting a point again gives the other back. */
module CurveLaws {
  import opened AffineCurve
  import opened Algebra
  import opened CurveGroup
  import opened RingSolver

  // ---------- the reflected sum lies on the line ----------

  /** A step along a line of slope l. */
  lemma AlongLine<T(!new)>(F: Field<T>, l: T, x: T, y: T, x3: T)
    requires F.Valid()
    ensures F.Sub(F.Neg(F.Sub(F.Mul(l, F.Sub(x, x3)), y)), y) == F.Mul(l, F.Sub(x3, x))
  {
    var g, v := F.R.g, F.Mul(l, F.Sub(x, x3));
    g.NegLaws(v, y); g.NegLaws(x, x3);
    F.R.MulNeg(l, F.Sub(x, x3));
    g.Swap(y, F.Neg(v), F.Neg(y)); g.Inverse(y); g.Unit(F.Neg(v));
  }

  /** Both ordinates of a line of slope l, scaled to a common step. */
  lemma ProportionalSteps<T(!new)>(F: Field<T>, l: T, d: T, e: T, u: T, v: T)
    requires F.Valid() && u == F.Mul(l, d) && v == F.Mul(l, e)
    ensures F.Mul(u, e) == F.Mul(v, d)
  {
    F.R.Swap(l, d, e);
  }

  /** p, q and the reflection of p + q lie on one line. */
  lemma SumOnChord<T(!new)>(C: Curve<T>, p: Affine<T>, q: Affine<T>)
    requires C.F.Valid() && p.At? && q.At? && p.x != q.x
    ensures var r := NegAffine(C, AddAffine(C, p, q));
            r.At? && C.F.Mul(C.F.Sub(q.y, p.y), C.F.Sub(r.x, p.x)) == C.F.Mul(C.F.Sub(r.y, p.y), C.F.Sub(q.x, p.x))
  {
    var F, r := C.F, NegAffine(C, AddAffine(C, p, q));
    var l := ChordSlope(C, p.x, p.y, q.x, q.y);
    F.R.g.SubZero(q.x, p.x);
    F.DivMul(F.Sub(q.y, p.y), F.Sub(q.x, p.x));
    AlongLine(F, l, p.x, p.y, r.x);
    ProportionalSteps(F, l, F.Sub(q.x, p.x), F.Sub(r.x, p.x), F.Sub(q.y, p.y), F.Sub(r.y, p.y));
  }

  /** 3 x^2 + a: the tangent at (x, y) is where this times the step in x is 2 y times the step in y. */
  function Rise<T(!new)>(C: Curve<T>, x: T): T {
    var m := C.F.Mul(x, x);
    C.F.Add(C.F.Add(m, C.F.Add(m, m)), C.a)
  }

  /** The reflection of 2 p lies on the tangent at p. */
  lemma DoubleOnTangent<T(!new)>(C: Curve<T>, p: Affine<T>)
    requires C.F.Valid() && p.At? && C.F.Add(p.y, p.y) != C.F.Zero()
    ensures var r := NegAffine(C, AddAffine(C, p, p));
            r.At? && C.F.Mul(Rise(C, p.x), C.F.Sub(r.x, p.x)) == C.F.Mul(C.F.Sub(r.y, p.y), C.F.Add(p.y, p.y))
  {
    var F, r := C.F, NegAffine(C, AddAffine(C, p, p));
    var l := TangentSlope(C, p.x, p.y);
    F.DivMul(Rise(C, p.x), F.Add(p.y, p.y));
    AlongLine(F, l, p.x, p.y, r.x);
    ProportionalSteps(F, l, F.Add(p.y, p.y), F.Sub(r.x, p.x), Rise(C, p.x), F.Sub(r.y, p.y));
  }

  // ---------- subtracting a point again ----------

  /** The curve has no tangent at p. */
  predicate Singular<T(!new,==)>(C: Curve<T>, p: Affine<T>) {
    p.At? && C.F.Add(p.y, p.y) == C.F.Zero() && Rise(C, p.x) == C.F.Zero()
  }

  // V(0) .. V(3) are l, x1, x2 and y1.
  function ThirdX(): Expr { Minus(Minus(Times(V(0), V(0)), V(1)), V(2)) }
  function BackX(): Expr { Minus(Minus(Times(V(0), V(0)), ThirdX()), V(2)) }

  /** Along the reflected line, from the third point back to the first. */
  lemma ThirdBack<T(!new)>(C: Curve<T>, l: T, x1: T, y1: T, x2: T)
    requires C.F.Valid()
    ensures var s := Third(C, l, x1, y1, x2); Third(C, C.F.Neg(l), s.x, s.y, x2) == At(x1, y1)
  {
    var F, R := C.F, C.F.R;
    var x3 := F.Sub(F.Sub(F.Square(l), x1), x2);
    var v := F.Mul(l, F.Sub(x1, x3));
    R.MulNeg(l, l);
    assert SameNorm(4, BackX(), V(1));
    Identity(R, [l, x1, x2, y1], 4, BackX(), V(1));
    R.g.NegLaws(x1, x3); R.MulNeg(l, F.Sub(x1, x3));
    R.g.NegLaws(v, y1);
    R.g.Swap(v, y1, F.Neg(v)); R.g.Inverse(v); R.g.Unit(y1);
  }

  /** The line from the sum s to the reflection of (x2, y2) is the reflected line. */
  lemma SlopeBack<T(!new)>(C: Curve<T>, l: T, x2: T, y2: T, x3: T, y3: T)
    requires C.F.Valid() && x2 != x3 && y3 == C.F.Sub(C.F.Mul(l, C.F.Sub(x2, x3)), y2)
    ensures ChordSlope(C, x3, y3, x2, C.F.Neg(y2)) == C.F.Neg(l)
  {
    var F, R := C.F, C.F.R;
    var d, m := F.Sub(x2, x3), ChordSlope(C, x3, y3, x2, F.Neg(y2));
    R.g.SubZero(x2, x3);
    F.DivMul(F.Sub(F.Neg(y2), y3), d);
    R.g.SubAdd(F.Mul(l, d), y2);
    R.g.NegAdd(y3, y2); R.g.Comm(F.Neg(y3), F.Neg(y2));
    R.MulNeg(l, d);
    F.CancelFactor(m, F.Neg(l), d);
  }

  /** The tangent at the reflection of (x2, y2) is the reflected line, if the line was the tangent. */
  lemma TangentBack<T(!new)>(C: Curve<T>, l: T, x2: T, y2: T)
    requires C.F.Valid() && C.F.Add(y2, y2) != C.F.Zero() && Rise(C, x2) == C.F.Mul(l, C.F.Add(y2, y2))
    ensures C.F.Add(C.F.Neg(y2), C.F.Neg(y2)) != C.F.Zero() && TangentSlope(C, x2, C.F.Neg(y2)) == C.F.Neg(l)
  {
    var F, R := C.F, C.F.R;
    var d, e := F.Add(y2, y2), F.Add(F.Neg(y2), F.Neg(y2));
    R.g.NegAdd(y2, y2);
    NegNonzero(F, d);
    F.DivMul(Rise(C, x2), e);
    R.MulNeg(l, d);
    F.CancelFactor(TangentSlope(C, x2, F.Neg(y2)), F.Neg(l), e);
  }

  lemma NegNonzero<T(!new)>(F: Field<T>, d: T)
    requires F.Valid()
    ensures F.Neg(d) == F.Zero() <==> d == F.Zero()
  {
    F.R.g.NegLaws(d, d);
  }

  /** Back from s = (x3, y3), the third point of a line of slope l through (x1, y1) and (x2, y2). */
  lemma StepBack<T(!new)>(C: Curve<T>, l: T, x1: T, y1: T, x2: T, y2: T)
    requires C.F.Valid()
    requires var s := Third(C, l, x1, y1, x2);
             s.y == C.F.Sub(C.F.Mul(l, C.F.Sub(x2, s.x)), y2) &&
             (s.x == x2 ==> C.F.Add(y2, y2) != C.F.Zero() && Rise(C, x2) == C.F.Mul(l, C.F.Add(y2, y2)))
    ensures AddAffine(C, Third(C, l, x1, y1, x2), NegAffine(C, At(x2, y2))) == At(x1, y1)
  {
    var F, s := C.F, Third(C, l, x1, y1, x2);
    ThirdBack(C, l, x1, y1, x2);
    if s.x != x2 {
      SlopeBack(C, l, x2, y2, s.x, s.y);
    } else {
      AtItself(F, l, x2, y2);
      TangentBack(C, l, x2, y2);
    }
  }

  lemma AtItself<T(!new)>(F: Field<T>, l: T, x: T, y: T)
    requires F.Valid()
    ensures F.Sub(F.Mul(l, F.Sub(x, x)), y) == F.Neg(y)
  {
    F.R.g.Inverse(x); F.R.MulZero(l); F.R.g.Unit(F.Neg(y));
  }

  // ---------- when the chord comes back to the second point ----------

  function Triple(e: Expr): Expr { Plus(e, Plus(e, e)) }
  function PairsOf(x: Expr, y: Expr, z: Expr): Expr { Plus(Plus(Times(x, y), Times(x, z)), Times(y, z)) }

  // V(0) .. V(4) are l, n, x1, x2 and x3.
  function DefectLeft(): Expr {
    Minus(Plus(Triple(Times(V(3), V(3))), Plus(PairsOf(V(2), V(3), V(4)), Plus(Times(V(0), V(1)), Times(V(0), V(1))))),
          Times(V(0), Plus(Plus(Times(V(0), V(3)), V(1)), Plus(Times(V(0), V(3)), V(1)))))
  }
  function DefectSquare(): Expr {
    Minus(Plus(Triple(Times(V(3), V(3))), PairsOf(V(2), V(3), V(4))),
          Times(Times(V(0), V(0)), Plus(V(3), V(3))))
  }

  // V(0) .. V(2) are x1, x2 and x3.
  function DefectRoots(): Expr {
    Minus(Plus(Triple(Times(V(1), V(1))), PairsOf(V(0), V(1), V(2))),
          Times(Plus(Plus(V(0), V(1)), V(2)), Plus(V(1), V(1))))
  }
  function DefectRight(): Expr { Times(Minus(V(1), V(0)), Minus(V(1), V(2))) }

  lemma DefectNorm()
    ensures SameNorm(5, DefectLeft(), DefectSquare())
  {
    assert Fits(DefectLeft(), 5, 9) && Fits(DefectSquare(), 5, 9);
  }

  lemma RootsNorm()
    ensures SameNorm(3, DefectRoots(), DefectRight())
  {
    assert Fits(DefectRoots(), 3, 9) && Fits(DefectRight(), 3, 9);
  }

  function ThreeSquares<T(!new)>(R: Ring<T>, x: T): T { R.Add(R.Mul(x, x), R.Add(R.Mul(x, x), R.Mul(x, x))) }

  lemma DefectOfLine<T(!new)>(R: Ring<T>, l: T, n: T, x1: T, x2: T, x3: T)
    requires R.Valid()
    ensures var y2 := R.Add(R.Mul(l, x2), n);
            R.Sub(R.Add(ThreeSquares(R, x2), R.Add(Pairs(R, x1, x2, x3), R.Add(R.Mul(l, n), R.Mul(l, n)))),
                  R.Mul(l, R.Add(y2, y2))) ==
            R.Sub(R.Add(ThreeSquares(R, x2), Pairs(R, x1, x2, x3)), R.Mul(R.Mul(l, l), R.Add(x2, x2)))
  {
    DefectNorm();
    Identity(R, [l, n, x1, x2, x3], 5, DefectLeft(), DefectSquare());
  }

  /** How far a line is from the tangent at a root x2 of its cubic, x1 and x3 being the other roots. */
  lemma DefectOfRoots<T(!new)>(R: Ring<T>, x1: T, x2: T, x3: T)
    requires R.Valid()
    ensures R.Sub(R.Add(ThreeSquares(R, x2), Pairs(R, x1, x2, x3)), R.Mul(R.Add(R.Add(x1, x2), x3), R.Add(x2, x2))) ==
            R.Mul(R.Sub(x2, x1), R.Sub(x2, x3))
  {
    RootsNorm();
    Identity(R, [x1, x2, x3], 3, DefectRoots(), DefectRight());
  }

  /** How far a chord is from the tangent at its second point. */
  lemma Defect<T(!new)>(C: Curve<T>, x1: T, y1: T, x2: T, y2: T)
    requires C.F.Valid() && OnCurve(C, At(x1, y1)) && OnCurve(C, At(x2, y2)) && x1 != x2
    ensures var l := ChordSlope(C, x1, y1, x2, y2);
            C.F.Sub(Rise(C, x2), C.F.Mul(l, C.F.Add(y2, y2))) ==
            C.F.Mul(C.F.Sub(x2, x1), C.F.Sub(x2, C.F.Sub(C.F.Sub(C.F.Square(l), x1), x2)))
  {
    var F, R := C.F, C.F.R;
    var l := ChordSlope(C, x1, y1, x2, y2);
    var n, x3 := F.Sub(y1, F.Mul(l, x1)), F.Sub(F.Sub(F.Square(l), x1), x2);
    ChordCoefficient(C, x1, y1, x2, y2);
    R.g.SubAdd(C.a, F.Add(F.Mul(l, n), F.Mul(l, n)));
    SumOfRoots(R, F.Square(l), x1, x2);
    DefectOfLine(R, l, n, x1, x2, x3);
    DefectOfRoots(R, x1, x2, x3);
  }

  /** The third point of a chord is over its second point exactly when the chord is the tangent there. */
  lemma ReturnsIff<T(!new)>(C: Curve<T>, x1: T, y1: T, x2: T, y2: T)
    requires C.F.Valid() && OnCurve(C, At(x1, y1)) && OnCurve(C, At(x2, y2)) && x1 != x2
    ensures var l := ChordSlope(C, x1, y1, x2, y2);
            C.F.Sub(C.F.Sub(C.F.Square(l), x1), x2) == x2 <==> Rise(C, x2) == C.F.Mul(l, C.F.Add(y2, y2))
  {
    var F, R := C.F, C.F.R;
    var l := ChordSlope(C, x1, y1, x2, y2);
    var x3 := F.Sub(F.Sub(F.Square(l), x1), x2);
    Defect(C, x1, y1, x2, y2);
    R.g.SubZero(Rise(C, x2), F.Mul(l, F.Add(y2, y2)));
    R.g.SubZero(x2, x1); R.g.SubZero(x2, x3);
    if x3 == x2 { R.MulZero(F.Sub(x2, x1)); }
    if F.Mul(F.Sub(x2, x1), F.Sub(x2, x3)) == F.Zero() { F.NoZeroDivisors(F.Sub(x2, x1), F.Sub(x2, x3)); }
  }

  lemma ChordCancels<T(!new)>(C: Curve<T>, p: Affine<T>, q: Affine<T>)
    requires C.F.Valid() && OnCurve(C, p) && OnCurve(C, q) && p.At? && q.At? && p.x != q.x
    ensures AddAffine(C, AddAffine(C, p, q), NegAffine(C, q)) == p <==> !Singular(C, q)
  {
    var F, R := C.F, C.F.R;
    var l := ChordSlope(C, p.x, p.y, q.x, q.y);
    var s := Third(C, l, p.x, p.y, q.x);
    ReturnsIff(C, p.x, p.y, q.x, q.y);
    SameIntercept(C, p.x, p.y, q.x, q.y);
    LineThrough(R, l, p.x, p.y, s.x);
    LineThrough(R, l, q.x, q.y, s.x);
    if Singular(C, q) {
      R.MulZero(l);
      AtItself(F, l, q.x, q.y);
      R.g.NegAdd(q.y, q.y); NegNonzero(F, F.Add(q.y, q.y));
    } else {
      if s.x == q.x && F.Add(q.y, q.y) == F.Zero() { R.MulZero(l); }
      StepBack(C, l, p.x, p.y, q.x, q.y);
    }
  }

  lemma DoubleCancels<T(!new)>(C: Curve<T>, p: Affine<T>)
    requires C.F.Valid() && p.At?
    ensures AddAffine(C, AddAffine(C, p, p), NegAffine(C, p)) == p
  {
    var F := C.F;
    if F.Add(p.y, p.y) == F.Zero() {
      F.R.g.NegUnique(p.y, p.y);
    } else {
      F.DivMul(Rise(C, p.x), F.Add(p.y, p.y));
      StepBack(C, TangentSlope(C, p.x, p.y), p.x, p.y, p.x, p.y);
    }
  }

  /** Two points of one abscissa are equal or opposite. */
  lemma EqualOrOpposite<T(!new)>(C: Curve<T>, p: Affine<T>, q: Affine<T>)
    requires C.F.Valid() && OnCurve(C, p) && OnCurve(C, q) && p.At? && q.At? && p.x == q.x
    ensures p.y == q.y || p.y == C.F.Neg(q.y)
  {
    var F, R := C.F, C.F.R;
    R.DistributeSub(F.Add(p.y, q.y), p.y, q.y);
    R.Distribute(p.y, p.y, q.y); R.Distribute(q.y, p.y, q.y);
    SquaresDiffer(R, p.y, q.y);
    R.g.SubZero(F.Square(p.y), F.Square(q.y));
    F.NoZeroDivisors(F.Add(p.y, q.y), F.Sub(p.y, q.y));
    R.g.SubZero(p.y, q.y);
    if F.Add(p.y, q.y) == F.Zero() { R.g.Comm(p.y, q.y); R.g.NegUnique(q.y, p.y); }
  }

  // V(0) and V(1) are y and z.
  lemma SquaresDiffer<T(!new)>(R: Ring<T>, y: T, z: T)
    requires R.Valid()
    ensures R.Mul(R.Add(y, z), R.Sub(y, z)) == R.Sub(R.Mul(y, y), R.Mul(z, z))
  {
    var a, b := Times(Plus(V(0), V(1)), Minus(V(0), V(1))), Minus(Times(V(0), V(0)), Times(V(1), V(1)));
    assert SameNorm(2, a, b);
    Identity(R, [y, z], 2, a, b);
  }

  /** Subtracting q from p + q gives p back, unless q is a point without tangent and p another finite one. */
  lemma AddCancels<T(!new)>(C: Curve<T>, p: Affine<T>, q: Affine<T>)
    requires C.F.Valid() && OnCurve(C, p) && OnCurve(C, q)
    ensures AddAffine(C, AddAffine(C, p, q), NegAffine(C, q)) == p <==>
            !(Singular(C, q) && p.At? && p != q)
  {
    if p.At? && q.At? {
      if p.x != q.x {
        ChordCancels(C, p, q);
      } else if p.y == q.y {
        DoubleCancels(C, p);
      } else {
        EqualOrOpposite(C, p, q);
        if Singular(C, q) { C.F.R.g.NegUnique(q.y, q.y); assert false; }
      }
    } else {
      NegOnCurve(C, q);
    }
  }

  /** A curve y^2 = x^3 + b has a tangent everywhere, where 2, 3 and b are not zero. */
  lemma NoneSingular<T(!new)>(C: Curve<T>, p: Affine<T>)
    requires C.F.Valid() && OnCurve(C, p) && C.a == C.F.Zero() && C.b != C.F.Zero()
    requires var two := C.F.Add(C.F.One(), C.F.One()); two != C.F.Zero() && C.F.Add(two, C.F.One()) != C.F.Zero()
    ensures !Singular(C, p)
  {
    if Singular(C, p) {
      var F, R := C.F, C.F.R;
      var one, m := F.One(), F.Mul(p.x, p.x);
      Doubled(F, p.y); Tripled(F, m); R.g.Unit(F.Add(m, F.Add(m, m)));
      F.NoZeroDivisors(F.Add(F.Add(one, one), one), m);
      F.NoZeroDivisors(F.Add(one, one), p.y);
      F.NoZeroDivisors(p.x, p.x);
      R.MulZero(F.Zero()); R.g.Unit(F.Zero()); R.g.Unit(C.b);
    }
  }

  lemma Doubled<T(!new)>(F: Field<T>, y: T)
    requires F.Valid()
    ensures F.Mul(F.Add(F.One(), F.One()), y) == F.Add(y, y)
  {
    F.R.Comm(F.Add(F.One(), F.One()), y);
    F.R.Distribute(y, F.One(), F.One()); F.R.Unit(y);
  }

  lemma Tripled<T(!new)>(F: Field<T>, m: T)
    requires F.Valid()
    ensures F.Mul(F.Add(F.Add(F.One(), F.One()), F.One()), m) == F.Add(m, F.Add(m, m))
  {
    var two := F.Add(F.One(), F.One());
    F.R.Comm(F.Add(two, F.One()), m); F.R.Comm(two, m);
    F.R.Distribute(m, two, F.One()); F.R.Unit(m);
    Doubled(F, m);
    F.R.g.Comm(F.Add(m, m), m);
  }
}
