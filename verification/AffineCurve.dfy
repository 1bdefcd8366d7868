/** Chord and tangent on a short Weierstrass curve over a field. */
module AffineCurve {
  import opened Algebra
  import opened RingSolver

  datatype Field<!T(!new)> = Field(R: Ring<T>, inv: T -> T)
  {
    function Zero(): T { R.Zero() }
    function One(): T { R.one }
    function Add(a: T, b: T): T { R.Add(a, b) }
    function Sub(a: T, b: T): T { R.Sub(a, b) }
    function Neg(a: T): T { R.Neg(a) }
    function Mul(a: T, b: T): T { R.Mul(a, b) }
    function Square(a: T): T { R.Mul(a, a) }
    function Div(a: T, b: T): T { R.Mul(a, inv(b)) }

    ghost predicate InverseLaw(a: T) { a != Zero() ==> Mul(a, inv(a)) == One() }

    ghost predicate Valid() {
      R.Valid() && One() != Zero() && forall a :: InverseLaw(a)
    }

    lemma DivMul(a: T, b: T)
      requires Valid() && b != Zero()
      ensures Mul(Div(a, b), b) == a && Div(Mul(a, b), b) == a
    {
      assert InverseLaw(b);
      R.Assoc(a, inv(b), b); R.Comm(inv(b), b); R.Unit(a);
      R.Assoc(a, b, inv(b));
    }

    lemma NoZeroDivisors(a: T, b: T)
      requires Valid() && Mul(a, b) == Zero()
      ensures a == Zero() || b == Zero()
    {
      if b != Zero() {
        DivMul(a, b);
        R.Comm(Zero(), inv(b)); R.MulZero(inv(b));
      }
    }

    lemma CancelFactor(a: T, b: T, c: T)
      requires Valid() && c != Zero() && Mul(a, c) == Mul(b, c)
      ensures a == b
    {
      DivMul(a, c); DivMul(b, c);
    }
  }

  datatype Curve<!T(!new)> = Curve(F: Field<T>, a: T, b: T)

  datatype Affine<T> = Infinity | At(x: T, y: T)

  /** x^3 + a x + b */
  function Cubic<T(!new)>(C: Curve<T>, x: T): T {
    C.F.Add(C.F.Add(C.F.Mul(C.F.Mul(x, x), x), C.F.Mul(C.a, x)), C.b)
  }

  predicate OnCurve<T(!new,==)>(C: Curve<T>, p: Affine<T>) {
    p.At? ==> C.F.Square(p.y) == Cubic(C, p.x)
  }

  /** The third point on the line of slope l through p, where x2 is the abscissa of the second, reflected. */
  function Third<T(!new)>(C: Curve<T>, l: T, x1: T, y1: T, x2: T): Affine<T> {
    var x3 := C.F.Sub(C.F.Sub(C.F.Square(l), x1), x2);
    At(x3, C.F.Sub(C.F.Mul(l, C.F.Sub(x1, x3)), y1))
  }

  function TangentSlope<T(!new)>(C: Curve<T>, x: T, y: T): T {
    var m := C.F.Mul(x, x);
    C.F.Div(C.F.Add(C.F.Add(m, C.F.Add(m, m)), C.a), C.F.Add(y, y))
  }

  function ChordSlope<T(!new)>(C: Curve<T>, x1: T, y1: T, x2: T, y2: T): T {
    C.F.Div(C.F.Sub(y2, y1), C.F.Sub(x2, x1))
  }

  function DoubleAffine<T(!new,==)>(C: Curve<T>, p: Affine<T>): Affine<T> {
    match p
    case Infinity => Infinity
    case At(x, y) => if C.F.Add(y, y) == C.F.Zero() then Infinity else Third(C, TangentSlope(C, x, y), x, y, x)
  }

  function AddAffine<T(!new,==)>(C: Curve<T>, p: Affine<T>, q: Affine<T>): Affine<T> {
    match (p, q)
    case (Infinity, _) => q
    case (_, Infinity) => p
    case (At(x1, y1), At(x2, y2)) =>
      if x1 == x2 then (if y1 == y2 then DoubleAffine(C, p) else Infinity)
      else Third(C, ChordSlope(C, x1, y1, x2, y2), x1, y1, x2)
  }

  function NegAffine<T(!new)>(C: Curve<T>, p: Affine<T>): Affine<T> {
    match p case Infinity => Infinity case At(x, y) => At(x, C.F.Neg(y))
  }

  // ---------- the curve is closed under chord and tangent ----------

  /** x^3 - s x^2 + c x + d */
  function Monic<T(!new)>(R: Ring<T>, s: T, c: T, d: T, x: T): T {
    R.Add(R.Add(R.Sub(R.Mul(R.Mul(x, x), x), R.Mul(s, R.Mul(x, x))), R.Mul(c, x)), d)
  }

  // V(0) .. V(4) are a, b, l, n and x.
  function CurveMinusLine(): Expr {
    Minus(Plus(Plus(Times(Times(V(4), V(4)), V(4)), Times(V(0), V(4))), V(1)),
          Times(Plus(Times(V(2), V(4)), V(3)), Plus(Times(V(2), V(4)), V(3))))
  }

  function LineCubic(): Expr {
    Plus(Plus(Minus(Times(Times(V(4), V(4)), V(4)), Times(Times(V(2), V(2)), Times(V(4), V(4)))),
              Times(Minus(V(0), Plus(Times(V(2), V(3)), Times(V(2), V(3)))), V(4))),
         Minus(V(1), Times(V(3), V(3))))
  }

  lemma LineNorm()
    ensures SameNorm(5, CurveMinusLine(), LineCubic())
  {
    LineFits();
    assert Norm(CurveMinusLine()) == Norm(LineCubic());
  }

  lemma LineFits()
    ensures Fits(CurveMinusLine(), 5, 9) && Fits(LineCubic(), 5, 9)
  {
  }

  function LineC<T(!new)>(R: Ring<T>, a: T, l: T, n: T): T { R.Sub(a, R.Add(R.Mul(l, n), R.Mul(l, n))) }
  function LineD<T(!new)>(R: Ring<T>, b: T, n: T): T { R.Sub(b, R.Mul(n, n)) }

  /** Substituting the line l x + n into the curve equation leaves a monic cubic. */
  lemma LineMeetsCurve<T(!new)>(R: Ring<T>, a: T, b: T, l: T, n: T, x: T)
    requires R.Valid()
    ensures var y := R.Add(R.Mul(l, x), n);
            R.Sub(R.Add(R.Add(R.Mul(R.Mul(x, x), x), R.Mul(a, x)), b), R.Mul(y, y)) ==
            Monic(R, R.Mul(l, l), LineC(R, a, l, n), LineD(R, b, n), x)
  {
    LineNorm();
    Identity(R, [a, b, l, n, x], 5, CurveMinusLine(), LineCubic());
  }

  // V(0) .. V(3) are x, y, z and d.
  function RootForm(): Expr {
    Plus(Plus(Minus(Times(Times(V(0), V(0)), V(0)), Times(Plus(Plus(V(0), V(1)), V(2)), Times(V(0), V(0)))),
              Times(Plus(Plus(Times(V(0), V(1)), Times(V(0), V(2))), Times(V(1), V(2))), V(0))), V(3))
  }

  function RootValue(): Expr { Plus(Times(Times(V(0), V(1)), V(2)), V(3)) }

  lemma RootNorm()
    ensures SameNorm(4, RootForm(), RootValue())
  {
    assert Fits(RootForm(), 4, 9) && Fits(RootValue(), 4, 9);
  }

  function Pairs<T(!new)>(R: Ring<T>, x: T, y: T, z: T): T { R.Add(R.Add(R.Mul(x, y), R.Mul(x, z)), R.Mul(y, z)) }

  /** With the elementary symmetric functions of x, y, z as coefficients, the cubic takes the same value at
      each of them. */
  lemma SymmetricCubic<T(!new)>(R: Ring<T>, x: T, y: T, z: T, d: T)
    requires R.Valid()
    ensures Monic(R, R.Add(R.Add(x, y), z), Pairs(R, x, y, z), d, x) == R.Add(R.Mul(R.Mul(x, y), z), d)
  {
    RootNorm();
    Identity(R, [x, y, z, d], 4, RootForm(), RootValue());
  }

  lemma SymmetricAtThird<T(!new)>(R: Ring<T>, x: T, y: T, z: T, d: T)
    requires R.Valid()
    ensures Monic(R, R.Add(R.Add(x, y), z), Pairs(R, x, y, z), d, z) == R.Add(R.Mul(R.Mul(x, y), z), d)
  {
    SymmetricCubic(R, z, x, y, d);
    R.g.Comm(z, R.Add(x, y)); R.g.Assoc(z, x, y);
    PairsRotate(R, x, y, z);
    R.Comm(z, R.Mul(x, y)); R.Assoc(z, x, y);
  }

  lemma PairsRotate<T(!new)>(R: Ring<T>, x: T, y: T, z: T)
    requires R.Valid()
    ensures Pairs(R, z, x, y) == Pairs(R, x, y, z)
  {
    R.Comm(z, x); R.Comm(z, y);
    R.g.Comm(R.Add(R.Mul(x, z), R.Mul(y, z)), R.Mul(x, y));
    R.g.Assoc(R.Mul(x, y), R.Mul(x, z), R.Mul(y, z));
  }

  // V(0) .. V(4) are u, c, e, d and x.
  function OtherCoefficient(): Expr { Plus(Plus(V(0), Times(V(1), V(4))), V(3)) }
  function ChangedCoefficient(): Expr {
    Plus(Plus(Plus(V(0), Times(V(2), V(4))), V(3)), Times(Minus(V(1), V(2)), V(4)))
  }

  lemma ChangedNorm()
    ensures SameNorm(5, OtherCoefficient(), ChangedCoefficient())
  {
    assert Fits(OtherCoefficient(), 5, 9) && Fits(ChangedCoefficient(), 5, 9);
  }

  /** The cubic with the third coefficient changed from e to c. */
  lemma ChangeCoefficient<T(!new)>(R: Ring<T>, u: T, c: T, e: T, d: T, x: T)
    requires R.Valid()
    ensures R.Add(R.Add(u, R.Mul(c, x)), d) == R.Add(R.Add(R.Add(u, R.Mul(e, x)), d), R.Mul(R.Sub(c, e), x))
  {
    ChangedNorm();
    Identity(R, [u, c, e, d, x], 5, OtherCoefficient(), ChangedCoefficient());
  }

  // V(0) .. V(3) are w, k, x and y.
  function LineDifference(): Expr { Minus(Plus(V(0), Times(V(1), V(2))), Plus(V(0), Times(V(1), V(3)))) }
  function SlopeDifference(): Expr { Times(V(1), Minus(V(2), V(3))) }

  lemma SameOnLine<T(!new)>(R: Ring<T>, w: T, k: T, x: T, y: T)
    requires R.Valid() && R.Add(w, R.Mul(k, x)) == R.Add(w, R.Mul(k, y))
    ensures R.Mul(k, R.Sub(x, y)) == R.Zero()
  {
    assert SameNorm(4, LineDifference(), SlopeDifference());
    Identity(R, [w, k, x, y], 4, LineDifference(), SlopeDifference());
    R.g.Inverse(R.Add(w, R.Mul(k, x)));
  }

  lemma CubicChanged<T(!new)>(R: Ring<T>, x: T, y: T, z: T, c: T, d: T)
    requires R.Valid()
    ensures Monic(R, R.Add(R.Add(x, y), z), c, d, x) ==
            R.Add(R.Add(R.Mul(R.Mul(x, y), z), d), R.Mul(R.Sub(c, Pairs(R, x, y, z)), x))
  {
    var s := R.Add(R.Add(x, y), z);
    var u := R.Sub(R.Mul(R.Mul(x, x), x), R.Mul(s, R.Mul(x, x)));
    SymmetricCubic(R, x, y, z, d);
    ChangeCoefficient(R, u, c, Pairs(R, x, y, z), d, x);
  }

  lemma PairsSwap<T(!new)>(R: Ring<T>, x: T, y: T, z: T)
    requires R.Valid()
    ensures Pairs(R, y, x, z) == Pairs(R, x, y, z)
  {
    R.Comm(x, y);
    R.g.Assoc(R.Mul(x, y), R.Mul(y, z), R.Mul(x, z));
    R.g.Comm(R.Mul(y, z), R.Mul(x, z));
    R.g.Assoc(R.Mul(x, y), R.Mul(x, z), R.Mul(y, z));
  }

  /** A cubic with sum of roots x + y + z that takes one value at x and y, which differ, has the third
      coefficient of the cubic with those roots. */
  lemma CoefficientFromRoots<T(!new)>(F: Field<T>, x: T, y: T, z: T, c: T, d: T)
    requires F.Valid() && x != y
    requires var s := F.Add(F.Add(x, y), z); Monic(F.R, s, c, d, x) == Monic(F.R, s, c, d, y)
    ensures c == Pairs(F.R, x, y, z)
  {
    var R := F.R;
    var k := F.Sub(c, Pairs(R, x, y, z));
    CubicChanged(R, x, y, z, c, d);
    CubicChanged(R, y, x, z, c, d);
    PairsSwap(R, x, y, z); R.g.Comm(x, y); R.Comm(x, y);
    SameOnLine(R, F.Add(F.Mul(F.Mul(x, y), z), d), k, x, y);
    F.NoZeroDivisors(k, F.Sub(x, y));
    R.g.SubZero(x, y); R.g.SubZero(c, Pairs(R, x, y, z));
  }

  // V(0) .. V(2) are l * l, x1 and x2.
  lemma SumOfRoots<T(!new)>(R: Ring<T>, s: T, x1: T, x2: T)
    requires R.Valid()
    ensures R.Add(R.Add(x1, x2), R.Sub(R.Sub(s, x1), x2)) == s
  {
    var a, b := Plus(Plus(V(1), V(2)), Minus(Minus(V(0), V(1)), V(2))), V(0);
    assert SameNorm(3, a, b);
    Identity(R, [s, x1, x2], 3, a, b);
  }

  /** The line through (x1, y1) of slope l, written with its intercept, at any x. */
  lemma LineThrough<T(!new)>(R: Ring<T>, l: T, x1: T, y1: T, x: T)
    requires R.Valid()
    ensures R.Add(R.Mul(l, x), R.Sub(y1, R.Mul(l, x1))) == R.Add(y1, R.Mul(l, R.Sub(x, x1)))
    ensures R.Sub(R.Mul(l, R.Sub(x1, x)), y1) == R.Neg(R.Add(R.Mul(l, x), R.Sub(y1, R.Mul(l, x1))))
  {
    var g, lx, lx1 := R.g, R.Mul(l, x), R.Mul(l, x1);
    R.DistributeSub(l, x, x1); R.DistributeSub(l, x1, x);
    g.Swap(lx, y1, R.Neg(lx1));
    g.NegAdd(lx, R.Sub(y1, lx1)); g.NegLaws(y1, lx1); g.NegLaws(lx, lx1);
    g.Swap(R.Neg(lx), lx1, R.Neg(y1));
    g.Assoc(lx1, R.Neg(lx), R.Neg(y1));
  }

  /** If the line through a curve point has the right third coefficient, it meets the curve at the third
      abscissa. */
  lemma ThirdOnCurve<T(!new)>(C: Curve<T>, l: T, x1: T, y1: T, x2: T)
    requires C.F.Valid() && OnCurve(C, At(x1, y1))
    requires var x3 := C.F.Sub(C.F.Sub(C.F.Square(l), x1), x2);
             LineC(C.F.R, C.a, l, C.F.Sub(y1, C.F.Mul(l, x1))) == Pairs(C.F.R, x1, x2, x3)
    ensures OnCurve(C, Third(C, l, x1, y1, x2))
  {
    var F, R := C.F, C.F.R;
    var n, x3 := F.Sub(y1, F.Mul(l, x1)), F.Sub(F.Sub(F.Square(l), x1), x2);
    var d := LineD(R, C.b, n);
    SumOfRoots(R, F.Square(l), x1, x2);
    LineMeetsCurve(R, C.a, C.b, l, n, x1);
    LineMeetsCurve(R, C.a, C.b, l, n, x3);
    SymmetricCubic(R, x1, x2, x3, d);
    SymmetricAtThird(R, x1, x2, x3, d);
    LineThrough(R, l, x1, y1, x1);
    R.g.Inverse(x1); R.MulZero(l); R.g.Unit(y1);
    R.g.SubZero(Cubic(C, x1), F.Square(y1));
    var y := F.Add(F.Mul(l, x3), n);
    R.g.SubZero(Cubic(C, x3), F.Square(y));
    LineThrough(R, l, x1, y1, x3);
    R.MulNeg(y, y);
  }

  /** The line through two curve points meets the curve at their abscissas and at l^2 - x1 - x2. */
  lemma ChordCoefficient<T(!new)>(C: Curve<T>, x1: T, y1: T, x2: T, y2: T)
    requires C.F.Valid() && OnCurve(C, At(x1, y1)) && OnCurve(C, At(x2, y2)) && x1 != x2
    ensures var l := ChordSlope(C, x1, y1, x2, y2);
            var n := C.F.Sub(y1, C.F.Mul(l, x1));
            LineC(C.F.R, C.a, l, n) == Pairs(C.F.R, x1, x2, C.F.Sub(C.F.Sub(C.F.Square(l), x1), x2)) &&
            C.F.Add(C.F.Mul(l, x2), n) == y2
  {
    var F, R := C.F, C.F.R;
    var l := ChordSlope(C, x1, y1, x2, y2);
    var n, x3 := F.Sub(y1, F.Mul(l, x1)), F.Sub(F.Sub(F.Square(l), x1), x2);
    R.g.SubZero(x2, x1);
    F.DivMul(F.Sub(y2, y1), F.Sub(x2, x1));
    LineThrough(R, l, x1, y1, x1); LineThrough(R, l, x1, y1, x2);
    R.g.Inverse(x1); R.MulZero(l); R.g.Unit(y1);
    R.g.Comm(y1, F.Sub(y2, y1)); R.g.SubAdd(y2, y1);
    LineMeetsCurve(R, C.a, C.b, l, n, x1);
    LineMeetsCurve(R, C.a, C.b, l, n, x2);
    R.g.Inverse(F.Square(y1)); R.g.Inverse(F.Square(y2));
    SumOfRoots(R, F.Square(l), x1, x2);
    CoefficientFromRoots(F, x1, x2, x3, LineC(R, C.a, l, n), LineD(R, C.b, n));
  }

  /** The chord through two curve points. */
  lemma ChordOnCurve<T(!new)>(C: Curve<T>, x1: T, y1: T, x2: T, y2: T)
    requires C.F.Valid() && OnCurve(C, At(x1, y1)) && OnCurve(C, At(x2, y2)) && x1 != x2
    ensures OnCurve(C, Third(C, ChordSlope(C, x1, y1, x2, y2), x1, y1, x2))
  {
    ChordCoefficient(C, x1, y1, x2, y2);
    ThirdOnCurve(C, ChordSlope(C, x1, y1, x2, y2), x1, y1, x2);
  }

  // V(0) .. V(3) are a, l, y and x.
  function TangentC(): Expr {
    Minus(V(0), Plus(Times(V(1), Minus(V(2), Times(V(1), V(3)))), Times(V(1), Minus(V(2), Times(V(1), V(3))))))
  }
  function TangentCSplit(): Expr {
    Plus(Minus(V(0), Times(V(1), Plus(V(2), V(2)))), Plus(Times(Times(V(1), V(1)), V(3)),
      Times(Times(V(1), V(1)), V(3))))
  }
  // V(0) .. V(2) are a, x and z.
  function TangentCDone(): Expr {
    Plus(Minus(V(0), Plus(Plus(Times(V(1), V(1)), Plus(Times(V(1), V(1)), Times(V(1), V(1)))), V(0))),
         Plus(Times(Plus(Plus(V(1), V(1)), V(2)), V(1)), Times(Plus(Plus(V(1), V(1)), V(2)), V(1))))
  }
  function DoubleRootPairs(): Expr { Plus(Plus(Times(V(1), V(1)), Times(V(1), V(2))), Times(V(1), V(2))) }

  lemma TangentNormSplit()
    ensures SameNorm(4, TangentC(), TangentCSplit())
  {
    assert Fits(TangentC(), 4, 9) && Fits(TangentCSplit(), 4, 9);
  }

  lemma TangentNormDone()
    ensures SameNorm(3, TangentCDone(), DoubleRootPairs())
  {
    assert Fits(TangentCDone(), 3, 9) && Fits(DoubleRootPairs(), 3, 9);
  }

  lemma TangentSplit<T(!new)>(R: Ring<T>, a: T, l: T, y: T, x: T)
    requires R.Valid()
    ensures LineC(R, a, l, R.Sub(y, R.Mul(l, x))) ==
            R.Add(R.Sub(a, R.Mul(l, R.Add(y, y))), R.Add(R.Mul(R.Mul(l, l), x), R.Mul(R.Mul(l, l), x)))
  {
    TangentNormSplit();
    Identity(R, [a, l, y, x], 4, TangentC(), TangentCSplit());
  }

  lemma TangentDone<T(!new)>(R: Ring<T>, a: T, x: T, z: T)
    requires R.Valid()
    ensures var m, t := R.Mul(x, x), R.Mul(R.Add(R.Add(x, x), z), x);
            R.Add(R.Sub(a, R.Add(R.Add(m, R.Add(m, m)), a)), R.Add(t, t)) == Pairs(R, x, x, z)
  {
    TangentNormDone();
    Identity(R, [a, x, z], 3, TangentCDone(), DoubleRootPairs());
  }

  lemma TangentCoefficient<T(!new)>(C: Curve<T>, x: T, y: T)
    requires C.F.Valid() && C.F.Add(y, y) != C.F.Zero()
    ensures var l := TangentSlope(C, x, y);
            LineC(C.F.R, C.a, l, C.F.Sub(y, C.F.Mul(l, x))) ==
            Pairs(C.F.R, x, x, C.F.Sub(C.F.Sub(C.F.Square(l), x), x))
  {
    var F, R := C.F, C.F.R;
    var l, m := TangentSlope(C, x, y), F.Mul(x, x);
    F.DivMul(F.Add(F.Add(m, F.Add(m, m)), C.a), F.Add(y, y));
    SumOfRoots(R, F.Square(l), x, x);
    TangentSplit(R, C.a, l, y, x);
    TangentDone(R, C.a, x, F.Sub(F.Sub(F.Square(l), x), x));
  }

  /** The tangent at a curve point that is not its own negative. */
  lemma TangentOnCurve<T(!new)>(C: Curve<T>, x: T, y: T)
    requires C.F.Valid() && OnCurve(C, At(x, y)) && C.F.Add(y, y) != C.F.Zero()
    ensures OnCurve(C, Third(C, TangentSlope(C, x, y), x, y, x))
  {
    TangentCoefficient(C, x, y);
    ThirdOnCurve(C, TangentSlope(C, x, y), x, y, x);
  }

  /** Adding two points of the curve gives a point of the curve. */
  lemma AddOnCurve<T(!new)>(C: Curve<T>, p: Affine<T>, q: Affine<T>)
    requires C.F.Valid() && OnCurve(C, p) && OnCurve(C, q)
    ensures OnCurve(C, AddAffine(C, p, q))
  {
    if p.At? && q.At? {
      if p.x != q.x {
        ChordOnCurve(C, p.x, p.y, q.x, q.y);
      } else if p.y == q.y && C.F.Add(p.y, p.y) != C.F.Zero() {
        TangentOnCurve(C, p.x, p.y);
      }
    }
  }

  lemma NegOnCurve<T(!new)>(C: Curve<T>, p: Affine<T>)
    requires C.F.Valid() && OnCurve(C, p)
    ensures OnCurve(C, NegAffine(C, p))
    ensures AddAffine(C, p, NegAffine(C, p)) == Infinity
  {
    if p.At? {
      C.F.R.MulNeg(p.y, p.y);
      C.F.R.g.Inverse(p.y);
    }
  }
}
