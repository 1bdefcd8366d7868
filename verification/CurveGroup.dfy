/** From the curve formulas to the abelian group that scalar multiplication and multi-exponentiation work
    in: of the group laws only associativity is taken as a hypothesis. */
module CurveGroup {
  import opened AffineCurve
  import opened Algebra

  lemma SameSlope<T(!new)>(C: Curve<T>, x1: T, y1: T, x2: T, y2: T)
    requires C.F.Valid() && x1 != x2
    ensures ChordSlope(C, x1, y1, x2, y2) == ChordSlope(C, x2, y2, x1, y1)
  {
    var F, g := C.F, C.F.R.g;
    var l, m := ChordSlope(C, x1, y1, x2, y2), ChordSlope(C, x2, y2, x1, y1);
    g.SubZero(x2, x1); g.SubZero(x1, x2);
    F.DivMul(F.Sub(y2, y1), F.Sub(x2, x1));
    F.DivMul(F.Sub(y1, y2), F.Sub(x1, x2));
    g.NegLaws(x1, x2); g.NegLaws(y1, y2);
    F.R.MulNeg(m, F.Sub(x1, x2));
    F.CancelFactor(l, m, F.Sub(x2, x1));
  }

  /** The chord through two points has one intercept. */
  lemma SameIntercept<T(!new)>(C: Curve<T>, x1: T, y1: T, x2: T, y2: T)
    requires C.F.Valid() && x1 != x2
    ensures var l := ChordSlope(C, x1, y1, x2, y2);
            C.F.Sub(y1, C.F.Mul(l, x1)) == C.F.Sub(y2, C.F.Mul(l, x2))
  {
    var F, R := C.F, C.F.R;
    var l := ChordSlope(C, x1, y1, x2, y2);
    var n := F.Sub(y1, F.Mul(l, x1));
    R.g.SubZero(x2, x1);
    F.DivMul(F.Sub(y2, y1), F.Sub(x2, x1));
    LineThrough(R, l, x1, y1, x2);
    R.g.Comm(y1, F.Sub(y2, y1)); R.g.SubAdd(y2, y1);
    R.g.Comm(F.Mul(l, x2), n);
    R.g.SubAdd(n, F.Mul(l, x2));
  }

  /** Chord and tangent do not depend on the order of the points. */
  lemma AddCommutes<T(!new)>(C: Curve<T>, p: Affine<T>, q: Affine<T>)
    requires C.F.Valid()
    ensures AddAffine(C, p, q) == AddAffine(C, q, p)
  {
    if p.At? && q.At? && p.x != q.x {
      var F, R := C.F, C.F.R;
      var l := ChordSlope(C, p.x, p.y, q.x, q.y);
      SameSlope(C, p.x, p.y, q.x, q.y);
      SameIntercept(C, p.x, p.y, q.x, q.y);
      R.g.Swap(F.Square(l), R.Neg(p.x), R.Neg(q.x));
      var x3 := F.Sub(F.Sub(F.Square(l), p.x), q.x);
      LineThrough(R, l, p.x, p.y, x3);
      LineThrough(R, l, q.x, q.y, x3);
    }
  }

  ghost predicate AssocAt<T(!new)>(C: Curve<T>, p: Affine<T>, q: Affine<T>, r: Affine<T>) {
    OnCurve(C, p) && OnCurve(C, q) && OnCurve(C, r) ==>
      AddAffine(C, AddAffine(C, p, q), r) == AddAffine(C, p, AddAffine(C, q, r))
  }

  /** The one group law that is not proved here. */
  ghost predicate Associative<T(!new)>(C: Curve<T>) { forall p, q, r :: AssocAt(C, p, q, r) }

  /** The operations of G on a and b, read through point, are those on curve points. */
  ghost predicate Acts<T(!new), E(!new)>(C: Curve<T>, G: Group<E>, point: E -> Affine<T>, a: E, b: E) {
    && OnCurve(C, point(a))
    && (point(a) == point(b) ==> a == b)
    && point(G.Add(a, b)) == AddAffine(C, point(a), point(b))
    && point(G.Neg(a)) == NegAffine(C, point(a))
  }

  ghost predicate Points<T(!new), E(!new)>(C: Curve<T>, G: Group<E>, point: E -> Affine<T>) {
    C.F.Valid() && point(G.zero) == Infinity && forall a, b :: Acts(C, G, point, a, b)
  }

  /** Elements that act as curve points form an abelian group. */
  lemma PointsAreAGroup<T(!new), E(!new)>(C: Curve<T>, G: Group<E>, point: E -> Affine<T>)
    requires Points(C, G, point) && Associative(C)
    ensures G.Valid()
  {
    forall a, b
      ensures G.CommLaw(a, b)
    {
      assert Acts(C, G, point, a, b) && Acts(C, G, point, b, a);
      AddCommutes(C, point(a), point(b));
      assert Acts(C, G, point, G.Add(a, b), G.Add(b, a));
    }
    forall a, b, c
      ensures G.AssocLaw(a, b, c)
    {
      assert Acts(C, G, point, a, b) && Acts(C, G, point, b, c) && Acts(C, G, point, c, a);
      assert AssocAt(C, point(a), point(b), point(c));
      assert Acts(C, G, point, G.Add(a, b), c) && Acts(C, G, point, a, G.Add(b, c));
      assert Acts(C, G, point, G.Add(G.Add(a, b), c), G.Add(a, G.Add(b, c)));
    }
    forall a
      ensures G.UnitLaw(a) && G.InverseLaw(a)
    {
      assert Acts(C, G, point, a, G.zero) && Acts(C, G, point, a, G.Neg(a));
      NegOnCurve(C, point(a));
      assert Acts(C, G, point, G.Add(a, G.zero), a) && Acts(C, G, point, G.Add(a, G.Neg(a)), G.zero);
    }
  }

  /** k times a point by chord and tangent. */
  function Multiple<T(!new,==)>(C: Curve<T>, k: nat, p: Affine<T>): Affine<T> {
    if k == 0 then Infinity else AddAffine(C, p, Multiple(C, k - 1, p))
  }

  /** What the multiplications by scalars compute in such a group are the multiples on the curve. */
  lemma {:induction false} TimesIsMultiple<T(!new), E(!new)>(C: Curve<T>, G: Group<E>, point: E -> Affine<T>, k: nat,
      a: E)
    requires Points(C, G, point)
    ensures point(G.Times(k, a)) == Multiple(C, k, point(a)) && OnCurve(C, Multiple(C, k, point(a)))
  {
    assert Acts(C, G, point, G.Times(k, a), a);
    if k > 0 {
      TimesIsMultiple(C, G, point, k - 1, a);
      assert Acts(C, G, point, a, G.Times(k - 1, a));
    }
  }
}
