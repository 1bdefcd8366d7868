/** Abelian groups and commutative rings as records of operations, with the laws as hypotheses.
    Every law is wrapped in a predicate of its own, so that the verifier uses it only where a
    lemma below names the instance. */
module Algebra {

  datatype Group<!T(!new)> = Group(zero: T, plus: (T, T) -> T, minus: T -> T)
  {
    function Add(a: T, b: T): T { plus(a, b) }
    function Neg(a: T): T { minus(a) }
    function Sub(a: T, b: T): T { Add(a, Neg(b)) }

    ghost predicate CommLaw(a: T, b: T) { Add(a, b) == Add(b, a) }
    ghost predicate AssocLaw(a: T, b: T, c: T) { Add(Add(a, b), c) == Add(a, Add(b, c)) }
    ghost predicate UnitLaw(a: T) { Add(a, zero) == a }
    ghost predicate InverseLaw(a: T) { Add(a, Neg(a)) == zero }

    ghost predicate Valid() {
      && (forall a, b :: CommLaw(a, b))
      && (forall a, b, c :: AssocLaw(a, b, c))
      && (forall a :: UnitLaw(a))
      && (forall a :: InverseLaw(a))
    }

    lemma Comm(a: T, b: T)
      requires Valid()
      ensures Add(a, b) == Add(b, a)
    {
      assert CommLaw(a, b);
    }

    lemma Assoc(a: T, b: T, c: T)
      requires Valid()
      ensures Add(Add(a, b), c) == Add(a, Add(b, c))
    {
      assert AssocLaw(a, b, c);
    }

    lemma Unit(a: T)
      requires Valid()
      ensures Add(a, zero) == a && Add(zero, a) == a
    {
      assert UnitLaw(a);
      Comm(a, zero);
    }

    lemma Inverse(a: T)
      requires Valid()
      ensures Add(a, Neg(a)) == zero && Add(Neg(a), a) == zero && Sub(a, a) == zero
    {
      assert InverseLaw(a);
      Comm(a, Neg(a));
    }

    lemma Swap(a: T, b: T, c: T)
      requires Valid()
      ensures Add(Add(a, b), c) == Add(Add(a, c), b)
      ensures Add(a, Add(b, c)) == Add(b, Add(a, c))
    {
      Assoc(a, b, c); Comm(b, c); Assoc(a, c, b);
      Assoc(b, a, c); Comm(a, b);
    }

    lemma Swap4(a: T, b: T, c: T, d: T)
      requires Valid()
      ensures Add(Add(a, b), Add(c, d)) == Add(Add(a, c), Add(b, d))
    {
      Assoc(a, b, Add(c, d));
      Swap(b, c, d);
      Assoc(a, c, Add(b, d));
    }

    lemma NegUnique(a: T, b: T)
      requires Valid() && Add(a, b) == zero
      ensures b == Neg(a)
    {
      Inverse(a); Assoc(Neg(a), a, b); Unit(b); Unit(Neg(a));
    }

    lemma Cancel(a: T, b: T, c: T)
      requires Valid() && Add(a, c) == Add(b, c)
      ensures a == b
    {
      Assoc(a, c, Neg(c)); Assoc(b, c, Neg(c)); Inverse(c); Unit(a); Unit(b);
    }

    lemma NegLaws(a: T, b: T)
      requires Valid()
      ensures Neg(zero) == zero && Neg(Neg(a)) == a
      ensures Neg(Add(a, b)) == Add(Neg(a), Neg(b))
      ensures Neg(Sub(a, b)) == Sub(b, a)
    {
      Unit(zero); NegUnique(zero, zero);
      Inverse(a); NegUnique(Neg(a), a);
      Inverse(b); NegUnique(Neg(b), b);
      NegAdd(a, b); NegAdd(a, Neg(b)); Comm(Neg(a), b);
    }

    lemma NegAdd(a: T, b: T)
      requires Valid()
      ensures Neg(Add(a, b)) == Add(Neg(a), Neg(b))
    {
      Swap4(a, b, Neg(a), Neg(b));
      Inverse(a); Inverse(b); Unit(zero);
      NegUnique(Add(a, b), Add(Neg(a), Neg(b)));
    }

    /** What is subtracted can be added back, and the other way round. */
    lemma SubAdd(a: T, b: T)
      requires Valid()
      ensures Add(Sub(a, b), b) == a && Sub(Add(a, b), b) == a
    {
      Assoc(a, Neg(b), b); Assoc(a, b, Neg(b)); Inverse(b); Unit(a);
    }

    lemma SubZero(a: T, b: T)
      requires Valid()
      ensures Sub(a, b) == zero <==> a == b
    {
      Inverse(a); SubAdd(a, b); Unit(b);
    }

    /** k-fold sum of p. */
    function Times(k: nat, p: T): T {
      if k == 0 then zero else Add(p, Times(k - 1, p))
    }

    lemma {:induction false} TimesAdd(j: nat, k: nat, p: T)
      requires Valid()
      ensures Times(j + k, p) == Add(Times(j, p), Times(k, p))
    {
      if j == 0 {
        Unit(Times(k, p));
      } else {
        TimesAdd(j - 1, k, p);
        Assoc(p, Times(j - 1, p), Times(k, p));
      }
    }

    lemma {:induction false} TimesSum(k: nat, p: T, q: T)
      requires Valid()
      ensures Times(k, Add(p, q)) == Add(Times(k, p), Times(k, q))
    {
      if k == 0 {
        Unit(zero);
      } else {
        TimesSum(k - 1, p, q);
        Swap4(p, q, Times(k - 1, p), Times(k - 1, q));
      }
    }

    lemma {:induction false} TimesZero(k: nat)
      requires Valid()
      ensures Times(k, zero) == zero
    {
      if k > 0 { TimesZero(k - 1); Unit(zero); }
    }

    lemma TimesOne(p: T)
      requires Valid()
      ensures Times(1, p) == p
    {
      Unit(p);
      assert Times(0, p) == zero;
    }

    lemma {:induction false} TimesTimes(j: nat, k: nat, p: T)
      requires Valid()
      ensures Times(j * k, p) == Times(j, Times(k, p))
    {
      if j > 0 {
        TimesTimes(j - 1, k, p);
        TimesAdd(k, (j - 1) * k, p);
        assert k + (j - 1) * k == j * k;
      }
    }

    /** Multiples by signed integers. */
    function Mul(k: int, p: T): T {
      if k >= 0 then Times(k, p) else Neg(Times(-k, p))
    }

    lemma MulSucc(k: int, p: T)
      requires Valid()
      ensures Mul(k + 1, p) == Add(Mul(k, p), p)
    {
      if k >= 0 {
        Comm(p, Times(k, p));
      } else if k == -1 {
        TimesOne(p); Inverse(p);
      } else {
        var m := Times(-k - 1, p);
        NegAdd(p, m); Comm(Neg(p), Neg(m));
        Assoc(Neg(m), Neg(p), p); Inverse(p); Unit(Neg(m));
      }
    }

    lemma MulPred(k: int, p: T)
      requires Valid()
      ensures Mul(k - 1, p) == Sub(Mul(k, p), p)
    {
      MulSucc(k - 1, p); SubAdd(Mul(k - 1, p), p);
    }

    lemma MulDouble(k: int, p: T)
      requires Valid()
      ensures Mul(2 * k, p) == Add(Mul(k, p), Mul(k, p))
    {
      if k >= 0 {
        TimesAdd(k, k, p);
      } else {
        TimesAdd(-k, -k, p);
        NegAdd(Times(-k, p), Times(-k, p));
      }
    }
  }

  datatype Ring<!T(!new)> = Ring(g: Group<T>, one: T, times: (T, T) -> T)
  {
    function Zero(): T { g.zero }
    function Add(a: T, b: T): T { g.Add(a, b) }
    function Neg(a: T): T { g.Neg(a) }
    function Sub(a: T, b: T): T { g.Sub(a, b) }
    function Mul(a: T, b: T): T { times(a, b) }

    ghost predicate CommLaw(a: T, b: T) { Mul(a, b) == Mul(b, a) }
    ghost predicate AssocLaw(a: T, b: T, c: T) { Mul(Mul(a, b), c) == Mul(a, Mul(b, c)) }
    ghost predicate UnitLaw(a: T) { Mul(a, one) == a }
    ghost predicate DistributeLaw(a: T, b: T, c: T) { Mul(a, Add(b, c)) == Add(Mul(a, b), Mul(a, c)) }

    /** A commutative ring. */
    ghost predicate Valid() {
      && g.Valid()
      && (forall a, b :: CommLaw(a, b))
      && (forall a, b, c :: AssocLaw(a, b, c))
      && (forall a :: UnitLaw(a))
      && (forall a, b, c :: DistributeLaw(a, b, c))
    }

    lemma Comm(a: T, b: T)
      requires Valid()
      ensures Mul(a, b) == Mul(b, a)
    {
      assert CommLaw(a, b);
    }

    lemma Assoc(a: T, b: T, c: T)
      requires Valid()
      ensures Mul(Mul(a, b), c) == Mul(a, Mul(b, c))
    {
      assert AssocLaw(a, b, c);
    }

    lemma Unit(a: T)
      requires Valid()
      ensures Mul(a, one) == a && Mul(one, a) == a
    {
      assert UnitLaw(a);
      Comm(a, one);
    }

    lemma Distribute(a: T, b: T, c: T)
      requires Valid()
      ensures Mul(a, Add(b, c)) == Add(Mul(a, b), Mul(a, c))
      ensures Mul(Add(b, c), a) == Add(Mul(b, a), Mul(c, a))
    {
      assert DistributeLaw(a, b, c);
      Comm(a, b); Comm(a, c); Comm(a, Add(b, c));
    }

    lemma Swap(a: T, b: T, c: T)
      requires Valid()
      ensures Mul(Mul(a, b), c) == Mul(Mul(a, c), b)
      ensures Mul(a, Mul(b, c)) == Mul(b, Mul(a, c))
    {
      Assoc(a, b, c); Comm(b, c); Assoc(a, c, b);
      Assoc(b, a, c); Comm(a, b);
    }

    lemma Swap4(a: T, b: T, c: T, d: T)
      requires Valid()
      ensures Mul(Mul(a, b), Mul(c, d)) == Mul(Mul(a, c), Mul(b, d))
    {
      Assoc(a, b, Mul(c, d));
      Swap(b, c, d);
      Assoc(a, c, Mul(b, d));
    }

    lemma MulZero(a: T)
      requires Valid()
      ensures Mul(a, Zero()) == Zero() && Mul(Zero(), a) == Zero()
    {
      var m := Mul(a, Zero());
      g.Unit(Zero()); Distribute(a, Zero(), Zero());
      g.Unit(m); g.Cancel(m, Zero(), m);
      Comm(a, Zero());
    }

    lemma MulNeg(a: T, b: T)
      requires Valid()
      ensures Mul(a, Neg(b)) == Neg(Mul(a, b)) && Mul(Neg(a), b) == Neg(Mul(a, b))
      ensures Mul(Neg(a), Neg(b)) == Mul(a, b)
    {
      MulNegRight(a, b);
      MulNegRight(b, a); Comm(a, b); Comm(Neg(a), b);
      MulNegRight(Neg(a), b); g.NegLaws(Mul(a, b), b);
    }

    lemma MulNegRight(a: T, b: T)
      requires Valid()
      ensures Mul(a, Neg(b)) == Neg(Mul(a, b))
    {
      g.Inverse(b); Distribute(a, b, Neg(b)); MulZero(a);
      g.NegUnique(Mul(a, b), Mul(a, Neg(b)));
    }

    lemma DistributeSub(a: T, b: T, c: T)
      requires Valid()
      ensures Mul(a, Sub(b, c)) == Sub(Mul(a, b), Mul(a, c))
      ensures Mul(Sub(b, c), a) == Sub(Mul(b, a), Mul(c, a))
    {
      Distribute(a, b, Neg(c)); MulNeg(a, c); MulNeg(c, a);
    }

    function Pow(x: T, n: nat): T {
      if n == 0 then one else Mul(x, Pow(x, n - 1))
    }

    lemma {:induction false} PowAdd(x: T, m: nat, n: nat)
      requires Valid()
      ensures Pow(x, m + n) == Mul(Pow(x, m), Pow(x, n))
    {
      if m == 0 {
        Unit(Pow(x, n));
      } else {
        PowAdd(x, m - 1, n);
        Assoc(x, Pow(x, m - 1), Pow(x, n));
      }
    }

    lemma {:induction false} PowPow(x: T, m: nat, n: nat)
      requires Valid()
      ensures Pow(Pow(x, m), n) == Pow(x, m * n)
    {
      if n > 0 {
        PowPow(x, m, n - 1);
        PowAdd(x, m, m * (n - 1));
        assert m + m * (n - 1) == m * n;
      }
    }

    lemma {:induction false} PowOne(n: nat)
      requires Valid()
      ensures Pow(one, n) == one
    {
      if n > 0 { PowOne(n - 1); Unit(one); }
    }

    lemma {:induction false} PowMul(x: T, y: T, n: nat)
      requires Valid()
      ensures Pow(Mul(x, y), n) == Mul(Pow(x, n), Pow(y, n))
    {
      if n == 0 {
        Unit(one);
      } else {
        PowMul(x, y, n - 1);
        Swap4(x, y, Pow(x, n - 1), Pow(y, n - 1));
      }
    }

    lemma PowSmall(x: T)
      requires Valid()
      ensures Pow(x, 1) == x && Pow(x, 2) == Mul(x, x)
    {
      Unit(x);
      assert Pow(x, 0) == one;
      assert Pow(x, 2) == Mul(x, Pow(x, 1));
    }
  }
}
