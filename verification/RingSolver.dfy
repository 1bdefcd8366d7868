/** Polynomial identities in a commutative ring by computation: both sides are expressions, expressions
    normalise to sorted lists of monomials, and expressions with the same normal form have the same
    value. A monomial is a number whose base-1024 digits are the exponents of the variables. */
module RingSolver {
  import opened Algebra
  import opened Bits

  datatype Expr = One | V(i: nat) | Plus(a: Expr, b: Expr) | Minus(a: Expr, b: Expr) | Times(a: Expr, b: Expr)

  datatype Poly = Nil | Term(c: int, m: nat, rest: Poly)

  // ---------- normal forms ----------

  function Insert(c: int, m: nat, p: Poly): Poly
    decreases p
  {
    if p.Nil? then Term(c, m, Nil)
    else if m == p.m then (if c + p.c == 0 then p.rest else Term(c + p.c, m, p.rest))
    else if m < p.m then Term(c, m, p)
    else Term(p.c, p.m, Insert(c, m, p.rest))
  }

  function Sum(p: Poly, q: Poly): Poly
    decreases p
  {
    if p.Nil? then q else Insert(p.c, p.m, Sum(p.rest, q))
  }

  function Scale(c: int, m: nat, p: Poly): Poly
    decreases p
  {
    if p.Nil? then Nil else Insert(c * p.c, m + p.m, Scale(c, m, p.rest))
  }

  function Product(p: Poly, q: Poly): Poly
    decreases p
  {
    if p.Nil? then Nil else Sum(Scale(p.c, p.m, q), Product(p.rest, q))
  }

  function VarCode(i: nat): nat { if i == 0 then 1 else 1024 * VarCode(i - 1) }

  function Norm(e: Expr): Poly {
    match e
    case One => Term(1, 0, Nil)
    case V(i) => Term(1, VarCode(i), Nil)
    case Plus(a, b) => Sum(Norm(a), Norm(b))
    case Minus(a, b) => Sum(Norm(a), Scale(-1, 0, Norm(b)))
    case Times(a, b) => Product(Norm(a), Norm(b))
  }

  /** The expression is at most d deep and uses the variables below n only. */
  predicate Fits(e: Expr, n: nat, d: nat) {
    match e
    case One => true
    case V(i) => i < n
    case Plus(a, b) => d > 0 && Fits(a, n, d - 1) && Fits(b, n, d - 1)
    case Minus(a, b) => d > 0 && Fits(a, n, d - 1) && Fits(b, n, d - 1)
    case Times(a, b) => d > 0 && Fits(a, n, d - 1) && Fits(b, n, d - 1)
  }

  // ---------- meaning ----------

  function Eval<T(!new)>(R: Ring<T>, env: seq<T>, e: Expr): T
    decreases e
  {
    match e
    case One => R.one
    case V(i) => if i < |env| then env[i] else R.Zero()
    case Plus(a, b) => R.Add(Eval(R, env, a), Eval(R, env, b))
    case Minus(a, b) => R.Sub(Eval(R, env, a), Eval(R, env, b))
    case Times(a, b) => R.Mul(Eval(R, env, a), Eval(R, env, b))
  }

  function EvalMono<T(!new)>(R: Ring<T>, env: seq<T>, m: nat): T {
    if env == [] then R.one else R.Mul(R.Pow(env[0], m % 1024), EvalMono(R, env[1..], m / 1024))
  }

  function EvalPoly<T(!new)>(R: Ring<T>, env: seq<T>, p: Poly): T
    decreases p
  {
    if p.Nil? then R.Zero() else R.Add(R.g.Mul(p.c, EvalMono(R, env, p.m)), EvalPoly(R, env, p.rest))
  }

  /** The sum of the n low exponents. */
  function DigitSum(n: nat, m: nat): nat { if n == 0 then 0 else m % 1024 + DigitSum(n - 1, m / 1024) }

  predicate Bounded(n: nat, p: Poly, d: nat)
    decreases p
  {
    p.Nil? || (DigitSum(n, p.m) <= d && Bounded(n, p.rest, d))
  }

  // ---------- monomials ----------

  lemma {:induction false} DigitSumAdd(n: nat, a: nat, b: nat)
    requires DigitSum(n, a) + DigitSum(n, b) < 1024
    ensures DigitSum(n, a + b) == DigitSum(n, a) + DigitSum(n, b)
  {
    if n > 0 {
      assert (a + b) % 1024 == a % 1024 + b % 1024 && (a + b) / 1024 == a / 1024 + b / 1024;
      DigitSumAdd(n - 1, a / 1024, b / 1024);
    }
  }

  lemma {:induction false} MonoProduct<T(!new)>(R: Ring<T>, env: seq<T>, a: nat, b: nat)
    requires R.Valid() && DigitSum(|env|, a) + DigitSum(|env|, b) < 1024
    ensures EvalMono(R, env, a + b) == R.Mul(EvalMono(R, env, a), EvalMono(R, env, b))
  {
    if env == [] {
      R.Unit(R.one);
    } else {
      assert (a + b) % 1024 == a % 1024 + b % 1024 && (a + b) / 1024 == a / 1024 + b / 1024;
      MonoProduct(R, env[1..], a / 1024, b / 1024);
      R.PowAdd(env[0], a % 1024, b % 1024);
      R.Swap4(R.Pow(env[0], a % 1024), R.Pow(env[0], b % 1024), EvalMono(R, env[1..], a / 1024),
        EvalMono(R, env[1..], b / 1024));
    }
  }

  lemma {:induction false} MonoZero<T(!new)>(R: Ring<T>, env: seq<T>)
    requires R.Valid()
    ensures EvalMono(R, env, 0) == R.one && DigitSum(|env|, 0) == 0
  {
    if env != [] {
      MonoZero(R, env[1..]);
      R.Unit(R.one);
    }
  }

  lemma {:induction false} MonoVar<T(!new)>(R: Ring<T>, env: seq<T>, i: nat)
    requires R.Valid() && i < |env|
    ensures EvalMono(R, env, VarCode(i)) == env[i] && DigitSum(|env|, VarCode(i)) == 1
  {
    if i == 0 {
      MonoZero(R, env[1..]);
      R.PowSmall(env[0]);
      R.Unit(env[0]);
    } else {
      MonoVar(R, env[1..], i - 1);
      ShiftedCode(VarCode(i - 1));
      R.Unit(env[i]);
    }
  }

  lemma ShiftedCode(m: nat)
    ensures 1024 * m % 1024 == 0 && 1024 * m / 1024 == m
  {
  }

  // ---------- coefficients ----------

  lemma {:induction false} CoefficientSum<T(!new)>(G: Group<T>, c: int, d: int, p: T)
    requires G.Valid()
    ensures G.Mul(c + d, p) == G.Add(G.Mul(c, p), G.Mul(d, p))
    decreases if d < 0 then -d else d
  {
    if d == 0 {
      G.Unit(G.Mul(c, p));
    } else if d > 0 {
      CoefficientSum(G, c, d - 1, p);
      G.MulSucc(c + (d - 1), p); G.MulSucc(d - 1, p);
      G.Assoc(G.Mul(c, p), G.Mul(d - 1, p), p);
    } else {
      CoefficientSum(G, c, d + 1, p);
      G.MulPred(c + (d + 1), p); G.MulPred(d + 1, p);
      G.Assoc(G.Mul(c, p), G.Mul(d + 1, p), G.Neg(p));
    }
  }

  lemma {:induction false} CoefficientOut<T(!new)>(R: Ring<T>, c: int, x: T, y: T)
    requires R.Valid()
    ensures R.Mul(R.g.Mul(c, x), y) == R.g.Mul(c, R.Mul(x, y))
    decreases if c < 0 then -c else c
  {
    var G := R.g;
    if c == 0 {
      R.MulZero(y);
    } else if c > 0 {
      CoefficientOut(R, c - 1, x, y);
      G.MulSucc(c - 1, x); G.MulSucc(c - 1, R.Mul(x, y));
      R.Distribute(y, G.Mul(c - 1, x), x);
    } else {
      CoefficientOut(R, c + 1, x, y);
      G.MulPred(c + 1, x); G.MulPred(c + 1, R.Mul(x, y));
      R.DistributeSub(y, G.Mul(c + 1, x), x);
    }
  }

  lemma {:induction false} CoefficientProduct<T(!new)>(G: Group<T>, c: int, d: int, p: T)
    requires G.Valid()
    ensures G.Mul(c * d, p) == G.Mul(c, G.Mul(d, p))
    decreases if c < 0 then -c else c
  {
    if c > 0 {
      CoefficientProduct(G, c - 1, d, p);
      assert c * d == (c - 1) * d + d;
      CoefficientSum(G, (c - 1) * d, d, p);
      G.MulSucc(c - 1, G.Mul(d, p));
    } else if c < 0 {
      CoefficientProduct(G, c + 1, d, p);
      assert (c + 1) * d == c * d + d;
      CoefficientSum(G, c * d, d, p);
      G.MulSucc(c, G.Mul(d, p));
      G.Cancel(G.Mul(c * d, p), G.Mul(c, G.Mul(d, p)), G.Mul(d, p));
    }
  }

  lemma TermProduct<T(!new)>(R: Ring<T>, c: int, x: T, d: int, y: T)
    requires R.Valid()
    ensures R.Mul(R.g.Mul(c, x), R.g.Mul(d, y)) == R.g.Mul(c * d, R.Mul(x, y))
  {
    CoefficientOut(R, c, x, R.g.Mul(d, y));
    R.Comm(x, R.g.Mul(d, y));
    CoefficientOut(R, d, y, x);
    R.Comm(y, x);
    CoefficientProduct(R.g, c, d, R.Mul(x, y));
  }

  // ---------- normalising keeps the value ----------

  lemma {:induction false} InsertSound<T(!new)>(R: Ring<T>, env: seq<T>, c: int, m: nat, p: Poly, d: nat)
    requires R.Valid() && Bounded(|env|, p, d) && DigitSum(|env|, m) <= d
    ensures EvalPoly(R, env, Insert(c, m, p)) == R.Add(R.g.Mul(c, EvalMono(R, env, m)), EvalPoly(R, env, p))
    ensures Bounded(|env|, Insert(c, m, p), d)
    decreases p
  {
    var x := R.g.Mul(c, EvalMono(R, env, m));
    if !p.Nil? {
      var y, rest := R.g.Mul(p.c, EvalMono(R, env, p.m)), EvalPoly(R, env, p.rest);
      if m == p.m {
        CoefficientSum(R.g, c, p.c, EvalMono(R, env, m));
        R.g.Assoc(x, y, rest);
        R.g.Unit(rest);
      } else if m > p.m {
        InsertSound(R, env, c, m, p.rest, d);
        R.g.Swap(x, y, rest);
      }
    }
  }

  lemma {:induction false} SumSound<T(!new)>(R: Ring<T>, env: seq<T>, p: Poly, q: Poly, d: nat)
    requires R.Valid() && Bounded(|env|, p, d) && Bounded(|env|, q, d)
    ensures EvalPoly(R, env, Sum(p, q)) == R.Add(EvalPoly(R, env, p), EvalPoly(R, env, q))
    ensures Bounded(|env|, Sum(p, q), d)
    decreases p
  {
    if p.Nil? {
      R.g.Unit(EvalPoly(R, env, q));
    } else {
      SumSound(R, env, p.rest, q, d);
      InsertSound(R, env, p.c, p.m, Sum(p.rest, q), d);
      R.g.Assoc(R.g.Mul(p.c, EvalMono(R, env, p.m)), EvalPoly(R, env, p.rest), EvalPoly(R, env, q));
    }
  }

  lemma {:induction false} ScaleSound<T(!new)>(R: Ring<T>, env: seq<T>, c: int, m: nat, p: Poly, d1: nat, d2: nat)
    requires R.Valid() && DigitSum(|env|, m) <= d1 && Bounded(|env|, p, d2) && d1 + d2 < 1024
    ensures EvalPoly(R, env, Scale(c, m, p)) == R.Mul(R.g.Mul(c, EvalMono(R, env, m)), EvalPoly(R, env, p))
    ensures Bounded(|env|, Scale(c, m, p), d1 + d2)
    decreases p
  {
    if p.Nil? {
      R.MulZero(R.g.Mul(c, EvalMono(R, env, m)));
    } else {
      ScaleSound(R, env, c, m, p.rest, d1, d2);
      DigitSumAdd(|env|, m, p.m);
      ScaledInsert(R, env, c, m, p.c, p.m, EvalPoly(R, env, p.rest), Scale(c, m, p.rest), d1 + d2);
    }
  }

  /** One more term e * (monomial k), when q is the scaled rest. */
  lemma ScaledInsert<T(!new)>(R: Ring<T>, env: seq<T>, c: int, m: nat, e: int, k: nat, rest: T, q: Poly, d: nat)
    requires R.Valid() && DigitSum(|env|, m) + DigitSum(|env|, k) < 1024
    requires Bounded(|env|, q, d) && DigitSum(|env|, m + k) <= d
    requires EvalPoly(R, env, q) == R.Mul(R.g.Mul(c, EvalMono(R, env, m)), rest)
    ensures EvalPoly(R, env, Insert(c * e, m + k, q)) ==
            R.Mul(R.g.Mul(c, EvalMono(R, env, m)), R.Add(R.g.Mul(e, EvalMono(R, env, k)), rest))
    ensures Bounded(|env|, Insert(c * e, m + k, q), d)
  {
    InsertSound(R, env, c * e, m + k, q, d);
    ScaledTerm(R, env, c, m, e, k);
    R.Distribute(R.g.Mul(c, EvalMono(R, env, m)), R.g.Mul(e, EvalMono(R, env, k)), rest);
  }

  lemma ScaledTerm<T(!new)>(R: Ring<T>, env: seq<T>, c: int, m: nat, e: int, k: nat)
    requires R.Valid() && DigitSum(|env|, m) + DigitSum(|env|, k) < 1024
    ensures R.Mul(R.g.Mul(c, EvalMono(R, env, m)), R.g.Mul(e, EvalMono(R, env, k))) ==
            R.g.Mul(c * e, EvalMono(R, env, m + k))
  {
    MonoProduct(R, env, m, k);
    TermProduct(R, c, EvalMono(R, env, m), e, EvalMono(R, env, k));
  }

  lemma {:induction false} ProductSound<T(!new)>(R: Ring<T>, env: seq<T>, p: Poly, q: Poly, d1: nat, d2: nat)
    requires R.Valid() && Bounded(|env|, p, d1) && Bounded(|env|, q, d2) && d1 + d2 < 1024
    ensures EvalPoly(R, env, Product(p, q)) == R.Mul(EvalPoly(R, env, p), EvalPoly(R, env, q))
    ensures Bounded(|env|, Product(p, q), d1 + d2)
    decreases p
  {
    if p.Nil? {
      R.MulZero(EvalPoly(R, env, q));
    } else {
      ProductSound(R, env, p.rest, q, d1, d2);
      ScaleSound(R, env, p.c, p.m, q, d1, d2);
      SumSound(R, env, Scale(p.c, p.m, q), Product(p.rest, q), d1 + d2);
      R.Distribute(EvalPoly(R, env, q), R.g.Mul(p.c, EvalMono(R, env, p.m)), EvalPoly(R, env, p.rest));
    }
  }

  lemma {:induction false} BoundedMore(n: nat, p: Poly, d1: nat, d2: nat)
    requires Bounded(n, p, d1) && d1 <= d2
    ensures Bounded(n, p, d2)
    decreases p
  {
    if !p.Nil? { BoundedMore(n, p.rest, d1, d2); }
  }

  lemma SingleTerm<T(!new)>(R: Ring<T>, env: seq<T>, m: nat)
    requires R.Valid()
    ensures EvalPoly(R, env, Term(1, m, Nil)) == EvalMono(R, env, m)
  {
    R.g.TimesOne(EvalMono(R, env, m));
    R.g.Unit(EvalMono(R, env, m));
    assert EvalPoly(R, env, Nil) == R.Zero();
  }

  lemma MinusOne<T(!new)>(R: Ring<T>, env: seq<T>, x: T)
    requires R.Valid()
    ensures R.Mul(R.g.Mul(-1, EvalMono(R, env, 0)), x) == R.Neg(x)
  {
    MonoZero(R, env);
    R.g.TimesOne(R.one);
    R.MulNeg(R.one, x); R.Unit(x);
  }

  lemma DifferenceSound<T(!new)>(R: Ring<T>, env: seq<T>, p: Poly, q: Poly, d: nat)
    requires R.Valid() && Bounded(|env|, p, d) && Bounded(|env|, q, d) && d < 1024
    ensures EvalPoly(R, env, Sum(p, Scale(-1, 0, q))) == R.Sub(EvalPoly(R, env, p), EvalPoly(R, env, q))
    ensures Bounded(|env|, Sum(p, Scale(-1, 0, q)), d)
  {
    MonoZero(R, env);
    ScaleSound(R, env, -1, 0, q, 0, d);
    MinusOne(R, env, EvalPoly(R, env, q));
    SumSound(R, env, p, Scale(-1, 0, q), d);
  }

  /** The degree of an expression d deep is at most 2^d. */
  lemma {:induction false} NormSound<T(!new)>(R: Ring<T>, env: seq<T>, e: Expr, d: nat)
    requires R.Valid() && Fits(e, |env|, d) && Exp2(d) < 1024
    ensures EvalPoly(R, env, Norm(e)) == Eval(R, env, e) && Bounded(|env|, Norm(e), Exp2(d))
    decreases e
  {
    var n := |env|;
    match e
    case One =>
      MonoZero(R, env); SingleTerm(R, env, 0);
    case V(i) =>
      MonoVar(R, env, i); SingleTerm(R, env, VarCode(i));
    case Plus(a, b) =>
      NormSound(R, env, a, d - 1); NormSound(R, env, b, d - 1);
      BoundedMore(n, Norm(a), Exp2(d - 1), Exp2(d)); BoundedMore(n, Norm(b), Exp2(d - 1), Exp2(d));
      SumSound(R, env, Norm(a), Norm(b), Exp2(d));
    case Minus(a, b) =>
      NormSound(R, env, a, d - 1); NormSound(R, env, b, d - 1);
      BoundedMore(n, Norm(a), Exp2(d - 1), Exp2(d)); BoundedMore(n, Norm(b), Exp2(d - 1), Exp2(d));
      DifferenceSound(R, env, Norm(a), Norm(b), Exp2(d));
    case Times(a, b) =>
      NormSound(R, env, a, d - 1); NormSound(R, env, b, d - 1);
      ProductSound(R, env, Norm(a), Norm(b), Exp2(d - 1), Exp2(d - 1));
  }

  /** Both expressions are in n variables, at most nine deep, and have one normal form. */
  predicate SameNorm(n: nat, a: Expr, b: Expr) { Fits(a, n, 9) && Fits(b, n, 9) && Norm(a) == Norm(b) }

  /** Expressions with one normal form have one value. */
  lemma Identity<T(!new)>(R: Ring<T>, env: seq<T>, n: nat, a: Expr, b: Expr)
    requires R.Valid() && |env| == n && SameNorm(n, a, b)
    ensures Eval(R, env, a) == Eval(R, env, b)
  {
    assert Exp2(9) == 512;
    NormSound(R, env, a, 9);
    NormSound(R, env, b, 9);
  }
}
