/** Montgomery arithmetic on four limbs, for any modulus that leaves the two top bits of the fourth
    limb free. */
module Montgomery {
  import opened Limbs
  import opened Modular

  /** x * y / R modulo q, for an inverse rInv of R. */
  function MontMul(q: nat, rInv: nat, x: int, y: int): (r: nat)
    requires q > 0
    ensures r < q
  {
    x * y * rInv % q
  }

  /** np is the negated inverse of q modulo 2^64: np * low times q clears the limb low. */
  ghost predicate ClearLaw(q: nat, np: nat, low: nat) { (low + q * (np * low)) % BASE == 0 }

  /** rInv is an inverse of p modulo q; p is R = 2^256 in every use, but nothing here depends on it. */
  ghost predicate UnitLaw(q: nat, p: nat, rInv: nat, x: int)
    requires q > 0
  {
    x * (p * rInv) % q == x % q
  }

  ghost predicate Unit(q: nat, p: nat, rInv: nat) { q > 1 && forall x: int :: UnitLaw(q, p, rInv, x) }

  /** What the code relies on about the modulus. */
  ghost predicate Modulus(q: nat, np: limb, p: nat, rInv: nat) {
    1 < q && Place(4) <= q * BASE && 4 * q <= Place(4) && (forall low: nat :: ClearLaw(q, np, low)) && Unit(q, p, rInv)
  }

  /** Multiplying by r2 / p is multiplying by p. */
  ghost predicate SquareLaw(q: nat, p: nat, rInv: nat, r2: nat, x: int)
    requires q > 0
  {
    MontMul(q, rInv, x, r2) == x * p % q
  }

  /** Multiplying by r3 / p is multiplying by r2. */
  ghost predicate CubeLaw(q: nat, rInv: nat, r2: nat, r3: nat, x: int)
    requires q > 0
  {
    MontMul(q, rInv, x, r3) == x * r2 % q
  }

  /** r2 and r3 act as the square and the cube of p modulo q. */
  ghost predicate Powers(q: nat, p: nat, rInv: nat, r2: nat, r3: nat)
    requires q > 0
  {
    r2 < q && r3 < q && (forall x: int :: SquareLaw(q, p, rInv, r2, x)) &&
      (forall x: int :: CubeLaw(q, rInv, r2, r3, x))
  }

  // ---------- the laws from the constants ----------

  lemma ClearFrom(q: nat, np: nat)
    requires (q * np + 1) % BASE == 0
    ensures forall low: nat :: ClearLaw(q, np, low)
  {
    forall low: nat
      ensures ClearLaw(q, np, low)
    {
      Factor(q, np, low);
      ModMul(q * np + 1, 0, low, low, BASE);
    }
  }

  lemma UnitFrom(q: nat, p: nat, rInv: nat)
    requires q > 1 && (p * rInv) % q == 1
    ensures Unit(q, p, rInv)
  {
    forall x: int
      ensures UnitLaw(q, p, rInv, x)
    {
      ModSmall(1, q);
      ModMulOne(p * rInv, 1, x, q);
    }
  }

  lemma PowersFrom(q: nat, p: nat, rInv: nat, r2: nat, r3: nat)
    requires q > 1 && r2 < q && r3 < q && r2 * rInv % q == p % q && r3 * rInv % q == r2
    ensures Powers(q, p, rInv, r2, r3)
  {
    forall x: int
      ensures SquareLaw(q, p, rInv, r2, x)
    {
      Rebracket(x, r2, rInv);
      ModMulOne(r2 * rInv, p, x, q);
    }
    forall x: int
      ensures CubeLaw(q, rInv, r2, r3, x)
    {
      Rebracket(x, r3, rInv);
      ModSmall(r2, q);
      ModMulOne(r3 * rInv, r2, x, q);
    }
  }

  // ---------- bounds ----------

  /** The numbers a reduction step may start from. */
  predicate Small(q: nat, v: nat) { v < q * BASE + q }

  lemma SmallFits(q: nat, v: nat, n: limb)
    requires 4 * q <= Place(4) && Small(q, v)
    ensures v + q * n < Place(5) && v + q * n < BASE * (2 * q) && v < Place(5)
  {
    LimbMono(n, BASE - 1, q);
    assert Place(5) == BASE * Place(4);
  }

  lemma RowIsSmall(q: nat, b: nat, x: limb, t: nat)
    requires b < q && t < 2 * q
    ensures Small(q, b * x + t) && Small(q, b * x)
  {
    LimbMono(b, q - 1, x);
    LimbMono(x, BASE - 1, q - 1);
    assert (q - 1) * (BASE - 1) == q * BASE - q - BASE + 1;
  }

  lemma NoCarry(n: nat, v: nat, carry: nat, w: nat)
    requires v + Place(n) * carry == w && w < Place(n)
    ensures carry == 0 && v == w
  {
    if carry > 0 { LimbMono(1, carry, Place(n)); }
  }

  /** The multiple of q that a step adds clears the low limb. */
  lemma LowLimbClears(q: nat, np: limb, v: nat, low: nat, rest: nat, n: nat) returns (k: int)
    requires ClearLaw(q, np, low) && v == low + BASE * rest && n == np * low % BASE
    ensures v + q * n == BASE * k
  {
    ModDiff(v, low, BASE, rest);
    ModMod(np * low, BASE);
    ModMul(q, q, n, np * low, BASE);
    ModAdd(v, low, q * n, q * (np * low), BASE);
    k := (v + q * n) / BASE;
  }

  lemma Factor(q: nat, np: nat, low: nat)
    ensures low + q * (np * low) == (q * np + 1) * low
  {
    assert q * (np * low) == q * np * low;
  }

  // ---------- collecting the steps ----------

  /** p * t is b * v and a multiple of q; one more row gives the same one place up. */
  lemma OneMore(q: nat, b: nat, p: nat, v: nat, t: nat, n: nat, a: nat, u: nat, m: nat)
    requires p * t == b * v + q * n && BASE * u == b * a + t + q * m
    ensures (BASE * p) * u == b * (v + p * a) + q * (n + p * m)
  {
    assert (BASE * p) * u == p * (BASE * u) by { Turn(p, u); }
    assert p * (b * a + t + q * m) == p * (b * a) + p * t + p * (q * m);
    Turn3(p, b, a); Turn3(p, q, m);
    assert b * (v + p * a) == b * v + b * (p * a);
    assert q * (n + p * m) == q * n + q * (p * m);
  }

  lemma Turn(p: nat, u: nat)
    ensures (BASE * p) * u == p * (BASE * u)
  {
  }

  lemma Turn3(p: nat, b: nat, a: nat)
    ensures p * (b * a) == b * (p * a)
  {
    assert p * (b * a) == p * b * a && b * (p * a) == b * p * a;
  }

  /** Dividing by R modulo q, once the result has been brought below q. */
  lemma Divided(q: nat, p: nat, rInv: nat, x: nat, n: nat, t: nat, r: nat)
    requires Unit(q, p, rInv) && p * t == x + q * n
    requires r < q && (r == t || r + q == t)
    ensures r == x * rInv % q
  {
    ModSmall(r, q);
    if r + q == t { ModDiff(t, r, q, 1); }
    assert UnitLaw(q, p, rInv, t);
    DividedSum(q, p, rInv, x, n, t);
  }

  lemma DividedSum(q: nat, p: nat, rInv: nat, x: nat, n: nat, t: nat)
    requires q > 0 && p * t == x + q * n
    ensures t * (p * rInv) % q == x * rInv % q
  {
    Regroup(t, p, rInv, x + q * n);
    Expand(x, q, n, rInv);
    ModShift(x * rInv, q, n * rInv);
  }

  lemma Regroup(t: nat, p: nat, i: nat, w: nat)
    requires p * t == w
    ensures t * (p * i) == w * i
  {
    assert t * (p * i) == t * p * i;
  }

  /** The inverse of the limbs of an element, times r3 / R, is the Montgomery inverse of the element. */
  lemma InverseThroughR3(q: nat, p: nat, rInv: nat, a: int, i: int, r2: nat, r3: nat)
    requires q > 1 && Powers(q, p, rInv, r2, r3) && a * i % q == 1
    ensures MontMul(q, rInv, a, MontMul(q, rInv, i, r3)) == p % q
  {
    var y := i * r2;
    assert CubeLaw(q, rInv, r2, r3, i);
    ModMod(y, q);
    ModMulOne(y % q, y, a, q);
    ModMulOne(a * (y % q), a * y, rInv, q);
    Rebracket(a, i, r2);
    assert SquareLaw(q, p, rInv, r2, a * i);
    ModSmall(1, q);
    ModMulOne(a * i, 1, p, q);
  }
}
