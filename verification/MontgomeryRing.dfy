/** The numbers below the modulus with Montgomery multiplication form a commutative ring, so everything
    proved for an arbitrary ring holds of the limb arithmetic; reading a number x as x / R is an
    isomorphism onto the integers modulo q. */
module MontgomeryRing {
  import opened Algebra
  import opened Limbs
  import opened Modular
  import opened Montgomery
  import opened RawField

  /** The number an element stands for. */
  function Decode(q: nat, rInv: nat, x: int): (r: nat)
    requires q > 0
    ensures r < q
  {
    x * rInv % q
  }

  /** The element that stands for a number, for a radix p. */
  function Encode(q: nat, p: nat, v: int): (r: nat)
    requires q > 0
    ensures r < q
  {
    v * p % q
  }

  lemma DecodeEncode(q: nat, p: nat, rInv: nat, v: int)
    requires Unit(q, p, rInv)
    ensures Decode(q, rInv, Encode(q, p, v)) == v % q
  {
    ModMod(v * p, q);
    ModMulOne(Encode(q, p, v), v * p, rInv, q);
    Rebracket(v, p, rInv);
    assert UnitLaw(q, p, rInv, v);
  }

  lemma EncodeDecode(q: nat, p: nat, rInv: nat, x: int)
    requires Unit(q, p, rInv)
    ensures Encode(q, p, Decode(q, rInv, x)) == x % q
  {
    ModMod(x * rInv, q);
    ModMulOne(Decode(q, rInv, x), x * rInv, p, q);
    Rebracket(x, rInv, p);
    assert rInv * p == p * rInv;
    assert UnitLaw(q, p, rInv, x);
  }

  lemma DecodeMul(q: nat, rInv: nat, x: int, y: int)
    requires q > 0
    ensures Decode(q, rInv, MontMul(q, rInv, x, y)) == Decode(q, rInv, x) * Decode(q, rInv, y) % q
  {
    ModMod(x * y * rInv, q);
    ModMulOne(MontMul(q, rInv, x, y), x * y * rInv, rInv, q);
    ModMod(x * rInv, q); ModMod(y * rInv, q);
    ModMul(Decode(q, rInv, x), x * rInv, Decode(q, rInv, y), y * rInv, q);
    Pair(x, y, rInv);
  }

  lemma Pair(x: int, y: int, i: int)
    ensures x * y * i * i == (x * i) * (y * i)
  {
    Rebracket(x * y, i, i);
    assert (x * i) * (y * i) == x * (i * (y * i)) by { Rebracket(x, i, y * i); }
    assert i * (y * i) == y * (i * i) by { Rebracket(y, i, i); }
    Rebracket(x, y, i * i);
  }

  lemma DecodeAdd(q: nat, rInv: nat, x: int, y: int)
    requires q > 0
    ensures Decode(q, rInv, (x + y) % q) == (Decode(q, rInv, x) + Decode(q, rInv, y)) % q
  {
    ModMod(x + y, q);
    ModMulOne((x + y) % q, x + y, rInv, q);
    assert (x + y) * rInv == x * rInv + y * rInv;
    ModMod(x * rInv, q); ModMod(y * rInv, q);
    ModAdd(Decode(q, rInv, x), x * rInv, Decode(q, rInv, y), y * rInv, q);
  }

  /** Reading x as x / R is an isomorphism onto the integers modulo q: it respects sums, products and the
      one, every number below q is read from exactly the element that encodes it, and different elements
      are read differently. */
  lemma DecodeIsomorphism(q: nat, p: nat, rInv: nat, x: nat, y: nat)
    requires Unit(q, p, rInv) && x < q && y < q
    ensures Decode(q, rInv, (x + y) % q) == (Decode(q, rInv, x) + Decode(q, rInv, y)) % q
    ensures Decode(q, rInv, MontMul(q, rInv, x, y)) == Decode(q, rInv, x) * Decode(q, rInv, y) % q
    ensures Decode(q, rInv, p % q) == 1
    ensures Decode(q, rInv, Encode(q, p, x)) == x && Encode(q, p, Decode(q, rInv, x)) == x
    ensures Decode(q, rInv, x) == Decode(q, rInv, y) ==> x == y
  {
    DecodeAdd(q, rInv, x, y);
    DecodeMul(q, rInv, x, y);
    DecodeEncode(q, p, rInv, 1);
    DecodeEncode(q, p, rInv, x);
    EncodeDecode(q, p, rInv, x); EncodeDecode(q, p, rInv, y);
    ModSmall(x, q); ModSmall(y, q); ModSmall(1, q);
  }

  // ---------- encoded numbers ----------

  lemma EncodeCongruent(q: nat, p: nat, x: int, y: int)
    requires q > 0 && x % q == y % q
    ensures Encode(q, p, x) == Encode(q, p, y)
  {
    ModMulOne(x, y, p, q);
  }

  lemma EncodeInjective(q: nat, p: nat, rInv: nat, x: int, y: int)
    requires Unit(q, p, rInv) && Encode(q, p, x) == Encode(q, p, y)
    ensures x % q == y % q
  {
    DecodeEncode(q, p, rInv, x); DecodeEncode(q, p, rInv, y);
  }

  lemma EncodeSum(q: nat, p: nat, x: int, y: int)
    requires q > 0
    ensures (Encode(q, p, x) + Encode(q, p, y)) % q == Encode(q, p, x + y)
    ensures (Encode(q, p, x) - Encode(q, p, y)) % q == Encode(q, p, x - y)
  {
    ModMod(x * p, q); ModMod(y * p, q);
    ModAdd(Encode(q, p, x), x * p, Encode(q, p, y), y * p, q);
    ModSub(Encode(q, p, x), x * p, Encode(q, p, y), y * p, q);
    assert x * p + y * p == (x + y) * p && x * p - y * p == (x - y) * p;
  }

  /** An encoded factor and a plain one give the plain product. */
  lemma MixedProduct(q: nat, p: nat, rInv: nat, x: int, y: int)
    requires Unit(q, p, rInv)
    ensures MontMul(q, rInv, Encode(q, p, x), y) == x * y % q
    ensures MontMul(q, rInv, y, Encode(q, p, x)) == x * y % q
  {
    MixedRegroup(q, p, rInv, x, y);
    assert UnitLaw(q, p, rInv, x * y);
    assert y * Encode(q, p, x) == Encode(q, p, x) * y;
  }

  lemma MixedRegroup(q: nat, p: nat, rInv: nat, x: int, y: int)
    requires q > 0
    ensures (x * p % q) * y * rInv % q == x * y * (p * rInv) % q
  {
    ModMod(x * p, q);
    ModMulOne(x * p % q, x * p, y, q);
    ModMulOne((x * p % q) * y, x * p * y, rInv, q);
    assert x * p * y * rInv == x * y * (p * rInv) by {
      assert x * p * y == x * y * p by { Rebracket(x, p, y); Rebracket(x, y, p); assert p * y == y * p; }
      Rebracket(x * y, p, rInv);
    }
  }

  /** Two encoded factors give the encoded product. */
  lemma EncodedProduct(q: nat, p: nat, rInv: nat, x: int, y: int, a: nat, b: nat)
    requires Unit(q, p, rInv) && a == Encode(q, p, x) && b == Encode(q, p, y)
    ensures MontMul(q, rInv, a, b) == Encode(q, p, x * y)
  {
    MixedProduct(q, p, rInv, x, b);
    ModMod(y * p, q);
    ModMulOne(b, y * p, x, q);
    Rebracket(x, y, p);
  }

  /** Plain factors, and r3 to repair the product. */
  lemma RepairedProduct(q: nat, p: nat, rInv: nat, x: int, r2: nat, r3: nat)
    requires q > 0 && Powers(q, p, rInv, r2, r3)
    ensures MontMul(q, rInv, x * rInv % q, r3) == Encode(q, p, x)
  {
    var y := x * rInv % q;
    assert CubeLaw(q, rInv, r2, r3, y);
    ModMod(x * rInv, q);
    ModMulOne(y, x * rInv, r2, q);
    assert x * rInv * r2 == x * r2 * rInv by {
      Rebracket(x, rInv, r2); Rebracket(x, r2, rInv);
      assert rInv * r2 == r2 * rInv;
    }
    assert SquareLaw(q, p, rInv, r2, x);
  }

  // ---------- the ring laws ----------

  lemma SumAssoc(q: nat, a: int, b: int, c: int)
    requires q > 0
    ensures ((a + b) % q + c) % q == (a + (b + c) % q) % q
  {
    ModMod(a + b, q); ModMod(b + c, q);
    ModAdd((a + b) % q, a + b, c, c, q);
    ModAdd(a, a, (b + c) % q, b + c, q);
  }

  lemma SumInverse(q: nat, a: int)
    requires q > 0
    ensures (a + (0 - a) % q) % q == 0
  {
    ModMod(0 - a, q);
    ModAdd(a, a, (0 - a) % q, 0 - a, q);
    ModSmall(0, q);
  }

  lemma ProductCommutes(q: nat, rInv: nat, a: nat, b: nat)
    requires q > 0
    ensures MontMul(q, rInv, a, b) == MontMul(q, rInv, b, a)
  {
    assert (a as int) * b == (b as int) * a;
  }

  lemma ProductAssoc(q: nat, rInv: nat, a: nat, b: nat, c: nat)
    requires q > 0
    ensures MontMul(q, rInv, MontMul(q, rInv, a, b), c) == MontMul(q, rInv, a, MontMul(q, rInv, b, c))
  {
    var x, y := MontMul(q, rInv, a, b), MontMul(q, rInv, b, c);
    ModMod(a * b * rInv, q); ModMod(b * c * rInv, q);
    ModMulOne(x, a * b * rInv, c, q); ModMulOne(x * c, a * b * rInv * c, rInv, q);
    ModMulOne(y, b * c * rInv, a, q); ModMulOne(a * y, a * (b * c * rInv), rInv, q);
    assert a * b * rInv * c == a * (b * c * rInv) by {
      Rebracket(a, b, rInv); Rebracket(a, b * rInv, c);
      assert b * rInv * c == b * c * rInv by { Rebracket(b, rInv, c); Rebracket(b, c, rInv); }
    }
  }

  lemma ProductUnit(q: nat, p: nat, rInv: nat, a: nat)
    requires Unit(q, p, rInv) && a < q
    ensures MontMul(q, rInv, a, p % q) == a
  {
    ModMod(p, q);
    ModMulOne(p % q, p, a, q);
    ModMulOne(a * (p % q), a * p, rInv, q);
    Rebracket(a, p, rInv);
    assert UnitLaw(q, p, rInv, a);
    ModSmall(a, q);
  }

  lemma ProductDistributes(q: nat, rInv: nat, a: nat, b: nat, c: nat)
    requires q > 0
    ensures MontMul(q, rInv, a, (b + c) % q) == (MontMul(q, rInv, a, b) + MontMul(q, rInv, a, c)) % q
  {
    ModMod(b + c, q);
    ModMulOne((b + c) % q, b + c, a, q);
    ModMulOne(a * ((b + c) % q), a * (b + c), rInv, q);
    assert a * (b + c) * rInv == a * b * rInv + a * c * rInv by { Spread(a, b, c, rInv); }
    ModMod(a * b * rInv, q); ModMod(a * c * rInv, q);
    ModAdd(MontMul(q, rInv, a, b), a * b * rInv, MontMul(q, rInv, a, c), a * c * rInv, q);
  }

  lemma Spread(a: int, b: int, c: int, i: int)
    ensures a * (b + c) * i == a * b * i + a * c * i
  {
    assert a * (b + c) == a * b + a * c;
  }

  // ---------- from numbers to ring elements ----------

  /** The operations of R on a and b, read through num, are those on numbers below q. */
  ghost predicate Acts<T(!new)>(R: Ring<T>, num: T -> nat, q: nat, rInv: nat, a: T, b: T)
    requires q > 0
  {
    && num(a) < q
    && (num(a) == num(b) ==> a == b)
    && num(R.g.Add(a, b)) == (num(a) + num(b)) % q
    && num(R.g.Neg(a)) == (0 - num(a)) % q
    && num(R.Mul(a, b)) == MontMul(q, rInv, num(a), num(b))
  }

  ghost predicate Residues<T(!new)>(R: Ring<T>, num: T -> nat, q: nat, p: nat, rInv: nat) {
    && Unit(q, p, rInv) && num(R.g.zero) == 0 && num(R.one) == p % q
    && forall a, b :: Acts(R, num, q, rInv, a, b)
  }

  lemma ResiduesAreAGroup<T(!new)>(R: Ring<T>, num: T -> nat, q: nat, p: nat, rInv: nat)
    requires Residues(R, num, q, p, rInv)
    ensures R.g.Valid()
  {
    var G := R.g;
    forall a, b
      ensures G.CommLaw(a, b)
    {
      assert Acts(R, num, q, rInv, a, b) && Acts(R, num, q, rInv, b, a);
      assert Acts(R, num, q, rInv, G.Add(a, b), G.Add(b, a));
    }
    forall a, b, c
      ensures G.AssocLaw(a, b, c)
    {
      SumAssoc(q, num(a), num(b), num(c));
      assert Acts(R, num, q, rInv, a, b) && Acts(R, num, q, rInv, b, c);
      assert Acts(R, num, q, rInv, G.Add(a, b), c) && Acts(R, num, q, rInv, a, G.Add(b, c));
      assert Acts(R, num, q, rInv, G.Add(G.Add(a, b), c), G.Add(a, G.Add(b, c)));
    }
    forall a
      ensures G.UnitLaw(a) && G.InverseLaw(a)
    {
      assert Acts(R, num, q, rInv, a, G.zero) && Acts(R, num, q, rInv, a, G.Neg(a));
      ModSmall(num(a), q);
      SumInverse(q, num(a));
      assert Acts(R, num, q, rInv, G.Add(a, G.zero), a) && Acts(R, num, q, rInv, G.Add(a, G.Neg(a)), G.zero);
    }
  }

  /** Residues with Montgomery multiplication are a commutative ring. */
  lemma ResiduesAreARing<T(!new)>(R: Ring<T>, num: T -> nat, q: nat, p: nat, rInv: nat)
    requires Residues(R, num, q, p, rInv)
    ensures R.Valid()
  {
    ResiduesAreAGroup(R, num, q, p, rInv);
    forall a, b
      ensures R.CommLaw(a, b)
    {
      ProductCommutes(q, rInv, num(a), num(b));
      assert Acts(R, num, q, rInv, a, b) && Acts(R, num, q, rInv, b, a);
      assert Acts(R, num, q, rInv, R.Mul(a, b), R.Mul(b, a));
    }
    forall a, b, c
      ensures R.AssocLaw(a, b, c)
    {
      ProductAssoc(q, rInv, num(a), num(b), num(c));
      assert Acts(R, num, q, rInv, a, b) && Acts(R, num, q, rInv, b, c);
      assert Acts(R, num, q, rInv, R.Mul(a, b), c) && Acts(R, num, q, rInv, a, R.Mul(b, c));
      assert Acts(R, num, q, rInv, R.Mul(R.Mul(a, b), c), R.Mul(a, R.Mul(b, c)));
    }
    forall a
      ensures R.UnitLaw(a)
    {
      assert Acts(R, num, q, rInv, a, R.one);
      ProductUnit(q, p, rInv, num(a));
      assert Acts(R, num, q, rInv, R.Mul(a, R.one), a);
    }
    forall a, b, c
      ensures R.DistributeLaw(a, b, c)
    {
      ProductDistributes(q, rInv, num(a), num(b), num(c));
      var u, v := R.Mul(a, b), R.Mul(a, c);
      assert Acts(R, num, q, rInv, a, b) && Acts(R, num, q, rInv, a, c) && Acts(R, num, q, rInv, b, c);
      assert Acts(R, num, q, rInv, u, v) && Acts(R, num, q, rInv, a, R.g.Add(b, c));
      assert Acts(R, num, q, rInv, R.Mul(a, R.g.Add(b, c)), R.g.Add(u, v));
    }
  }

  // ---------- the two fields ----------

  type BaseElement = x: nat | x < BASE_MODULUS

  function BaseAdd(a: BaseElement, b: BaseElement): BaseElement { (a as int + b as int) % BASE_MODULUS }
  function BaseNeg(a: BaseElement): BaseElement { (0 - a as int) % BASE_MODULUS }
  function BaseMul(a: BaseElement, b: BaseElement): BaseElement { MontMul(BASE_MODULUS, BASE_R_INVERSE, a, b) }

  /** The elements of the base field, with R as the one. */
  function BaseRing(): (R: Ring<BaseElement>)
    ensures R.Valid()
  {
    var G := Group<BaseElement>.Group(0, BaseAdd, BaseNeg);
    var R := Ring<BaseElement>.Ring(G, Place(4) % BASE_MODULUS, BaseMul);
    assert R.Valid() by {
      BaseModulus();
      ResiduesAreARing(R, (x: BaseElement) => x as nat, BASE_MODULUS, Place(4), BASE_R_INVERSE);
    }
    R
  }

  /** What an element of the base field stands for. */
  function BaseValue(a: BaseElement): nat { Decode(BASE_MODULUS, BASE_R_INVERSE, a) }

  /** The ring is that of the numbers modulo q: sums, products and the one are those of the values, and
      different elements have different values. */
  lemma BaseRingIsNumbers(a: BaseElement, b: BaseElement)
    ensures BaseValue(BaseRing().Add(a, b)) == (BaseValue(a) + BaseValue(b)) % BASE_MODULUS
    ensures BaseValue(BaseRing().Mul(a, b)) == BaseValue(a) * BaseValue(b) % BASE_MODULUS
    ensures BaseValue(BaseRing().one) == 1
    ensures BaseValue(a) == BaseValue(b) ==> a == b
  {
    BaseModulus();
    DecodeIsomorphism(BASE_MODULUS, Place(4), BASE_R_INVERSE, a, b);
  }

  type ScalarElement = x: nat | x < SCALAR_MODULUS

  function ScalarAdd(a: ScalarElement, b: ScalarElement): ScalarElement { (a as int + b as int) % SCALAR_MODULUS }
  function ScalarNeg(a: ScalarElement): ScalarElement { (0 - a as int) % SCALAR_MODULUS }
  function ScalarMul(a: ScalarElement, b: ScalarElement): ScalarElement {
    MontMul(SCALAR_MODULUS, SCALAR_R_INVERSE, a, b)
  }

  /** The elements of the scalar field, with R as the one. */
  function ScalarRing(): (R: Ring<ScalarElement>)
    ensures R.Valid()
  {
    var G := Group<ScalarElement>.Group(0, ScalarAdd, ScalarNeg);
    var R := Ring<ScalarElement>.Ring(G, Place(4) % SCALAR_MODULUS, ScalarMul);
    assert R.Valid() by {
      ScalarModulus();
      ResiduesAreARing(R, (x: ScalarElement) => x as nat, SCALAR_MODULUS, Place(4), SCALAR_R_INVERSE);
    }
    R
  }

  /** What an element of the scalar field stands for. */
  function ScalarValue(a: ScalarElement): nat { Decode(SCALAR_MODULUS, SCALAR_R_INVERSE, a) }

  /** The ring is that of the numbers modulo q: sums, products and the one are those of the values, and
      different elements have different values. */
  lemma ScalarRingIsNumbers(a: ScalarElement, b: ScalarElement)
    ensures ScalarValue(ScalarRing().Add(a, b)) == (ScalarValue(a) + ScalarValue(b)) % SCALAR_MODULUS
    ensures ScalarValue(ScalarRing().Mul(a, b)) == ScalarValue(a) * ScalarValue(b) % SCALAR_MODULUS
    ensures ScalarValue(ScalarRing().one) == 1
    ensures ScalarValue(a) == ScalarValue(b) ==> a == b
  {
    ScalarModulus();
    DecodeIsomorphism(SCALAR_MODULUS, Place(4), SCALAR_R_INVERSE, a, b);
  }
}
