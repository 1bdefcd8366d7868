/** Field elements in four representations: a 32-bit integer, the same with its Montgomery limbs, plain
    limbs and Montgomery limbs. */
module FieldElement {
  import opened Limbs
  import opened Modular
  import opened Montgomery
  import opened MontgomeryRing
  import opened RawField

  type int32 = x: int | -0x8000_0000 <= x < 0x8000_0000

  datatype Tag = Short | ShortMontgomery | Long | LongMontgomery
  {
    predicate IsLong() { Long? || LongMontgomery? }
    predicate IsMontgomery() { ShortMontgomery? || LongMontgomery? }
  }

  class Element {
    var shortVal: int32
    var tag: Tag
    const longVal: array<limb>

    /** An element with nothing promised about its fields. */
    constructor ()
      ensures fresh(longVal) && longVal.Length == 4
    {
      longVal := new limb[4];
    }
  }

  ghost predicate Valid(F: Raw, e: Element)
    reads e, e.longVal, F.q, F.R2, F.R3, F.half
  {
    && F.Valid() && F.Free(e.longVal)
    && match e.tag
       case Short => true
       case ShortMontgomery => Number(e.longVal) == Encode(F.Q, F.R, e.shortVal)
       case Long => Number(e.longVal) < F.Q
       case LongMontgomery => Number(e.longVal) < F.Q
  }

  /** The number modulo q that an element stands for. */
  ghost function Value(F: Raw, e: Element): (v: nat)
    requires Valid(F, e)
    reads e, e.longVal, F.q, F.R2, F.R3, F.half
    ensures v < F.Q
  {
    match e.tag
    case Short => e.shortVal % F.Q
    case ShortMontgomery => e.shortVal % F.Q
    case Long => Number(e.longVal)
    case LongMontgomery => Decode(F.Q, F.rInv, Number(e.longVal))
  }

  ghost predicate Apart(r: Element, a: Element) { r != a && r.longVal != a.longVal }

  /** A destination for operand a: another element, or a itself. */
  ghost predicate Writable(F: Raw, r: Element, a: Element) { F.Free(r.longVal) && (r == a || Apart(r, a)) }

  lemma MontgomeryForm(F: Raw, e: Element)
    requires Valid(F, e) && e.tag.IsMontgomery()
    ensures Number(e.longVal) == Encode(F.Q, F.R, Value(F, e))
  {
    if e.tag.LongMontgomery? {
      EncodeDecode(F.Q, F.R, F.rInv, Number(e.longVal));
      ModSmall(Number(e.longVal), F.Q);
    } else {
      ModMod(e.shortVal, F.Q);
      EncodeCongruent(F.Q, F.R, e.shortVal, Value(F, e));
    }
  }

  /** Limbs that encode v make a valid element of value v. */
  lemma Encoded(F: Raw, e: Element, v: int)
    requires F.Valid() && F.Free(e.longVal) && e.tag == LongMontgomery && Number(e.longVal) == Encode(F.Q, F.R, v)
    ensures Valid(F, e) && Value(F, e) == v % F.Q
  {
    DecodeEncode(F.Q, F.R, F.rInv, v);
  }

  // ---------- conversions ----------

  method Copy(r: Element, a: Element)
    requires r.longVal.Length == a.longVal.Length == 4
    modifies r, r.longVal
    ensures r.tag == old(a.tag) && r.shortVal == old(a.shortVal) && r.longVal[..4] == old(a.longVal[..4])
  {
    r.shortVal, r.tag := a.shortVal, a.tag;
    CopyFrom(r.longVal, a.longVal, 0, 4);
    assert old(a.longVal[0..4]) == old(a.longVal[..4]);
  }

  lemma SmallShorts(F: Raw, x: int)
    requires F.Valid() && -0x1_0000_0000 < x < 0x1_0000_0000 && x % F.Q == 0
    ensures x == 0
  {
    F.LimbBelow(if x < 0 then 0 - x else x);
    if x > 0 { ModSmall(x, F.Q); }
    if x < 0 { ModIs(x, F.Q, -1, x + F.Q); }
  }

  /** A short Montgomery element with the limbs of s is valid exactly when its short value is s. */
  lemma ShortMontgomeryValid(F: Raw, r: Element, s: int32)
    requires F.Valid() && F.Free(r.longVal) && r.tag == ShortMontgomery && Number(r.longVal) == Encode(F.Q, F.R, s)
    ensures Valid(F, r) <==> r.shortVal == s
  {
    if Valid(F, r) {
      EncodeInjective(F.Q, F.R, F.rInv, r.shortVal, s);
      var k := ModQuotient(r.shortVal, s, F.Q);
      var d: int := r.shortVal as int - s as int;
      ModDiff(d, 0, F.Q, k);
      ModSmall(0, F.Q);
      SmallShorts(F, d);
    }
  }

  /** The limbs encode the value. The short value is written only where it is copied: for a plain short
      operand and another destination the old one stays, and the result is valid exactly when it agrees
      with the operand's. Limbs already marked as Montgomery limbs are copied, whatever they are. */
  method ToMontgomery(F: Raw, r: Element, a: Element)
    requires F.Valid() && F.Free(a.longVal) && Writable(F, r, a)
    modifies r, r.longVal
    ensures old(Valid(F, a)) ==> Number(r.longVal) == Encode(F.Q, F.R, old(Value(F, a)))
    ensures old(a.tag).IsMontgomery() ==> Number(r.longVal) == old(Number(a.longVal))
    ensures r.tag == if old(a.tag).IsLong() then LongMontgomery else ShortMontgomery
    ensures r.shortVal == if old(a.tag) == Short then old(r.shortVal) else old(a.shortVal)
    ensures old(Valid(F, a)) ==> (Valid(F, r) <==> old(a.tag) != Short || old(r.shortVal) == old(a.shortVal))
  {
    if a.tag.IsMontgomery() {
      if Valid(F, a) { MontgomeryForm(F, a); }
      Copy(r, a);
    } else if a.tag.IsLong() {
      r.shortVal := a.shortVal;
      F.RawToMontgomery(r.longVal, a.longVal);
      r.tag := LongMontgomery;
    } else {
      ghost var s := a.shortVal;
      ModMod(s, F.Q);
      EncodeCongruent(F.Q, F.R, s % F.Q, s);
      if a.shortVal < 0 {
        EncodeShort(F, r, 0 - a.shortVal as int);
        F.RawNeg(r.longVal, r.longVal);
        EncodeZero(F.Q, F.R);
        EncodeSum(F.Q, F.R, 0, 0 - s as int);
        r.tag := ShortMontgomery;
      } else {
        EncodeShort(F, r, a.shortVal);
        r.tag := ShortMontgomery;
      }
      ShortMontgomeryValid(F, r, s);
    }
  }

  method EncodeShort(F: Raw, r: Element, magnitude: limb)
    requires F.Valid() && F.Free(r.longVal)
    modifies r.longVal
    ensures Number(r.longVal) == Encode(F.Q, F.R, magnitude)
  {
    F.ThePowers();
    assert SquareLaw(F.Q, F.R, F.rInv, Number(F.R2), magnitude);
    ProductCommutes(F.Q, F.rInv, Number(F.R2), magnitude);
    F.RawMMul1(r.longVal, F.R2, magnitude);
  }

  lemma EncodeZero(q: nat, p: nat)
    requires q > 0
    ensures Encode(q, p, 0) == 0
  {
    assert 0 * p == 0;
    ModSmall(0, q);
  }

  method ToNormal(F: Raw, r: Element, a: Element)
    requires Valid(F, a) && Writable(F, r, a)
    modifies r, r.longVal
    ensures Valid(F, r) && Value(F, r) == old(Value(F, a))
    ensures r.tag == if old(a.tag) == LongMontgomery then Long else old(a.tag)
  {
    if a.tag == LongMontgomery {
      r.tag := Long;
      F.RawFromMontgomery(r.longVal, a.longVal);
      assert Number(a.longVal) * 1 == Number(a.longVal);
    } else {
      Copy(r, a);
    }
  }

  method ToLongNormal(F: Raw, r: Element, a: Element)
    requires Valid(F, a) && Writable(F, r, a)
    modifies r, r.longVal
    ensures Valid(F, r) && Value(F, r) == old(Value(F, a)) && r.tag == Long
  {
    if a.tag.IsLong() {
      if a.tag.IsMontgomery() {
        F.RawFromMontgomery(r.longVal, a.longVal);
        assert Number(a.longVal) * 1 == Number(a.longVal);
        r.tag := Long;
      } else {
        Copy(r, a);
      }
    } else {
      F.RawCopyS2L(r.longVal, a.shortVal);
      r.tag := Long;
      r.shortVal := 0;
    }
  }

  /** Converting the short element 1 into another element that held 0 leaves the limbs of 1 beside a short
      value of 0. */
  method StaleShortValue(F: Raw, r: Element, a: Element)
    requires F.Valid() && F.Free(a.longVal) && F.Free(r.longVal) && Apart(r, a)
    requires a.tag == Short && a.shortVal == 1 && r.shortVal == 0
    modifies r, r.longVal
    ensures r.tag == ShortMontgomery && r.shortVal == 0 && Number(r.longVal) == Encode(F.Q, F.R, 1)
    ensures !Valid(F, r)
  {
    ToMontgomery(F, r, a);
    ModMod(1, F.Q);
    EncodeCongruent(F.Q, F.R, 1 % F.Q, 1);
  }

  // ---------- addition and subtraction ----------

  /** Whether an addition or subtraction with u converts c to Montgomery limbs first. */
  predicate Converts(u: Element, c: Element)
    reads u, c
  {
    u.tag == LongMontgomery && !c.tag.IsMontgomery()
  }

  /** The limbs of c, taken as they are, encode its value. */
  ghost predicate Encodes(F: Raw, c: Element)
    requires Valid(F, c)
    reads c, c.longVal, F.q, F.R2, F.R3, F.half
  {
    Number(c.longVal) % F.Q == Encode(F.Q, F.R, Value(F, c))
  }

  /** The tag of the result is written before the operand without Montgomery limbs is converted. In place
      it is then taken for converted already, so its limbs have to encode its value as they stand, and
      to be small enough for the one subtraction of q. */
  ghost predicate AddSafe(F: Raw, r: Element, a: Element, b: Element)
    requires Valid(F, a) && Valid(F, b)
    reads a, a.longVal, b, b.longVal, F.q, F.R2, F.R3, F.half
  {
    && (r == a && Converts(b, a) ==> Encodes(F, a) && Number(a.longVal) + Number(b.longVal) < 2 * F.Q)
    && (r == b && Converts(a, b) ==> Encodes(F, b) && Number(a.longVal) + Number(b.longVal) < 2 * F.Q)
  }

  /** For a - b the same, and a negative short a from which b itself is subtracted in place gives zero. */
  ghost predicate SubSafe(F: Raw, r: Element, a: Element, b: Element)
    requires Valid(F, a) && Valid(F, b)
    reads a, a.longVal, b, b.longVal, F.q, F.R2, F.R3, F.half
  {
    && (r == a && Converts(b, a) ==> Encodes(F, a) && Number(a.longVal) < Number(b.longVal) + F.Q)
    && (r == b && Converts(a, b) ==> Encodes(F, b) && Number(b.longVal) <= Number(a.longVal) + F.Q)
    && (r == b && b.tag == Long && !a.tag.IsLong() && a.shortVal < 0 ==> Value(F, a) == Value(F, b))
  }

  /** Bits 31 and 32 of a sum of two 32-bit numbers tell whether it left the range: an arithmetic shift
      rounds down. */
  function HasAdd32Overflow(val: int): bool {
    var signs := val / 0x8000_0000 % 4;
    signs == 1 || signs == 2
  }

  lemma OverflowIsRange(val: int)
    requires -0x1_0000_0000 <= val <= 0x1_0000_0000
    ensures HasAdd32Overflow(val) <==> !(-0x8000_0000 <= val < 0x8000_0000)
  {
  }

  /** The result of a short operation: short when it fits, plain limbs when it does not. */
  method StoreSum(F: Raw, r: Element, sum: int)
    requires F.Valid() && F.Free(r.longVal) && -0x1_0000_0000 <= sum <= 0x1_0000_0000
    modifies r, r.longVal
    ensures Valid(F, r) && Value(F, r) == sum % F.Q
  {
    OverflowIsRange(sum);
    if HasAdd32Overflow(sum) {
      F.RawCopyS2L(r.longVal, sum);
      r.tag := Long;
      r.shortVal := 0;
    } else {
      r.tag := Short;
      r.shortVal := sum;
    }
  }

  /** Both operands have Montgomery limbs. */
  method AddEncoded(F: Raw, r: Element, a: Element, b: Element)
    requires Valid(F, a) && Valid(F, b) && Writable(F, r, a) && Writable(F, r, b)
    requires a.tag.IsMontgomery() && b.tag.IsMontgomery()
    modifies r, r.longVal
    ensures Valid(F, r) && Value(F, r) == (old(Value(F, a)) + old(Value(F, b))) % F.Q
  {
    ghost var x: int, y: int := Value(F, a), Value(F, b);
    MontgomeryForm(F, a); MontgomeryForm(F, b);
    r.tag := LongMontgomery;
    F.RawAdd(r.longVal, a.longVal, b.longVal);
    EncodeSum(F.Q, F.R, x, y);
    Encoded(F, r, x + y);
  }

  /** A short operand without Montgomery limbs onto plain limbs. */
  method AddShort(F: Raw, r: Element, a: Element, b: Element)
    requires Valid(F, a) && Valid(F, b) && Writable(F, r, a) && Writable(F, r, b) && a.tag == Long && !b.tag.IsLong()
    modifies r, r.longVal
    ensures Valid(F, r) && Value(F, r) == (old(Value(F, a)) + old(Value(F, b))) % F.Q
  {
    ghost var x := Value(F, a);
    ModMod(b.shortVal, F.Q);
    ModAdd(x, x, b.shortVal % F.Q, b.shortVal, F.Q);
    r.tag := Long;
    if b.shortVal >= 0 {
      F.RawAddLS(r.longVal, a.longVal, b.shortVal);
    } else {
      F.RawSubLS(r.longVal, a.longVal, 0 - b.shortVal as int);
    }
  }

  method AddPlain(F: Raw, r: Element, a: Element, b: Element)
    requires Valid(F, a) && Valid(F, b) && Writable(F, r, a) && Writable(F, r, b) && a.tag == b.tag == Long
    modifies r, r.longVal
    ensures Valid(F, r) && Value(F, r) == (old(Value(F, a)) + old(Value(F, b))) % F.Q
  {
    r.tag := Long;
    F.RawAdd(r.longVal, a.longVal, b.longVal);
  }

  /** One reduced sum of an encoded number and other limbs: it is right exactly when those encode the
      other number. */
  lemma SumDecides(q: nat, p: nat, rInv: nat, x: int, y: int, u: nat, k: nat)
    requires Unit(q, p, rInv) && u == Encode(q, p, x)
    ensures var n := LessOnce(q, u + k);
            n < q && Decode(q, rInv, n) == (x + y) % q <==> k % q == Encode(q, p, y) && u + k < 2 * q
  {
    var n := LessOnce(q, u + k);
    if u + k < 2 * q {
      ModIs(u + k, q, if u + k < q then 0 else 1, n);
      EncodeSum(q, p, x, y);
      SameSum(q, u, k, Encode(q, p, y));
      EncodedDecides(q, p, rInv, n, x + y);
    }
  }

  lemma SameSum(q: nat, u: int, k: int, y: int)
    requires q > 0 && 0 <= y < q
    ensures (u + k) % q == (u + y) % q <==> k % q == y
    ensures (u - k) % q == (u - y) % q <==> k % q == y
    ensures (k - u) % q == (y - u) % q <==> k % q == y
  {
    ModSmall(y, q);
    if k % q == y {
      ModAdd(u, u, k, y, q); ModSub(u, u, k, y, q); ModSub(k, y, u, u, q);
    }
    if (u + k) % q == (u + y) % q { ModSub(u + k, u + y, u, u, q); }
    if (u - k) % q == (u - y) % q { ModSub(u, u, u - k, u - y, q); }
    if (k - u) % q == (y - u) % q { ModAdd(k - u, y - u, u, u, q); }
  }

  /** A number below q decodes to v exactly when it encodes v. */
  lemma EncodedDecides(q: nat, p: nat, rInv: nat, n: nat, v: int)
    requires Unit(q, p, rInv) && n < q
    ensures Decode(q, rInv, n) == v % q <==> n == Encode(q, p, v)
  {
    DecodeEncode(q, p, rInv, v);
    EncodeDecode(q, p, rInv, n);
    ModSmall(n, q);
    ModMod(v, q);
    EncodeCongruent(q, p, v % q, v);
  }

  /** The tag of r is written, then c is converted: its limbs are taken as they are when c is r. */
  method ConvertedLimbs(F: Raw, r: Element, c: Element) returns (limbs: array<limb>)
    requires Valid(F, c) && Writable(F, r, c) && !c.tag.IsMontgomery()
    modifies r`tag
    ensures r.tag == LongMontgomery && fresh(limbs) && limbs.Length == 4
    ensures Number(limbs) == if r == c then old(Number(c.longVal)) else Encode(F.Q, F.R, old(Value(F, c)))
  {
    r.tag := LongMontgomery;
    var c_m := new Element();
    ToMontgomery(F, c_m, c);
    limbs := c_m.longVal;
  }

  /** A Montgomery operand and one that has to be converted first. */
  method AddConverted(F: Raw, r: Element, a: Element, b: Element)
    requires Valid(F, a) && Valid(F, b) && Writable(F, r, a) && Writable(F, r, b) && Converts(a, b)
    modifies r, r.longVal
    ensures Valid(F, r) && Value(F, r) == (old(Value(F, a)) + old(Value(F, b))) % F.Q <==> old(AddSafe(F, r, a, b))
  {
    ghost var x: int, y: int, u := Value(F, a), Value(F, b), Number(a.longVal);
    MontgomeryForm(F, a);
    var b_m := ConvertedLimbs(F, r, b);
    ghost var k := Number(b_m);
    ValBound(b_m[..4]);
    F.RawAdd(r.longVal, a.longVal, b_m);
    SumDecides(F.Q, F.R, F.rInv, x, y, u, k);
    if r != b { ModSmall(k, F.Q); }
  }

  /** r := a + b for all sixteen pairs of representations, into another element or in place. */
  method Add(F: Raw, r: Element, a: Element, b: Element)
    requires Valid(F, a) && Valid(F, b) && Writable(F, r, a) && Writable(F, r, b)
    modifies r, r.longVal
    ensures Valid(F, r) && Value(F, r) == (old(Value(F, a)) + old(Value(F, b))) % F.Q <==> old(AddSafe(F, r, a, b))
  {
    if a.tag.IsLong() {
      if b.tag.IsLong() {
        if a.tag.IsMontgomery() {
          if b.tag.IsMontgomery() {
            AddEncoded(F, r, a, b);
          } else {
            AddConverted(F, r, a, b);
          }
        } else {
          if b.tag.IsMontgomery() {
            AddConverted(F, r, b, a);
          } else {
            AddPlain(F, r, a, b);
          }
        }
      } else if a.tag.IsMontgomery() {
        if b.tag.IsMontgomery() {
          AddEncoded(F, r, a, b);
        } else {
          AddConverted(F, r, a, b);
        }
      } else {
        AddShort(F, r, a, b);
      }
    } else if b.tag.IsLong() {
      if b.tag.IsMontgomery() {
        if a.tag.IsMontgomery() {
          AddEncoded(F, r, a, b);
        } else {
          AddConverted(F, r, b, a);
        }
      } else {
        AddShort(F, r, b, a);
      }
    } else {
      ShortSum(F.Q, a.shortVal, b.shortVal);
      StoreSum(F, r, a.shortVal as int + b.shortVal as int);
    }
  }

  lemma ShortSum(q: nat, x: int, y: int)
    requires q > 0
    ensures (x + y) % q == (x % q + y % q) % q && (x - y) % q == (x % q - y % q) % q
  {
    ModMod(x, q); ModMod(y, q);
    ModAdd(x, x % q, y, y % q, q);
    ModSub(x, x % q, y, y % q, q);
  }

  method SubEncoded(F: Raw, r: Element, a: Element, b: Element)
    requires Valid(F, a) && Valid(F, b) && Writable(F, r, a) && Writable(F, r, b)
    requires a.tag.IsMontgomery() && b.tag.IsMontgomery()
    modifies r, r.longVal
    ensures Valid(F, r) && Value(F, r) == (old(Value(F, a)) - old(Value(F, b))) % F.Q
  {
    ghost var x: int, y: int := Value(F, a), Value(F, b);
    MontgomeryForm(F, a); MontgomeryForm(F, b);
    r.tag := LongMontgomery;
    F.RawSub(r.longVal, a.longVal, b.longVal);
    EncodeSum(F.Q, F.R, x, y);
    Encoded(F, r, x - y);
  }

  method SubPlain(F: Raw, r: Element, a: Element, b: Element)
    requires Valid(F, a) && Valid(F, b) && Writable(F, r, a) && Writable(F, r, b) && a.tag == b.tag == Long
    modifies r, r.longVal
    ensures Valid(F, r) && Value(F, r) == (old(Value(F, a)) - old(Value(F, b))) % F.Q
  {
    r.tag := Long;
    F.RawSub(r.longVal, a.longVal, b.longVal);
  }

  lemma DifferenceDecides(q: nat, p: nat, rInv: nat, top: nat, x: int, y: int, u: nat, k: nat)
    requires Unit(q, p, rInv) && u == Encode(q, p, x) && k < top
    ensures var n := MoreOnce(q, top, u - k);
            n < q && Decode(q, rInv, n) == (x - y) % q <==> k % q == Encode(q, p, y) && k <= u + q
  {
    var n := MoreOnce(q, top, u - k);
    if k <= u + q {
      ModIs(u - k, q, if k <= u then 0 else -1, n);
      EncodeSum(q, p, x, y);
      SameSum(q, u, k, Encode(q, p, y));
      EncodedDecides(q, p, rInv, n, x - y);
    }
  }

  lemma DifferenceDecidesLeft(q: nat, p: nat, rInv: nat, top: nat, x: int, y: int, k: nat, u: nat)
    requires Unit(q, p, rInv) && u == Encode(q, p, y)
    ensures var n := MoreOnce(q, top, k - u);
            n < q && Decode(q, rInv, n) == (x - y) % q <==> k % q == Encode(q, p, x) && k < u + q
  {
    var n := MoreOnce(q, top, k - u);
    if k < u + q {
      ModIs(k - u, q, if u <= k then 0 else -1, n);
      EncodeSum(q, p, x, y);
      SameSum(q, u, k, Encode(q, p, x));
      EncodedDecides(q, p, rInv, n, x - y);
    }
  }

  /** Converts the subtrahend. */
  method SubConvertedRight(F: Raw, r: Element, a: Element, b: Element)
    requires Valid(F, a) && Valid(F, b) && Writable(F, r, a) && Writable(F, r, b) && Converts(a, b)
    modifies r, r.longVal
    ensures Valid(F, r) && Value(F, r) == (old(Value(F, a)) - old(Value(F, b))) % F.Q <==> old(SubSafe(F, r, a, b))
  {
    ghost var x: int, y: int, u := Value(F, a), Value(F, b), Number(a.longVal);
    MontgomeryForm(F, a);
    var b_m := ConvertedLimbs(F, r, b);
    ghost var k := Number(b_m);
    ValBound(b_m[..4]);
    F.RawSub(r.longVal, a.longVal, b_m);
    DifferenceDecides(F.Q, F.R, F.rInv, Place(4), x, y, u, k);
    if r != b { ModSmall(k, F.Q); }
  }

  /** Converts the minuend. */
  method SubConvertedLeft(F: Raw, r: Element, a: Element, b: Element)
    requires Valid(F, a) && Valid(F, b) && Writable(F, r, a) && Writable(F, r, b) && Converts(b, a)
    modifies r, r.longVal
    ensures Valid(F, r) && Value(F, r) == (old(Value(F, a)) - old(Value(F, b))) % F.Q <==> old(SubSafe(F, r, a, b))
  {
    ghost var x: int, y: int, u := Value(F, a), Value(F, b), Number(b.longVal);
    MontgomeryForm(F, b);
    var a_m := ConvertedLimbs(F, r, a);
    ghost var k := Number(a_m);
    ValBound(a_m[..4]);
    F.RawSub(r.longVal, a_m, b.longVal);
    DifferenceDecidesLeft(F.Q, F.R, F.rInv, Place(4), x, y, k, u);
    if r != a { ModSmall(k, F.Q); }
  }

  method SubShortRight(F: Raw, r: Element, a: Element, b: Element)
    requires Valid(F, a) && Valid(F, b) && Writable(F, r, a) && Writable(F, r, b) && a.tag == Long && !b.tag.IsLong()
    modifies r, r.longVal
    ensures Valid(F, r) && Value(F, r) == (old(Value(F, a)) - old(Value(F, b))) % F.Q
  {
    ghost var x := Value(F, a);
    ModMod(b.shortVal, F.Q);
    ModSub(x, x, b.shortVal % F.Q, b.shortVal, F.Q);
    r.tag := Long;
    if b.shortVal < 0 {
      F.RawAddLS(r.longVal, a.longVal, 0 - b.shortVal as int);
    } else {
      F.RawSubLS(r.longVal, a.longVal, b.shortVal);
    }
  }

  method SubShortLeft(F: Raw, r: Element, a: Element, b: Element)
    requires Valid(F, a) && Valid(F, b) && Writable(F, r, a) && Writable(F, r, b) && !a.tag.IsLong() && b.tag == Long
    modifies r, r.longVal
    ensures Valid(F, r) && Value(F, r) == (old(Value(F, a)) - old(Value(F, b))) % F.Q <==> old(SubSafe(F, r, a, b))
  {
    ghost var x: int, y: int := Value(F, a), Value(F, b);
    ModMod(a.shortVal, F.Q);
    ModSub(a.shortVal % F.Q, a.shortVal, y, y, F.Q);
    F.DifferenceStays(x, y);
    r.tag := Long;
    if a.shortVal >= 0 {
      F.RawSubSL(r.longVal, a.shortVal, b.longVal);
    } else {
      F.RawNegLS(r.longVal, b.longVal, 0 - a.shortVal as int);
    }
  }

  /** r := a - b for all sixteen pairs of representations, into another element or in place. */
  method Sub(F: Raw, r: Element, a: Element, b: Element)
    requires Valid(F, a) && Valid(F, b) && Writable(F, r, a) && Writable(F, r, b)
    modifies r, r.longVal
    ensures Valid(F, r) && Value(F, r) == (old(Value(F, a)) - old(Value(F, b))) % F.Q <==> old(SubSafe(F, r, a, b))
  {
    if a.tag.IsLong() {
      if b.tag.IsLong() {
        if a.tag.IsMontgomery() {
          if b.tag.IsMontgomery() {
            SubEncoded(F, r, a, b);
          } else {
            SubConvertedRight(F, r, a, b);
          }
        } else if b.tag.IsMontgomery() {
          SubConvertedLeft(F, r, a, b);
        } else {
          SubPlain(F, r, a, b);
        }
      } else if a.tag.IsMontgomery() {
        if b.tag.IsMontgomery() {
          SubEncoded(F, r, a, b);
        } else {
          SubConvertedRight(F, r, a, b);
        }
      } else {
        SubShortRight(F, r, a, b);
      }
    } else if b.tag.IsLong() {
      if b.tag.IsMontgomery() {
        if a.tag.IsMontgomery() {
          SubEncoded(F, r, a, b);
        } else {
          SubConvertedLeft(F, r, a, b);
        }
      } else {
        SubShortLeft(F, r, a, b);
      }
    } else {
      ShortSum(F.Q, a.shortVal, b.shortVal);
      StoreSum(F, r, a.shortVal as int - b.shortVal as int);
    }
  }

  /** r := -a. */
  method Neg(F: Raw, r: Element, a: Element)
    requires Valid(F, a) && Writable(F, r, a)
    modifies r, r.longVal
    ensures Valid(F, r) && Value(F, r) == (0 - old(Value(F, a))) % F.Q
  {
    if a.tag.IsLong() {
      ghost var v: int := Value(F, a);
      if a.tag.IsMontgomery() { MontgomeryForm(F, a); }
      r.tag := a.tag;
      r.shortVal := a.shortVal;
      F.RawNeg(r.longVal, a.longVal);
      if r.tag.LongMontgomery? {
        EncodeSum(F.Q, F.R, 0, v);
        EncodeZero(F.Q, F.R);
        Encoded(F, r, 0 - v);
      }
    } else {
      ShortSum(F.Q, 0, a.shortVal);
      ModSmall(0, F.Q);
      StoreSum(F, r, 0 - a.shortVal as int);
    }
  }

  // ---------- in place ----------

  /** No number but zero is its own Montgomery form. */
  lemma OwnForm(q: nat, p: nat, gap: nat, v: nat)
    requires p > 0 && Unit(q, p - 1, gap) && v < q
    ensures Encode(q, p, v) == v <==> v == 0
  {
    EncodeZero(q, p);
    if Encode(q, p, v) == v {
      ModMod(v * p, q);
      ModSub(v * p, v, v, v, q);
      assert v * (p - 1) == v * p - v;
      ModMulOne(v * (p - 1), 0, gap, q);
      assert v * (p - 1) * gap == v * ((p - 1) * gap);
      assert UnitLaw(q, p - 1, gap, v);
      ModSmall(v, q);
      ModSmall(0, q);
    }
  }

  /** Plain limbs beside Montgomery limbs: adding or subtracting in place is right exactly for the value 0. */
  lemma PlainInPlace(F: Raw, r: Element, b: Element)
    requires Valid(F, r) && Valid(F, b) && r.tag == Long && b.tag == LongMontgomery
    ensures AddSafe(F, r, r, b) <==> Value(F, r) == 0
    ensures AddSafe(F, r, b, r) <==> Value(F, r) == 0
    ensures SubSafe(F, r, r, b) <==> Value(F, r) == 0
    ensures SubSafe(F, r, b, r) <==> Value(F, r) == 0
  {
    F.TheGap();
    OwnForm(F.Q, F.R, F.gap, Value(F, r));
    ModSmall(Value(F, r), F.Q);
  }

  /** A negative short less plain limbs, in place of the latter: right exactly when the two are equal, so
      for -1 less 0 it is wrong. */
  lemma ShortLessInPlace(F: Raw, a: Element, r: Element)
    requires Valid(F, a) && Valid(F, r) && a.tag == Short && a.shortVal < 0 && r.tag == Long
    ensures SubSafe(F, r, a, r) <==> Value(F, a) == Value(F, r)
    ensures a.shortVal == -1 && Value(F, r) == 0 ==> !SubSafe(F, r, a, r)
  {
    F.LimbBelow(1);
    if a.shortVal == -1 { ModIs(-1, F.Q, -1, F.Q - 1); }
  }

  // ---------- multiplication ----------

  function HasMul32Overflow(val: int): bool { !(-0x8000_0000 <= val < 0x8000_0000) }

  lemma ProductRange(x: int32, y: int32)
    ensures -0x4000_0000_0000_0000 <= x as int * y as int <= 0x4000_0000_0000_0000
  {
    var m: int := 0x8000_0000;
    var u: int, v: int := x, y;
    assert (m - u) * (m + v) >= 0 && (m + u) * (m - v) >= 0 && (m - u) * (m - v) >= 0 && (m + u) * (m + v) >= 0 by {
      NonNegative(m - u, m + v); NonNegative(m + u, m - v); NonNegative(m - u, m - v); NonNegative(m + u, m + v);
    }
    assert (m - u) * (m + v) == m * m + m * v - m * u - u * v;
    assert (m + u) * (m - v) == m * m - m * v + m * u - u * v;
    assert (m - u) * (m - v) == m * m - m * v - m * u + u * v;
    assert (m + u) * (m + v) == m * m + m * v + m * u + u * v;
  }

  lemma NonNegative(x: int, y: int)
    requires x >= 0 && y >= 0
    ensures x * y >= 0
  {
  }

  /** Both branches end with the product in plain limbs. */
  method MulShorts(F: Raw, r: Element, x: int32, y: int32)
    requires F.Valid() && F.Free(r.longVal)
    modifies r, r.longVal
    ensures Valid(F, r) && Value(F, r) == (x as int * y as int) % F.Q
  {
    ProductRange(x, y);
    var result := x as int * y as int;
    if HasMul32Overflow(result) {
      F.RawCopyS2L(r.longVal, result);
      r.tag := Long;
      r.shortVal := 0;
    } else {
      r.shortVal := result;
      r.tag := Short;
      F.RawCopyS2L(r.longVal, result);
      r.tag := Long;
      r.shortVal := 0;
    }
  }

  method MulPlain(F: Raw, r: Element, a: Element, b: Element)
    requires Valid(F, a) && Valid(F, b) && Writable(F, r, a) && Writable(F, r, b) && a.tag == b.tag == Long
    modifies r, r.longVal
    ensures Valid(F, r) && Value(F, r) == (old(Value(F, a)) * old(Value(F, b))) % F.Q
  {
    ghost var x: int, y: int := Value(F, a), Value(F, b);
    r.tag := LongMontgomery;
    F.RawMMul(r.longVal, a.longVal, b.longVal);
    F.ThePowers();
    F.RawMMul(r.longVal, r.longVal, F.R3);
    RepairedProduct(F.Q, F.R, F.rInv, x * y, Number(F.R2), Number(F.R3));
    Encoded(F, r, x * y);
  }

  method MulEncoded(F: Raw, r: Element, a: Element, b: Element)
    requires Valid(F, a) && Valid(F, b) && Writable(F, r, a) && Writable(F, r, b)
    requires a.tag.IsMontgomery() && b.tag.IsMontgomery()
    modifies r, r.longVal
    ensures Valid(F, r) && Value(F, r) == (old(Value(F, a)) * old(Value(F, b))) % F.Q
  {
    ghost var x: int, y: int := Value(F, a), Value(F, b);
    MontgomeryForm(F, a); MontgomeryForm(F, b);
    r.tag := LongMontgomery;
    EncodedProduct(F.Q, F.R, F.rInv, x, y, Number(a.longVal), Number(b.longVal));
    F.RawMMul(r.longVal, a.longVal, b.longVal);
    Encoded(F, r, x * y);
  }

  /** One operand with Montgomery limbs, one with plain limbs. */
  method MulMixed(F: Raw, r: Element, a: Element, b: Element)
    requires Valid(F, a) && Valid(F, b) && Writable(F, r, a) && Writable(F, r, b)
    requires (a.tag.IsMontgomery() && b.tag == Long) || (a.tag == Long && b.tag.IsMontgomery())
    modifies r, r.longVal
    ensures Valid(F, r) && Value(F, r) == (old(Value(F, a)) * old(Value(F, b))) % F.Q
  {
    ghost var x: int, y: int := Value(F, a), Value(F, b);
    if a.tag.IsMontgomery() { MontgomeryForm(F, a); } else { MontgomeryForm(F, b); }
    MixedProduct(F.Q, F.R, F.rInv, x, y); MixedProduct(F.Q, F.R, F.rInv, y, x);
    Swap(x, y);
    r.tag := Long;
    F.RawMMul(r.longVal, a.longVal, b.longVal);
  }

  lemma Swap(x: int, y: int)
    ensures x * y == y * x
  {
  }

  /** limbs := limbs of a times s / R, the sign of s handled apart. */
  method ScaleLimbs(F: Raw, r: Element, a: Element, s: int32)
    requires Valid(F, a) && Writable(F, r, a) && a.tag.IsLong()
    modifies r.longVal
    ensures Number(r.longVal) == MontMul(F.Q, F.rInv, old(Number(a.longVal)), s)
  {
    if s < 0 {
      var magnitude := 0 - s as int;
      ghost var x: int, m: nat := Number(a.longVal), MontMul(F.Q, F.rInv, Number(a.longVal), magnitude);
      F.RawMMul1(r.longVal, a.longVal, magnitude);
      assert Number(r.longVal) == m;
      NegatedProduct(F.Q, F.rInv, x, s, magnitude, m);
      F.RawNeg(r.longVal, r.longVal);
    } else {
      F.RawMMul1(r.longVal, a.longVal, s);
    }
  }

  lemma NegatedProduct(q: nat, rInv: nat, x: int, s: int, magnitude: int, m: nat)
    requires q > 0 && magnitude == 0 - s && m == MontMul(q, rInv, x, magnitude)
    ensures (0 - m as int) % q == MontMul(q, rInv, x, s)
  {
    ModMod(x * magnitude * rInv, q);
    ModSub(0, 0, m, x * magnitude * rInv, q);
    assert 0 - x * magnitude * rInv == x * s * rInv by {
      assert x * magnitude == 0 - x * s;
      assert (0 - x * s) * rInv == 0 - x * s * rInv;
    }
  }

  /** A short factor without Montgomery limbs: plain limbs need repair, Montgomery limbs turn plain. */
  method MulShort(F: Raw, r: Element, a: Element, b: Element)
    requires Valid(F, a) && Valid(F, b) && Writable(F, r, a) && Writable(F, r, b) && a.tag.IsLong() && b.tag == Short
    modifies r, r.longVal
    ensures Valid(F, r) && Value(F, r) == (old(Value(F, a)) * old(Value(F, b))) % F.Q
  {
    ghost var x: int, s: int := Value(F, a), b.shortVal;
    ModMod(s, F.Q);
    ModMulOne(s % F.Q, s, x, F.Q);
    if a.tag.IsMontgomery() {
      MontgomeryForm(F, a);
      MixedProduct(F.Q, F.R, F.rInv, x, s);
      r.tag := Long;
      ScaleLimbs(F, r, a, b.shortVal);
    } else {
      r.tag := LongMontgomery;
      ScaleLimbs(F, r, a, b.shortVal);
      F.ThePowers();
      F.RawMMul(r.longVal, r.longVal, F.R3);
      RepairedProduct(F.Q, F.R, F.rInv, x * s, Number(F.R2), Number(F.R3));
      Encoded(F, r, x * s);
    }
  }

  /** r := a * b for all sixteen pairs of representations. */
  method Mul(F: Raw, r: Element, a: Element, b: Element)
    requires Valid(F, a) && Valid(F, b) && Writable(F, r, a) && Writable(F, r, b)
    modifies r, r.longVal
    ensures Valid(F, r) && Value(F, r) == (old(Value(F, a)) * old(Value(F, b))) % F.Q
  {
    Swap(Value(F, a), Value(F, b));
    if a.tag.IsLong() {
      if b.tag.IsLong() {
        if a.tag.IsMontgomery() {
          if b.tag.IsMontgomery() {
            MulEncoded(F, r, a, b);
          } else {
            MulMixed(F, r, a, b);
          }
        } else {
          if b.tag.IsMontgomery() {
            MulMixed(F, r, a, b);
          } else {
            MulPlain(F, r, a, b);
          }
        }
      } else if a.tag.IsMontgomery() {
        if b.tag.IsMontgomery() {
          MulEncoded(F, r, a, b);
        } else {
          MulShort(F, r, a, b);
        }
      } else {
        if b.tag.IsMontgomery() {
          MulMixed(F, r, a, b);
        } else {
          MulShort(F, r, a, b);
        }
      }
    } else if b.tag.IsLong() {
      if a.tag.IsMontgomery() {
        if b.tag.IsMontgomery() {
          MulEncoded(F, r, a, b);
        } else {
          MulMixed(F, r, a, b);
        }
      } else {
        MulShort(F, r, b, a);
      }
    } else {
      ShortProduct(F.Q, a.shortVal, b.shortVal);
      MulShorts(F, r, a.shortVal, b.shortVal);
    }
  }

  lemma ShortProduct(q: nat, x: int, y: int)
    requires q > 0
    ensures (x % q) * (y % q) % q == x * y % q
  {
    ModMod(x, q); ModMod(y, q);
    ModMul(x % q, x, y % q, y, q);
  }

  /** r := a * a. */
  method Square(F: Raw, r: Element, a: Element)
    requires Valid(F, a) && Writable(F, r, a)
    modifies r, r.longVal
    ensures Valid(F, r) && Value(F, r) == (old(Value(F, a)) * old(Value(F, a))) % F.Q
  {
    if a.tag.IsLong() {
      if a.tag == LongMontgomery {
        MulEncoded(F, r, a, a);
      } else {
        MulPlain(F, r, a, a);
      }
    } else {
      ShortProduct(F.Q, a.shortVal, a.shortVal);
      MulShorts(F, r, a.shortVal, a.shortVal);
    }
  }

  // ---------- comparison ----------

  /** Numbers above (q - 1) / 2 stand for negative ones. */
  function Signed(q: nat, v: nat): int { if 2 * v > q - 1 then v - q else v }

  /** The order of two plain numbers read as signed ones, from comparisons with half and each other. */
  method RltL1L2(F: Raw, a: array<limb>, b: array<limb>) returns (lt: bool)
    requires F.Valid() && a.Length == b.Length == 4 && Number(a) < F.Q && Number(b) < F.Q
    ensures lt <==> Signed(F.Q, Number(a)) < Signed(F.Q, Number(b))
  {
    F.TheHalf();
    var signA := Cmp(F.half, a, 4);
    var signB := Cmp(F.half, b, 4);
    var order := Cmp(b, a, 4);
    if signA < 0 {
      lt := if signB < 0 then order > 0 else true;
    } else {
      lt := if signB < 0 then false else order > 0;
    }
  }

  method RgtL1L2(F: Raw, a: array<limb>, b: array<limb>) returns (gt: bool)
    requires F.Valid() && a.Length == b.Length == 4 && Number(a) < F.Q && Number(b) < F.Q
    ensures gt <==> Signed(F.Q, Number(a)) > Signed(F.Q, Number(b))
  {
    F.TheHalf();
    var signA := Cmp(F.half, a, 4);
    var signB := Cmp(F.half, b, 4);
    var order := Cmp(b, a, 4);
    if signA < 0 {
      gt := if signB < 0 then order < 0 else false;
    } else {
      gt := if signB < 0 then true else order < 0;
    }
  }

  /** The plain limbs of an operand: its own, or those of a converted copy. */
  method PlainLimbs(F: Raw, a: Element) returns (limbs: array<limb>)
    requires Valid(F, a)
    ensures limbs.Length == 4 && Number(limbs) == Value(F, a)
  {
    if a.tag == Long {
      limbs := a.longVal;
    } else {
      var a_n := new Element();
      if a.tag == LongMontgomery {
        ToNormal(F, a_n, a);
      } else {
        ToLongNormal(F, a_n, a);
      }
      limbs := a_n.longVal;
    }
  }

  lemma ShortSigned(F: Raw, x: int32)
    requires F.Valid()
    ensures Signed(F.Q, x % F.Q) == x
  {
    F.LimbBelow(0x1_0000_0000);
    if x >= 0 { ModSmall(x, F.Q); } else { ModIs(x, F.Q, -1, x + F.Q); }
  }

  method Rlt(F: Raw, a: Element, b: Element) returns (lt: bool)
    requires Valid(F, a) && Valid(F, b)
    ensures lt <==> Signed(F.Q, Value(F, a)) < Signed(F.Q, Value(F, b))
  {
    if a.tag.IsLong() || b.tag.IsLong() {
      var x := PlainLimbs(F, a);
      var y := PlainLimbs(F, b);
      lt := RltL1L2(F, x, y);
    } else {
      ShortSigned(F, a.shortVal); ShortSigned(F, b.shortVal);
      lt := a.shortVal < b.shortVal;
    }
  }

  method Rgt(F: Raw, a: Element, b: Element) returns (gt: bool)
    requires Valid(F, a) && Valid(F, b)
    ensures gt <==> Signed(F.Q, Value(F, a)) > Signed(F.Q, Value(F, b))
  {
    if a.tag.IsLong() || b.tag.IsLong() {
      var x := PlainLimbs(F, a);
      var y := PlainLimbs(F, b);
      gt := RgtL1L2(F, x, y);
    } else {
      ShortSigned(F, a.shortVal); ShortSigned(F, b.shortVal);
      gt := a.shortVal > b.shortVal;
    }
  }

  /** The short element 1 or 0. r may be any of the operands of the comparison. */
  method StoreFlag(F: Raw, r: Element, flag: bool)
    requires F.Valid() && F.Free(r.longVal)
    modifies r
    ensures Valid(F, r) && Value(F, r) == (if flag then 1 else 0)
  {
    r.shortVal := if flag then 1 else 0;
    r.tag := Short;
    ModSmall(r.shortVal, F.Q);
  }

  method Lt(F: Raw, r: Element, a: Element, b: Element)
    requires Valid(F, a) && Valid(F, b) && F.Free(r.longVal)
    modifies r
    ensures Valid(F, r)
    ensures Value(F, r) == if Signed(F.Q, old(Value(F, a))) < Signed(F.Q, old(Value(F, b))) then 1 else 0
  {
    var lt := Rlt(F, a, b);
    StoreFlag(F, r, lt);
  }

  method Geq(F: Raw, r: Element, a: Element, b: Element)
    requires Valid(F, a) && Valid(F, b) && F.Free(r.longVal)
    modifies r
    ensures Valid(F, r)
    ensures Value(F, r) == if Signed(F.Q, old(Value(F, a))) >= Signed(F.Q, old(Value(F, b))) then 1 else 0
  {
    var lt := Rlt(F, a, b);
    StoreFlag(F, r, !lt);
  }

  method Gt(F: Raw, r: Element, a: Element, b: Element)
    requires Valid(F, a) && Valid(F, b) && F.Free(r.longVal)
    modifies r
    ensures Valid(F, r)
    ensures Value(F, r) == if Signed(F.Q, old(Value(F, a))) > Signed(F.Q, old(Value(F, b))) then 1 else 0
  {
    var gt := Rgt(F, a, b);
    StoreFlag(F, r, gt);
  }

  method Leq(F: Raw, r: Element, a: Element, b: Element)
    requires Valid(F, a) && Valid(F, b) && F.Free(r.longVal)
    modifies r
    ensures Valid(F, r)
    ensures Value(F, r) == if Signed(F.Q, old(Value(F, a))) <= Signed(F.Q, old(Value(F, b))) then 1 else 0
  {
    var gt := Rgt(F, a, b);
    StoreFlag(F, r, !gt);
  }

  /** The Montgomery limbs of an operand: its own, or those of a converted copy. */
  method MontgomeryLimbs(F: Raw, a: Element) returns (limbs: array<limb>)
    requires Valid(F, a)
    ensures limbs.Length == 4 && Number(limbs) == Encode(F.Q, F.R, Value(F, a))
  {
    if a.tag == LongMontgomery {
      MontgomeryForm(F, a);
      limbs := a.longVal;
    } else {
      var a_m := new Element();
      ToMontgomery(F, a_m, a);
      limbs := a_m.longVal;
    }
  }

  lemma LimbsDecide(F: Raw, v: nat, w: nat)
    requires F.Valid() && v < F.Q && w < F.Q
    ensures Encode(F.Q, F.R, v) == Encode(F.Q, F.R, w) <==> v == w
  {
    ModSmall(v, F.Q); ModSmall(w, F.Q);
    if Encode(F.Q, F.R, v) == Encode(F.Q, F.R, w) { EncodeInjective(F.Q, F.R, F.rInv, v, w); }
  }

  /** Equality of values, decided on limbs of the same kind. */
  method Req(F: Raw, a: Element, b: Element) returns (eq: bool)
    requires Valid(F, a) && Valid(F, b)
    ensures eq <==> Value(F, a) == Value(F, b)
  {
    if a.tag == LongMontgomery || b.tag == LongMontgomery {
      var x := MontgomeryLimbs(F, a);
      var y := MontgomeryLimbs(F, b);
      var c := Cmp(y, x, 4);
      LimbsDecide(F, Value(F, a), Value(F, b));
      eq := c == 0;
    } else if a.tag.IsLong() || b.tag.IsLong() {
      var x := PlainLimbs(F, a);
      var y := PlainLimbs(F, b);
      var c := Cmp(y, x, 4);
      eq := c == 0;
    } else {
      ShortSigned(F, a.shortVal); ShortSigned(F, b.shortVal);
      eq := a.shortVal == b.shortVal;
    }
  }

  method Eq(F: Raw, r: Element, a: Element, b: Element)
    requires Valid(F, a) && Valid(F, b) && F.Free(r.longVal)
    modifies r
    ensures Valid(F, r) && Value(F, r) == if old(Value(F, a)) == old(Value(F, b)) then 1 else 0
  {
    var eq := Req(F, a, b);
    StoreFlag(F, r, eq);
  }
}
