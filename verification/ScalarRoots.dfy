/** The transforms exist over the real scalar field: roots of unity from the powers of 5, and an inverse of
    two. */
module ScalarRoots {
  import opened Algebra
  import opened Bits
  import opened Fft
  import opened FftSetup
  import opened Fourier
  import opened Limbs
  import opened Modular
  import opened Montgomery
  import opened MontgomeryRing
  import opened RawField
  import opened ScalarCertificates

  /** The factors of two of q - 1, and what is left of it. */
  const TWO_POWER: nat := 28
  const ODD_PART: nat := 0x3_0644_E72E_131A_029B_8504_5B68_1815_85D2_833E_8487_9B97_0914_3E1F_593F

  /** The element that a number converts to. */
  function ScalarOf(v: nat): ScalarElement { Encode(SCALAR_MODULUS, Place(4), v) }

  lemma ScalarProduct(x: nat, y: nat)
    ensures ScalarRing().Mul(ScalarOf(x), ScalarOf(y)) == ScalarOf(x * y)
  {
    ScalarModulus();
    EncodedProduct(SCALAR_MODULUS, Place(4), SCALAR_R_INVERSE, x, y, ScalarOf(x), ScalarOf(y));
  }

  lemma ScalarSum(x: nat, y: nat)
    ensures ScalarRing().Add(ScalarOf(x), ScalarOf(y)) == ScalarOf(x + y)
  {
    EncodeSum(SCALAR_MODULUS, Place(4), x, y);
  }

  lemma ScalarReduced(x: nat, k: nat, y: nat)
    requires x == SCALAR_MODULUS * k + y
    ensures ScalarOf(x) == ScalarOf(y)
  {
    ModDiff(x, y, SCALAR_MODULUS, k);
    EncodeCongruent(SCALAR_MODULUS, Place(4), x, y);
  }

  lemma ScalarOne()
    ensures ScalarRing().one == ScalarOf(1)
  {
    assert 1 * Place(4) == Place(4);
  }

  lemma MinusOne()
    ensures ScalarOf(SCALAR_MODULUS - 1) == ScalarRing().Neg(ScalarRing().one)
  {
    var R, w := ScalarRing(), ScalarOf(SCALAR_MODULUS - 1);
    ScalarSum(1, SCALAR_MODULUS - 1);
    ScalarOne();
    ScalarReduced(SCALAR_MODULUS, 1, 0);
    ModSmall(0, SCALAR_MODULUS);
    assert 0 * Place(4) == 0;
    R.g.NegUnique(R.one, w);
  }

  // ---------- the half-order power of 5 ----------

  /** 5^e is x. */
  ghost predicate Reaches(e: nat, x: nat) {
    x < SCALAR_MODULUS && ScalarRing().Pow(ScalarOf(5), e) == ScalarOf(x)
  }

  /** One step: squaring, and one more factor where the bit is set. */
  lemma StepReaches(e: nat, x: nat, bit: bool, k: nat, y: nat)
    requires Reaches(e, x) && y < SCALAR_MODULUS
    requires x * x * (if bit then 5 else 1) == SCALAR_MODULUS * k + y
    ensures Reaches(2 * e + if bit then 1 else 0, y)
  {
    var R, b := ScalarRing(), ScalarOf(5);
    R.PowAdd(b, e, e);
    ScalarProduct(x, x);
    ScalarReduced(x * x * (if bit then 5 else 1), k, y);
    if bit {
      R.PowAdd(b, 2 * e, 1); R.PowSmall(b);
      ScalarProduct(x * x, 5);
    }
  }

  lemma ShiftIn(p: nat, e: nat, bit: nat, v: nat)
    ensures p * (2 * e + bit) + v == 2 * p * e + (p * bit + v)
  {
    assert p * (2 * e + bit) == p * (2 * e) + p * bit;
    assert p * (2 * e) == 2 * p * e;
  }

  lemma {:induction false} WalkReaches(w: Walk, e: nat)
    requires Checks(w) && Reaches(e, w.number)
    ensures Reaches(Exp2(Length(w)) * e + BitsOf(w), LastNumber(w))
  {
    if w.Step? {
      var bit := if w.bit then 1 else 0;
      StepReaches(e, w.number, w.bit, w.quotient, w.rest.number);
      WalkReaches(w.rest, 2 * e + bit);
      ShiftIn(Exp2(Length(w.rest)), e, bit, BitsOf(w.rest));
    }
  }

  lemma WalkOn(w: Walk, n: nat, v: nat, e: nat, f: nat, x: nat, y: nat)
    requires Leads(w, n, v, x, y) && Reaches(e, x) && f == Exp2(n) * e + v
    ensures Reaches(f, y)
  {
    WalkReaches(w, e);
  }

  lemma ReachesTo4()
    ensures Reaches(EXPONENT_4, NUMBER_4)
  {
    ScalarOne();
    assert Exp2(5) == 32;
    assert Exp2(8) == 256;
    Leads1();
    WalkOn(Walk1(), 5, 24, 0, EXPONENT_1, 1, NUMBER_1);
    Leads2();
    WalkOn(Walk2(), 8, 50, EXPONENT_1, EXPONENT_2, NUMBER_1, NUMBER_2);
    Leads3();
    WalkOn(Walk3(), 8, 39, EXPONENT_2, EXPONENT_3, NUMBER_2, NUMBER_3);
    Leads4();
    WalkOn(Walk4(), 8, 57, EXPONENT_3, EXPONENT_4, NUMBER_3, NUMBER_4);
  }

  lemma ReachesTo8()
    ensures Reaches(EXPONENT_8, NUMBER_8)
  {
    ReachesTo4();
    assert Exp2(8) == 256;
    Leads5();
    WalkOn(Walk5(), 8, 112, EXPONENT_4, EXPONENT_5, NUMBER_4, NUMBER_5);
    Leads6();
    WalkOn(Walk6(), 8, 152, EXPONENT_5, EXPONENT_6, NUMBER_5, NUMBER_6);
    Leads7();
    WalkOn(Walk7(), 8, 208, EXPONENT_6, EXPONENT_7, NUMBER_6, NUMBER_7);
    Leads8();
    WalkOn(Walk8(), 8, 20, EXPONENT_7, EXPONENT_8, NUMBER_7, NUMBER_8);
  }

  lemma ReachesTo12()
    ensures Reaches(EXPONENT_12, NUMBER_12)
  {
    ReachesTo8();
    assert Exp2(8) == 256;
    Leads9();
    WalkOn(Walk9(), 8, 220, EXPONENT_8, EXPONENT_9, NUMBER_8, NUMBER_9);
    Leads10();
    WalkOn(Walk10(), 8, 40, EXPONENT_9, EXPONENT_10, NUMBER_9, NUMBER_10);
    Leads11();
    WalkOn(Walk11(), 8, 34, EXPONENT_10, EXPONENT_11, NUMBER_10, NUMBER_11);
    Leads12();
    WalkOn(Walk12(), 8, 219, EXPONENT_11, EXPONENT_12, NUMBER_11, NUMBER_12);
  }

  lemma ReachesTo16()
    ensures Reaches(EXPONENT_16, NUMBER_16)
  {
    ReachesTo12();
    assert Exp2(8) == 256;
    Leads13();
    WalkOn(Walk13(), 8, 64, EXPONENT_12, EXPONENT_13, NUMBER_12, NUMBER_13);
    Leads14();
    WalkOn(Walk14(), 8, 192, EXPONENT_13, EXPONENT_14, NUMBER_13, NUMBER_14);
    Leads15();
    WalkOn(Walk15(), 8, 172, EXPONENT_14, EXPONENT_15, NUMBER_14, NUMBER_15);
    Leads16();
    WalkOn(Walk16(), 8, 46, EXPONENT_15, EXPONENT_16, NUMBER_15, NUMBER_16);
  }

  lemma ReachesTo20()
    ensures Reaches(EXPONENT_20, NUMBER_20)
  {
    ReachesTo16();
    assert Exp2(8) == 256;
    Leads17();
    WalkOn(Walk17(), 8, 148, EXPONENT_16, EXPONENT_17, NUMBER_16, NUMBER_17);
    Leads18();
    WalkOn(Walk18(), 8, 25, EXPONENT_17, EXPONENT_18, NUMBER_17, NUMBER_18);
    Leads19();
    WalkOn(Walk19(), 8, 244, EXPONENT_18, EXPONENT_19, NUMBER_18, NUMBER_19);
    Leads20();
    WalkOn(Walk20(), 8, 36, EXPONENT_19, EXPONENT_20, NUMBER_19, NUMBER_20);
  }

  lemma ReachesTo24()
    ensures Reaches(EXPONENT_24, NUMBER_24)
  {
    ReachesTo20();
    assert Exp2(8) == 256;
    Leads21();
    WalkOn(Walk21(), 8, 60, EXPONENT_20, EXPONENT_21, NUMBER_20, NUMBER_21);
    Leads22();
    WalkOn(Walk22(), 8, 220, EXPONENT_21, EXPONENT_22, NUMBER_21, NUMBER_22);
    Leads23();
    WalkOn(Walk23(), 8, 184, EXPONENT_22, EXPONENT_23, NUMBER_22, NUMBER_23);
    Leads24();
    WalkOn(Walk24(), 8, 72, EXPONENT_23, EXPONENT_24, NUMBER_23, NUMBER_24);
  }

  lemma ReachesTo28()
    ensures Reaches(EXPONENT_28, NUMBER_28)
  {
    ReachesTo24();
    assert Exp2(8) == 256;
    Leads25();
    WalkOn(Walk25(), 8, 161, EXPONENT_24, EXPONENT_25, NUMBER_24, NUMBER_25);
    Leads26();
    WalkOn(Walk26(), 8, 240, EXPONENT_25, EXPONENT_26, NUMBER_25, NUMBER_26);
    Leads27();
    WalkOn(Walk27(), 8, 250, EXPONENT_26, EXPONENT_27, NUMBER_26, NUMBER_27);
    Leads28();
    WalkOn(Walk28(), 8, 201, EXPONENT_27, EXPONENT_28, NUMBER_27, NUMBER_28);
  }

  lemma ReachesTo32()
    ensures Reaches(EXPONENT_32, NUMBER_32)
  {
    ReachesTo28();
    assert Exp2(8) == 256;
    Leads29();
    WalkOn(Walk29(), 8, 248, EXPONENT_28, EXPONENT_29, NUMBER_28, NUMBER_29);
    Leads30();
    WalkOn(Walk30(), 8, 0, EXPONENT_29, EXPONENT_30, NUMBER_29, NUMBER_30);
    Leads31();
    WalkOn(Walk31(), 8, 0, EXPONENT_30, EXPONENT_31, NUMBER_30, NUMBER_31);
    Leads32();
    WalkOn(Walk32(), 8, 0, EXPONENT_31, EXPONENT_32, NUMBER_31, NUMBER_32);
  }

  /** 5 is no square in the scalar field. */
  lemma FiveIsNonResidue()
    ensures ScalarRing().Pow(ScalarOf(5), (SCALAR_MODULUS - 1) / 2) == ScalarRing().Neg(ScalarRing().one)
  {
    ReachesTo32();
    DivModUnique(SCALAR_MODULUS - 1, 2, EXPONENT_32, 0);
    assert NUMBER_32 == SCALAR_MODULUS - 1;
    MinusOne();
  }

  // ---------- the roots ----------

  lemma OddAndTwos()
    ensures SCALAR_MODULUS - 1 == ODD_PART * Exp2(TWO_POWER)
  {
    assert Exp2(14) == 0x4000;
    Exp2Add(14, 14);
  }

  /** Shifting n by no more twos than it has loses nothing. */
  lemma ShiftedExactly(n: nat, odd: nat, d: nat, s: nat)
    requires s <= d && n == odd * Exp2(d)
    ensures Shr(n, s) * Exp2(s) == n
  {
    Exp2Add(d - s, s);
    Rebracket(odd, Exp2(d - s), Exp2(s));
    DivModUnique(n, Exp2(s), odd * Exp2(d - s), 0);
    ShrIsDiv(n, s);
  }

  /** x^((q - 1) / 2^s) is a root of order 2^s when the half-order power of x is -1. */
  lemma PowerIsRoot<T(!new)>(R: Ring<T>, q: nat, x: T, odd: nat, d: nat, s: nat)
    requires R.Valid() && q % 2 == 1 && q - 1 == odd * Exp2(d) && 1 <= s <= d
    requires R.Pow(x, (q - 1) / 2) == R.Neg(R.one)
    ensures IsRoot(R, R.Pow(x, Shr(q - 1, s)), s)
  {
    ShiftedExactly(q - 1, odd, d, s);
    RootFromNonResidue(R, q, x, Shr(q - 1, s), s);
  }

  /** 5^((q - 1) / 2^s), the division being a shift, has order 2^s. */
  lemma TheRoot(s: nat)
    requires 1 <= s <= TWO_POWER
    ensures IsRoot(ScalarRing(), ScalarRing().Pow(ScalarOf(5), Shr(SCALAR_MODULUS - 1, s)), s)
  {
    FiveIsNonResidue();
    OddAndTwos();
    ModIs(SCALAR_MODULUS, 2, EXPONENT_32, 1);
    PowerIsRoot(ScalarRing(), SCALAR_MODULUS, ScalarOf(5), ODD_PART, TWO_POWER, s);
  }

  const HALF: nat := (SCALAR_MODULUS + 1) / 2

  lemma TheHalf()
    ensures ScalarRing().Mul(ScalarOf(HALF), Two(ScalarRing())) == ScalarRing().one
  {
    ScalarOne();
    ScalarSum(1, 1);
    ScalarProduct(HALF, 2);
    ScalarReduced(HALF * 2, 1, 1);
  }

  /** The tables for all transforms of up to 2^s scalars, on the power of 5 by (q - 1) / 2^s. Nothing is
      assumed of the field. */
  method ScalarFFT(s: nat, nSpan: nat) returns (f: FFT<ScalarElement>)
    requires 1 <= s <= TWO_POWER && nSpan > 0
    ensures f.Valid() && f.R == ScalarRing() && f.s == s
    ensures f.roots[1] == ScalarRing().Pow(ScalarOf(5), Shr(SCALAR_MODULUS - 1, s))
  {
    var R := ScalarRing();
    TheRoot(s);
    TheHalf();
    f := MakeTables(R, R.Pow(ScalarOf(5), Shr(SCALAR_MODULUS - 1, s)), ScalarOf(HALF), s, nSpan);
  }
}
