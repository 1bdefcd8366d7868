/** The raw operations of a prime field on four-limb arrays. The same code serves the base field and the
    scalar field; only the constants differ. */
module RawField {
  import opened Limbs
  import opened Modular
  import opened Montgomery

  /** The number in the four limbs of an element. */
  function Number(a: array<limb>): nat
    requires a.Length == 4
    reads a
  {
    Val(a[..4])
  }

  const BASE_MODULUS: nat := 0x3064_4E72_E131_A029_B850_45B6_8181_585D_9781_6A91_6871_CA8D_3C20_8C16_D87C_FD47
  const BASE_R_INVERSE: nat := 0x2E67_1571_59E5_C639_CF63_E9CF_B744_92D9_EB20_2285_0278_EDF8_ED84_884A_014A_FA37
  const BASE_R2: nat := 0x6D8_9F71_CAB8_351F_47AB_1EFF_0A41_7FF6_B5E7_1911_D445_01FB_F32C_FC5B_538A_FA89
  const BASE_R3: nat := 0x20FD_6E90_2D59_2544_EF7F_0B0C_0ADA_0AFB_62F2_10E6_A728_3DB6_B1CD_6DAF_DA15_30DF

  /** An inverse of R - 1: no number but zero is its own Montgomery form. */
  const BASE_GAP: nat := 0x345_8CBB_5594_BCD9_918E_DB20_C53C_7FD0_AC12_EB95_45B2_BEE2_6395_30F4_B1EA_35EC

  lemma BaseModulus()
    ensures Modulus(BASE_MODULUS, 0x87D2_0782_E486_6389, Place(4), BASE_R_INVERSE)
  {
    var q := BASE_MODULUS;
    FourPlaces();
    ModIs(q * 0x87D2_0782_E486_6389 + 1, BASE,
      0x19AC_9912_6B45_9DDA_29B6_7B05_EB29_A6A1_DB8E_D52F_824E_D32F_327D_7C1B_18F7_BD41, 0);
    ClearFrom(q, 0x87D2_0782_E486_6389);
    ModIs(Place(4) * BASE_R_INVERSE, q,
      0xF57A_22B7_9188_8C6B_D8AF_CBD0_1833_DA80_9EDE_7D65_1ECA_6AC9_87D2_0782_E486_6389, 1);
    UnitFrom(q, Place(4), BASE_R_INVERSE);
  }

  lemma BaseGap()
    ensures Unit(BASE_MODULUS, Place(4) - 1, BASE_GAP)
  {
    FourPlaces();
    ModIs((Place(4) - 1) * BASE_GAP, BASE_MODULUS,
      0x114E_C386_5BDC_16F5_B9C9_D0E0_6E3C_41AC_C53F_8DB6_CE8B_2E20_8322_69BA_173F_82D5, 1);
    UnitFrom(BASE_MODULUS, Place(4) - 1, BASE_GAP);
  }

  lemma BasePowers()
    ensures Powers(BASE_MODULUS, Place(4), BASE_R_INVERSE, BASE_R2, BASE_R3)
  {
    FourPlaces();
    var r := 0xE0A_77C1_9A07_DF2F_666E_A36F_7879_462C_0A78_EB28_F5C7_0B3D_D35D_438D_C58F_0D9D;
    ModIs(BASE_R2 * BASE_R_INVERSE, BASE_MODULUS,
      0x690_94C1_9128_570A_2309_6E87_90F9_63FC_68E8_5751_9477_65ED_E131_687F_D118_D29E, r);
    ModIs(Place(4), BASE_MODULUS, 0x5, r);
    ModIs(BASE_R3 * BASE_R_INVERSE, BASE_MODULUS,
      0x1FA2_480F_FCB6_4097_E253_A587_6CD9_A081_E900_EA9E_D5BC_A72A_5FAC_F365_85AF_89A0, BASE_R2);
    PowersFrom(BASE_MODULUS, Place(4), BASE_R_INVERSE, BASE_R2, BASE_R3);
  }

  const SCALAR_MODULUS: nat := 0x3064_4E72_E131_A029_B850_45B6_8181_585D_2833_E848_79B9_7091_43E1_F593_F000_0001
  const SCALAR_R_INVERSE: nat := 0x15EB_F951_82C5_551C_C826_0DE4_AEB8_5D5D_090E_F5A9_E111_EC87_DC5B_A005_6DB1_194E
  const SCALAR_R2: nat := 0x216_D0B1_7F4E_44A5_8C49_833D_53BB_8085_53FE_3AB1_E35C_59E3_1BB8_E645_AE21_6DA7
  const SCALAR_R3: nat := 0xCF8_594B_7FCC_657C_893C_C664_A19F_CFED_2A48_9CBE_1CFB_B6B8_5E94_D8E1_B4BF_0040

  /** An inverse of R - 1: no number but zero is its own Montgomery form. */
  const SCALAR_GAP: nat := 0xA59_106B_249C_E9F4_3045_EC54_2BB9_C863_72EC_32CD_D990_2F70_1238_4487_C916_DE77

  lemma ScalarModulus()
    ensures Modulus(SCALAR_MODULUS, 0xC2E1_F593_EFFF_FFFF, Place(4), SCALAR_R_INVERSE)
  {
    var q := SCALAR_MODULUS;
    FourPlaces();
    ModIs(q * 0xC2E1_F593_EFFF_FFFF + 1, BASE,
      0x24D6_BA07_F7AA_8F04_B2D8_F06F_77F5_2A93_CA47_8DBE_AB3C_92CD_2D3E_8053_E396_EE4D, 0);
    ClearFrom(q, 0xC2E1_F593_EFFF_FFFF);
    ModIs(Place(4) * SCALAR_R_INVERSE, q,
      0x73F8_2F1D_0D83_41B2_E39A_9828_9906_2391_6586_864B_4C69_11B3_C2E1_F593_EFFF_FFFF, 1);
    UnitFrom(q, Place(4), SCALAR_R_INVERSE);
  }

  lemma ScalarGap()
    ensures Unit(SCALAR_MODULUS, Place(4) - 1, SCALAR_GAP)
  {
    FourPlaces();
    ModIs((Place(4) - 1) * SCALAR_GAP, SCALAR_MODULUS,
      0x36BD_F260_2283_78C0_5E99_CAD5_5E59_F313_A5CA_50B9_A820_75D3_0CCF_C2F0_B6E9_2188, 1);
    UnitFrom(SCALAR_MODULUS, Place(4) - 1, SCALAR_GAP);
  }

  lemma ScalarPowers()
    ensures Powers(SCALAR_MODULUS, Place(4), SCALAR_R_INVERSE, SCALAR_R2, SCALAR_R3)
  {
    FourPlaces();
    var r := 0xE0A_77C1_9A07_DF2F_666E_A36F_7879_462E_36FC_7695_9F60_CD29_AC96_341C_4FFF_FFFB;
    ModIs(SCALAR_R2 * SCALAR_R_INVERSE, SCALAR_MODULUS,
      0xF2_463C_5525_F1F2_B7DD_E1F9_CF85_6C88_854C_BB7C_6734_A426_CDE3_3F22_5D5B_B7E7, r);
    ModIs(Place(4), SCALAR_MODULUS, 0x5, r);
    ModIs(SCALAR_R3 * SCALAR_R_INVERSE, SCALAR_MODULUS,
      0x5E0_2316_7CC2_DC8F_E916_B147_4B4C_7385_7254_17DC_59A7_ED58_B4FC_657A_0756_E5D9, SCALAR_R2);
    PowersFrom(SCALAR_MODULUS, Place(4), SCALAR_R_INVERSE, SCALAR_R2, SCALAR_R3);
  }

  lemma FourPlaces()
    ensures Place(4) == 0x1_0000_0000_0000_0000_0000_0000_0000_0000_0000_0000_0000_0000_0000_0000_0000_0000
  {
  }

  /** One subtraction of q from a number that has reached q. */
  function LessOnce(q: nat, w: nat): nat { if w < q then w else w - q }

  /** One addition of q to a number below zero, on numbers below p. */
  function MoreOnce(q: nat, p: nat, w: int): int { if w >= 0 then w else if w + q >= 0 then w + q else w + q + p }

  class Raw {
    /** The modulus, with a fifth limb of zero. */
    const q: array<limb>
    const np: limb
    const R2: array<limb>
    const R3: array<limb>
    const half: array<limb>
    ghost const Q: nat
    /** The Montgomery radix, its inverse modulo q, and an inverse of the radix less one. */
    ghost const R: nat
    ghost const rInv: nat
    ghost const gap: nat

    ghost predicate Sized()
      reads q, R2, R3, half
    {
      q.Length == 5 && R2.Length == R3.Length == half.Length == 4
    }

    /** What the constants hold, one fact for each k, so that a proof uses the one it names. */
    ghost predicate Holds(k: int)
      requires Sized()
      reads q, R2, R3, half
    {
      && (k == 0 ==> Val(q[..4]) == Q && Val(q[..5]) == Q)
      && (k == 1 ==> Q > 0 && Powers(Q, R, rInv, Number(R2), Number(R3)))
      && (k == 2 ==> 2 * Number(half) + 1 == Q)
      && (k == 3 ==> R == Place(4))
      && (k == 4 ==> R > 0 && Unit(Q, R - 1, gap))
    }

    ghost predicate Valid()
      reads q, R2, R3, half
    {
      Sized() && Modulus(Q, np, R, rInv) && forall k: int :: Holds(k)
    }

    lemma TheModulus()
      requires Valid()
      ensures Val(q[..4]) == Q && Val(q[..5]) == Q
    {
      assert Holds(0);
    }

    lemma ThePowers()
      requires Valid()
      ensures Powers(Q, R, rInv, Number(R2), Number(R3))
    {
      assert Holds(1);
    }

    lemma TheHalf()
      requires Valid()
      ensures 2 * Number(half) + 1 == Q
    {
      assert Holds(2);
    }

    lemma TheGap()
      requires Valid()
      ensures R > 0 && Unit(Q, R - 1, gap)
    {
      assert Holds(4);
    }

    lemma TheRadix()
      requires Valid()
      ensures R == Place(4)
    {
      assert Holds(3);
    }

    /** r is not one of the constants. */
    predicate Free(r: array<limb>) { r.Length == 4 && r != q && r != R2 && r != R3 && r != half }

    /** The constants of the base field of the curve. */
    constructor Base()
      ensures Valid() && Q == BASE_MODULUS && R == Place(4) && rInv == BASE_R_INVERSE
      ensures fresh(q) && fresh(R2) && fresh(R3) && fresh(half)
    {
      q := new limb[5] [0x3c208c16d87cfd47, 0x97816a916871ca8d, 0xb85045b68181585d, 0x30644e72e131a029, 0x0];
      np := 0x87d20782e4866389;
      R2 := new limb[4] [0xf32cfc5b538afa89, 0xb5e71911d44501fb, 0x47ab1eff0a417ff6, 0x6d89f71cab8351f];
      R3 := new limb[4] [0xb1cd6dafda1530df, 0x62f210e6a7283db6, 0xef7f0b0c0ada0afb, 0x20fd6e902d592544];
      half := new limb[4] [0x9e10460b6c3e7ea3, 0xcbc0b548b438e546, 0xdc2822db40c0ac2e, 0x183227397098d014];
      Q := BASE_MODULUS;
      R := Place(4);
      rInv := BASE_R_INVERSE;
      gap := BASE_GAP;
      new;
      BaseModulus(); BasePowers(); BaseGap();
      FourLimbs(q[..4]); FourLimbs(R2[..4]); FourLimbs(R3[..4]); FourLimbs(half[..4]);
      TopLimb(q, 0, Q, Q);
    }

    /** The constants of the scalar field of the curve. */
    constructor Scalar()
      ensures Valid() && Q == SCALAR_MODULUS && R == Place(4) && rInv == SCALAR_R_INVERSE
      ensures fresh(q) && fresh(R2) && fresh(R3) && fresh(half)
    {
      q := new limb[5] [0x43e1f593f0000001, 0x2833e84879b97091, 0xb85045b68181585d, 0x30644e72e131a029, 0x0];
      np := 0xc2e1f593efffffff;
      R2 := new limb[4] [0x1bb8e645ae216da7, 0x53fe3ab1e35c59e3, 0x8c49833d53bb8085, 0x216d0b17f4e44a5];
      R3 := new limb[4] [0x5e94d8e1b4bf0040, 0x2a489cbe1cfbb6b8, 0x893cc664a19fcfed, 0xcf8594b7fcc657c];
      half := new limb[4] [0xa1f0fac9f8000000, 0x9419f4243cdcb848, 0xdc2822db40c0ac2e, 0x183227397098d014];
      Q := SCALAR_MODULUS;
      R := Place(4);
      rInv := SCALAR_R_INVERSE;
      gap := SCALAR_GAP;
      new;
      ScalarModulus(); ScalarPowers(); ScalarGap();
      FourLimbs(q[..4]); FourLimbs(R2[..4]); FourLimbs(R3[..4]); FourLimbs(half[..4]);
      TopLimb(q, 0, Q, Q);
    }

    lemma SumStays(x: nat, y: nat)
      requires x < Q && y < Q
      ensures (x + y) % Q == if x + y < Q then x + y else x + y - Q
    {
      if x + y < Q { ModSmall(x + y, Q); } else { ModIs(x + y, Q, 1, x + y - Q); }
    }

    lemma DifferenceStays(x: nat, y: nat)
      requires x < Q && y < Q
      ensures (x - y) % Q == if x >= y then x - y else x - y + Q
    {
      if x >= y { ModSmall(x - y, Q); } else { ModIs(x - y, Q, -1, x - y + Q); }
    }

    lemma LimbBelow(b: nat)
      requires Modulus(Q, np, R, rInv) && b < BASE
      ensures b < Q
    {
      assert Place(4) == BASE * (BASE * (BASE * BASE));
    }

    /** w, which r and the carry hold, less q when it has reached q. The borrow is dropped. */
    method ReduceOnce(r: array<limb>, carry: limb, ghost w: nat)
      requires Valid() && Free(r) && carry <= 1 && Number(r) + Place(4) * carry == w && w < Place(4) + Q
      modifies r
      ensures Number(r) == LessOnce(Q, w)
    {
      ghost var v := Number(r);
      ValBound(r[..4]);
      CarryCases(Place(4), v, carry, w);
      TheModulus();
      var c := Cmp(r, q, 4);
      if carry != 0 || c >= 0 {
        var borrow := SubN(r, r, q, 4);
        ValBound(r[..4]);
        SettleCarry(Place(4), v, w, Q, carry, Number(r), borrow);
      }
    }

    lemma CarryCases(p: nat, v: nat, carry: nat, w: nat)
      requires v + p * carry == w && carry <= 1
      ensures w == if carry == 0 then v else v + p
    {
    }

    lemma SettleCarry(p: nat, v: nat, w: nat, q: nat, carry: nat, r: nat, borrow: nat)
      requires v + p * carry == w && r - p * borrow == v - q && carry <= 1 && borrow <= 1
      requires q <= w < p + q && r < p
      ensures r == w - q
    {
      CarryCases(p, v, carry, w);
      if borrow == 1 { assert p * borrow == p; }
    }

    lemma Settle(p: nat, w: nat, v: nat, borrow: nat)
      requires v - p * borrow == w && v < p
      ensures borrow == 0 && v == w
    {
      if borrow > 0 { LimbMono(1, borrow, p); }
    }

    /** The sum modulo q of operands below q; larger ones lose q at most once. */
    method RawAdd(r: array<limb>, a: array<limb>, b: array<limb>)
      requires Valid() && Free(r) && a.Length == b.Length == 4 && Number(a) + Number(b) < Place(4) + Q
      modifies r
      ensures Number(r) == LessOnce(Q, old(Number(a)) + old(Number(b)))
      ensures old(Number(a)) < Q && old(Number(b)) < Q ==> Number(r) == (old(Number(a)) + old(Number(b))) % Q
    {
      ghost var x, y := Number(a), Number(b);
      if x < Q && y < Q { SumStays(x, y); }
      var carry := AddN(r, a, b, 4);
      ReduceOnce(r, carry, x + y);
    }

    method RawAddLS(r: array<limb>, a: array<limb>, b: limb)
      requires Valid() && Free(r) && a.Length == 4 && Number(a) < Q
      modifies r
      ensures Number(r) == (old(Number(a)) + b) % Q
    {
      LimbBelow(b);
      SumStays(Number(a), b);
      ghost var w := Number(a) + b;
      var carry := Add1(r, a, 4, b);
      NoCarry(4, Number(r), carry, w);
      ReduceOnce(r, carry, w);
    }

    /** A difference that went below zero gets q added; the carry of that addition is dropped. */
    method AddBack(r: array<limb>, borrow: limb, ghost w: int)
      requires Valid() && Free(r) && borrow <= 1 && Number(r) - Place(4) * borrow == w
      modifies r
      ensures Number(r) == MoreOnce(Q, Place(4), w)
    {
      ghost var v := Number(r);
      ValBound(r[..4]);
      Borrowed(Place(4), v, borrow, w);
      if borrow != 0 {
        TheModulus();
        var carry := AddN(r, r, q, 4);
        ValBound(r[..4]);
        SettleBack(Place(4), w + Q, Number(r), carry);
      }
    }

    lemma Borrowed(p: nat, v: nat, borrow: nat, w: int)
      requires v - p * borrow == w && borrow <= 1 && v < p
      ensures if borrow == 0 then w == v else v == w + p && w < 0
    {
    }

    lemma SettleBack(p: nat, w: int, v: nat, carry: nat)
      requires v + p * carry == w + p && v < p && 0 - p as int <= w < p
      ensures v == if w >= 0 then w else w + p
    {
      if carry == 0 { assert p * carry == 0; }
      if carry == 1 { assert p * carry == p; }
      if carry > 1 { LimbMono(2, carry, p); }
    }

    /** The difference modulo q of operands below q; otherwise q is added at most once. */
    method RawSub(r: array<limb>, a: array<limb>, b: array<limb>)
      requires Valid() && Free(r) && a.Length == b.Length == 4
      modifies r
      ensures Number(r) == MoreOnce(Q, Place(4), old(Number(a)) - old(Number(b)))
      ensures old(Number(a)) < Q && old(Number(b)) < Q ==> Number(r) == (old(Number(a)) - old(Number(b))) % Q
    {
      ghost var x: int, y: int := Number(a), Number(b);
      if x < Q && y < Q { DifferenceStays(x, y); }
      var borrow := SubN(r, a, b, 4);
      AddBack(r, borrow, x - y);
    }

    method RawSubSL(r: array<limb>, a: limb, b: array<limb>)
      requires Valid() && Free(r) && b.Length == 4 && Number(b) < Q
      modifies r
      ensures Number(r) == (a - old(Number(b))) % Q
    {
      LimbBelow(a);
      var long := new limb[4](i => if i == 0 then a else 0);
      SingleLimb(long[..4]);
      DifferenceStays(a, Number(b));
      ghost var w := a as int - Number(b) as int;
      var borrow := SubN(r, long, b, 4);
      AddBack(r, borrow, w);
    }

    method RawSubLS(r: array<limb>, a: array<limb>, b: limb)
      requires Valid() && Free(r) && a.Length == 4 && Number(a) < Q
      modifies r
      ensures Number(r) == (old(Number(a)) - b) % Q
    {
      LimbBelow(b);
      DifferenceStays(Number(a), b);
      ghost var w := Number(a) as int - b as int;
      var borrow := Sub1(r, a, 4, b);
      AddBack(r, borrow, w);
    }

    method RawNeg(r: array<limb>, a: array<limb>)
      requires Valid() && Free(r) && a.Length == 4 && Number(a) < Q
      modifies r
      ensures Number(r) == (0 - old(Number(a))) % Q
    {
      DifferenceStays(0, Number(a));
      ghost var w := Q - Number(a);
      var zero := new limb[4](_ => 0);
      ZeroVal(zero[..4]);
      var c := Cmp(a, zero, 4);
      if c != 0 {
        TheModulus();
        var borrow := SubN(r, q, a, 4);
        ValBound(r[..4]);
        Settle(Place(4), w, Number(r), borrow);
      } else {
        CopyFrom(r, zero, 0, 4);
        assert zero[0..4] == zero[..4];
      }
    }

    /** The negated sum of a long and a short operand. Two zero operands leave q itself, which is not
        below q. When r is a, which is read after r is first written, the result is zero. */
    method RawNegLS(r: array<limb>, a: array<limb>, b: limb)
      requires Valid() && Free(r) && a.Length == 4 && Number(a) < Q
      modifies r
      ensures Number(r) == if r == a then 0 else if Number(a) == 0 && b == 0 then Q else (0 - Number(a) - b) % Q
    {
      LimbBelow(b);
      ghost var v: nat, w: int := Number(a), Q - b as int - Number(a) as int;
      NegatedSum(v, b);
      TheModulus();
      var carry1 := Sub1(r, q, 4, b);
      ValBound(r[..4]);
      Settle(Place(4), Q - b, Number(r), carry1);
      if r == a { w := 0; }
      var carry2 := SubN(r, r, a, 4);
      ValBound(r[..4]);
      Borrowed(Place(4), Number(r), carry2, w);
      if carry1 != 0 || carry2 != 0 {
        AddBack(r, carry2, w);
      }
    }

    lemma NegatedSum(v: nat, b: nat)
      requires v < Q && b < Q
      ensures var w: int := Q - b as int - v as int;
              if v == 0 && b == 0 then w == Q else (0 - v - b) % Q == if w < 0 then w + Q else w
    {
      if v + b > Q { ModIs(0 - v - b, Q, -2, 2 * Q - v - b); }
      else if v + b > 0 { ModIs(0 - v - b, Q, -1, Q - v - b); }
    }

    /** A signed 64-bit number as an element. */
    method RawCopyS2L(r: array<limb>, val: int)
      requires Valid() && Free(r) && -0x8000_0000_0000_0000 <= val < 0x8000_0000_0000_0000
      modifies r
      ensures Number(r) == val % Q
    {
      r[0] := val % BASE;
      r[1], r[2], r[3] := 0, 0, 0;
      if val < 0 {
        LimbBelow(0 - val);
        ModIs(val, Q, -1, val + Q);
        r[1], r[2], r[3] := BASE - 1, BASE - 1, BASE - 1;
        ModIs(val, BASE, -1, val + BASE);
        Sign(r[..4], val);
        TheModulus();
        var carry := AddN(r, r, q, 4);
        ValBound(r[..4]);
        SettleBack(Place(4), val + Q, Number(r), carry);
      } else {
        LimbBelow(val);
        ModSmall(val, Q); ModSmall(val, BASE);
        SingleLimb(r[..4]);
      }
    }

    // ---------- Montgomery multiplication ----------

    /** Adds the multiple of q that clears the low limb. The carry is always zero. */
    method ClearLow(p: array<limb>) returns (carry: limb, ghost n: nat)
      requires Valid() && p.Length == 5 && p != q && p != R2 && p != R3 && p != half
      requires Small(Q, Val(p[..5]))
      modifies p
      ensures carry == 0 && Val(p[1..5]) < 2 * Q
      ensures BASE * Val(p[1..5]) == Val(old(p[..5])) + Q * n
    {
      ghost var v := Val(p[..5]);
      var np0 := np * p[0] % BASE;
      n := np0;
      SmallFits(Q, v, np0);
      assert p[..5][0] == p[0];
      ghost var k := LowLimbClears(Q, np, v, p[0], Val(p[..5][1..]), n);
      TheModulus();
      carry := AddMul1(p, q, 5, np0);
      assert Val(p[..5]) + Place(5) * carry == v + Q * n;
      NoCarry(5, Val(p[..5]), carry, v + Q * n);
      LowIsZero(p[..5], k);
      assert p[..5][1..] == p[1..5];
    }

    lemma LowIsZero(s: seq<limb>, k: int)
      requires |s| == 5 && Val(s) == BASE * k
      ensures Val(s) == BASE * Val(s[1..])
    {
      ModIs(Val(s), BASE, Val(s[1..]), s[0]);
      ModIs(Val(s), BASE, k, 0);
    }

    /** next := b * x + prev / 2^64, where the low limb of prev is zero. carry, always zero, has been stored
        in limb 1 of next before. */
    method NextRow(next: array<limb>, b: array<limb>, x: limb, prev: array<limb>, carry: limb)
      requires Valid() && next.Length == 5 && prev.Length == 5 && b.Length == 4 && next != prev && next != b
      requires next != q && next != R2 && next != R3 && next != half
      requires carry == 0 && forall k | 0 <= k < 5 :: next[k] == 0
      requires Number(b) < Q && Val(prev[1..5]) < 2 * Q
      modifies next
      ensures Val(next[..5]) == Number(b) * x + Val(prev[1..5]) && Small(Q, Val(next[..5]))
    {
      next[1] := carry;
      ZeroVal(next[..4]);
      ghost var w := Product(Number(b), x);
      ghost var t := Val(prev[1..5]);
      RowIsSmall(Q, Number(b), x, t);
      SmallFits(Q, w + t, 0);
      var top := AddMul1(next, b, 4, x);
      ghost var low := Val(next[..4]);
      assert low + Place(4) * top == w;
      next[4] := top;
      TopLimb(next, top, low, w);
      var dropped := AddShorter(next, 5, prev, 1, 4);
      NoCarry(5, Val(next[..5]), dropped, w + t);
    }

    /** r := the four high limbs, less q if they have reached it. */
    method Finish(r: array<limb>, p: array<limb>)
      requires Valid() && Free(r) && p.Length == 5 && p != r && Val(p[1..5]) < 2 * Q
      modifies r
      ensures Number(r) < Q && (Number(r) == Val(p[1..5]) || Number(r) + Q == Val(p[1..5]))
    {
      CopyFrom(r, p, 1, 4);
      assert p[1..1 + 4] == p[1..5];
      assert Place(4) * 0 == 0;
      ReduceOnce(r, 0, Number(r));
    }

    /** r := a * b / R modulo q. Only b has to be below q; r may be a or b. */
    method RawMMul(r: array<limb>, a: array<limb>, b: array<limb>)
      requires Valid() && Free(r) && a.Length == b.Length == 4 && Number(b) < Q
      modifies r
      ensures Number(r) == MontMul(Q, rInv, old(Number(a)), old(Number(b)))
    {
      ghost var x, y := Number(a), Number(b);
      var product3, n := Rows(a, b);
      Finish(r, product3);
      TheRadix();
      Divided(Q, R, rInv, y * x, n, Val(product3[1..5]), Number(r));
      assert y * x == x * y;
    }

    /** The four rows of the product, each reduced before the next. */
    method Rows(a: array<limb>, b: array<limb>) returns (product3: array<limb>, ghost n: nat)
      requires Valid() && a.Length == b.Length == 4 && Number(b) < Q
      ensures fresh(product3) && product3.Length == 5 && Val(product3[1..5]) < 2 * Q
      ensures Place(4) * Val(product3[1..5]) == Number(b) * Number(a) + Q * n
    {
      var product0 := new limb[5](_ => 0);
      var product1 := new limb[5](_ => 0);
      var product2 := new limb[5](_ => 0);
      product3 := new limb[5](_ => 0);
      ghost var n0, n1, n2, n3;
      var carry;

      FirstRow(product0, b, a[0]);
      carry, n0 := ClearLow(product0);
      ghost var t0 := Val(product0[1..5]);
      carry, n1 := Row(product1, b, a[1], product0, carry);
      ghost var t1 := Val(product1[1..5]);
      carry, n2 := Row(product2, b, a[2], product1, carry);
      ghost var t2 := Val(product2[1..5]);
      carry, n3 := Row(product3, b, a[3], product2, carry);
      n := FourRows(Q, Number(b), a[..4], t0, t1, t2, Val(product3[1..5]), n0, n1, n2, n3);
    }

    /** One row and its reduction. */
    method Row(next: array<limb>, b: array<limb>, x: limb, prev: array<limb>, carry: limb)
      returns (out: limb, ghost n: nat)
      requires Valid() && next.Length == 5 && prev.Length == 5 && b.Length == 4 && next != prev && next != b
      requires next != q && next != R2 && next != R3 && next != half
      requires carry == 0 && forall k | 0 <= k < 5 :: next[k] == 0
      requires Number(b) < Q && Val(prev[1..5]) < 2 * Q
      modifies next
      ensures out == 0 && Val(next[1..5]) < 2 * Q
      ensures BASE * Val(next[1..5]) == Number(b) * x + Val(prev[1..5]) + Q * n
    {
      NextRow(next, b, x, prev, carry);
      out, n := ClearLow(next);
    }

    /** p := b * x. */
    method FirstRow(p: array<limb>, b: array<limb>, x: limb)
      requires Valid() && p.Length == 5 && b.Length == 4 && p != b && Number(b) < Q
      requires p != q && p != R2 && p != R3 && p != half
      modifies p
      ensures Val(p[..5]) == Number(b) * x && Small(Q, Val(p[..5]))
    {
      RowIsSmall(Q, Number(b), x, 0);
      ghost var w := Product(Number(b), x);
      var top := Mul1(p, b, 4, x);
      ghost var low := Val(p[..4]);
      assert low + Place(4) * top == w;
      p[4] := top;
      TopLimb(p, top, low, w);
    }

    /** next := prev / 2^64, where the low limb of prev is zero, and its reduction. */
    method Shift(next: array<limb>, prev: array<limb>, carry: limb) returns (out: limb, ghost n: nat)
      requires Valid() && next.Length == 5 && prev.Length == 5 && next != prev
      requires next != q && next != R2 && next != R3 && next != half
      requires carry == 0 && forall k | 0 <= k < 5 :: next[k] == 0
      requires Val(prev[1..5]) < 2 * Q
      modifies next
      ensures out == 0 && Val(next[1..5]) < 2 * Q
      ensures BASE * Val(next[1..5]) == Val(prev[1..5]) + Q * n
    {
      next[1] := carry;
      ZeroVal(next[..5]);
      ghost var t := Val(prev[1..5]);
      assert Small(Q, t);
      SmallFits(Q, t, 0);
      var dropped := AddShorter(next, 5, prev, 1, 4);
      NoCarry(5, Val(next[..5]), dropped, t);
      out, n := ClearLow(next);
    }

    /** Four reductions of one number below q * (2^64 + 1). */
    method Shifts(product0: array<limb>) returns (product3: array<limb>, ghost n: nat)
      requires Valid() && product0.Length == 5 && product0 != q && product0 != R2 && product0 != R3 && product0 != half
      requires Small(Q, Val(product0[..5]))
      modifies product0
      ensures fresh(product3) && product3.Length == 5 && Val(product3[1..5]) < 2 * Q
      ensures Place(4) * Val(product3[1..5]) == Val(old(product0[..5])) + Q * n
    {
      var product1 := new limb[5](_ => 0);
      var product2 := new limb[5](_ => 0);
      product3 := new limb[5](_ => 0);
      ghost var n0, n1, n2, n3;
      ghost var v := Val(product0[..5]);
      var carry;
      carry, n0 := ClearLow(product0);
      ghost var t0 := Val(product0[1..5]);
      carry, n1 := Shift(product1, product0, carry);
      ghost var t1 := Val(product1[1..5]);
      carry, n2 := Shift(product2, product1, carry);
      ghost var t2 := Val(product2[1..5]);
      carry, n3 := Shift(product3, product2, carry);
      n := FourShifts(Q, v, t0, t1, t2, Val(product3[1..5]), n0, n1, n2, n3);
    }

    /** r := a * b / R modulo q with a single limb b. */
    method RawMMul1(r: array<limb>, a: array<limb>, b: limb)
      requires Valid() && Free(r) && a.Length == 4 && Number(a) < Q
      modifies r
      ensures Number(r) == MontMul(Q, rInv, old(Number(a)), b)
    {
      ghost var x := Product(Number(a), b);
      var product0 := new limb[5](_ => 0);
      FirstRow(product0, a, b);
      var product3, n := Shifts(product0);
      Finish(r, product3);
      TheRadix();
      Divided(Q, R, rInv, x, n, Val(product3[1..5]), Number(r));
    }

    /** r := a / R modulo q, for any four limbs. */
    method RawFromMontgomery(r: array<limb>, a: array<limb>)
      requires Valid() && Free(r) && a.Length == 4
      modifies r
      ensures Number(r) == MontMul(Q, rInv, old(Number(a)), 1)
    {
      ghost var x := Number(a);
      ValBound(a[..4]);
      assert Small(Q, x);
      var product0 := new limb[5](_ => 0);
      CopyFrom(product0, a, 0, 4);
      product0[4] := 0;
      assert product0[..4] == a[0..4] == a[..4];
      assert Place(4) * 0 == 0;
      TopLimb(product0, 0, x, x);
      var product3, n := Shifts(product0);
      Finish(r, product3);
      TheRadix();
      Divided(Q, R, rInv, x, n, Val(product3[1..5]), Number(r));
    }

    /** r := a * R modulo q. */
    method RawToMontgomery(r: array<limb>, a: array<limb>)
      requires Valid() && Free(r) && a.Length == 4
      modifies r
      ensures Number(r) == old(Number(a)) * R % Q
    {
      ghost var x := Number(a);
      ThePowers();
      assert SquareLaw(Q, R, rInv, Number(R2), x);
      RawMMul(r, a, R2);
    }

    /** r := the Montgomery inverse of the element a, from an inverse of its number modulo q; invert stands
        for mpz_invert. */
    method RawInv(r: array<limb>, a: array<limb>, invert: nat -> nat)
      requires Valid() && Free(r) && a.Length == 4 && Inverts(Q, invert)
      modifies r
      ensures var x := old(Number(a)); Invertible(Q, x) ==> MontMul(Q, rInv, x, Number(r)) == R % Q
    {
      ghost var x := Number(a);
      assert InverseOf(Q, invert, x);
      var mr := invert(Number(a));
      r[0], r[1], r[2], r[3] := 0, 0, 0, 0;
      Export(r, mr);
      ThePowers();
      if Invertible(Q, x) {
        InverseThroughR3(Q, R, rInv, x, mr, Number(R2), Number(R3));
      }
      RawMMul(r, r, R3);
    }
  }

  ghost predicate Invertible(q: nat, x: int) { q > 1 && exists y: int :: TimesIsOne(q, x, y) }

  ghost predicate TimesIsOne(q: nat, x: int, y: int)
    requires q > 1
  {
    x * y % q == 1
  }

  /** What is promised of the modular inverse: an inverse where there is one, and four limbs in any case. */
  ghost predicate InverseOf(q: nat, invert: nat -> nat, x: nat) {
    invert(x) < Place(4) && (Invertible(q, x) ==> TimesIsOne(q, x, invert(x)))
  }

  ghost predicate Inverts(q: nat, invert: nat -> nat) { forall x: nat :: InverseOf(q, invert, x) }

  lemma RoomLeft(i: nat, low: nat, m: nat, v: nat)
    requires i <= 4 && low + Place(i) * m == v && v < Place(4) && m > 0
    ensures i < 4
  {
    LimbMono(1, m, Place(i));
  }

  /** The limbs of a number, written over zeros as mpz_export does: none above its highest. */
  method Export(r: array<limb>, v: nat)
    requires r.Length == 4 && v < Place(4) && forall k | 0 <= k < 4 :: r[k] == 0
    modifies r
    ensures Number(r) == v
  {
    var m: nat, i := v, 0;
    ZeroVal(r[..0]);
    while m > 0
      invariant 0 <= i <= 4 && (forall k | i <= k < 4 :: r[k] == 0)
      invariant Val(r[..i]) + Place(i) * m == v
      decreases m
    {
      RoomLeft(i, Val(r[..i]), m, v);
      ghost var low := r[..i];
      r[i] := m % BASE;
      ValNext(r[..], i);
      assert r[..][..i] == low && r[..][..i + 1] == r[..i + 1];
      PlaceNext(i, m / BASE);
      SpreadSum(Place(i), m % BASE, BASE * (m / BASE));
      m := m / BASE;
      i := i + 1;
    }
    ZeroVal(r[i..4]);
    ValConcat(r[..i], r[i..4]);
    assert r[..4] == r[..i] + r[i..4];
  }

  lemma FourShifts(q: nat, v: nat, t0: nat, t1: nat, t2: nat, t3: nat, n0: nat, n1: nat, n2: nat, n3: nat)
    returns (n: nat)
    requires BASE * t0 == v + q * n0 && BASE * t1 == t0 + q * n1 && BASE * t2 == t1 + q * n2 && BASE * t3 == t2 + q * n3
    ensures Place(4) * t3 == v + q * n
  {
    OneMore(q, 1, Place(0), 0, 0, 0, v, t0, n0);
    OneMore(q, 1, Place(1), v, t0, n0, 0, t1, n1);
    var m1 := n0 + Place(1) * n1;
    OneMore(q, 1, Place(2), v, t1, m1, 0, t2, n2);
    var m2 := m1 + Place(2) * n2;
    OneMore(q, 1, Place(3), v, t2, m2, 0, t3, n3);
    n := m2 + Place(3) * n3;
  }

  lemma TopLimb(p: array<limb>, top: limb, low: nat, w: nat)
    requires p.Length == 5 && low == Val(p[..4]) && top == p[4] && low + Place(4) * top == w
    ensures Val(p[..5]) == w
  {
    ValNext(p[..5], 4);
    assert p[..5][..4] == p[..4] && p[..5][..5] == p[..5];
  }

  lemma Product(x: nat, y: nat) returns (w: nat)
    ensures w == x * y
  {
    LimbMono(0, x, y);
    w := x * y;
  }

  lemma FourRows(q: nat, b: nat, a: seq<limb>, t0: nat, t1: nat, t2: nat, t3: nat,
                 n0: nat, n1: nat, n2: nat, n3: nat)
    returns (n: nat)
    requires |a| == 4
    requires BASE * t0 == b * a[0] + q * n0 && BASE * t1 == b * a[1] + t0 + q * n1
    requires BASE * t2 == b * a[2] + t1 + q * n2 && BASE * t3 == b * a[3] + t2 + q * n3
    ensures Place(4) * t3 == b * Val(a) + q * n
  {
    assert a[..4] == a && a[..0] == [];
    ValNext(a, 0); ValNext(a, 1); ValNext(a, 2); ValNext(a, 3);
    OneMore(q, b, Place(0), 0, 0, 0, a[0], t0, n0);
    OneMore(q, b, Place(1), Val(a[..1]), t0, n0, a[1], t1, n1);
    var m1 := n0 + Place(1) * n1;
    OneMore(q, b, Place(2), Val(a[..2]), t1, m1, a[2], t2, n2);
    var m2 := m1 + Place(2) * n2;
    OneMore(q, b, Place(3), Val(a[..3]), t2, m2, a[3], t3, n3);
    n := m2 + Place(3) * n3;
  }

  lemma FourLimbs(s: seq<limb>)
    requires |s| == 4
    ensures Val(s) == s[0] + BASE * (s[1] + BASE * (s[2] + BASE * s[3]))
  {
    assert s[1..][1..] == s[2..] && s[2..][1..] == s[3..] && s[3..][1..] == [];
    assert Val(s[3..]) == s[3] && Val(s[2..]) == s[2] + BASE * Val(s[3..]);
    assert Val(s[1..]) == s[1] + BASE * Val(s[2..]);
  }

  lemma SingleLimb(s: seq<limb>)
    requires |s| == 4 && s[1] == s[2] == s[3] == 0
    ensures Val(s) == s[0]
  {
    FourLimbs(s);
  }

  /** Sign extension to 256 bits. */
  lemma Sign(s: seq<limb>, val: int)
    requires |s| == 4 && 0 - BASE as int <= val < 0 && s[0] == val + BASE && s[1] == s[2] == s[3] == BASE - 1
    ensures Val(s) == val + Place(4)
  {
    FourLimbs(s);
    assert Place(4) == BASE * (BASE * (BASE * BASE));
  }
}
