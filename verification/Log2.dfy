/** The position of the top bit of a 32-bit word, by smearing it down and looking the result up. */
module Log2 {
  import opened Bits

  const TAB32: seq<nat> := [
    0, 9, 1, 10, 13, 21, 2, 29, 11, 14, 16, 18, 22, 25, 3, 30,
    8, 12, 20, 28, 15, 17, 24, 7, 19, 27, 23, 6, 26, 5, 4, 31]

  function Smear(x: nat, s: nat): nat { Or(x, Shr(x, s)) }

  function Log2(value: nat): nat
    requires value < 0x1_0000_0000
  {
    TAB32[Index(SmearDown(value))]
  }

  function SmearDown(value: nat): nat { Smear(Smear(Smear(Smear(Smear(value, 1), 2), 4), 8), 16) }

  /** The top five bits of the 32-bit product with the magic factor. */
  function Index(v: nat): (r: nat)
    ensures r < 32
  {
    v * 0x07C4ACDD % 0x1_0000_0000 / 0x800_0000
  }

  /** Some bit of x from k on, below k + w, is set. */
  predicate AnyBit(x: nat, k: nat, w: nat)
    decreases w
  {
    w > 0 && (Bit(x, k) || AnyBit(x, k + 1, w - 1))
  }

  lemma {:induction false} AnySplit(x: nat, k: nat, v: nat, w: nat)
    ensures AnyBit(x, k, v + w) == (AnyBit(x, k, v) || AnyBit(x, k + v, w))
    decreases v
  {
    if v > 0 { AnySplit(x, k + 1, v - 1, w); }
  }

  /** y has bit k set where x has a bit among the w from k on. */
  ghost predicate Smeared(x: nat, y: nat, w: nat) { forall k: nat :: Bit(y, k) == AnyBit(x, k, w) }

  lemma SmearStep(x: nat, y: nat, w: nat)
    requires Smeared(x, y, w)
    ensures Smeared(x, Smear(y, w), w + w)
  {
    forall k: nat
      ensures Bit(Smear(y, w), k) == AnyBit(x, k, w + w)
    {
      BitOr(y, Shr(y, w), k);
      BitShr(y, w, k);
      AnySplit(x, k, w, w);
    }
  }

  lemma {:induction false} AnyTop(x: nat, t: nat, k: nat, w: nat)
    requires Bit(x, t) && x < Exp2(t + 1)
    ensures AnyBit(x, k, w) == (k <= t < k + w) || (k <= t && AnyBit(x, k, w))
    ensures k <= t < k + w ==> AnyBit(x, k, w)
    ensures k > t ==> !AnyBit(x, k, w)
    decreases w
  {
    if k > t { BitBeyond(x, t + 1, k); }
    if w > 0 { AnyTop(x, t, k + 1, w - 1); }
  }

  lemma {:induction false} TopBit(x: nat, t: nat)
    requires Exp2(t) <= x < Exp2(t + 1)
    ensures Bit(x, t)
  {
    if t > 0 { TopBit(x / 2, t - 1); }
  }

  lemma SmearBound(x: nat, s: nat)
    requires x < Exp2(32)
    ensures Smear(x, s) < Exp2(32)
  {
    ShrBound(x, s);
    OrBound(x, Shr(x, s), 32);
  }

  lemma SmearMore(x: nat, y: nat, w: nat, z: nat)
    requires Smeared(x, y, w) && y < Exp2(32) && z == Smear(y, w)
    ensures Smeared(x, z, w + w) && z < Exp2(32)
  {
    SmearStep(x, y, w);
    SmearBound(y, w);
  }

  lemma FullySmeared(x: nat, y: nat, t: nat)
    requires t < 32 && Exp2(t) <= x < Exp2(t + 1) && Smeared(x, y, 32) && y < Exp2(32)
    ensures y == Exp2(t + 1) - 1
  {
    Exp2Mono(t + 1, 32);
    TopBit(x, t);
    forall k: nat | k < 32
      ensures Bit(y, k) == Bit(Exp2(t + 1) - 1, k)
    {
      AnyTop(x, t, k, 32);
      BitOfOnes(t + 1, k);
    }
    BitsEqual(y, Exp2(t + 1) - 1, 32);
  }

  lemma SmearZero(x: nat)
    ensures Smeared(x, x, 1)
  {
    forall k: nat
      ensures Bit(x, k) == AnyBit(x, k, 1)
    {
      assert AnyBit(x, k, 1) == (Bit(x, k) || AnyBit(x, k + 1, 0));
    }
  }

  /** Five smears leave ones from the top bit down. */
  lemma SmearAll(x: nat, t: nat)
    requires t < 32 && Exp2(t) <= x < Exp2(t + 1)
    ensures SmearDown(x) == Exp2(t + 1) - 1
  {
    Exp2Mono(t + 1, 32);
    SmearZero(x);
    var x1 := Smear(x, 1);
    var x2 := Smear(x1, 2);
    var x4 := Smear(x2, 4);
    var x8 := Smear(x4, 8);
    SmearMore(x, x, 1, x1); SmearMore(x, x1, 2, x2); SmearMore(x, x2, 4, x4);
    SmearMore(x, x4, 8, x8); SmearMore(x, x8, 16, Smear(x8, 16));
    FullySmeared(x, SmearDown(x), t);
  }

  /** The word finds its way to entry i. */
  lemma Lands(v: nat, q: nat, i: nat, r: nat)
    requires v * 0x07C4ACDD == q * 0x1_0000_0000 + i * 0x800_0000 + r && i < 32 && r < 0x800_0000
    ensures Index(v) == i
  {
    DivModUnique(v * 0x07C4ACDD, 0x1_0000_0000, q, i * 0x800_0000 + r);
    DivModUnique(i * 0x800_0000 + r, 0x800_0000, i, r);
  }

  lemma Table0()
    ensures TAB32[Index(0x1)] == 0 && TAB32[Index(0x3)] == 1
    ensures TAB32[Index(0x7)] == 2 && TAB32[Index(0xF)] == 3
  {
    Lands(0x1, 0x0, 0, 0x7C4ACDD);
    Lands(0x3, 0x0, 2, 0x74E0697);
    Lands(0x7, 0x0, 6, 0x660BA0B);
    Lands(0xF, 0x0, 14, 0x48620F3);
  }

  lemma Table1()
    ensures TAB32[Index(0x1F)] == 4 && TAB32[Index(0x3F)] == 5
    ensures TAB32[Index(0x7F)] == 6 && TAB32[Index(0xFF)] == 7
  {
    Lands(0x1F, 0x0, 30, 0xD0EEC3);
    Lands(0x3F, 0x1, 29, 0x1668A63);
    Lands(0x7F, 0x3, 27, 0x291C1A3);
    Lands(0xFF, 0x7, 23, 0x4E83023);
  }

  lemma Table2()
    ensures TAB32[Index(0x1FF)] == 8 && TAB32[Index(0x3FF)] == 9
    ensures TAB32[Index(0x7FF)] == 10 && TAB32[Index(0xFFF)] == 11
  {
    Lands(0x1FF, 0xF, 16, 0x1950D23);
    Lands(0x3FF, 0x1F, 1, 0x2EEC723);
    Lands(0x7FF, 0x3E, 3, 0x5A23B23);
    Lands(0xFFF, 0x7C, 8, 0x3092323);
  }

  lemma Table3()
    ensures TAB32[Index(0x1FFF)] == 12 && TAB32[Index(0x3FFF)] == 13
    ensures TAB32[Index(0x7FFF)] == 14 && TAB32[Index(0xFFFF)] == 15
  {
    Lands(0x1FFF, 0xF8, 17, 0x5D6F323);
    Lands(0x3FFF, 0x1F1, 4, 0x3729323);
    Lands(0x7FFF, 0x3E2, 9, 0x6A9D323);
    Lands(0xFFFF, 0x7C4, 20, 0x5185323);
  }

  lemma Table4()
    ensures TAB32[Index(0x1FFFF)] == 16 && TAB32[Index(0x3FFFF)] == 17
    ensures TAB32[Index(0x7FFFF)] == 18 && TAB32[Index(0xFFFFF)] == 19
  {
    Lands(0x1FFFF, 0xF89, 10, 0x1F55323);
    Lands(0x3FFFF, 0x1F12, 21, 0x3AF5323);
    Lands(0x7FFFF, 0x3E25, 11, 0x7235323);
    Lands(0xFFFFF, 0x7C4A, 24, 0x60B5323);
  }

  lemma Table5()
    ensures TAB32[Index(0x1FFFFF)] == 20 && TAB32[Index(0x3FFFFF)] == 21
    ensures TAB32[Index(0x7FFFFF)] == 22 && TAB32[Index(0xFFFFFF)] == 23
  {
    Lands(0x1FFFFF, 0xF895, 18, 0x3DB5323);
    Lands(0x3FFFFF, 0x1F12B, 5, 0x77B5323);
    Lands(0x7FFFFF, 0x3E256, 12, 0x6BB5323);
    Lands(0xFFFFFF, 0x7C4AC, 26, 0x53B5323);
  }

  lemma Table6()
    ensures TAB32[Index(0x1FFFFFF)] == 24 && TAB32[Index(0x3FFFFFF)] == 25
    ensures TAB32[Index(0x7FFFFFF)] == 26 && TAB32[Index(0xFFFFFFF)] == 27
  {
    Lands(0x1FFFFFF, 0xF8959, 22, 0x23B5323);
    Lands(0x3FFFFFF, 0x1F12B3, 13, 0x43B5323);
    Lands(0x7FFFFFF, 0x3E2566, 28, 0x3B5323);
    Lands(0xFFFFFFF, 0x7C4ACD, 25, 0x3B5323);
  }

  lemma Table7()
    ensures TAB32[Index(0x1FFFFFFF)] == 28 && TAB32[Index(0x3FFFFFFF)] == 29
    ensures TAB32[Index(0x7FFFFFFF)] == 30 && TAB32[Index(0xFFFFFFFF)] == 31
  {
    Lands(0x1FFFFFFF, 0xF8959B, 19, 0x3B5323);
    Lands(0x3FFFFFFF, 0x1F12B37, 7, 0x3B5323);
    Lands(0x7FFFFFFF, 0x3E2566E, 15, 0x3B5323);
    Lands(0xFFFFFFFF, 0x7C4ACDC, 31, 0x3B5323);
  }

  /** 2^(t+1) - 1. */
  function Ones(t: nat): nat { if t == 0 then 1 else 2 * Ones(t - 1) + 1 }

  lemma {:induction false} OnesValue(t: nat)
    ensures Ones(t) == Exp2(t + 1) - 1
  {
    if t > 0 { OnesValue(t - 1); }
  }

  lemma OnesFrom(t: nat, v: nat)
    requires Ones(t) == v
    ensures Ones(t + 1) == 2 * v + 1 && Ones(t + 2) == 4 * v + 3 && Ones(t + 3) == 8 * v + 7 &&
            Ones(t + 4) == 16 * v + 15
  {
  }

  lemma TableAt(t: nat)
    requires t < 32
    ensures TAB32[Index(Ones(t))] == t
  {
    assert Ones(0) == 1;
    OnesFrom(0, 0x1);
    OnesFrom(4, 0x1F);
    OnesFrom(8, 0x1FF);
    OnesFrom(12, 0x1FFF);
    OnesFrom(16, 0x1FFFF);
    OnesFrom(20, 0x1FFFFF);
    OnesFrom(24, 0x1FFFFFF);
    OnesFrom(28, 0x1FFF_FFFF);
    Table0(); Table1(); Table2(); Table3(); Table4(); Table5(); Table6(); Table7();
  }

  lemma TableFor(ones: nat, t: nat)
    requires t < 32 && ones == Exp2(t + 1) - 1
    ensures TAB32[Index(ones)] == t
  {
    OnesValue(t);
    TableAt(t);
  }

  /** The result is the floor of the binary logarithm, and 0 for 0. */
  lemma Log2IsFloor(value: nat, t: nat)
    requires t < 32 && Exp2(t) <= value < Exp2(t + 1) && value < 0x1_0000_0000
    ensures Log2(value) == t
  {
    SmearAll(value, t);
    TableFor(SmearDown(value), t);
  }

  lemma Log2OfZero()
    ensures Log2(0) == 0
  {
    assert Smear(0, 1) == 0 && Smear(0, 2) == 0 && Smear(0, 4) == 0;
    ShrBound(0, 8); ShrBound(0, 16);
    assert Or(0, 0) == 0;
  }
}
