/** The masked swap network that reverses the low bits of an index. */
module BitReversal {
  import opened Bits

  /** Exchanges neighbouring blocks of h bits. */
  function SwapBlocks(x: nat, high: nat, low: nat, h: nat): nat {
    Or(Shr(And(x, high), h), Shl(And(x, low), h))
  }

  /** The masked levels, for blocks of 8, 4, 2 and 1 bits. */
  function Levels(x: nat): nat {
    var x := SwapBlocks(x, 0xFF00FF00, 0x00FF00FF, 8);
    var x := SwapBlocks(x, 0xF0F0F0F0, 0x0F0F0F0F, 4);
    var x := SwapBlocks(x, 0xCCCCCCCC, 0x33333333, 2);
    SwapBlocks(x, 0xAAAAAAAA, 0x55555555, 1)
  }

  function Reverse32(x: nat): nat {
    Levels(Or(Shr(x, 16), Shl(x, 16)))
  }

  function BR(x: nat, domainPow: nat): nat
    requires domainPow <= 32
  {
    Shr(Reverse32(x), 32 - domainPow)
  }

  /** The d low bits of i in reverse order: what BR is for. */
  function Rev(d: nat, i: nat): (r: nat)
    ensures r < Exp2(d)
  {
    if d == 0 then 0 else (if i % 2 == 1 then Exp2(d - 1) else 0) + Rev(d - 1, i / 2)
  }

  // ---------- the masks ----------

  /** k lies in the upper block of its pair of h-bit blocks. */
  predicate Upper(h: nat, k: nat)
    requires h > 0
  {
    h <= k && (k < 2 * h || Upper(h, k - 2 * h))
  }

  /** len is a whole number of pairs of h-bit blocks. */
  predicate Paired(h: nat, len: nat)
    requires h > 0
  {
    len == 0 || (len >= 2 * h && Paired(h, len - 2 * h))
  }

  /** Ones in every upper block, or in every lower block, over len bits. */
  function Mask(high: bool, h: nat, len: nat): nat
    requires h > 0
  {
    if len < 2 * h then 0 else Pattern(high, h) + Exp2(2 * h) * Mask(high, h, len - 2 * h)
  }

  function Pattern(high: bool, h: nat): nat {
    if high then (Exp2(h) - 1) * Exp2(h) else Exp2(h) - 1
  }

  lemma {:induction false} UpperFlips(h: nat, k: nat)
    requires h > 0
    ensures Upper(h, k + h) == !Upper(h, k)
    ensures k >= h ==> Upper(h, k - h) == !Upper(h, k)
  {
    if k >= 2 * h { UpperFlips(h, k - 2 * h); }
  }

  lemma PatternBound(high: bool, h: nat)
    ensures Pattern(high, h) < Exp2(2 * h)
  {
    var e := Exp2(h);
    Exp2Add(h, h);
    MulAtLeast(e, e);
    assert (e - 1) * e == e * e - e;
  }

  lemma PatternBit(high: bool, h: nat, k: nat)
    ensures Bit(Pattern(high, h), k) == if high then h <= k < 2 * h else k < h
  {
    BitOfOnes(h, k);
    BitScale(Exp2(h) - 1, h, k);
    if k >= h { BitOfOnes(h, k - h); }
  }

  lemma MaskTail(high: bool, h: nat, len: nat, k: nat)
    requires 0 < 2 * h <= len
    ensures k < 2 * h ==> Bit(Mask(high, h, len), k) == Bit(Pattern(high, h), k)
    ensures k >= 2 * h ==> Bit(Mask(high, h, len), k) == Bit(Mask(high, h, len - 2 * h), k - 2 * h)
  {
    var x := Mask(high, h, len);
    PatternBound(high, h);
    DivModUnique(x, Exp2(2 * h), Mask(high, h, len - 2 * h), Pattern(high, h));
    BitMod(x, 2 * h, k);
    if k >= 2 * h {
      ShrIsDiv(x, 2 * h);
      BitShr(x, 2 * h, k - 2 * h);
    }
  }

  lemma {:induction false} MaskBit(high: bool, h: nat, len: nat, k: nat)
    requires h > 0 && Paired(h, len)
    ensures Bit(Mask(high, h, len), k) == (k < len && Upper(h, k) == high)
  {
    if len == 0 {
      BitOfZero(k);
    } else {
      MaskTail(high, h, len, k);
      PatternBit(high, h, k);
      if k >= 2 * h { MaskBit(high, h, len - 2 * h, k - 2 * h); }
    }
  }

  /** The masks of the source, level by level. */
  lemma Masks8()
    ensures Mask(true, 8, 32) == 0xFF00FF00 && Mask(false, 8, 32) == 0x00FF00FF && Paired(8, 32)
  {
    assert Exp2(8) == 0x100 && Exp2(16) == 0x1_0000;
    assert Mask(true, 8, 16) == 0xFF00 && Mask(false, 8, 16) == 0xFF;
  }

  lemma Masks4()
    ensures Mask(true, 4, 32) == 0xF0F0F0F0 && Mask(false, 4, 32) == 0x0F0F0F0F && Paired(4, 32)
  {
    assert Exp2(4) == 0x10 && Exp2(8) == 0x100;
    assert Mask(true, 4, 16) == 0xF0F0 && Mask(false, 4, 16) == 0x0F0F;
  }

  lemma Masks2()
    ensures Mask(true, 2, 32) == 0xCCCCCCCC && Mask(false, 2, 32) == 0x33333333 && Paired(2, 32)
  {
    assert Exp2(2) == 4 && Exp2(4) == 0x10;
    assert Mask(true, 2, 8) == 0xCC && Mask(false, 2, 8) == 0x33;
    assert Mask(true, 2, 16) == 0xCCCC && Mask(false, 2, 16) == 0x3333;
  }

  lemma Masks1()
    ensures Mask(true, 1, 32) == 0xAAAAAAAA && Mask(false, 1, 32) == 0x55555555 && Paired(1, 32)
  {
    assert Exp2(1) == 2 && Exp2(2) == 4;
    assert Mask(true, 1, 8) == 0xAA && Mask(false, 1, 8) == 0x55;
    assert Mask(true, 1, 16) == 0xAAAA && Mask(false, 1, 16) == 0x5555;
    assert Paired(1, 16);
    assert Mask(true, 1, 24) == 0xAAAAAA && Mask(false, 1, 24) == 0x555555;
  }

  // ---------- the network ----------

  /** One level of the network exchanges bit k with its partner in the neighbouring block. */
  lemma SwapBlocksBit(x: nat, high: nat, low: nat, h: nat, k: nat)
    requires 0 < h && Paired(h, 32) && k < 64
    requires high == Mask(true, h, 32) && low == Mask(false, h, 32)
    ensures Upper(h, k) ==> k >= h
    ensures Bit(SwapBlocks(x, high, low, h), k) ==
            if Upper(h, k) then k - h < 32 && Bit(x, k - h) else k + h < 32 && Bit(x, k + h)
  {
    BitOr(Shr(And(x, high), h), Shl(And(x, low), h), k);
    BitShr(And(x, high), h, k);
    BitAnd(x, high, k + h);
    MaskBit(true, h, 32, k + h);
    UpperFlips(h, k);
    BitShl(And(x, low), h, k);
    if k >= h {
      BitAnd(x, low, k - h);
      MaskBit(false, h, 32, k - h);
    }
  }

  lemma {:induction false} PairedAt(h: nat, rest: nat)
    requires h > 0
    ensures Paired(h, 2 * h * rest)
  {
    if rest > 0 {
      PairedAt(h, rest - 1);
      assert 2 * h * rest == 2 * h * (rest - 1) + 2 * h;
    }
  }

  lemma {:induction false} UpperAt(h: nat, j: nat, base: nat)
    requires j < h && Paired(h, base)
    ensures !Upper(h, base + j) && Upper(h, base + h + j)
  {
    if base > 0 { UpperAt(h, j, base - 2 * h); }
  }

  /** One level on the bits j and j + h of a pair of blocks. */
  lemma LevelBit(x: nat, high: nat, low: nat, h: nat, j: nat, base: nat)
    requires 0 < h && Paired(h, 32) && high == Mask(true, h, 32) && low == Mask(false, h, 32)
    requires j < h && Paired(h, base) && base + h + j < 32
    ensures Bit(SwapBlocks(x, high, low, h), base + j) == Bit(x, base + h + j)
    ensures Bit(SwapBlocks(x, high, low, h), base + h + j) == Bit(x, base + j)
  {
    UpperAt(h, j, base);
    SwapBlocksBit(x, high, low, h, base + j);
    SwapBlocksBit(x, high, low, h, base + h + j);
  }

  lemma Level8(x: nat, j: nat, b: bool, rest: nat, k: nat, k': nat)
    requires j < 8 && rest < 2
    requires k == j + 8 * Digit(b) + 16 * rest && k' == j + 8 * Digit(!b) + 16 * rest
    ensures Bit(SwapBlocks(x, 0xFF00FF00, 0x00FF00FF, 8), k) == Bit(x, k')
  {
    Masks8(); PairedAt(8, rest);
    LevelBit(x, 0xFF00FF00, 0x00FF00FF, 8, j, 16 * rest);
  }

  lemma Level4(x: nat, j: nat, b: bool, rest: nat, k: nat, k': nat)
    requires j < 4 && rest < 4
    requires k == j + 4 * Digit(b) + 8 * rest && k' == j + 4 * Digit(!b) + 8 * rest
    ensures Bit(SwapBlocks(x, 0xF0F0F0F0, 0x0F0F0F0F, 4), k) == Bit(x, k')
  {
    Masks4(); PairedAt(4, rest);
    LevelBit(x, 0xF0F0F0F0, 0x0F0F0F0F, 4, j, 8 * rest);
  }

  lemma Level2(x: nat, j: nat, b: bool, rest: nat, k: nat, k': nat)
    requires j < 2 && rest < 8
    requires k == j + 2 * Digit(b) + 4 * rest && k' == j + 2 * Digit(!b) + 4 * rest
    ensures Bit(SwapBlocks(x, 0xCCCCCCCC, 0x33333333, 2), k) == Bit(x, k')
  {
    Masks2(); PairedAt(2, rest);
    LevelBit(x, 0xCCCCCCCC, 0x33333333, 2, j, 4 * rest);
  }

  lemma Level1(x: nat, b: bool, rest: nat, k: nat, k': nat)
    requires rest < 16
    requires k == Digit(b) + 2 * rest && k' == Digit(!b) + 2 * rest
    ensures Bit(SwapBlocks(x, 0xAAAAAAAA, 0x55555555, 1), k) == Bit(x, k')
  {
    Masks1(); PairedAt(1, rest);
    LevelBit(x, 0xAAAAAAAA, 0x55555555, 1, 0, 2 * rest);
  }

  lemma NoHighBits(x: nat, k: nat)
    requires 32 <= k < 64
    ensures !Bit(SwapBlocks(x, 0xAAAAAAAA, 0x55555555, 1), k)
  {
    Masks1();
    SwapBlocksBit(x, 0xAAAAAAAA, 0x55555555, 1, k);
    PairedAt(1, k / 2);
    UpperAt(1, 0, 2 * (k / 2));
  }

  lemma Levels8And4(x16: nat, j: nat, b2: bool, b3: bool, rest: nat, k: nat, k': nat)
    requires j < 4 && rest < 2
    requires k == j + 4 * Digit(b2) + 8 * Digit(b3) + 16 * rest
    requires k' == j + 4 * Digit(!b2) + 8 * Digit(!b3) + 16 * rest
    ensures Bit(SwapBlocks(SwapBlocks(x16, 0xFF00FF00, 0x00FF00FF, 8), 0xF0F0F0F0, 0x0F0F0F0F, 4), k) == Bit(x16, k')
  {
    var k8 := j + 4 * Digit(!b2) + 8 * Digit(b3) + 16 * rest;
    Level4(SwapBlocks(x16, 0xFF00FF00, 0x00FF00FF, 8), j, b2, Digit(b3) + 2 * rest, k, k8);
    Level8(x16, j + 4 * Digit(!b2), b3, rest, k8, k');
  }

  lemma Levels2And1(x4: nat, b0: bool, b1: bool, rest: nat, k: nat, k': nat)
    requires rest < 8
    requires k == Digit(b0) + 2 * Digit(b1) + 4 * rest && k' == Digit(!b0) + 2 * Digit(!b1) + 4 * rest
    ensures Bit(SwapBlocks(SwapBlocks(x4, 0xCCCCCCCC, 0x33333333, 2), 0xAAAAAAAA, 0x55555555, 1), k) == Bit(x4, k')
  {
    var k2 := Digit(!b0) + 2 * Digit(b1) + 4 * rest;
    Level1(SwapBlocks(x4, 0xCCCCCCCC, 0x33333333, 2), b0, Digit(b1) + 2 * rest, k, k2);
    Level2(x4, Digit(!b0), b1, rest, k2, k');
  }

  lemma LevelsBit(x16: nat, b0: bool, b1: bool, b2: bool, b3: bool, b4: bool, k: nat, k': nat)
    requires k == Index(b0, b1, b2, b3, b4) && k' == Index(!b0, !b1, !b2, !b3, b4)
    ensures Bit(Levels(x16), k) == Bit(x16, k')
  {
    var x4 := SwapBlocks(SwapBlocks(x16, 0xFF00FF00, 0x00FF00FF, 8), 0xF0F0F0F0, 0x0F0F0F0F, 4);
    var k4 := Index(!b0, !b1, b2, b3, b4);
    Levels2And1(x4, b0, b1, Digit(b2) + 2 * Digit(b3) + 4 * Digit(b4), k, k4);
    Levels8And4(x16, Digit(!b0) + 2 * Digit(!b1), b2, b3, Digit(b4), k4, k');
  }

  lemma Reverse32Bit(x: nat, b0: bool, b1: bool, b2: bool, b3: bool, b4: bool, k: nat)
    requires x < Exp2(32) && k == Index(b0, b1, b2, b3, b4)
    ensures Bit(Reverse32(x), k) == Bit(x, 31 - k)
  {
    var k' := Index(!b0, !b1, !b2, !b3, b4);
    LevelsBit(Or(Shr(x, 16), Shl(x, 16)), b0, b1, b2, b3, b4, k, k');
    HalvesBit(x, k');
  }

  function Digit(b: bool): nat { if b then 1 else 0 }

  function Index(b0: bool, b1: bool, b2: bool, b3: bool, b4: bool): nat {
    Digit(b0) + 2 * Digit(b1) + 4 * Digit(b2) + 8 * Digit(b3) + 16 * Digit(b4)
  }

  lemma HalvesBit(x: nat, k: nat)
    requires x < Exp2(32) && k < 32
    ensures Bit(Or(Shr(x, 16), Shl(x, 16)), k) == if k < 16 then Bit(x, k + 16) else Bit(x, k - 16)
  {
    BitOr(Shr(x, 16), Shl(x, 16), k);
    BitShr(x, 16, k);
    BitShl(x, 16, k);
    if k >= 16 { BitBeyond(x, 32, k + 16); }
  }

  lemma {:induction false} RevBit(d: nat, i: nat, k: nat)
    ensures Bit(Rev(d, i), k) == (k < d && Bit(i, d - 1 - k))
  {
    if d == 0 {
      BitOfZero(k);
    } else {
      var low := Rev(d - 1, i / 2);
      RevBit(d - 1, i / 2, k);
      TopBit(low, d - 1, i % 2 == 1, k);
    }
  }

  lemma TopBit(low: nat, d: nat, top: bool, k: nat)
    requires low < Exp2(d)
    ensures Bit(low + (if top then Exp2(d) else 0), k) == if k == d then top else Bit(low, k)
  {
    var x := low + if top then Exp2(d) else 0;
    DivModUnique(x, Exp2(d), if top then 1 else 0, low);
    BitMod(x, d, k);
    if k >= d {
      ShrIsDiv(x, d);
      BitShr(x, d, k - d);
      BitBeyond(low, d, k);
      if k > d { BitOfZero(k - d - 1); }
    }
  }

  lemma {:induction false} AndBound(x: nat, y: nat)
    ensures And(x, y) <= x
  {
    if x > 0 && y > 0 { AndBound(x / 2, y / 2); }
  }

  lemma SwapBlocksBound(x: nat, high: nat, low: nat, h: nat)
    requires x < Exp2(64)
    ensures SwapBlocks(x, high, low, h) < Exp2(64)
  {
    AndBound(x, high);
    ShrBound(And(x, high), h);
    OrBound(Shr(And(x, high), h), Shl(And(x, low), h), 64);
  }

  lemma Reverse32Bound(x: nat)
    requires x < Exp2(64)
    ensures Reverse32(x) < Exp2(64)
  {
    ShrBound(x, 16);
    OrBound(Shr(x, 16), Shl(x, 16), 64);
    var x16 := Or(Shr(x, 16), Shl(x, 16));
    SwapBlocksBound(x16, 0xFF00FF00, 0x00FF00FF, 8);
    var x8 := SwapBlocks(x16, 0xFF00FF00, 0x00FF00FF, 8);
    SwapBlocksBound(x8, 0xF0F0F0F0, 0x0F0F0F0F, 4);
    var x4 := SwapBlocks(x8, 0xF0F0F0F0, 0x0F0F0F0F, 4);
    SwapBlocksBound(x4, 0xCCCCCCCC, 0x33333333, 2);
    SwapBlocksBound(SwapBlocks(x4, 0xCCCCCCCC, 0x33333333, 2), 0xAAAAAAAA, 0x55555555, 1);
  }

  lemma Reverse32Mirror(x: nat, k: nat)
    requires x < Exp2(32) && k < 64
    ensures Bit(Reverse32(x), k) == (k < 32 && Bit(x, 31 - k))
  {
    if k >= 32 {
      var x8 := SwapBlocks(Or(Shr(x, 16), Shl(x, 16)), 0xFF00FF00, 0x00FF00FF, 8);
      NoHighBits(SwapBlocks(SwapBlocks(x8, 0xF0F0F0F0, 0x0F0F0F0F, 4), 0xCCCCCCCC, 0x33333333, 2), k);
    } else {
      var b0, b1, b2, b3, b4 := Digits(k);
      Reverse32Bit(x, b0, b1, b2, b3, b4, k);
    }
  }

  lemma Digits(k: nat) returns (b0: bool, b1: bool, b2: bool, b3: bool, b4: bool)
    requires k < 32
    ensures k == Index(b0, b1, b2, b3, b4)
  {
    var r := k;
    b4 := r >= 16; r := if b4 then r - 16 else r;
    b3 := r >= 8; r := if b3 then r - 8 else r;
    b2 := r >= 4; r := if b2 then r - 4 else r;
    b1 := r >= 2; r := if b1 then r - 2 else r;
    b0 := r >= 1;
  }

  /** A word whose bits mirror those of i, shifted right. */
  lemma MirrorShifted(y: nat, i: nat, d: nat, k: nat)
    requires d <= 32 && i < Exp2(32) && y < Exp2(64)
    requires forall j: nat :: j < 64 ==> Bit(y, j) == (j < 32 && Bit(i, 31 - j))
    ensures Bit(Shr(y, 32 - d), k) == (k < d && Bit(i, d - 1 - k))
  {
    BitShr(y, 32 - d, k);
    if k + 32 - d >= 64 { BitBeyond(y, 64, k + 32 - d); }
  }

  /** The mask-and-shift network reverses exactly the domainPow low bits of an index. */
  lemma BRIsReversal(i: nat, d: nat)
    requires d <= 32 && i < Exp2(d)
    ensures BR(i, d) == Rev(d, i)
  {
    Exp2Mono(d, 32); Exp2Mono(32, 64);
    var y := Reverse32(i);
    Reverse32Bound(i);
    forall j: nat | j < 64
      ensures Bit(y, j) == (j < 32 && Bit(i, 31 - j))
    {
      Reverse32Mirror(i, j);
    }
    MirrorIsRev(y, i, d);
  }

  lemma MirrorIsRev(y: nat, i: nat, d: nat)
    requires d <= 32 && i < Exp2(32) && y < Exp2(64)
    requires forall j: nat :: j < 64 ==> Bit(y, j) == (j < 32 && Bit(i, 31 - j))
    ensures Shr(y, 32 - d) == Rev(d, i)
  {
    Exp2Mono(d, 64);
    ShrBound(y, 32 - d);
    forall k | 0 <= k < 64
      ensures Bit(Shr(y, 32 - d), k) == Bit(Rev(d, i), k)
    {
      MirrorShifted(y, i, d, k);
      RevBit(d, i, k);
    }
    BitsEqual(Shr(y, 32 - d), Rev(d, i), 64);
  }

  /** Reversing twice gives the index back. */
  lemma RevInvolution(d: nat, i: nat)
    requires i < Exp2(d)
    ensures Rev(d, Rev(d, i)) == i
  {
    forall k | 0 <= k < d
      ensures Bit(Rev(d, Rev(d, i)), k) == Bit(i, k)
    {
      RevBit(d, Rev(d, i), k);
      RevBit(d, i, d - 1 - k);
    }
    BitsEqual(Rev(d, Rev(d, i)), i, d);
  }
}
