/** Little-endian byte strings and the numbers they hold. */
module Bytes {
  import opened Bits

  type byte = b: nat | b < 256

  function LE(s: seq<byte>): nat {
    if s == [] then 0 else s[0] + 256 * LE(s[1..])
  }

  /** Byte j of the number v. */
  function ByteOf(v: nat, j: nat): byte { Shr(v, 8 * j) % 256 }

  lemma {:induction false} LEBound(s: seq<byte>)
    ensures LE(s) < Exp2(8 * |s|)
  {
    if s != [] {
      LEBound(s[1..]);
      Exp2Add(8, 8 * |s[1..]|);
      assert Exp2(8) == 256;
    }
  }

  lemma {:induction false} ShrShr(x: nat, a: nat, b: nat)
    ensures Shr(x, a + b) == Shr(Shr(x, a), b)
  {
    if a > 0 { ShrShr(x / 2, a - 1, b); }
  }

  lemma ShrEight(x: nat, n: nat)
    ensures Shr(x, n + 8) == Shr(x / 256, n)
  {
    ShrShr(x, 8, n);
    ShrIsDiv(x, 8);
    assert Exp2(8) == 256;
  }

  lemma {:induction false} LEDrop(s: seq<byte>, j: nat)
    requires j <= |s|
    ensures Shr(LE(s), 8 * j) == LE(s[j..])
  {
    if j == 0 {
      assert s[0..] == s;
    } else {
      ShrEight(LE(s), 8 * (j - 1));
      LEDrop(s[1..], j - 1);
      assert s[1..][j - 1..] == s[j..];
    }
  }

  lemma LEByte(s: seq<byte>, j: nat)
    requires j < |s|
    ensures ByteOf(LE(s), j) == s[j]
  {
    LEDrop(s, j);
  }

  lemma LowByteBit(x: nat, k: nat)
    requires k < 8
    ensures Bit(x, k) == Bit(x % 256, k)
  {
    BitMod(x, 8, k);
    assert Exp2(8) == 256;
  }

  lemma FirstByteBit(t: seq<byte>, j: nat)
    requires |t| > 0 && j < 8
    ensures Bit(LE(t), j) == Bit(t[0], j)
  {
    LowByteBit(LE(t), j);
    assert LE(t) % 256 == t[0];
  }

  /** Bit j of byte i is bit 8 i + j of the number. */
  lemma LEBit(s: seq<byte>, i: nat, j: nat)
    requires i < |s| && j < 8
    ensures Bit(LE(s), 8 * i + j) == Bit(s[i], j)
  {
    var t := s[i..];
    BitShr(LE(s), 8 * i, j);
    LEDrop(s, i);
    FirstByteBit(t, j);
  }

  lemma LEBitBeyond(s: seq<byte>, k: nat)
    requires k >= 8 * |s|
    ensures !Bit(LE(s), k)
  {
    LEBound(s);
    BitBeyond(LE(s), 8 * |s|, k);
  }
}
