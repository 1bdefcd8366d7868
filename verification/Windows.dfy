/** The windows a scalar is cut into, and how the cutter reads them out of memory. */
module Windows {
  import opened Bits
  import opened Bytes

  /** Window j of b bits. */
  function Chunk(v: nat, b: nat, j: nat): nat { Shr(v, j * b) % Exp2(b) }

  lemma NextPlace(j: nat, b: nat)
    ensures (j + 1) * b == j * b + b
  {
  }

  lemma ShrSplit(x: nat, b: nat)
    ensures Shr(x, b) * Exp2(b) + x % Exp2(b) == x
  {
    ShrIsDiv(x, b);
    var q, r := Split(x, Exp2(b));
  }

  /** What is left above a window, scaled up, and the window itself make what was left below it. */
  lemma ChunkStep(v: nat, b: nat, j: nat)
    ensures Shr(v, (j + 1) * b) * Exp2(b) + Chunk(v, b, j) == Shr(v, j * b)
  {
    NextPlace(j, b);
    ShrShr(v, j * b, b);
    ShrSplit(Shr(v, j * b), b);
  }

  // ---------- the windows add up ----------

  function Scale(x: nat, s: nat): nat { if s == 0 then x else 2 * Scale(x, s - 1) }

  lemma {:induction false} ScaleIsMul(x: nat, s: nat)
    ensures Scale(x, s) == x * Exp2(s)
  {
    if s > 0 {
      ScaleIsMul(x, s - 1);
      TwiceProduct(Exp2(s - 1), x);
    }
  }

  lemma {:induction false} ScaleAdd(x: nat, y: nat, s: nat)
    ensures Scale(x + y, s) == Scale(x, s) + Scale(y, s)
  {
    if s > 0 { ScaleAdd(x, y, s - 1); }
  }

  lemma {:induction false} ScaleScale(x: nat, s: nat, t: nat)
    ensures Scale(x, s + t) == Scale(Scale(x, t), s)
  {
    if s > 0 { ScaleScale(x, s - 1, t); }
  }

  function WindowSum(v: nat, b: nat, k: nat): nat {
    if k == 0 then 0 else WindowSum(v, b, k - 1) + Chunk(v, b, k - 1) * Exp2((k - 1) * b)
  }

  lemma Regroup(x: nat, rest: nat, c: nat, b: nat, p: nat)
    requires Scale(rest, b) + c == x
    ensures c * Exp2(p) + Scale(rest, p + b) == Scale(x, p)
  {
    ScaleAdd(Scale(rest, b), c, p);
    ScaleScale(rest, p, b);
    ScaleIsMul(c, p);
  }

  /** One window at its place and what is left above it make what was left below it, at its place. */
  lemma WindowAt(v: nat, b: nat, j: nat)
    ensures Chunk(v, b, j) * Exp2(j * b) + Scale(Shr(v, (j + 1) * b), (j + 1) * b) == Scale(Shr(v, j * b), j * b)
  {
    var rest := Shr(v, (j + 1) * b);
    ChunkStep(v, b, j);
    ScaleIsMul(rest, b);
    NextPlace(j, b);
    Regroup(Shr(v, j * b), rest, Chunk(v, b, j), b, j * b);
  }

  lemma {:induction false} WindowsBelow(v: nat, b: nat, k: nat)
    ensures WindowSum(v, b, k) + Scale(Shr(v, k * b), k * b) == v
  {
    if k > 0 {
      WindowsBelow(v, b, k - 1);
      WindowAt(v, b, k - 1);
    }
  }

  /** The number of windows that cover w bits. */
  function ChunkCount(w: nat, b: nat): (r: nat)
    requires w > 0 && b > 0
    ensures r > 0 && (r - 1) * b < w <= r * b
  {
    var q := (w - 1) / b;
    assert w - 1 == b * q + (w - 1) % b;
    assert (q + 1) * b == q * b + b;
    q + 1
  }

  /** The windows of a number, each at its place, add up to the number. */
  lemma WindowsMakeScalar(v: nat, b: nat, w: nat)
    requires w > 0 && b > 0 && v < Exp2(w)
    ensures WindowSum(v, b, ChunkCount(w, b)) == v
  {
    var k := ChunkCount(w, b);
    WindowsBelow(v, b, k);
    ShrGone(v, w, k * b);
    ScaleIsMul(0, k * b);
  }

  /** Bit m of eight bytes taken from place at. */
  lemma LoadedBit(s: seq<byte>, at: nat, m: nat)
    requires at + 8 <= |s| && m < 64
    ensures Bit(LE(s[at..at + 8]), m) == Bit(LE(s), 8 * at + m)
  {
    var i, j := m / 8, m % 8;
    LEBit(s[at..at + 8], i, j);
    LEBit(s, at + i, j);
    assert 8 * (at + i) + j == 8 * at + m;
  }

  /** A 64-bit load, a shift and a mask read window bits from place start on, however the load had to
      be moved down to stay inside the scalar and the mask narrowed at its end. */
  lemma LoadShiftMask(s: seq<byte>, start: nat, at: nat, bits: nat, eff: nat)
    requires at + 8 <= |s| && 8 * at <= start && eff <= bits
    requires start - 8 * at + eff <= 64
    requires eff < bits ==> start + eff == 8 * |s|
    ensures And(Shr(LE(s[at..at + 8]), start - 8 * at), Exp2(eff) - 1) == Shr(LE(s), start) % Exp2(bits)
  {
    var shift, v := start - 8 * at, LE(s[at..at + 8]);
    AndLowMask(Shr(v, shift), eff);
    var x, y := Shr(v, shift) % Exp2(eff), Shr(LE(s), start) % Exp2(bits);
    Exp2Mono(eff, bits);
    forall k | 0 <= k < bits
      ensures Bit(x, k) == Bit(y, k)
    {
      BitMod(Shr(v, shift), eff, k);
      BitMod(Shr(LE(s), start), bits, k);
      BitShr(v, shift, k);
      BitShr(LE(s), start, k);
      if k < eff {
        LoadedBit(s, at, shift + k);
      } else {
        LEBitBeyond(s, start + k);
      }
    }
    BitsEqual(x, y, bits);
  }
}
