/** 64-bit machine words as natural numbers, with the bit operators of the source given their
    meaning bit by bit. */
module Bits {

  function Exp2(n: nat): (r: nat)
    ensures r > 0
  {
    if n == 0 then 1 else 2 * Exp2(n - 1)
  }

  lemma {:induction false} Exp2Add(m: nat, n: nat)
    ensures Exp2(m + n) == Exp2(m) * Exp2(n)
  {
    if m > 0 {
      Exp2Add(m - 1, n);
      TwiceProduct(Exp2(m - 1), Exp2(n));
    }
  }

  lemma TwiceProduct(x: int, y: int)
    ensures 2 * (x * y) == (2 * x) * y
  {
  }

  lemma {:induction false} Exp2Mono(m: nat, n: nat)
    requires m <= n
    ensures Exp2(m) <= Exp2(n)
  {
    if m < n { Exp2Mono(m, n - 1); }
  }

  lemma WordSizes()
    ensures Exp2(8) == 0x100 && Exp2(16) == 0x1_0000 && Exp2(32) == 0x1_0000_0000
    ensures Exp2(64) == 0x1_0000_0000_0000_0000
  {
    assert Exp2(8) == 256;
    Exp2Add(8, 8); Exp2Add(16, 16); Exp2Add(32, 32);
  }

  /** Bit k of x. */
  predicate Bit(x: nat, k: nat) {
    if k == 0 then x % 2 == 1 else Bit(x / 2, k - 1)
  }

  function And(x: nat, y: nat): nat {
    if x == 0 || y == 0 then 0
    else (if x % 2 == 1 && y % 2 == 1 then 1 else 0) + 2 * And(x / 2, y / 2)
  }

  function Or(x: nat, y: nat): nat {
    if x == 0 && y == 0 then 0
    else (if x % 2 + y % 2 > 0 then 1 else 0) + 2 * Or(x / 2, y / 2)
  }

  function Shr(x: nat, s: nat): nat {
    if s == 0 then x else Shr(x / 2, s - 1)
  }

  /** Left shift of a 64-bit word: what leaves the word is lost. */
  function Shl(x: nat, s: nat): nat {
    x * Exp2(s) % Exp2(64)
  }

  lemma {:induction false} BitOfZero(k: nat)
    ensures !Bit(0, k)
  {
    if k > 0 { BitOfZero(k - 1); }
  }

  lemma {:induction false} BitAnd(x: nat, y: nat, k: nat)
    ensures Bit(And(x, y), k) == (Bit(x, k) && Bit(y, k))
  {
    if x == 0 || y == 0 {
      BitOfZero(k);
    } else if k > 0 {
      assert And(x, y) / 2 == And(x / 2, y / 2);
      BitAnd(x / 2, y / 2, k - 1);
    }
  }

  lemma {:induction false} BitOr(x: nat, y: nat, k: nat)
    ensures Bit(Or(x, y), k) == (Bit(x, k) || Bit(y, k))
  {
    if x == 0 && y == 0 {
      BitOfZero(k);
    } else if k > 0 {
      assert Or(x, y) / 2 == Or(x / 2, y / 2);
      BitOr(x / 2, y / 2, k - 1);
    }
  }

  lemma {:induction false} BitShr(x: nat, s: nat, k: nat)
    ensures Bit(Shr(x, s), k) == Bit(x, k + s)
  {
    if s > 0 {
      BitShr(x / 2, s - 1, k);
    }
  }

  lemma {:induction false} BitScale(x: nat, s: nat, k: nat)
    ensures Bit(x * Exp2(s), k) == (s <= k && Bit(x, k - s))
  {
    if s > 0 {
      assert x * Exp2(s) == 2 * (x * Exp2(s - 1));
      if k > 0 { BitScale(x, s - 1, k - 1); }
    }
  }

  lemma HalveDivMod(x: nat, m: nat)
    requires m > 0
    ensures x / (2 * m) == x / 2 / m && x % (2 * m) == x % 2 + 2 * (x / 2 % m)
  {
    var q, r := x / 2 / m, x / 2 % m;
    assert x / 2 == q * m + r;
    assert x == (2 * m) * q + (x % 2 + 2 * r);
    DivModUnique(x, 2 * m, q, x % 2 + 2 * r);
  }

  lemma MulAtLeast(d: int, k: int)
    requires d > 0
    ensures k >= 1 ==> d * k >= d
    ensures k <= -1 ==> d * k <= -d
  {
  }

  /** Quotient and remainder are determined by their defining equation. */
  lemma DivModUnique(x: int, d: int, q: int, r: int)
    requires 0 <= r < d && x == d * q + r
    ensures x / d == q && x % d == r
  {
    var p := x / d;
    assert x == d * p + x % d;
    assert d * (q - p) == d * q - d * p;
    MulAtLeast(d, q - p);
  }

  lemma {:induction false} BitMod(x: nat, w: nat, k: nat)
    ensures Bit(x % Exp2(w), k) == (k < w && Bit(x, k))
  {
    if w == 0 {
      BitOfZero(k);
    } else {
      HalveDivMod(x, Exp2(w - 1));
      assert x % Exp2(w) / 2 == x / 2 % Exp2(w - 1);
      if k > 0 { BitMod(x / 2, w - 1, k - 1); }
    }
  }

  lemma BitShl(x: nat, s: nat, k: nat)
    ensures Bit(Shl(x, s), k) == (s <= k < 64 && Bit(x, k - s))
  {
    BitScale(x, s, k);
    BitMod(x * Exp2(s), 64, k);
  }

  lemma {:induction false} BitBeyond(x: nat, w: nat, k: nat)
    requires x < Exp2(w) && w <= k
    ensures !Bit(x, k)
  {
    if w == 0 {
      BitOfZero(k);
    } else {
      BitBeyond(x / 2, w - 1, k - 1);
    }
  }

  /** Words with the same bits are the same word. */
  lemma {:induction false} BitsEqual(x: nat, y: nat, w: nat)
    requires x < Exp2(w) && y < Exp2(w)
    requires forall k :: 0 <= k < w ==> Bit(x, k) == Bit(y, k)
    ensures x == y
  {
    if w > 0 {
      assert Bit(x, 0) == Bit(y, 0);
      forall k | 0 <= k < w - 1
        ensures Bit(x / 2, k) == Bit(y / 2, k)
      {
        assert Bit(x, k + 1) == Bit(y, k + 1);
      }
      BitsEqual(x / 2, y / 2, w - 1);
    }
  }

  lemma {:induction false} BitOfOnes(h: nat, k: nat)
    ensures Bit(Exp2(h) - 1, k) == (k < h)
  {
    if h == 0 {
      BitOfZero(k);
    } else {
      var half := Exp2(h - 1);
      assert (2 * half - 1) / 2 == half - 1;
      if k > 0 { BitOfOnes(h - 1, k - 1); }
    }
  }

  lemma {:induction false} OrBound(x: nat, y: nat, w: nat)
    requires x < Exp2(w) && y < Exp2(w)
    ensures Or(x, y) < Exp2(w)
  {
    if w > 0 { OrBound(x / 2, y / 2, w - 1); }
  }

  lemma {:induction false} ShrBound(x: nat, s: nat)
    ensures Shr(x, s) <= x
  {
    if s > 0 { ShrBound(x / 2, s - 1); }
  }

  lemma {:induction false} ShrGone(v: nat, w: nat, s: nat)
    requires v < Exp2(w) && w <= s
    ensures Shr(v, s) == 0
  {
    if s > 0 { ShrGone(v / 2, if w == 0 then 0 else w - 1, s - 1); }
  }

  lemma {:induction false} ShrIsDiv(x: nat, s: nat)
    ensures Shr(x, s) == x / Exp2(s)
  {
    if s > 0 {
      ShrIsDiv(x / 2, s - 1);
      HalveDivMod(x, Exp2(s - 1));
    }
  }

  lemma AndOdd(x: nat, y: nat)
    requires y % 2 == 1
    ensures And(x, y) == x % 2 + 2 * And(x / 2, y / 2)
  {
  }

  /** Masking with 2^w - 1 keeps the low w bits. */
  lemma {:induction false} AndLowMask(x: nat, w: nat)
    ensures And(x, Exp2(w) - 1) == x % Exp2(w)
  {
    if w > 0 {
      var half := Exp2(w - 1);
      HalveDivMod(x, half);
      AndLowMask(x / 2, w - 1);
      AndOdd(x, 2 * half - 1);
      assert (2 * half - 1) / 2 == half - 1;
    }
  }

  lemma MulMono(a: int, b: int, c: nat)
    requires a <= b
    ensures a * c <= b * c
  {
  }

  /** Entry j of row b lies below the end of the rows. */
  lemma RowBound(b: nat, rows: nat, m: nat, j: nat)
    requires b < rows && j < m
    ensures b * m + j < rows * m
  {
    MulMono(b, rows - 1, m);
    assert (rows - 1) * m == rows * m - m;
  }

  lemma Split(i: nat, m: nat) returns (b: nat, j: nat)
    requires m > 0
    ensures b == i / m && j == i % m && j < m && i == b * m + j
  {
    assert i == m * (i / m) + i % m;
    if i / m < 0 { MulAtLeast(m, i / m); }
    b, j := i / m, i % m;
  }

  lemma DivBound(i: nat, m: nat, rows: nat)
    requires m > 0 && i < rows * m
    ensures i / m < rows
  {
    var b, j := Split(i, m);
    if b >= rows { MulMono(rows, b, m); }
  }
}
