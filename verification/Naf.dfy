/** Signed-digit recoding of scalars: a table-driven automaton eats eight bits at a time. */
module Naf {
  import opened Bits
  import opened Bytes

  // ---------- the automaton ----------

  /** last: the pending bit; carry: a one to be added to the next bit. */
  datatype State = State(last: bool, carry: bool)

  function Val(b: bool): int { if b then 1 else 0 }

  function Pending(s: State): int { Val(s.last) + 2 * Val(s.carry) }

  /** The code of the digit put out when bit cur comes in; 2 stands for -1. */
  function Code(s: State, cur: bool): byte {
    if s.last then
      if cur then (if s.carry then 1 else 2) else (if s.carry then 2 else 1)
    else 0
  }

  function Next(s: State, cur: bool): State {
    if s.last then
      if cur then State(false, true) else State(false, s.carry)
    else
      if cur then (if s.carry then State(false, true) else State(true, false))
      else (if s.carry then State(true, false) else State(false, false))
  }

  function Signed(code: byte): int { if code == 2 then -1 else code }

  /** No step loses or gains anything. */
  lemma StepKeepsValue(s: State, cur: bool)
    ensures Pending(s) + 2 * Val(cur) == Signed(Code(s, cur)) + 2 * Pending(Next(s, cur))
  {
  }

  /** The state after k bits of n have been put out. */
  function StateAt(n: nat, k: nat): State {
    if k == 0 then State(Bit(n, 0), false) else Next(StateAt(n, k - 1), Bit(n, k))
  }

  /** The digit code at place k of the recoding of n. */
  function CodeAt(n: nat, k: nat): byte { Code(StateAt(n, k), Bit(n, k + 1)) }

  // ---------- what the recoding is worth ----------

  /** The value of the digits below k. */
  function DigitSum(n: nat, k: nat): int {
    if k == 0 then 0 else DigitSum(n, k - 1) + Signed(CodeAt(n, k - 1)) * Exp2(k - 1)
  }

  lemma {:induction false} PrefixValue(n: nat, k: nat)
    ensures DigitSum(n, k) + Pending(StateAt(n, k)) * Exp2(k) == n % Exp2(k + 1)
  {
    ModStep(n, k);
    if k > 0 {
      PrefixValue(n, k - 1);
      var s, cur, e := StateAt(n, k - 1), Bit(n, k), Exp2(k - 1);
      StepKeepsValue(s, cur);
      Spread(Pending(s), Val(cur), Signed(Code(s, cur)), Pending(Next(s, cur)), e);
    }
  }

  lemma Spread(p: int, c: int, d: int, q: int, e: int)
    requires p + 2 * c == d + 2 * q
    ensures p * e + c * (2 * e) == d * e + q * (2 * e)
  {
    assert p * e + c * (2 * e) == (p + 2 * c) * e;
    assert d * e + q * (2 * e) == (d + 2 * q) * e;
  }

  lemma {:induction false} ModStep(n: nat, k: nat)
    ensures n % Exp2(k + 1) == (if k == 0 then 0 else n % Exp2(k)) + Val(Bit(n, k)) * Exp2(k)
  {
    if k > 0 {
      HalveDivMod(n, Exp2(k)); HalveDivMod(n, Exp2(k - 1));
      ModStep(n / 2, k - 1);
      assert Val(Bit(n, k)) * (2 * Exp2(k - 1)) == 2 * (Val(Bit(n, k)) * Exp2(k - 1));
    }
  }

  /** Digits above the top bit of n and one more are zero, and nothing is pending there. */
  lemma {:induction false} DrainsAbove(n: nat, w: nat, k: nat)
    requires n < Exp2(w) && k > w
    ensures StateAt(n, k) == State(false, false) && CodeAt(n, k) == 0
  {
    BitBeyond(n, w, k); BitBeyond(n, w, k + 1); BitBeyond(n, w, w + 1); BitBeyond(n, w, w);
    NotBoth(n, k - 1);
    if k > w + 1 {
      DrainsAbove(n, w, k - 1);
    } else if w > 0 {
      NotBoth(n, w - 1);
    }
  }

  lemma {:induction false} NotBoth(n: nat, k: nat)
    ensures !(StateAt(n, k).last && StateAt(n, k).carry)
  {
  }

  /** The weighted sum of the digits is the scalar. */
  lemma DigitsSumToScalar(n: nat, w: nat)
    requires n < Exp2(w)
    ensures DigitSum(n, w + 1) == n
  {
    PrefixValue(n, w + 1);
    DrainsAbove(n, w, w + 1);
    Exp2Mono(w, w + 2);
    DivModUnique(n, Exp2(w + 2), 0, n);
  }

  /** No two neighbouring digits are both nonzero. */
  lemma NonAdjacent(n: nat, k: nat)
    ensures CodeAt(n, k) == 0 || CodeAt(n, k + 1) == 0
  {
  }

  // ---------- the table ----------

  const DIGIT_MASK: nat := 0x0303030303030303

  /** The state a table index starts from and the bits it feeds in. */
  function StartState(index: nat): State { State(Bit(index, 0), Bit(index, 9)) }

  function StateAfter(index: nat, k: nat): State {
    if k == 0 then StartState(index) else Next(StateAfter(index, k - 1), Bit(index, k))
  }

  function TableDigits(index: nat): (r: seq<byte>)
    ensures |r| == 8 && forall i | 0 <= i < 8 :: r[i] <= 2
  {
    seq(8, i requires 0 <= i < 8 => Code(StateAfter(index, i), Bit(index, i + 1)))
  }

  /** Eight digits, one to a byte, with the state left over in two spare bits of the first. */
  function TableEntry(index: nat): nat {
    var s := StateAfter(index, 8);
    var r := LE(TableDigits(index));
    var r := if s.carry then Or(r, 4) else r;
    if s.last then Or(r, 8) else r
  }

  ghost predicate TableReady(table: array<nat>)
    reads table
  {
    table.Length == 1024 && forall i | 0 <= i < 1024 :: table[i] == TableEntry(i)
  }

  method BuildNafTable() returns (table: array<nat>)
    ensures fresh(table) && TableReady(table)
  {
    table := new nat[1024];
    for index := 0 to 1024
      invariant forall i | 0 <= i < index :: table[i] == TableEntry(i)
    {
      var carry := Bit(index, 9);
      var last := Bit(index, 0);
      var res: seq<byte> := [];
      for i := 0 to 8
        invariant State(last, carry) == StateAfter(index, i)
        invariant |res| == i && forall j | 0 <= j < i :: res[j] == TableDigits(index)[j]
      {
        var cur := Bit(index, i + 1);
        var code: byte := 0;
        if last {
          if cur {
            if carry {
              last, carry, code := false, true, 1;
            } else {
              last, carry, code := false, true, 2;
            }
          } else {
            if carry {
              last, carry, code := false, true, 2;
            } else {
              last, carry, code := false, false, 1;
            }
          }
        } else {
          if cur {
            if carry {
              last, carry, code := false, true, 0;
            } else {
              last, carry, code := true, false, 0;
            }
          } else {
            if carry {
              last, carry, code := true, false, 0;
            } else {
              last, carry, code := false, false, 0;
            }
          }
        }
        res := res + [code];
      }
      assert res == TableDigits(index);
      var r64 := LE(res);
      if carry { r64 := Or(r64, 4); }
      if last { r64 := Or(r64, 8); }
      table[index] := r64;
    }
  }

  // ---------- taking table entries apart ----------

  lemma {:induction false} BitOfPower(m: nat, k: nat)
    ensures Bit(Exp2(m), k) == (k == m)
  {
    if m == 0 {
      if k > 0 { BitOfZero(k - 1); }
    } else if k > 0 {
      BitOfPower(m - 1, k - 1);
    }
  }

  lemma EntryBit(index: nat, k: nat)
    ensures var s := StateAfter(index, 8);
            Bit(TableEntry(index), k) ==
            (Bit(LE(TableDigits(index)), k) || (s.carry && k == 2) || (s.last && k == 3))
  {
    var s := StateAfter(index, 8);
    var r := LE(TableDigits(index));
    assert Exp2(2) == 4 && Exp2(3) == 8;
    BitOfPower(2, k); BitOfPower(3, k);
    BitOr(r, 4, k);
    BitOr(if s.carry then Or(r, 4) else r, 8, k);
  }

  lemma SmallDigitBit(c: byte, j: nat)
    requires c <= 2 && j >= 2
    ensures !Bit(c, j)
  {
    assert Exp2(2) == 4;
    BitBeyond(c, 2, j);
  }

  lemma AndEven(x: nat, y: nat)
    requires y % 2 == 0
    ensures And(x, y) == 2 * And(x / 2, y / 2)
  {
  }

  lemma {:induction false} AndPower(x: nat, m: nat)
    ensures (And(x, Exp2(m)) != 0) == Bit(x, m)
  {
    if m > 0 {
      AndEven(x, Exp2(m));
      AndPower(x / 2, m - 1);
    } else {
      AndLowMask(x, 1);
      assert Exp2(1) == 2 * Exp2(0) && Exp2(0) == 1;
    }
  }

  lemma EntryFlags(index: nat)
    ensures (And(TableEntry(index), 4) != 0) == StateAfter(index, 8).carry
    ensures (And(TableEntry(index), 8) != 0) == StateAfter(index, 8).last
  {
    AndPower(TableEntry(index), 2); AndPower(TableEntry(index), 3);
    assert Exp2(1) == 2 && Exp2(2) == 4 && Exp2(3) == 8;
    EntryBit(index, 2); EntryBit(index, 3);
    var d := TableDigits(index);
    LEBit(d, 0, 2); LEBit(d, 0, 3);
    SmallDigitBit(d[0], 2); SmallDigitBit(d[0], 3);
  }

  function Threes(w: nat): (r: seq<byte>)
    ensures |r| == w && (forall k | 0 <= k < w :: r[k] == 3)
    ensures LE(r) == if w == 0 then 0 else 3 + 256 * LE(Threes(w - 1))
  {
    if w == 0 then [] else
      var t := Threes(w - 1);
      assert ([3] + t)[1..] == t;
      [3] + t
  }

  lemma MaskBit(i: nat, j: nat)
    requires i < 8 && j < 8
    ensures Bit(DIGIT_MASK, 8 * i + j) == (j < 2)
  {
    var m := Threes(8);
    assert LE(Threes(2)) == 0x0303;
    assert LE(Threes(4)) == 0x03030303;
    assert LE(Threes(6)) == 0x030303030303;
    assert LE(m) == DIGIT_MASK;
    LEBit(m, i, j);
    assert Exp2(2) == 4 && 3 == Exp2(2) - 1;
    if j >= 2 { BitBeyond(3, 2, j); } else { assert Bit(3, 0) && Bit(3, 1); }
  }

  lemma EntryDigitBit(index: nat, i: nat, j: nat)
    requires i < 8 && j < 8
    ensures Bit(And(TableEntry(index), DIGIT_MASK), 8 * i + j) == Bit(LE(TableDigits(index)), 8 * i + j)
  {
    var d := TableDigits(index);
    BitAnd(TableEntry(index), DIGIT_MASK, 8 * i + j);
    MaskBit(i, j);
    EntryBit(index, 8 * i + j);
    LEBit(d, i, j);
    if j >= 2 { SmallDigitBit(d[i], j); }
  }

  lemma {:induction false} AndBelow(x: nat, y: nat)
    ensures And(x, y) <= y
  {
    if x > 0 && y > 0 { AndBelow(x / 2, y / 2); }
  }

  /** Masking leaves exactly the digits. */
  lemma EntryDigits(index: nat)
    ensures And(TableEntry(index), DIGIT_MASK) == LE(TableDigits(index))
  {
    var d, v := TableDigits(index), And(TableEntry(index), DIGIT_MASK);
    forall k | 0 <= k < 64
      ensures Bit(v, k) == Bit(LE(d), k)
    {
      EntryDigitBit(index, k / 8, k % 8);
      assert 8 * (k / 8) + k % 8 == k;
    }
    LEBound(d);
    AndBelow(TableEntry(index), DIGIT_MASK);
    WordSizes();
    BitsEqual(v, LE(d), 64);
  }

  // ---------- recoding a scalar ----------

  /** The bits a table index is made of. */
  predicate IndexFor(index: nat, s: State, b: byte, nextBit: bool) {
    && Bit(index, 0) == s.last && Bit(index, 9) == s.carry && Bit(index, 8) == nextBit
    && forall k: nat | 1 <= k < 8 :: Bit(index, k) == Bit(b, k)
  }

  function Index(s: State, b: byte, nextBit: bool): nat {
    Val(s.last) + And(b, 0xFE) + 0x100 * Val(nextBit) + 0x200 * Val(s.carry)
  }

  lemma MaskedByte(b: byte, mask: byte)
    requires mask == 0xFE
    ensures And(b, mask) == 2 * (b / 2)
  {
    AndEven(b, mask);
    SevenBits();
    LowBits(b / 2, mask / 2, 7);
  }

  lemma LowBits(x: nat, mask: nat, w: nat)
    requires x < Exp2(w) && mask == Exp2(w) - 1
    ensures And(x, mask) == x
  {
    AndLowMask(x, w);
    DivModUnique(x, Exp2(w), 0, x);
  }

  lemma SevenBits()
    ensures Exp2(7) == 128
  {
  }

  lemma TwoBytes(low: byte, high: byte, k: nat)
    requires k < 16
    ensures Bit(low + 256 * high, k) == if k < 8 then Bit(low, k) else Bit(high, k - 8)
  {
    var t: seq<byte> := [low, high];
    assert t[1..] == [high] && [high][1..] == [];
    assert LE([high]) == high + 256 * LE([]) && LE([]) == 0;
    assert LE(t) == low + 256 * high;
    LEBit(t, k / 8, k % 8);
  }

  lemma IndexBits(s: State, b: byte, nextBit: bool)
    ensures Index(s, b, nextBit) < 1024 && IndexFor(Index(s, b, nextBit), s, b, nextBit)
  {
    MaskedByte(b, 0xFE);
    var low: byte, high: byte := Val(s.last) + 2 * (b / 2), Val(nextBit) + 2 * Val(s.carry);
    var index := low + 256 * high;
    assert Index(s, b, nextBit) == index;
    LowAndHighBits(low, high, s, nextBit);
    TwoBytes(low, high, 0); TwoBytes(low, high, 8); TwoBytes(low, high, 9);
    forall k: nat | 1 <= k < 8
      ensures Bit(index, k) == Bit(b, k)
    {
      TwoBytes(low, high, k);
      SameAbove(low, b, k);
    }
  }

  lemma LowAndHighBits(low: byte, high: byte, s: State, nextBit: bool)
    requires low % 2 == Val(s.last) && high == Val(nextBit) + 2 * Val(s.carry)
    ensures Bit(low, 0) == s.last && Bit(high, 0) == nextBit && Bit(high, 1) == s.carry
  {
    assert Bit(high, 1) == Bit(high / 2, 0);
  }

  lemma SameAbove(x: nat, y: nat, k: nat)
    requires x / 2 == y / 2 && k >= 1
    ensures Bit(x, k) == Bit(y, k)
  {
    assert Bit(x, k) == Bit(x / 2, k - 1);
  }

  predicate SameBits(n: nat, at: nat, b: byte, nextBit: bool) {
    && (forall j: nat | 1 <= j < 8 :: Bit(n, at + j) == Bit(b, j))
    && Bit(n, at + 8) == nextBit
  }

  /** Eight steps of the table's automaton are eight steps of the scalar's. */
  lemma {:induction false} TableFollows(index: nat, n: nat, at: nat, b: byte, nextBit: bool, k: nat)
    requires IndexFor(index, StateAt(n, at), b, nextBit) && SameBits(n, at, b, nextBit) && k <= 8
    ensures StateAfter(index, k) == StateAt(n, at + k)
    ensures k < 8 ==> TableDigits(index)[k] == CodeAt(n, at + k)
  {
    BitsAgree(index, n, at, b, nextBit, k);
    BitsAgree(index, n, at, b, nextBit, k + 1);
    if k > 0 { TableFollows(index, n, at, b, nextBit, k - 1); }
  }

  lemma BitsAgree(index: nat, n: nat, at: nat, b: byte, nextBit: bool, k: nat)
    requires IndexFor(index, StateAt(n, at), b, nextBit) && SameBits(n, at, b, nextBit)
    ensures 1 <= k <= 8 ==> Bit(index, k) == Bit(n, at + k)
  {
  }

  /** Byte i of the scalar, with zeros past its end. */
  function ByteAt(scalar: seq<byte>, i: nat): byte { if i < |scalar| then scalar[i] else 0 }

  function NextBit(scalar: seq<byte>, i: nat): bool { i + 1 < |scalar| && Bit(scalar[i + 1], 0) }

  lemma ScalarBit(scalar: seq<byte>, i: nat, j: nat)
    requires j < 8
    ensures Bit(LE(scalar), 8 * i + j) == Bit(ByteAt(scalar, i), j)
  {
    if i < |scalar| {
      LEBit(scalar, i, j);
    } else {
      LEBitBeyond(scalar, 8 * i + j); BitOfZero(j);
    }
  }

  lemma ScalarWindow(scalar: seq<byte>, i: nat)
    ensures SameBits(LE(scalar), 8 * i, ByteAt(scalar, i), NextBit(scalar, i))
  {
    forall j: nat | 1 <= j < 8
      ensures Bit(LE(scalar), 8 * i + j) == Bit(ByteAt(scalar, i), j)
    {
      ScalarBit(scalar, i, j);
    }
    ScalarBit(scalar, i + 1, 0);
  }

  /** The digits of window i are the entry's digits. */
  predicate DigitsFrom(index: nat, n: nat, at: nat) {
    forall j: nat | j < 8 :: TableDigits(index)[j] == CodeAt(n, at + j)
  }

  /** One window: the table entry holds the next eight digits and the state behind them. */
  lemma Window(scalar: seq<byte>, i: nat, s: State, st: nat)
    requires s == StateAt(LE(scalar), 8 * i)
    requires st == Index(s, ByteAt(scalar, i), NextBit(scalar, i))
    ensures st < 1024 && StateAfter(st, 8) == StateAt(LE(scalar), 8 * (i + 1))
    ensures DigitsFrom(st, LE(scalar), 8 * i)
  {
    var n, b, nextBit := LE(scalar), ByteAt(scalar, i), NextBit(scalar, i);
    IndexBits(s, b, nextBit);
    ScalarWindow(scalar, i);
    WindowDigits(st, n, 8 * i, b, nextBit);
    TableFollows(st, n, 8 * i, b, nextBit, 8);
  }

  lemma WindowDigits(st: nat, n: nat, at: nat, b: byte, nextBit: bool)
    requires IndexFor(st, StateAt(n, at), b, nextBit) && SameBits(n, at, b, nextBit)
    ensures DigitsFrom(st, n, at)
  {
    forall j: nat | j < 8
      ensures TableDigits(st)[j] == CodeAt(n, at + j)
    {
      TableFollows(st, n, at, b, nextBit, j);
    }
  }

  lemma DigitByte(st: nat, n: nat, at: nat, j: nat)
    requires DigitsFrom(st, n, at) && j < 8
    ensures ByteOf(LE(TableDigits(st)), j) == CodeAt(n, at + j)
  {
    LEByte(TableDigits(st), j);
    assert TableDigits(st)[j] == CodeAt(n, at + j);
  }

  lemma LowBit(b: byte)
    ensures And(b, 1) == Val(Bit(b, 0))
  {
    AndLowMask(b, 1);
    assert Exp2(1) == 2 * Exp2(0) && Exp2(0) == 1;
  }

  /** Digits below upTo have been written. */
  ghost predicate Written(r: array<byte>, n: nat, upTo: nat)
    reads r
  {
    upTo <= r.Length && forall k: nat | k < upTo :: r[k] == CodeAt(n, k)
  }

  /** The store of one 64-bit word into the byte array. */
  method StoreWord(r: array<byte>, i: nat, v: nat)
    requires 8 * i + 8 <= r.Length
    modifies r
    ensures forall k: nat | k < r.Length :: r[k] == if 8 * i <= k < 8 * i + 8 then ByteOf(v, k - 8 * i) else old(r[k])
  {
    for j := 0 to 8
      invariant forall k: nat | k < r.Length ::
                  r[k] == if 8 * i <= k < 8 * i + j then ByteOf(v, k - 8 * i) else old(r[k])
    {
      r[8 * i + j] := ByteOf(v, j);
    }
  }

  /** The table index of window i. */
  method WindowIndex(scalar: seq<byte>, i: nat, last: bool, carry: bool) returns (st: nat)
    requires |scalar| >= 1
    ensures st == Index(State(last, carry), ByteAt(scalar, i), NextBit(scalar, i))
  {
    st := if last then 1 else 0;
    if i < |scalar| { st := st + And(scalar[i], 0xFE); }
    if i < |scalar| - 1 {
      st := st + 0x100 * And(scalar[i + 1], 1);
      LowBit(scalar[i + 1]);
    }
    if carry { st := st + 0x200; }
  }

  lemma WindowWritten(r: array<byte>, n: nat, at: nat, st: nat)
    requires Written(r, n, at) && DigitsFrom(st, n, at) && at + 8 <= r.Length
    requires forall k: nat | at <= k < at + 8 :: r[k] == ByteOf(LE(TableDigits(st)), k - at)
    ensures Written(r, n, at + 8)
  {
    forall k: nat | at <= k < at + 8
      ensures r[k] == CodeAt(n, k)
    {
      DigitByte(st, n, at, k - at);
    }
  }

  /** Look an entry up and take it apart. */
  method Lookup(table: array<nat>, st: nat) returns (carry: bool, last: bool, v: nat)
    requires TableReady(table) && st < 1024
    ensures State(last, carry) == StateAfter(st, 8) && v == LE(TableDigits(st))
  {
    var rs := table[st];
    EntryFlags(st); EntryDigits(st);
    carry := And(rs, 4) != 0;
    last := And(rs, 8) != 0;
    v := And(rs, DIGIT_MASK);
  }

  /** Window i: eight more digits, and the state behind them. */
  method WriteWindow(table: array<nat>, r: array<byte>, scalar: seq<byte>, i: nat, last: bool, carry: bool)
    returns (nextLast: bool, nextCarry: bool)
    requires TableReady(table) && |scalar| >= 1 && 8 * i + 8 <= r.Length
    requires State(last, carry) == StateAt(LE(scalar), 8 * i) && Written(r, LE(scalar), 8 * i)
    modifies r
    ensures State(nextLast, nextCarry) == StateAt(LE(scalar), 8 * i + 8)
    ensures Written(r, LE(scalar), 8 * i + 8)
  {
    var st := WindowIndex(scalar, i, last, carry);
    Window(scalar, i, State(last, carry), st);
    var v: nat;
    nextCarry, nextLast, v := Lookup(table, st);
    StoreWord(r, i, v);
    WindowWritten(r, LE(scalar), 8 * i, st);
  }

  /** r receives one digit code a byte, eight for every byte of the scalar and sixteen more. */
  method BuildNaf(table: array<nat>, r: array<byte>, scalar: seq<byte>)
    requires TableReady(table)
    requires |scalar| >= 1 && r.Length == 8 * (|scalar| + 2)
    modifies r
    ensures Written(r, LE(scalar), r.Length)
  {
    ghost var n := LE(scalar);
    var carry := false;
    var last := Bit(scalar[0], 0);
    ScalarBit(scalar, 0, 0);
    for i := 0 to |scalar| + 2
      invariant State(last, carry) == StateAt(n, 8 * i)
      invariant Written(r, n, 8 * i)
      invariant TableReady(table)
    {
      last, carry := WriteWindow(table, r, scalar, i, last, carry);
    }
  }
}
