/** UTF-8: the bytes of a text, reading them back, and searching among them. */
module Utf8 {
  import opened Bits
  import opened Bytes

  datatype Option<+T> = Some(value: T) | None

  // ---------- from characters to bytes ----------

  function CharBytes(c: char): seq<byte> {
    var n := c as int;
    if n < 0x80 then [n]
    else if n < 0x800 then [0xC0 + n / 0x40, 0x80 + n % 0x40]
    else if n < 0x1_0000 then [0xE0 + n / 0x1000, 0x80 + n / 0x40 % 0x40, 0x80 + n % 0x40]
    else [0xF0 + n / 0x4_0000, 0x80 + n / 0x1000 % 0x40, 0x80 + n / 0x40 % 0x40, 0x80 + n % 0x40]
  }

  function TextBytes(s: string): seq<byte> {
    if s == "" then [] else CharBytes(s[0]) + TextBytes(s[1..])
  }

  lemma {:induction false} TextBytesConcat(s: string, t: string)
    ensures TextBytes(s + t) == TextBytes(s) + TextBytes(t)
  {
    if s == "" {
      assert s + t == t;
    } else {
      assert (s + t)[1..] == s[1..] + t;
      TextBytesConcat(s[1..], t);
    }
  }

  // ---------- and back ----------

  /** How many bytes a lead byte announces: its leading ones. Continuation bytes have one, and lead nothing. */
  function Announced(lead: byte): nat {
    if lead < 0x80 then 1
    else if 0xC0 <= lead < 0xE0 then 2
    else if 0xE0 <= lead < 0xF0 then 3
    else if 0xF0 <= lead < 0xF8 then 4
    else 0
  }

  predicate Continues(b: byte) { 0x80 <= b < 0xC0 }

  /** So many code points fit into w bytes: 7, 11, 16 or 21 bits. */
  function Capacity(w: nat): nat { if w == 0 then 0 else Exp2(if w == 1 then 7 else 5 * w + 1) }

  /** The bits of a lead byte after its leading ones and a zero. */
  function Lead(b: byte): nat { b % Exp2(if b < 0x80 then 7 else 7 - Announced(b)) }

  /** What the lead byte holds, followed by six bits of every continuation byte. */
  function CodePoint(b: seq<byte>): nat
    requires b != []
  {
    if |b| == 1 then Lead(b[0])
    else 0x40 * CodePoint(b[..|b| - 1]) + b[|b| - 1] % 0x40
  }

  predicate Scalar(n: nat) { n < 0xD800 || 0xE000 <= n < 0x11_0000 }

  /** The bytes of one character: a lead byte, the continuation bytes it announces and no more bytes than
      the code point needs. */
  predicate IsChar(b: seq<byte>) {
    && b != [] && |b| == Announced(b[0]) && (forall i | 1 <= i < |b| :: Continues(b[i]))
    && Scalar(CodePoint(b)) && CodePoint(b) >= Capacity(|b| - 1)
  }

  function Decode(b: seq<byte>): Option<string> {
    if b == [] then Some("")
    else
      var w := Announced(b[0]);
      if w == 0 || w > |b| || !IsChar(b[..w]) then None
      else match Decode(b[w..])
           case None => None
           case Some(s) => Some([CodePoint(b[..w]) as char] + s)
  }

  // ---------- the two undo each other ----------

  lemma Powers()
    ensures Exp2(3) == 8 && Exp2(4) == 0x10 && Exp2(5) == 0x20 && Exp2(7) == 0x80
    ensures Capacity(1) == 0x80 && Capacity(2) == 0x800 && Capacity(3) == 0x1_0000
  {
    assert Exp2(8) == 0x100;
    Exp2Add(8, 3);
    Exp2Add(8, 8);
  }

  lemma LeadHolds(b: byte)
    ensures Announced(b) == 1 ==> Lead(b) == b
    ensures Announced(b) == 2 ==> Lead(b) == b - 0xC0
    ensures Announced(b) == 3 ==> Lead(b) == b - 0xE0
    ensures Announced(b) == 4 ==> Lead(b) == b - 0xF0
  {
    Powers();
  }

  // Two, three and four bytes: the six-bit digits of a number, and the bytes that hold them.

  lemma Digit(n: int, x: int, d: int)
    requires 0 <= d < 0x40 && n == 0x40 * x + d
    ensures n / 0x40 == x && n % 0x40 == d
  {
  }

  lemma Shifts(n: int)
    ensures n / 0x1000 == n / 0x40 / 0x40 && n / 0x4_0000 == n / 0x40 / 0x40 / 0x40
  {
  }

  lemma Three(n: int, x: int, y: int, z: int)
    requires 0 <= y < 0x40 && 0 <= z < 0x40
    ensures n == 0x40 * (0x40 * x + y) + z <==> n / 0x1000 == x && n / 0x40 % 0x40 == y && n % 0x40 == z
  {
    Shifts(n);
    if n == 0x40 * (0x40 * x + y) + z {
      Digit(n, 0x40 * x + y, z);
      Digit(n / 0x40, x, y);
    }
  }

  lemma Four(n: int, x: int, y: int, z: int, w: int)
    requires 0 <= y < 0x40 && 0 <= z < 0x40 && 0 <= w < 0x40
    ensures n == 0x40 * (0x40 * (0x40 * x + y) + z) + w <==>
            n / 0x4_0000 == x && n / 0x1000 % 0x40 == y && n / 0x40 % 0x40 == z && n % 0x40 == w
  {
    Shifts(n);
    Shifts(n / 0x40);
    Three(n / 0x40, x, y, z);
    if n == 0x40 * (0x40 * (0x40 * x + y) + z) + w { Digit(n, 0x40 * (0x40 * x + y) + z, w); }
  }

  lemma CodePointStep(b: seq<byte>, m: nat)
    requires 1 < m <= |b| && Continues(b[m - 1])
    ensures CodePoint(b[..m]) == 0x40 * CodePoint(b[..m - 1]) + (b[m - 1] as int - 0x80)
  {
    Digit(b[m - 1], 2, b[m - 1] - 0x80);
    assert b[..m][..m - 1] == b[..m - 1];
  }

  lemma CodePointOfTwo(b: seq<byte>)
    requires |b| == 2 && Announced(b[0]) == 2 && Continues(b[1])
    ensures CodePoint(b) == 0x40 * (b[0] as int - 0xC0) + (b[1] as int - 0x80)
  {
    LeadHolds(b[0]);
    CodePointStep(b, 2);
    assert b[..2] == b;
  }

  lemma CodePointOfThree(b: seq<byte>)
    requires |b| == 3 && Announced(b[0]) == 3 && Continues(b[1]) && Continues(b[2])
    ensures CodePoint(b) == 0x40 * (0x40 * (b[0] as int - 0xE0) + (b[1] as int - 0x80)) + (b[2] as int - 0x80)
  {
    LeadHolds(b[0]);
    CodePointStep(b, 2);
    CodePointStep(b, 3);
    assert b[..3] == b;
  }

  lemma CodePointOfFour(b: seq<byte>)
    requires |b| == 4 && Announced(b[0]) == 4 && Continues(b[1]) && Continues(b[2]) && Continues(b[3])
    ensures CodePoint(b) == 0x40 * (0x40 * (0x40 * (b[0] as int - 0xF0) + (b[1] as int - 0x80))
                                    + (b[2] as int - 0x80)) + (b[3] as int - 0x80)
  {
    LeadHolds(b[0]);
    CodePointStep(b, 2);
    CodePointStep(b, 3);
    CodePointStep(b, 4);
    assert b[..4] == b;
  }

  lemma RoundTwo(c: char)
    requires 0x80 <= c as int < 0x800
    ensures IsChar(CharBytes(c)) && CodePoint(CharBytes(c)) == c as int
  {
    Powers();
    CodePointOfTwo(CharBytes(c));
  }

  lemma RoundThree(c: char)
    requires 0x800 <= c as int < 0x1_0000
    ensures IsChar(CharBytes(c)) && CodePoint(CharBytes(c)) == c as int
  {
    var n := c as int;
    Powers();
    CodePointOfThree(CharBytes(c));
    Three(n, n / 0x1000, n / 0x40 % 0x40, n % 0x40);
  }

  lemma RoundFour(c: char)
    requires 0x1_0000 <= c as int
    ensures IsChar(CharBytes(c)) && CodePoint(CharBytes(c)) == c as int
  {
    var n := c as int;
    Powers();
    CodePointOfFour(CharBytes(c));
    Four(n, n / 0x4_0000, n / 0x1000 % 0x40, n / 0x40 % 0x40, n % 0x40);
  }

  /** Every character has bytes of its own. */
  lemma CharRound(c: char)
    ensures IsChar(CharBytes(c)) && CodePoint(CharBytes(c)) == c as int
  {
    var n := c as int;
    if n < 0x80 {
      LeadHolds(n);
    } else if n < 0x800 {
      RoundTwo(c);
    } else if n < 0x1_0000 {
      RoundThree(c);
    } else {
      RoundFour(c);
    }
  }

  lemma OnlyTwo(b: seq<byte>)
    requires IsChar(b) && |b| == 2
    ensures CharBytes(CodePoint(b) as char) == b
  {
    Powers();
    CodePointOfTwo(b);
    Digit(CodePoint(b), b[0] - 0xC0, b[1] - 0x80);
  }

  lemma OnlyThree(b: seq<byte>)
    requires IsChar(b) && |b| == 3
    ensures CharBytes(CodePoint(b) as char) == b
  {
    Powers();
    CodePointOfThree(b);
    Three(CodePoint(b), b[0] - 0xE0, b[1] - 0x80, b[2] - 0x80);
  }

  lemma OnlyFour(b: seq<byte>)
    requires IsChar(b) && |b| == 4
    ensures CharBytes(CodePoint(b) as char) == b
  {
    Powers();
    CodePointOfFour(b);
    Four(CodePoint(b), b[0] - 0xF0, b[1] - 0x80, b[2] - 0x80, b[3] - 0x80);
  }

  /** And they are the only ones. */
  lemma OnlyBytes(b: seq<byte>)
    requires IsChar(b)
    ensures CharBytes(CodePoint(b) as char) == b
  {
    if |b| == 1 {
      LeadHolds(b[0]);
      assert b == [b[0]];
    } else if |b| == 2 {
      OnlyTwo(b);
    } else if |b| == 3 {
      OnlyThree(b);
    } else {
      OnlyFour(b);
    }
  }

  /** Decoding gives back the text. */
  lemma {:induction false} DecodeText(s: string)
    ensures Decode(TextBytes(s)) == Some(s)
  {
    if s != "" {
      var b, c := TextBytes(s), CharBytes(s[0]);
      CharRound(s[0]);
      assert b[0] == c[0] && b[..|c|] == c && b[|c|..] == TextBytes(s[1..]);
      DecodeText(s[1..]);
      assert [s[0]] + s[1..] == s;
    }
  }

  lemma DecodeFirst(b: seq<byte>) returns (c: char, w: nat)
    requires b != [] && Decode(b).Some?
    ensures 0 < w <= |b| && CharBytes(c) == b[..w]
    ensures Decode(b[w..]).Some? && Decode(b).value == [c] + Decode(b[w..]).value
  {
    w := Announced(b[0]);
    c := CodePoint(b[..w]) as char;
    OnlyBytes(b[..w]);
  }

  lemma TextBytesFirst(c: char, s: string)
    ensures TextBytes([c] + s) == CharBytes(c) + TextBytes(s)
  {
    assert ([c] + s)[1..] == s;
  }

  /** And accepts no other bytes. */
  lemma {:induction false} TextDecoded(b: seq<byte>)
    requires Decode(b).Some?
    ensures TextBytes(Decode(b).value) == b
  {
    if b != [] {
      var c, w := DecodeFirst(b);
      TextDecoded(b[w..]);
      TextBytesFirst(c, Decode(b[w..]).value);
      assert b[..w] + b[w..] == b;
    }
  }

  // ---------- offsets ----------

  /** The byte offset of character k. */
  function Offset(s: string, k: nat): nat
    requires k <= |s|
  {
    |TextBytes(s[..k])|
  }

  lemma OffsetNext(s: string, k: nat)
    requires k < |s|
    ensures Offset(s, k + 1) == Offset(s, k) + |CharBytes(s[k])|
  {
    assert s[..k + 1] == s[..k] + [s[k]];
    TextBytesConcat(s[..k], [s[k]]);
    assert [s[k]][1..] == "";
  }

  lemma OffsetSplits(s: string, k: nat)
    requires k <= |s|
    ensures Offset(s, k) <= |TextBytes(s)| && TextBytes(s)[Offset(s, k)..] == TextBytes(s[k..])
  {
    assert s[..k] + s[k..] == s;
    TextBytesConcat(s[..k], s[k..]);
  }

  lemma OffsetShift(s: string, k: nat)
    requires k < |s|
    ensures Offset(s, k + 1) == |CharBytes(s[0])| + Offset(s[1..], k)
  {
    assert s[..k + 1][1..] == s[1..][..k];
  }

  // ---------- searching ----------

  predicate OccursAt<T(==)>(s: seq<T>, pattern: seq<T>, i: nat) {
    i + |pattern| <= |s| && s[i..i + |pattern|] == pattern
  }

  predicate FirstAt<T(==)>(s: seq<T>, pattern: seq<T>, i: nat) {
    OccursAt(s, pattern, i) && forall j: nat | j < i :: !OccursAt(s, pattern, j)
  }

  /** A byte that continues nothing starts a character. */
  lemma {:induction false} StartsChar(s: string, j: nat) returns (k: nat)
    requires j < |TextBytes(s)| && !Continues(TextBytes(s)[j])
    ensures k < |s| && Offset(s, k) == j
  {
    var c := CharBytes(s[0]);
    CharRound(s[0]);
    if j < |c| {
      assert TextBytes(s)[j] == c[j];
      k := 0;
    } else {
      var k' := StartsChar(s[1..], j - |c|);
      OffsetShift(s, k');
      k := k' + 1;
    }
  }

  /** Texts whose bytes start alike start alike. */
  lemma {:induction false} PrefixOfText(p: string, s: string)
    requires TextBytes(p) <= TextBytes(s)
    ensures p <= s
  {
    if p != "" {
      var b, c := CharBytes(p[0]), CharBytes(s[0]);
      CharRound(p[0]);
      CharRound(s[0]);
      assert TextBytes(p)[0] == TextBytes(s)[0];
      assert b == TextBytes(p)[..|b|] == TextBytes(s)[..|b|] == c;
      assert TextBytes(p[1..]) == TextBytes(p)[|b|..] <= TextBytes(s)[|b|..] == TextBytes(s[1..]);
      PrefixOfText(p[1..], s[1..]);
    }
  }

  /** Where a text occurs, its bytes do. */
  lemma BytesOccur(s: string, p: string, k: nat)
    requires OccursAt(s, p, k)
    ensures OccursAt(TextBytes(s), TextBytes(p), Offset(s, k))
  {
    assert s[k..] == p + s[k + |p|..];
    TextBytesConcat(p, s[k + |p|..]);
    OffsetSplits(s, k);
    SlicePrefix(TextBytes(s), Offset(s, k), TextBytes(p));
  }

  lemma FirstByte(p: string)
    requires p != ""
    ensures TextBytes(p) != [] && !Continues(TextBytes(p)[0])
  {
    CharRound(p[0]);
  }

  lemma SlicePrefix<T>(b: seq<T>, j: nat, p: seq<T>)
    requires j <= |b|
    ensures OccursAt(b, p, j) <==> p <= b[j..]
  {
    if j + |p| <= |b| { assert b[j..][..|p|] == b[j..j + |p|]; }
  }

  /** Where the bytes of a text occur, the text does. */
  lemma TextOccurs(s: string, p: string, j: nat) returns (k: nat)
    requires p != "" && OccursAt(TextBytes(s), TextBytes(p), j)
    ensures k < |s| && Offset(s, k) == j && OccursAt(s, p, k)
  {
    var b := TextBytes(s);
    FirstByte(p);
    assert b[j] == b[j..j + |TextBytes(p)|][0];
    k := StartsChar(s, j);
    OffsetSplits(s, k);
    SlicePrefix(b, j, TextBytes(p));
    PrefixOfText(p, s[k..]);
    SlicePrefix(s, k, p);
  }

  lemma {:induction false} OffsetMono(s: string, i: nat, k: nat)
    requires i <= k <= |s|
    ensures Offset(s, i) + (k - i) <= Offset(s, k)
  {
    if i < k {
      OffsetNext(s, k - 1);
      OffsetMono(s, i, k - 1);
    }
  }

  /** The first place among the characters is the first place among the bytes. */
  lemma FirstAmongBytes(s: string, p: string, k: nat)
    requires p != "" && FirstAt(s, p, k)
    ensures FirstAt(TextBytes(s), TextBytes(p), Offset(s, k))
  {
    BytesOccur(s, p, k);
    forall j: nat | j < Offset(s, k)
      ensures !OccursAt(TextBytes(s), TextBytes(p), j)
    {
      if OccursAt(TextBytes(s), TextBytes(p), j) {
        var i := TextOccurs(s, p, j);
        if i >= k { OffsetMono(s, k, i); }
      }
    }
  }
}
