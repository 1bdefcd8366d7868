/** The parser of one field of a token payload: a cursor over characters, with positions reported as byte
    offsets of the UTF-8 text. */
module FieldParser {
  import opened Bytes
  import opened Utf8

  datatype Explanation =
    UnexpectedEnd | ExpectedString | ExpectedChar(options: seq<char>, got: char) | NotFound(text: string)

  datatype Error = Error(explanation: Explanation, index: nat, wholeStr: string)

  datatype Result<+T> = Ok(value: T) | Err(error: Error)
  {
    predicate IsFailure() { Err? }
    function PropagateFailure<U>(): Result<U>
      requires Err?
    {
      Err(error)
    }
    function Extract(): T
      requires Ok?
    {
      value
    }
  }

  datatype ParsedField = ParsedField(key: string, value: string, colonIndex: nat, valueIndex: nat, wholeField: string)

  lemma EndOffset(s: string, k: nat)
    requires k < |s| && (s[k] == ',' || s[k] == '}')
    ensures Offset(s, k + 1) == Offset(s, k) + 1
  {
    OffsetNext(s, k);
  }

  // ---------- where the scans stop ----------

  predicate Delimits(c: char) { c == ' ' || c == ',' || c == '}' }

  function SkipSpaces(s: string, i: nat): (e: nat)
    requires i <= |s|
    ensures i <= e <= |s| && (e < |s| ==> s[e] != ' ') && forall k | i <= k < e :: s[k] == ' '
    decreases |s| - i
  {
    if i == |s| || s[i] != ' ' then i else SkipSpaces(s, i + 1)
  }

  function FindQuote(s: string, i: nat): (e: nat)
    requires i <= |s|
    ensures i <= e <= |s| && (e < |s| ==> s[e] == '"') && forall k | i <= k < e :: s[k] != '"'
    decreases |s| - i
  {
    if i == |s| || s[i] == '"' then i else FindQuote(s, i + 1)
  }

  function FindDelimiter(s: string, i: nat): (e: nat)
    requires i <= |s|
    ensures i <= e <= |s| && (e < |s| ==> Delimits(s[e])) && forall k | i <= k < e :: !Delimits(s[k])
    decreases |s| - i
  {
    if i == |s| || Delimits(s[i]) then i else FindDelimiter(s, i + 1)
  }

  // ---------- what a scan finds ----------

  /** A piece of text, where it starts, and where the cursor stands after it. */
  datatype Scan = Scan(start: nat, text: string, next: nat)

  function Fail(s: string, e: Explanation, at: nat): Error
    requires at <= |s|
  {
    Error(e, Offset(s, at), s)
  }

  function ScanString(s: string, i: nat): (r: Result<Scan>)
    requires i <= |s|
    ensures r.Ok? ==> i < r.value.start < r.value.next <= |s|
  {
    if i == |s| then Err(Fail(s, UnexpectedEnd, |s|))
    else if s[i] != '"' then Err(Fail(s, ExpectedString, i))
    else if i + 1 == |s| then Err(Fail(s, UnexpectedEnd, |s|))
    else
      var e := FindQuote(s, i + 2);
      if e == |s| then Err(Fail(s, UnexpectedEnd, |s|)) else Ok(Scan(i + 1, s[i + 1..e], e + 1))
  }

  function ScanUnquoted(s: string, i: nat): (r: Result<Scan>)
    requires i <= |s|
    ensures r.Ok? ==> i == r.value.start <= r.value.next < |s|
  {
    var e := FindDelimiter(s, i);
    if e == |s| then Err(Fail(s, UnexpectedEnd, |s|)) else Ok(Scan(i, s[i..e], e))
  }

  function ScanValue(s: string, i: nat): (r: Result<Scan>)
    requires i <= |s|
    ensures r.Ok? ==> i <= r.value.start <= r.value.next <= |s|
  {
    var j := SkipSpaces(s, i);
    if j == |s| then Err(Fail(s, UnexpectedEnd, |s|))
    else if s[j] == '"' then ScanString(s, j)
    else ScanUnquoted(s, j)
  }

  function ScanChar(s: string, i: nat, options: seq<char>): (r: Result<Scan>)
    requires i <= |s|
    ensures r.Ok? ==> i <= r.value.start < r.value.next == r.value.start + 1 <= |s|
  {
    var j := SkipSpaces(s, i);
    if j == |s| then Err(Fail(s, UnexpectedEnd, |s|))
    else if s[j] in options then Ok(Scan(j, s[j..j + 1], j + 1))
    else Err(Fail(s, ExpectedChar(options, s[j]), j))
  }

  function ParseEnd(s: string, key: Scan, colon: Scan, value: Scan): Result<ParsedField>
    requires colon.start <= |s| && value.start <= |s| && value.next <= |s|
  {
    match ScanChar(s, value.next, [',', '}'])
    case Err(e) => Err(e)
    case Ok(end) => Ok(ParsedField(key.text, value.text, Offset(s, colon.start), Offset(s, value.start), s[..end.next]))
  }

  function ParseValue(s: string, key: Scan, colon: Scan): Result<ParsedField>
    requires colon.start <= |s| && colon.next <= |s|
  {
    match ScanValue(s, colon.next)
    case Err(e) => Err(e)
    case Ok(value) => ParseEnd(s, key, colon, value)
  }

  function ParseColon(s: string, key: Scan): Result<ParsedField>
    requires key.next <= |s|
  {
    match ScanChar(s, key.next, [':'])
    case Err(e) => Err(e)
    case Ok(colon) => ParseValue(s, key, colon)
  }

  /** The field from character i on. The whole field always starts with the text. */
  function ParseFrom(s: string, i: nat): Result<ParsedField>
    requires i <= |s|
  {
    match ScanString(s, i)
    case Err(e) => Err(e)
    case Ok(key) => ParseColon(s, key)
  }

  function ParseField(s: string): Result<ParsedField> { ParseFrom(s, 0) }

  // ---------- what that is in the bytes of the text ----------

  /** The bytes start with the whole field, have a colon where it is reported, and the value where that is. */
  predicate Reported(b: seq<byte>, f: ParsedField) {
    && OccursAt(b, TextBytes(f.wholeField), 0)
    && f.colonIndex < |b| && b[f.colonIndex] == ':' as int
    && OccursAt(b, TextBytes(f.value), f.valueIndex)
  }

  lemma ScanOccurs(s: string, i: nat, j: nat)
    requires i <= j <= |s|
    ensures OccursAt(TextBytes(s), TextBytes(s[i..j]), Offset(s, i))
  {
    BytesOccur(s, s[i..j], i);
  }

  lemma ColonByte(s: string, i: nat)
    requires i < |s| && s[i] == ':'
    ensures Offset(s, i) < |TextBytes(s)| && TextBytes(s)[Offset(s, i)] == ':' as int
  {
    ScanOccurs(s, i, i + 1);
    assert s[i..i + 1] == [':'];
    assert TextBytes([':']) == [':' as int];
  }

  lemma ValueText(s: string, i: nat)
    requires i <= |s| && ScanValue(s, i).Ok?
    ensures var t := ScanValue(s, i).value; exists j :: t.start <= j <= |s| && t.text == s[t.start..j]
  {
    var j := SkipSpaces(s, i);
    if s[j] == '"' {
      assert ScanString(s, j).value.text == s[j + 1..FindQuote(s, j + 2)];
    } else {
      assert ScanUnquoted(s, j).value.text == s[j..FindDelimiter(s, j)];
    }
  }

  /** What a successful parse reports is so in the bytes of the whole text. */
  lemma ParsedIsReported(s: string, i: nat)
    requires i <= |s| && ParseFrom(s, i).Ok?
    ensures Reported(TextBytes(s), ParseFrom(s, i).value)
  {
    var key := ScanString(s, i).value;
    var colon := ScanChar(s, key.next, [':']).value;
    var value := ScanValue(s, colon.next).value;
    var end := ScanChar(s, value.next, [',', '}']).value;
    assert ParseFrom(s, i) == ParseColon(s, key) == ParseValue(s, key, colon) == ParseEnd(s, key, colon, value);
    ScanOccurs(s, 0, end.next);
    ColonByte(s, colon.start);
    ValueText(s, colon.next);
    var j :| value.start <= j <= |s| && value.text == s[value.start..j];
    ScanOccurs(s, value.start, j);
  }

  // ---------- what an error says ----------

  /** The character of which an error complains. */
  predicate At(s: string, index: nat, c: char) { exists k: nat :: k < |s| && Offset(s, k) == index && s[k] == c }

  /** An error points at the end of the text when that was reached too early, and otherwise at a character
      that is not what was wanted there. */
  predicate Truthful(s: string, e: Error) {
    && e.wholeStr == s
    && match e.explanation
       case UnexpectedEnd => e.index == |TextBytes(s)|
       case ExpectedString => exists c :: c != '"' && At(s, e.index, c)
       case ExpectedChar(options, got) => got != ' ' && got !in options && At(s, e.index, got)
       case NotFound(_) => false
  }

  lemma FailsAtEnd(s: string)
    ensures Truthful(s, Fail(s, UnexpectedEnd, |s|))
  {
    assert s[..|s|] == s;
  }

  lemma StringFails(s: string, i: nat)
    requires i <= |s| && ScanString(s, i).Err?
    ensures Truthful(s, ScanString(s, i).error)
  {
    FailsAtEnd(s);
    if i < |s| && s[i] != '"' { assert At(s, Offset(s, i), s[i]); }
  }

  lemma CharFails(s: string, i: nat, options: seq<char>)
    requires i <= |s| && ScanChar(s, i, options).Err?
    ensures Truthful(s, ScanChar(s, i, options).error)
  {
    FailsAtEnd(s);
    var j := SkipSpaces(s, i);
    if j < |s| { assert At(s, Offset(s, j), s[j]); }
  }

  lemma ValueFails(s: string, i: nat)
    requires i <= |s| && ScanValue(s, i).Err?
    ensures Truthful(s, ScanValue(s, i).error)
  {
    FailsAtEnd(s);
    var j := SkipSpaces(s, i);
    if j < |s| && s[j] == '"' { StringFails(s, j); }
  }

  /** What a failing parse reports is so. */
  lemma ErrorsAreTrue(s: string, i: nat)
    requires i <= |s| && ParseFrom(s, i).Err?
    ensures Truthful(s, ParseFrom(s, i).error)
  {
    if ScanString(s, i).Err? {
      StringFails(s, i);
      return;
    }
    var key := ScanString(s, i).value;
    assert ParseFrom(s, i) == ParseColon(s, key);
    if ScanChar(s, key.next, [':']).Err? {
      CharFails(s, key.next, [':']);
      return;
    }
    var colon := ScanChar(s, key.next, [':']).value;
    assert ParseColon(s, key) == ParseValue(s, key, colon);
    if ScanValue(s, colon.next).Err? {
      ValueFails(s, colon.next);
      return;
    }
    var value := ScanValue(s, colon.next).value;
    assert ParseValue(s, key, colon) == ParseEnd(s, key, colon, value);
    CharFails(s, value.next, [',', '}']);
  }

  // ---------- the parser ----------

  lemma Grown(s: string, i: nat, k: nat)
    requires i <= k < |s|
    ensures s[i..k + 1] == s[i..k] + [s[k]]
  {
  }

  lemma Led(s: string, i: nat, k: nat)
    requires i < k <= |s|
    ensures s[i..k] == [s[i]] + s[i + 1..k]
  {
  }

  class Parser {
    const wholeStr: string
    /** How many characters have been taken. */
    var pos: nat

    constructor (s: string)
      ensures wholeStr == s && pos == 0
    {
      wholeStr, pos := s, 0;
    }

    predicate Valid()
      reads this
    {
      pos <= |wholeStr|
    }

    function AnError(e: Explanation): Error
      requires Valid()
      reads this
    {
      Fail(wholeStr, e, pos)
    }

    method Peek() returns (r: Result<(nat, char)>)
      requires Valid()
      ensures r == if pos == |wholeStr| then Err(Fail(wholeStr, UnexpectedEnd, |wholeStr|))
                   else Ok((Offset(wholeStr, pos), wholeStr[pos]))
    {
      if pos < |wholeStr| {
        return Ok((Offset(wholeStr, pos), wholeStr[pos]));
      }
      return Err(AnError(UnexpectedEnd));
    }

    method Next() returns (r: Result<(nat, char)>)
      requires Valid()
      modifies this
      ensures Valid() && pos == if old(pos) < |wholeStr| then old(pos) + 1 else old(pos)
      ensures r == if old(pos) == |wholeStr| then Err(Fail(wholeStr, UnexpectedEnd, |wholeStr|))
                   else Ok((Offset(wholeStr, old(pos)), wholeStr[old(pos)]))
    {
      if pos < |wholeStr| {
        pos := pos + 1;
        return Ok((Offset(wholeStr, pos - 1), wholeStr[pos - 1]));
      }
      return Err(AnError(UnexpectedEnd));
    }

    method ConsumeWhitespace() returns (r: Result<nat>)
      requires Valid()
      modifies this
      ensures Valid() && pos == SkipSpaces(wholeStr, old(pos))
      ensures r.Ok? <==> pos < |wholeStr|
      ensures r.Err? ==> r.error == Fail(wholeStr, UnexpectedEnd, |wholeStr|)
    {
      var p :- Peek();
      var c := p;
      while c.1 == ' '
        invariant old(pos) <= pos < |wholeStr| && c.1 == wholeStr[pos]
        invariant SkipSpaces(wholeStr, pos) == SkipSpaces(wholeStr, old(pos))
        decreases |wholeStr| - pos
      {
        var n := Next();
        c :- Peek();
      }
      return Ok(p.0);
    }

    method ConsumeNonWhitespaceChar(options: seq<char>) returns (r: Result<(nat, char)>)
      requires Valid()
      modifies this
      ensures Valid()
      ensures var scan := ScanChar(wholeStr, old(pos), options);
              match scan
              case Ok(t) => pos == t.next && r == Ok((Offset(wholeStr, t.start), wholeStr[t.start]))
              case Err(e) => r == Err(e)
    {
      var c :- Peek();
      while c.1 == ' '
        invariant old(pos) <= pos < |wholeStr| && c.1 == wholeStr[pos]
        invariant SkipSpaces(wholeStr, pos) == SkipSpaces(wholeStr, old(pos))
        decreases |wholeStr| - pos
      {
        var n := Next();
        c :- Peek();
      }
      if c.1 in options {
        r := Next();
      } else {
        return Err(AnError(ExpectedChar(options, c.1)));
      }
    }

    /** The loop that collects characters up to the next quote. */
    method TakeUntilQuote() returns (r: Result<string>)
      requires Valid()
      modifies this
      ensures Valid()
      ensures var e := FindQuote(wholeStr, old(pos));
              if e == |wholeStr| then r == Err(Fail(wholeStr, UnexpectedEnd, |wholeStr|))
              else pos == e && r == Ok(wholeStr[old(pos)..e])
    {
      var result := "";
      var p :- Peek();
      while p.1 != '"'
        invariant old(pos) <= pos < |wholeStr| && p.1 == wholeStr[pos]
        invariant result == wholeStr[old(pos)..pos]
        invariant FindQuote(wholeStr, pos) == FindQuote(wholeStr, old(pos))
        decreases |wholeStr| - pos
      {
        Grown(wholeStr, old(pos), pos);
        var c := Next();
        result := result + [c.value.1];
        p :- Peek();
      }
      return Ok(result);
    }

    method ConsumeString() returns (r: Result<(nat, string)>)
      requires Valid()
      modifies this
      ensures Valid()
      ensures match ScanString(wholeStr, old(pos))
              case Ok(t) => pos == t.next && r == Ok((Offset(wholeStr, t.start), t.text))
              case Err(e) => r == Err(e)
    {
      var first :- Peek();
      if first.1 != '"' {
        return Err(AnError(ExpectedString));
      }
      var open := Next();
      var index :- Peek();
      var result := "";
      var c := Next();
      result := result + [c.value.1];
      var more :- TakeUntilQuote();
      Led(wholeStr, old(pos) + 1, pos);
      result := result + more;
      assert result == wholeStr[old(pos) + 1..pos];
      var close := Next();
      return Ok((index.0, result));
    }

    method ConsumeUnquoted() returns (r: Result<(nat, string)>)
      requires Valid()
      modifies this
      ensures Valid()
      ensures match ScanUnquoted(wholeStr, old(pos))
              case Ok(t) => pos == t.next && r == Ok((Offset(wholeStr, t.start), t.text))
              case Err(e) => r == Err(e)
    {
      var index :- Peek();
      var result := "";
      var p := index;
      while p.1 != ' ' && p.1 != ',' && p.1 != '}'
        invariant old(pos) <= pos < |wholeStr| && p.1 == wholeStr[pos]
        invariant result == wholeStr[old(pos)..pos]
        invariant FindDelimiter(wholeStr, pos) == FindDelimiter(wholeStr, old(pos))
        decreases |wholeStr| - pos
      {
        Grown(wholeStr, old(pos), pos);
        var c := Next();
        result := result + [c.value.1];
        p :- Peek();
      }
      return Ok((index.0, result));
    }

    method ConsumeValue() returns (r: Result<(nat, string)>)
      requires Valid()
      modifies this
      ensures Valid()
      ensures match ScanValue(wholeStr, old(pos))
              case Ok(t) => pos == t.next && r == Ok((Offset(wholeStr, t.start), t.text))
              case Err(e) => r == Err(e)
    {
      var w :- ConsumeWhitespace();
      var p := Peek();
      if p.value.1 == '"' {
        r := ConsumeString();
      } else {
        r := ConsumeUnquoted();
      }
    }

    /** The delimiter that ends the field, and the text up to it. */
    method ConsumeEnd() returns (r: Result<string>)
      requires Valid()
      modifies this
      ensures match ScanChar(wholeStr, old(pos), [',', '}'])
              case Ok(t) => r == Ok(wholeStr[..t.next])
              case Err(e) => r == Err(e)
    {
      var end :- ConsumeNonWhitespaceChar([',', '}']);
      EndOffset(wholeStr, pos - 1);
      var wholeField := TakeBytes(wholeStr, end.0 + 1, pos);
      return Ok(wholeField);
    }

    method Parse() returns (r: Result<ParsedField>)
      requires Valid()
      modifies this
      ensures r == ParseFrom(wholeStr, old(pos))
      ensures r.Ok? ==> Reported(TextBytes(wholeStr), r.value)
      ensures r.Err? ==> Truthful(wholeStr, r.error)
    {
      if ParseFrom(wholeStr, pos).Ok? {
        ParsedIsReported(wholeStr, pos);
      } else {
        ErrorsAreTrue(wholeStr, pos);
      }
      var key :- ConsumeString();
      var colon :- ConsumeNonWhitespaceChar([':']);
      var value :- ConsumeValue();
      var wholeField :- ConsumeEnd();
      return Ok(ParsedField(key.1, value.1, colon.0, value.0, wholeField));
    }
  }

  /** The text of the first n bytes, which end at character k. */
  method TakeBytes(s: string, n: nat, ghost k: nat) returns (t: string)
    requires k <= |s| && Offset(s, k) == n
    ensures t == s[..k]
  {
    t := "";
    var i, taken := 0, 0;
    while taken < n
      invariant i <= k && taken == Offset(s, i) && t == s[..i]
      decreases k - i
    {
      if i == k { assert false; }
      OffsetNext(s, i);
      OffsetMono(s, i + 1, k);
      t := t + [s[i]];
      taken := taken + |CharBytes(s[i])|;
      i := i + 1;
    }
    if i < k {
      OffsetNext(s, i);
      OffsetMono(s, i + 1, k);
    }
  }
}
