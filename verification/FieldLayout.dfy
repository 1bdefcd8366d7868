/** The texts the field parser accepts, written as a layout, and exactly what it reads out of them. */
module FieldLayout {
  import opened Bytes
  import opened FieldParser
  import opened Utf8

  /** A field as it is printed: a quoted key, a colon, a value and an end, with blanks between. */
  datatype Layout = Layout(key: string, gap1: nat, gap2: nat, quoted: bool, value: string, gap3: nat, delim: char,
    rest: string)

  function Blanks(n: nat): (r: string)
    ensures |r| == n && forall k | 0 <= k < n :: r[k] == ' '
  {
    seq(n, _ => ' ')
  }

  function Quoted(s: string): string { "\"" + s + "\"" }

  function UpToColon(l: Layout): string { Quoted(l.key) + Blanks(l.gap1) }
  function UpToValue(l: Layout): string { UpToColon(l) + ":" + Blanks(l.gap2) }
  function Body(l: Layout): string { if l.quoted then Quoted(l.value) else l.value }
  function Whole(l: Layout): string { UpToValue(l) + Body(l) + Blanks(l.gap3) + [l.delim] }
  function Print(l: Layout): string { Whole(l) + l.rest }

  /** What the parser should report. */
  function FieldOf(l: Layout): ParsedField {
    ParsedField(l.key, l.value, |TextBytes(UpToColon(l))|, |TextBytes(UpToValue(l) + if l.quoted then "\"" else "")|,
      Whole(l))
  }

  /** The first character of a quoted text is taken whatever it is; the next quote ends the text. */
  predicate ReadsAsString(s: string) { s != "" && forall k | 1 <= k < |s| :: s[k] != '"' }

  predicate ReadsAsUnquoted(s: string) {
    (forall k | 0 <= k < |s| :: !Delimits(s[k])) && (s != "" ==> s[0] != '"')
  }

  predicate Readable(l: Layout) {
    && ReadsAsString(l.key)
    && (if l.quoted then ReadsAsString(l.value) else ReadsAsUnquoted(l.value) && (l.value == "" ==> l.gap3 == 0))
    && (l.delim == ',' || l.delim == '}')
  }

  // ---------- every readable layout is read back ----------

  lemma {:induction false} SkipSpacesIs(s: string, i: nat, e: nat)
    requires i <= e < |s| && s[e] != ' ' && forall k | i <= k < e :: s[k] == ' '
    ensures SkipSpaces(s, i) == e
    decreases e - i
  {
    if i < e { SkipSpacesIs(s, i + 1, e); }
  }

  lemma {:induction false} FindQuoteIs(s: string, i: nat, e: nat)
    requires i <= e < |s| && s[e] == '"' && forall k | i <= k < e :: s[k] != '"'
    ensures FindQuote(s, i) == e
    decreases e - i
  {
    if i < e { FindQuoteIs(s, i + 1, e); }
  }

  lemma {:induction false} FindDelimiterIs(s: string, i: nat, e: nat)
    requires i <= e < |s| && Delimits(s[e]) && forall k | i <= k < e :: !Delimits(s[k])
    ensures FindDelimiter(s, i) == e
    decreases e - i
  {
    if i < e { FindDelimiterIs(s, i + 1, e); }
  }

  /** t stands in s from character i on. */
  predicate Stands(s: string, i: nat, t: string) { i + |t| <= |s| && forall k | 0 <= k < |t| :: s[i + k] == t[k] }

  lemma StandsAt(s: string, i: nat, t: string, k: nat)
    requires Stands(s, i, t) && k < |t|
    ensures s[i + k] == t[k]
  {
  }

  lemma Slice(s: string, i: nat, t: string)
    requires i + |t| <= |s|
    ensures Stands(s, i, t) <==> s[i..i + |t|] == t
  {
    var u := s[i..i + |t|];
    assert forall k | 0 <= k < |t| :: u[k] == s[i + k];
    if s[i..i + |t|] == t {
      forall k | 0 <= k < |t|
        ensures s[i + k] == t[k]
      {
        assert u[k] == s[i + k];
      }
    }
  }

  lemma StringScanned(s: string, i: nat, text: string)
    requires Stands(s, i, Quoted(text)) && ReadsAsString(text)
    ensures ScanString(s, i) == Ok(Scan(i + 1, text, i + |text| + 2))
  {
    var e := i + |text| + 1;
    StandsAt(s, i, Quoted(text), 0);
    StandsAt(s, i, Quoted(text), |text| + 1);
    Inner(s, i, text);
    Slice(s, i + 1, text);
    forall k | i + 2 <= k < e
      ensures s[k] != '"'
    {
      StandsAt(s, i + 1, text, k - i - 1);
    }
    FindQuoteIs(s, i + 2, e);
  }

  lemma Inner(s: string, i: nat, text: string)
    requires Stands(s, i, Quoted(text))
    ensures Stands(s, i + 1, text)
  {
    forall k | 0 <= k < |text|
      ensures s[i + 1 + k] == text[k]
    {
      StandsAt(s, i, Quoted(text), k + 1);
    }
  }

  lemma SpacesSkipped(s: string, i: nat, gap: nat)
    requires Stands(s, i, Blanks(gap)) && i + gap < |s| && s[i + gap] != ' '
    ensures SkipSpaces(s, i) == i + gap
  {
    forall k | i <= k < i + gap
      ensures s[k] == ' '
    {
      StandsAt(s, i, Blanks(gap), k - i);
    }
    SkipSpacesIs(s, i, i + gap);
  }

  lemma CharScanned(s: string, i: nat, gap: nat, options: seq<char>)
    requires Stands(s, i, Blanks(gap)) && i + gap < |s| && s[i + gap] != ' ' && s[i + gap] in options
    ensures ScanChar(s, i, options) == Ok(Scan(i + gap, [s[i + gap]], i + gap + 1))
  {
    SpacesSkipped(s, i, gap);
    assert s[i + gap..i + gap + 1] == [s[i + gap]];
  }

  lemma UnquotedScanned(s: string, i: nat, text: string)
    requires Stands(s, i, text) && ReadsAsUnquoted(text) && i + |text| < |s| && Delimits(s[i + |text|])
    ensures ScanUnquoted(s, i) == Ok(Scan(i, text, i + |text|))
  {
    forall k | i <= k < i + |text|
      ensures !Delimits(s[k])
    {
      StandsAt(s, i, text, k - i);
    }
    FindDelimiterIs(s, i, i + |text|);
    Slice(s, i, text);
  }

  // Where the pieces of a printed layout stand, in characters.
  function AtColon(l: Layout): nat { |l.key| + 2 + l.gap1 }
  function AtValue(l: Layout): nat { AtColon(l) + 1 + l.gap2 }
  function AfterValue(l: Layout): nat { AtValue(l) + |l.value| + if l.quoted then 2 else 0 }
  function AtEnd(l: Layout): nat { AfterValue(l) + l.gap3 }

  /** A piece at the end of a prefix, and what is before it. */
  lemma Peel(s: string, p: string, t: string)
    requires Stands(s, 0, p + t)
    ensures Stands(s, 0, p) && Stands(s, |p|, t)
  {
    forall k | 0 <= k < |p|
      ensures s[0 + k] == p[k]
    {
      assert (p + t)[k] == p[k];
    }
    forall k | 0 <= k < |t|
      ensures s[|p| + k] == t[k]
    {
      assert (p + t)[|p| + k] == t[k];
    }
  }

  lemma WholeStands(l: Layout)
    ensures Stands(Print(l), 0, Whole(l)) && |Whole(l)| == AtEnd(l) + 1
  {
    assert Print(l) == Whole(l) + l.rest;
    forall k | 0 <= k < |Whole(l)|
      ensures Print(l)[0 + k] == Whole(l)[k]
    {
    }
  }

  /** The end of a printed field. */
  lemma EndStanding(l: Layout)
    ensures var s := Print(l);
            AtEnd(l) < |s| && s[AtEnd(l)] == l.delim && Stands(s, AfterValue(l), Blanks(l.gap3)) &&
            Stands(s, 0, UpToValue(l) + Body(l))
  {
    var s, p := Print(l), UpToValue(l) + Body(l);
    WholeStands(l);
    Peel(s, p + Blanks(l.gap3), [l.delim]);
    StandsAt(s, AtEnd(l), [l.delim], 0);
    Peel(s, p, Blanks(l.gap3));
  }

  lemma BodyStanding(l: Layout)
    ensures var s := Print(l); Stands(s, AtValue(l), Body(l)) && Stands(s, 0, UpToValue(l))
  {
    EndStanding(l);
    Peel(Print(l), UpToValue(l), Body(l));
    ValuePlace(l);
    Moved(Print(l), |UpToValue(l)|, AtValue(l), Body(l));
  }

  lemma ValuePlace(l: Layout)
    ensures |UpToValue(l)| == AtValue(l)
  {
  }

  lemma Moved(s: string, i: nat, j: nat, t: string)
    requires Stands(s, i, t) && i == j
    ensures Stands(s, j, t)
  {
  }

  lemma ValueStanding(l: Layout)
    ensures var s := Print(l); Stands(s, AtColon(l) + 1, Blanks(l.gap2)) && Stands(s, 0, UpToColon(l) + ":")
  {
    BodyStanding(l);
    Peel(Print(l), UpToColon(l) + ":", Blanks(l.gap2));
  }

  lemma HeadStanding(l: Layout)
    ensures var s := Print(l);
            AtColon(l) < |s| && s[AtColon(l)] == ':' && Stands(s, 0, UpToColon(l)) &&
            Stands(s, |l.key| + 2, Blanks(l.gap1)) && Stands(s, 0, Quoted(l.key))
  {
    ValueStanding(l);
    Peel(Print(l), UpToColon(l), ":");
    StandsAt(Print(l), AtColon(l), ":", 0);
    Peel(Print(l), Quoted(l.key), Blanks(l.gap1));
  }

  lemma KeyScanned(s: string, l: Layout)
    requires ReadsAsString(l.key) && s == Print(l)
    ensures ScanString(s, 0) == Ok(Scan(1, l.key, |l.key| + 2))
  {
    HeadStanding(l);
    StringScanned(s, 0, l.key);
  }

  /** What stands behind the value ends it. */
  lemma AfterBody(l: Layout)
    requires Readable(l)
    ensures var s := Print(l);
            AfterValue(l) < |s| && (Delimits(s[AfterValue(l)]) && (Body(l) == "" ==> s[AfterValue(l)] == l.delim))
  {
    EndStanding(l);
    if l.gap3 > 0 { StandsAt(Print(l), AfterValue(l), Blanks(l.gap3), 0); }
  }

  lemma BodyStart(l: Layout)
    requires Readable(l)
    ensures var s, v := Print(l), AtValue(l); v < |s| && s[v] != ' ' && (s[v] == '"' <==> l.quoted)
  {
    AfterBody(l);
    BodyStanding(l);
    if Body(l) != "" { StandsAt(Print(l), AtValue(l), Body(l), 0); }
  }

  lemma ColonOffset(s: string, l: Layout)
    requires s == Print(l)
    ensures ColonOf(l).start <= |s| && Offset(s, ColonOf(l).start) == FieldOf(l).colonIndex
  {
    HeadStanding(l);
    Slice(s, 0, UpToColon(l));
  }

  lemma ValueOffset(s: string, l: Layout)
    requires s == Print(l)
    ensures ValueOf(l).start <= |s| && Offset(s, ValueOf(l).start) == FieldOf(l).valueIndex
  {
    BodyStanding(l);
    Slice(s, 0, UpToValue(l));
    if l.quoted {
      StandsAt(s, AtValue(l), Body(l), 0);
      OpenQuote(s, UpToValue(l));
    } else {
      assert UpToValue(l) + "" == UpToValue(l);
    }
  }

  lemma WholePrefix(s: string, l: Layout)
    requires s == Print(l)
    ensures EndOf(l).next <= |s| && FieldOf(l).wholeField == s[..EndOf(l).next]
  {
    WholeStands(l);
    Slice(s, 0, Whole(l));
  }

  lemma OpenQuote(s: string, p: string)
    requires Stands(s, 0, p) && |p| < |s| && s[|p|] == '"'
    ensures s[..|p| + 1] == p + "\""
  {
    Slice(s, 0, p);
    assert s[..|p| + 1] == s[..|p|] + [s[|p|]];
  }

  function KeyOf(l: Layout): Scan { Scan(1, l.key, |l.key| + 2) }
  function ColonOf(l: Layout): Scan { Scan(AtColon(l), ":", AtColon(l) + 1) }
  function ValueOf(l: Layout): Scan { Scan(if l.quoted then AtValue(l) + 1 else AtValue(l), l.value, AfterValue(l)) }

  function EndOf(l: Layout): Scan { Scan(AtEnd(l), [l.delim], AtEnd(l) + 1) }

  predicate KeyStands(s: string, l: Layout) { ScanString(s, 0) == Ok(KeyOf(l)) }
  predicate ColonStands(s: string, l: Layout) {
    KeyOf(l).next <= |s| && ScanChar(s, KeyOf(l).next, [':']) == Ok(ColonOf(l))
  }
  predicate ValueStands(s: string, l: Layout) {
    ColonOf(l).next <= |s| && ScanValue(s, ColonOf(l).next) == Ok(ValueOf(l))
  }
  predicate EndStands(s: string, l: Layout) {
    ValueOf(l).next <= |s| && ScanChar(s, ValueOf(l).next, [',', '}']) == Ok(EndOf(l))
  }

  predicate OffsetsStand(s: string, l: Layout, f: ParsedField) {
    && f.key == l.key && f.value == l.value
    && ColonOf(l).start <= |s| && f.colonIndex == Offset(s, ColonOf(l).start)
    && ValueOf(l).start <= |s| && f.valueIndex == Offset(s, ValueOf(l).start)
    && EndOf(l).next <= |s| && f.wholeField == s[..EndOf(l).next]
  }

  lemma ColonDoes(s: string, l: Layout)
    requires s == Print(l)
    ensures ColonStands(s, l)
  {
    ColonPieces(s, l);
    ColonScanned(s, l);
  }

  predicate ColonAhead(s: string, l: Layout) {
    AtColon(l) < |s| && AtEnd(l) < |s| && s[AtColon(l)] == ':' && Stands(s, |l.key| + 2, Blanks(l.gap1))
  }

  lemma ColonPieces(s: string, l: Layout)
    requires s == Print(l)
    ensures ColonAhead(s, l)
  {
    EndStanding(l);
    HeadStanding(l);
  }

  lemma ColonScanned(s: string, l: Layout)
    requires ColonAhead(s, l)
    ensures ColonStands(s, l)
  {
    CharScanned(s, |l.key| + 2, l.gap1, [':']);
  }

  lemma ValueDoes(s: string, l: Layout)
    requires Readable(l) && s == Print(l)
    ensures ValueStands(s, l)
  {
    ValuePieces(s, l);
    ValueScanned(s, l);
  }

  /** What a printed value stands between. */
  predicate ValueAhead(s: string, l: Layout) {
    && AtValue(l) < |s| && AfterValue(l) <= AtEnd(l) < |s|
    && Stands(s, AtColon(l) + 1, Blanks(l.gap2)) && Stands(s, AtValue(l), Body(l))
    && s[AtValue(l)] != ' ' && (s[AtValue(l)] == '"' <==> l.quoted) && Delimits(s[AfterValue(l)])
  }

  lemma ValuePieces(s: string, l: Layout)
    requires Readable(l) && s == Print(l)
    ensures ValueAhead(s, l)
  {
    EndStanding(l);
    BodyStanding(l);
    ValueStanding(l);
    BodyStart(l);
    AfterBody(l);
  }

  lemma ValueScanned(s: string, l: Layout)
    requires Readable(l) && ValueAhead(s, l)
    ensures ValueStands(s, l)
  {
    if l.quoted { QuotedScanned(s, l); } else { BareScanned(s, l); }
  }

  lemma QuotedScanned(s: string, l: Layout)
    requires Readable(l) && ValueAhead(s, l) && l.quoted
    ensures ValueStands(s, l)
  {
    SpacesSkipped(s, AtColon(l) + 1, l.gap2);
    StringScanned(s, AtValue(l), l.value);
    QuotedValue(s, AtColon(l) + 1, AtValue(l), ValueOf(l));
  }

  lemma BareScanned(s: string, l: Layout)
    requires Readable(l) && ValueAhead(s, l) && !l.quoted
    ensures ValueStands(s, l)
  {
    SpacesSkipped(s, AtColon(l) + 1, l.gap2);
    UnquotedScanned(s, AtValue(l), l.value);
    BareValue(s, AtColon(l) + 1, AtValue(l), ValueOf(l));
  }

  lemma QuotedValue(s: string, i: nat, v: nat, r: Scan)
    requires i <= v < |s| && SkipSpaces(s, i) == v && s[v] == '"' && ScanString(s, v) == Ok(r)
    ensures ScanValue(s, i) == Ok(r)
  {
  }

  lemma BareValue(s: string, i: nat, v: nat, r: Scan)
    requires i <= v < |s| && SkipSpaces(s, i) == v && s[v] != '"' && ScanUnquoted(s, v) == Ok(r)
    ensures ScanValue(s, i) == Ok(r)
  {
  }

  lemma EndDoes(s: string, l: Layout)
    requires Readable(l) && s == Print(l)
    ensures EndStands(s, l)
  {
    EndStanding(l);
    CharScanned(s, AfterValue(l), l.gap3, [',', '}']);
  }

  lemma OffsetsDo(s: string, l: Layout)
    requires s == Print(l)
    ensures OffsetsStand(s, l, FieldOf(l))
  {
    ColonOffset(s, l);
    ValueOffset(s, l);
    WholePrefix(s, l);
  }

  /** Four scans, each starting where the one before it ended, make a parse. */
  lemma ScansParse(s: string, key: Scan, colon: Scan, value: Scan, end: Scan, f: ParsedField)
    requires ScanString(s, 0) == Ok(key) && ScanChar(s, key.next, [':']) == Ok(colon)
    requires ScanValue(s, colon.next) == Ok(value) && ScanChar(s, value.next, [',', '}']) == Ok(end)
    requires f == ParsedField(key.text, value.text, Offset(s, colon.start), Offset(s, value.start), s[..end.next])
    ensures ParseField(s) == Ok(f)
  {
    assert ParseEnd(s, key, colon, value) == Ok(f);
    assert ParseValue(s, key, colon) == Ok(f);
    assert ParseColon(s, key) == Ok(f);
  }

  lemma LayoutParses(s: string, l: Layout, f: ParsedField)
    requires KeyStands(s, l) && ColonStands(s, l) && ValueStands(s, l) && EndStands(s, l) && OffsetsStand(s, l, f)
    ensures ParseField(s) == Ok(f)
  {
    ScansParse(s, KeyOf(l), ColonOf(l), ValueOf(l), EndOf(l), f);
  }

  /** Every readable field, under any spacing and whatever follows it, parses back exactly. */
  lemma PrintedParsesBack(l: Layout)
    requires Readable(l)
    ensures ParseField(Print(l)) == Ok(FieldOf(l))
  {
    var s, f := Print(l), FieldOf(l);
    KeyScanned(s, l);
    ColonDoes(s, l);
    ValueDoes(s, l);
    EndDoes(s, l);
    OffsetsDo(s, l);
    LayoutParses(s, l, f);
  }

  // ---------- nothing else is accepted ----------

  lemma StringTaken(s: string, i: nat)
    requires i <= |s| && ScanString(s, i).Ok?
    ensures var t := ScanString(s, i).value;
            ReadsAsString(t.text) && t.start == i + 1 && t.next == i + |t.text| + 2 && s[i..t.next] == Quoted(t.text)
  {
    var e := FindQuote(s, i + 2);
    var text := s[i + 1..e];
    forall k | 1 <= k < |text|
      ensures text[k] != '"'
    {
      assert text[k] == s[i + 1 + k];
    }
  }

  lemma CharTaken(s: string, i: nat, options: seq<char>)
    requires i <= |s| && ScanChar(s, i, options).Ok?
    ensures var t := ScanChar(s, i, options).value;
            s[t.start] in options && s[i..t.next] == Blanks(t.start - i) + [s[t.start]]
  {
  }

  lemma UnquotedTaken(s: string, i: nat)
    requires i <= |s| && ScanUnquoted(s, i).Ok? && (i < |s| ==> s[i] != '"')
    ensures var t := ScanUnquoted(s, i).value; ReadsAsUnquoted(t.text) && s[i..t.next] == t.text && Delimits(s[t.next])
  {
    var e := FindDelimiter(s, i);
    var text := s[i..e];
    forall k | 0 <= k < |text|
      ensures !Delimits(text[k])
    {
      assert text[k] == s[i + k];
    }
  }

  /** The layout of an accepted text. */
  function LayoutOf(s: string): Layout
    requires ParseField(s).Ok?
  {
    var key := ScanString(s, 0).value;
    var colon := ScanChar(s, key.next, [':']).value;
    var v := SkipSpaces(s, colon.next);
    var value := ScanValue(s, colon.next).value;
    var end := ScanChar(s, value.next, [',', '}']).value;
    Layout(key.text, colon.start - key.next, v - colon.next, s[v] == '"', value.text, end.start - value.next,
      s[end.start], s[end.next..])
  }

  lemma ValueTaken(s: string, i: nat)
    requires i <= |s| && ScanValue(s, i).Ok?
    ensures var v := SkipSpaces(s, i); var t := ScanValue(s, i).value;
            && v < |s| && v <= t.next && s[i..v] == Blanks(v - i)
            && s[v..t.next] == (if s[v] == '"' then Quoted(t.text) else t.text)
            && (if s[v] == '"' then ReadsAsString(t.text) else ReadsAsUnquoted(t.text))
  {
    var v := SkipSpaces(s, i);
    if s[v] == '"' { StringTaken(s, v); } else { UnquotedTaken(s, v); }
  }

  lemma Joined(s: string, i: nat, j: nat, k: nat)
    requires i <= j <= k <= |s|
    ensures s[i..k] == s[i..j] + s[j..k]
  {
  }

  lemma AcceptedReadable(s: string)
    requires ParseField(s).Ok?
    ensures Readable(LayoutOf(s))
  {
    var key := ScanString(s, 0).value;
    StringTaken(s, 0);
    var colon := ScanChar(s, key.next, [':']).value;
    ValueTaken(s, colon.next);
    var v, value := SkipSpaces(s, colon.next), ScanValue(s, colon.next).value;
    CharTaken(s, value.next, [',', '}']);
    if s[v] != '"' && value.text == "" {
      assert value.next == v;
      SkipSpacesIs(s, v, v);
    }
  }

  lemma AcceptedHead(s: string)
    requires ParseField(s).Ok?
    ensures var colon := ScanChar(s, ScanString(s, 0).value.next, [':']).value;
            s[0..colon.next] == UpToColon(LayoutOf(s)) + ":"
  {
    var key := ScanString(s, 0).value;
    StringTaken(s, 0);
    CharTaken(s, key.next, [':']);
    var colon := ScanChar(s, key.next, [':']).value;
    Joined(s, 0, key.next, colon.next);
    var l := LayoutOf(s);
    assert Quoted(l.key) + (Blanks(l.gap1) + [':']) == UpToColon(l) + ":";
  }

  lemma AcceptedToValue(s: string)
    requires ParseField(s).Ok?
    ensures var colon := ScanChar(s, ScanString(s, 0).value.next, [':']).value;
            s[0..SkipSpaces(s, colon.next)] == UpToValue(LayoutOf(s))
  {
    AcceptedHead(s);
    var colon := ScanChar(s, ScanString(s, 0).value.next, [':']).value;
    ValueTaken(s, colon.next);
    Joined(s, 0, colon.next, SkipSpaces(s, colon.next));
  }

  /** Whatever the parser accepts is a readable layout, printed. */
  lemma AcceptedIsPrinted(s: string)
    requires ParseField(s).Ok?
    ensures Readable(LayoutOf(s)) && Print(LayoutOf(s)) == s
  {
    AcceptedReadable(s);
    AcceptedToValue(s);
    var l := LayoutOf(s);
    var colon := ScanChar(s, ScanString(s, 0).value.next, [':']).value;
    ValueTaken(s, colon.next);
    var v, value := SkipSpaces(s, colon.next), ScanValue(s, colon.next).value;
    CharTaken(s, value.next, [',', '}']);
    var end := ScanChar(s, value.next, [',', '}']).value;
    Joined(s, 0, v, value.next); Joined(s, 0, value.next, end.next); Joined(s, 0, end.next, |s|);
    Regrouped(UpToValue(l) + Body(l), Blanks(l.gap3), [l.delim]);
    assert s == s[0..|s|];
  }

  lemma Regrouped(a: string, b: string, c: string)
    ensures a + (b + c) == a + b + c
  {
  }

  /** The parser succeeds exactly on the printed readable layouts, and reports their parts. */
  lemma AcceptsExactlyLayouts(s: string)
    ensures ParseField(s).Ok? <==> exists l :: Readable(l) && Print(l) == s
    ensures forall l :: Readable(l) && Print(l) == s ==> ParseField(s) == Ok(FieldOf(l))
  {
    forall l | Readable(l) && Print(l) == s
      ensures ParseField(s) == Ok(FieldOf(l))
    {
      PrintedParsesBack(l);
    }
    if ParseField(s).Ok? { AcceptedIsPrinted(s); }
  }

  // ---------- which fields without quotes inside come back ----------

  predicate QuoteFree(s: string) { forall k | 0 <= k < |s| :: s[k] != '"' }

  /** A field as the format allows it: no quote inside a quoted text, no delimiter inside a bare one. */
  predicate Legal(l: Layout) {
    && QuoteFree(l.key) && (l.delim == ',' || l.delim == '}')
    && (if l.quoted then QuoteFree(l.value) else ReadsAsUnquoted(l.value) && l.value != "")
  }

  /** An opening quote stands where the value begins. */
  predicate QuoteAhead(s: string, l: Layout) {
    Stands(s, AtColon(l) + 1, Blanks(l.gap2)) && AtValue(l) < |s| && s[AtValue(l)] == '"'
  }

  lemma QuoteStanding(s: string, l: Layout)
    requires l.quoted && s == Print(l)
    ensures QuoteAhead(s, l)
  {
    BodyStanding(l);
    ValueStanding(l);
    StandsAt(s, AtValue(l), Body(l), 0);
  }

  lemma QuotedNeverEmpty(s: string, l: Layout)
    requires QuoteAhead(s, l) && ScanValue(s, AtColon(l) + 1).Ok?
    ensures ScanValue(s, AtColon(l) + 1).value.text != ""
  {
    SpacesSkipped(s, AtColon(l) + 1, l.gap2);
  }

  lemma KeyNeverEmpty(s: string)
    requires ParseField(s).Ok?
    ensures ParseField(s).value.key != ""
  {
    StringTaken(s, 0);
  }

  lemma ValueComesFrom(s: string, key: Scan, colon: Scan)
    requires ParseField(s).Ok? && ScanString(s, 0) == Ok(key) && ScanChar(s, key.next, [':']) == Ok(colon)
    ensures ScanValue(s, colon.next).Ok? && ParseField(s).value.value == ScanValue(s, colon.next).value.text
  {
    assert ParseField(s) == ParseColon(s, key) == ParseValue(s, key, colon);
  }

  lemma EmptyNotReadBack(l: Layout)
    requires Legal(l) && (l.key == "" || (l.quoted && l.value == "")) && ParseField(Print(l)).Ok?
    ensures ParseField(Print(l)).value.key != l.key || ParseField(Print(l)).value.value != l.value
  {
    var s := Print(l);
    KeyNeverEmpty(s);
    if l.key != "" {
      KeyScanned(s, l);
      ColonDoes(s, l);
      QuoteStanding(s, l);
      ValueNotEmpty(s, l);
    }
  }

  lemma ValueNotEmpty(s: string, l: Layout)
    requires ParseField(s).Ok? && KeyStands(s, l) && ColonStands(s, l) && QuoteAhead(s, l)
    ensures ParseField(s).value.value != ""
  {
    ValueComesFrom(s, KeyOf(l), ColonOf(l));
    QuotedNeverEmpty(s, l);
  }

  /** A legal field parses back exactly when neither its key nor its quoted value is empty: the first
      character after an opening quote is always taken as text. */
  lemma LegalParsesBack(l: Layout)
    requires Legal(l)
    ensures ParseField(Print(l)) == Ok(FieldOf(l)) <==> l.key != "" && (l.quoted ==> l.value != "")
  {
    if l.key != "" && (l.quoted ==> l.value != "") {
      PrintedParsesBack(l);
    } else if ParseField(Print(l)).Ok? {
      EmptyNotReadBack(l);
    }
  }

  /** An empty value, quoted as it should be, is not read back. */
  lemma EmptyValueMisread()
    ensures var l := Layout("a", 0, 0, true, "", 0, ',', "\"b\":1}"); Legal(l) && ParseField(Print(l)) != Ok(FieldOf(l))
  {
    LegalParsesBack(Layout("a", 0, 0, true, "", 0, ',', "\"b\":1}"));
  }

  // ---------- finding a field in a payload ----------

  /** The first place where the pattern occurs, or none. */
  method Find(s: string, pattern: string) returns (found: bool, i: nat)
    ensures found ==> FirstAt(s, pattern, i)
    ensures !found ==> forall j: nat :: !OccursAt(s, pattern, j)
  {
    i := 0;
    while i + |pattern| <= |s|
      invariant forall j: nat | j < i :: !OccursAt(s, pattern, j)
    {
      if s[i..i + |pattern|] == pattern {
        return true, i;
      }
      i := i + 1;
    }
    found := false;
  }

  /** What parsing at character i of a payload gives, with i as a byte index. */
  function FieldAt(payload: string, i: nat): Result<(nat, ParsedField)>
    requires i <= |payload|
  {
    match ParseField(payload[i..])
    case Ok(f) => Ok((Offset(payload, i), f))
    case Err(e) => Err(e)
  }

  /** The bytes of the pattern occur at n for the first time, and from there on the field is as reported. */
  predicate FoundAmongBytes(b: seq<byte>, pattern: seq<byte>, n: nat, f: ParsedField) {
    FirstAt(b, pattern, n) && Reported(b[n..], f)
  }

  /** The field whose quoted key occurs first. */
  method FindAndParseField(payload: string, key: string) returns (r: Result<(nat, ParsedField)>)
    ensures (forall i: nat :: !OccursAt(payload, Quoted(key), i)) ==> r == Err(Error(NotFound(Quoted(key)), 0, payload))
    ensures forall i: nat :: FirstAt(payload, Quoted(key), i) ==> r == FieldAt(payload, i)
    ensures r.Ok? && ReadsAsString(key) ==> r.value.1.key == key
    ensures r.Ok? ==> FoundAmongBytes(TextBytes(payload), TextBytes(Quoted(key)), r.value.0, r.value.1)
  {
    var found, i := Find(payload, Quoted(key));
    if !found {
      return Err(Error(NotFound(Quoted(key)), 0, payload));
    }
    FirstIsUnique(payload, Quoted(key), i);
    var p := new Parser(payload[i..]);
    var f :- p.Parse();
    if ReadsAsString(key) { KeyRead(payload[i..], key); }
    FirstAmongBytes(payload, Quoted(key), i);
    OffsetSplits(payload, i);
    return Ok((Offset(payload, i), f));
  }

  lemma FirstIsUnique(s: string, pattern: string, i: nat)
    requires FirstAt(s, pattern, i)
    ensures forall k: nat :: FirstAt(s, pattern, k) ==> k == i
  {
  }

  lemma KeyRead(s: string, key: string)
    requires OccursAt(s, Quoted(key), 0) && ReadsAsString(key) && ParseField(s).Ok?
    ensures ParseField(s).value.key == key
  {
    Slice(s, 0, Quoted(key));
    StringScanned(s, 0, key);
  }
}
