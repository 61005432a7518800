/**
  JSON texts as RFC 8259 defines them: a value with every choice its text may
  make (white space, escapes), and the text itself. One char stands for one byte.
 */
module Json {
  import opened UTF8

  // Section 2: insignificant white space.
  predicate IsBlank(s: string) {
    forall c <- s :: c == ' ' || c == '\t' || c == '\n' || c == '\r'
  }

  // Section 7: one character of a string, as written.
  datatype Elem = Raw(c: char) | Esc(c: char) | Uni(hex: string)

  datatype Value =
    | Word(text: string)
    | Number(text: string)
    | Str(elems: seq<Elem>)
    | Arr(blank: string, items: Items)
    | Obj(blank: string, members: Members)

  // White space before and after each value and key may be empty.
  datatype Items =
    | NoItems
    | Item(before: string, value: Value, after: string, rest: Items)

  datatype Members =
    | NoMembers
    | Member(lead: string, key: seq<Elem>, colon: string, before: string, value: Value, after: string, rest: Members)

  predicate IsHex(c: char) {
    '0' <= c <= '9' || 'a' <= c <= 'f' || 'A' <= c <= 'F'
  }

  predicate LegalElem(e: Elem) {
    match e
    case Raw(c) => c >= ' ' && c != '"' && c != '\\'
    case Esc(c) => c in "\"\\/bfnrt"
    case Uni(hex) => |hex| == 4 && forall d <- hex :: IsHex(d)
  }

  predicate LegalElems(es: seq<Elem>) {
    forall e <- es :: LegalElem(e)
  }

  // Section 6, as far as splitting needs it: the alphabet of a number.
  predicate IsNumber(s: string) {
    s != "" && forall c <- s :: '0' <= c <= '9' || c in "+-.eE"
  }

  // ---------- Legal values ----------

  predicate Legal(v: Value) {
    match v
    case Word(text) => text in {"true", "false", "null"}
    case Number(text) => IsNumber(text)
    case Str(elems) => LegalElems(elems)
    case Arr(blank, items) => IsBlank(blank) && LegalItems(items)
    case Obj(blank, members) => IsBlank(blank) && LegalMembers(members)
  }

  predicate LegalItems(items: Items) {
    match items
    case NoItems => true
    case Item(before, value, after, rest) =>
      IsBlank(before) && Legal(value) && IsBlank(after) && LegalItems(rest)
  }

  predicate LegalMembers(members: Members) {
    match members
    case NoMembers => true
    case Member(lead, key, colon, before, value, after, rest) =>
      && IsBlank(lead) && LegalElems(key) && IsBlank(colon)
      && IsBlank(before) && Legal(value) && IsBlank(after) && LegalMembers(rest)
  }

  // ---------- Text ----------

  function ElemText(e: Elem): string {
    match e
    case Raw(c) => [c]
    case Esc(c) => ['\\', c]
    case Uni(hex) => "\\u" + hex
  }

  function ElemsText(es: seq<Elem>): string {
    if es == [] then "" else ElemText(es[0]) + ElemsText(es[1..])
  }

  function StrText(es: seq<Elem>): string {
    "\"" + ElemsText(es) + "\""
  }

  function Text(v: Value): string {
    match v
    case Word(text) => text
    case Number(text) => text
    case Str(elems) => StrText(elems)
    case Arr(blank, items) => "[" + blank + ItemsText(items, "") + "]"
    case Obj(blank, members) => "{" + blank + MembersText(members, "") + "}"
  }

  // `sep` goes before the first of them: nothing, or the comma that follows another.
  function ItemsText(items: Items, sep: string): string {
    match items
    case NoItems => ""
    case Item(before, value, after, rest) =>
      sep + before + Text(value) + after + ItemsText(rest, ",")
  }

  function MembersText(members: Members, sep: string): string {
    match members
    case NoMembers => ""
    case Member(lead, key, colon, before, value, after, rest) =>
      sep + lead + StrText(key) + colon + ":" + before + Text(value) + after + MembersText(rest, ",")
  }

  // ---------- What json.Marshal writes ----------

  // No white space between tokens.
  predicate Compact(v: Value) {
    match v
    case Arr(blank, items) => blank == "" && CompactItems(items)
    case Obj(blank, members) => blank == "" && CompactMembers(members)
    case _ => true
  }

  predicate CompactItems(items: Items) {
    match items
    case NoItems => true
    case Item(before, value, after, rest) => before == "" && Compact(value) && after == "" && CompactItems(rest)
  }

  predicate CompactMembers(members: Members) {
    match members
    case NoMembers => true
    case Member(lead, key, colon, before, value, after, rest) =>
      lead == colon == before == after == "" && Compact(value) && CompactMembers(rest)
  }

  predicate Marshalled(v: Value) {
    Legal(v) && Compact(v)
  }

  // The text holds no control character, so neither end of line.
  predicate OneLine(s: string) {
    forall c <- s :: c >= ' '
  }

  lemma {:induction false} ElemsOnOneLine(es: seq<Elem>)
    requires LegalElems(es)
    ensures OneLine(ElemsText(es))
  {
    if es != [] { ElemsOnOneLine(es[1..]); assert LegalElem(es[0]); }
  }

  /** Whatever its strings say, a marshalled value is a single line. */
  lemma {:induction false} MarshalledOnOneLine(v: Value)
    requires Marshalled(v)
    ensures OneLine(Text(v))
  {
    match v
    case Word(text) => assert OneLine("true") && OneLine("false") && OneLine("null");
    case Number(text) =>
    case Str(elems) => ElemsOnOneLine(elems);
    case Arr(blank, items) => ItemsOnOneLine(items, "");
    case Obj(blank, members) => MembersOnOneLine(members, "");
  }

  lemma {:induction false} ItemsOnOneLine(items: Items, sep: string)
    requires LegalItems(items) && CompactItems(items) && OneLine(sep)
    ensures OneLine(ItemsText(items, sep))
  {
    match items
    case NoItems =>
    case Item(before, value, after, rest) =>
      MarshalledOnOneLine(value);
      ItemsOnOneLine(rest, ",");
  }

  lemma {:induction false} MembersOnOneLine(members: Members, sep: string)
    requires LegalMembers(members) && CompactMembers(members) && OneLine(sep)
    ensures OneLine(MembersText(members, sep))
  {
    match members
    case NoMembers =>
    case Member(lead, key, colon, before, value, after, rest) =>
      ElemsOnOneLine(key);
      MarshalledOnOneLine(value);
      MembersOnOneLine(rest, ",");
  }

  // ---------- Strings: Go's escaping and section 7's reading of it ----------

  function HexDigit(n: nat): char
    requires n < 16
  {
    if n < 10 then ('0' as int + n) as char else ('a' as int + n - 10) as char
  }

  function HexValue(c: char): (n: nat)
    requires IsHex(c)
    ensures n < 16
  {
    if c <= '9' then (c - '0') as nat else if c <= 'F' then (c - 'A') as nat + 10 else (c - 'a') as nat + 10
  }

  // Of one byte: control characters and the three HTML ones; two digits are enough for them.
  function EscapeChar(c: char): Elem {
    if c == '"' || c == '\\' then Esc(c)
    else if c == '\n' then Esc('n')
    else if c == '\r' then Esc('r')
    else if c == '\t' then Esc('t')
    else if c as int == 8 then Esc('b')
    else if c as int == 12 then Esc('f')
    else if c < ' ' || c in "<>&" then Uni("00" + [HexDigit(c as int / 16), HexDigit(c as int % 16)])
    else Raw(c)
  }

  const Replacement := 0xFFFD
  const LineSeparator := 0x2028
  const ParagraphSeparator := 0x2029

  function Raws(s: string): (es: seq<Elem>)
    ensures |es| == |s|
  {
    seq(|s|, i requires 0 <= i < |s| => Raw(s[i]))
  }

  // How far the rune at the front goes; a byte that begins none goes alone.
  function Step(s: string): (n: nat)
    requires s != ""
    ensures 1 <= n <= |s|
  {
    if RuneSize(s) == 0 then 1 else RuneSize(s)
  }

  function EscapeFirst(s: string): seq<Elem>
    requires s != ""
  {
    var n := RuneSize(s);
    if n == 0 then [Uni("fffd")]
    else if n == 1 then [EscapeChar(s[0])]
    else if DecodeRune(s) == LineSeparator then [Uni("2028")]
    else if DecodeRune(s) == ParagraphSeparator then [Uni("2029")]
    else Raws(s[..n])
  }

  function Escape(s: string): seq<Elem>
    decreases |s|
  {
    if s == "" then [] else EscapeFirst(s) + Escape(s[Step(s)..])
  }

  // The code that four digits stand for.
  function Code(hex: string): (n: nat)
    requires |hex| == 4 && forall d <- hex :: IsHex(d)
    ensures n < 0x1_0000
  {
    HexValue(hex[0]) * 4096 + HexValue(hex[1]) * 256 + HexValue(hex[2]) * 16 + HexValue(hex[3])
  }

  // The bytes an element stands for; a surrogate, which only counts together with another, is replaced.
  function Meaning(e: Elem): string
    requires LegalElem(e)
  {
    match e
    case Raw(c) => [c]
    case Esc(c) =>
      if c == 'n' then "\n" else if c == 'r' then "\r" else if c == 't' then "\t"
      else if c == 'b' then [8 as char] else if c == 'f' then [12 as char] else [c]
    case Uni(hex) => Encode(if IsScalar(Code(hex)) then Code(hex) else Replacement)
  }

  function MeaningOf(es: seq<Elem>): string
    requires LegalElems(es)
  {
    if es == [] then "" else assert LegalElem(es[0]); Meaning(es[0]) + MeaningOf(es[1..])
  }

  // Each byte that is part of no rune becomes the replacement character.
  function Sanitized(s: string): string
    decreases |s|
  {
    if s == "" then ""
    else (if RuneSize(s) == 0 then Encode(Replacement) else s[..RuneSize(s)]) + Sanitized(s[Step(s)..])
  }

  lemma HexDigitReads(n: nat)
    requires n < 16
    ensures IsHex(HexDigit(n)) && HexValue(HexDigit(n)) == n
  {}

  lemma EscapedCharMeaning(c: char)
    requires c as int < 0x80
    ensures LegalElem(EscapeChar(c)) && Meaning(EscapeChar(c)) == [c]
  {
    if EscapeChar(c).Uni? {
      var n := c as int;
      HexDigitReads(n / 16);
      HexDigitReads(n % 16);
      var hex := "00" + [HexDigit(n / 16), HexDigit(n % 16)];
      assert hex[0] == hex[1] == '0' && HexValue('0') == 0;
      assert Code(hex) == n;
    }
  }

  lemma RawsLegal(s: string)
    requires forall i :: 0 <= i < |s| ==> s[i] as int >= 0x80
    ensures LegalElems(Raws(s))
  {
    forall e | e in Raws(s) ensures LegalElem(e) {
      var i :| 0 <= i < |s| && Raws(s)[i] == e;
    }
  }

  lemma {:induction false} RawsMeaning(s: string)
    requires forall i :: 0 <= i < |s| ==> s[i] as int >= 0x80
    ensures LegalElems(Raws(s)) && MeaningOf(Raws(s)) == s
  {
    RawsLegal(s);
    if s != "" {
      RawsMeaning(s[1..]);
      assert Raws(s)[1..] == Raws(s[1..]);
      assert s == [s[0]] + s[1..];
    }
  }

  lemma OneMeaning(e: Elem)
    requires LegalElem(e)
    ensures LegalElems([e]) && MeaningOf([e]) == Meaning(e)
  {
    assert [e][1..] == [];
  }

  lemma LegalConcat(a: seq<Elem>, b: seq<Elem>)
    requires LegalElems(a) && LegalElems(b)
    ensures LegalElems(a + b)
  {}

  lemma {:induction false} MeaningConcat(a: seq<Elem>, b: seq<Elem>)
    requires LegalElems(a) && LegalElems(b) && LegalElems(a + b)
    ensures MeaningOf(a + b) == MeaningOf(a) + MeaningOf(b)
  {
    if a == [] {
      assert a + b == b;
    } else {
      var first, rest := a[0], a[1..];
      assert (a + b)[0] == first && (a + b)[1..] == rest + b;
      LegalConcat(rest, b);
      MeaningConcat(rest, b);
    }
  }

  lemma CodesWritten()
    ensures Code("fffd") == Replacement && Code("2028") == LineSeparator && Code("2029") == ParagraphSeparator
  {}

  lemma FirstMeaning(s: string)
    requires s != ""
    ensures LegalElems(EscapeFirst(s)) && |EscapeFirst(s)| <= Step(s)
    ensures MeaningOf(EscapeFirst(s)) == if RuneSize(s) == 0 then Encode(Replacement) else s[..RuneSize(s)]
  {
    var n := RuneSize(s);
    CodesWritten();
    if n == 0 {
      OneMeaning(Uni("fffd"));
    } else if n == 1 {
      EscapedCharMeaning(s[0]);
      OneMeaning(EscapeChar(s[0]));
    } else {
      DecodeEncodes(s);
      OneMeaning(Uni("2028"));
      OneMeaning(Uni("2029"));
      RawsMeaning(s[..n]);
    }
  }

  lemma {:induction false} EscapeMeaning(s: string)
    ensures LegalElems(Escape(s)) && |Escape(s)| <= |s| && MeaningOf(Escape(s)) == Sanitized(s)
    decreases |s|
  {
    if s != "" {
      var rest := s[Step(s)..];
      FirstMeaning(s);
      EscapeMeaning(rest);
      LegalConcat(EscapeFirst(s), Escape(rest));
      MeaningConcat(EscapeFirst(s), Escape(rest));
    }
  }

  // Only a string that is not well formed changes, and grows.
  lemma {:induction false} SanitizedExact(s: string)
    ensures |Sanitized(s)| >= |s| && (Sanitized(s) == s <==> WellFormed(s))
    ensures |Sanitized(s)| == |s| ==> WellFormed(s)
    decreases |s|
  {
    if s != "" {
      var rest := s[Step(s)..];
      SanitizedExact(rest);
      assert s == s[..Step(s)] + rest;
    }
  }

  lemma WellFormedAfter(r: int, rest: string)
    requires IsScalar(r) && WellFormed(rest)
    ensures WellFormed(Encode(r) + rest)
  {
    EncodeDecodes(r, rest);
    assert (Encode(r) + rest)[|Encode(r)|..] == rest;
  }

  lemma {:induction false} SanitizedWellFormed(s: string)
    ensures WellFormed(Sanitized(s))
    decreases |s|
  {
    if s != "" {
      var rest := s[Step(s)..];
      SanitizedWellFormed(rest);
      if RuneSize(s) > 0 { DecodeEncodes(s); }
      WellFormedAfter(if RuneSize(s) == 0 then Replacement else DecodeRune(s), Sanitized(rest));
    }
  }

  /**
    Escaping always writes a legal string. It means the string it came from exactly when
    that is well-formed UTF-8; of any other it means the string with its stray bytes
    replaced, which is well-formed.
   */
  lemma EscapeReadsBack(s: string)
    ensures LegalElems(Escape(s)) && |Escape(s)| <= |s|
    ensures MeaningOf(Escape(s)) == Sanitized(s)
    ensures MeaningOf(Escape(s)) == s <==> WellFormed(s)
    ensures WellFormed(MeaningOf(Escape(s)))
  {
    SanitizedWellFormed(s);
    EscapeMeaning(s);
    SanitizedExact(s);
  }

  // Characters that are written as they are.
  predicate Ordinary(s: string) {
    forall i :: 0 <= i < |s| ==> ' ' <= s[i] <= '~' && s[i] != '"' && s[i] != '\\' && s[i] !in "<>&"
  }

  /** A string of ordinary characters is written as it is, between quotes. */
  lemma {:induction false} OrdinaryText(s: string)
    requires Ordinary(s)
    ensures ElemsText(Escape(s)) == s && StrText(Escape(s)) == "\"" + s + "\""
    decreases |s|
  {
    if s != "" {
      OrdinaryText(s[1..]);
      assert Escape(s) == [Raw(s[0])] + Escape(s[1..]);
      assert s == [s[0]] + s[1..];
    }
  }

  /** How each byte of ASCII is written. */
  lemma EscapedText(c: char)
    requires c as int < 0x80
    ensures c == '"' ==> ElemText(EscapeChar(c)) == "\\\""
    ensures c == '\\' ==> ElemText(EscapeChar(c)) == "\\\\"
    ensures c == '\n' ==> ElemText(EscapeChar(c)) == "\\n"
    ensures c == '\r' ==> ElemText(EscapeChar(c)) == "\\r"
    ensures c == '\t' ==> ElemText(EscapeChar(c)) == "\\t"
    ensures c as int == 8 ==> ElemText(EscapeChar(c)) == "\\b"
    ensures c as int == 12 ==> ElemText(EscapeChar(c)) == "\\f"
    ensures c == '<' ==> ElemText(EscapeChar(c)) == "\\u003c"
    ensures c == '>' ==> ElemText(EscapeChar(c)) == "\\u003e"
    ensures c == '&' ==> ElemText(EscapeChar(c)) == "\\u0026"
    ensures c as int == 0x1f ==> ElemText(EscapeChar(c)) == "\\u001f"
    ensures Ordinary([c]) ==> ElemText(EscapeChar(c)) == [c]
  {
    assert Ordinary([c]) ==> [c][0] == c;
  }

  // ---------- Marshalled objects, field by field ----------

  function Field(key: string, value: Value, rest: Members): Members {
    Member("", Escape(key), "", "", value, "", rest)
  }

  function StringOf(s: string): Value {
    Str(Escape(s))
  }

  function Record(fields: Members): Value {
    Obj("", fields)
  }

  ghost predicate MarshalledMembers(ms: Members) {
    LegalMembers(ms) && CompactMembers(ms)
  }

  lemma FieldMarshalled(key: string, value: Value, rest: Members)
    requires Marshalled(value) && MarshalledMembers(rest)
    ensures MarshalledMembers(Field(key, value, rest))
  {
    EscapeReadsBack(key);
  }

  lemma StringMarshalled(s: string)
    ensures Marshalled(StringOf(s))
  {
    EscapeReadsBack(s);
  }

  lemma PairMarshalled(key: string, s: string, rest: Members)
    requires MarshalledMembers(rest)
    ensures MarshalledMembers(Field(key, StringOf(s), rest))
  {
    StringMarshalled(s);
    FieldMarshalled(key, StringOf(s), rest);
  }

  // ---------- Their texts ----------

  // The text of a key and a value's.
  function Keyed(key: string, value: string): string {
    "\"" + key + "\":" + value
  }

  lemma KeyedText()
    ensures Keyed("id", "0") == "\"id\":0"
  {}

  lemma FieldJoined(sep: string, key: string, value: string, rest: string)
    ensures sep + "" + ("\"" + key + "\"") + "" + ":" + "" + value + "" + rest == sep + Keyed(key, value) + rest
  {}

  lemma NothingJoined(s: string)
    ensures "" + s == s == s + ""
  {}

  lemma FieldText(key: string, value: Value, rest: Members, sep: string)
    requires Ordinary(key)
    ensures MembersText(Field(key, value, rest), sep) == sep + Keyed(key, Text(value)) + MembersText(rest, ",")
  {
    hide Escape;
    OrdinaryText(key);
    FieldJoined(sep, key, Text(value), MembersText(rest, ","));
  }

  // The same before other fields, first and last.
  lemma FirstText(key: string, value: Value, rest: Members)
    requires Ordinary(key)
    ensures MembersText(Field(key, value, rest), "") == Keyed(key, Text(value)) + MembersText(rest, ",")
  {
    hide Escape;
    FieldText(key, value, rest, "");
    NothingJoined(Keyed(key, Text(value)));
  }

  lemma LastText(key: string, value: Value)
    requires Ordinary(key)
    ensures MembersText(Field(key, value, NoMembers), ",") == "," + Keyed(key, Text(value))
  {
    hide Escape;
    FieldText(key, value, NoMembers, ",");
    NothingJoined("," + Keyed(key, Text(value)));
  }

  lemma OnlyText(key: string, value: Value)
    requires Ordinary(key)
    ensures MembersText(Field(key, value, NoMembers), "") == Keyed(key, Text(value))
  {
    hide Escape;
    FirstText(key, value, NoMembers);
    NothingJoined(Keyed(key, Text(value)));
  }

  lemma NoFields()
    ensures MembersText(NoMembers, "") == "" && MembersText(NoMembers, ",") == ""
  {}

  lemma RecordText(fields: Members)
    ensures Text(Record(fields)) == "{" + MembersText(fields, "") + "}"
  {
    NothingJoined("{");
  }

  lemma StringText(s: string)
    ensures Text(StringOf(s)) == StrText(Escape(s))
  {}

  lemma WordText(text: string)
    ensures Text(Word(text)) == text
  {}

  lemma NumberText(id: string)
    ensures Text(Number(id)) == id
  {}

  lemma QuotedText(s: string, quoted: string)
    requires Ordinary(s) && quoted == "\"" + s + "\""
    ensures Text(StringOf(s)) == quoted
  {
    hide Escape;
    OrdinaryText(s);
  }
}
