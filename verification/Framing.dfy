/** The gateway's side of the wire: pkg/gateway/framing.go. */
module Framing {
  import opened Basics
  import opened Json

  // ---------- bytes.TrimSpace on ASCII ----------

  predicate IsSpace(c: char) {
    c == ' ' || 9 <= c as int <= 13
  }

  predicate AllSpace(s: string) {
    forall c <- s :: IsSpace(c)
  }

  function TrimLeft(s: string): string {
    if s != "" && IsSpace(s[0]) then TrimLeft(s[1..]) else s
  }

  function TrimRight(s: string): string {
    if s != "" && IsSpace(s[|s| - 1]) then TrimRight(s[..|s| - 1]) else s
  }

  function TrimSpace(s: string): string {
    TrimRight(TrimLeft(s))
  }

  // Nothing to trim at either end.
  predicate Solid(s: string) {
    s != "" && !IsSpace(s[0]) && !IsSpace(s[|s| - 1])
  }

  // Trimming takes the space away exactly when all that comes first is space.
  lemma {:induction false} TrimSpaceExact(pad: string, s: string)
    requires Solid(s)
    ensures AllSpace(pad) ==> TrimSpace(pad + s) == s
    ensures !AllSpace(pad) ==> |TrimSpace(pad + s)| > |s|
  {
    var all := pad + s;
    if pad == "" {
      assert all == s;
    } else if IsSpace(pad[0]) {
      assert all[1..] == pad[1..] + s;
      assert AllSpace(pad) <==> AllSpace(pad[1..]);
      TrimSpaceExact(pad[1..], s);
    }
  }

  // ---------- The scanner ----------

  // The variables of the byte loop.
  datatype Scan = Scan(current: string, depth: int, inString: bool, escaped: bool, objects: seq<string>)

  const Idle := Scan("", 0, false, false, [])

  function Feed(st: Scan, b: char): Scan {
    var current := st.current + [b];
    if st.escaped then st.(current := current, escaped := false)
    else if b == '\\' && st.inString then st.(current := current, escaped := true)
    else if b == '"' then st.(current := current, inString := !st.inString)
    else if !st.inString && b == '{' then st.(current := current, depth := st.depth + 1)
    else if !st.inString && b == '}' then
      if st.depth == 1
      then Scan("", 0, false, false, st.objects + [TrimSpace(current)])
      else st.(current := current, depth := st.depth - 1)
    else st.(current := current)
  }

  function FeedAll(st: Scan, data: string): Scan
    decreases data
  {
    if data == "" then st else FeedAll(Feed(st, data[0]), data[1..])
  }

  function Split(data: string): seq<string> {
    FeedAll(Idle, data).objects
  }

  lemma {:induction false} FeedAppend(st: Scan, a: string, b: string)
    ensures FeedAll(st, a + b) == FeedAll(FeedAll(st, a), b)
    decreases a
  {
    if a == "" {
      assert a + b == b;
    } else {
      FeedAppend(Feed(st, a[0]), a[1..], b);
      assert (a + b)[1..] == a[1..] + b;
    }
  }

  /** Splits the bytes of one or more JSON objects at their outermost braces. */
  method SplitJSONObjects(data: string) returns (objects: seq<string>)
    ensures objects == Split(data)
  {
    objects := [];
    var current := "";
    var depth := 0;
    var inString, escaped := false, false;
    for i := 0 to |data|
      invariant Scan(current, depth, inString, escaped, objects) == FeedAll(Idle, data[..i])
    {
      var b := data[i];
      assert data[..i + 1] == data[..i] + [b];
      FeedAppend(Idle, data[..i], [b]);
      current := current + [b];
      if escaped {
        escaped := false;
        continue;
      }
      if b == '\\' && inString {
        escaped := true;
        continue;
      }
      if b == '"' {
        inString := !inString;
        continue;
      }
      if !inString {
        if b == '{' {
          depth := depth + 1;
        } else if b == '}' {
          depth := depth - 1;
          if depth == 0 && |current| > 0 {
            objects := objects + [TrimSpace(current)];
            current := "";
          }
        }
      }
    }
    assert data[..|data|] == data;
  }

  // ---------- The scanner passes over a value's text ----------

  function Extend(st: Scan, s: string): Scan {
    st.(current := st.current + s)
  }

  // Outside strings, inside at least one object.
  predicate Within(st: Scan) {
    !st.inString && !st.escaped && st.depth >= 1
  }

  predicate Inert(s: string) {
    forall c <- s :: c != '{' && c != '}' && c != '"'
  }

  lemma {:induction false} FeedInert(st: Scan, s: string)
    requires !st.inString && !st.escaped && Inert(s)
    ensures FeedAll(st, s) == Extend(st, s)
    decreases s
  {
    if s != "" {
      assert forall c <- s[1..] :: c in s;
      assert s[0] in s;
      FeedInert(Feed(st, s[0]), s[1..]);
      assert st.current + s == st.current + [s[0]] + s[1..];
    }
  }

  lemma FeedElem(st: Scan, e: Elem)
    requires st.inString && !st.escaped && LegalElem(e)
    ensures FeedAll(st, ElemText(e)) == Extend(st, ElemText(e))
  {
    match e
    case Raw(c) => assert FeedAll(st, [c]) == FeedAll(Feed(st, c), "");
    case Esc(c) => FeedTwo(st, '\\', c);
    case Uni(hex) =>
      FeedTwo(st, '\\', 'u');
      FeedAppend(st, "\\u", hex);
      FeedHex(Extend(st, "\\u"), hex);
      assert st.current + "\\u" + hex == st.current + ("\\u" + hex);
  }

  lemma FeedTwo(st: Scan, a: char, b: char)
    ensures FeedAll(st, [a, b]) == Feed(Feed(st, a), b)
    ensures st.current + [a] + [b] == st.current + [a, b]
  {
    assert [a, b][1..] == [b] && [b][1..] == "";
    assert FeedAll(Feed(st, a), [b]) == FeedAll(Feed(Feed(st, a), b), "");
  }

  lemma {:induction false} FeedHex(st: Scan, hex: string)
    requires st.inString && !st.escaped && forall d <- hex :: IsHex(d)
    ensures FeedAll(st, hex) == Extend(st, hex)
    decreases hex
  {
    if hex != "" {
      assert IsHex(hex[0]);
      FeedHex(Feed(st, hex[0]), hex[1..]);
      assert st.current + hex == st.current + [hex[0]] + hex[1..];
    }
  }

  lemma {:induction false} FeedElems(st: Scan, es: seq<Elem>)
    requires st.inString && !st.escaped && LegalElems(es)
    ensures FeedAll(st, ElemsText(es)) == Extend(st, ElemsText(es))
    decreases es
  {
    if es != [] {
      FeedElem(st, es[0]);
      FeedAppend(st, ElemText(es[0]), ElemsText(es[1..]));
      FeedElems(Extend(st, ElemText(es[0])), es[1..]);
      assert st.current + ElemText(es[0]) + ElemsText(es[1..]) == st.current + (ElemText(es[0]) + ElemsText(es[1..]));
    }
  }

  lemma FeedOne(st: Scan, b: char)
    ensures FeedAll(st, [b]) == Feed(st, b)
  {
    assert FeedAll(Feed(st, b), [b][1..]) == Feed(st, b);
  }

  lemma ExtendTwice(st: Scan, a: string, b: string)
    ensures Extend(Extend(st, a), b) == Extend(st, a + b)
  {
    assert st.current + a + b == st.current + (a + b);
  }

  // Feeding a + b, when each part only extends what has been read.
  lemma FeedJoin(st: Scan, a: string, b: string)
    requires FeedAll(st, a) == Extend(st, a)
    requires FeedAll(Extend(st, a), b) == Extend(Extend(st, a), b)
    ensures FeedAll(st, a + b) == Extend(st, a + b)
  {
    FeedAppend(st, a, b);
    ExtendTwice(st, a, b);
  }

  // Feeding one byte and a stretch.
  lemma FeedAfter(st: Scan, a: char, inner: string, mid: Scan)
    requires FeedAll(Feed(st, a), inner) == mid
    ensures FeedAll(st, [a] + inner) == mid
  {
    FeedAppend(st, [a], inner);
    FeedOne(st, a);
  }

  // Feeding one byte, a stretch, and another byte.
  lemma FeedEnclosed(st: Scan, a: char, inner: string, b: char, mid: Scan)
    requires FeedAll(Feed(st, a), inner) == mid
    ensures FeedAll(st, [a] + inner + [b]) == Feed(mid, b)
  {
    FeedAfter(st, a, inner, mid);
    FeedAppend(st, [a] + inner, [b]);
    FeedOne(mid, b);
  }

  // A string literal leaves the scanner outside strings, whatever it quotes.
  lemma FeedStr(st: Scan, es: seq<Elem>)
    requires !st.inString && !st.escaped && LegalElems(es)
    ensures FeedAll(st, StrText(es)) == Extend(st, StrText(es))
  {
    hide FeedAll, ElemsText;
    var inner := ElemsText(es);
    var open := Feed(st, '"');
    FeedElems(open, es);
    FeedEnclosed(st, '"', inner, '"', Extend(open, inner));
    Appended(st.current, ['"'], inner, ['"']);
  }

  lemma Appended(s: string, a: string, b: string, c: string)
    ensures s + a + b + c == s + (a + b + c) && s + a + (b + c) == s + (a + b + c) && a + (b + c) == a + b + c
  {}

  lemma {:induction false} FeedValue(st: Scan, v: Value)
    requires Within(st) && Legal(v)
    ensures FeedAll(st, Text(v)) == Extend(st, Text(v))
    decreases v, 1
  {
    match v
    case Word(text) => assert Inert("true") && Inert("false") && Inert("null"); FeedInert(st, text);
    case Number(text) => FeedInert(st, text);
    case Str(elems) => FeedStr(st, elems);
    case Arr(blank, items) =>
      FeedInert(st, "[" + blank);
      FeedItems(Extend(st, "[" + blank), items, "");
      FeedJoin(st, "[" + blank, ItemsText(items, ""));
      var upTo := "[" + blank + ItemsText(items, "");
      FeedInert(Extend(st, upTo), "]");
      FeedJoin(st, upTo, "]");
    case Obj(blank, members) =>
      var body := Body(v);
      FeedBody(st, blank, members);
      FeedOne(Extend(st, body).(depth := st.depth + 1), '}');
      FeedAppend(st, body, "}");
      assert st.current + body + "}" == st.current + Text(v);
  }

  // An object's text without its closing brace.
  function Body(v: Value): string
    requires v.Obj?
  {
    "{" + v.blank + MembersText(v.members, "")
  }

  lemma {:induction false} FeedBody(st: Scan, blank: string, members: Members)
    requires !st.inString && !st.escaped && st.depth >= 0 && IsBlank(blank) && LegalMembers(members)
    ensures FeedAll(st, "{" + blank + MembersText(members, "")) ==
            Extend(st, "{" + blank + MembersText(members, "")).(depth := st.depth + 1)
    decreases members, 1
  {
    hide FeedAll, MembersText;
    var m := MembersText(members, "");
    var deeper := Feed(st, '{');
    FeedInert(deeper, blank);
    FeedMembers(Extend(deeper, blank), members, "");
    FeedJoin(deeper, blank, m);
    FeedAfter(st, '{', blank + m, Extend(deeper, blank + m));
    Appended(st.current, ['{'], blank, m);
  }

  // A value in its white space.
  lemma {:induction false} FeedPadded(st: Scan, before: string, value: Value, after: string)
    requires Within(st) && Inert(before) && Legal(value) && Inert(after)
    ensures FeedAll(st, before + Text(value) + after) == Extend(st, before + Text(value) + after)
    decreases value, 2
  {
    var v := Text(value);
    FeedInert(st, before);
    FeedValue(Extend(st, before), value);
    FeedJoin(st, before, v);
    FeedInert(Extend(st, before + v), after);
    FeedJoin(st, before + v, after);
  }

  lemma {:induction false} FeedItems(st: Scan, items: Items, sep: string)
    requires Within(st) && LegalItems(items) && Inert(sep)
    ensures FeedAll(st, ItemsText(items, sep)) == Extend(st, ItemsText(items, sep))
    decreases items, 0
  {
    match items
    case NoItems => assert st.current + "" == st.current;
    case Item(before, value, after, rest) =>
      var a, b := sep + before + Text(value) + after, ItemsText(rest, ",");
      FeedPadded(st, sep + before, value, after);
      FeedItems(Extend(st, a), rest, ",");
      FeedJoin(st, a, b);
  }

  lemma {:induction false} FeedMembers(st: Scan, members: Members, sep: string)
    requires Within(st) && LegalMembers(members) && Inert(sep)
    ensures FeedAll(st, MembersText(members, sep)) == Extend(st, MembersText(members, sep))
    decreases members, 0
  {
    match members
    case NoMembers => assert st.current + "" == st.current;
    case Member(lead, key, colon, before, value, after, rest) =>
      var k, v, r := KeyText(sep, lead, key, colon), before + Text(value) + after, MembersText(rest, ",");
      FeedKey(st, sep, lead, key, colon);
      FeedPadded(Extend(st, k), before, value, after);
      FeedJoin(st, k, v);
      FeedMembers(Extend(st, k + v), rest, ",");
      FeedJoin(st, k + v, r);
      MemberJoined(sep + lead + StrText(key) + colon + ":", before, Text(value), after, r);
  }

  lemma MemberJoined(key: string, before: string, value: string, after: string, rest: string)
    ensures key + (before + value + after) + rest == key + before + value + after + rest
  {}

  function KeyText(sep: string, lead: string, key: seq<Elem>, colon: string): string {
    sep + lead + StrText(key) + colon + ":"
  }

  lemma FeedKey(st: Scan, sep: string, lead: string, key: seq<Elem>, colon: string)
    requires Within(st) && Inert(sep) && IsBlank(lead) && LegalElems(key) && IsBlank(colon)
    ensures FeedAll(st, KeyText(sep, lead, key, colon)) == Extend(st, KeyText(sep, lead, key, colon))
  {
    var a, b, c := sep + lead, StrText(key), colon + ":";
    FeedInert(st, a);
    FeedStr(Extend(st, a), key);
    FeedJoin(st, a, b);
    FeedInert(Extend(st, a + b), c);
    FeedJoin(st, a + b, c);
    assert a + b + c == KeyText(sep, lead, key, colon);
  }

  // ---------- Splitting inverts printing ----------

  // At depth zero the text of an object completes it.
  lemma FeedObject(st: Scan, v: Value)
    requires !st.inString && !st.escaped && st.depth == 0 && v.Obj? && Legal(v)
    ensures FeedAll(st, Text(v)) == Scan("", 0, false, false, st.objects + [TrimSpace(st.current + Text(v))])
  {
    FeedBody(st, v.blank, v.members);
    FeedAppend(st, Body(v), "}");
    FeedOne(Extend(st, Body(v)).(depth := 1), '}');
    assert st.current + Body(v) + "}" == st.current + Text(v);
  }

  // What is on the wire: objects with white space between them, and what trails.
  datatype Stream = End(blank: string) | Next(blank: string, obj: Value, rest: Stream)

  predicate LegalStream(s: Stream) {
    match s
    case End(blank) => IsBlank(blank)
    case Next(blank, obj, rest) => IsBlank(blank) && obj.Obj? && Legal(obj) && LegalStream(rest)
  }

  function StreamText(s: Stream): string {
    match s
    case End(blank) => blank
    case Next(blank, obj, rest) => blank + Text(obj) + StreamText(rest)
  }

  function Objects(s: Stream): seq<string> {
    match s
    case End(_) => []
    case Next(_, obj, rest) => [Text(obj)] + Objects(rest)
  }

  // White space and an object, read between objects.
  lemma FeedNext(objects: seq<string>, blank: string, obj: Value)
    requires IsBlank(blank) && obj.Obj? && Legal(obj)
    ensures FeedAll(Idle.(objects := objects), blank + Text(obj)) == Idle.(objects := objects + [Text(obj)])
  {
    var st := Idle.(objects := objects);
    FeedInert(st, blank);
    FeedAppend(st, blank, Text(obj));
    FeedObject(Extend(st, blank), obj);
    assert "" + blank == blank;
    TrimSpaceExact(blank, Text(obj));
  }

  lemma {:induction false} FeedStream(objects: seq<string>, s: Stream)
    requires LegalStream(s)
    ensures FeedAll(Idle.(objects := objects), StreamText(s)).objects == objects + Objects(s)
    decreases s
  {
    var st := Idle.(objects := objects);
    match s
    case End(blank) => FeedInert(st, blank);
    case Next(blank, obj, rest) =>
      FeedNext(objects, blank, obj);
      FeedAppend(st, blank + Text(obj), StreamText(rest));
      FeedStream(objects + [Text(obj)], rest);
      assert objects + [Text(obj)] + Objects(rest) == objects + ([Text(obj)] + Objects(rest));
  }

  /**
    For any sequence of legal objects printed with any white space between and
    around them, splitting returns exactly their texts, in order, whatever braces,
    quotes and backslashes their strings contain.
   */
  lemma SplitInvertsPrinting(s: Stream)
    requires LegalStream(s)
    ensures Split(StreamText(s)) == Objects(s)
  {
    FeedStream([], s);
  }

  /**
    What stands between objects must be white space: any other bytes without
    braces or quotes stay attached to the object after them.
   */
  lemma SeparatorExact(sep: string, v: Value)
    requires Inert(sep) && v.Obj? && Legal(v)
    ensures Split(sep + Text(v)) == [Text(v)] <==> AllSpace(sep)
  {
    FeedInert(Idle, sep);
    FeedObject(Extend(Idle, sep), v);
    FeedAppend(Idle, sep, Text(v));
    TrimSpaceExact(sep, Text(v));
    assert "" + sep == sep;
    assert Split(sep + Text(v))[0] == TrimSpace(sep + Text(v));
  }

  // ---------- Requests ----------

  const MCPProtocolVersion := "2025-06-18"

  function Request(name: string, params: Value, id: string): Value {
    Record(Field("jsonrpc", StringOf("2.0"),
           Field("method", StringOf(name),
           Field("params", params,
           Field("id", Number(id), NoMembers)))))
  }

  function InitializeParams(): Value {
    Record(Field("protocolVersion", StringOf(MCPProtocolVersion),
           Field("capabilities", Record(NoMembers),
           Field("clientInfo",
             Record(Field("name", StringOf("gateway-proxy"), Field("version", StringOf("1.0"), NoMembers))),
             NoMembers))))
  }

  function InitializeRequest(): Value {
    Request("initialize", InitializeParams(), "0")
  }

  // Nil arguments are left out.
  function ToolRequest(tool: string, args: Option<Value>): Value {
    Request("tools/call",
      Record(Field("name", StringOf(tool),
             if args.Some? then Field("arguments", args.value, NoMembers) else NoMembers)),
      "1")
  }

  /** The two lines of a stdio exchange: initialize, then tools/call. */
  function BuildMCPRequest(tool: string, args: Option<Value>): Result<string, string> {
    if tool == "" then Err("toolName is required")
    else Ok(Text(InitializeRequest()) + "\n" + Text(ToolRequest(tool, args)) + "\n")
  }

  lemma QuotedNames()
    ensures "\"" + "tools/call" + "\"" == "\"tools/call\""
    ensures "\"" + "initialize" + "\"" == "\"initialize\""
  {}

  lemma VersionText()
    ensures Text(StringOf(MCPProtocolVersion)) == "\"2025-06-18\""
  {
    hide Escape;
    QuotedText(MCPProtocolVersion, "\"2025-06-18\"");
  }

  // The envelope of a request, around its parameters.
  lemma RequestText(name: string, params: Value, id: string)
    requires Ordinary(name)
    ensures Text(Request(name, params, id)) ==
            "{" + (Keyed("jsonrpc", "\"2.0\"")
              + ("," + Keyed("method", "\"" + name + "\"")
                + ("," + Keyed("params", Text(params))
                  + ("," + Keyed("id", id))))) + "}"
  {
    hide Escape, Text, MembersText, StrText, Keyed;
    var last := Field("id", Number(id), NoMembers);
    var third := Field("params", params, last);
    var second := Field("method", StringOf(name), third);
    NumberText(id);
    LastText("id", Number(id));
    FieldText("params", params, last, ",");
    FieldText("method", StringOf(name), third, ",");
    FirstText("jsonrpc", StringOf("2.0"), second);
    QuotedText("2.0", "\"2.0\"");
    QuotedText(name, "\"" + name + "\"");
    RecordText(Field("jsonrpc", StringOf("2.0"), second));
  }

  /** The bytes of a tools/call request: this tool, and these arguments if there are any. */
  lemma ToolRequestText(tool: string, args: Option<Value>)
    ensures Text(ToolRequest(tool, args)) ==
            "{" + (Keyed("jsonrpc", "\"2.0\"")
              + ("," + Keyed("method", "\"tools/call\"")
                + ("," + Keyed("params", "{" + (Keyed("name", StrText(Escape(tool)))
                    + if args.Some? then "," + Keyed("arguments", Text(args.value)) else "") + "}")
                  + ("," + Keyed("id", "1"))))) + "}"
  {
    hide Escape, Text, MembersText, StrText, Keyed;
    var rest := if args.Some? then Field("arguments", args.value, NoMembers) else NoMembers;
    if args.Some? { LastText("arguments", args.value); }
    NoFields();
    StringText(tool);
    FirstText("name", StringOf(tool), rest);
    RecordText(Field("name", StringOf(tool), rest));
    RequestText("tools/call", Record(Field("name", StringOf(tool), rest)), "1");
    QuotedNames();
  }

  /** And those of the initialize request. */
  lemma InitializeRequestText()
    ensures Text(InitializeRequest()) ==
            "{" + (Keyed("jsonrpc", "\"2.0\"")
              + ("," + Keyed("method", "\"initialize\"")
                + ("," + Keyed("params", "{" + (Keyed("protocolVersion", "\"2025-06-18\"")
                    + ("," + Keyed("capabilities", "{" + "" + "}")
                      + ("," + Keyed("clientInfo", "{" + (Keyed("name", "\"gateway-proxy\"")
                          + ("," + Keyed("version", "\"1.0\""))) + "}")))) + "}")
                  + ("," + Keyed("id", "0"))))) + "}"
  {
    hide Escape, Text, MembersText, StrText, Keyed;
    ParamsText();
    QuotedNames();
    RequestText("initialize", InitializeParams(), "0");
  }

  lemma ParamsText()
    ensures Text(InitializeParams()) ==
            "{" + (Keyed("protocolVersion", "\"2025-06-18\"")
              + ("," + Keyed("capabilities", "{" + "" + "}")
                + ("," + Keyed("clientInfo", "{" + (Keyed("name", "\"gateway-proxy\"")
                    + ("," + Keyed("version", "\"1.0\""))) + "}")))) + "}"
  {
    hide Escape, Text, MembersText, StrText, Keyed;
    var version := Field("version", StringOf("1.0"), NoMembers);
    var info := Record(Field("name", StringOf("gateway-proxy"), version));
    var client := Field("clientInfo", info, NoMembers);
    var more := Field("capabilities", Record(NoMembers), client);
    ClientText();
    LastText("clientInfo", info);
    RecordText(NoMembers);
    FieldText("capabilities", Record(NoMembers), client, ",");
    FirstText("protocolVersion", StringOf(MCPProtocolVersion), more);
    NoFields();
    VersionText();
    RecordText(Field("protocolVersion", StringOf(MCPProtocolVersion), more));
  }

  lemma ClientText()
    ensures Text(Record(Field("name", StringOf("gateway-proxy"), Field("version", StringOf("1.0"), NoMembers)))) ==
            "{" + (Keyed("name", "\"gateway-proxy\"") + ("," + Keyed("version", "\"1.0\""))) + "}"
  {
    hide Escape, Text, MembersText, StrText, Keyed;
    var version := Field("version", StringOf("1.0"), NoMembers);
    QuotedText("1.0", "\"1.0\"");
    QuotedText("gateway-proxy", "\"gateway-proxy\"");
    LastText("version", StringOf("1.0"));
    FirstText("name", StringOf("gateway-proxy"), version);
    RecordText(Field("name", StringOf("gateway-proxy"), version));
  }

  lemma RequestMarshalled(name: string, params: Value, id: string)
    requires Marshalled(params) && IsNumber(id)
    ensures Marshalled(Request(name, params, id))
  {
    var f3 := Field("id", Number(id), NoMembers);
    FieldMarshalled("id", Number(id), NoMembers);
    FieldMarshalled("params", params, f3);
    PairMarshalled("method", name, Field("params", params, f3));
    PairMarshalled("jsonrpc", "2.0", Field("method", StringOf(name), Field("params", params, f3)));
  }

  lemma InitializeMarshalled()
    ensures Marshalled(InitializeRequest())
  {
    var version := Field("version", StringOf("1.0"), NoMembers);
    PairMarshalled("version", "1.0", NoMembers);
    PairMarshalled("name", "gateway-proxy", version);
    var info := Record(Field("name", StringOf("gateway-proxy"), version));
    var rest := Field("clientInfo", info, NoMembers);
    FieldMarshalled("clientInfo", info, NoMembers);
    FieldMarshalled("capabilities", Record(NoMembers), rest);
    var more := Field("capabilities", Record(NoMembers), rest);
    PairMarshalled("protocolVersion", MCPProtocolVersion, more);
    RequestMarshalled("initialize", Record(Field("protocolVersion", StringOf(MCPProtocolVersion), more)), "0");
  }

  lemma ToolMarshalled(tool: string, args: Option<Value>)
    requires args.Some? ==> Marshalled(args.value)
    ensures Marshalled(ToolRequest(tool, args))
  {
    var rest := if args.Some? then Field("arguments", args.value, NoMembers) else NoMembers;
    if args.Some? { FieldMarshalled("arguments", args.value, NoMembers); }
    PairMarshalled("name", tool, rest);
    RequestMarshalled("tools/call", Record(Field("name", StringOf(tool), rest)), "1");
  }

  // ---------- Responses ----------

  datatype RpcError = RpcError(code: int, message: string)

  datatype ToolResult = ToolResult(isError: bool, content: seq<string>)

  // A decoded response; its result member is decoded in turn, if it can be.
  datatype Envelope = Envelope(error: Option<RpcError>, result: Option<ToolResult>)

  // json.Unmarshal at the two types the gateway decodes to.
  datatype Decoder<D> = Decoder(envelope: string -> Option<Envelope>, content: string -> Option<D>)

  datatype Data<D> = NoData | PlainText(text: string) | Decoded(value: D)

  datatype ParseError =
    EmptyResponse | NoObjects | BadEnvelope | Rpc(error: RpcError) | BadResult | ToolFailed(text: string)

  // The steps both parsers share once they hold one object's bytes.
  function Extract<D>(dec: Decoder<D>, raw: string): Result<Data<D>, ParseError> {
    var envelope := dec.envelope(raw);
    if envelope.None? then Err(BadEnvelope)
    else if envelope.value.error.Some? then Err(Rpc(envelope.value.error.value))
    else if envelope.value.result.None? then Err(BadResult)
    else
      var r := envelope.value.result.value;
      if r.isError then Err(ToolFailed(if |r.content| > 0 then r.content[0] else "unknown"))
      else if r.content == [] then Ok(NoData)
      else
        var value := dec.content(r.content[0]);
        Ok(if value.Some? then Decoded(value.value) else PlainText(r.content[0]))
  }

  function ParseHTTPResponse<D>(dec: Decoder<D>, response: string): Result<Data<D>, ParseError> {
    if response == "" then Err(EmptyResponse) else Extract(dec, response)
  }

  function ParseStdioResponse<D>(dec: Decoder<D>, response: string): Result<Data<D>, ParseError> {
    if response == "" then Err(EmptyResponse)
    else
      var objects := Split(response);
      if objects == [] then Err(NoObjects) else Extract(dec, objects[|objects| - 1])
  }

  // proxy.go: first as one object, then as several lines; an error becomes data.
  function ParseToolResponse<D>(dec: Decoder<D>, response: string): Result<Data<D>, ParseError> {
    var data := ParseHTTPResponse(dec, response);
    if data.Ok? then data else ParseStdioResponse(dec, response)
  }

  /**
    What the gateway makes of a decoded response: an error exactly when the response is
    one or the tool reports one, and otherwise the first text of its content, decoded if
    it can be.
   */
  lemma AnswerExact<D>(dec: Decoder<D>, response: string)
    ensures var r := ParseHTTPResponse(dec, response);
            (r == Err(EmptyResponse) <==> response == "") && r != Err(NoObjects)
    ensures response != "" ==>
      (ParseHTTPResponse(dec, response) == Err(BadEnvelope) <==> dec.envelope(response).None?)
    ensures forall e :: response != "" ==>
      (ParseHTTPResponse(dec, response) == Err(Rpc(e)) <==>
        dec.envelope(response).Some? && dec.envelope(response).value.error == Some(e))
    ensures response != "" ==>
      (ParseHTTPResponse(dec, response) == Err(BadResult) <==> dec.envelope(response) == Some(Envelope(None, None)))
    ensures forall t :: response != "" ==>
      (ParseHTTPResponse(dec, response) == Err(ToolFailed(t)) <==>
        exists content :: dec.envelope(response) == Some(Envelope(None, Some(ToolResult(true, content))))
          && t == if content == [] then "unknown" else content[0])
    ensures response != "" ==>
      (ParseHTTPResponse(dec, response) == Ok(NoData) <==>
        dec.envelope(response) == Some(Envelope(None, Some(ToolResult(false, [])))))
    ensures forall v :: response != "" ==>
      (ParseHTTPResponse(dec, response) == Ok(Decoded(v)) <==>
        exists content :: dec.envelope(response) == Some(Envelope(None, Some(ToolResult(false, content))))
          && content != [] && dec.content(content[0]) == Some(v))
    ensures forall t :: response != "" ==>
      (ParseHTTPResponse(dec, response) == Ok(PlainText(t)) <==>
        exists content :: dec.envelope(response) == Some(Envelope(None, Some(ToolResult(false, content))))
          && content != [] && content[0] == t && dec.content(t).None?)
  {
    var envelope := dec.envelope(response);
    if envelope.Some? && envelope.value.error.None? && envelope.value.result.Some? {
      var result := envelope.value.result.value;
      assert envelope == Some(Envelope(None, Some(ToolResult(result.isError, result.content))));
    }
  }

  lemma ObjectTextNonempty(v: Value)
    requires v.Obj?
    ensures |Text(v)| >= 2
  {}

  /** Of any number of objects on the wire, the stdio parser reads the last as the HTTP parser would. */
  lemma StdioReadsLast<D>(dec: Decoder<D>, s: Stream)
    requires LegalStream(s) && Objects(s) != []
    ensures var objects := Objects(s);
            ParseStdioResponse(dec, StreamText(s)) == ParseHTTPResponse(dec, objects[|objects| - 1])
  {
    SplitInvertsPrinting(s);
    var objects := Objects(s);
    LastIsText(s);
  }

  /** So of the last object on the wire the gateway reports the same. */
  lemma StdioAnswerExact<D>(dec: Decoder<D>, s: Stream)
    requires LegalStream(s) && Objects(s) != []
    ensures var r, env := ParseStdioResponse(dec, StreamText(s)), dec.envelope(Objects(s)[|Objects(s)| - 1]);
            && (env.None? ==> r == Err(BadEnvelope))
            && (forall e, result :: env == Some(Envelope(Some(e), result)) ==> r == Err(Rpc(e)))
            && (env == Some(Envelope(None, None)) ==> r == Err(BadResult))
            && (forall content :: env == Some(Envelope(None, Some(ToolResult(true, content)))) ==>
                  r == Err(ToolFailed(if content == [] then "unknown" else content[0])))
            && (env == Some(Envelope(None, Some(ToolResult(false, [])))) ==> r == Ok(NoData))
            && (forall content :: env == Some(Envelope(None, Some(ToolResult(false, content)))) && content != [] ==>
                  r == Ok(match dec.content(content[0]) case Some(v) => Decoded(v) case None => PlainText(content[0])))
  {
    StdioReadsLast(dec, s);
    LastIsText(s);
  }

  lemma {:induction false} LastIsText(s: Stream)
    requires LegalStream(s) && Objects(s) != []
    ensures Objects(s)[|Objects(s)| - 1] != "" && StreamText(s) != ""
  {
    match s
    case End(_) =>
    case Next(blank, obj, rest) =>
      ObjectTextNonempty(obj);
      if Objects(rest) != [] { LastIsText(rest); }
  }

  /**
    On a response holding a single object, in any white space the decoder skips,
    the two parsers agree, and so the fallback from one to the other changes nothing.
   */
  lemma FallbackChangesNothing<D>(dec: Decoder<D>, before: string, v: Value, after: string)
    requires IsBlank(before) && v.Obj? && Legal(v) && IsBlank(after)
    requires dec.envelope(before + Text(v) + after) == dec.envelope(Text(v))
    ensures ParseStdioResponse(dec, before + Text(v) + after) == ParseHTTPResponse(dec, before + Text(v) + after)
    ensures ParseToolResponse(dec, before + Text(v) + after) == ParseHTTPResponse(dec, Text(v))
  {
    var s := Next(before, v, End(after));
    assert StreamText(s) == before + Text(v) + after;
    assert Objects(s) == [Text(v)];
    StdioReadsLast(dec, s);
  }
}
