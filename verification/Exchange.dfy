/**
  The gateway and a oneshot agent together: what BuildMCPRequest sends, the
  agent's Run consumes, and what the agent writes, ParseStdioResponse reads.
 */
module Exchange {
  import opened Basics
  import opened Json
  import opened Framing
  import opened Oneshot
  import Runs = OneshotRuns

  // The values the first n lines are answered with, errors included.
  function Responses(h: Handler, lines: seq<string>, n: nat): seq<Value>
    requires n <= |lines|
  {
    if n == 0 then []
    else
      var line := lines[n - 1];
      var earlier := Responses(h, lines, n - 1);
      if line == "" || h(n - 1, line).written.None? then earlier
      else earlier + [h(n - 1, line).written.value]
  }

  function Texts(vs: seq<Value>): (ts: seq<string>)
    ensures |ts| == |vs|
  {
    seq(|vs|, i requires 0 <= i < |vs| => Text(vs[i]))
  }

  predicate AllObjects(vs: seq<Value>) {
    forall v <- vs :: v.Obj? && Marshalled(v)
  }

  // What a run may write: objects, and the null that answers a notification.
  predicate AllPlain(vs: seq<Value>) {
    forall v <- vs :: (v.Obj? && Marshalled(v)) || v == Word("null")
  }

  // ---------- What splitting makes of a run's output ----------

  // What the scanner has read since the last object.
  function Pending(vs: seq<Value>): string {
    if vs == [] then ""
    else if vs[|vs| - 1].Obj? then "\n"
    else Pending(vs[..|vs| - 1]) + "null\n"
  }

  function Recovered(vs: seq<Value>): seq<string> {
    if vs == [] then []
    else
      var front, last := vs[..|vs| - 1], vs[|vs| - 1];
      if last.Obj? then Recovered(front) + [TrimSpace(Pending(front) + Text(last))] else Recovered(front)
  }

  function Objs(vs: seq<Value>): seq<Value> {
    if vs == [] then []
    else Objs(vs[..|vs| - 1]) + if vs[|vs| - 1].Obj? then [vs[|vs| - 1]] else []
  }

  // The scanner after the responses vs.
  function ScanAfter(vs: seq<Value>): Scan {
    Scan(Pending(vs), 0, false, false, Recovered(vs))
  }

  lemma FeedObjectLine(st: Scan, v: Value)
    requires !st.inString && !st.escaped && st.depth == 0 && v.Obj? && Legal(v)
    ensures FeedAll(st, Text(v) + "\n") ==
            Scan("\n", 0, false, false, st.objects + [TrimSpace(st.current + Text(v))])
  {
    FeedObject(st, v);
    FeedAppend(st, Text(v), "\n");
    FeedOne(FeedAll(st, Text(v)), '\n');
    assert "" + "\n" == "\n";
  }

  lemma FeedResponse(vs: seq<Value>, v: Value)
    requires (v.Obj? && Marshalled(v)) || v == Word("null")
    ensures FeedAll(ScanAfter(vs), Text(v) + "\n") == ScanAfter(vs + [v])
  {
    assert (vs + [v])[..|vs|] == vs;
    if v.Obj? {
      FeedObjectLine(ScanAfter(vs), v);
    } else {
      assert Text(v) + "\n" == "null\n";
      FeedInert(ScanAfter(vs), "null\n");
    }
  }

  // What line n adds to the responses and to the output.
  lemma WrittenExtends(h: Handler, lines: seq<string>, n: nat) returns (v: Option<Value>)
    requires 0 < n <= |lines|
    ensures v == if lines[n - 1] == "" then None else h(n - 1, lines[n - 1]).written
    ensures Responses(h, lines, n) == Responses(h, lines, n - 1) + if v.Some? then [v.value] else []
    ensures WrittenUpTo(h, lines, n) == WrittenUpTo(h, lines, n - 1) + if v.Some? then Text(v.value) + "\n" else ""
  {
    v := if lines[n - 1] == "" then None else h(n - 1, lines[n - 1]).written;
  }

  lemma PlainFront(vs: seq<Value>, v: Value)
    requires AllPlain(vs + [v])
    ensures AllPlain(vs) && ((v.Obj? && Marshalled(v)) || v == Word("null"))
  {
    assert forall x <- vs :: x in vs + [v];
    assert (vs + [v])[|vs|] == v;
  }

  lemma {:induction false} FeedWritten(h: Handler, lines: seq<string>, n: nat)
    requires n <= |lines| && AllPlain(Responses(h, lines, n))
    ensures FeedAll(Idle, WrittenUpTo(h, lines, n)) == ScanAfter(Responses(h, lines, n))
  {
    if n > 0 {
      var before, text := Responses(h, lines, n - 1), WrittenUpTo(h, lines, n - 1);
      var v := WrittenExtends(h, lines, n);
      if v.Some? {
        PlainFront(before, v.value);
        FeedWritten(h, lines, n - 1);
        FeedAppend(Idle, text, Text(v.value) + "\n");
        FeedResponse(before, v.value);
      } else {
        assert before + [] == before && text + "" == text;
        FeedWritten(h, lines, n - 1);
      }
    }
  }

  // ---------- When every response comes back ----------

  ghost predicate NoNullBeforeObject(vs: seq<Value>) {
    forall i, j :: 0 <= i < j < |vs| && vs[j].Obj? ==> vs[i].Obj?
  }

  // Only white space is pending exactly when nothing but an object is at the end.
  lemma PendingSpace(vs: seq<Value>)
    ensures AllSpace(Pending(vs)) <==> vs == [] || vs[|vs| - 1].Obj?
  {
    if vs != [] && !vs[|vs| - 1].Obj? {
      var before := Pending(vs[..|vs| - 1]);
      assert (before + "null\n")[|before|] == 'n' && 'n' in before + "null\n";
    }
  }

  // The object at the end comes back as it is exactly when nothing but an object is before it.
  lemma LastRecovered(front: seq<Value>, v: Value)
    requires v.Obj?
    ensures TrimSpace(Pending(front) + Text(v)) == Text(v) <==> front == [] || front[|front| - 1].Obj?
  {
    PendingSpace(front);
    TrimSpaceExact(Pending(front), Text(v));
  }

  lemma RecoveredCount(vs: seq<Value>)
    ensures |Recovered(vs)| == |Objs(vs)|
  {}

  lemma {:induction false} RecoveredExact(vs: seq<Value>)
    requires AllPlain(vs)
    ensures Recovered(vs) == Texts(Objs(vs)) <==> NoNullBeforeObject(vs)
  {
    if vs != [] {
      var front, last := vs[..|vs| - 1], vs[|vs| - 1];
      assert vs == front + [last];
      PlainFront(front, last);
      RecoveredExact(front);
      RecoveredCount(front);
      assert NoNullBeforeObject(vs) ==> NoNullBeforeObject(front) by {
        forall i, j | NoNullBeforeObject(vs) && 0 <= i < j < |front| && front[j].Obj? ensures front[i].Obj? {
          assert vs[i] == front[i] && vs[j] == front[j];
        }
      }
      if last.Obj? {
        LastRecovered(front, last);
        TextsExtend(Objs(front), last);
        NullFree(front, last);
        var a, b := TrimSpace(Pending(front) + Text(last)), Text(last);
        AppendedEqual(Recovered(front), Texts(Objs(front)), a, b);
      }
    }
  }

  lemma AppendedEqual(s: seq<string>, t: seq<string>, a: string, b: string)
    requires |s| == |t|
    ensures s + [a] == t + [b] <==> s == t && a == b
  {
    if s + [a] == t + [b] {
      assert s == (s + [a])[..|s|] && t == (t + [b])[..|t|];
      assert a == (s + [a])[|s|] && b == (t + [b])[|t|];
    }
  }

  lemma NullFree(front: seq<Value>, last: Value)
    requires last.Obj?
    ensures NoNullBeforeObject(front + [last]) <==>
            NoNullBeforeObject(front) && (front == [] || front[|front| - 1].Obj?)
  {
    var vs, n := front + [last], |front|;
    if NoNullBeforeObject(vs) {
      forall i, j | 0 <= i < j < n && front[j].Obj? ensures front[i].Obj? {
        assert vs[i] == front[i] && vs[j] == front[j];
      }
      assert n > 0 ==> vs[n - 1] == front[n - 1] && vs[n].Obj?;
    }
    if NoNullBeforeObject(front) && (front == [] || front[n - 1].Obj?) {
      forall i, j | 0 <= i < j < |vs| && vs[j].Obj? ensures vs[i].Obj? {
        assert i < n - 1 ==> front[i].Obj?;
      }
    }
  }

  lemma TextsExtend(vs: seq<Value>, v: Value)
    ensures Texts(vs + [v]) == Texts(vs) + [Text(v)]
  {}

  /**
    However many lines a run consumed and whichever of them failed, splitting what it
    wrote gives back the texts of its objects, in order, exactly when no null, the answer
    to a notification, precedes an object.
   */
  lemma ResponsesRecovered(h: Handler, lines: seq<string>, n: nat)
    requires n <= |lines| && AllPlain(Responses(h, lines, n))
    ensures Split(WrittenUpTo(h, lines, n)) == Texts(Objs(Responses(h, lines, n))) <==>
            NoNullBeforeObject(Responses(h, lines, n))
  {
    FeedWritten(h, lines, n);
    RecoveredExact(Responses(h, lines, n));
  }

  lemma {:induction false} AllOfThem(vs: seq<Value>)
    requires AllObjects(vs)
    ensures Objs(vs) == vs && AllPlain(vs) && NoNullBeforeObject(vs)
  {
    if vs != [] {
      var front, last := vs[..|vs| - 1], vs[|vs| - 1];
      assert vs == front + [last];
      AllOfThem(front);
    }
  }

  /** In particular every response comes back when all of them are objects. */
  lemma EveryResponseRecovered(h: Handler, lines: seq<string>, n: nat)
    requires n <= |lines| && AllObjects(Responses(h, lines, n))
    ensures Split(WrittenUpTo(h, lines, n)) == Texts(Responses(h, lines, n))
  {
    AllOfThem(Responses(h, lines, n));
    ResponsesRecovered(h, lines, n);
  }

  /**
    Of a run that ends with an object, the stdio parser takes the last piece; it is that
    object's text exactly when the response just before it is not null.
   */
  lemma LastReplyRead<D>(dec: Decoder<D>, h: Handler, lines: seq<string>, n: nat) returns (piece: string)
    requires n <= |lines| && AllPlain(Responses(h, lines, n))
    requires var vs := Responses(h, lines, n); vs != [] && vs[|vs| - 1].Obj?
    ensures ParseStdioResponse(dec, WrittenUpTo(h, lines, n)) == Extract(dec, piece)
    ensures var vs := Responses(h, lines, n);
            piece == Text(vs[|vs| - 1]) <==> |vs| == 1 || vs[|vs| - 2].Obj?
  {
    var vs := Responses(h, lines, n);
    var front, last := vs[..|vs| - 1], vs[|vs| - 1];
    assert vs == front + [last];
    PlainFront(front, last);
    FeedWritten(h, lines, n);
    piece := TrimSpace(Pending(front) + Text(last));
    assert Split("") == [];
    LastRecovered(front, last);
  }

  // ---------- Which responses are objects ----------

  /** Of a run's responses only the server's own need be looked at: those to errors are objects. */
  lemma {:induction false} RepliesDecide(s: Session, lines: seq<string>, n: nat)
    requires n <= |lines| && ParsesIds(s)
    requires forall k :: 0 <= k < n && s.handle(k, lines[k]).Some? ==>
      s.handle(k, lines[k]).value.Obj? && Marshalled(s.handle(k, lines[k]).value)
    ensures AllObjects(Responses(Handling(s), lines, n))
  {
    hide Escape;
    if n > 0 {
      RepliesDecide(s, lines, n - 1);
      ReplyIsObject(s, n - 1, lines[n - 1]);
    }
  }

  // ---------- One tool call ----------

  lemma TwoLinesRead(first: Value, second: Value)
    requires Marshalled(first) && Marshalled(second)
    requires |Text(first)| < MaxScanTokenSize && |Text(second)| < MaxScanTokenSize
    ensures ScanLines(Text(first) + "\n" + Text(second) + "\n") == Scanned([Text(first), Text(second)], None)
  {
    var a, b := Text(first), Text(second);
    MarshalledLineRead(first, b + "\n");
    MarshalledLineRead(second, "");
    assert b + "\n" + "" == b + "\n";
    assert a + "\n" + (b + "\n") == a + "\n" + b + "\n";
    assert [a] + ([b] + []) == [a, b];
  }

  lemma RequestLines(tool: string, args: Option<Value>)
    requires tool != "" && (args.Some? ==> Marshalled(args.value))
    requires |Text(ToolRequest(tool, args))| < MaxScanTokenSize
    ensures ScanLines(BuildMCPRequest(tool, args).value) ==
            Scanned([Text(InitializeRequest()), Text(ToolRequest(tool, args))], None)
  {
    InitializeMarshalled();
    InitializeFits();
    ToolMarshalled(tool, args);
    TwoLinesRead(InitializeRequest(), ToolRequest(tool, args));
  }

  // ---------- The initialize message always fits ----------

  lemma {:induction false} ElemsLength(es: seq<Elem>)
    requires LegalElems(es)
    ensures |ElemsText(es)| <= 6 * |es|
  {
    if es != [] { assert LegalElem(es[0]); ElemsLength(es[1..]); }
  }

  lemma StringLength(s: string)
    ensures |StrText(Escape(s))| <= 6 * |s| + 2
  {
    EscapeReadsBack(s);
    ElemsLength(Escape(s));
  }

  lemma FieldLength(key: string, value: Value, rest: Members, sep: string)
    ensures |MembersText(Field(key, value, rest), sep)| <=
            |sep| + 6 * |key| + 3 + |Text(value)| + |MembersText(rest, ",")|
  {
    StringLength(key);
  }

  lemma PairLength(key: string, s: string, rest: Members, sep: string)
    ensures |MembersText(Field(key, StringOf(s), rest), sep)| <=
            |sep| + 6 * |key| + 5 + 6 * |s| + |MembersText(rest, ",")|
  {
    FieldLength(key, StringOf(s), rest, sep);
    StringLength(s);
  }

  lemma RequestLength(name: string, params: Value, id: string)
    ensures |Text(Request(name, params, id))| <= 6 * |name| + |Text(params)| + |id| + 170
  {
    var last := Field("id", Number(id), NoMembers);
    var third := Field("params", params, last);
    FieldLength("id", Number(id), NoMembers, ",");
    FieldLength("params", params, last, ",");
    PairLength("method", name, third, ",");
    PairLength("jsonrpc", "2.0", Field("method", StringOf(name), third), "");
  }

  lemma InitializeFits()
    ensures |Text(InitializeRequest())| < MaxScanTokenSize
  {
    var version := Field("version", StringOf("1.0"), NoMembers);
    var info := Record(Field("name", StringOf("gateway-proxy"), version));
    var client := Field("clientInfo", info, NoMembers);
    var more := Field("capabilities", Record(NoMembers), client);
    PairLength("version", "1.0", NoMembers, ",");
    PairLength("name", "gateway-proxy", version, "");
    FieldLength("clientInfo", info, NoMembers, ",");
    FieldLength("capabilities", Record(NoMembers), client, ",");
    PairLength("protocolVersion", MCPProtocolVersion, more, "");
    RequestLength("initialize", Record(Field("protocolVersion", StringOf(MCPProtocolVersion), more)), "0");
  }

  // The session answers the two requests, each with an object.
  ghost predicate Answers(s: Session, tool: string, args: Option<Value>, hello: Value, reply: Value) {
    var first, second := Text(InitializeRequest()), Text(ToolRequest(tool, args));
    && s.parse(first).Some? && s.handle(0, first) == Some(hello) && s.writes(0)
    && s.parse(second).Some? && s.handle(1, second) == Some(reply) && s.writes(1)
    && AllObjects([hello, reply])
  }

  lemma TwoResponses(h: Handler, lines: seq<string>, hello: Value, reply: Value)
    requires |lines| == 2 && lines[0] != "" && lines[1] != ""
    requires h(0, lines[0]) == Handled(true, Some(hello)) && h(1, lines[1]) == Handled(true, Some(reply))
    ensures Responses(h, lines, 2) == [hello, reply]
    ensures ProcessedUpTo(h, lines, 1) == 1 && ProcessedUpTo(h, lines, 2) == 2 && EmptyUpTo(lines, 2) == 0
  {
    assert Responses(h, lines, 0) == [] && ProcessedUpTo(h, lines, 0) == 0 && EmptyUpTo(lines, 0) == 0;
    assert EmptyUpTo(lines, 1) == 0;
    assert Responses(h, lines, 1) == [] + [hello] == [hello];
    assert [hello] + [reply] == [hello, reply];
  }

  lemma TwoWritten(h: Handler, lines: seq<string>, hello: Value, reply: Value)
    requires |lines| == 2 && lines[0] != "" && lines[1] != ""
    requires h(0, lines[0]).written == Some(hello) && h(1, lines[1]).written == Some(reply)
    ensures WrittenUpTo(h, lines, 2) == Text(hello) + "\n" + Text(reply) + "\n"
  {
    assert WrittenUpTo(h, lines, 0) == "" && WrittenUpTo(h, lines, 1) == "" + (Text(hello) + "\n");
    assert Text(hello) + "\n" + (Text(reply) + "\n") == Text(hello) + "\n" + Text(reply) + "\n";
  }

  // A run that is not interrupted, limited to two, stops after the second of two lines that both count.
  lemma TwoConsumed(c: Runs.Setup, run: seq<Runs.Label>, st: Runs.State)
    requires Runs.ValidSetup(c) && c.maxRequests == 2 && Runs.Reaches(c, run, st) && st.ending.Some? && !st.cancelled
    requires var lines, h := c.scan.lines, Handling(c.session);
             && |lines| == 2 && c.scan.error.None?
             && ProcessedUpTo(h, lines, 1) == 1 && ProcessedUpTo(h, lines, 2) == 2 && EmptyUpTo(lines, 2) == 0
    ensures st.consumed == 2 && st.stats == Stats(2, 0, 0) && st.ending == Some(LimitReached)
    ensures st.output == WrittenUpTo(Handling(c.session), c.scan.lines, 2)
  {
    Runs.ReachableInv(c, run, st);
    assert ProcessedUpTo(Handling(c.session), c.scan.lines, 0) == 0;
    assert st.consumed == 0 || st.consumed == 1 || st.consumed == 2;
  }

  // As json.Unmarshal does, the decoder refuses a second value after the first.
  ghost predicate OneValueOnly<D>(dec: Decoder<D>) {
    forall v: Value, w: Value :: v.Obj? && w.Obj? ==> dec.envelope(Text(v) + "\n" + Text(w) + "\n").None?
  }

  /**
    A tool call in exec mode, from the gateway through an agent started with
    --oneshot=2 and back, in every interleaving that is not cancelled: the agent
    consumes exactly the two messages and writes the two replies as lines. The gateway
    first takes them for one object, which fails, and then gets what its HTTP parser
    makes of the tools/call reply: an error if the tool reports one, and otherwise the
    first text of its content.
   */
  lemma CallOverStdio<D>(
      tool: string, args: Option<Value>, s: Session, dec: Decoder<D>, hello: Value, reply: Value,
      run: seq<Runs.Label>, st: Runs.State)
    requires tool != "" && (args.Some? ==> Marshalled(args.value))
    requires |Text(ToolRequest(tool, args))| < MaxScanTokenSize
    requires Answers(s, tool, args, hello, reply) && OneValueOnly(dec)
    requires Runs.Reaches(Runs.Setup(ScanLines(BuildMCPRequest(tool, args).value), 2, s), run, st)
    requires st.ending.Some? && !st.cancelled
    ensures st.stats == Stats(2, 0, 0) && st.consumed == 2 && st.ending == Some(LimitReached)
    ensures st.output == Text(hello) + "\n" + Text(reply) + "\n"
    ensures ParseToolResponse(dec, st.output) == ParseHTTPResponse(dec, Text(reply))
  {
    hide Escape;
    var lines := [Text(InitializeRequest()), Text(ToolRequest(tool, args))];
    RequestLines(tool, args);
    ObjectTextNonempty(InitializeRequest());
    ObjectTextNonempty(ToolRequest(tool, args));
    TwoResponses(Handling(s), lines, hello, reply);
    TwoWritten(Handling(s), lines, hello, reply);
    TwoConsumed(Runs.Setup(Scanned(lines, None), 2, s), run, st);
    LastResponseParsed(dec, Handling(s), lines, hello, reply);
    ObjectTextNonempty(reply);
    assert hello in [hello, reply] && reply in [hello, reply];
  }

  lemma LastResponseParsed<D>(dec: Decoder<D>, h: Handler, lines: seq<string>, hello: Value, reply: Value)
    requires |lines| == 2 && Responses(h, lines, 2) == [hello, reply] && AllObjects([hello, reply])
    ensures ParseStdioResponse(dec, WrittenUpTo(h, lines, 2)) == ParseHTTPResponse(dec, Text(reply))
  {
    AllOfThem([hello, reply]);
    assert hello in [hello, reply] && reply in [hello, reply];
    ObjectTextNonempty(reply);
    var piece := LastReplyRead(dec, h, lines, 2);
  }

  /** A message whose answer is null, as a notification's is, spoils the object after it. */
  lemma NullSpoilsNext(reply: Value)
    requires reply.Obj? && Marshalled(reply)
    ensures Split("null\n" + Text(reply)) != [Text(reply)]
  {
    SeparatorExact("null\n", reply);
    assert 'n' in "null\n" && !IsSpace('n');
  }
}
