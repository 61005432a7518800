/** The agent's side of the wire: the oneshot transport of pkg/mcp/oneshot.go. */
module Oneshot {
  import opened Basics
  import opened Json

  // ---------- bufio.Scanner over lines ----------

  // A token and its newline must fit in the scanner's largest buffer.
  const MaxScanTokenSize := 65536

  // The lines a scanner hands out. An error, if there is one, is the scanner's from the
  // line with this number on: that of a token too long comes after all lines, while one of
  // the reader is pending as long as there are lines left in the buffer.
  datatype Scanned = Scanned(lines: seq<string>, error: Option<nat>)

  ghost predicate WellScanned(scan: Scanned) {
    scan.error.Some? ==> scan.error.value <= |scan.lines|
  }

  // Whether the scanner has its error once it has scanned its n-th line, counted from 0, or found no such line.
  predicate Failing(scan: Scanned, n: nat) {
    scan.error.Some? && scan.error.value <= n
  }

  function AfterLine(line: string, rest: Scanned): Scanned {
    Scanned([line] + rest.lines, if rest.error.Some? then Some(rest.error.value + 1) else None)
  }

  function NewlineAt(s: string): Option<nat> {
    if s == "" then None
    else if s[0] == '\n' then Some(0)
    else
      var k := NewlineAt(s[1..]);
      if k.Some? then Some(k.value + 1) else None
  }

  lemma {:induction false} NewlineFound(s: string)
    ensures NewlineAt(s).Some? ==> NewlineAt(s).value < |s| && s[NewlineAt(s).value] == '\n'
    ensures NewlineAt(s).Some? ==> '\n' !in s[..NewlineAt(s).value]
    ensures NewlineAt(s).None? ==> '\n' !in s
  {
    if s != "" && s[0] != '\n' {
      NewlineFound(s[1..]);
      assert s == [s[0]] + s[1..];
      if NewlineAt(s).Some? { assert s[..NewlineAt(s).value] == [s[0]] + s[1..][..NewlineAt(s).value - 1]; }
    }
  }

  function DropCR(s: string): string {
    if s != "" && s[|s| - 1] == '\r' then s[..|s| - 1] else s
  }

  // What is scanned of an input that ends without an error.
  function ScanLines(input: string): (scan: Scanned)
    ensures scan.error.Some? ==> scan.error.value == |scan.lines|
    decreases |input|
  {
    if input == "" then Scanned([], None)
    else
      NewlineFound(input);
      match NewlineAt(input)
      case None =>
        if |input| >= MaxScanTokenSize then Scanned([], Some(0)) else Scanned([DropCR(input)], None)
      case Some(k) =>
        if k >= MaxScanTokenSize then Scanned([], Some(0))
        else AfterLine(DropCR(input[..k]), ScanLines(input[k + 1..]))
  }

  // The same when the reader fails after the input, with this many of the lines handed out before it did.
  function ScanFailing(input: string, before: nat): (scan: Scanned)
    requires before <= |ScanLines(input).lines|
    ensures WellScanned(scan) && scan.error.Some?
  {
    var scan := ScanLines(input);
    if scan.error.Some? then scan else scan.(error := Some(before))
  }

  // ---------- One request ----------

  // What handling one line came to: whether it counts as processed, and the
  // response line's value, absent when the write itself failed.
  datatype Handled = Handled(ok: bool, written: Option<Value>)

  // The handling of the k-th line read.
  type Handler = (nat, string) -> Handled

  // What the libraries and the server do with the k-th line: parsing it gives its id, if
  // it has one; the server's reply may be beyond marshalling; a write may fail.
  datatype Session = Session(
    parse: string -> Option<Option<Value>>,
    handle: (nat, string) -> Option<Value>,
    writes: nat -> bool,
    details: nat -> string)

  function ErrorResponse(id: Option<Value>, code: string, message: string): Value {
    Record(Field("jsonrpc", StringOf("2.0"),
           Field("id", if id.Some? then id.value else Word("null"),
           Field("error",
             Record(Field("code", Number(code), Field("message", StringOf(message), NoMembers))), NoMembers))))
  }

  // What is to be written for a line, and whether it is the server's reply to it.
  function Reply(s: Session, k: nat, line: string): (bool, Value) {
    match s.parse(line)
    case None => (false, ErrorResponse(None, "-32700", "Parse error: " + s.details(k)))
    case Some(id) =>
      var reply := s.handle(k, line);
      if reply.Some? then (true, reply.value)
      else (false, ErrorResponse(id, "-32603", "marshal error: " + s.details(k)))
  }

  function Handling(s: Session): Handler {
    (k: nat, line: string) =>
      var (replied, v) := Reply(s, k, line);
      Handled(replied && s.writes(k), if s.writes(k) then Some(v) else None)
  }

  // The ids that parsing yields are JSON values.
  ghost predicate ParsesIds(s: Session) {
    forall line: string :: s.parse(line).Some? && s.parse(line).value.Some? ==> Marshalled(s.parse(line).value.value)
  }

  /** An error response is one line holding one object, whatever the request and the error say. */
  lemma ErrorIsObject(id: Option<Value>, code: string, message: string)
    requires IsNumber(code) && (id.Some? ==> Marshalled(id.value))
    ensures ErrorResponse(id, code, message).Obj? && Marshalled(ErrorResponse(id, code, message))
  {
    var text := Field("message", StringOf(message), NoMembers);
    PairMarshalled("message", message, NoMembers);
    FieldMarshalled("code", Number(code), text);
    var error := Field("error", Record(Field("code", Number(code), text)), NoMembers);
    FieldMarshalled("error", Record(Field("code", Number(code), text)), NoMembers);
    var shown := if id.Some? then id.value else Word("null");
    FieldMarshalled("id", shown, error);
    PairMarshalled("jsonrpc", "2.0", Field("id", shown, error));
  }

  // The text of the error itself, and that of the response around it.
  lemma ErrorRecordText(code: string, message: string)
    ensures Text(Record(Field("code", Number(code), Field("message", StringOf(message), NoMembers)))) ==
            "{" + (Keyed("code", code) + ("," + Keyed("message", StrText(Escape(message))))) + "}"
  {
    hide Escape, Text, MembersText, StrText, Keyed;
    var text := Field("message", StringOf(message), NoMembers);
    NumberText(code);
    StringText(message);
    LastText("message", StringOf(message));
    FirstText("code", Number(code), text);
    RecordText(Field("code", Number(code), text));
  }

  lemma ResponseText(id: Value, error: Value)
    ensures Text(Record(Field("jsonrpc", StringOf("2.0"), Field("id", id, Field("error", error, NoMembers))))) ==
            "{" + (Keyed("jsonrpc", "\"2.0\"")
              + ("," + Keyed("id", Text(id)) + ("," + Keyed("error", Text(error))))) + "}"
  {
    hide Escape, Text, MembersText, StrText, Keyed;
    var last := Field("error", error, NoMembers);
    QuotedText("2.0", "\"2.0\"");
    LastText("error", error);
    FieldText("id", id, last, ",");
    FirstText("jsonrpc", StringOf("2.0"), Field("id", id, last));
    RecordText(Field("jsonrpc", StringOf("2.0"), Field("id", id, last)));
  }

  /** The bytes of an error response. */
  lemma ErrorText(id: Option<Value>, code: string, message: string)
    ensures Text(ErrorResponse(id, code, message)) ==
            "{" + (Keyed("jsonrpc", "\"2.0\"")
              + ("," + Keyed("id", if id.Some? then Text(id.value) else "null")
                + ("," + Keyed("error", "{" + (Keyed("code", code)
                    + ("," + Keyed("message", StrText(Escape(message))))) + "}")))) + "}"
  {
    hide Escape, Text, MembersText, StrText, Keyed;
    var error := Record(Field("code", Number(code), Field("message", StringOf(message), NoMembers)));
    WordText("null");
    ErrorRecordText(code, message);
    ResponseText(if id.Some? then id.value else Word("null"), error);
  }

  lemma ReplyIsObject(s: Session, k: nat, line: string)
    requires ParsesIds(s)
    ensures var (replied, v) := Reply(s, k, line);
            if replied then s.parse(line).Some? && s.handle(k, line) == Some(v) else v.Obj? && Marshalled(v)
  {
    hide Escape;
    assert IsNumber("-32700") && IsNumber("-32603");
    var id := if s.parse(line).Some? then s.parse(line).value else None;
    ErrorIsObject(None, "-32700", "Parse error: " + s.details(k));
    ErrorIsObject(id, "-32603", "marshal error: " + s.details(k));
  }

  function Written(h: Handler, k: nat, line: string): string {
    if line == "" || h(k, line).written.None? then "" else Text(h(k, line).written.value) + "\n"
  }

  /**
    Each line that is not empty is answered with exactly one line, unless the write
    fails: the server's reply if there is one, and otherwise an error object.
   */
  lemma OneLineEach(s: Session, k: nat, line: string)
    requires ParsesIds(s) && line != ""
    requires s.handle(k, line).Some? ==> Marshalled(s.handle(k, line).value)
    ensures var out := Written(Handling(s), k, line);
            if !s.writes(k) then out == ""
            else |out| > 0 && out[|out| - 1] == '\n' && '\n' !in out[..|out| - 1]
  {
    ReplyIsObject(s, k, line);
    var (replied, v) := Reply(s, k, line);
    MarshalledOnOneLine(v);
    var out := Text(v) + "\n";
    assert out[..|out| - 1] == Text(v);
  }

  // What the first n lines make the agent write.
  function WrittenUpTo(h: Handler, lines: seq<string>, n: nat): string
    requires n <= |lines|
  {
    if n == 0 then "" else WrittenUpTo(h, lines, n - 1) + Written(h, n - 1, lines[n - 1])
  }

  // How many of the first n lines are processed.
  function ProcessedUpTo(h: Handler, lines: seq<string>, n: nat): nat
    requires n <= |lines|
  {
    if n == 0 then 0
    else ProcessedUpTo(h, lines, n - 1) + if lines[n - 1] != "" && h(n - 1, lines[n - 1]).ok then 1 else 0
  }

  function EmptyUpTo(lines: seq<string>, n: nat): nat
    requires n <= |lines|
  {
    if n == 0 then 0 else EmptyUpTo(lines, n - 1) + if lines[n - 1] == "" then 1 else 0
  }

  method WriteLine(s: Session, k: nat, v: Value) returns (ok: bool, out: string)
    ensures ok == s.writes(k) && out == if ok then Text(v) + "\n" else ""
  {
    ok := s.writes(k);
    out := if ok then Text(v) + "\n" else "";
  }

  /**
    Handles one line. It counts as processed exactly when it parses, the reply can be
    marshalled and the write goes through; an error is answered with an error object.
   */
  method ProcessRequest(s: Session, k: nat, line: string) returns (ok: bool, response: string)
    requires line != "" && ParsesIds(s)
    ensures ok <==> s.parse(line).Some? && s.handle(k, line).Some? && s.writes(k)
    ensures ok ==> response == Text(s.handle(k, line).value) + "\n"
    ensures response == "" <==> !s.writes(k)
    ensures s.writes(k) && s.parse(line).None? ==>
      response == Text(ErrorResponse(None, "-32700", "Parse error: " + s.details(k))) + "\n"
    ensures s.writes(k) && s.parse(line).Some? && s.handle(k, line).None? ==>
      response == Text(ErrorResponse(s.parse(line).value, "-32603", "marshal error: " + s.details(k))) + "\n"
    ensures !ok && s.writes(k) ==> exists v: Value :: v.Obj? && Marshalled(v) && response == Text(v) + "\n"
    ensures ok == Handling(s)(k, line).ok && response == Written(Handling(s), k, line)
  {
    hide Escape;
    ReplyIsObject(s, k, line);
    var id := s.parse(line);
    if id.None? {
      var _, out := WriteLine(s, k, ErrorResponse(None, "-32700", "Parse error: " + s.details(k)));
      return false, out;
    }
    var reply := s.handle(k, line);
    if reply.None? {
      var _, out := WriteLine(s, k, ErrorResponse(id.value, "-32603", "marshal error: " + s.details(k)));
      return false, out;
    }
    ok, response := WriteLine(s, k, reply.value);
  }

  // ---------- The run ----------

  datatype Stats = Stats(processed: nat, errors: nat, skipped: nat)

  datatype Ending = LimitReached | EndOfInput | ReadFailed | Interrupted

  // The statistics and the output that n consumed lines account for.
  ghost predicate Accounted(h: Handler, lines: seq<string>, n: nat, stats: Stats, output: string) {
    && n <= |lines|
    && stats.processed == ProcessedUpTo(h, lines, n)
    && stats.skipped == EmptyUpTo(lines, n)
    && stats.processed + stats.errors + stats.skipped == n
    && output == WrittenUpTo(h, lines, n)
  }

  // The limit stopped the run before none of the first n lines.
  ghost predicate BelowLimit(h: Handler, lines: seq<string>, n: nat, maxRequests: nat) {
    n <= |lines| && forall k :: 0 <= k < n ==> ProcessedUpTo(h, lines, k) < maxRequests
  }

  // The lines counted as processed, and as skipped.
  ghost function Answered(s: Session, lines: seq<string>, n: nat): set<nat>
    requires n <= |lines|
  {
    set k: nat | k < n && IsAnswered(s, k, lines[k])
  }

  predicate IsAnswered(s: Session, k: nat, line: string) {
    line != "" && s.parse(line).Some? && s.handle(k, line).Some? && s.writes(k)
  }

  ghost function Blank(lines: seq<string>, n: nat): set<nat>
    requires n <= |lines|
  {
    set k: nat | k < n && lines[k] == ""
  }

  lemma {:induction false} CountsAre(s: Session, lines: seq<string>, n: nat)
    requires n <= |lines|
    ensures ProcessedUpTo(Handling(s), lines, n) == |Answered(s, lines, n)|
    ensures EmptyUpTo(lines, n) == |Blank(lines, n)|
  {
    if n > 0 {
      CountsAre(s, lines, n - 1);
      HandlingOk(s, n - 1, lines[n - 1]);
      AnsweredExtends(s, lines, n);
      BlankExtends(lines, n);
    }
  }

  lemma HandlingOk(s: Session, k: nat, line: string)
    ensures Handling(s)(k, line).ok <==> s.parse(line).Some? && s.handle(k, line).Some? && s.writes(k)
  {
    var (replied, v) := Reply(s, k, line);
    assert replied <==> s.parse(line).Some? && s.handle(k, line).Some?;
  }

  lemma AddedOne(before: set<nat>, after: set<nat>, n: nat, added: bool)
    requires n !in before && after == before + if added then {n} else {}
    ensures |after| == |before| + if added then 1 else 0
  {}

  lemma AnsweredExtends(s: Session, lines: seq<string>, n: nat)
    requires 0 < n <= |lines|
    ensures |Answered(s, lines, n)| ==
            |Answered(s, lines, n - 1)| + if IsAnswered(s, n - 1, lines[n - 1]) then 1 else 0
  {
    hide IsAnswered;
    var before, after := Answered(s, lines, n - 1), Answered(s, lines, n);
    assert after == before + if IsAnswered(s, n - 1, lines[n - 1]) then {n - 1} else {};
    AddedOne(before, after, n - 1, IsAnswered(s, n - 1, lines[n - 1]));
  }

  lemma BlankExtends(lines: seq<string>, n: nat)
    requires 0 < n <= |lines|
    ensures |Blank(lines, n)| == |Blank(lines, n - 1)| + if lines[n - 1] == "" then 1 else 0
  {
    var before, after := Blank(lines, n - 1), Blank(lines, n);
    assert after == before + if lines[n - 1] == "" then {n - 1} else {};
    AddedOne(before, after, n - 1, lines[n - 1] == "");
  }

  function Counted(stats: Stats, h: Handler, n: nat, line: string): Stats {
    if line == "" then stats.(skipped := stats.skipped + 1)
    else if h(n, line).ok then stats.(processed := stats.processed + 1)
    else stats.(errors := stats.errors + 1)
  }

  // The next line adds one to the statistic it belongs to, and its response to the output.
  lemma OneMore(h: Handler, lines: seq<string>, n: nat, stats: Stats, output: string)
    requires Accounted(h, lines, n, stats, output) && n < |lines|
    ensures Accounted(h, lines, n + 1, Counted(stats, h, n, lines[n]), output + Written(h, n, lines[n]))
  {}

  // How a run ends over a channel that hands it the first `handed` lines and is then closed,
  // after the scanner scanned one line more or found that there is none.
  ghost predicate Ends(scan: Scanned, maxRequests: nat, handed: nat, stats: Stats, consumed: nat, ending: Ending) {
    && consumed <= handed <= |scan.lines| && stats.processed <= maxRequests
    && (ending == LimitReached <==> stats.processed == maxRequests)
    && (ending == EndOfInput ==> consumed == handed && !Failing(scan, handed))
    && (ending == ReadFailed ==> consumed == handed && Failing(scan, handed))
  }

  lemma LimitRises(h: Handler, lines: seq<string>, n: nat, maxRequests: nat)
    requires BelowLimit(h, lines, n, maxRequests) && n < |lines| && ProcessedUpTo(h, lines, n) < maxRequests
    ensures BelowLimit(h, lines, n + 1, maxRequests)
  {}

  // The line received is counted, and handled unless it is empty.
  method Receive(s: Session, k: nat, line: string, stats: Stats) returns (after: Stats, response: string)
    requires ParsesIds(s)
    ensures after == Counted(stats, Handling(s), k, line) && response == Written(Handling(s), k, line)
  {
    if line == "" {
      return stats.(skipped := stats.skipped + 1), "";
    }
    var ok;
    ok, response := ProcessRequest(s, k, line);
    after := if ok then stats.(processed := stats.processed + 1) else stats.(errors := stats.errors + 1);
  }

  /**
    The loop that receives and handles lines until the limit of processed requests,
    cancellation, or the close of the channel, and says what it wrote. The goroutine
    that feeds the channel hands over the first `handed` lines of the input: all of
    them, unless it too noticed the cancellation.
   */
  method RunLines(scan: Scanned, handed: nat, maxRequests: nat, s: Session, cancelled: nat -> bool)
    returns (stats: Stats, output: string, consumed: nat, ending: Ending)
    requires maxRequests >= 1 && handed <= |scan.lines| && ParsesIds(s)
    ensures Accounted(Handling(s), scan.lines, consumed, stats, output)
    ensures BelowLimit(Handling(s), scan.lines, consumed, maxRequests)
    ensures Ends(scan, maxRequests, handed, stats, consumed, ending)
    ensures (forall k :: 0 <= k < consumed ==> !cancelled(k)) && (ending == Interrupted ==> cancelled(consumed))
  {
    hide Handling;
    var lines := scan.lines;
    ghost var h := Handling(s);
    stats, output, consumed := Stats(0, 0, 0), "", 0;
    ending := Interrupted;
    while !cancelled(consumed)
      invariant consumed <= handed && Accounted(h, lines, consumed, stats, output)
      invariant BelowLimit(h, lines, consumed, maxRequests)
      invariant stats.processed < maxRequests
      invariant forall k :: 0 <= k < consumed ==> !cancelled(k)
      decreases handed - consumed
    {
      if consumed == handed {
        ending := if Failing(scan, handed) then ReadFailed else EndOfInput;
        return;
      }
      OneMore(h, lines, consumed, stats, output);
      LimitRises(h, lines, consumed, maxRequests);
      var response;
      stats, response := Receive(s, consumed, lines[consumed], stats);
      output := output + response;
      consumed := consumed + 1;
      if stats.processed >= maxRequests {
        ending := LimitReached;
        return;
      }
    }
  }

  /** The run over an input after which the reader ends, or fails with some of the lines handed out before. */
  method Run(
      input: string, failure: Option<nat>, handed: nat, maxRequests: nat, s: Session, cancelled: nat -> bool)
    returns (stats: Stats, output: string, consumed: nat, ending: Ending)
    requires maxRequests >= 1 && handed <= |ScanLines(input).lines| && ParsesIds(s)
    requires failure.Some? ==> failure.value <= |ScanLines(input).lines|
    ensures var scan := if failure.None? then ScanLines(input) else ScanFailing(input, failure.value);
            && Accounted(Handling(s), scan.lines, consumed, stats, output)
            && BelowLimit(Handling(s), scan.lines, consumed, maxRequests)
            && Ends(scan, maxRequests, handed, stats, consumed, ending)
    ensures (forall k :: 0 <= k < consumed ==> !cancelled(k)) && (ending == Interrupted ==> cancelled(consumed))
  {
    var scan := if failure.None? then ScanLines(input) else ScanFailing(input, failure.value);
    stats, output, consumed, ending := RunLines(scan, handed, maxRequests, s, cancelled);
  }

  // ---------- Reading marshalled lines ----------

  lemma {:induction false} NewlineAfter(line: string, rest: string)
    requires '\n' !in line
    ensures NewlineAt(line + "\n" + rest) == Some(|line|)
  {
    var all := line + "\n" + rest;
    if line == "" {
      assert all[0] == '\n';
    } else {
      assert all[0] == line[0] && line[0] in line;
      assert all[1..] == line[1..] + "\n" + rest;
      NewlineAfter(line[1..], rest);
    }
  }

  /**
    How an input is scanned: up to each newline, without a carriage return before it, and
    what is left at the end; a line that does not fit ends it with an error.
   */
  lemma LineScanned(line: string, rest: string)
    requires '\n' !in line
    ensures |line| >= 65536 ==> ScanLines(line + "\n" + rest) == Scanned([], Some(0))
    ensures |line| < 65536 && !(|line| > 0 && line[|line| - 1] == '\r') ==>
      ScanLines(line + "\n" + rest) == AfterLine(line, ScanLines(rest))
    ensures |line| < 65536 && |line| > 0 && line[|line| - 1] == '\r' ==>
      ScanLines(line + "\n" + rest) == AfterLine(line[..|line| - 1], ScanLines(rest))
    ensures line == "" ==> ScanLines(line) == Scanned([], None)
    ensures 0 < |line| < 65536 && line[|line| - 1] != '\r' ==> ScanLines(line) == Scanned([line], None)
    ensures 0 < |line| < 65536 && line[|line| - 1] == '\r' ==> ScanLines(line) == Scanned([line[..|line| - 1]], None)
  {
    var all := line + "\n" + rest;
    NewlineAfter(line, rest);
    NewlineFound(line);
    assert all[..|line|] == line && all[|line| + 1..] == rest;
  }

  /** A marshalled value and a newline are read back as one line. */
  lemma MarshalledLineRead(v: Value, rest: string)
    requires Marshalled(v) && |Text(v)| < MaxScanTokenSize
    ensures ScanLines(Text(v) + "\n" + rest) ==
            AfterLine(Text(v), ScanLines(rest))
  {
    MarshalledOnOneLine(v);
    var all := Text(v) + "\n" + rest;
    NewlineAfter(Text(v), rest);
    assert all[..|Text(v)|] == Text(v) && all[|Text(v)| + 1..] == rest;
    if Text(v) != "" { assert Text(v)[|Text(v)| - 1] in Text(v); }
  }
}
