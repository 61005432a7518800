/**
  OneshotTransport.Run of pkg/mcp/oneshot.go as a transition system: the goroutine
  that scans lines into a channel of capacity one, the main loop that selects between
  cancellation and the channel, and a context that may be cancelled at any moment.
 */
module OneshotRuns {
  import opened Basics
  import opened Oneshot

  datatype Setup = Setup(scan: Scanned, maxRequests: nat, session: Session)

  ghost predicate ValidSetup(c: Setup) {
    WellScanned(c.scan) && c.maxRequests >= 1
  }

  // The scanning goroutine: about to scan, at the select with a line in hand, or
  // returned, with the channel closed, because of the context or of the input's end.
  datatype Scanner = Scanning | Holding | Gone(noticed: bool)

  datatype State = State(
    scanner: Scanner,
    scanned: nat,
    channel: seq<string>,
    cancelled: bool,
    consumed: nat,
    stats: Stats,
    output: string,
    ending: Option<Ending>)

  datatype Label =
    | Cancel
    | Scan
    | ScanEnd
    | Push
    | NoticeDone
    | TakeDone
    | TakeLine
    | TakeClose

  // The number of the line that the goroutine scanned last, or did not find, when it is gone.
  function LastScanned(s: State): nat {
    if s.scanner == Gone(true) && s.scanned > 0 then s.scanned - 1 else s.scanned
  }

  const Init := State(Scanning, 0, [], false, 0, Stats(0, 0, 0), "", None)

  predicate Enabled(c: Setup, s: State, l: Label) {
    match l
    case Cancel => !s.cancelled
    case Scan => s.scanner == Scanning && s.scanned < |c.scan.lines|
    case ScanEnd => s.scanner == Scanning && s.scanned == |c.scan.lines|
    case Push => s.scanner == Holding && s.channel == [] && 0 < s.scanned <= |c.scan.lines|
    case NoticeDone => s.scanner == Holding && s.cancelled
    case TakeDone => s.ending.None? && s.cancelled
    case TakeLine => s.ending.None? && s.channel != []
    case TakeClose => s.ending.None? && s.channel == [] && s.scanner.Gone?
  }

  function Next(c: Setup, s: State, l: Label): State
    requires Enabled(c, s, l)
  {
    match l
    case Cancel => s.(cancelled := true)
    case Scan => s.(scanner := Holding, scanned := s.scanned + 1)
    case ScanEnd => s.(scanner := Gone(false))
    case Push => s.(scanner := Scanning, channel := [c.scan.lines[s.scanned - 1]])
    case NoticeDone => s.(scanner := Gone(true))
    case TakeDone => s.(ending := Some(Interrupted))
    case TakeLine =>
      var h, line := Handling(c.session), s.channel[0];
      var stats := Counted(s.stats, h, s.consumed, line);
      s.(channel := s.channel[1..], consumed := s.consumed + 1, stats := stats,
         output := s.output + Written(h, s.consumed, line),
         ending := if line != "" && stats.processed >= c.maxRequests then Some(LimitReached) else None)
    case TakeClose =>
      s.(ending := Some(if Failing(c.scan, LastScanned(s)) then ReadFailed else EndOfInput))
  }

  ghost predicate Reaches(c: Setup, run: seq<Label>, s: State) {
    if run == [] then s == Init
    else
      var last := run[|run| - 1];
      exists t :: Reaches(c, run[..|run| - 1], t) && Enabled(c, t, last) && s == Next(c, t, last)
  }

  // ---------- The invariant ----------

  // Lines scanned and not handed over: the one in hand, or the one dropped on noticing the cancellation.
  function Kept(s: Scanner): nat {
    match s
    case Scanning => 0
    case Holding => 1
    case Gone(noticed) => if noticed then 1 else 0
  }

  // Every line scanned was consumed, or is in the channel, or was kept back.
  ghost predicate Lines(c: Setup, s: State) {
    && s.consumed + |s.channel| + Kept(s.scanner) == s.scanned <= |c.scan.lines|
    && |s.channel| <= 1 && (s.channel != [] ==> s.channel[0] == c.scan.lines[s.consumed])
    && (s.scanner == Gone(false) ==> s.scanned == |c.scan.lines|)
    && (s.scanner == Gone(true) ==> s.cancelled)
  }

  // How many lines the channel has been given.
  function Handed(s: State): nat {
    s.consumed + |s.channel|
  }

  ghost predicate EndsWell(c: Setup, s: State) {
    match s.ending
    case None => s.stats.processed < c.maxRequests
    case Some(ending) =>
      && Ends(c.scan, c.maxRequests, Handed(s), s.stats, s.consumed, ending)
      && (ending == Interrupted ==> s.cancelled)
      && (ending == EndOfInput || ending == ReadFailed ==> s.scanner.Gone? && s.channel == [])
  }

  ghost predicate Inv(c: Setup, s: State) {
    && Lines(c, s) && EndsWell(c, s)
    && Accounted(Handling(c.session), c.scan.lines, s.consumed, s.stats, s.output)
    && BelowLimit(Handling(c.session), c.scan.lines, s.consumed, c.maxRequests)
  }

  lemma StepLines(c: Setup, s: State, l: Label)
    requires Lines(c, s) && Enabled(c, s, l)
    ensures Lines(c, Next(c, s, l))
  {}

  lemma LineTaken(c: Setup, s: State)
    requires Inv(c, s) && Enabled(c, s, TakeLine)
    ensures Inv(c, Next(c, s, TakeLine))
  {
    StepLines(c, s, TakeLine);
    OneMore(Handling(c.session), c.scan.lines, s.consumed, s.stats, s.output);
  }

  lemma StepInv(c: Setup, s: State, l: Label)
    requires Inv(c, s) && Enabled(c, s, l)
    ensures Inv(c, Next(c, s, l))
  {
    if l == TakeLine {
      LineTaken(c, s);
    } else {
      StepLines(c, s, l);
    }
  }

  lemma {:induction false} ReachableInv(c: Setup, run: seq<Label>, s: State)
    requires ValidSetup(c) && Reaches(c, run, s)
    ensures Inv(c, s)
  {
    if run != [] {
      var last := run[|run| - 1];
      var t :| Reaches(c, run[..|run| - 1], t) && Enabled(c, t, last) && s == Next(c, t, last);
      ReachableInv(c, run[..|run| - 1], t);
      StepInv(c, t, last);
    }
  }

  // ---------- What holds of every run ----------

  /**
    In every interleaving the statistics and the output are those of the lines consumed,
    no line is consumed once the limit is reached, and a run that ends does so as the
    loop over the lines handed to the channel.
   */
  lemma AlwaysAccounted(c: Setup, run: seq<Label>, s: State)
    requires ValidSetup(c) && Reaches(c, run, s)
    ensures Accounted(Handling(c.session), c.scan.lines, s.consumed, s.stats, s.output)
    ensures BelowLimit(Handling(c.session), c.scan.lines, s.consumed, c.maxRequests)
    ensures s.stats.processed <= c.maxRequests
    ensures s.ending.Some? ==> Ends(c.scan, c.maxRequests, Handed(s), s.stats, s.consumed, s.ending.value)
  {
    ReachableInv(c, run, s);
  }

  // The main loop found the channel closed.
  ghost predicate Closed(s: State) {
    s.ending == Some(EndOfInput) || s.ending == Some(ReadFailed)
  }

  // One after the other.
  function Concat(pieces: seq<string>): string {
    if pieces == [] then "" else Concat(pieces[..|pieces| - 1]) + pieces[|pieces| - 1]
  }

  lemma {:induction false} Pieces(h: Handler, lines: seq<string>, n: nat) returns (pieces: seq<string>)
    requires n <= |lines|
    ensures |pieces| == n && Concat(pieces) == WrittenUpTo(h, lines, n)
    ensures forall k :: 0 <= k < n ==> pieces[k] == Written(h, k, lines[k])
  {
    if n == 0 {
      pieces := [];
    } else {
      var before := Pieces(h, lines, n - 1);
      pieces := before + [Written(h, n - 1, lines[n - 1])];
      assert pieces[..n - 1] == before;
    }
  }

  /**
    The statistics, in terms of the lines alone: processed are those that parse, are
    handled and whose reply is written, skipped are the empty ones, and all others that
    were consumed are errors. The output is made of one piece for each line consumed.
   */
  lemma CountsExact(c: Setup, run: seq<Label>, s: State) returns (pieces: seq<string>)
    requires ValidSetup(c) && Reaches(c, run, s)
    ensures s.consumed <= |c.scan.lines|
    ensures s.stats.processed == |set k: nat | k < s.consumed && c.scan.lines[k] != "" &&
      c.session.parse(c.scan.lines[k]).Some? && c.session.handle(k, c.scan.lines[k]).Some? && c.session.writes(k)|
    ensures s.stats.skipped == |set k: nat | k < s.consumed && c.scan.lines[k] == ""|
    ensures s.stats.processed + s.stats.skipped + s.stats.errors == s.consumed
    ensures |pieces| == s.consumed && Concat(pieces) == s.output
    ensures forall k :: 0 <= k < s.consumed ==> pieces[k] == Written(Handling(c.session), k, c.scan.lines[k])
  {
    hide Handling;
    ReachableInv(c, run, s);
    CountsAre(c.session, c.scan.lines, s.consumed);
    SameCounts(c.session, c.scan.lines, s.consumed);
    pieces := Pieces(Handling(c.session), c.scan.lines, s.consumed);
  }

  lemma SameCounts(s: Session, lines: seq<string>, n: nat)
    requires n <= |lines|
    ensures Answered(s, lines, n) == set k: nat | k < n && lines[k] != "" &&
      s.parse(lines[k]).Some? && s.handle(k, lines[k]).Some? && s.writes(k)
    ensures Blank(lines, n) == set k: nat | k < n && lines[k] == ""
  {}

  /**
    A run that reports the end of the input has read all of it, without an error, exactly
    when the scanning goroutine did not notice a cancellation; in particular when there
    was none.
   */
  lemma EndOfInputExact(c: Setup, run: seq<Label>, s: State)
    requires ValidSetup(c) && Reaches(c, run, s) && s.ending == Some(EndOfInput)
    ensures s.consumed == |c.scan.lines| && c.scan.error.None? <==> s.scanner != Gone(true)
    ensures s.scanner == Gone(true) ==> s.cancelled && s.consumed < |c.scan.lines|
  {
    ReachableInv(c, run, s);
  }

  /**
    A read error is reported with a line unread exactly when the goroutine noticed a
    cancellation while the error was pending, that is with a line in hand that came after
    it. Without a cancellation an error is reported after all lines, unless the limit
    comes first.
   */
  lemma ReadFailureExact(c: Setup, run: seq<Label>, s: State)
    requires ValidSetup(c) && Reaches(c, run, s) && s.ending.Some?
    ensures s.ending == Some(ReadFailed) && s.consumed < |c.scan.lines| <==>
      Closed(s) && s.scanner == Gone(true) && Failing(c.scan, LastScanned(s))
    ensures s.ending == Some(ReadFailed) ==> Failing(c.scan, s.consumed)
    ensures s.scanner == Gone(true) ==> s.cancelled && s.scanned > 0
    ensures !s.cancelled && c.scan.error.Some? ==>
      s.ending == Some(LimitReached) || (s.ending == Some(ReadFailed) && s.consumed == |c.scan.lines|)
  {
    ReachableInv(c, run, s);
  }

  // The goroutine notices the cancellation with the first line in hand, and the main loop the closed channel.
  const Dropping := [Scan, Cancel, NoticeDone, TakeClose]

  lemma FirstLineDropped(c: Setup) returns (s: State)
    requires c.scan.lines != []
    ensures Reaches(c, Dropping, s) && s.consumed == 0 && s.output == ""
    ensures s.ending == Some(if Failing(c.scan, 0) then ReadFailed else EndOfInput)
  {
    var holding := Init.(scanner := Holding, scanned := 1);
    var cancelled := holding.(cancelled := true);
    var gone := cancelled.(scanner := Gone(true));
    s := Next(c, gone, TakeClose);
    OneStep(c, [], Init, Scan);
    assert [] + [Scan] == [Scan] && [Scan] + [Cancel] == [Scan, Cancel];
    OneStep(c, [Scan], holding, Cancel);
    assert [Scan, Cancel] + [NoticeDone] == [Scan, Cancel, NoticeDone];
    OneStep(c, [Scan, Cancel], cancelled, NoticeDone);
    assert [Scan, Cancel, NoticeDone] + [TakeClose] == Dropping;
    OneStep(c, [Scan, Cancel, NoticeDone], gone, TakeClose);
  }

  /** The run that ends like a normal end of input with its only line unread. */
  lemma EarlyEndOfInput(session: Session, line: string) returns (s: State)
    ensures Reaches(Setup(Scanned([line], None), 1, session), Dropping, s)
    ensures s.ending == Some(EndOfInput) && s.consumed == 0 && s.output == ""
  {
    s := FirstLineDropped(Setup(Scanned([line], None), 1, session));
  }

  /** And the run that reports an error of the reader with the line before it unread. */
  lemma EarlyReadError(session: Session, line: string) returns (s: State)
    requires line != "" && '\n' !in line && |line| < MaxScanTokenSize
    ensures Reaches(Setup(ScanFailing(line, 0), 1, session), Dropping, s)
    ensures s.ending == Some(ReadFailed) && s.consumed == 0 && |ScanFailing(line, 0).lines| == 1
  {
    NewlineFound(line);
    s := FirstLineDropped(Setup(ScanFailing(line, 0), 1, session));
  }

  lemma OneStep(c: Setup, run: seq<Label>, s: State, l: Label)
    requires Reaches(c, run, s) && Enabled(c, s, l)
    ensures Reaches(c, run + [l], Next(c, s, l))
  {
    var longer := run + [l];
    assert longer[..|longer| - 1] == run && longer[|longer| - 1] == l;
    assert Reaches(c, longer[..|longer| - 1], s) && Enabled(c, s, l);
  }

  // ---------- Progress ----------

  // Cancellation is the caller's step; all others are the run's own.
  predicate Own(l: Label) {
    l != Cancel
  }

  /** Until it ends, the run can always move. */
  lemma NeverStuck(c: Setup, run: seq<Label>, s: State) returns (l: Label)
    requires ValidSetup(c) && Reaches(c, run, s) && s.ending.None?
    ensures Own(l) && Enabled(c, s, l)
  {
    ReachableInv(c, run, s);
    l := if s.channel != [] then TakeLine
         else match s.scanner
           case Scanning => if s.scanned < |c.scan.lines| then Scan else ScanEnd
           case Holding => Push
           case Gone(_) => TakeClose;
  }

  function Measure(c: Setup, s: State): int {
    3 * (|c.scan.lines| - s.scanned) + |s.channel| + (if s.ending.None? then 1 else 0)
    + match s.scanner case Scanning => 1 case Holding => 3 case Gone(_) => 0
  }

  function OwnSteps(run: seq<Label>): nat {
    if run == [] then 0 else OwnSteps(run[..|run| - 1]) + if Own(run[|run| - 1]) then 1 else 0
  }

  /** No run takes more than three own steps for each line and two more. */
  lemma {:induction false} RunsEnd(c: Setup, run: seq<Label>, s: State)
    requires ValidSetup(c) && Reaches(c, run, s)
    ensures OwnSteps(run) + Measure(c, s) <= 3 * |c.scan.lines| + 2 && Measure(c, s) >= 0
  {
    ReachableInv(c, run, s);
    if run != [] {
      var last := run[|run| - 1];
      var t :| Reaches(c, run[..|run| - 1], t) && Enabled(c, t, last) && s == Next(c, t, last);
      RunsEnd(c, run[..|run| - 1], t);
    }
  }
}
