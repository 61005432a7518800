/** What every interleaving of RouteToAllNodes keeps. */
module FanOutSafety {
  import opened Basics
  import opened CircuitBreaking
  import opened FanOut

  // ---------- The invariant ----------

  predicate HasOut(p: Phase) {
    p.Sending? || p.Sent? || p.Released? || p.Finished?
  }

  function OutOf(p: Phase): Outcome {
    if HasOut(p) then p.out else CircuitOpen
  }

  // Where each listed node can be, given how far the main loop has come.
  ghost predicate Shape(c: Setup, s: State) {
    && |s.phase| == |c.nodes| && s.next <= |c.nodes|
    && (s.main in {LoopBody, LoopSend} ==> s.next < |c.nodes|)
    && (s.main == LoopSend ==> c.nodes[s.next].ready)
    && (forall i :: 0 <= i < s.next ==>
          !s.phase[i].Unreached? && !s.phase[i].Skipping? && (s.phase[i].Unready? <==> !c.nodes[i].ready))
    && (s.next < |c.nodes| ==> s.phase[s.next] == if s.main == LoopSend then Skipping else Unreached)
    && (forall i :: s.next < i < |c.nodes| ==> s.phase[i].Unreached?)
    && (forall i :: 0 <= i < |c.nodes| && HasOut(s.phase[i]) ==> s.phase[i].out != CircuitOpen)
  }

  // What Shape says of the node the main loop is at.
  predicate Cursor(c: Setup, s: State) {
    && |s.phase| == |c.nodes| && s.next <= |c.nodes|
    && (s.next < |c.nodes| ==> s.phase[s.next] == if s.main == LoopSend then Skipping else Unreached)
  }

  // Cancellation leaves its mark only where it happened.
  ghost predicate CancelMarks(c: Setup, s: State)
    requires |s.phase| == |c.nodes|
  {
    && (s.main in {Collecting, Returned} && s.next < |c.nodes| ==> s.cancelled)
    && (forall i :: 0 <= i < |c.nodes| && OutOf(s.phase[i]) == Cancelled ==> s.cancelled)
  }

  ghost predicate Counters(c: Setup, s: State) {
    && s.sem == Count(OnSlot, s.phase) <= c.maxConcurrency
    && s.wg == Count(Running, s.phase)
    && s.skippedCount == Count(Turned, s.phase)
    && |s.results| + |s.buffer| == Count(Delivered, s.phase)
  }

  ghost predicate Channel(c: Setup, s: State) {
    && (s.closed ==> s.main in {Collecting, Returned} && s.wg == 0)
    && (s.main == Returned ==> s.closed && s.buffer == [])
  }

  // What was sent, collected or not: one entry for each node that has been sent for.
  ghost predicate Messages(c: Setup, s: State)
    requires |s.phase| == |c.nodes|
  {
    var all := s.results + s.buffer;
    && (forall k :: 0 <= k < |all| ==>
          && all[k].index < |c.nodes|
          && Is(Delivered, s.phase[all[k].index])
          && all[k].out == OutOf(s.phase[all[k].index]))
    && (forall j, k :: 0 <= j < k < |all| ==> all[j].index != all[k].index)
    && (forall i :: 0 <= i < |c.nodes| && Is(Delivered, s.phase[i]) ==> Entry(i, OutOf(s.phase[i])) in all)
  }

  function Successes(entries: seq<Entry>): nat {
    if entries == [] then 0
    else Successes(entries[..|entries| - 1]) + if entries[|entries| - 1].out == Succeeded then 1 else 0
  }

  ghost predicate Tally(s: State) {
    s.successCount == Successes(s.results) && s.successCount + s.failCount == |s.results|
  }

  // The breaker operations made for one listed node, in order.
  function OpsFor(log: seq<Logged>, i: nat): seq<Op> {
    if log == [] then []
    else OpsFor(log[..|log| - 1], i) + if log[|log| - 1].owner == Some(i) then [log[|log| - 1].event.op] else []
  }

  // The operations a node's progress accounts for: a request is out only after
  // two Allows, and each reply has exactly one Record.
  function Script(p: Phase): seq<Op> {
    match p
    case Unreached | Unready => []
    case Skipping | Skipped | Waiting | Holding => [Allow]
    case Calling | Replied(_) => [Allow, Allow]
    case _ =>
      match OutOf(p)
      case CircuitOpen | Cancelled => [Allow]
      case Refused => [Allow, Allow]
      case Failed => [Allow, Allow, RecordFailure]
      case Succeeded => [Allow, Allow, RecordSuccess]
  }

  ghost predicate Accounts(c: Setup, s: State)
    requires |s.phase| == |c.nodes|
  {
    && (forall i :: 0 <= i < |c.nodes| ==> OpsFor(s.log, i) == Script(s.phase[i]))
    && (forall k :: 0 <= k < |s.log| && s.log[k].owner.Some? ==>
          s.log[k].owner.value < |c.nodes| && s.log[k].event.node == c.nodes[s.log[k].owner.value].name)
  }

  ghost predicate Clocked(s: State) {
    && (forall k :: 0 <= k < |s.log| ==> s.log[k].event.at <= s.clock)
    && (forall j, k :: 0 <= j < k < |s.log| ==> s.log[j].event.at <= s.log[k].event.at)
  }

  ghost predicate Inv(c: Setup, s: State) {
    && Shape(c, s) && CancelMarks(c, s) && Counters(c, s) && Channel(c, s)
    && Messages(c, s) && Tally(s) && Accounts(c, s) && Clocked(s)
  }

  // ---------- It holds at the start ----------

  lemma {:induction false} NobodysOps(log: seq<Logged>, i: nat)
    requires forall k :: 0 <= k < |log| ==> log[k].owner == None
    ensures OpsFor(log, i) == []
  {
    if log != [] { NobodysOps(log[..|log| - 1], i); }
  }

  lemma InitCounters(c: Setup)
    requires c.Valid()
    ensures Counters(c, Init(c))
  {
    var ps := Init(c).phase;
    CountNone(OnSlot, ps);
    CountNone(Running, ps);
    CountNone(Turned, ps);
    CountNone(Delivered, ps);
  }

  lemma InitLog(c: Setup)
    requires c.Valid()
    ensures Accounts(c, Init(c)) && Clocked(Init(c))
  {
    var s := Init(c);
    forall i | 0 <= i < |c.nodes| ensures OpsFor(s.log, i) == Script(s.phase[i]) { NobodysOps(c.past, i); }
    forall j, k | 0 <= j < k < |s.log| ensures s.log[j].event.at <= s.log[k].event.at {
      assert Events(s.log)[j].at <= Events(s.log)[k].at;
    }
  }

  lemma InitShape(c: Setup)
    ensures var s := Init(c);
            Shape(c, s) && CancelMarks(c, s) && Channel(c, s) && Messages(c, s) && Tally(s)
  {}

  lemma InitInv(c: Setup)
    requires c.Valid()
    ensures Inv(c, Init(c))
  {
    InitShape(c);
    InitCounters(c);
    InitLog(c);
  }

  // ---------- Every step keeps it ----------

  // The one phase a label changes, if it changes any.
  function Touched(s: State, l: Label): nat {
    if l.Worker? then l.i else s.next
  }

  // A worker's phase moves forward and stays a worker's.
  predicate Forward(cancelled: bool, p: Phase, q: Phase) {
    && !p.Unreached? && !p.Unready? && !p.Skipping? && !p.Skipped?
    && !q.Unreached? && !q.Unready? && !q.Skipping? && !q.Skipped?
    && (HasOut(q) ==> q.out != CircuitOpen)
    && (OutOf(q) == Cancelled ==> OutOf(p) == Cancelled || cancelled)
  }

  // The two states differ at most in the phase of node i.
  ghost predicate OnlyAt(s: State, t: State, i: nat) {
    i < |s.phase| == |t.phase| && t.phase == s.phase[i := t.phase[i]]
  }

  lemma WorkerMoves(c: Setup, s: State, i: nat, w: WorkerStep)
    requires |s.phase| == |c.nodes| && WorkerEnabled(c, s, i, w)
    requires HasOut(s.phase[i]) ==> s.phase[i].out != CircuitOpen
    ensures var t := WorkerNext(c, s, i, w);
            && t.main == s.main && t.next == s.next && t.cancelled == s.cancelled
            && OnlyAt(s, t, i) && Forward(s.cancelled, s.phase[i], t.phase[i])
  {}

  lemma ForwardShape(c: Setup, s: State, t: State, i: nat)
    requires Shape(c, s) && CancelMarks(c, s) && i < |s.phase|
    requires t.main == s.main && t.next == s.next && t.cancelled == s.cancelled
    requires OnlyAt(s, t, i) && Forward(s.cancelled, s.phase[i], t.phase[i])
    ensures Shape(c, t) && CancelMarks(c, t)
  {
    assert i < s.next;
  }

  // The main loop is done with the node it was at.
  lemma AdvanceShape(c: Setup, s: State, t: State, p: Phase)
    requires Shape(c, s) && CancelMarks(c, s) && s.next < |c.nodes|
    requires s.main == LoopBody || (s.main == LoopSend && p == Skipped)
    requires p == Skipped || p == Waiting || p == Unready
    requires p == Unready <==> !c.nodes[s.next].ready
    requires t.phase == s.phase[s.next := p]
    requires t.main == LoopTop && t.next == s.next + 1 && t.cancelled == s.cancelled
    ensures Shape(c, t) && CancelMarks(c, t)
  {}

  lemma MainShape(c: Setup, s: State, m: MainStep)
    requires Shape(c, s) && CancelMarks(c, s) && MainEnabled(c, s, m)
    ensures Shape(c, MainNext(c, s, m)) && CancelMarks(c, MainNext(c, s, m))
  {
    var t := MainNext(c, s, m);
    match m
    case SkipUnready => AdvanceShape(c, s, t, Unready);
    case AskFirst(now, admitted) => if admitted { AdvanceShape(c, s, t, Waiting); }
    case SendSkipped => AdvanceShape(c, s, t, Skipped);
    case _ =>
  }

  lemma StepShape(c: Setup, s: State, l: Label)
    requires Shape(c, s) && CancelMarks(c, s) && Enabled(c, s, l)
    ensures Shape(c, Next(c, s, l)) && CancelMarks(c, Next(c, s, l))
  {
    match l
    case Worker(i, w) =>
      WorkerMoves(c, s, i, w);
      ForwardShape(c, s, WorkerNext(c, s, i, w), i);
    case Main(m) => MainShape(c, s, m);
    case _ =>
  }

  // How one phase change shows in the counters.
  function Part(k: Kind, p: Phase): int {
    if Is(k, p) then 1 else 0
  }

  ghost predicate CountedMove(s: State, t: State, i: nat) {
    && OnlyAt(s, t, i)
    && t.sem == s.sem - Part(OnSlot, s.phase[i]) + Part(OnSlot, t.phase[i])
    && t.wg == s.wg - Part(Running, s.phase[i]) + Part(Running, t.phase[i])
    && t.skippedCount == s.skippedCount - Part(Turned, s.phase[i]) + Part(Turned, t.phase[i])
    && |t.results| + |t.buffer| ==
       |s.results| + |s.buffer| - Part(Delivered, s.phase[i]) + Part(Delivered, t.phase[i])
  }

  lemma WorkerCounted(c: Setup, s: State, i: nat, w: WorkerStep)
    requires |s.phase| == |c.nodes| && WorkerEnabled(c, s, i, w)
    ensures CountedMove(s, WorkerNext(c, s, i, w), i)
  {}

  predicate PhaseChanging(m: MainStep) {
    m.SkipUnready? || m.AskFirst? || m.SendSkipped?
  }

  lemma AskCounted(c: Setup, s: State, m: MainStep)
    requires Cursor(c, s) && MainEnabled(c, s, m) && m.AskFirst?
    ensures CountedMove(s, MainNext(c, s, m), s.next)
  {}

  lemma SkipCounted(c: Setup, s: State, m: MainStep)
    requires Cursor(c, s) && MainEnabled(c, s, m) && (m.SkipUnready? || m.SendSkipped?)
    ensures CountedMove(s, MainNext(c, s, m), s.next)
  {}

  lemma MainElsewhere(c: Setup, s: State, m: MainStep)
    requires Cursor(c, s) && MainEnabled(c, s, m) && !PhaseChanging(m)
    ensures var t := MainNext(c, s, m);
      && t.phase == s.phase && t.sem == s.sem && t.wg == s.wg && t.skippedCount == s.skippedCount
      && |t.results| + |t.buffer| == |s.results| + |s.buffer|
  {}

  lemma CountersFollow(c: Setup, s: State, t: State, i: nat)
    requires Counters(c, s) && CountedMove(s, t, i) && t.sem <= c.maxConcurrency
    ensures Counters(c, t)
  {
    CountPut(OnSlot, s.phase, i, t.phase[i]);
    CountPut(Running, s.phase, i, t.phase[i]);
    CountPut(Turned, s.phase, i, t.phase[i]);
    CountPut(Delivered, s.phase, i, t.phase[i]);
  }

  lemma StepCounters(c: Setup, s: State, l: Label)
    requires Shape(c, s) && Counters(c, s) && Enabled(c, s, l)
    ensures Counters(c, Next(c, s, l))
  {
    if l.Worker? {
      WorkerCounted(c, s, l.i, l.w);
      CountersFollow(c, s, Next(c, s, l), l.i);
    } else if l.Main? {
      if PhaseChanging(l.m) {
        if l.m.AskFirst? { AskCounted(c, s, l.m); } else { SkipCounted(c, s, l.m); }
        CountersFollow(c, s, Next(c, s, l), s.next);
      } else {
        MainElsewhere(c, s, l.m);
      }
    }
  }

  lemma StepChannel(c: Setup, s: State, l: Label)
    requires |s.phase| == |c.nodes| && Channel(c, s) && Enabled(c, s, l)
    ensures Channel(c, Next(c, s, l))
  {}

  ghost predicate Quiet(c: Setup, s: State, t: State, i: nat) {
    && t.results + t.buffer == s.results + s.buffer
    && (t.phase != s.phase ==>
        && OnlyAt(s, t, i)
        && (Is(Delivered, s.phase[i]) <==> Is(Delivered, t.phase[i]))
        && (Is(Delivered, s.phase[i]) ==> OutOf(s.phase[i]) == OutOf(t.phase[i])))
  }

  ghost predicate Sends(s: State, t: State, i: nat) {
    && OnlyAt(s, t, i)
    && !Is(Delivered, s.phase[i]) && Is(Delivered, t.phase[i])
    && t.results + t.buffer == (s.results + s.buffer) + [Entry(i, OutOf(t.phase[i]))]
  }

  lemma WorkerQuietOrSends(c: Setup, s: State, i: nat, w: WorkerStep)
    requires |s.phase| == |c.nodes| && WorkerEnabled(c, s, i, w)
    ensures Quiet(c, s, WorkerNext(c, s, i, w), i) || Sends(s, WorkerNext(c, s, i, w), i)
  {
    if w.Send? {
      var e := Entry(i, s.phase[i].out);
      assert s.results + (s.buffer + [e]) == (s.results + s.buffer) + [e];
    }
  }

  lemma MainQuietOrSends(c: Setup, s: State, m: MainStep)
    requires Cursor(c, s) && MainEnabled(c, s, m)
    ensures Quiet(c, s, MainNext(c, s, m), s.next) || Sends(s, MainNext(c, s, m), s.next)
  {
    if m.SendSkipped? {
      var e := Entry(s.next, CircuitOpen);
      assert s.results + (s.buffer + [e]) == (s.results + s.buffer) + [e];
    }
    if m.Collect? {
      assert (s.results + [s.buffer[0]]) + s.buffer[1..] == s.results + s.buffer;
    }
  }

  lemma MessagesQuiet(c: Setup, s: State, t: State, i: nat)
    requires |s.phase| == |c.nodes| && Messages(c, s) && Quiet(c, s, t, i)
    ensures |t.phase| == |c.nodes| && Messages(c, t)
  {}

  lemma MessagesSent(c: Setup, s: State, t: State, i: nat)
    requires |s.phase| == |c.nodes| && Messages(c, s) && Sends(s, t, i)
    ensures |t.phase| == |c.nodes| && Messages(c, t)
  {
    var before, after := s.results + s.buffer, t.results + t.buffer;
    forall k | 0 <= k < |after|
      ensures after[k].index < |c.nodes| && Is(Delivered, t.phase[after[k].index])
      ensures after[k].out == OutOf(t.phase[after[k].index])
      ensures k < |before| ==> after[k].index != i
    {
      if k < |before| { assert after[k] == before[k]; }
    }
    forall j | 0 <= j < |c.nodes| && Is(Delivered, t.phase[j]) ensures Entry(j, OutOf(t.phase[j])) in after {
      if j == i { assert after[|before|] == Entry(i, OutOf(t.phase[i])); }
      else { assert Entry(j, OutOf(s.phase[j])) in before; }
    }
  }

  lemma StepMessages(c: Setup, s: State, l: Label)
    requires Shape(c, s) && Messages(c, s) && Enabled(c, s, l)
    ensures |Next(c, s, l).phase| == |c.nodes| && Messages(c, Next(c, s, l))
  {
    if l.Worker? { WorkerQuietOrSends(c, s, l.i, l.w); }
    if l.Main? { MainQuietOrSends(c, s, l.m); }
    if Quiet(c, s, Next(c, s, l), Touched(s, l)) {
      MessagesQuiet(c, s, Next(c, s, l), Touched(s, l));
    } else {
      MessagesSent(c, s, Next(c, s, l), Touched(s, l));
    }
  }

  lemma CollectTally(results: seq<Entry>, e: Entry)
    ensures Successes(results + [e]) == Successes(results) + if e.out == Succeeded then 1 else 0
  {
    assert (results + [e])[..|results|] == results;
  }

  lemma WorkerKeepsTally(c: Setup, s: State, i: nat, w: WorkerStep)
    requires |s.phase| == |c.nodes| && WorkerEnabled(c, s, i, w)
    ensures var t := WorkerNext(c, s, i, w);
            t.results == s.results && t.successCount == s.successCount && t.failCount == s.failCount
  {}

  lemma MainTally(c: Setup, s: State, m: MainStep)
    requires |s.phase| == |c.nodes| && Tally(s) && MainEnabled(c, s, m)
    ensures Tally(MainNext(c, s, m))
  {
    if m.Collect? { CollectTally(s.results, s.buffer[0]); }
  }

  lemma StepTally(c: Setup, s: State, l: Label)
    requires |s.phase| == |c.nodes| && Tally(s) && Enabled(c, s, l)
    ensures Tally(Next(c, s, l))
  {
    if l.Worker? { WorkerKeepsTally(c, s, l.i, l.w); }
    if l.Main? { MainTally(c, s, l.m); }
  }

  // The log grows by what the phase change accounts for, at an instant not before the clock.
  ghost predicate LoggedMove(c: Setup, s: State, t: State, i: nat)
    requires |s.phase| == |c.nodes|
  {
    || (t.log == s.log && t.clock == s.clock && t.phase == s.phase)
    || (t.log == s.log && t.clock == s.clock && OnlyAt(s, t, i)
        && Script(t.phase[i]) == Script(s.phase[i]))
    || (t.phase == s.phase && s.clock <= t.clock && |t.log| == |s.log| + 1 && t.log[..|s.log|] == s.log
        && t.log[|s.log|].owner == None && t.log[|s.log|].event.at == t.clock)
    || (OnlyAt(s, t, i)
        && s.clock <= t.clock && |t.log| == |s.log| + 1 && t.log[..|s.log|] == s.log
        && t.log[|s.log|].owner == Some(i) && t.log[|s.log|].event.at == t.clock
        && t.log[|s.log|].event.node == c.nodes[i].name
        && Script(t.phase[i]) == Script(s.phase[i]) + [t.log[|s.log|].event.op])
  }

  lemma WorkerLogged(c: Setup, s: State, i: nat, w: WorkerStep)
    requires |s.phase| == |c.nodes| && WorkerEnabled(c, s, i, w)
    ensures LoggedMove(c, s, WorkerNext(c, s, i, w), i)
  {}

  lemma MainLogged(c: Setup, s: State, m: MainStep)
    requires Cursor(c, s) && MainEnabled(c, s, m)
    ensures LoggedMove(c, s, MainNext(c, s, m), s.next)
  {}

  lemma AccountsFollow(c: Setup, s: State, t: State, i: nat)
    requires |s.phase| == |c.nodes| && Accounts(c, s) && Clocked(s) && LoggedMove(c, s, t, i)
    ensures |t.phase| == |c.nodes| && Accounts(c, t) && Clocked(t)
  {
    if t.log != s.log {
      assert t.log[..|t.log| - 1] == s.log;
      forall k | 0 <= k < |s.log| ensures t.log[k] == s.log[k] {}
    }
  }

  lemma StepAccounts(c: Setup, s: State, l: Label)
    requires Shape(c, s) && Accounts(c, s) && Clocked(s) && Enabled(c, s, l)
    ensures |Next(c, s, l).phase| == |c.nodes| && Accounts(c, Next(c, s, l)) && Clocked(Next(c, s, l))
  {
    if l.Worker? { WorkerLogged(c, s, l.i, l.w); }
    if l.Main? { MainLogged(c, s, l.m); }
    AccountsFollow(c, s, Next(c, s, l), Touched(s, l));
  }

  lemma StepInv(c: Setup, s: State, l: Label)
    requires Inv(c, s) && Enabled(c, s, l)
    ensures Inv(c, Next(c, s, l))
  {
    StepShape(c, s, l);
    StepCounters(c, s, l);
    StepChannel(c, s, l);
    StepMessages(c, s, l);
    StepTally(c, s, l);
    StepAccounts(c, s, l);
  }

  lemma {:induction false} ReachableInv(c: Setup, run: seq<Label>, s: State)
    requires c.Valid() && Reaches(c, run, s)
    ensures Inv(c, s)
    decreases |run|
  {
    if run == [] {
      InitInv(c);
    } else {
      var l := run[|run| - 1];
      var prev: State :| Reaches(c, run[..|run| - 1], prev) && |prev.phase| == |c.nodes|
        && Enabled(c, prev, l) && s == Next(c, prev, l);
      ReachableInv(c, run[..|run| - 1], prev);
      StepInv(c, prev, l);
    }
  }
}
