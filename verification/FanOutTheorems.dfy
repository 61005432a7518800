/**
  What RouteToAllNodes promises of every interleaving: bounded concurrency, no
  blocked or panicking send, no deadlock, a bound on the length of every run,
  and exactly one result per ready node that the main loop reached.
 */
module FanOutTheorems {
  import opened Basics
  import opened CircuitBreaking
  import opened FanOut
  import opened FanOutSafety

  // ---------- Safety ----------

  function Members(k: Kind, ps: seq<Phase>): set<nat> {
    set i: nat | i < |ps| && Is(k, ps[i])
  }

  lemma {:induction false} CountIsSize(k: Kind, ps: seq<Phase>)
    ensures |Members(k, ps)| == Count(k, ps)
  {
    if ps != [] {
      var n := |ps| - 1;
      CountIsSize(k, ps[..n]);
      assert Members(k, ps) == Members(k, ps[..n]) + if Is(k, ps[n]) then {n} else {};
    }
  }

  lemma {:induction false} CountPositive(k: Kind, ps: seq<Phase>, i: nat)
    requires i < |ps| && Is(k, ps[i])
    ensures Count(k, ps) > 0
  {
    if i < |ps| - 1 { CountPositive(k, ps[..|ps| - 1], i); }
  }

  /** At most maxConcurrency workers are between taking a slot and giving it back. */
  lemma SlotsBounded(c: Setup, run: seq<Label>, s: State)
    requires c.Valid() && Reaches(c, run, s)
    ensures |Members(OnSlot, s.phase)| <= c.maxConcurrency
    ensures forall i :: 0 <= i < |s.phase| && s.phase[i].Calling? ==> i in Members(OnSlot, s.phase)
  {
    ReachableInv(c, run, s);
    CountIsSize(OnSlot, s.phase);
  }

  ghost predicate AtSend(s: State, i: nat) {
    i < |s.phase| && (s.phase[i].Sending? || (s.main == LoopSend && i == s.next))
  }

  lemma SendGoesThrough(c: Setup, s: State, i: nat)
    requires Inv(c, s) && AtSend(s, i)
    ensures CanSend(c, s)
  {
    CountBelow(Delivered, s.phase, i);
    if s.closed { CountPositive(Running, s.phase, i); }
  }

  /**
    A goroutine about to send finds the channel open and with room, even the main
    loop, which sends before anything receives. So no send blocks, none follows
    the close, and there are at most as many sends as listed nodes.
   */
  lemma SendsNeverBlock(c: Setup, run: seq<Label>, s: State, i: nat)
    requires c.Valid() && Reaches(c, run, s) && AtSend(s, i)
    ensures !s.closed && |s.buffer| < |c.nodes| && |s.results| + |s.buffer| < |c.nodes|
  {
    ReachableInv(c, run, s);
    SendGoesThrough(c, s, i);
    CountBelow(Delivered, s.phase, i);
  }

  /** Giving a slot back never waits, and the WaitGroup never goes below zero. */
  lemma ReleasesNeverBlock(c: Setup, run: seq<Label>, s: State, i: nat)
    requires c.Valid() && Reaches(c, run, s) && i < |s.phase|
    ensures Is(OnSlot, s.phase[i]) ==> s.sem > 0
    ensures Is(Running, s.phase[i]) ==> s.wg > 0
  {
    ReachableInv(c, run, s);
    if Is(OnSlot, s.phase[i]) { CountPositive(OnSlot, s.phase, i); }
    if Is(Running, s.phase[i]) { CountPositive(Running, s.phase, i); }
  }

  // ---------- Progress ----------

  // The call's own steps: not the caller's cancellation, not other calls.
  predicate Own(l: Label) {
    l.Main? || l.Worker? || l.Close?
  }

  // The step a worker takes next if left alone; a slot holder never waits.
  function NextOf(c: Setup, s: State, i: nat): WorkerStep
    requires |s.phase| == |c.nodes| && i < |s.phase|
  {
    match s.phase[i]
    case Waiting => Acquire
    case Holding => AskAgain(s.clock, Answer(c, s, c.nodes[i].name, s.clock))
    case Calling => Reply(true)
    case Replied(_) => Record(s.clock)
    case Sending(_) => Send
    case Sent(out) => if out == Cancelled then Done else Release
    case _ => Done
  }

  lemma HolderCanMove(c: Setup, s: State, i: nat)
    requires Inv(c, s) && i < |s.phase| && Is(Running, s.phase[i]) && !s.phase[i].Waiting?
    ensures WorkerEnabled(c, s, i, NextOf(c, s, i))
  {
    CountPositive(Running, s.phase, i);
    if s.phase[i].Sending? { SendGoesThrough(c, s, i); }
    if Is(OnSlot, s.phase[i]) { CountPositive(OnSlot, s.phase, i); }
  }

  lemma WorkerCanMove(c: Setup, s: State, i: nat) returns (l: Label)
    requires Inv(c, s) && c.maxConcurrency >= 1 && i < |s.phase| && Is(Running, s.phase[i])
    ensures Own(l) && Enabled(c, s, l)
  {
    var j := i;
    if s.phase[i] == Waiting && s.sem == c.maxConcurrency {
      j := CountSome(OnSlot, s.phase);
    }
    if s.phase[j] != Waiting { HolderCanMove(c, s, j); }
    l := Worker(j, NextOf(c, s, j));
  }

  lemma MainCanMove(c: Setup, s: State) returns (l: Label)
    requires Inv(c, s) && s.main in {LoopTop, LoopBody, LoopSend}
    ensures Own(l) && Enabled(c, s, l)
  {
    if s.main == LoopTop {
      l := Main(if s.next == |c.nodes| then LoopEnd else if s.cancelled then LoopBreak else LoopCheck);
    } else if s.main == LoopBody {
      var node := c.nodes[s.next];
      l := Main(if node.ready then AskFirst(s.clock, Answer(c, s, node.name, s.clock)) else SkipUnready);
    } else {
      SendGoesThrough(c, s, s.next);
      l := Main(SendSkipped);
    }
  }

  /**
    No deadlock: if requests return, every reachable state before the end has an
    enabled step of the call itself, whatever the caller and other calls do.
   */
  lemma NeverStuck(c: Setup, run: seq<Label>, s: State) returns (l: Label)
    requires c.Valid() && Reaches(c, run, s) && s.main != Returned
    ensures Own(l) && |s.phase| == |c.nodes| && Enabled(c, s, l)
  {
    ReachableInv(c, run, s);
    if s.main in {LoopTop, LoopBody, LoopSend} {
      l := MainCanMove(c, s);
    } else if s.wg > 0 {
      var i := CountSome(Running, s.phase);
      l := WorkerCanMove(c, s, i);
    } else if !s.closed {
      l := Close;
    } else {
      l := Main(if s.buffer != [] then Collect else Return);
    }
  }

  // ---------- Termination ----------

  function Rank(p: Phase): nat {
    match p
    case Unreached => 16
    case Waiting => 12
    case Holding => 10
    case Calling => 9
    case Replied(_) => 8
    case Sending(_) => 7
    case Skipping => 7
    case Sent(_) => 4
    case Released(_) => 2
    case _ => 0
  }

  function RankSum(ps: seq<Phase>): nat {
    if ps == [] then 0 else RankSum(ps[..|ps| - 1]) + Rank(ps[|ps| - 1])
  }

  lemma {:induction false} RankPut(ps: seq<Phase>, i: nat, p: Phase)
    requires i < |ps|
    ensures RankSum(ps[i := p]) == RankSum(ps) - Rank(ps[i]) + Rank(p)
  {
    var short := ps[..|ps| - 1];
    if i == |ps| - 1 {
      assert ps[i := p][..|ps| - 1] == short;
    } else {
      RankPut(short, i, p);
      assert ps[i := p][..|ps| - 1] == short[i := p];
    }
  }

  lemma {:induction false} RankAtStart(n: nat)
    ensures RankSum(seq(n, _ => Unreached)) == 16 * n
  {
    if n > 0 {
      RankAtStart(n - 1);
      assert seq(n, _ => Unreached)[..n - 1] == seq(n - 1, _ => Unreached);
    }
  }

  function MainRank(m: MainPc): nat {
    match m
    case LoopTop => 3
    case LoopBody => 2
    case LoopSend => 2
    case Collecting => 1
    case Returned => 0
  }

  function Measure(s: State): nat {
    RankSum(s.phase) + |s.buffer| + MainRank(s.main) + if s.closed then 0 else 1
  }

  lemma WorkerDecreases(c: Setup, s: State, i: nat, w: WorkerStep)
    requires |s.phase| == |c.nodes| && WorkerEnabled(c, s, i, w)
    ensures Measure(WorkerNext(c, s, i, w)) < Measure(s)
  {
    RankPut(s.phase, i, WorkerNext(c, s, i, w).phase[i]);
  }

  lemma MainDecreases(c: Setup, s: State, m: MainStep)
    requires Cursor(c, s) && MainEnabled(c, s, m)
    ensures Measure(MainNext(c, s, m)) < Measure(s)
  {
    if PhaseChanging(m) {
      RankPut(s.phase, s.next, MainNext(c, s, m).phase[s.next]);
    }
  }

  lemma StepDecreases(c: Setup, s: State, l: Label)
    requires Cursor(c, s) && Enabled(c, s, l)
    ensures Own(l) ==> Measure(Next(c, s, l)) < Measure(s)
    ensures !Own(l) ==> Measure(Next(c, s, l)) == Measure(s)
  {
    if l.Worker? { WorkerDecreases(c, s, l.i, l.w); }
    if l.Main? { MainDecreases(c, s, l.m); }
  }

  function OwnSteps(run: seq<Label>): nat {
    if run == [] then 0 else OwnSteps(run[..|run| - 1]) + if Own(run[|run| - 1]) then 1 else 0
  }

  /** Every run takes at most 16 steps of its own per listed node, and four more. */
  lemma {:induction false} RunsEnd(c: Setup, run: seq<Label>, s: State)
    requires c.Valid() && Reaches(c, run, s)
    ensures OwnSteps(run) + Measure(s) <= 16 * |c.nodes| + 4
    decreases |run|
  {
    if run == [] {
      RankAtStart(|c.nodes|);
      assert s.phase == seq(|c.nodes|, _ => Unreached);
    } else {
      var l := run[|run| - 1];
      var prev: State :| Reaches(c, run[..|run| - 1], prev) && |prev.phase| == |c.nodes|
        && Enabled(c, prev, l) && s == Next(c, prev, l);
      RunsEnd(c, run[..|run| - 1], prev);
      ReachableInv(c, run[..|run| - 1], prev);
      StepDecreases(c, prev, l);
    }
  }

  // ---------- What the call returns ----------

  // The listed nodes the call owes a result.
  ghost predicate Owed(c: Setup, s: State, i: nat) {
    i < s.next <= |c.nodes| && c.nodes[i].ready
  }

  lemma Settled(c: Setup, s: State, i: nat)
    requires Shape(c, s) && s.main == Returned && Count(Running, s.phase) == 0 && i < |s.phase|
    ensures Is(Delivered, s.phase[i]) <==> Owed(c, s, i)
  {
    if Is(Running, s.phase[i]) { CountPositive(Running, s.phase, i); }
  }

  ghost predicate HasResult(s: State, i: nat) {
    exists k :: 0 <= k < |s.results| && s.results[k].index == i
  }

  lemma ResultIffOwed(c: Setup, s: State, i: nat)
    requires Shape(c, s) && Messages(c, s) && s.main == Returned && s.buffer == []
    requires Count(Running, s.phase) == 0
    ensures HasResult(s, i) <==> Owed(c, s, i)
  {
    assert s.results + s.buffer == s.results;
    if i < |s.phase| { Settled(c, s, i); }
    if Owed(c, s, i) {
      assert Entry(i, OutOf(s.phase[i])) in s.results;
    }
  }

  lemma {:induction false} SuccessesCounted(entries: seq<Entry>)
    ensures Successes(entries) == |set k: nat | k < |entries| && entries[k].out == Succeeded|
  {
    if entries != [] {
      var n := |entries| - 1;
      var front := entries[..n];
      SuccessesCounted(front);
      var before := set k: nat | k < |front| && front[k].out == Succeeded;
      var after := set k: nat | k < |entries| && entries[k].out == Succeeded;
      assert after == before + if entries[n].out == Succeeded then {n} else {};
    }
  }

  /**
    When the call returns it has exactly one result for each ready node its main
    loop reached, none for any other, and without cancellation it reached them all.
   */
  lemma OneResultEach(c: Setup, run: seq<Label>, s: State)
    requires c.Valid() && Reaches(c, run, s) && s.main == Returned
    ensures s.next <= |c.nodes| && (!s.cancelled ==> s.next == |c.nodes|)
    ensures forall i: nat :: HasResult(s, i) <==> Owed(c, s, i)
    ensures forall i: nat ::
      (exists k :: 0 <= k < |s.results| && s.results[k].index == i) <==> i < s.next && c.nodes[i].ready
    ensures forall j, k :: 0 <= j < k < |s.results| ==> s.results[j].index != s.results[k].index
    ensures forall k :: 0 <= k < |s.results| && s.results[k].out == Cancelled ==> s.cancelled
    ensures s.successCount + s.failCount == |s.results| && s.successCount == Successes(s.results)
    ensures s.successCount == |set k: nat | k < |s.results| && s.results[k].out == Succeeded|
  {
    SuccessesCounted(s.results);
    ReachableInv(c, run, s);
    assert s.results + s.buffer == s.results;
    forall i: nat
      ensures HasResult(s, i) <==> Owed(c, s, i)
      ensures (exists k :: 0 <= k < |s.results| && s.results[k].index == i) <==> i < s.next && c.nodes[i].ready
    {
      ResultIffOwed(c, s, i);
    }
  }

  // The breaker operations an outcome calls for.
  function Calls(out: Outcome): seq<Op> {
    match out
    case CircuitOpen | Cancelled => [Allow]
    case Refused => [Allow, Allow]
    case Failed => [Allow, Allow, RecordFailure]
    case Succeeded => [Allow, Allow, RecordSuccess]
  }

  lemma DeliveredScript(p: Phase)
    requires Is(Delivered, p)
    ensures Script(p) == Calls(OutOf(p))
  {}

  lemma ResultScript(c: Setup, s: State, k: nat)
    requires |s.phase| == |c.nodes| && Messages(c, s) && Accounts(c, s) && k < |s.results|
    ensures OpsFor(s.log, s.results[k].index) == Calls(s.results[k].out)
  {
    assert (s.results + s.buffer)[k] == s.results[k];
    DeliveredScript(s.phase[s.results[k].index]);
  }

  lemma UnowedIdle(c: Setup, s: State, i: nat)
    requires Shape(c, s) && s.main == Returned && !Owed(c, s, i) && i < |c.nodes|
    ensures Script(s.phase[i]) == []
  {
    if i < s.next { assert s.phase[i].Unready?; }
  }

  /**
    Each result comes with the breaker operations its outcome calls for: one Allow
    by the main loop, a second one before the request, and one Record for the reply.
    A node without a result caused none.
   */
  lemma OneRecordPerRequest(c: Setup, run: seq<Label>, s: State)
    requires c.Valid() && Reaches(c, run, s) && s.main == Returned
    ensures forall k: nat :: k < |s.results| ==> OpsFor(s.log, s.results[k].index) == Calls(s.results[k].out)
    ensures forall i: nat :: i < |c.nodes| && !HasResult(s, i) ==> OpsFor(s.log, i) == []
  {
    OneResultEach(c, run, s);
    ReachableInv(c, run, s);
    forall k: nat | k < |s.results| ensures OpsFor(s.log, s.results[k].index) == Calls(s.results[k].out) {
      ResultScript(c, s, k);
    }
    forall i: nat | i < |c.nodes| && !HasResult(s, i) ensures OpsFor(s.log, i) == [] {
      UnowedIdle(c, s, i);
    }
  }

  // ---------- Refusals are the breaker's ----------

  // At position k of the log the breaker turned node i down.
  ghost predicate TurnedDownAt(c: Setup, log: seq<Logged>, i: nat, k: nat) {
    && k < |log| && log[k].owner == Some(i) && log[k].event.op == Allow
    && !Admits(c.breaker, CircuitBreaking.Run(c.breaker, Events(log[..k])), log[k].event.node, log[k].event.at)
  }

  ghost predicate TurnedDown(c: Setup, log: seq<Logged>, i: nat) {
    exists k: nat :: TurnedDownAt(c, log, i, k)
  }

  predicate Refusal(p: Phase) {
    p.Skipping? || p.Skipped? || OutOf(p) == Refused
  }

  lemma StaysTurnedDown(c: Setup, log: seq<Logged>, longer: seq<Logged>, i: nat)
    requires TurnedDown(c, log, i) && log <= longer
    ensures TurnedDown(c, longer, i)
  {
    var k: nat :| TurnedDownAt(c, log, i, k);
    assert longer[..k] == log[..k];
    assert TurnedDownAt(c, longer, i, k);
  }

  // The one step that makes a refusal is an Allow the breaker answered with no.
  lemma WorkerRefusal(c: Setup, s: State, i: nat, w: WorkerStep, t: State)
    requires |s.phase| == |c.nodes| && WorkerEnabled(c, s, i, w) && t == WorkerNext(c, s, i, w)
    requires Refusal(t.phase[i]) && !Refusal(s.phase[i])
    ensures |t.log| == |s.log| + 1 && TurnedDownAt(c, t.log, i, |s.log|)
  {
    assert w.AskAgain?;
    assert t.log[..|s.log|] == s.log;
  }

  lemma MainRefusal(c: Setup, s: State, m: MainStep, t: State)
    requires Cursor(c, s) && MainEnabled(c, s, m) && t == MainNext(c, s, m) && s.next < |c.nodes|
    requires Refusal(t.phase[s.next]) && !Refusal(s.phase[s.next])
    ensures |t.log| == |s.log| + 1 && TurnedDownAt(c, t.log, s.next, |s.log|)
  {
    assert m.AskFirst?;
    assert t.log[..|s.log|] == s.log;
  }

  lemma RefusalStep(c: Setup, s: State, l: Label, t: State, i: nat)
    requires Cursor(c, s) && Enabled(c, s, l) && t == Next(c, s, l) && i < |s.phase| == |t.phase|
    requires Refusal(t.phase[i]) && !Refusal(s.phase[i])
    ensures |t.log| == |s.log| + 1 && TurnedDownAt(c, t.log, i, |s.log|)
  {
    match l
    case Worker(j, w) => assert i == j; WorkerRefusal(c, s, i, w, t);
    case Main(m) => assert i == s.next; MainRefusal(c, s, m, t);
    case _ =>
  }

  lemma WorkerLogGrows(c: Setup, s: State, i: nat, w: WorkerStep)
    requires |s.phase| == |c.nodes| && WorkerEnabled(c, s, i, w)
    ensures s.log <= WorkerNext(c, s, i, w).log
  {}

  lemma LogGrows(c: Setup, s: State, l: Label)
    requires |s.phase| == |c.nodes| && Enabled(c, s, l)
    ensures s.log <= Next(c, s, l).log
  {
    if l.Worker? { WorkerLogGrows(c, s, l.i, l.w); }
  }

  lemma {:induction false} RefusalsRecorded(c: Setup, run: seq<Label>, s: State, i: nat)
    requires c.Valid() && Reaches(c, run, s) && i < |c.nodes| == |s.phase| && Refusal(s.phase[i])
    ensures TurnedDown(c, s.log, i)
    decreases |run|
  {
    if run != [] {
      var l := run[|run| - 1];
      var prev: State :| Reaches(c, run[..|run| - 1], prev) && |prev.phase| == |c.nodes|
        && Enabled(c, prev, l) && s == Next(c, prev, l);
      ReachableInv(c, run[..|run| - 1], prev);
      if Refusal(prev.phase[i]) {
        RefusalsRecorded(c, run[..|run| - 1], prev, i);
        LogGrows(c, prev, l);
        StaysTurnedDown(c, prev.log, s.log, i);
      } else {
        RefusalStep(c, prev, l, s, i);
      }
    }
  }

  /**
    A node is reported as circuit open only if at some instant of this call the
    breaker had counted enough failures of it, in this and all other calls, with
    no success or reset since, and the last of them no older than the timeout.
   */
  lemma RefusedOnlyWhenFailing(c: Setup, run: seq<Label>, s: State, i: nat) returns (k: nat)
    requires c.Valid() && Reaches(c, run, s) && i < |s.phase| && Refusal(s.phase[i])
    ensures k < |s.log| && i < |c.nodes| && s.log[k].owner == Some(i)
    ensures var before, now := Events(s.log[..k]), s.log[k].event.at;
            && FailureCount(before, c.nodes[i].name) > 0
            && FailureCount(before, c.nodes[i].name) >= c.breaker.threshold
            && exists f: nat :: FailedLast(before, c.nodes[i].name, f) && now <= before[f].at + c.breaker.resetTimeout
  {
    ReachableInv(c, run, s);
    RefusalsRecorded(c, run, s, i);
    k :| TurnedDownAt(c, s.log, i, k);
    RefusedExactly(c.breaker, Events(s.log[..k]), c.nodes[i].name, s.log[k].event.at);
  }
}
