/**
  What each result of RouteToAllNodes stands for, in terms of the steps of the run
  alone: the reply its worker got, the context it gave up on, or the breaker's refusal.
 */
module FanOutOutcomes {
  import opened Basics
  import opened CircuitBreaking
  import opened FanOut
  import opened FanOutSafety
  import opened FanOutTheorems

  // ---------- The step that settles a node's outcome ----------

  function Settles(w: WorkerStep): Option<Outcome> {
    match w
    case Reply(ok) => Some(if ok then Succeeded else Failed)
    case GiveUp => Some(Cancelled)
    case AskAgain(_, admitted) => if admitted then None else Some(Refused)
    case _ => None
  }

  function SettledAs(p: Phase): Option<Outcome> {
    match p
    case Replied(ok) => Some(if ok then Succeeded else Failed)
    case Sending(out) => Some(out)
    case Sent(out) => Some(out)
    case Released(out) => Some(out)
    case Finished(out) => Some(out)
    case _ => None
  }

  // The run holds a step of worker i that settles its outcome like this.
  ghost predicate Settled(run: seq<Label>, i: nat, out: Outcome) {
    exists k :: 0 <= k < |run| && SettlesAs(run[k], i, out)
  }

  predicate SettlesAs(l: Label, i: nat, out: Outcome) {
    l.Worker? && l.i == i && Settles(l.w) == Some(out)
  }

  // The run holds a step of worker i.
  ghost predicate Worked(run: seq<Label>, i: nat) {
    exists k :: 0 <= k < |run| && run[k].Worker? && run[k].i == i
  }

  predicate NoWorker(p: Phase) {
    p.Unreached? || p.Unready? || p.Skipping? || p.Skipped?
  }

  lemma SettledExtends(run: seq<Label>, l: Label, i: nat, out: Outcome)
    ensures Settled(run + [l], i, out) <==> Settled(run, i, out) || SettlesAs(l, i, out)
    ensures Worked(run + [l], i) <==> Worked(run, i) || (l.Worker? && l.i == i)
  {
    var longer := run + [l];
    assert longer[|run|] == l;
    if Settled(run, i, out) {
      var k :| 0 <= k < |run| && SettlesAs(run[k], i, out);
      assert longer[k] == run[k];
    }
    if Worked(run, i) {
      var k :| 0 <= k < |run| && run[k].Worker? && run[k].i == i;
      assert longer[k] == run[k];
    }
  }

  lemma WorkerSettles(c: Setup, s: State, i: nat, w: WorkerStep)
    requires |s.phase| == |c.nodes| && WorkerEnabled(c, s, i, w)
    ensures var q := WorkerNext(c, s, i, w).phase[i];
            && (forall out ::
                  SettledAs(q) == Some(out) <==> SettledAs(s.phase[i]) == Some(out) || Settles(w) == Some(out))
            && (Settles(w).Some? ==> SettledAs(s.phase[i]).None?)
            && !NoWorker(s.phase[i]) && !NoWorker(q)
  {}

  lemma MainSettles(c: Setup, s: State, m: MainStep, i: nat)
    requires Cursor(c, s) && MainEnabled(c, s, m) && i < |s.phase|
    ensures var q := MainNext(c, s, m).phase[i];
            SettledAs(q) == SettledAs(s.phase[i]) && (q.Waiting? || (NoWorker(q) <==> NoWorker(s.phase[i])))
  {}

  lemma StepSettles(c: Setup, s: State, l: Label, i: nat, out: Outcome)
    requires Cursor(c, s) && Enabled(c, s, l) && i < |s.phase| == |Next(c, s, l).phase|
    ensures SettledAs(Next(c, s, l).phase[i]) == Some(out) <==>
            SettledAs(s.phase[i]) == Some(out) || SettlesAs(l, i, out)
  {
    if l.Worker? { WorkerSettles(c, s, l.i, l.w); }
    if l.Main? { MainSettles(c, s, l.m, i); }
  }

  /** A node's outcome is settled exactly by its worker's step of that kind. */
  lemma {:induction false} SettledExact(c: Setup, run: seq<Label>, s: State, i: nat, out: Outcome)
    requires c.Valid() && Reaches(c, run, s) && i < |c.nodes| == |s.phase|
    ensures SettledAs(s.phase[i]) == Some(out) <==> Settled(run, i, out)
    decreases |run|
  {
    if run != [] {
      var front, l := run[..|run| - 1], run[|run| - 1];
      var prev := Before(c, run, s);
      SettledExact(c, front, prev, i, out);
      SettledExtends(front, l, i, out);
      StepSettles(c, prev, l, i, out);
    }
  }

  /** And a node without a worker has no worker's step. */
  lemma {:induction false} NoneWorked(c: Setup, run: seq<Label>, s: State, i: nat)
    requires c.Valid() && Reaches(c, run, s) && i < |c.nodes| == |s.phase| && NoWorker(s.phase[i])
    ensures !Worked(run, i)
    decreases |run|
  {
    if run != [] {
      var front, l := run[..|run| - 1], run[|run| - 1];
      var prev := Before(c, run, s);
      StepWorks(c, prev, l, i);
      NoneWorked(c, front, prev, i);
      SettledExtends(front, l, i, Failed);
    }
  }

  lemma AtCursor(c: Setup, run: seq<Label>, s: State)
    requires c.Valid() && Reaches(c, run, s)
    ensures Cursor(c, s)
  {
    ReachableInv(c, run, s);
  }

  // The state before the last step.
  lemma Before(c: Setup, run: seq<Label>, s: State) returns (prev: State)
    requires c.Valid() && Reaches(c, run, s) && run != []
    ensures Reaches(c, run[..|run| - 1], prev) && Cursor(c, prev)
    ensures Enabled(c, prev, run[|run| - 1]) && s == Next(c, prev, run[|run| - 1])
    ensures run == run[..|run| - 1] + [run[|run| - 1]]
  {
    prev :| Reaches(c, run[..|run| - 1], prev) && |prev.phase| == |c.nodes|
      && Enabled(c, prev, run[|run| - 1]) && s == Next(c, prev, run[|run| - 1]);
    AtCursor(c, run[..|run| - 1], prev);
  }

  lemma StepWorks(c: Setup, s: State, l: Label, i: nat)
    requires Cursor(c, s) && Enabled(c, s, l) && i < |s.phase| == |Next(c, s, l).phase|
    ensures NoWorker(Next(c, s, l).phase[i]) ==> NoWorker(s.phase[i]) && !(l.Worker? && l.i == i)
  {
    if l.Worker? { WorkerSettles(c, s, l.i, l.w); }
    if l.Main? { MainSettles(c, s, l.m, i); }
  }

  // ---------- Results ----------

  lemma Finishes(c: Setup, s: State, i: nat)
    requires Inv(c, s) && s.main == Returned && i < |c.nodes|
    ensures s.phase[i].Unreached? || s.phase[i].Unready? || s.phase[i].Skipped? || s.phase[i].Finished?
  {
    if Is(Running, s.phase[i]) { CountPositive(Running, s.phase, i); }
  }

  lemma SettledMeans(run: seq<Label>, i: nat)
    ensures Settled(run, i, Succeeded) <==> Worker(i, Reply(true)) in run
    ensures Settled(run, i, Failed) <==> Worker(i, Reply(false)) in run
    ensures Settled(run, i, Cancelled) <==> Worker(i, GiveUp) in run
    ensures Settled(run, i, Refused) <==> exists now: Time :: Worker(i, AskAgain(now, false)) in run
  {
    if Worker(i, Reply(true)) in run {
      var k :| 0 <= k < |run| && run[k] == Worker(i, Reply(true));
      assert SettlesAs(run[k], i, Succeeded);
    }
    if Worker(i, Reply(false)) in run {
      var k :| 0 <= k < |run| && run[k] == Worker(i, Reply(false));
      assert SettlesAs(run[k], i, Failed);
    }
    if Worker(i, GiveUp) in run {
      var k :| 0 <= k < |run| && run[k] == Worker(i, GiveUp);
      assert SettlesAs(run[k], i, Cancelled);
    }
    if now: Time :| Worker(i, AskAgain(now, false)) in run {
      var k :| 0 <= k < |run| && run[k] == Worker(i, AskAgain(now, false));
      assert SettlesAs(run[k], i, Refused);
    }
    if Settled(run, i, Refused) {
      var k :| 0 <= k < |run| && SettlesAs(run[k], i, Refused);
      assert run[k] == Worker(i, AskAgain(run[k].w.now, false));
    }
  }

  lemma ResultSettled(c: Setup, run: seq<Label>, s: State, k: nat)
    requires c.Valid() && Reaches(c, run, s) && s.main == Returned && k < |s.results|
    ensures s.results[k].index < |c.nodes| == |s.phase|
    ensures var p := s.phase[s.results[k].index];
            if p.Skipped? then s.results[k].out == CircuitOpen
            else p == Finished(s.results[k].out) && s.results[k].out != CircuitOpen
  {
    ReachableInv(c, run, s);
    assert (s.results + s.buffer)[k] == s.results[k];
    Finishes(c, s, s.results[k].index);
  }

  /**
    Every result of a finished run says what happened to its node: success and failure
    are the reply that its worker got, `cancelled` a worker that gave up, `refused` a
    second question that was answered with no, and `circuit open` that no worker started.
   */
  lemma OutcomeExact(c: Setup, run: seq<Label>, s: State, k: nat)
    requires c.Valid() && Reaches(c, run, s) && s.main == Returned && k < |s.results|
    ensures s.results[k].out == Succeeded <==> Worker(s.results[k].index, Reply(true)) in run
    ensures s.results[k].out == Failed <==> Worker(s.results[k].index, Reply(false)) in run
    ensures s.results[k].out == Cancelled <==> Worker(s.results[k].index, GiveUp) in run
    ensures s.results[k].out == Refused <==>
      exists now: Time :: Worker(s.results[k].index, AskAgain(now, false)) in run
    ensures s.results[k].out == CircuitOpen <==>
      forall l <- run :: !(l.Worker? && l.i == s.results[k].index)
  {
    var i := s.results[k].index;
    ResultSettled(c, run, s, k);
    SettledMeans(run, i);
    SettledExact(c, run, s, i, Succeeded);
    SettledExact(c, run, s, i, Failed);
    SettledExact(c, run, s, i, Cancelled);
    SettledExact(c, run, s, i, Refused);
    assert Worked(run, i) <==> exists l :: l in run && l.Worker? && l.i == i by {
      if l :| l in run && l.Worker? && l.i == i { var j :| 0 <= j < |run| && run[j] == l; }
    }
    if s.results[k].out != CircuitOpen { SettlingWorks(run, i, s.results[k].out); } else { NoneWorked(c, run, s, i); }
  }

  lemma SettlingWorks(run: seq<Label>, i: nat, out: Outcome)
    ensures Settled(run, i, out) ==> Worked(run, i)
  {}

  // ---------- The log ----------

  ghost predicate Noted(log: seq<Logged>, i: nat, op: Op) {
    exists k :: 0 <= k < |log| && log[k].owner == Some(i) && log[k].event.op == op
  }

  lemma {:induction false} NotedInOps(log: seq<Logged>, i: nat, op: Op)
    ensures Noted(log, i, op) <==> op in OpsFor(log, i)
  {
    if log != [] {
      var front, last := log[..|log| - 1], log[|log| - 1];
      assert log == front + [last];
      NotedInOps(front, i, op);
      if last.owner == Some(i) && last.event.op == op { assert log[|log| - 1] == last; }
      if Noted(front, i, op) {
        var k :| 0 <= k < |front| && front[k].owner == Some(i) && front[k].event.op == op;
        assert log[k] == front[k];
      }
    }
  }

  // Two entries of a node are two of its operations, in order.
  lemma {:induction false} PlaceInOps(log: seq<Logged>, i: nat, k: nat) returns (p: nat)
    requires k < |log| && log[k].owner == Some(i)
    ensures p == |OpsFor(log[..k], i)| < |OpsFor(log, i)| && OpsFor(log, i)[p] == log[k].event.op
  {
    var n := |log| - 1;
    if k == n {
      p := |OpsFor(log[..n], i)|;
    } else {
      assert log[..n][k] == log[k] && log[..n][..k] == log[..k];
      p := PlaceInOps(log[..n], i, k);
    }
  }

  lemma {:induction false} OpsGrow(log: seq<Logged>, i: nat, j: nat, k: nat)
    requires j < k <= |log| && log[j].owner == Some(i)
    ensures |OpsFor(log[..j], i)| < |OpsFor(log[..k], i)|
  {
    var p := PlaceInOps(log[..k], i, j);
    assert log[..k][..j] == log[..j];
  }

  predicate Records(op: Op) {
    op == RecordSuccess || op == RecordFailure
  }

  lemma RecordedOnce(log: seq<Logged>, i: nat, j: nat, k: nat)
    requires j < k < |log| && log[j].owner == log[k].owner == Some(i)
    requires forall p :: 0 <= p < |OpsFor(log, i)| - 1 ==> !Records(OpsFor(log, i)[p])
    ensures !Records(log[j].event.op)
  {
    var p := PlaceInOps(log, i, j);
    var q := PlaceInOps(log, i, k);
    OpsGrow(log, i, j, k);
  }

  // What a finished node's operations hold.
  lemma ScriptRecords(p: Phase)
    requires p.Unreached? || p.Unready? || p.Skipped? || p.Finished?
    ensures RecordSuccess in Script(p) <==> SettledAs(p) == Some(Succeeded)
    ensures RecordFailure in Script(p) <==> SettledAs(p) == Some(Failed)
    ensures forall k :: 0 <= k < |Script(p)| - 1 ==> !Records(Script(p)[k])
  {}

  lemma FinishedOps(c: Setup, s: State, i: nat)
    requires Inv(c, s) && s.main == Returned && i < |c.nodes|
    ensures var ops := OpsFor(s.log, i);
            && (RecordSuccess in ops <==> SettledAs(s.phase[i]) == Some(Succeeded))
            && (RecordFailure in ops <==> SettledAs(s.phase[i]) == Some(Failed))
            && forall p :: 0 <= p < |ops| - 1 ==> !Records(ops[p])
  {
    Finishes(c, s, i);
    ScriptRecords(s.phase[i]);
  }

  /**
    The breaker is told of every reply, of the node that gave it and under its name: of
    each node at most once, of a success exactly when a good reply came in, and of a
    failure exactly when a bad one did.
   */
  lemma RecordsExact(c: Setup, run: seq<Label>, s: State, i: nat)
    requires c.Valid() && Reaches(c, run, s) && s.main == Returned && i < |c.nodes|
    ensures (exists k :: 0 <= k < |s.log| && s.log[k].owner == Some(i) && s.log[k].event.op == RecordSuccess) <==>
            Worker(i, Reply(true)) in run
    ensures (exists k :: 0 <= k < |s.log| && s.log[k].owner == Some(i) && s.log[k].event.op == RecordFailure) <==>
            Worker(i, Reply(false)) in run
    ensures forall j, k :: 0 <= j < k < |s.log| && s.log[j].owner == s.log[k].owner == Some(i) ==>
      s.log[j].event.op != RecordSuccess && s.log[j].event.op != RecordFailure
    ensures forall k :: 0 <= k < |s.log| && s.log[k].owner == Some(i) ==> s.log[k].event.node == c.nodes[i].name
  {
    ReachableInv(c, run, s);
    RecordsNoted(c, run, s, i);
    FinishedOps(c, s, i);
    forall j, k | 0 <= j < k < |s.log| && s.log[j].owner == s.log[k].owner == Some(i)
      ensures !Records(s.log[j].event.op)
    {
      RecordedOnce(s.log, i, j, k);
    }
  }

  lemma RecordsNoted(c: Setup, run: seq<Label>, s: State, i: nat)
    requires c.Valid() && Reaches(c, run, s) && s.main == Returned && i < |c.nodes|
    ensures Noted(s.log, i, RecordSuccess) <==> Worker(i, Reply(true)) in run
    ensures Noted(s.log, i, RecordFailure) <==> Worker(i, Reply(false)) in run
  {
    ReachableInv(c, run, s);
    FinishedOps(c, s, i);
    NotedInOps(s.log, i, RecordSuccess);
    NotedInOps(s.log, i, RecordFailure);
    SettledMeans(run, i);
    SettledExact(c, run, s, i, Succeeded);
    SettledExact(c, run, s, i, Failed);
  }

  // ---------- Refusals ----------

  lemma WorkerRefusalStays(c: Setup, s: State, i: nat, w: WorkerStep)
    requires |s.phase| == |c.nodes| && WorkerEnabled(c, s, i, w)
    ensures Refusal(s.phase[i]) ==> Refusal(WorkerNext(c, s, i, w).phase[i])
  {}

  lemma MainRefusalStays(c: Setup, s: State, m: MainStep, i: nat)
    requires Cursor(c, s) && MainEnabled(c, s, m) && i < |s.phase|
    ensures Refusal(s.phase[i]) ==> Refusal(MainNext(c, s, m).phase[i])
  {}

  lemma RefusalStays(c: Setup, s: State, l: Label, i: nat)
    requires Cursor(c, s) && Enabled(c, s, l) && i < |s.phase| == |Next(c, s, l).phase|
    ensures Refusal(s.phase[i]) ==> Refusal(Next(c, s, l).phase[i])
  {
    if l.Worker? && l.i == i { WorkerRefusalStays(c, s, i, l.w); }
    if l.Main? { MainRefusalStays(c, s, l.m, i); }
  }

  // A question that the breaker answers with no makes a refusal.
  lemma WorkerTurnedDown(c: Setup, s: State, i: nat, w: WorkerStep)
    requires |s.phase| == |c.nodes| && WorkerEnabled(c, s, i, w) && w.AskAgain?
    ensures var t := WorkerNext(c, s, i, w);
            t.log[..|s.log|] == s.log && (TurnedDownAt(c, t.log, i, |s.log|) ==> Refusal(t.phase[i]))
  {}

  lemma MainTurnedDown(c: Setup, s: State, m: MainStep)
    requires Cursor(c, s) && MainEnabled(c, s, m) && m.AskFirst?
    ensures var t := MainNext(c, s, m);
            t.log[..|s.log|] == s.log && (TurnedDownAt(c, t.log, s.next, |s.log|) ==> Refusal(t.phase[s.next]))
  {}

  // The worker's steps that are noted in the log, and for whom.
  lemma WorkerNotes(c: Setup, s: State, i: nat, w: WorkerStep)
    requires |s.phase| == |c.nodes| && WorkerEnabled(c, s, i, w)
    ensures var t := WorkerNext(c, s, i, w);
            if w.AskAgain? || w.Record?
            then |t.log| == |s.log| + 1 && t.log[|s.log|].owner == Some(i)
                 && (t.log[|s.log|].event.op == Allow <==> w.AskAgain?)
            else t.log == s.log
  {}

  lemma MainNotes(c: Setup, s: State, m: MainStep)
    requires |s.phase| == |c.nodes| && MainEnabled(c, s, m)
    ensures var t := MainNext(c, s, m);
            if m.AskFirst? then |t.log| == |s.log| + 1 && t.log[|s.log|].owner == Some(s.next) else t.log == s.log
  {}

  lemma TurnedDownStep(c: Setup, s: State, l: Label, t: State, i: nat)
    requires Cursor(c, s) && Enabled(c, s, l) && t == Next(c, s, l) && i < |s.phase| == |t.phase|
    requires |t.log| == |s.log| + 1 && TurnedDownAt(c, t.log, i, |s.log|)
    ensures Refusal(t.phase[i])
  {
    match l
    case Worker(j, w) =>
      WorkerNotes(c, s, j, w);
      WorkerTurnedDown(c, s, j, w);
    case Main(m) =>
      MainNotes(c, s, m);
      MainTurnedDown(c, s, m);
    case _ =>
  }

  lemma WorkerLogStep(c: Setup, s: State, i: nat, w: WorkerStep)
    requires |s.phase| == |c.nodes| && WorkerEnabled(c, s, i, w)
    ensures WorkerNext(c, s, i, w).log == s.log ||
            (|WorkerNext(c, s, i, w).log| == |s.log| + 1 && s.log <= WorkerNext(c, s, i, w).log)
  {}

  lemma LogStep(c: Setup, s: State, l: Label)
    requires |s.phase| == |c.nodes| && Enabled(c, s, l)
    ensures Next(c, s, l).log == s.log || (|Next(c, s, l).log| == |s.log| + 1 && s.log <= Next(c, s, l).log)
  {
    if l.Worker? { WorkerLogStep(c, s, l.i, l.w); }
  }

  /** A node is refused exactly when the breaker turned it down. */
  lemma {:induction false} RefusalsExact(c: Setup, run: seq<Label>, s: State, i: nat)
    requires c.Valid() && Reaches(c, run, s) && i < |c.nodes| == |s.phase|
    ensures Refusal(s.phase[i]) <==> TurnedDown(c, s.log, i)
    decreases |run|
  {
    if Refusal(s.phase[i]) { RefusalsRecorded(c, run, s, i); }
    if run == [] {
      NobodyTurnedDown(c, i);
    } else {
      var front, l := run[..|run| - 1], run[|run| - 1];
      var prev := Before(c, run, s);
      RefusalsExact(c, front, prev, i);
      RefusalStays(c, prev, l, i);
      LogStep(c, prev, l);
      if TurnedDown(c, s.log, i) && !TurnedDown(c, prev.log, i) {
        NewlyTurnedDown(c, prev.log, s.log, i);
        TurnedDownStep(c, prev, l, s, i);
      }
    }
  }

  lemma NobodyTurnedDown(c: Setup, i: nat)
    requires c.Valid()
    ensures !TurnedDown(c, c.past, i)
  {}

  lemma NewlyTurnedDown(c: Setup, log: seq<Logged>, longer: seq<Logged>, i: nat)
    requires log <= longer && |longer| <= |log| + 1 && TurnedDown(c, longer, i) && !TurnedDown(c, log, i)
    ensures |longer| == |log| + 1 && TurnedDownAt(c, longer, i, |log|)
  {
    var k: nat :| TurnedDownAt(c, longer, i, k);
    if k < |log| {
      assert log[..k] == longer[..k];
      assert TurnedDownAt(c, log, i, k);
    }
  }

  /**
    A result says `circuit open` or `refused` exactly when at some question of this call
    about its node enough failures had been recorded, in this and all other calls, with
    no success or reset since, and the last of them was no older than the timeout. So no
    request is sent past a refusal, and none is held back without one.
   */
  lemma RefusedExactlyWhenFailing(c: Setup, run: seq<Label>, s: State, k: nat)
    requires c.Valid() && Reaches(c, run, s) && s.main == Returned && k < |s.results|
    ensures s.results[k].index < |c.nodes|
    ensures s.results[k].out == CircuitOpen || s.results[k].out == Refused <==>
      exists q: nat :: q < |s.log| && s.log[q].owner == Some(s.results[k].index) && s.log[q].event.op == Allow &&
        Failing(c, Events(s.log[..q]), c.nodes[s.results[k].index].name, s.log[q].event.at)
  {
    var i := s.results[k].index;
    ReachableInv(c, run, s);
    ResultSettled(c, run, s, k);
    RefusalsExact(c, run, s, i);
    forall q: nat | q < |s.log| && s.log[q].owner == Some(i) && s.log[q].event.op == Allow
      ensures TurnedDownAt(c, s.log, i, q) <==>
              Failing(c, Events(s.log[..q]), c.nodes[i].name, s.log[q].event.at)
    {
      RefusedExactly(c.breaker, Events(s.log[..q]), c.nodes[i].name, s.log[q].event.at);
    }
  }

  // Enough failures since the last success or reset, and the last of them recent enough.
  ghost predicate Failing(c: Setup, before: seq<Event>, node: string, now: Time) {
    && FailureCount(before, node) > 0 && FailureCount(before, node) >= c.breaker.threshold
    && exists f: nat :: FailedLast(before, node, f) && now <= before[f].at + c.breaker.resetTimeout
  }
}
