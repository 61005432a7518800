/**
  The per-node circuit breaker of pkg/gateway/circuit_breaker.go.

  `Core` and `Step` give one operation's effect on the three maps; `Run` is a
  whole run. What the breaker promises is stated over the trace alone, by
  `FailureCount` and `Probed`, which look back from the end of the trace and
  mention neither the maps nor the stored state.
 */
module CircuitBreaking {
  import opened Basics

  // Instants and durations, in nanoseconds.
  type Time = int

  datatype CircuitState = Closed | Open | HalfOpen

  datatype Op = Allow | RecordSuccess | RecordFailure | Reset

  // One operation on the breaker. The lock makes each of them atomic.
  datatype Event = Event(op: Op, node: string, at: Time)

  // What one call of the metrics callback receives.
  datatype Report = Report(node: string, state: CircuitState, healthy: bool)

  datatype Config = Config(threshold: int, resetTimeout: Time)

  datatype Core = Core(
    failures: map<string, int>,
    lastFailure: map<string, Time>,
    state: map<string, CircuitState>,
    reports: seq<Report>)

  const Fresh := Core(map[], map[], map[], [])

  // ---------- One operation ----------

  // A missing map entry reads as the zero value.
  function StateOf(core: Core, node: string): CircuitState {
    if node in core.state then core.state[node] else Closed
  }

  function FailuresOf(core: Core, node: string): int {
    if node in core.failures then core.failures[node] else 0
  }

  // The zero instant lies before every timeout.
  predicate Expired(cfg: Config, core: Core, node: string, now: Time) {
    node in core.lastFailure ==> now - core.lastFailure[node] > cfg.resetTimeout
  }

  predicate Admits(cfg: Config, core: Core, node: string, now: Time) {
    StateOf(core, node) == Open ==> Expired(cfg, core, node, now)
  }

  function Enter(core: Core, node: string, s: CircuitState): Core {
    core.(state := core.state[node := s],
          reports := core.reports + [Report(node, s, s == Closed)])
  }

  function Step(cfg: Config, core: Core, e: Event): Core {
    match e.op
    case Allow =>
      if StateOf(core, e.node) == Open && Expired(cfg, core, e.node, e.at)
      then Enter(core, e.node, HalfOpen) else core
    case RecordSuccess =>
      Enter(core.(failures := core.failures[e.node := 0]), e.node, Closed)
    case RecordFailure =>
      var count := FailuresOf(core, e.node) + 1;
      var counted := core.(failures := core.failures[e.node := count],
                           lastFailure := core.lastFailure[e.node := e.at]);
      if count >= cfg.threshold then Enter(counted, e.node, Open) else counted
    case Reset =>
      core.(failures := core.failures - {e.node},
            lastFailure := core.lastFailure - {e.node},
            state := core.state - {e.node})
  }

  function Run(cfg: Config, trace: seq<Event>): Core {
    if trace == [] then Fresh
    else Step(cfg, Run(cfg, trace[..|trace| - 1]), trace[|trace| - 1])
  }

  // Everything the breaker holds about one node.
  datatype Cell = Cell(failures: Option<int>, lastFailure: Option<Time>, state: Option<CircuitState>)

  function CellOf(core: Core, node: string): Cell {
    Cell(Lookup(core.failures, node), Lookup(core.lastFailure, node), Lookup(core.state, node))
  }

  function StepCell(cfg: Config, cell: Cell, op: Op, at: Time): Cell {
    match op
    case Allow =>
      if cell.state == Some(Open) && (cell.lastFailure.Some? ==> at - cell.lastFailure.value > cfg.resetTimeout)
      then cell.(state := Some(HalfOpen)) else cell
    case RecordSuccess => cell.(failures := Some(0), state := Some(Closed))
    case RecordFailure =>
      var count := (if cell.failures.Some? then cell.failures.value else 0) + 1;
      Cell(Some(count), Some(at), if count >= cfg.threshold then Some(Open) else cell.state)
    case Reset => Cell(None, None, None)
  }

  lemma StepOnCell(cfg: Config, core: Core, e: Event, node: string)
    ensures CellOf(Step(cfg, core, e), node) ==
            if e.node == node then StepCell(cfg, CellOf(core, node), e.op, e.at) else CellOf(core, node)
  {}

  // ---------- What the trace alone says ----------

  // Failures of the node since its last success or reset.
  function FailureCount(trace: seq<Event>, node: string): nat {
    if trace == [] then 0
    else
      var earlier, e := trace[..|trace| - 1], trace[|trace| - 1];
      if e.node != node || e.op == Allow then FailureCount(earlier, node)
      else if e.op == RecordFailure then FailureCount(earlier, node) + 1
      else 0
  }

  // The node's last event other than Allow is the failure at position i.
  ghost predicate FailedLast(trace: seq<Event>, node: string, i: nat) {
    && i < |trace| && trace[i].node == node && trace[i].op == RecordFailure
    && forall k :: i < k < |trace| && trace[k].node == node ==> trace[k].op == Allow
  }

  ghost predicate AsksLate(trace: seq<Event>, node: string, i: nat, j: nat, timeout: Time)
    requires i < |trace|
  {
    i < j < |trace| && trace[j].node == node && trace[j].op == Allow
    && trace[j].at - trace[i].at > timeout
  }

  // Some Allow since the last failure came more than the timeout after it.
  ghost predicate Probed(trace: seq<Event>, node: string, timeout: Time) {
    exists i: nat, j: nat :: FailedLast(trace, node, i) && AsksLate(trace, node, i, j, timeout)
  }

  // A threshold below one acts like one: a check only follows a failure.
  function Limit(cfg: Config): int {
    if cfg.threshold < 1 then 1 else cfg.threshold
  }

  ghost function TraceState(cfg: Config, trace: seq<Event>, node: string): CircuitState {
    if FailureCount(trace, node) < Limit(cfg) then Closed
    else if Probed(trace, node, cfg.resetTimeout) then HalfOpen
    else Open
  }

  // Whether the trace alone lets the node be called at `now`.
  ghost predicate TraceAdmits(cfg: Config, trace: seq<Event>, node: string, now: Time) {
    || TraceState(cfg, trace, node) != Open
    || exists i: nat :: FailedLast(trace, node, i) && now - trace[i].at > cfg.resetTimeout
  }

  // ---------- The breaker computes what the trace says ----------

  lemma FailedLastUnique(trace: seq<Event>, node: string, i: nat, j: nat)
    requires FailedLast(trace, node, i) && FailedLast(trace, node, j)
    ensures i == j
  {}

  // One more event that leaves the node's failures alone keeps its last failure.
  lemma FailedLastExtends(trace: seq<Event>, e: Event, node: string, i: nat)
    requires e.node != node || e.op == Allow
    ensures i < |trace| ==> (FailedLast(trace + [e], node, i) <==> FailedLast(trace, node, i))
    ensures FailedLast(trace + [e], node, i) ==> i < |trace|
  {
    var longer := trace + [e];
    if i < |trace| && FailedLast(longer, node, i) {
      forall k | i < k < |trace| && trace[k].node == node ensures trace[k].op == Allow {
        assert longer[k] == trace[k];
      }
    }
  }

  lemma ProbedExtends(trace: seq<Event>, e: Event, node: string, timeout: Time)
    requires e.node != node || e.op == Allow
    ensures Probed(trace + [e], node, timeout) <==>
            || Probed(trace, node, timeout)
            || (e.node == node && exists i: nat :: FailedLast(trace, node, i) && e.at - trace[i].at > timeout)
  {
    var longer := trace + [e];
    if Probed(longer, node, timeout) {
      var i: nat, j: nat :| FailedLast(longer, node, i) && AsksLate(longer, node, i, j, timeout);
      FailedLastExtends(trace, e, node, i);
      assert longer[i] == trace[i];
      if j < |trace| { assert AsksLate(trace, node, i, j, timeout); }
    }
    if Probed(trace, node, timeout) {
      var i: nat, j: nat :| FailedLast(trace, node, i) && AsksLate(trace, node, i, j, timeout);
      FailedLastExtends(trace, e, node, i);
      assert AsksLate(longer, node, i, j, timeout);
    }
    if e.node == node && exists i: nat :: FailedLast(trace, node, i) && e.at - trace[i].at > timeout {
      var i: nat :| FailedLast(trace, node, i) && e.at - trace[i].at > timeout;
      FailedLastExtends(trace, e, node, i);
      assert AsksLate(longer, node, i, |trace|, timeout);
    }
  }

  // The stored last-failure instant is the one the trace names.
  lemma {:induction false} LastFailureStored(cfg: Config, trace: seq<Event>, node: string)
    ensures FailuresOf(Run(cfg, trace), node) == FailureCount(trace, node)
    ensures FailureCount(trace, node) > 0 ==>
      && node in Run(cfg, trace).lastFailure
      && exists i: nat :: FailedLast(trace, node, i) && Run(cfg, trace).lastFailure[node] == trace[i].at
  {
    if trace != [] {
      var earlier, e := trace[..|trace| - 1], trace[|trace| - 1];
      assert trace == earlier + [e];
      LastFailureStored(cfg, earlier, node);
      if FailureCount(trace, node) > 0 {
        if e.node == node && e.op == RecordFailure {
          assert FailedLast(trace, node, |trace| - 1);
        } else {
          var i: nat :| FailedLast(earlier, node, i) && Run(cfg, earlier).lastFailure[node] == earlier[i].at;
          FailedLastExtends(earlier, e, node, i);
          assert FailedLast(trace, node, i) && Run(cfg, trace).lastFailure[node] == trace[i].at;
        }
      }
    }
  }

  lemma ExpiredByTrace(cfg: Config, trace: seq<Event>, node: string, now: Time)
    requires FailureCount(trace, node) > 0
    ensures Expired(cfg, Run(cfg, trace), node, now) <==>
            exists i: nat :: FailedLast(trace, node, i) && now - trace[i].at > cfg.resetTimeout
  {
    LastFailureStored(cfg, trace, node);
    var i: nat :| FailedLast(trace, node, i) && Run(cfg, trace).lastFailure[node] == trace[i].at;
    forall j: nat | FailedLast(trace, node, j) ensures i == j { FailedLastUnique(trace, node, i, j); }
  }

  // A failure leaves no probe after it.
  lemma FailureUnprobed(earlier: seq<Event>, e: Event, node: string, timeout: Time)
    requires e.node == node && e.op == RecordFailure
    ensures !Probed(earlier + [e], node, timeout)
  {
    var trace := earlier + [e];
    assert FailedLast(trace, node, |trace| - 1);
    forall i: nat | FailedLast(trace, node, i) ensures i == |trace| - 1 {
      FailedLastUnique(trace, node, i, |trace| - 1);
    }
  }

  lemma RunExtends(cfg: Config, earlier: seq<Event>, e: Event)
    ensures Run(cfg, earlier + [e]) == Step(cfg, Run(cfg, earlier), e)
  {
    assert (earlier + [e])[..|earlier|] == earlier;
  }

  lemma CountExtends(earlier: seq<Event>, e: Event, node: string)
    ensures FailureCount(earlier + [e], node) ==
            if e.node != node || e.op == Allow then FailureCount(earlier, node)
            else if e.op == RecordFailure then FailureCount(earlier, node) + 1
            else 0
  {
    assert (earlier + [e])[..|earlier|] == earlier;
  }

  ghost predicate StateAgrees(cfg: Config, trace: seq<Event>, node: string) {
    StateOf(Run(cfg, trace), node) == TraceState(cfg, trace, node)
  }

  lemma OtherNodeAgrees(cfg: Config, earlier: seq<Event>, e: Event, node: string)
    requires e.node != node && StateAgrees(cfg, earlier, node)
    ensures StateAgrees(cfg, earlier + [e], node)
  {
    RunExtends(cfg, earlier, e);
    CountExtends(earlier, e, node);
    StepOnCell(cfg, Run(cfg, earlier), e, node);
    ProbedExtends(earlier, e, node, cfg.resetTimeout);
  }

  // An Allow turns an open circuit half-open exactly when it probes.
  lemma AllowAgrees(cfg: Config, earlier: seq<Event>, e: Event, node: string)
    requires e.node == node && e.op == Allow && StateAgrees(cfg, earlier, node)
    ensures StateAgrees(cfg, earlier + [e], node)
  {
    RunExtends(cfg, earlier, e);
    CountExtends(earlier, e, node);
    ProbedExtends(earlier, e, node, cfg.resetTimeout);
    if FailureCount(earlier, node) > 0 { ExpiredByTrace(cfg, earlier, node, e.at); }
  }

  // A failure opens the circuit exactly when it makes up the limit.
  lemma FailureAgrees(cfg: Config, earlier: seq<Event>, e: Event, node: string)
    requires e.node == node && e.op == RecordFailure && StateAgrees(cfg, earlier, node)
    ensures StateAgrees(cfg, earlier + [e], node)
  {
    RunExtends(cfg, earlier, e);
    CountExtends(earlier, e, node);
    LastFailureStored(cfg, earlier, node);
    FailureUnprobed(earlier, e, node, cfg.resetTimeout);
  }

  lemma ClearingAgrees(cfg: Config, earlier: seq<Event>, e: Event, node: string)
    requires e.node == node && (e.op == RecordSuccess || e.op == Reset)
    ensures StateAgrees(cfg, earlier + [e], node)
  {
    RunExtends(cfg, earlier, e);
    CountExtends(earlier, e, node);
  }

  lemma {:induction false} AlwaysAgrees(cfg: Config, trace: seq<Event>, node: string)
    ensures StateAgrees(cfg, trace, node)
  {
    if trace != [] {
      var earlier, e := trace[..|trace| - 1], trace[|trace| - 1];
      AlwaysAgrees(cfg, earlier, node);
      if e.node != node { OtherNodeAgrees(cfg, earlier, e, node); }
      else if e.op == Allow { AllowAgrees(cfg, earlier, e, node); }
      else if e.op == RecordFailure { FailureAgrees(cfg, earlier, e, node); }
      else { ClearingAgrees(cfg, earlier, e, node); }
      assert earlier + [e] == trace;
    }
  }

  /**
    Trace semantics: for every trace and every threshold, the stored failure
    count and the stored state are the ones the trace determines.
   */
  lemma TraceSemantics(cfg: Config, trace: seq<Event>, node: string)
    ensures FailuresOf(Run(cfg, trace), node) == FailureCount(trace, node)
    ensures StateOf(Run(cfg, trace), node) == TraceState(cfg, trace, node)
  {
    LastFailureStored(cfg, trace, node);
    AlwaysAgrees(cfg, trace, node);
  }

  /** The count, as the failures that no success or reset of the node follows. */
  lemma {:induction false} FailureCountExact(trace: seq<Event>, node: string)
    ensures FailureCount(trace, node) == |Outstanding(trace, node)|
  {
    if trace != [] {
      var n := |trace| - 1;
      FailureCountExact(trace[..n], node);
      OutstandingExtends(trace, node);
    }
  }

  ghost function Outstanding(trace: seq<Event>, node: string): set<nat> {
    set k: nat | k < |trace| && IsOutstanding(trace, node, k)
  }

  ghost predicate IsOutstanding(trace: seq<Event>, node: string, k: nat)
    requires k < |trace|
  {
    && trace[k].node == node && trace[k].op == RecordFailure
    && forall m :: k < m < |trace| && trace[m].node == node ==> trace[m].op != RecordSuccess && trace[m].op != Reset
  }

  lemma OutstandingExtends(trace: seq<Event>, node: string)
    requires trace != []
    ensures var n := |trace| - 1;
            var e, before := trace[n], Outstanding(trace[..n], node);
            && n !in before
            && Outstanding(trace, node) ==
               if e.node != node || e.op == Allow then before else if e.op == RecordFailure then before + {n} else {}
  {
    var n := |trace| - 1;
    var e := trace[n];
    forall k: nat | k < n
      ensures IsOutstanding(trace, node, k) <==>
              IsOutstanding(trace[..n], node, k) && (e.node == node ==> e.op != RecordSuccess && e.op != Reset)
    {
      assert trace[..n][k] == trace[k];
      if IsOutstanding(trace, node, k) {
        forall m | k < m < n && trace[..n][m].node == node
          ensures trace[..n][m].op != RecordSuccess && trace[..n][m].op != Reset
        {
          assert trace[m] == trace[..n][m];
        }
      }
    }
    var before := Outstanding(trace[..n], node);
    assert Outstanding(trace, node) ==
      if e.node != node || e.op == Allow then before else if e.op == RecordFailure then before + {n} else {};
  }

  /** The state, in terms of the events and instants of the trace. */
  lemma StateExact(cfg: Config, trace: seq<Event>, node: string)
    ensures StateOf(Run(cfg, trace), node) == Closed <==>
            FailureCount(trace, node) == 0 || FailureCount(trace, node) < cfg.threshold
    ensures StateOf(Run(cfg, trace), node) == HalfOpen <==>
      && FailureCount(trace, node) > 0 && FailureCount(trace, node) >= cfg.threshold
      && exists i: nat, j: nat :: i < j < |trace| && trace[i].node == node && trace[j].node == node
           && trace[i].op == RecordFailure && trace[j].at > trace[i].at + cfg.resetTimeout
           && forall k :: i < k < |trace| && trace[k].node == node ==> trace[k].op == Allow
  {
    TraceSemantics(cfg, trace, node);
    if Probed(trace, node, cfg.resetTimeout) {
      var i: nat, j: nat :| FailedLast(trace, node, i) && AsksLate(trace, node, i, j, cfg.resetTimeout);
      assert trace[j].at > trace[i].at + cfg.resetTimeout;
    }
    forall i: nat, j: nat | i < j < |trace| && trace[i].node == node && trace[j].node == node
      && trace[i].op == RecordFailure && (forall k :: i < k < |trace| && trace[k].node == node ==> trace[k].op == Allow)
      && trace[j].at > trace[i].at + cfg.resetTimeout
      ensures FailedLast(trace, node, i) && AsksLate(trace, node, i, j, cfg.resetTimeout)
    {}
  }

  lemma AdmitsByTrace(cfg: Config, trace: seq<Event>, node: string, now: Time)
    ensures Admits(cfg, Run(cfg, trace), node, now) <==> TraceAdmits(cfg, trace, node, now)
  {
    TraceSemantics(cfg, trace, node);
    if FailureCount(trace, node) > 0 { ExpiredByTrace(cfg, trace, node, now); }
  }

  // ---------- Open circuits refuse until the timeout ----------

  ghost predicate Monotone(trace: seq<Event>) {
    forall i, j :: 0 <= i < j < |trace| ==> trace[i].at <= trace[j].at
  }

  /**
    With a clock that never goes back, a call is refused exactly when enough
    failures were recorded since the last success or reset and the last of them
    is at most the timeout old. So a circuit opened at t refuses every call up to
    t plus the timeout, however many calls are tried in between.
   */
  lemma RefusedExactly(cfg: Config, trace: seq<Event>, node: string, now: Time)
    requires Monotone(trace)
    requires forall k :: 0 <= k < |trace| ==> trace[k].at <= now
    ensures !Admits(cfg, Run(cfg, trace), node, now) <==>
            && FailureCount(trace, node) > 0 && FailureCount(trace, node) >= cfg.threshold
            && exists i: nat :: FailedLast(trace, node, i) && now <= trace[i].at + cfg.resetTimeout
  {
    AdmitsByTrace(cfg, trace, node, now);
    if FailureCount(trace, node) > 0 {
      LastFailureStored(cfg, trace, node);
      var i: nat :| FailedLast(trace, node, i) && Run(cfg, trace).lastFailure[node] == trace[i].at;
      forall j: nat | FailedLast(trace, node, j) ensures i == j { FailedLastUnique(trace, node, i, j); }
      if Probed(trace, node, cfg.resetTimeout) {
        var i': nat, j: nat :| FailedLast(trace, node, i') && AsksLate(trace, node, i', j, cfg.resetTimeout);
        assert trace[j].at <= now;
      }
    }
  }

  // ---------- Nodes do not affect one another ----------

  function Project(trace: seq<Event>, node: string): seq<Event> {
    if trace == [] then []
    else
      var earlier, e := Project(trace[..|trace| - 1], node), trace[|trace| - 1];
      if e.node == node then earlier + [e] else earlier
  }

  /** Whatever else happens, a node's entries are those of a breaker that saw only its own events. */
  lemma {:induction false} NodesIndependent(cfg: Config, trace: seq<Event>, node: string)
    ensures CellOf(Run(cfg, trace), node) == CellOf(Run(cfg, Project(trace, node)), node)
  {
    if trace != [] {
      var earlier, e := trace[..|trace| - 1], trace[|trace| - 1];
      NodesIndependent(cfg, earlier, node);
      var own := Project(earlier, node);
      StepOnCell(cfg, Run(cfg, earlier), e, node);
      if e.node == node {
        StepOnCell(cfg, Run(cfg, own), e, node);
        assert (own + [e])[..|own|] == own;
      }
    }
  }

  // ---------- The metrics callback ----------

  // The last state the callback was given for the node; closed if none.
  function LastReported(reports: seq<Report>, node: string): CircuitState {
    if reports == [] then Closed
    else if reports[|reports| - 1].node == node then reports[|reports| - 1].state
    else LastReported(reports[..|reports| - 1], node)
  }

  // After event j the callback still has heard nothing new of a node whose circuit is closed.
  predicate Silent(cfg: Config, trace: seq<Event>, node: string, j: nat)
    requires j < |trace|
  {
    !(trace[j].node == node && trace[j].op == RecordSuccess) && FailureCount(trace[..j + 1], node) < Limit(cfg)
  }

  // The node's circuit was not closed when it was reset at position i, and since then
  // there was neither a success of the node nor enough failures to open it again.
  ghost predicate UnheardFrom(cfg: Config, trace: seq<Event>, node: string, i: nat) {
    && i < |trace| && trace[i].op == Reset && trace[i].node == node
    && TraceState(cfg, trace[..i], node) != Closed
    && forall j :: i < j < |trace| ==> Silent(cfg, trace, node, j)
  }

  ghost predicate ResetUnheard(cfg: Config, trace: seq<Event>, node: string) {
    exists i: nat :: UnheardFrom(cfg, trace, node, i)
  }

  // Whether the event tells the callback anything, and what.
  function Told(cfg: Config, core: Core, e: Event): Option<CircuitState> {
    match e.op
    case Allow => if StateOf(core, e.node) == Open && Expired(cfg, core, e.node, e.at) then Some(HalfOpen) else None
    case RecordSuccess => Some(Closed)
    case RecordFailure => if FailuresOf(core, e.node) + 1 >= cfg.threshold then Some(Open) else None
    case Reset => None
  }

  lemma ReportedAfter(before: seq<Report>, r: Report, node: string)
    ensures LastReported(before + [r], node) == if r.node == node then r.state else LastReported(before, node)
  {
    assert (before + [r])[..|before|] == before;
  }

  // An event that tells the callback anything tells it the new state; of the others only Reset changes the state.
  lemma StepTells(cfg: Config, core: Core, e: Event, node: string)
    ensures var after, told := Step(cfg, core, e), Told(cfg, core, e);
            if e.node == node && told.Some?
            then LastReported(after.reports, node) == StateOf(after, node) == told.value
            else LastReported(after.reports, node) == LastReported(core.reports, node) &&
                 StateOf(after, node) == if e.node == node && e.op == Reset then Closed else StateOf(core, node)
  {
    var told := Told(cfg, core, e);
    StepOnCell(cfg, core, e, node);
    if told.Some? { ReportedAfter(core.reports, Report(e.node, told.value, told.value == Closed), node); }
  }

  lemma SilentPrefix(cfg: Config, earlier: seq<Event>, e: Event, node: string, j: nat)
    requires j < |earlier|
    ensures Silent(cfg, earlier + [e], node, j) <==> Silent(cfg, earlier, node, j)
  {
    assert (earlier + [e])[..j + 1] == earlier[..j + 1];
  }

  lemma UnheardPrefix(cfg: Config, earlier: seq<Event>, e: Event, node: string, i: nat)
    requires i < |earlier|
    ensures UnheardFrom(cfg, earlier + [e], node, i) <==>
            UnheardFrom(cfg, earlier, node, i) && Silent(cfg, earlier + [e], node, |earlier|)
  {
    var trace := earlier + [e];
    assert trace[..i] == earlier[..i];
    forall j | i < j < |earlier| ensures Silent(cfg, trace, node, j) <==> Silent(cfg, earlier, node, j) {
      SilentPrefix(cfg, earlier, e, node, j);
    }
  }

  // A reset goes unheard from now on if it closes the circuit, or from before if nothing is heard now.
  lemma UnheardExtends(cfg: Config, earlier: seq<Event>, e: Event, node: string)
    ensures ResetUnheard(cfg, earlier + [e], node) <==>
      || (e.op == Reset && e.node == node && TraceState(cfg, earlier, node) != Closed)
      || (ResetUnheard(cfg, earlier, node) && Silent(cfg, earlier + [e], node, |earlier|))
  {
    var trace, n := earlier + [e], |earlier|;
    assert trace[..n] == earlier;
    if ResetUnheard(cfg, trace, node) {
      var i: nat :| UnheardFrom(cfg, trace, node, i);
      if i < n { UnheardPrefix(cfg, earlier, e, node, i); }
    }
    if ResetUnheard(cfg, earlier, node) && Silent(cfg, trace, node, n) {
      var i: nat :| UnheardFrom(cfg, earlier, node, i);
      UnheardPrefix(cfg, earlier, e, node, i);
    }
    if e.op == Reset && e.node == node && TraceState(cfg, earlier, node) != Closed {
      assert UnheardFrom(cfg, trace, node, n);
    }
  }

  // Within a silence the node has too few failures for its circuit to be open.
  lemma UnheardCount(cfg: Config, trace: seq<Event>, node: string)
    requires ResetUnheard(cfg, trace, node)
    ensures FailureCount(trace, node) < Limit(cfg)
  {
    var i: nat :| UnheardFrom(cfg, trace, node, i);
    var n := |trace| - 1;
    assert trace[..n + 1] == trace;
    if i < n { assert Silent(cfg, trace, node, n); }
  }

  /**
    What the callback last heard of a node is its state, unless the node was reset while
    its circuit was not closed and has had neither a success nor enough failures since:
    Reset tells the callback nothing. The condition is on the trace alone.
   */
  lemma {:induction false} ReportedStateExact(cfg: Config, trace: seq<Event>, node: string)
    ensures LastReported(Run(cfg, trace).reports, node) == TraceState(cfg, trace, node) <==>
            !ResetUnheard(cfg, trace, node)
    ensures ResetUnheard(cfg, trace, node) ==> TraceState(cfg, trace, node) == Closed
  {
    if trace != [] {
      var earlier, e := trace[..|trace| - 1], trace[|trace| - 1];
      assert trace == earlier + [e];
      ReportedStateExact(cfg, earlier, node);
      ReportStep(cfg, earlier, e, node);
    }
  }

  lemma ReportStep(cfg: Config, earlier: seq<Event>, e: Event, node: string)
    requires LastReported(Run(cfg, earlier).reports, node) == TraceState(cfg, earlier, node) <==>
             !ResetUnheard(cfg, earlier, node)
    ensures var trace := earlier + [e];
            && (LastReported(Run(cfg, trace).reports, node) == TraceState(cfg, trace, node) <==>
                !ResetUnheard(cfg, trace, node))
            && (ResetUnheard(cfg, trace, node) ==> TraceState(cfg, trace, node) == Closed)
  {
    var trace := earlier + [e];
    TraceSemantics(cfg, earlier, node);
    TraceSemantics(cfg, trace, node);
    RunExtends(cfg, earlier, e);
    StepTells(cfg, Run(cfg, earlier), e, node);
    UnheardExtends(cfg, earlier, e, node);
    CountExtends(earlier, e, node);
    assert trace[..|earlier| + 1] == trace;
    if ResetUnheard(cfg, earlier, node) { UnheardCount(cfg, earlier, node); }
  }

  /** In a run that never resets the node the callback's last report is its state. */
  lemma ReportedWithoutReset(cfg: Config, trace: seq<Event>, node: string)
    requires forall e <- trace :: !(e.op == Reset && e.node == node)
    ensures LastReported(Run(cfg, trace).reports, node) == StateOf(Run(cfg, trace), node)
  {
    ReportedStateExact(cfg, trace, node);
    TraceSemantics(cfg, trace, node);
    forall i: nat | i < |trace| ensures !UnheardFrom(cfg, trace, node, i) {
      assert trace[i] in trace;
    }
  }

  /** The callback hears that a node is healthy exactly when its circuit closes. */
  lemma {:induction false} HealthyExact(cfg: Config, trace: seq<Event>)
    ensures forall r <- Run(cfg, trace).reports :: r.healthy <==> r.state == Closed
  {
    if trace != [] {
      HealthyExact(cfg, trace[..|trace| - 1]);
    }
  }

  /** A concrete run after which the callback still shows an open circuit that is closed. */
  lemma ResetLeavesCallbackStale()
    ensures var cfg := Config(1, 30);
            var trace := [Event(RecordFailure, "gpu-1", 0), Event(Reset, "gpu-1", 1)];
            && LastReported(Run(cfg, trace).reports, "gpu-1") == Open
            && StateOf(Run(cfg, trace), "gpu-1") == Closed
  {
    var cfg := Config(1, 30);
    var trace := [Event(RecordFailure, "gpu-1", 0), Event(Reset, "gpu-1", 1)];
    assert trace[..1] == [Event(RecordFailure, "gpu-1", 0)];
    assert trace[..1][..0] == [];
    assert Run(cfg, trace[..1]).reports == [Report("gpu-1", Open, false)];
  }

  // ---------- The breaker as the gateway holds it ----------

  class CircuitBreaker {
    var failures: map<string, int>
    var lastFailure: map<string, Time>
    var state: map<string, CircuitState>
    const threshold: int
    const resetTimeout: Time
    // Every call of the metrics callback so far, oldest first.
    var reported: seq<Report>
    // Every operation so far, oldest first.
    ghost var history: seq<Event>

    function Cfg(): Config { Config(threshold, resetTimeout) }

    // The maps are those the history leads to.
    ghost predicate Valid()
      reads this
    {
      Core(failures, lastFailure, state, reported) == Run(Cfg(), history)
    }

    constructor (cfg: Config)
      ensures Valid() && history == [] && Cfg() == cfg
    {
      failures, lastFailure, state := map[], map[], map[];
      threshold, resetTimeout := cfg.threshold, cfg.resetTimeout;
      reported, history := [], [];
    }

    method NotifyStateChange(node: string, s: CircuitState, healthy: bool)
      modifies this`reported
      ensures reported == old(reported) + [Report(node, s, healthy)]
    {
      reported := reported + [Report(node, s, healthy)];
    }

    /** Says whether the node may be called now. */
    method Allow(node: string, now: Time) returns (ok: bool)
      requires Valid()
      modifies this
      ensures Valid() && history == old(history) + [Event(Op.Allow, node, now)]
      ensures ok <==> TraceAdmits(Cfg(), old(history), node, now)
    {
      ghost var e := Event(Op.Allow, node, now);
      AdmitsByTrace(Cfg(), history, node, now);
      assert (history + [e])[..|history|] == history;
      var current := if node in state then state[node] else Closed;
      if current == Open {
        var expired := node in lastFailure ==> now - lastFailure[node] > resetTimeout;
        if expired {
          state := state[node := HalfOpen];
          NotifyStateChange(node, HalfOpen, false);
        }
        ok := expired;
      } else {
        ok := true;
      }
      history := history + [e];
    }

    method RecordSuccess(node: string, now: Time)
      requires Valid()
      modifies this
      ensures Valid() && history == old(history) + [Event(Op.RecordSuccess, node, now)]
    {
      ghost var e := Event(Op.RecordSuccess, node, now);
      assert (history + [e])[..|history|] == history;
      failures := failures[node := 0];
      state := state[node := Closed];
      NotifyStateChange(node, Closed, true);
      history := history + [e];
    }

    method RecordFailure(node: string, now: Time)
      requires Valid()
      modifies this
      ensures Valid() && history == old(history) + [Event(Op.RecordFailure, node, now)]
    {
      ghost var e := Event(Op.RecordFailure, node, now);
      assert (history + [e])[..|history|] == history;
      failures := failures[node := (if node in failures then failures[node] else 0) + 1];
      lastFailure := lastFailure[node := now];
      if failures[node] >= threshold {
        state := state[node := Open];
        NotifyStateChange(node, Open, false);
      }
      history := history + [e];
    }

    method Reset(node: string, now: Time)
      requires Valid()
      modifies this
      ensures Valid() && history == old(history) + [Event(Op.Reset, node, now)]
    {
      ghost var e := Event(Op.Reset, node, now);
      assert (history + [e])[..|history|] == history;
      failures, lastFailure, state := failures - {node}, lastFailure - {node}, state - {node};
      history := history + [e];
    }

    method State(node: string) returns (s: CircuitState)
      requires Valid()
      ensures s == TraceState(Cfg(), history, node)
    {
      TraceSemantics(Cfg(), history, node);
      s := if node in state then state[node] else Closed;
    }

    method Failures(node: string) returns (count: int)
      requires Valid()
      ensures count == FailureCount(history, node)
    {
      TraceSemantics(Cfg(), history, node);
      count := if node in failures then failures[node] else 0;
    }
  }
}
