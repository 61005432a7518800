/**
  Router.RouteToAllNodes of pkg/gateway/router.go as a transition system: the
  main loop that becomes the collector, one worker goroutine per admitted node,
  the closer that waits on the WaitGroup, the semaphore and the buffered result
  channel. Each label is one atomic step of one goroutine, of the caller's
  context (`Cancel`), or of another call that shares the breaker (`Foreign`).
 */
module FanOut {
  import opened Basics
  import opened CircuitBreaking

  datatype Node = Node(name: string, podName: string, ready: bool)

  datatype Setup = Setup(nodes: seq<Node>, maxConcurrency: nat, breaker: Config, past: seq<Logged>, start: Time) {
    // WithMaxConcurrency ignores values below one and the default is ten. The
    // breaker has seen earlier calls, all of them before this one starts.
    ghost predicate Valid() {
      && maxConcurrency >= 1
      && Monotone(Events(past))
      && (forall k :: 0 <= k < |past| ==> past[k].owner == None && past[k].event.at <= start)
    }
  }

  // Why a node's result carries an error, or that it carries a response.
  datatype Outcome = CircuitOpen | Cancelled | Refused | Failed | Succeeded

  // How far the call has got with one listed node.
  datatype Phase =
    | Unreached
    | Unready
    | Skipping               // the main loop was refused, its result not yet sent
    | Skipped
    | Waiting                // the worker is at the semaphore
    | Holding                // it holds a slot, routeToGPUNode not yet past Allow
    | Calling                // the request is out
    | Replied(ok: bool)      // the reply is in, not yet recorded
    | Sending(out: Outcome)  // about to send its result
    | Sent(out: Outcome)
    | Released(out: Outcome) // gave its slot back
    | Finished(out: Outcome) // told the WaitGroup

  datatype MainPc = LoopTop | LoopBody | LoopSend | Collecting | Returned

  // One message on the result channel: the position of the listed node it is for.
  datatype Entry = Entry(index: nat, out: Outcome)

  // A breaker operation and the listed node of this call it was made for, if any.
  datatype Logged = Logged(owner: Option<nat>, event: Event)

  datatype State = State(
    main: MainPc,
    next: nat,
    cancelled: bool,
    phase: seq<Phase>,
    sem: nat,
    wg: nat,
    closed: bool,
    buffer: seq<Entry>,
    results: seq<Entry>,
    successCount: nat,
    failCount: nat,
    skippedCount: nat,
    log: seq<Logged>,
    clock: Time)

  datatype MainStep =
    | LoopCheck
    | LoopBreak
    | LoopEnd
    | SkipUnready
    | AskFirst(now: Time, admitted: bool)
    | SendSkipped
    | Collect
    | Return

  datatype WorkerStep =
    | Acquire
    | GiveUp
    | AskAgain(now: Time, admitted: bool)
    | Reply(ok: bool)
    | Record(now: Time)
    | Send
    | Release
    | Done

  datatype Label =
    | Main(m: MainStep)
    | Worker(i: nat, w: WorkerStep)
    | Close
    | Cancel
    | Foreign(op: Op, node: string, now: Time)

  function Events(log: seq<Logged>): (events: seq<Event>)
    ensures |events| == |log|
    ensures forall k :: 0 <= k < |log| ==> events[k] == log[k].event
  {
    seq(|log|, k requires 0 <= k < |log| => log[k].event)
  }

  function Init(c: Setup): State {
    State(LoopTop, 0, false, seq(|c.nodes|, _ => Unreached), 0, 0, false, [], [], 0, 0, 0, c.past, c.start)
  }

  predicate Answer(c: Setup, s: State, node: string, now: Time) {
    Admits(c.breaker, CircuitBreaking.Run(c.breaker, Events(s.log)), node, now)
  }

  // A send goes through at once: the channel is open and has room.
  predicate CanSend(c: Setup, s: State) {
    !s.closed && |s.buffer| < |c.nodes|
  }

  // ---------- Steps ----------

  function Put(s: State, i: nat, p: Phase): State
    requires i < |s.phase|
  {
    s.(phase := s.phase[i := p])
  }

  function Push(s: State, e: Entry): State {
    s.(buffer := s.buffer + [e])
  }

  function Note(s: State, owner: Option<nat>, e: Event): State {
    s.(log := s.log + [Logged(owner, e)], clock := e.at)
  }

  predicate MainEnabled(c: Setup, s: State, m: MainStep) {
    match m
    case LoopCheck => s.main == LoopTop && s.next < |c.nodes| && !s.cancelled
    case LoopBreak => s.main == LoopTop && s.next < |c.nodes| && s.cancelled
    case LoopEnd => s.main == LoopTop && s.next == |c.nodes|
    case SkipUnready => s.main == LoopBody && s.next < |c.nodes| && !c.nodes[s.next].ready
    case AskFirst(now, admitted) =>
      && s.main == LoopBody && s.next < |c.nodes| && c.nodes[s.next].ready && s.clock <= now
      && admitted == Answer(c, s, c.nodes[s.next].name, now)
    case SendSkipped => s.main == LoopSend && s.next < |c.nodes| && CanSend(c, s)
    case Collect => s.main == Collecting && s.buffer != []
    case Return => s.main == Collecting && s.closed && s.buffer == []
  }

  function MainNext(c: Setup, s: State, m: MainStep): State
    requires |s.phase| == |c.nodes| && MainEnabled(c, s, m)
  {
    match m
    case LoopCheck => s.(main := LoopBody)
    case LoopBreak => s.(main := Collecting)
    case LoopEnd => s.(main := Collecting)
    case SkipUnready => Put(s, s.next, Unready).(main := LoopTop, next := s.next + 1)
    case AskFirst(now, admitted) =>
      var asked := Note(s, Some(s.next), Event(Allow, c.nodes[s.next].name, now));
      if admitted
      then Put(asked, s.next, Waiting).(main := LoopTop, next := s.next + 1, wg := s.wg + 1)
      else Put(asked, s.next, Skipping).(main := LoopSend, skippedCount := s.skippedCount + 1)
    case SendSkipped =>
      Put(Push(s, Entry(s.next, CircuitOpen)), s.next, Skipped).(main := LoopTop, next := s.next + 1)
    case Collect =>
      var e := s.buffer[0];
      s.(buffer := s.buffer[1..], results := s.results + [e],
         successCount := s.successCount + (if e.out == Succeeded then 1 else 0),
         failCount := s.failCount + (if e.out == Succeeded then 0 else 1))
    case Return => s.(main := Returned)
  }

  predicate WorkerEnabled(c: Setup, s: State, i: nat, w: WorkerStep)
    requires |s.phase| == |c.nodes|
  {
    && i < |s.phase|
    && var p := s.phase[i];
       match w
       case Acquire => p == Waiting && s.sem < c.maxConcurrency
       case GiveUp => p == Waiting && s.cancelled
       case AskAgain(now, admitted) =>
         p == Holding && s.clock <= now && admitted == Answer(c, s, c.nodes[i].name, now)
       case Reply(_) => p == Calling
       case Record(now) => p.Replied? && s.clock <= now
       case Send => p.Sending? && CanSend(c, s)
       case Release => p.Sent? && p.out != Cancelled && s.sem > 0
       case Done => (p.Released? || p == Sent(Cancelled)) && s.wg > 0
  }

  function WorkerNext(c: Setup, s: State, i: nat, w: WorkerStep): State
    requires |s.phase| == |c.nodes| && WorkerEnabled(c, s, i, w)
  {
    match w
    case Acquire => Put(s, i, Holding).(sem := s.sem + 1)
    case GiveUp => Put(s, i, Sending(Cancelled))
    case AskAgain(now, admitted) =>
      Put(Note(s, Some(i), Event(Allow, c.nodes[i].name, now)), i, if admitted then Calling else Sending(Refused))
    case Reply(ok) => Put(s, i, Replied(ok))
    case Record(now) =>
      var ok := s.phase[i].ok;
      Put(Note(s, Some(i), Event(if ok then RecordSuccess else RecordFailure, c.nodes[i].name, now)),
          i, Sending(if ok then Succeeded else Failed))
    case Send => Put(Push(s, Entry(i, s.phase[i].out)), i, Sent(s.phase[i].out))
    case Release => Put(s, i, Released(s.phase[i].out)).(sem := s.sem - 1)
    case Done => Put(s, i, Finished(s.phase[i].out)).(wg := s.wg - 1)
  }

  predicate Enabled(c: Setup, s: State, l: Label)
    requires |s.phase| == |c.nodes|
  {
    match l
    case Main(m) => MainEnabled(c, s, m)
    case Worker(i, w) => WorkerEnabled(c, s, i, w)
    case Close => s.main in {Collecting, Returned} && s.wg == 0 && !s.closed
    case Cancel => !s.cancelled
    case Foreign(_, _, now) => s.clock <= now
  }

  function Next(c: Setup, s: State, l: Label): State
    requires |s.phase| == |c.nodes| && Enabled(c, s, l)
  {
    match l
    case Main(m) => MainNext(c, s, m)
    case Worker(i, w) => WorkerNext(c, s, i, w)
    case Close => s.(closed := true)
    case Cancel => s.(cancelled := true)
    case Foreign(op, node, now) => Note(s, None, Event(op, node, now))
  }

  // A run: every label was enabled where it was taken.
  ghost predicate Reaches(c: Setup, run: seq<Label>, s: State)
    decreases |run|
  {
    if run == [] then s == Init(c)
    else
      exists prev: State ::
        && Reaches(c, run[..|run| - 1], prev)
        && |prev.phase| == |c.nodes|
        && Enabled(c, prev, run[|run| - 1])
        && s == Next(c, prev, run[|run| - 1])
  }

  // ---------- Counting phases ----------

  datatype Kind = OnSlot | Running | Delivered | Turned

  predicate Is(k: Kind, p: Phase) {
    match k
    case OnSlot =>
      p.Holding? || p.Calling? || p.Replied? || ((p.Sending? || p.Sent?) && p.out != Cancelled)
    case Running =>
      p.Waiting? || p.Holding? || p.Calling? || p.Replied? || p.Sending? || p.Sent? || p.Released?
    case Delivered => p.Skipped? || p.Sent? || p.Released? || p.Finished?
    case Turned => p.Skipping? || p.Skipped?
  }

  function Count(k: Kind, ps: seq<Phase>): nat {
    if ps == [] then 0 else Count(k, ps[..|ps| - 1]) + if Is(k, ps[|ps| - 1]) then 1 else 0
  }

  lemma {:induction false} CountPut(k: Kind, ps: seq<Phase>, i: nat, p: Phase)
    requires i < |ps|
    ensures Count(k, ps[i := p]) ==
            Count(k, ps) - (if Is(k, ps[i]) then 1 else 0) + (if Is(k, p) then 1 else 0)
  {
    var short := ps[..|ps| - 1];
    if i == |ps| - 1 {
      assert ps[i := p][..|ps| - 1] == short;
    } else {
      CountPut(k, short, i, p);
      assert ps[i := p][..|ps| - 1] == short[i := p];
    }
  }

  lemma {:induction false} CountNone(k: Kind, ps: seq<Phase>)
    requires forall i :: 0 <= i < |ps| ==> !Is(k, ps[i])
    ensures Count(k, ps) == 0
  {
    if ps != [] { CountNone(k, ps[..|ps| - 1]); }
  }

  lemma {:induction false} CountSome(k: Kind, ps: seq<Phase>) returns (i: nat)
    requires Count(k, ps) > 0
    ensures i < |ps| && Is(k, ps[i])
  {
    if Is(k, ps[|ps| - 1]) { i := |ps| - 1; } else { i := CountSome(k, ps[..|ps| - 1]); }
  }

  // At most one listed node in each position, less those not in the kind.
  lemma {:induction false} CountBelow(k: Kind, ps: seq<Phase>, i: nat)
    requires i < |ps| && !Is(k, ps[i])
    ensures Count(k, ps) < |ps|
  {
    if i == |ps| - 1 { CountAtMost(k, ps[..|ps| - 1]); } else { CountBelow(k, ps[..|ps| - 1], i); }
  }

  lemma {:induction false} CountAtMost(k: Kind, ps: seq<Phase>)
    ensures Count(k, ps) <= |ps|
  {
    if ps != [] { CountAtMost(k, ps[..|ps| - 1]); }
  }
}
