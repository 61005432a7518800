/** Building an incident around a trigger event: pkg/events/correlator.go. */
module Correlation {
  import opened Basics
  import opened Ring
  import opened Telemetry
  import opened Timelines
  import opened Watching
  import Recording

  const ClockSkewTolerance := Second
  const AbsoluteHighTempThreshold := 85
  const TempThresholdMargin := 10

  datatype K8sEvent = K8sEvent(timestamp: int, reason: string, message: string, podName: string, namespace: string)

  // The dynamic type of an event's data.
  datatype Payload = XID(xid: XIDEvent) | K8s(k8s: K8sEvent) | Other

  datatype Event = Event(typ: string, timestamp: int, data: Payload)

  // An incident has no timeline and an empty causality until it is complete.
  datatype Incident = Incident(
    timestamp: int,
    trigger: Event,
    related: seq<Event>,
    snapshots: seq<Snapshot>,
    timeline: seq<Entry>,
    causality: string)

  // The wording of timeline entries, which nothing below depends on.
  datatype Texts = Texts(
    event: Event -> string,
    throttle: Snapshot -> string,
    ecc: Snapshot -> string,
    temp: Snapshot -> string)

  // ---------- Gathering ----------

  function K8sTime(e: K8sEvent): int { e.timestamp }

  function FromXID(e: XIDEvent): Event { Event("xid", e.timestamp, XID(e)) }

  function FromK8s(e: K8sEvent): Event { Event("k8s", e.timestamp, K8s(e)) }

  function NotAfter<T>(end: int, at: T -> int): T -> bool {
    x => at(x) <= end
  }

  function Inside<T>(start: int, end: int, at: T -> int): T -> bool {
    x => start <= at(x) <= end
  }

  // How many of n items a loop handles when it stops at the first check that fails.
  function Reached(alive: nat -> bool, check: nat, n: nat): (k: nat)
    ensures k <= n
    ensures k < n ==> !alive(check + k)
    ensures forall i :: check <= i < check + k ==> alive(i)
    decreases n
  {
    if n == 0 || !alive(check) then 0 else 1 + Reached(alive, check + 1, n - 1)
  }

  function Mapped<T>(s: seq<T>, f: T -> Event): (r: seq<Event>)
    ensures |r| == |s| && forall i :: 0 <= i < |s| ==> r[i] == f(s[i])
  {
    seq(|s|, i requires 0 <= i < |s| => f(s[i]))
  }

  /**
    One source's loop: the events not after the window's
    end, in order, up to the first check that finds the context cancelled.
   */
  method Gather<T>(found: seq<T>, end: int, at: T -> int, event: T -> Event, alive: nat -> bool, check: nat)
    returns (related: seq<Event>, next: nat)
    ensures related == Mapped(Filter(found[..Reached(alive, check, |found|)], NotAfter(end, at)), event)
    ensures next == check + Min(Reached(alive, check, |found|) + 1, |found|)
  {
    related, next := [], check;
    ghost var reached := Reached(alive, check, |found|);
    for i := 0 to |found|
      invariant next == check + i && i <= reached
      invariant related == Mapped(Filter(found[..i], NotAfter(end, at)), event)
    {
      next := next + 1;
      if !alive(check + i) {
        return;
      }
      assert found[..i + 1][..i] == found[..i];
      if at(found[i]) > end {
        continue;
      }
      related := related + [event(found[i])];
    }
  }

  // All the events of a source that belong to the window.
  function EventsOf<T>(retained: seq<T>, start: int, end: int, at: T -> int, event: T -> Event): seq<Event> {
    Mapped(Filter(From(retained, start, at), NotAfter(end, at)), event)
  }

  // A loop after which the context is still alive was not cut short.
  lemma ReachedAll(alive: nat -> bool, check: nat, n: nat)
    requires StaysCancelled(alive) && alive(check + Min(Reached(alive, check, n) + 1, n))
    ensures Reached(alive, check, n) == n
  {
  }

  /**
    The loop shared by the two sources, from what a watcher's buffer retains: its
    events of the window, or when cancelled on the way a prefix of them.
   */
  method GatherSource<T>(
      retained: seq<T>, start: int, end: int, at: T -> int, event: T -> Event, alive: nat -> bool, check: nat)
    returns (related: seq<Event>, next: nat)
    requires StaysCancelled(alive)
    ensures next >= check
    ensures related <= EventsOf(retained, start, end, at, event)
    ensures alive(next) ==> related == EventsOf(retained, start, end, at, event)
  {
    var found := From(retained, start, at);
    related, next := Gather(found, end, at, event, alive, check);
    ghost var reached := Reached(alive, check, |found|);
    assert found == found[..reached] + found[reached..];
    FilterConcat(found[..reached], found[reached..], NotAfter(end, at));
    if alive(next) {
      ReachedAll(alive, check, |found|);
      assert found[..reached] == found;
    }
  }

  /**
    The lower end of the window is only cut, not filtered: the events gathered are
    those in the window exactly when no retained event before it follows one in it.
   */
  lemma GatheredIsWindow<T>(s: seq<T>, start: int, end: int, at: T -> int)
    requires start <= end
    ensures Filter(From(s, start, at), NotAfter(end, at)) == Filter(s, Inside(start, end, at)) <==>
            StaysIn(s, start, at)
  {
    var cut, late, early, both := From(s, start, at), AtOrAfter(start, at), NotAfter(end, at), Inside(start, end, at);
    FromKeepsWindow(s, start, end, at);
    FromIsWindow(s, start, at);
    FilterTwice(s, late, early, both);
    if Filter(cut, early) == Filter(s, both) {
      forall x | x in cut ensures late(x) {
        FilterIn(cut, early, x);
        FilterIn(s, both, x);
      }
      FilterAll(cut, late);
    }
  }

  lemma {:induction false} FromKeepsWindow<T>(s: seq<T>, start: int, end: int, at: T -> int)
    ensures Filter(From(s, start, at), AtOrAfter(start, at)) == Filter(s, AtOrAfter(start, at))
  {
    if s != [] && at(s[0]) < start {
      FromKeepsWindow(s[1..], start, end, at);
      assert [s[0]] + s[1..] == s;
      FilterPrepends(s[0], s[1..], AtOrAfter(start, at));
      assert [] + Filter(s[1..], AtOrAfter(start, at)) == Filter(s[1..], AtOrAfter(start, at));
    }
  }

  lemma {:induction false} FilterTwice<T>(s: seq<T>, p: T -> bool, q: T -> bool, both: T -> bool)
    requires forall x <- s :: both(x) <==> p(x) && q(x)
    ensures Filter(Filter(s, p), q) == Filter(s, both)
  {
    if s != [] {
      var front, x := s[..|s| - 1], s[|s| - 1];
      FilterTwice(front, p, q, both);
      if p(x) {
        assert (Filter(front, p) + [x])[..|Filter(front, p)|] == Filter(front, p);
      } else {
        assert Filter(s, p) == Filter(front, p) && Filter(s, both) == Filter(front, both);
      }
    }
  }

  lemma {:induction false} FilterConcat<T>(s: seq<T>, t: seq<T>, keep: T -> bool)
    ensures Filter(s + t, keep) == Filter(s, keep) + Filter(t, keep)
  {
    if t == [] {
      assert s + t == s;
    } else {
      FilterConcat(s, t[..|t| - 1], keep);
      assert (s + t)[..|s + t| - 1] == s + t[..|t| - 1];
    }
  }

  lemma {:induction false} FilterNone<T>(s: seq<T>, keep: T -> bool)
    requires forall x <- s :: !keep(x)
    ensures Filter(s, keep) == []
  {
    if s != [] {
      FilterNone(s[..|s| - 1], keep);
    }
  }

  // ---------- Snapshots ----------

  function OfGPU(uuid: string): Snapshot -> bool {
    (s: Snapshot) => s.uuid == uuid
  }

  ghost predicate OwnSnapshots(timelines: Recording.Log) {
    forall u <- timelines :: Recording.Belong(timelines[u], u)
  }

  // Each GPU visited contributes its snapshots in the window, in order, and no other does.
  ghost predicate SnapshotsOf(
      snapshots: seq<Snapshot>, timelines: Recording.Log, visited: set<string>, start: int, end: int)
  {
    forall u: string :: Filter(snapshots, OfGPU(u)) ==
      if u in visited && u in timelines then Filter(timelines[u], Inside(start, end, Recording.Stamp)) else []
  }

  lemma InsideStamp(s: Snapshot, start: int, end: int)
    ensures Inside(start, end, Recording.Stamp)(s) <==> start <= s.timestamp <= end
  {
    var at: Snapshot -> int := Recording.Stamp;
    assert at(s) == Recording.Stamp(s);
  }

  method InWindow(timeline: seq<Snapshot>, start: int, end: int) returns (r: seq<Snapshot>)
    ensures r == Filter(timeline, Inside(start, end, Recording.Stamp))
  {
    r := [];
    for i := 0 to |timeline|
      invariant r == Filter(timeline[..i], Inside(start, end, Recording.Stamp))
    {
      assert timeline[..i + 1][..i] == timeline[..i];
      InsideStamp(timeline[i], start, end);
      if timeline[i].timestamp < start || timeline[i].timestamp > end {
        continue;
      }
      r := r + [timeline[i]];
    }
    assert timeline[..|timeline|] == timeline;
  }

  lemma VisitOne(
      snapshots: seq<Snapshot>, timelines: Recording.Log, visited: set<string>, u: string, start: int, end: int)
    requires OwnSnapshots(timelines) && u in timelines && u !in visited
    requires SnapshotsOf(snapshots, timelines, visited, start, end)
    ensures var more := Filter(timelines[u], Inside(start, end, Recording.Stamp));
            SnapshotsOf(snapshots + more, timelines, visited + {u}, start, end)
  {
    var more := Filter(timelines[u], Inside(start, end, Recording.Stamp));
    WindowOwned(timelines[u], u, start, end);
    forall v: string
      ensures Filter(snapshots + more, OfGPU(v)) == Filter(snapshots, OfGPU(v)) + if v == u then more else []
    {
      OwnAppended(snapshots, more, u, v);
    }
  }

  lemma WindowOwned(timeline: seq<Snapshot>, u: string, start: int, end: int)
    requires Recording.Belong(timeline, u)
    ensures forall s <- Filter(timeline, Inside(start, end, Recording.Stamp)) :: s.uuid == u
  {
    Recording.BelongMeans(timeline, u);
    forall s | s in Filter(timeline, Inside(start, end, Recording.Stamp)) ensures s.uuid == u {
      FilterIn(timeline, Inside(start, end, Recording.Stamp), s);
    }
  }

  lemma OwnAppended(snapshots: seq<Snapshot>, more: seq<Snapshot>, u: string, v: string)
    requires forall s <- more :: s.uuid == u
    ensures Filter(snapshots + more, OfGPU(v)) == Filter(snapshots, OfGPU(v)) + if v == u then more else []
  {
    FilterConcat(snapshots, more, OfGPU(v));
    if v == u { FilterAll(more, OfGPU(v)); } else { FilterNone(more, OfGPU(v)); }
  }

  // The GPUs come in any order; cancellation leaves out whole GPUs.
  method GatherFrom(timelines: Recording.Log, start: int, end: int, alive: nat -> bool, check: nat)
    returns (snapshots: seq<Snapshot>, next: nat, ghost visited: set<string>)
    requires OwnSnapshots(timelines)
    ensures next >= check
    ensures SnapshotsOf(snapshots, timelines, visited, start, end)
    ensures Uncancelled(alive) ==> visited == timelines.Keys
  {
    snapshots, next, visited := [], check, {};
    var left := timelines.Keys;
    while left != {}
      invariant left <= timelines.Keys && visited == timelines.Keys - left && next >= check
      invariant SnapshotsOf(snapshots, timelines, visited, start, end)
      decreases left
    {
      var uuid :| uuid in left;
      var cancelled := !alive(next);
      next := next + 1;
      if cancelled {
        return;
      }
      var more := InWindow(timelines[uuid], start, end);
      VisitOne(snapshots, timelines, visited, uuid, start, end);
      snapshots, visited, left := snapshots + more, visited + {uuid}, left - {uuid};
    }
    assert visited == timelines.Keys;
  }

  // The snapshots of a GPU that are within both the lookback and the window.
  function Observed(taken: Recording.Log, capacity: nat, since: int, u: string, start: int, end: int): seq<Snapshot> {
    Filter(Recording.Window(Recording.TimelineOf(taken, u), capacity, since), Inside(start, end, Recording.Stamp))
  }

  // For each GPU, exactly what was observed of it, in order; when cancelled, perhaps none of it.
  ghost predicate ObservedIn(
      snapshots: seq<Snapshot>, taken: Recording.Log, capacity: nat, since: int, start: int, end: int, completed: bool)
  {
    forall u: string :: ObservedOf(snapshots, taken, capacity, since, start, end, completed, u)
  }

  ghost predicate ObservedOf(
      snapshots: seq<Snapshot>, taken: Recording.Log, capacity: nat, since: int, start: int, end: int,
      completed: bool, u: string)
  {
    var kept := Filter(snapshots, OfGPU(u));
    kept == Observed(taken, capacity, since, u, start, end) || (kept == [] && !completed)
  }

  lemma WindowsOwn(timelines: Recording.Log, taken: Recording.Log, capacity: nat, since: int)
    requires Recording.AreWindows(timelines, taken, capacity, since)
    ensures OwnSnapshots(timelines)
  {
    forall u | u in timelines ensures Recording.Belong(timelines[u], u) {
      assert Recording.WindowOf(timelines, taken, capacity, since, u);
    }
  }

  lemma VisitedObserved(
      snapshots: seq<Snapshot>, timelines: Recording.Log, taken: Recording.Log,
      capacity: nat, since: int, visited: set<string>, start: int, end: int, completed: bool)
    requires completed ==> visited == timelines.Keys
    requires Recording.AreWindows(timelines, taken, capacity, since)
    requires SnapshotsOf(snapshots, timelines, visited, start, end)
    ensures ObservedIn(snapshots, taken, capacity, since, start, end, completed)
  {
    forall u ensures ObservedOf(snapshots, taken, capacity, since, start, end, completed, u) {
      assert Recording.WindowOf(timelines, taken, capacity, since, u);
    }
  }

  /**
    Gathers from what the recorder's GetAllTimelines returned: for each GPU, exactly
    its snapshots within both lookback and window, oldest first.
   */
  method GatherGPUSnapshots(
      timelines: Recording.Log, start: int, end: int, alive: nat -> bool, check: nat,
      ghost taken: Recording.Log, ghost capacity: nat, ghost since: int)
    returns (snapshots: seq<Snapshot>, next: nat)
    requires Recording.AreWindows(timelines, taken, capacity, since)
    ensures next >= check
    ensures ObservedIn(snapshots, taken, capacity, since, start, end, Uncancelled(alive))
  {
    WindowsOwn(timelines, taken, capacity, since);
    ghost var visited;
    snapshots, next, visited := GatherFrom(timelines, start, end, alive, check);
    VisitedObserved(snapshots, timelines, taken, capacity, since, visited, start, end, Uncancelled(alive));
  }
}
