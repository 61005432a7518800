/** From what was gathered to a finished incident, and what its timeline and causality mean. */
module Incidents {
  import opened Basics
  import opened Correlation
  import opened Ring
  import opened Telemetry
  import opened Timelines
  import opened Watching
  import Recording

  // ---------- The timeline ----------

  // Temperatures are 32-bit unsigned, and so is the difference.
  predicate IsHighTemperature(s: Snapshot) {
    if s.tempThreshold == 0 then s.temperature >= AbsoluteHighTempThreshold
    else s.temperature >= (s.tempThreshold - TempThresholdMargin) % TwoTo32
  }

  function EntryOf(e: Event, texts: Texts): Entry {
    Entry(e.timestamp, e.typ, texts.event(e))
  }

  function EventEntries(es: seq<Event>, texts: Texts): (r: seq<Entry>)
    ensures |r| == |es|
    ensures forall i :: 0 <= i < |es| ==> r[i] == EntryOf(es[i], texts)
  {
    seq(|es|, i requires 0 <= i < |es| => EntryOf(es[i], texts))
  }

  // What one snapshot shows.
  function StateEntries(s: Snapshot, texts: Texts): seq<Entry> {
    (if IsThrottled(s) then [Entry(s.timestamp, "throttle", texts.throttle(s))] else [])
    + (if HasECCErrors(s) then [Entry(s.timestamp, "ecc", texts.ecc(s))] else [])
    + if IsHighTemperature(s) then [Entry(s.timestamp, "temp", texts.temp(s))] else []
  }

  function SnapshotEntries(ss: seq<Snapshot>, texts: Texts): seq<Entry> {
    if ss == [] then [] else SnapshotEntries(ss[..|ss| - 1], texts) + StateEntries(ss[|ss| - 1], texts)
  }

  // The timeline before sorting.
  function Entries(i: Incident, texts: Texts): seq<Entry> {
    [EntryOf(i.trigger, texts)] + EventEntries(i.related, texts) + SnapshotEntries(i.snapshots, texts)
  }

  method BuildStateEntries(s: Snapshot, texts: Texts) returns (entries: seq<Entry>)
    ensures entries == StateEntries(s, texts)
  {
    entries := [];
    if IsThrottled(s) {
      entries := entries + [Entry(s.timestamp, "throttle", texts.throttle(s))];
    }
    if HasECCErrors(s) {
      entries := entries + [Entry(s.timestamp, "ecc", texts.ecc(s))];
    }
    if IsHighTemperature(s) {
      entries := entries + [Entry(s.timestamp, "temp", texts.temp(s))];
    }
  }

  method BuildGPUSnapshotEntries(ss: seq<Snapshot>, texts: Texts) returns (entries: seq<Entry>)
    ensures entries == SnapshotEntries(ss, texts)
  {
    entries := [];
    for i := 0 to |ss|
      invariant entries == SnapshotEntries(ss[..i], texts)
    {
      assert ss[..i + 1][..i] == ss[..i];
      var more := BuildStateEntries(ss[i], texts);
      entries := entries + more;
    }
    assert ss[..|ss|] == ss;
  }

  // Some correct sort of the entries, deduplicated.
  ghost predicate TimelineFor(timeline: seq<Entry>, entries: seq<Entry>) {
    exists sorted: seq<Entry> :: SortOf(sorted, entries) && timeline == Dedup(sorted)
  }

  method BuildEventEntries(es: seq<Event>, texts: Texts) returns (entries: seq<Entry>)
    ensures entries == EventEntries(es, texts)
  {
    entries := [];
    for i := 0 to |es|
      invariant entries == EventEntries(es, texts)[..i]
    {
      entries := entries + [EntryOf(es[i], texts)];
    }
  }

  method BuildTimeline(i: Incident, texts: Texts) returns (timeline: seq<Entry>)
    ensures TimelineFor(timeline, Entries(i, texts))
  {
    var entries := [EntryOf(i.trigger, texts)];
    var related := BuildEventEntries(i.related, texts);
    var states := BuildGPUSnapshotEntries(i.snapshots, texts);
    entries := entries + related + states;
    timeline := SortAndDedup(entries);
  }

  method SortAndDedup(entries: seq<Entry>) returns (timeline: seq<Entry>)
    ensures TimelineFor(timeline, entries)
  {
    var sorted := SortByTime(entries);
    timeline := DeduplicateTimeline(sorted);
  }

  // ---------- Causality ----------

  const ThermalCascade := "thermal_cascade"
  const MemoryFailure := "memory_failure"
  const SoftwareOOM := "software_oom"
  const Unknown := "unknown"

  predicate IsOOM(e: Event) {
    e.typ == "k8s" && e.data.K8s? && e.data.k8s.reason == "OOMKilled"
  }

  predicate HasOOM(trigger: Event, related: seq<Event>) {
    IsOOM(trigger) || exists i :: 0 <= i < |related| && IsOOM(related[i])
  }

  ghost function CausalityOf(types: seq<string>, oom: bool): string {
    if Follows(types, "temp", "throttle") && Follows(types, "throttle", "xid") then ThermalCascade
    else if Follows(types, "ecc", "xid") then MemoryFailure
    else if oom && "xid" !in types && "ecc" !in types && "throttle" !in types then SoftwareOOM
    else Unknown
  }

  lemma OOMExact(trigger: Event, related: seq<Event>)
    ensures HasOOM(trigger, related) <==> exists e ::
      (e == trigger || e in related) && e.typ == "k8s" && e.data.K8s? && e.data.k8s.reason == "OOMKilled"
  {
    if i :| 0 <= i < |related| && IsOOM(related[i]) { assert related[i] in related; }
  }

  method HasOOMEvent(trigger: Event, related: seq<Event>) returns (r: bool)
    ensures r == HasOOM(trigger, related)
    ensures r <==> exists e ::
      (e == trigger || e in related) && e.typ == "k8s" && e.data.K8s? && e.data.k8s.reason == "OOMKilled"
  {
    OOMExact(trigger, related);
    if IsOOM(trigger) {
      return true;
    }
    for i := 0 to |related|
      invariant forall k :: 0 <= k < i ==> !IsOOM(related[k])
    {
      if IsOOM(related[i]) {
        return true;
      }
    }
    return false;
  }

  method Contains(types: seq<string>, target: string) returns (r: bool)
    ensures r <==> target in types
  {
    for i := 0 to |types|
      invariant target !in types[..i]
    {
      if types[i] == target {
        return true;
      }
    }
    return false;
  }

  method DetectCausality(i: Incident) returns (r: string)
    ensures r == CausalityOf(TypesOf(i.timeline), HasOOM(i.trigger, i.related))
  {
    var types := TypesOf(i.timeline);
    var tempThrottle := HasSequence(types, "temp", "throttle");
    var throttleXID := HasSequence(types, "throttle", "xid");
    if tempThrottle && throttleXID {
      return ThermalCascade;
    }
    var eccXID := HasSequence(types, "ecc", "xid");
    if eccXID {
      return MemoryFailure;
    }
    var xid := Contains(types, "xid");
    var ecc := Contains(types, "ecc");
    var throttle := Contains(types, "throttle");
    var oom := HasOOMEvent(i.trigger, i.related);
    return if oom && !(xid || ecc || throttle) then SoftwareOOM else Unknown;
  }

  // ---------- Incidents as built ----------

  // A cancelled incident keeps what was gathered and nothing is made of it.
  ghost predicate Cancelled(i: Incident) {
    i.timeline == [] && i.causality == ""
  }

  ghost predicate Completed(i: Incident, texts: Texts) {
    && TimelineFor(i.timeline, Entries(i, texts))
    && i.causality == CausalityOf(TypesOf(i.timeline), HasOOM(i.trigger, i.related))
  }

  // An event as one of the two watchers holds it.
  predicate FromSource(e: Event) {
    || (e.data.XID? && e == FromXID(e.data.xid) && Enriched(e.data.xid))
    || (e.data.K8s? && e == FromK8s(e.data.k8s))
  }

  ghost predicate Built(i: Incident, texts: Texts) {
    && i.timestamp == i.trigger.timestamp
    && (forall e <- i.related :: FromSource(e))
    && (Cancelled(i) || Completed(i, texts))
  }

  // The events of the two watchers in the window, XID events first.
  function EventsIn(xids: seq<XIDEvent>, k8s: seq<K8sEvent>, start: int, end: int): seq<Event> {
    EventsOf(xids, start, end, XIDTime, FromXID) + EventsOf(k8s, start, end, K8sTime, FromK8s)
  }

  lemma AllFromSource(xids: seq<XIDEvent>, k8s: seq<K8sEvent>, start: int, end: int)
    requires forall e <- xids :: Enriched(e)
    ensures forall e <- EventsIn(xids, k8s, start, end) :: FromSource(e)
  {
    var x := Filter(From(xids, start, XIDTime), NotAfter(end, XIDTime));
    var k := Filter(From(k8s, start, K8sTime), NotAfter(end, K8sTime));
    FromWithin(xids, start, XIDTime);
    forall i | 0 <= i < |x| ensures FromSource(Mapped(x, FromXID)[i]) {
      FilterIn(From(xids, start, XIDTime), NotAfter(end, XIDTime), x[i]);
      assert Mapped(x, FromXID)[i] == FromXID(x[i]);
    }
    forall i | 0 <= i < |k| ensures FromSource(Mapped(k, FromK8s)[i]) {
      assert Mapped(k, FromK8s)[i] == FromK8s(k[i]);
    }
  }

  lemma SourceExact<T>(retained: seq<T>, start: int, end: int, at: T -> int, event: T -> Event)
    ensures forall e <- EventsOf(retained, start, end, at, event) ::
      exists x :: x in retained && at(x) <= end && e == event(x)
    ensures forall x <- retained :: start <= at(x) <= end ==> event(x) in EventsOf(retained, start, end, at, event)
  {
    var cut := From(retained, start, at);
    var kept := Filter(cut, NotAfter(end, at));
    FromWithin(retained, start, at);
    forall e | e in Mapped(kept, event) ensures exists x :: x in retained && at(x) <= end && e == event(x) {
      var i :| 0 <= i < |kept| && Mapped(kept, event)[i] == e;
      FilterIn(cut, NotAfter(end, at), kept[i]);
    }
    forall x | x in retained && start <= at(x) <= end ensures event(x) in Mapped(kept, event) {
      FromKeepsWindow(retained, start, end, at);
      FilterIn(cut, AtOrAfter(start, at), x);
      FilterIn(retained, AtOrAfter(start, at), x);
      FilterIn(cut, NotAfter(end, at), x);
      var i :| 0 <= i < |kept| && kept[i] == x;
      assert Mapped(kept, event)[i] == event(x);
    }
  }

  /**
    The events gathered around a trigger: each comes from a watcher and is not after the
    window, and every event in the window is among them, as what it is.
   */
  lemma EventsExact(xids: seq<XIDEvent>, k8s: seq<K8sEvent>, start: int, end: int)
    ensures forall e <- EventsIn(xids, k8s, start, end) :: e.timestamp <= end
    ensures forall e <- EventsIn(xids, k8s, start, end) ::
      ((exists x :: x in xids && e == Event("xid", x.timestamp, XID(x)))
       || exists k :: k in k8s && e == Event("k8s", k.timestamp, K8s(k)))
    ensures forall x <- xids :: start <= x.timestamp <= end ==>
      Event("xid", x.timestamp, XID(x)) in EventsIn(xids, k8s, start, end)
    ensures forall k <- k8s :: start <= k.timestamp <= end ==>
      Event("k8s", k.timestamp, K8s(k)) in EventsIn(xids, k8s, start, end)
  {
    var first := EventsOf(xids, start, end, XIDTime, FromXID);
    var second := EventsOf(k8s, start, end, K8sTime, FromK8s);
    SourceExact(xids, start, end, XIDTime, FromXID);
    SourceExact(k8s, start, end, K8sTime, FromK8s);
    forall e: Event | e in first + second
      ensures e.timestamp <= end
      ensures (exists x :: x in xids && e == Event("xid", x.timestamp, XID(x)))
        || exists k :: k in k8s && e == Event("k8s", k.timestamp, K8s(k))
    {
      if e in first {
        var x :| x in xids && XIDTime(x) <= end && e == FromXID(x);
      } else {
        var k :| k in k8s && K8sTime(k) <= end && e == FromK8s(k);
      }
    }
    forall x | x in xids && start <= x.timestamp <= end ensures Event("xid", x.timestamp, XID(x)) in first + second {
      assert FromXID(x) in first;
    }
    forall k | k in k8s && start <= k.timestamp <= end ensures Event("k8s", k.timestamp, K8s(k)) in first + second {
      assert FromK8s(k) in second;
    }
  }

  /** The snapshots gathered, uncancelled: of each GPU the retained ones inside lookback and window. */
  lemma SnapshotsExact(
      snapshots: seq<Snapshot>, taken: Recording.Log, capacity: nat, since: int, start: int, end: int, s: Snapshot)
    requires ObservedIn(snapshots, taken, capacity, since, start, end, true)
    requires s.uuid in taken ==> forall x <- taken[s.uuid] :: x.uuid == s.uuid
    ensures s in snapshots <==>
      && s.uuid in taken && s in LastN(taken[s.uuid], capacity)
      && since <= s.timestamp && start <= s.timestamp <= end
  {
    var u := s.uuid;
    assert ObservedOf(snapshots, taken, capacity, since, start, end, true, u);
    var recent := LastN(Recording.TimelineOf(taken, u), capacity);
    var window := Recording.Window(Recording.TimelineOf(taken, u), capacity, since);
    FilterIn(snapshots, OfGPU(u), s);
    FilterIn(window, Inside(start, end, Recording.Stamp), s);
    FilterIn(recent, AtOrAfter(since, Recording.Stamp), s);
    InsideStamp(s, start, end);
    StampedSince(s, since);
  }

  lemma StampedSince(s: Snapshot, since: int)
    ensures AtOrAfter(since, Recording.Stamp)(s) <==> since <= s.timestamp
  {
    var at: Snapshot -> int := Recording.Stamp;
    assert at(s) == Recording.Stamp(s);
  }

  lemma NothingObserved(taken: Recording.Log, capacity: nat, since: int, start: int, end: int, completed: bool)
    requires !completed
    ensures ObservedIn([], taken, capacity, since, start, end, completed)
  {}

  // The first two sources, up to the first check of the context that fails.
  method GatherEvents(xids: seq<XIDEvent>, k8s: seq<K8sEvent>, start: int, end: int, alive: nat -> bool)
    returns (related: seq<Event>, check: nat)
    requires StaysCancelled(alive) && forall e <- xids :: Enriched(e)
    ensures related <= EventsIn(xids, k8s, start, end)
    ensures forall e <- related :: FromSource(e)
    ensures alive(check) ==> related == EventsIn(xids, k8s, start, end)
  {
    AllFromSource(xids, k8s, start, end);
    if !alive(0) {
      return [], 0;
    }
    related, check := GatherSource(xids, start, end, XIDTime, FromXID, alive, 1);
    if !alive(check) {
      return;
    }
    var more;
    more, check := GatherSource(k8s, start, end, K8sTime, FromK8s, alive, check + 1);
    related := related + more;
  }

  /**
    Builds the incident around a trigger, from what the watchers' buffers hold: the XID
    watcher's events are enriched. Every incident is Built; the events gathered
    are the watchers' events of the window, or a prefix of them when the context is
    cancelled on the way.
   */
  method Correlate(
      xids: seq<XIDEvent>, k8s: seq<K8sEvent>, recorded: Recording.Log,
      windowSize: int, trigger: Event, texts: Texts, alive: nat -> bool,
      ghost taken: Recording.Log, ghost capacity: nat, ghost since: int)
    returns (i: Incident)
    requires Recording.AreWindows(recorded, taken, capacity, since)
    requires StaysCancelled(alive) && forall e <- xids :: Enriched(e)
    ensures Built(i, texts) && i.trigger == trigger
    ensures var margin := windowSize + 1_000_000_000;
            var start, end := trigger.timestamp - margin, trigger.timestamp + margin;
            && i.related <= EventsIn(xids, k8s, start, end)
            && ObservedIn(i.snapshots, taken, capacity, since, start, end, Uncancelled(alive))
            && (Uncancelled(alive) ==> i.related == EventsIn(xids, k8s, start, end))
    ensures Uncancelled(alive) ==> Completed(i, texts)
  {
    i := Incident(trigger.timestamp, trigger, [], [], [], "");
    var margin := windowSize + ClockSkewTolerance;
    var start, end := trigger.timestamp - margin, trigger.timestamp + margin;
    if !Uncancelled(alive) { NothingObserved(taken, capacity, since, start, end, false); }
    var related, check := GatherEvents(xids, k8s, start, end, alive);
    i := i.(related := related);
    if !alive(check) {
      return;
    }
    var snapshots;
    snapshots, check := GatherGPUSnapshots(recorded, start, end, alive, check + 1, taken, capacity, since);
    i := i.(snapshots := snapshots);
    if !alive(check) {
      return;
    }
    i := Complete(i, texts);
  }

  method Complete(i: Incident, texts: Texts) returns (r: Incident)
    ensures Completed(r, texts)
    ensures r == i.(timeline := r.timeline, causality := r.causality)
  {
    var timeline := BuildTimeline(i, texts);
    r := i.(timeline := timeline);
    var causality := DetectCausality(r);
    r := r.(causality := causality);
    assert Entries(r, texts) == Entries(i, texts);
  }
}
