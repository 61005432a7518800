/** What an incident's timeline and causality say about what happened. */
module Causality {
  import opened Correlation
  import opened Incidents
  import opened Telemetry
  import opened Timelines
  import opened Wording

  ghost predicate AnyEvent(i: Incident, typ: string) {
    i.trigger.typ == typ || exists e :: e in i.related && e.typ == typ
  }

  ghost predicate AnyThrottled(ss: seq<Snapshot>) { exists s :: s in ss && IsThrottled(s) }

  ghost predicate AnyECC(ss: seq<Snapshot>) { exists s :: s in ss && HasECCErrors(s) }

  ghost predicate AnyHot(ss: seq<Snapshot>) { exists s :: s in ss && IsHighTemperature(s) }

  // The conditions seen in snapshots, as entry types.
  ghost predicate SeenInSnapshots(ss: seq<Snapshot>, t: string) {
    || (t == "throttle" && AnyThrottled(ss))
    || (t == "ecc" && AnyECC(ss))
    || (t == "temp" && AnyHot(ss))
  }

  // ---------- What the timeline shows ----------

  lemma {:induction false} SnapshotTypes(ss: seq<Snapshot>, texts: Texts, t: string)
    ensures t in TypesOf(SnapshotEntries(ss, texts)) <==> SeenInSnapshots(ss, t)
  {
    if ss != [] {
      var front, s := ss[..|ss| - 1], ss[|ss| - 1];
      SnapshotTypes(front, texts, t);
      assert ss == front + [s];
      StateTypes(s, texts, t);
      TypesConcat(SnapshotEntries(front, texts), StateEntries(s, texts));
      SeenExtends(front, s, t);
    }
  }

  predicate Shows(s: Snapshot, t: string) {
    (t == "throttle" && IsThrottled(s)) || (t == "ecc" && HasECCErrors(s)) || (t == "temp" && IsHighTemperature(s))
  }

  lemma StateTypes(s: Snapshot, texts: Texts, t: string)
    ensures t in TypesOf(StateEntries(s, texts)) <==> Shows(s, t)
  {
    var a := if IsThrottled(s) then [Entry(s.timestamp, "throttle", texts.throttle(s))] else [];
    var b := if HasECCErrors(s) then [Entry(s.timestamp, "ecc", texts.ecc(s))] else [];
    var c := if IsHighTemperature(s) then [Entry(s.timestamp, "temp", texts.temp(s))] else [];
    TypesConcat(a, b);
    TypesConcat(a + b, c);
    assert TypesOf(a) == if IsThrottled(s) then ["throttle"] else [];
    assert TypesOf(b) == if HasECCErrors(s) then ["ecc"] else [];
    assert TypesOf(c) == if IsHighTemperature(s) then ["temp"] else [];
  }

  lemma SeenExtends(front: seq<Snapshot>, s: Snapshot, t: string)
    ensures SeenInSnapshots(front + [s], t) <==> SeenInSnapshots(front, t) || Shows(s, t)
  {
    assert forall x :: x in front + [s] <==> x in front || x == s;
  }

  lemma TypesConcat(a: seq<Entry>, b: seq<Entry>)
    ensures TypesOf(a + b) == TypesOf(a) + TypesOf(b)
  {}

  lemma EventTypes(es: seq<Event>, texts: Texts, t: string)
    ensures t in TypesOf(EventEntries(es, texts)) <==> exists e :: e in es && e.typ == t
  {
    var entries := EventEntries(es, texts);
    forall e | e in es && e.typ == t ensures t in TypesOf(entries) {
      var k :| 0 <= k < |es| && es[k] == e;
      assert TypesOf(entries)[k] == t;
    }
    forall k | 0 <= k < |entries| && TypesOf(entries)[k] == t ensures exists e :: e in es && e.typ == t {
      assert es[k] in es;
    }
  }

  lemma EntryTypes(i: Incident, texts: Texts, t: string)
    ensures t in TypesOf(Entries(i, texts)) <==> AnyEvent(i, t) || SeenInSnapshots(i.snapshots, t)
  {
    var first, related := [EntryOf(i.trigger, texts)], EventEntries(i.related, texts);
    var states := SnapshotEntries(i.snapshots, texts);
    TypesConcat(first, related);
    TypesConcat(first + related, states);
    assert TypesOf(first) == [i.trigger.typ];
    EventTypes(i.related, texts, t);
    SnapshotTypes(i.snapshots, texts, t);
  }

  // Sorting neither adds nor removes types.
  lemma SortedTypes(sorted: seq<Entry>, es: seq<Entry>, t: string)
    requires SortOf(sorted, es)
    ensures t in TypesOf(sorted) <==> t in TypesOf(es)
  {
    SameMembers(sorted, es);
    if t in TypesOf(sorted) {
      var k :| 0 <= k < |sorted| && TypesOf(sorted)[k] == t;
      assert sorted[k] in es;
      var j :| 0 <= j < |es| && es[j] == sorted[k];
      assert TypesOf(es)[j] == t;
    }
    if t in TypesOf(es) {
      var k :| 0 <= k < |es| && TypesOf(es)[k] == t;
      assert es[k] in sorted;
      var j :| 0 <= j < |sorted| && sorted[j] == es[k];
      assert TypesOf(sorted)[j] == t;
    }
  }

  lemma SameMembers(a: seq<Entry>, b: seq<Entry>)
    requires multiset(a) == multiset(b)
    ensures forall e :: e in a <==> e in b
  {
    forall e ensures e in a <==> e in b {
      assert e in a <==> e in multiset(a);
      assert e in b <==> e in multiset(b);
    }
  }

  // Sorting changes no keys.
  lemma SortedOwnKeys(sorted: seq<Entry>, es: seq<Entry>, t: string)
    requires SortOf(sorted, es) && OwnKeys(es, t)
    ensures OwnKeys(sorted, t)
  {
    SameMembers(sorted, es);
    SameOwnKeys(sorted, es, t);
  }

  /**
    A type is on a finished timeline exactly when an event or a condition gathered has
    it: every type if the trigger's has no separator, and in the program's wording those
    of hardware events, whatever the trigger's.
   */
  lemma TimelineTypes(i: Incident, texts: Texts, t: string)
    requires Built(i, texts) && Completed(i, texts)
    requires Plain(i.trigger.typ) || (Worded(texts) && Hardware(t))
    ensures t in TypesOf(i.timeline) <==> AnyEvent(i, t) || SeenInSnapshots(i.snapshots, t)
  {
    var sorted :| SortOf(sorted, Entries(i, texts)) && i.timeline == Dedup(sorted);
    if Plain(i.trigger.typ) { PlainOwnKeys(i, texts, t); } else { HardwareOwnKeys(i, texts, t); }
    SortedOwnKeys(sorted, Entries(i, texts), t);
    DedupKeepsTypes(sorted, t);
    SortedTypes(sorted, Entries(i, texts), t);
    EntryTypes(i, texts, t);
  }

  /** The timeline is in order of time, and no two of its entries share type and description. */
  lemma TimelineInOrder(i: Incident, texts: Texts)
    requires Completed(i, texts)
    ensures forall l, m :: 0 <= l < m < |i.timeline| ==> i.timeline[l].timestamp <= i.timeline[m].timestamp
    ensures forall l, m :: 0 <= l < m < |i.timeline| ==>
      i.timeline[l].eventType != i.timeline[m].eventType || i.timeline[l].description != i.timeline[m].description
  {
    var sorted :| SortOf(sorted, Entries(i, texts)) && i.timeline == Dedup(sorted);
    DedupKeepsFirsts(sorted);
    var kept := i.timeline;
    forall l, m | 0 <= l < m < |kept|
      ensures kept[l].eventType != kept[m].eventType || kept[l].description != kept[m].description
    {
      assert Key(kept[l]) != Key(kept[m]);
    }
  }

  // ---------- Every hardware event is on the timeline ----------

  // An entry of this type and description, no later than this.
  ghost predicate Appears(timeline: seq<Entry>, eventType: string, description: string, latest: int) {
    exists k :: 0 <= k < |timeline| && timeline[k].eventType == eventType && timeline[k].description == description
      && timeline[k].timestamp <= latest
  }

  lemma EventListed(i: Incident, texts: Texts, e: Event)
    requires e == i.trigger || e in i.related
    ensures Entry(e.timestamp, e.typ, texts.event(e)) in Entries(i, texts)
  {
    if e == i.trigger {
      assert Entries(i, texts)[0] == EntryOf(e, texts);
    } else {
      var k :| 0 <= k < |i.related| && i.related[k] == e;
      assert Entries(i, texts)[k + 1] == EventEntries(i.related, texts)[k];
    }
  }

  lemma {:induction false} StateListed(ss: seq<Snapshot>, texts: Texts, s: Snapshot, x: Entry)
    requires s in ss && x in StateEntries(s, texts)
    ensures x in SnapshotEntries(ss, texts)
  {
    var n := |ss| - 1;
    if s != ss[n] {
      assert s in ss[..n];
      StateListed(ss[..n], texts, s, x);
    }
  }

  // Entries of hardware events keep their type and description.
  lemma EntryAppears(i: Incident, texts: Texts, x: Entry)
    requires Built(i, texts) && Completed(i, texts) && Legible(i, texts)
    requires x in Entries(i, texts) && Hardware(x.eventType)
    ensures Appears(i.timeline, x.eventType, x.description, x.timestamp)
  {
    var sorted :| SortOf(sorted, Entries(i, texts)) && i.timeline == Dedup(sorted);
    SameMembers(sorted, Entries(i, texts));
    var j :| 0 <= j < |sorted| && sorted[j] == x;
    LegibleOwnKeys(i, texts, x.eventType);
    SortedOwnKeys(sorted, Entries(i, texts), x.eventType);
    var m := PairKept(sorted, j);
  }

  /**
    Whatever the trigger's type, as the program words its entries: every hardware event
    gathered is on the finished timeline, under its own type and description, since the
    first time it was seen.
   */
  lemma EventShown(i: Incident, texts: Texts, e: Event)
    requires Built(i, texts) && Completed(i, texts) && Legible(i, texts)
    requires (e == i.trigger || e in i.related) && e.typ in {"xid", "throttle", "ecc", "temp"}
    ensures Appears(i.timeline, e.typ, texts.event(e), e.timestamp)
  {
    EventListed(i, texts, e);
    EntryAppears(i, texts, Entry(e.timestamp, e.typ, texts.event(e)));
  }

  /** And so is every condition that a snapshot shows. */
  lemma SnapshotShown(i: Incident, texts: Texts, s: Snapshot)
    requires Built(i, texts) && Completed(i, texts) && Legible(i, texts) && s in i.snapshots
    ensures s.throttling != {} ==> Appears(i.timeline, "throttle", texts.throttle(s), s.timestamp)
    ensures s.eccCorrectable > 0 || s.eccUncorrectable > 0 ==>
      Appears(i.timeline, "ecc", texts.ecc(s), s.timestamp)
    ensures IsHighTemperature(s) ==> Appears(i.timeline, "temp", texts.temp(s), s.timestamp)
  {
    StateEntriesAre(s, texts);
    forall x | x in StateEntries(s, texts) ensures Appears(i.timeline, x.eventType, x.description, x.timestamp) {
      StateListed(i.snapshots, texts, s, x);
      EntryAppears(i, texts, x);
    }
  }

  /**
    What counts as hot: from ten degrees below the threshold, or from 85 when there is
    none. A threshold below ten wraps, and nothing is hot by it.
   */
  lemma HotExact(s: Snapshot)
    requires s.tempThreshold < 0x1_0000_0000 && s.temperature < 0x1_0000_0000
    ensures s.tempThreshold == 0 ==> (IsHighTemperature(s) <==> s.temperature >= 85)
    ensures s.tempThreshold >= 10 ==> (IsHighTemperature(s) <==> s.temperature + 10 >= s.tempThreshold)
    ensures 0 < s.tempThreshold < 10 ==> (IsHighTemperature(s) <==> s.temperature >= 0xFFFF_FFF6 + s.tempThreshold)
  {}

  lemma StateEntriesAre(s: Snapshot, texts: Texts)
    ensures s.throttling != {} ==> Entry(s.timestamp, "throttle", texts.throttle(s)) in StateEntries(s, texts)
    ensures s.eccCorrectable > 0 || s.eccUncorrectable > 0 ==>
      Entry(s.timestamp, "ecc", texts.ecc(s)) in StateEntries(s, texts)
    ensures IsHighTemperature(s) ==> Entry(s.timestamp, "temp", texts.temp(s)) in StateEntries(s, texts)
    ensures forall x <- StateEntries(s, texts) ::
      x.timestamp == s.timestamp &&
      ((x.eventType == "throttle" && s.throttling != {} && x.description == texts.throttle(s))
       || (x.eventType == "ecc" && (s.eccCorrectable > 0 || s.eccUncorrectable > 0) && x.description == texts.ecc(s))
       || (x.eventType == "temp" && IsHighTemperature(s) && x.description == texts.temp(s)))
  {}

  /** And nothing else is: each entry is the trigger's, an event's, or a condition's. */
  lemma NothingElseShown(i: Incident, texts: Texts, k: nat)
    requires Built(i, texts) && Completed(i, texts) && k < |i.timeline|
    ensures var x := i.timeline[k];
      || (exists e :: (e == i.trigger || e in i.related) && x == Entry(e.timestamp, e.typ, texts.event(e)))
      || (exists s :: s in i.snapshots && s.timestamp == x.timestamp &&
            ((x.eventType == "throttle" && s.throttling != {} && x.description == texts.throttle(s))
             || (x.eventType == "ecc" && s.eccCorrectable + s.eccUncorrectable > 0 && x.description == texts.ecc(s))
             || (x.eventType == "temp" && IsHighTemperature(s) && x.description == texts.temp(s))))
  {
    var sorted :| SortOf(sorted, Entries(i, texts)) && i.timeline == Dedup(sorted);
    SameMembers(sorted, Entries(i, texts));
    var x := i.timeline[k];
    DedupKeepsFirsts(sorted);
    assert x in Dedup(sorted) && x in Entries(i, texts);
    EntryCases(i, texts, x);
    if s :| s in i.snapshots && x in StateEntries(s, texts) { StateEntriesAre(s, texts); }
  }

  // ---------- Software out of memory ----------

  /** A software cause is named exactly when a pod was killed and no hardware trouble was gathered. */
  lemma SoftwareOOMExact(i: Incident, texts: Texts)
    requires Built(i, texts) && Completed(i, texts) && Legible(i, texts)
    ensures i.causality == "software_oom" <==>
      && (exists e ::
            (e == i.trigger || e in i.related) && e.typ == "k8s" && e.data.K8s? && e.data.k8s.reason == "OOMKilled")
      && (forall e :: e == i.trigger || e in i.related ==> e.typ !in {"xid", "ecc", "throttle"})
      && (forall s <- i.snapshots :: s.throttling == {} && s.eccCorrectable == 0 && s.eccUncorrectable == 0)
  {
    TimelineTypes(i, texts, "xid");
    TimelineTypes(i, texts, "ecc");
    TimelineTypes(i, texts, "throttle");
    OOMExact(i.trigger, i.related);
    CauseLiterals();
  }

  lemma CauseLiterals()
    ensures SoftwareOOM == "software_oom" && ThermalCascade == "thermal_cascade" && MemoryFailure == "memory_failure"
    ensures SoftwareOOM[0] == 's' && ThermalCascade[0] == 't' && MemoryFailure[0] == 'm' && Unknown[0] == 'u'
  {}

  /** An XID event is not lost from the timeline, whatever the trigger's type. */
  lemma XIDSurvives(i: Incident, texts: Texts)
    requires Built(i, texts) && Completed(i, texts) && Legible(i, texts) && AnyEvent(i, "xid")
    ensures "xid" in TypesOf(i.timeline)
  {
    TimelineTypes(i, texts, "xid");
  }

  /** With an XID event gathered, the cause is never software, finished or cancelled. */
  lemma XIDIsNotSoftware(i: Incident, texts: Texts)
    requires Built(i, texts) && Legible(i, texts) && AnyEvent(i, "xid")
    ensures i.causality != SoftwareOOM
  {
    if Completed(i, texts) { XIDSurvives(i, texts); }
  }

  // ---------- Causes by order ----------

  lemma LegibleSorted(i: Incident, texts: Texts, sorted: seq<Entry>)
    requires Built(i, texts) && Legible(i, texts) && SortOf(sorted, Entries(i, texts))
    ensures OwnKinds(Entries(i, texts)) && OwnKinds(sorted)
  {
    forall t | Hardware(t) ensures OwnKeys(Entries(i, texts), t) && OwnKeys(sorted, t) {
      LegibleOwnKeys(i, texts, t);
      SortedOwnKeys(sorted, Entries(i, texts), t);
    }
  }

  // What the causes say of the types on a timeline.
  lemma CauseMeans(types: seq<string>, oom: bool)
    ensures CausalityOf(types, oom) == ThermalCascade <==>
      Follows(types, "temp", "throttle") && Follows(types, "throttle", "xid")
    ensures CausalityOf(types, oom) == MemoryFailure <==>
      Follows(types, "ecc", "xid") && !(Follows(types, "temp", "throttle") && Follows(types, "throttle", "xid"))
  {
    assert ThermalCascade[0] == 't' && MemoryFailure[0] == 'm' && SoftwareOOM[0] == 's' && Unknown[0] == 'u';
  }

  lemma CausesSorted(sorted: seq<Entry>, oom: bool)
    requires OwnKeys(sorted, "temp") && OwnKeys(sorted, "throttle") && OwnKeys(sorted, "ecc")
    ensures CausalityOf(TypesOf(Dedup(sorted)), oom) == ThermalCascade <==>
      FollowsFirst(sorted, "temp", "throttle") && FollowsFirst(sorted, "throttle", "xid")
    ensures CausalityOf(TypesOf(Dedup(sorted)), oom) == MemoryFailure <==>
      FollowsFirst(sorted, "ecc", "xid") && CausalityOf(TypesOf(Dedup(sorted)), oom) != ThermalCascade
  {
    CauseMeans(TypesOf(Dedup(sorted)), oom);
    DedupOrderExact(sorted, "temp", "throttle");
    DedupOrderExact(sorted, "throttle", "xid");
    DedupOrderExact(sorted, "ecc", "xid");
  }

  lemma CausesGathered(i: Incident, texts: Texts)
    requires Built(i, texts) && Completed(i, texts) && Legible(i, texts)
    ensures i.causality == ThermalCascade ==> AnyEvent(i, "xid") && (AnyEvent(i, "temp") || AnyHot(i.snapshots))
    ensures i.causality == MemoryFailure ==> AnyEvent(i, "xid") && (AnyEvent(i, "ecc") || AnyECC(i.snapshots))
  {
    CauseMeans(TypesOf(i.timeline), HasOOM(i.trigger, i.related));
    TimelineTypes(i, texts, "xid");
    TimelineTypes(i, texts, "temp");
    TimelineTypes(i, texts, "ecc");
  }

  /**
    The order-based causes, on the sorted list itself: each link must end in an entry
    that repeats no earlier one.
   */
  lemma CascadesExact(i: Incident, texts: Texts, sorted: seq<Entry>)
    requires Built(i, texts) && Legible(i, texts)
    requires SortOf(sorted, Entries(i, texts)) && i.timeline == Dedup(sorted)
    requires i.causality == CausalityOf(TypesOf(i.timeline), HasOOM(i.trigger, i.related))
    ensures i.causality == ThermalCascade <==>
      FollowsFirst(sorted, "temp", "throttle") && FollowsFirst(sorted, "throttle", "xid")
    ensures i.causality == MemoryFailure <==>
      FollowsFirst(sorted, "ecc", "xid") && i.causality != ThermalCascade
    ensures i.causality == ThermalCascade ==> AnyEvent(i, "xid") && (AnyEvent(i, "temp") || AnyHot(i.snapshots))
    ensures i.causality == MemoryFailure ==> AnyEvent(i, "xid") && (AnyEvent(i, "ecc") || AnyECC(i.snapshots))
  {
    LegibleSorted(i, texts, sorted);
    CausesSorted(sorted, HasOOM(i.trigger, i.related));
    CausesGathered(i, texts);
  }

  // Entries of three plain kinds are all kept.
  lemma ThreeKinds(a: Entry, b: Entry, c: Entry)
    requires Plain(a.eventType) && Plain(b.eventType) && Plain(c.eventType)
    requires a.eventType != b.eventType && b.eventType != c.eventType && a.eventType != c.eventType
    ensures Dedup([a, b, c]) == [a, b, c]
  {
    DistinctKeys(a, b);
    DistinctKeys(b, c);
    DistinctKeys(a, c);
    assert [a, b, c][..2] == [a, b] && [a, b][..1] == [a] && [a][..0] == [];
    assert Dedup([a]) == [a] && Dedup([a, b]) == [a, b];
  }

  lemma DistinctKeys(a: Entry, b: Entry)
    requires Plain(a.eventType) && Plain(b.eventType) && a.eventType != b.eventType
    ensures Key(a) != Key(b)
  {
    if Key(a) == Key(b) { KeyDetermines(a.eventType, a.description, b.eventType, b.description); }
  }
}
