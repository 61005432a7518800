/** What equal times leave open: which orders of types, and so which causes, depend on the sort. */
module Ties {
  import opened Causality
  import opened Correlation
  import opened Incidents
  import opened Ring
  import opened Telemetry
  import opened Timelines
  import opened Watching
  import opened Wording
  import opened XIDCodes

  // ---------- Orders that every sort, or some sort, gives ----------

  // No entry with its key is earlier.
  ghost predicate EarliestOfKey(es: seq<Entry>, y: Entry) {
    y in es && forall z <- es :: Key(z) == Key(y) ==> y.timestamp <= z.timestamp
  }

  // Some `a` is earlier than some key of type `b` ever is: the least time of an `a` is
  // below the greatest, over the keys of type `b`, of a key's least time.
  ghost predicate Leads(es: seq<Entry>, a: string, b: string) {
    exists x, y :: x in es && EarliestOfKey(es, y) && x.eventType == a && y.eventType == b && x.timestamp < y.timestamp
  }

  // The same, or no later.
  ghost predicate MayLead(es: seq<Entry>, a: string, b: string) {
    exists x, y :: x in es && EarliestOfKey(es, y) && x.eventType == a && y.eventType == b && x.timestamp <= y.timestamp
  }

  // The order of types in the timeline that a sorted list becomes.
  ghost predicate Shown(sorted: seq<Entry>, a: string, b: string) {
    Follows(TypesOf(Dedup(sorted)), a, b)
  }

  lemma SameEarliest(s: seq<Entry>, t: seq<Entry>, y: Entry)
    requires forall e :: e in s <==> e in t
    ensures EarliestOfKey(s, y) <==> EarliestOfKey(t, y)
  {}

  lemma SameLeads(s: seq<Entry>, t: seq<Entry>, a: string, b: string)
    requires forall e :: e in s <==> e in t
    ensures Leads(s, a, b) <==> Leads(t, a, b)
    ensures MayLead(s, a, b) <==> MayLead(t, a, b)
  {
    forall y ensures EarliestOfKey(s, y) <==> EarliestOfKey(t, y) { SameEarliest(s, t, y); }
  }

  // The first entry of the key of an earliest one has its type and its time.
  lemma FirstIsEarliest(es: seq<Entry>, y: Entry) returns (f: nat)
    requires OwnKeys(es, y.eventType) && InTimeOrder(es) && EarliestOfKey(es, y)
    ensures f < |es| && FirstOfItsKey(es, f) && es[f].eventType == y.eventType && es[f].timestamp == y.timestamp
  {
    var q :| 0 <= q < |es| && es[q] == y;
    f := FirstWithKey(es, q);
    assert es[f] in es;
  }

  lemma LeadsShows(es: seq<Entry>, a: string, b: string)
    requires OwnKeys(es, b) && InTimeOrder(es) && Leads(es, a, b)
    ensures FollowsFirst(es, a, b)
  {
    var x, y :| x in es && EarliestOfKey(es, y) && x.eventType == a && y.eventType == b && x.timestamp < y.timestamp;
    var p :| 0 <= p < |es| && es[p] == x;
    var f := FirstIsEarliest(es, y);
    assert p <= f;
  }

  lemma EarliestThere(es: seq<Entry>, j: nat)
    requires InTimeOrder(es) && j < |es| && FirstOfItsKey(es, j)
    ensures EarliestOfKey(es, es[j])
  {
    forall z | z in es && Key(z) == Key(es[j]) ensures es[j].timestamp <= z.timestamp {
      var k :| 0 <= k < |es| && es[k] == z;
    }
  }

  lemma FollowsMayLead(es: seq<Entry>, a: string, b: string)
    requires InTimeOrder(es) && FollowsFirst(es, a, b)
    ensures MayLead(es, a, b)
  {
    var i: nat, j: nat :|
      i <= j < |es| && es[i].eventType == a && es[j].eventType == b && FirstOfItsKey(es, j);
    EarliestThere(es, j);
    assert es[i] in es;
  }

  // ---------- Sorts that break ties by type ----------

  type Rank = string -> nat

  predicate Ordered(x: Entry, y: Entry, rank: Rank) {
    x.timestamp < y.timestamp || (x.timestamp == y.timestamp && rank(x.eventType) <= rank(y.eventType))
  }

  ghost predicate Ranked(es: seq<Entry>, rank: Rank) {
    forall i, j :: 0 <= i < j < |es| ==> Ordered(es[i], es[j], rank)
  }

  lemma {:induction false} InsertRanked(s: seq<Entry>, e: Entry, rank: Rank) returns (r: seq<Entry>)
    requires Ranked(s, rank)
    ensures Ranked(r, rank) && multiset(r) == multiset(s) + multiset{e}
  {
    if s == [] || Ordered(s[|s| - 1], e, rank) {
      r := s + [e];
    } else {
      var front, last := s[..|s| - 1], s[|s| - 1];
      assert s == front + [last];
      var t := InsertRanked(front, e, rank);
      r := t + [last];
      forall i | 0 <= i < |t| ensures Ordered(t[i], last, rank) {
        assert t[i] in multiset(t);
        assert t[i] in front || t[i] == e;
      }
    }
  }

  lemma {:induction false} RankedSort(es: seq<Entry>, rank: Rank) returns (sorted: seq<Entry>)
    ensures SortOf(sorted, es) && Ranked(sorted, rank)
  {
    if es == [] {
      sorted := [];
    } else {
      var front, last := es[..|es| - 1], es[|es| - 1];
      assert es == front + [last];
      var t := RankedSort(front, rank);
      sorted := InsertRanked(t, last, rank);
    }
  }

  // With `a` ranked before `b`, an order that ties allow is there.
  lemma RankedShows(es: seq<Entry>, a: string, b: string, rank: Rank)
    requires OwnKeys(es, b) && InTimeOrder(es) && Ranked(es, rank) && rank(a) < rank(b) && MayLead(es, a, b)
    ensures FollowsFirst(es, a, b)
  {
    var x, y :| x in es && EarliestOfKey(es, y) && x.eventType == a && y.eventType == b && x.timestamp <= y.timestamp;
    var p :| 0 <= p < |es| && es[p] == x;
    var f := FirstIsEarliest(es, y);
    assert forall k :: 0 <= k < p ==> Ordered(es[k], es[p], rank);
    assert p <= f;
  }

  // With `b` ranked before `a`, only an order that no tie decides is there.
  lemma RankedHides(es: seq<Entry>, a: string, b: string, rank: Rank)
    requires InTimeOrder(es) && Ranked(es, rank) && rank(b) < rank(a) && FollowsFirst(es, a, b)
    ensures Leads(es, a, b)
  {
    var i: nat, j: nat :|
      i <= j < |es| && es[i].eventType == a && es[j].eventType == b && FirstOfItsKey(es, j);
    assert i != j;
    assert Ordered(es[i], es[j], rank);
    EarliestThere(es, j);
    assert es[i] in es;
  }

  // What a sort of the entries shows, in terms of the entries.
  lemma SortShows(es: seq<Entry>, sorted: seq<Entry>, a: string, b: string)
    requires OwnKeys(es, a) && OwnKeys(es, b) && SortOf(sorted, es)
    ensures OwnKeys(sorted, a) && OwnKeys(sorted, b)
    ensures Leads(es, a, b) ==> Shown(sorted, a, b)
    ensures Shown(sorted, a, b) ==> MayLead(es, a, b)
    ensures Shown(sorted, a, b) <==> FollowsFirst(sorted, a, b)
    ensures Leads(es, a, b) <==> Leads(sorted, a, b)
    ensures MayLead(es, a, b) <==> MayLead(sorted, a, b)
  {
    SameMembers(sorted, es);
    SameOwnKeys(sorted, es, a);
    SameOwnKeys(sorted, es, b);
    SameLeads(sorted, es, a, b);
    DedupOrderExact(sorted, a, b);
    if Leads(sorted, a, b) { LeadsShows(sorted, a, b); }
    if FollowsFirst(sorted, a, b) { FollowsMayLead(sorted, a, b); }
  }

  lemma RankedSortShows(es: seq<Entry>, sorted: seq<Entry>, a: string, b: string, rank: Rank)
    requires OwnKeys(es, a) && OwnKeys(es, b) && SortOf(sorted, es) && Ranked(sorted, rank)
    ensures rank(a) < rank(b) ==> (Shown(sorted, a, b) <==> MayLead(es, a, b))
    ensures rank(b) < rank(a) ==> (Shown(sorted, a, b) <==> Leads(es, a, b))
  {
    SortShows(es, sorted, a, b);
    if rank(a) < rank(b) && MayLead(sorted, a, b) { RankedShows(sorted, a, b, rank); }
    if rank(b) < rank(a) && FollowsFirst(sorted, a, b) { RankedHides(sorted, a, b, rank); }
  }

  function Only(first: string): Rank {
    t => if t == first then 0 else 1
  }

  /** An order of two types is in every timeline exactly when some `a` is earlier than some key of type `b` ever is. */
  lemma EverySort(es: seq<Entry>, a: string, b: string)
    requires OwnKeys(es, a) && OwnKeys(es, b) && a != b
    ensures (forall sorted: seq<Entry> :: SortOf(sorted, es) ==> Shown(sorted, a, b)) <==> Leads(es, a, b)
  {
    forall sorted: seq<Entry> | SortOf(sorted, es) ensures Leads(es, a, b) ==> Shown(sorted, a, b) {
      SortShows(es, sorted, a, b);
    }
    var hostile := RankedSort(es, Only(b));
    RankedSortShows(es, hostile, a, b, Only(b));
  }

  /** It is in some timeline exactly when some `a` is no later than some key of type `b` first is. */
  lemma SomeSort(es: seq<Entry>, a: string, b: string)
    requires OwnKeys(es, a) && OwnKeys(es, b) && a != b
    ensures (exists sorted: seq<Entry> :: SortOf(sorted, es) && Shown(sorted, a, b)) <==> MayLead(es, a, b)
  {
    forall sorted: seq<Entry> | SortOf(sorted, es) ensures Shown(sorted, a, b) ==> MayLead(es, a, b) {
      SortShows(es, sorted, a, b);
    }
    var friendly := RankedSort(es, Only(a));
    RankedSortShows(es, friendly, a, b, Only(a));
  }

  // ---------- Causes that every sort, or some sort, gives ----------

  // The cause named when the entries are sorted in this way.
  ghost function CauseOf(sorted: seq<Entry>, oom: bool): string {
    CausalityOf(TypesOf(Dedup(sorted)), oom)
  }

  ghost predicate CanBe(es: seq<Entry>, oom: bool, cause: string) {
    exists sorted: seq<Entry> :: SortOf(sorted, es) && CauseOf(sorted, oom) == cause
  }

  ghost predicate MustBe(es: seq<Entry>, oom: bool, cause: string) {
    forall sorted: seq<Entry> :: SortOf(sorted, es) ==> CauseOf(sorted, oom) == cause
  }

  ghost predicate LeadsToXID(es: seq<Entry>) {
    Leads(es, "temp", "throttle") && Leads(es, "throttle", "xid")
  }

  ghost predicate MayLeadToXID(es: seq<Entry>) {
    MayLead(es, "temp", "throttle") && MayLead(es, "throttle", "xid")
  }

  // Ties broken in favour of the thermal cascade, and against it.
  function Cascading(t: string): nat {
    if t == "temp" then 0 else if t == "throttle" then 1 else if t == "xid" then 2 else 3
  }

  function Reversed(t: string): nat {
    if t == "ecc" then 0 else if t == "xid" then 1 else if t == "throttle" then 2 else 3
  }

  lemma CauseShown(sorted: seq<Entry>, oom: bool)
    ensures CauseOf(sorted, oom) == ThermalCascade <==>
      Shown(sorted, "temp", "throttle") && Shown(sorted, "throttle", "xid")
    ensures CauseOf(sorted, oom) == MemoryFailure <==>
      Shown(sorted, "ecc", "xid") && !(Shown(sorted, "temp", "throttle") && Shown(sorted, "throttle", "xid"))
  {
    CauseMeans(TypesOf(Dedup(sorted)), oom);
  }

  // The cause that one sort gives lies between what must and what may lead.
  lemma CauseBounds(es: seq<Entry>, sorted: seq<Entry>, oom: bool)
    requires OwnKinds(es) && SortOf(sorted, es)
    ensures LeadsToXID(es) ==> CauseOf(sorted, oom) == ThermalCascade
    ensures CauseOf(sorted, oom) == ThermalCascade ==> MayLeadToXID(es)
    ensures Leads(es, "ecc", "xid") && !MayLeadToXID(es) ==> CauseOf(sorted, oom) == MemoryFailure
    ensures CauseOf(sorted, oom) == MemoryFailure ==> MayLead(es, "ecc", "xid") && !LeadsToXID(es)
  {
    SortShows(es, sorted, "temp", "throttle");
    SortShows(es, sorted, "throttle", "xid");
    SortShows(es, sorted, "ecc", "xid");
    CauseShown(sorted, oom);
  }

  lemma CascadingCause(es: seq<Entry>, oom: bool) returns (sorted: seq<Entry>)
    requires OwnKinds(es)
    ensures SortOf(sorted, es)
    ensures CauseOf(sorted, oom) == ThermalCascade <==> MayLeadToXID(es)
    ensures CauseOf(sorted, oom) == MemoryFailure <==> Leads(es, "ecc", "xid") && !MayLeadToXID(es)
  {
    sorted := RankedSort(es, Cascading);
    RankedSortShows(es, sorted, "temp", "throttle", Cascading);
    RankedSortShows(es, sorted, "throttle", "xid", Cascading);
    RankedSortShows(es, sorted, "ecc", "xid", Cascading);
    CauseShown(sorted, oom);
  }

  lemma ReversedCause(es: seq<Entry>, oom: bool) returns (sorted: seq<Entry>)
    requires OwnKinds(es)
    ensures SortOf(sorted, es)
    ensures CauseOf(sorted, oom) == ThermalCascade <==> LeadsToXID(es)
    ensures CauseOf(sorted, oom) == MemoryFailure <==> MayLead(es, "ecc", "xid") && !LeadsToXID(es)
  {
    sorted := RankedSort(es, Reversed);
    RankedSortShows(es, sorted, "temp", "throttle", Reversed);
    RankedSortShows(es, sorted, "throttle", "xid", Reversed);
    RankedSortShows(es, sorted, "ecc", "xid", Reversed);
    CauseShown(sorted, oom);
  }

  /** Which entries must, and which may, be called a thermal cascade. */
  lemma ThermalExact(es: seq<Entry>, oom: bool)
    requires OwnKinds(es)
    ensures MustBe(es, oom, ThermalCascade) <==> LeadsToXID(es)
    ensures CanBe(es, oom, ThermalCascade) <==> MayLeadToXID(es)
  {
    forall sorted: seq<Entry> | SortOf(sorted, es)
      ensures LeadsToXID(es) ==> CauseOf(sorted, oom) == ThermalCascade
      ensures CauseOf(sorted, oom) == ThermalCascade ==> MayLeadToXID(es)
    {
      CauseBounds(es, sorted, oom);
    }
    var friendly := CascadingCause(es, oom);
    var hostile := ReversedCause(es, oom);
  }

  /** Which must, and which may, be called a memory failure. */
  lemma MemoryExact(es: seq<Entry>, oom: bool)
    requires OwnKinds(es)
    ensures MustBe(es, oom, MemoryFailure) <==> Leads(es, "ecc", "xid") && !MayLeadToXID(es)
    ensures CanBe(es, oom, MemoryFailure) <==> MayLead(es, "ecc", "xid") && !LeadsToXID(es)
  {
    forall sorted: seq<Entry> | SortOf(sorted, es)
      ensures Leads(es, "ecc", "xid") && !MayLeadToXID(es) ==> CauseOf(sorted, oom) == MemoryFailure
      ensures CauseOf(sorted, oom) == MemoryFailure ==> MayLead(es, "ecc", "xid") && !LeadsToXID(es)
    {
      CauseBounds(es, sorted, oom);
    }
    var hostile := CascadingCause(es, oom);
    var friendly := ReversedCause(es, oom);
  }

  // Whether the cause is this one does not depend on the sort.
  ghost predicate Independent(es: seq<Entry>, oom: bool, cause: string) {
    CanBe(es, oom, cause) ==> MustBe(es, oom, cause)
  }

  /** For an incident: when its cause does not depend on how ties are sorted. */
  lemma IndependentExact(i: Incident, texts: Texts)
    requires Built(i, texts) && Legible(i, texts)
    ensures var es, oom := Entries(i, texts), HasOOM(i.trigger, i.related);
            && (Independent(es, oom, ThermalCascade) <==> (MayLeadToXID(es) ==> LeadsToXID(es)))
            && (Independent(es, oom, MemoryFailure) <==>
                  (MayLead(es, "ecc", "xid") && !LeadsToXID(es) ==> Leads(es, "ecc", "xid") && !MayLeadToXID(es)))
  {
    var es, oom := Entries(i, texts), HasOOM(i.trigger, i.related);
    var sorted := RankedSort(es, Cascading);
    LegibleSorted(i, texts, sorted);
    ThermalExact(es, oom);
    MemoryExact(es, oom);
  }

  // ---------- Ties that no sort can resolve ----------

  // A sort as a program has it: from the times alone, the positions in their new order.
  type Sort = seq<int> -> seq<nat>

  ghost predicate Orders(order: seq<nat>, times: seq<int>) {
    && |order| == |times| && (forall k :: 0 <= k < |order| ==> order[k] < |times|)
    && (forall j, k :: 0 <= j < k < |order| ==> order[j] != order[k])
    && (forall j, k :: 0 <= j < k < |order| ==> times[order[j]] <= times[order[k]])
  }

  ghost predicate Correct(sort: Sort) {
    forall times: seq<int> :: Orders(sort(times), times)
  }

  function TimesOf(es: seq<Entry>): (times: seq<int>)
    ensures |times| == |es| && forall k :: 0 <= k < |es| ==> times[k] == es[k].timestamp
  {
    seq(|es|, k requires 0 <= k < |es| => es[k].timestamp)
  }

  function Apply(order: seq<nat>, es: seq<Entry>): (r: seq<Entry>)
    requires forall k :: 0 <= k < |order| ==> order[k] < |es|
    ensures |r| == |order| && forall k :: 0 <= k < |order| ==> r[k] == es[order[k]]
  {
    seq(|order|, k requires 0 <= k < |order| => es[order[k]])
  }

  ghost function SortedBy(sort: Sort, es: seq<Entry>): seq<Entry>
    requires Correct(sort)
  {
    assert Orders(sort(TimesOf(es)), TimesOf(es));
    Apply(sort(TimesOf(es)), es)
  }

  // Two GPUs sampled in the same round, one hot and one throttled, and then a bus error.
  const HotGPU := Snapshot(0, 0, "GPU-0", 90, 95, 0, 0, {}, 0, 0)
  const SlowGPU := Snapshot(0, 1, "GPU-1", 40, 95, 0, 0, {0}, 0, 0)
  const BusError := FromXID(XIDEvent(1, 79, "", "", Description(79)))

  // The incident, with the recorder's map visited in this order, and sorted by this sort.
  ghost function Finished(sort: Sort, texts: Texts, first: Snapshot, second: Snapshot): Incident
    requires Correct(sort)
  {
    var i := Incident(1, BusError, [], [first, second], [], "");
    var timeline := Dedup(SortedBy(sort, Entries(i, texts)));
    i.(timeline := timeline, causality := CausalityOf(TypesOf(timeline), false))
  }

  lemma PairEntries(texts: Texts, first: Snapshot, second: Snapshot, timeline: seq<Entry>, causality: string)
    ensures Entries(Incident(1, BusError, [], [first, second], timeline, causality), texts) ==
            [EntryOf(BusError, texts)] + StateEntries(first, texts) + StateEntries(second, texts)
  {
    PairStates(texts, first, second);
    var all := SnapshotEntries([first, second], texts);
    var one, two := StateEntries(first, texts), StateEntries(second, texts);
    assert [EntryOf(BusError, texts)] + [] + all == [EntryOf(BusError, texts)] + one + two;
  }

  lemma PairStates(texts: Texts, first: Snapshot, second: Snapshot)
    ensures SnapshotEntries([first, second], texts) == StateEntries(first, texts) + StateEntries(second, texts)
  {
    assert [first, second][..1] == [first] && [first][..0] == [];
    assert SnapshotEntries([first], texts) == SnapshotEntries([], texts) + StateEntries(first, texts);
    assert [] + StateEntries(first, texts) == StateEntries(first, texts);
  }

  // Of times 1, 0, 0 a sort puts the first last, and the other two in either order.
  lemma TwoOrders(order: seq<nat>)
    requires Orders(order, [1, 0, 0])
    ensures order == [1, 2, 0] || order == [2, 1, 0]
  {
    assert order == [order[0], order[1], order[2]];
    assert [1, 0, 0][order[0]] <= [1, 0, 0][order[1]] <= [1, 0, 0][order[2]];
  }

  lemma ThreeSorted(sort: Sort, x: Entry, a: Entry, b: Entry)
    requires Correct(sort) && x.timestamp == 1 && a.timestamp == b.timestamp == 0
    ensures sort([1, 0, 0]) == [1, 2, 0] || sort([1, 0, 0]) == [2, 1, 0]
    ensures SortedBy(sort, [x, a, b]) == if sort([1, 0, 0]) == [1, 2, 0] then [a, b, x] else [b, a, x]
  {
    assert TimesOf([x, a, b]) == [1, 0, 0];
    assert Orders(sort([1, 0, 0]), [1, 0, 0]);
    TwoOrders(sort([1, 0, 0]));
  }

  lemma Rotated(x: Entry, a: Entry, b: Entry)
    ensures multiset([a, b, x]) == multiset([x, a, b])
  {
    assert [a, b, x] == [a, b] + [x] && [x, a, b] == [x] + [a, b];
  }

  lemma Exchanged(x: Entry, a: Entry, b: Entry)
    ensures multiset([x, b, a]) == multiset([x, a, b])
  {
    assert [x, b, a] == [x] + ([b] + [a]) && [x, a, b] == [x] + ([a] + [b]);
  }

  lemma InOrder(a: Entry, b: Entry, x: Entry)
    requires a.timestamp <= b.timestamp <= x.timestamp
    ensures InTimeOrder([a, b, x])
  {}

  lemma SortsThem(x: Entry, a: Entry, b: Entry)
    requires x.timestamp == 1 && a.timestamp == b.timestamp == 0
    ensures SortOf([a, b, x], [x, a, b]) && SortOf([b, a, x], [x, a, b])
  {
    InOrder(a, b, x);
    InOrder(b, a, x);
    Rotated(x, a, b);
    Rotated(x, b, a);
    Exchanged(x, a, b);
  }

  lemma CausesOfOrders()
    ensures CausalityOf(["temp", "throttle", "xid"], false) == ThermalCascade
    ensures CausalityOf(["throttle", "temp", "xid"], false) == Unknown
  {
    var t, u := ["temp", "throttle", "xid"], ["throttle", "temp", "xid"];
    assert t[0] == "temp" && t[1] == "throttle" && t[2] == "xid";
    assert u[0] == "throttle" && u[1] == "temp" && u[2] == "xid";
  }

  lemma CauseOfThree(a: Entry, b: Entry, x: Entry)
    requires a.eventType == "temp" && b.eventType == "throttle" && x.eventType == "xid"
    ensures CauseOf([a, b, x], false) == ThermalCascade && CauseOf([b, a, x], false) == Unknown
  {
    ThreeKinds(a, b, x);
    ThreeKinds(b, a, x);
    assert TypesOf([a, b, x]) == ["temp", "throttle", "xid"];
    assert TypesOf([b, a, x]) == ["throttle", "temp", "xid"];
    CausesOfOrders();
  }

  lemma OrderSorted(sort: Sort, texts: Texts, first: Snapshot, second: Snapshot, a: Entry, b: Entry)
    requires Correct(sort) && StateEntries(first, texts) == [a] && StateEntries(second, texts) == [b]
    requires a.timestamp == b.timestamp == 0
    ensures var i, x := Finished(sort, texts, first, second), EntryOf(BusError, texts);
            && Entries(i, texts) == [x, a, b]
            && i.timeline == Dedup(if sort([1, 0, 0]) == [1, 2, 0] then [a, b, x] else [b, a, x])
  {
    var i, x := Finished(sort, texts, first, second), EntryOf(BusError, texts);
    PairEntries(texts, first, second, [], "");
    PairEntries(texts, first, second, i.timeline, i.causality);
    assert [x] + [a] + [b] == [x, a, b];
    ThreeSorted(sort, x, a, b);
  }

  // One order of the GPUs: a finished incident, whose cause is that of its sorted entries.
  lemma OneOrder(sort: Sort, texts: Texts, first: Snapshot, second: Snapshot, a: Entry, b: Entry)
    requires Correct(sort) && StateEntries(first, texts) == [a] && StateEntries(second, texts) == [b]
    requires a.timestamp == b.timestamp == 0
    ensures var i, x := Finished(sort, texts, first, second), EntryOf(BusError, texts);
            && Built(i, texts) && Completed(i, texts)
            && i.causality == CauseOf(if sort([1, 0, 0]) == [1, 2, 0] then [a, b, x] else [b, a, x], false)
  {
    var i, x := Finished(sort, texts, first, second), EntryOf(BusError, texts);
    OrderSorted(sort, texts, first, second, a, b);
    SortsThem(x, a, b);
    FinishedFrom(i, texts, if sort([1, 0, 0]) == [1, 2, 0] then [a, b, x] else [b, a, x]);
  }

  lemma FinishedFrom(i: Incident, texts: Texts, sorted: seq<Entry>)
    requires i.trigger == BusError && i.timestamp == 1 && i.related == []
    requires SortOf(sorted, Entries(i, texts)) && i.timeline == Dedup(sorted)
    requires i.causality == CausalityOf(TypesOf(i.timeline), false)
    ensures Built(i, texts) && Completed(i, texts) && i.causality == CauseOf(sorted, false)
  {
    assert TimelineFor(i.timeline, Entries(i, texts));
  }

  /**
    Whatever sort the program uses, the order in which a map of GPUs is visited decides
    between a thermal cascade and no cause at all: the two incidents hold the same events
    and, of each GPU, the same snapshots.
   */
  lemma MapOrderDecides(sort: Sort, texts: Texts)
    requires Correct(sort)
    ensures var one, two := Finished(sort, texts, HotGPU, SlowGPU), Finished(sort, texts, SlowGPU, HotGPU);
            && Built(one, texts) && Completed(one, texts) && Built(two, texts) && Completed(two, texts)
            && one.trigger == two.trigger && one.related == two.related
            && (forall u: string :: Filter(one.snapshots, OfGPU(u)) == Filter(two.snapshots, OfGPU(u)))
            && one.causality != two.causality
            && {one.causality, two.causality} == {ThermalCascade, Unknown}
  {
    var a, b := Entry(0, "temp", texts.temp(HotGPU)), Entry(0, "throttle", texts.throttle(SlowGPU));
    assert StateEntries(HotGPU, texts) == [a] && StateEntries(SlowGPU, texts) == [b];
    OneOrder(sort, texts, HotGPU, SlowGPU, a, b);
    OneOrder(sort, texts, SlowGPU, HotGPU, b, a);
    CauseOfThree(a, b, EntryOf(BusError, texts));
    assert ThermalCascade[0] == 't' && Unknown[0] == 'u';
    forall u: string ensures Filter([HotGPU, SlowGPU], OfGPU(u)) == Filter([SlowGPU, HotGPU], OfGPU(u)) {
      EitherOrder(u);
    }
  }

  lemma EitherOrder(u: string)
    ensures Filter([HotGPU, SlowGPU], OfGPU(u)) == Filter([SlowGPU, HotGPU], OfGPU(u))
  {
    FilterConcat([HotGPU], [SlowGPU], OfGPU(u));
    FilterConcat([SlowGPU], [HotGPU], OfGPU(u));
    assert [HotGPU] + [SlowGPU] == [HotGPU, SlowGPU] && [SlowGPU] + [HotGPU] == [SlowGPU, HotGPU];
    assert u == HotGPU.uuid ==> u != SlowGPU.uuid;
    if u != HotGPU.uuid { FilterNone([HotGPU], OfGPU(u)); }
    if u != SlowGPU.uuid { FilterNone([SlowGPU], OfGPU(u)); }
  }
}
