/** The flight recorder of pkg/blackbox/recorder.go: one ring buffer per GPU. */
module Recording {
  import opened Basics
  import opened Ring
  import opened Telemetry

  const MinInterval := Second
  const MinRetention := 60 * Second
  const MaxRetention := 7200 * Second

  datatype Config = Config(interval: int, retention: int)

  predicate Validate(c: Config) {
    c.interval >= MinInterval && MinRetention <= c.retention <= MaxRetention && c.retention >= c.interval
  }

  function BufferCapacity(c: Config): (capacity: int)
    ensures Validate(c) ==> capacity >= 1
    ensures c.interval > 0 && c.retention >= 0 ==>
      capacity * c.interval <= c.retention < (capacity + 1) * c.interval
    ensures c.interval <= 0 ==> capacity == 0
  {
    if c.interval <= 0 then 0
    else if c.retention < 0 then -(-c.retention / c.interval)
    else c.retention / c.interval
  }

  /** The limits of a valid configuration, in nanoseconds: one second, and from a minute to two hours. */
  lemma ValidateExact(c: Config)
    ensures Validate(c) <==>
      c.interval >= 1_000_000_000 && 60_000_000_000 <= c.retention <= 7_200_000_000_000 && c.interval <= c.retention
  {}

  // Snapshots by GPU.
  type Log = map<string, seq<Snapshot>>

  // ---------- What the recorder has seen of one GPU ----------

  // The samples of one round that belong to the GPU, in device order.
  function RoundFor(readings: seq<Option<Snapshot>>, now: int, uuid: string): seq<Snapshot> {
    if readings == [] then []
    else
      var i := |readings| - 1;
      var earlier := RoundFor(readings[..i], now, uuid);
      if readings[i].Some? && readings[i].value.uuid == uuid
      then earlier + [readings[i].value.(timestamp := now, index := i)]
      else earlier
  }

  // The devices whose readings those are.
  ghost function RoundAt(readings: seq<Option<Snapshot>>, uuid: string): seq<nat> {
    if readings == [] then []
    else
      var i := |readings| - 1;
      RoundAt(readings[..i], uuid)
      + if readings[i].Some? && readings[i].value.uuid == uuid then [i] else []
  }

  // The samples are those of these devices, which are all that read the GPU.
  ghost predicate RoundOf(
      readings: seq<Option<Snapshot>>, now: int, uuid: string, at: seq<nat>, samples: seq<Snapshot>)
  {
    && |at| == |samples| && (forall j, k :: 0 <= j < k < |at| ==> at[j] < at[k])
    && (forall j :: 0 <= j < |at| ==> SampleOf(readings, now, uuid, at[j], samples[j]))
    && (forall k: nat :: k < |readings| && readings[k].Some? && readings[k].value.uuid == uuid ==> k in at)
  }

  // The sample is what device k read of the GPU, with the round's time and the device's number.
  predicate SampleOf(readings: seq<Option<Snapshot>>, now: int, uuid: string, k: nat, sample: Snapshot) {
    && k < |readings| && readings[k].Some? && readings[k].value.uuid == uuid
    && sample == readings[k].value.(timestamp := now, index := k)
  }

  lemma RoundPasses(
      readings: seq<Option<Snapshot>>, last: Option<Snapshot>, now: int, uuid: string,
      at: seq<nat>, samples: seq<Snapshot>)
    requires RoundOf(readings, now, uuid, at, samples) && !(last.Some? && last.value.uuid == uuid)
    ensures RoundOf(readings + [last], now, uuid, at, samples)
  {
    var longer := readings + [last];
    forall j | 0 <= j < |at| ensures SampleOf(longer, now, uuid, at[j], samples[j]) {
      assert SampleOf(readings, now, uuid, at[j], samples[j]) && longer[at[j]] == readings[at[j]];
    }
  }

  lemma RoundTakes(
      readings: seq<Option<Snapshot>>, x: Snapshot, now: int, at: seq<nat>, samples: seq<Snapshot>)
    requires RoundOf(readings, now, x.uuid, at, samples)
    ensures RoundOf(readings + [Some(x)], now, x.uuid, at + [|readings|],
                    samples + [x.(timestamp := now, index := |readings|)])
  {
    var n, longer := |readings|, readings + [Some(x)];
    var places, all := at + [n], samples + [x.(timestamp := now, index := n)];
    forall j | 0 <= j < |places| ensures SampleOf(longer, now, x.uuid, places[j], all[j]) {
      if j < |at| { assert SampleOf(readings, now, x.uuid, at[j], samples[j]) && longer[at[j]] == readings[at[j]]; }
    }
    forall k: nat | k < |longer| && longer[k].Some? && longer[k].value.uuid == x.uuid ensures k in places {
      if k < n { assert longer[k] == readings[k] && k in at; } else { assert places[|at|] == n; }
    }
  }

  /**
    A round's samples of one GPU: one for each device that read it, in their order, with
    the round's time and the device's number, and otherwise as they were read.
   */
  lemma {:induction false} RoundExact(readings: seq<Option<Snapshot>>, now: int, uuid: string)
    ensures RoundOf(readings, now, uuid, RoundAt(readings, uuid), RoundFor(readings, now, uuid))
  {
    if readings != [] {
      var front, last := readings[..|readings| - 1], readings[|readings| - 1];
      assert readings == front + [last];
      RoundExact(front, now, uuid);
      if last.Some? && last.value.uuid == uuid {
        RoundTakes(front, last.value, now, RoundAt(front, uuid), RoundFor(front, now, uuid));
      } else {
        RoundPasses(front, last, now, uuid, RoundAt(front, uuid), RoundFor(front, now, uuid));
      }
    }
  }

  // Snapshots of this GPU only, in order of time, none after `last`.
  ghost predicate Timeline(s: seq<Snapshot>, uuid: string, last: int) {
    s == [] ||
    var n := |s| - 1;
    s[n].uuid == uuid && s[n].timestamp <= last && Timeline(s[..n], uuid, s[n].timestamp)
  }

  lemma {:induction false} TimelineMeans(s: seq<Snapshot>, uuid: string, last: int)
    ensures Timeline(s, uuid, last) <==>
      && (forall i :: 0 <= i < |s| ==> s[i].uuid == uuid && s[i].timestamp <= last)
      && (forall i, j :: 0 <= i < j < |s| ==> s[i].timestamp <= s[j].timestamp)
  {
    if s != [] {
      TimelineMeans(s[..|s| - 1], uuid, s[|s| - 1].timestamp);
      assert forall i :: 0 <= i < |s| - 1 ==> s[..|s| - 1][i] == s[i];
    }
  }

  function Stamp(s: Snapshot): int {
    s.timestamp
  }

  // The retained snapshots taken at `since` or later.
  function Window(s: seq<Snapshot>, capacity: nat, since: int): seq<Snapshot> {
    Filter(LastN(s, capacity), AtOrAfter(since, Stamp))
  }

  // All snapshots are of this GPU.
  ghost predicate Belong(snapshots: seq<Snapshot>, uuid: string) {
    snapshots == [] ||
    var n := |snapshots| - 1;
    snapshots[n].uuid == uuid && Belong(snapshots[..n], uuid)
  }

  lemma {:induction false} BelongMeans(snapshots: seq<Snapshot>, uuid: string)
    ensures Belong(snapshots, uuid) <==> forall s <- snapshots :: s.uuid == uuid
  {
    if snapshots != [] {
      var n := |snapshots| - 1;
      BelongMeans(snapshots[..n], uuid);
      assert snapshots == snapshots[..n] + [snapshots[n]];
    }
  }

  lemma WindowBelongs(s: seq<Snapshot>, uuid: string, last: int, capacity: nat, since: int)
    requires Timeline(s, uuid, last)
    ensures Belong(Window(s, capacity, since), uuid)
  {
    TimelineMeans(s, uuid, last);
    BelongMeans(Window(s, capacity, since), uuid);
    forall x | x in Window(s, capacity, since) ensures x.uuid == uuid {
      FilterIn(LastN(s, capacity), AtOrAfter(since, Stamp), x);
      assert x in s;
    }
  }

  // The GPU's window is in the map exactly when there is anything in it.
  ghost predicate Fetched(r: Log, taken: Log, capacity: nat, since: int, u: string) {
    var window := Window(TimelineOf(taken, u), capacity, since);
    Lookup(r, u) == if window == [] then None else Some(window)
  }

  ghost predicate WindowOf(r: Log, taken: Log, capacity: nat, since: int, u: string) {
    Fetched(r, taken, capacity, since, u) && Belong(Window(TimelineOf(taken, u), capacity, since), u)
  }

  // The windows of all GPUs that have anything in theirs, each of its own GPU's snapshots.
  ghost predicate AreWindows(r: Log, taken: Log, capacity: nat, since: int) {
    forall u {:trigger WindowOf(r, taken, capacity, since, u)} {:trigger TimelineOf(taken, u)} ::
      WindowOf(r, taken, capacity, since, u)
  }

  // The same while the GPUs in `left` are still to be visited.
  ghost predicate WindowsExcept(r: Log, taken: Log, capacity: nat, since: int, left: set<string>) {
    forall u :: LeftOrWindowOf(r, taken, capacity, since, left, u)
  }

  ghost predicate LeftOrWindowOf(r: Log, taken: Log, capacity: nat, since: int, left: set<string>, u: string) {
    if u in left then u !in r else Fetched(r, taken, capacity, since, u)
  }

  lemma NoneLeft(r: Log, taken: Log, last: int, capacity: nat, since: int)
    requires Timelines(taken, last) && WindowsExcept(r, taken, capacity, since, {})
    ensures AreWindows(r, taken, capacity, since)
  {
    forall u ensures WindowOf(r, taken, capacity, since, u) {
      assert LeftOrWindowOf(r, taken, capacity, since, {}, u);
      if u in taken { WindowBelongs(taken[u], u, last, capacity, since); }
    }
  }

  lemma NoWindowsYet(taken: Log, capacity: nat, since: int)
    ensures WindowsExcept(map[], taken, capacity, since, taken.Keys)
  {}

  // A window is kept when there is anything in it.
  method WithWindow(
      r: Log, uuid: string, found: Option<seq<Snapshot>>,
      ghost taken: Log, ghost capacity: nat, ghost since: int, ghost left: set<string>)
    returns (after: Log)
    requires uuid in left && uuid in taken && WindowsExcept(r, taken, capacity, since, left)
    requires found == Some(Window(taken[uuid], capacity, since))
    ensures WindowsExcept(after, taken, capacity, since, left - {uuid})
  {
    after := r;
    if |found.value| > 0 {
      after := r[uuid := found.value];
    }
    forall u ensures LeftOrWindowOf(after, taken, capacity, since, left - {uuid}, u) {
      assert LeftOrWindowOf(r, taken, capacity, since, left, u);
    }
  }

  // In a timeline, cutting at the first snapshot of a window gives the window.
  lemma WindowExact(s: seq<Snapshot>, uuid: string, last: int, capacity: nat, since: int)
    requires Timeline(s, uuid, last)
    ensures From(LastN(s, capacity), since, Stamp) == Window(s, capacity, since)
  {
    var kept := LastN(s, capacity);
    TimelineMeans(s, uuid, last);
    assert forall i, j :: 0 <= i < j < |kept| ==> kept[i].timestamp <= kept[j].timestamp;
    FromIsWindow(kept, since, Stamp);
  }

  /** The window of a timeline is what is retained from the first snapshot at `since` or later on. */
  lemma WindowCut(s: seq<Snapshot>, uuid: string, last: int, capacity: nat, since: int) returns (k: nat)
    requires Timeline(s, uuid, last)
    ensures var kept := LastN(s, capacity);
            && k <= |kept| && Window(s, capacity, since) == kept[k..]
            && forall j :: 0 <= j < |kept| ==> (kept[j].timestamp >= since <==> j >= k)
  {
    var kept := LastN(s, capacity);
    WindowExact(s, uuid, last, capacity, since);
    TimelineMeans(s, uuid, last);
    k := FromCut(kept, since, Stamp);
    assert forall i, j :: 0 <= i < j < |kept| ==> kept[i].timestamp <= kept[j].timestamp;
    var at: Snapshot -> int := Stamp;
    assert forall j :: 0 <= j < |kept| ==> at(kept[j]) == kept[j].timestamp;
  }

  /** Of all timelines, the non-empty windows: of each GPU exactly its retained snapshots at `since` or later. */
  lemma WindowsExact(r: Log, taken: Log, capacity: nat, since: int, last: int, u: string)
    requires AreWindows(r, taken, capacity, since) && Timelines(taken, last)
    ensures u in r ==> u in taken && r[u] != []
    ensures forall s: Snapshot :: (u in r && s in r[u]) <==>
      u in taken && s in LastN(taken[u], capacity) && s.timestamp >= since
  {
    assert WindowOf(r, taken, capacity, since, u);
    var kept := LastN(TimelineOf(taken, u), capacity);
    forall s: Snapshot
      ensures s in Window(TimelineOf(taken, u), capacity, since) <==> s in kept && s.timestamp >= since
    {
      FilterIn(kept, AtOrAfter(since, Stamp), s);
      var at: Snapshot -> int := Stamp;
      assert at(s) == s.timestamp;
    }
  }

  lemma TimelineGrows(s: seq<Snapshot>, uuid: string, last: int, x: Snapshot)
    requires Timeline(s, uuid, last) && x.uuid == uuid && x.timestamp == last
    ensures Timeline(s + [x], uuid, last)
  {
    assert (s + [x])[..|s|] == s;
  }

  // What a GPU's timeline is in a record of them all; empty for a GPU not tracked.
  function TimelineOf(taken: Log, uuid: string): seq<Snapshot> {
    if uuid in taken then taken[uuid] else []
  }

  ghost predicate Timelines(taken: Log, last: int) {
    forall u <- taken :: Timeline(taken[u], u, last)
  }

  lemma TimelinesGrow(taken: Log, last: int, x: Snapshot)
    requires Timelines(taken, last) && x.timestamp == last
    ensures Timelines(Given(taken, x), last)
  {
    TimelineGrows(TimelineOf(taken, x.uuid), x.uuid, last, x);
  }

  // The record after one snapshot, after the first n devices of a round, and
  // after the first n GPUs of a discovery.
  function Given(taken: Log, x: Snapshot): Log {
    taken[x.uuid := TimelineOf(taken, x.uuid) + [x]]
  }

  function Sampled(taken: Log, readings: seq<Option<Snapshot>>, now: int, n: nat): Log
    requires n <= |readings|
  {
    if n == 0 then taken
    else
      var earlier := Sampled(taken, readings, now, n - 1);
      if readings[n - 1].None? then earlier
      else Given(earlier, readings[n - 1].value.(timestamp := now, index := n - 1))
  }

  function Discovered(taken: Log, uuids: seq<Option<string>>, n: nat): Log
    requires n <= |uuids|
  {
    if n == 0 then taken
    else
      var earlier := Discovered(taken, uuids, n - 1);
      if uuids[n - 1].Some? then earlier[uuids[n - 1].value := []] else earlier
  }

  lemma TimelinesLater(taken: Log, last: int, now: int)
    requires Timelines(taken, last) && last <= now
    ensures Timelines(taken, now)
  {}

  /** A round gives each GPU its own samples and keeps every timeline in order. */
  lemma {:induction false} RoundGiven(taken: Log, readings: seq<Option<Snapshot>>, now: int, n: nat, uuid: string)
    requires n <= |readings| && Timelines(taken, now)
    ensures TimelineOf(Sampled(taken, readings, now, n), uuid) ==
            TimelineOf(taken, uuid) + RoundFor(readings[..n], now, uuid)
    ensures Timelines(Sampled(taken, readings, now, n), now)
  {
    if n > 0 {
      RoundGiven(taken, readings, now, n - 1, uuid);
      assert readings[..n][..n - 1] == readings[..n - 1];
      if readings[n - 1].Some? {
        var x := readings[n - 1].value.(timestamp := now, index := n - 1);
        TimelinesGrow(Sampled(taken, readings, now, n - 1), now, x);
      }
    }
  }

  lemma {:induction false} DiscoveryGiven(taken: Log, uuids: seq<Option<string>>, n: nat, uuid: string)
    requires n <= |uuids|
    ensures TimelineOf(Discovered(taken, uuids, n), uuid) ==
            if Some(uuid) in uuids[..n] then [] else TimelineOf(taken, uuid)
    ensures uuid in Discovered(taken, uuids, n) <==> uuid in taken || Some(uuid) in uuids[..n]
  {
    if n > 0 {
      DiscoveryGiven(taken, uuids, n - 1, uuid);
      assert uuids[..n] == uuids[..n - 1] + [uuids[n - 1]];
    }
  }

  lemma {:induction false} DiscoveryOrdered(taken: Log, uuids: seq<Option<string>>, n: nat, last: int)
    requires n <= |uuids| && Timelines(taken, last)
    ensures Timelines(Discovered(taken, uuids, n), last)
  {
    if n > 0 { DiscoveryOrdered(taken, uuids, n - 1, last); }
  }

  lemma WholeRound(taken: Log, readings: seq<Option<Snapshot>>, now: int)
    requires Timelines(taken, now)
    ensures var after := Sampled(taken, readings, now, |readings|);
            && Timelines(after, now)
            && forall u :: TimelineOf(after, u) == TimelineOf(taken, u) + RoundFor(readings, now, u)
  {
    var after := Sampled(taken, readings, now, |readings|);
    assert readings[..|readings|] == readings;
    RoundGiven(taken, readings, now, |readings|, "");
    forall u ensures TimelineOf(after, u) == TimelineOf(taken, u) + RoundFor(readings, now, u) {
      RoundGiven(taken, readings, now, |readings|, u);
    }
  }

  lemma WholeDiscovery(taken: Log, uuids: seq<Option<string>>, last: int)
    requires Timelines(taken, last)
    ensures var after := Discovered(taken, uuids, |uuids|);
            && Timelines(after, last)
            && (forall u :: TimelineOf(after, u) == if Some(u) in uuids then [] else TimelineOf(taken, u))
            && forall u :: u in after <==> u in taken || Some(u) in uuids
  {
    assert uuids[..|uuids|] == uuids;
    DiscoveryOrdered(taken, uuids, |uuids|, last);
    forall u
      ensures TimelineOf(Discovered(taken, uuids, |uuids|), u) == if Some(u) in uuids then [] else TimelineOf(taken, u)
      ensures u in Discovered(taken, uuids, |uuids|) <==> u in taken || Some(u) in uuids
    {
      DiscoveryGiven(taken, uuids, |uuids|, u);
    }
  }

  // ---------- The recorder ----------

  class Recorder {
    const capacity: nat
    var gpuBuffers: map<string, RingBuffer<Snapshot>>
    // Every snapshot taken of each GPU since it was discovered.
    ghost var taken: Log
    // The instant of the latest sampling round.
    ghost var lastRound: int
    // The buffers and their arrays.
    ghost var Repr: set<object>

    // Every buffer is a sound one of its own, and was given its GPU's snapshots.
    ghost predicate Separate()
      reads this, Repr
    {
      && capacity >= 1 && this !in Repr && taken.Keys == gpuBuffers.Keys
      && (forall u <- gpuBuffers ::
            && gpuBuffers[u] in Repr && gpuBuffers[u].data in Repr
            && gpuBuffers[u].Valid() && gpuBuffers[u].capacity == capacity
            && gpuBuffers[u].added == taken[u])
      && (forall u, v | u in gpuBuffers && v in gpuBuffers && u != v ::
            gpuBuffers[u] != gpuBuffers[v] && gpuBuffers[u].data != gpuBuffers[v].data)
    }

    // Each timeline is its own GPU's, in order of time.
    ghost predicate Valid()
      reads this, Repr
    {
      Separate() && Timelines(taken, lastRound)
    }

    constructor (c: Config, start: int)
      requires Validate(c)
      ensures Valid() && fresh(Repr) && capacity == BufferCapacity(c) && taken == map[] && lastRound == start
    {
      capacity := BufferCapacity(c);
      gpuBuffers := map[];
      taken := map[];
      lastRound := start;
      Repr := {};
    }

    // Gives the GPU a new, empty buffer.
    method Track(uuid: string)
      requires Separate()
      modifies this`gpuBuffers, this`Repr, this`taken
      ensures Separate() && fresh(Repr - old(Repr))
      ensures taken == old(taken)[uuid := []]
    {
      var buf := new RingBuffer<Snapshot>(capacity);
      gpuBuffers := gpuBuffers[uuid := buf];
      taken := taken[uuid := []];
      Repr := Repr + {buf, buf.data};
    }

    /** Gives every GPU found a new, empty buffer; devices that cannot be read are passed over. */
    method DiscoverGPUs(uuids: seq<Option<string>>)
      requires Valid()
      modifies this`gpuBuffers, this`Repr, this`taken
      ensures Valid() && fresh(Repr - old(Repr))
      ensures forall u :: TimelineOf(taken, u) == if Some(u) in uuids then [] else TimelineOf(old(taken), u)
      ensures forall u :: u in taken <==> u in old(taken) || Some(u) in uuids
    {
      for i := 0 to |uuids|
        invariant Separate() && fresh(Repr - old(Repr))
        invariant taken == Discovered(old(taken), uuids, i)
      {
        if uuids[i].Some? {
          Track(uuids[i].value);
        }
      }
      WholeDiscovery(old(taken), uuids, lastRound);
    }

    method Append(snap: Snapshot)
      requires Separate() && snap.uuid in gpuBuffers
      modifies Repr, this`taken
      ensures Separate() && taken == old(taken)[snap.uuid := old(taken)[snap.uuid] + [snap]]
    {
      var buf := gpuBuffers[snap.uuid];
      buf.Add(snap);
      taken := taken[snap.uuid := taken[snap.uuid] + [snap]];
    }

    // Stores one snapshot; a GPU not seen before gets a buffer first.
    method Store(snap: Snapshot)
      requires Separate()
      modifies this`gpuBuffers, this`Repr, this`taken, Repr
      ensures Separate() && fresh(Repr - old(Repr))
      ensures taken == Given(old(taken), snap)
    {
      hide Timeline, LastN, Held;
      if snap.uuid !in gpuBuffers {
        Track(snap.uuid);
      }
      Append(snap);
    }

    // Stores one device's reading, if there is one.
    method StoreReading(reading: Option<Snapshot>, index: nat, now: int)
      requires Separate()
      modifies this`gpuBuffers, this`Repr, this`taken, Repr
      ensures Separate() && fresh(Repr - old(Repr))
      ensures taken == if reading.None? then old(taken)
                       else Given(old(taken), reading.value.(timestamp := now, index := index))
    {
      if reading.Some? {
        Store(reading.value.(timestamp := now, index := index));
      }
    }

    // The device loop of a round.
    method StoreRound(readings: seq<Option<Snapshot>>, now: int)
      requires Separate()
      modifies this`gpuBuffers, this`Repr, this`taken, Repr
      ensures Separate() && fresh(Repr - old(Repr))
      ensures taken == Sampled(old(taken), readings, now, |readings|)
    {
      hide Given, Timeline, Timelines;
      for i := 0 to |readings|
        invariant Separate() && fresh(Repr - old(Repr))
        invariant taken == Sampled(old(taken), readings, now, i)
      {
        StoreReading(readings[i], i, now);
      }
    }

    /**
      One sampling round at `now`: every device that can be read adds one snapshot,
      stamped `now`, to its own GPU's timeline and to no other.
     */
    method SampleAllGPUs(readings: seq<Option<Snapshot>>, now: int)
      requires Valid() && lastRound <= now
      modifies this, Repr
      ensures Valid() && lastRound == now && fresh(Repr - old(Repr))
      ensures forall u :: TimelineOf(taken, u) == TimelineOf(old(taken), u) + RoundFor(readings, now, u)
    {
      TimelinesLater(taken, lastRound, now);
      WholeRound(taken, readings, now);
      StoreRound(readings, now);
      lastRound := now;
    }

    /** The retained snapshots of the last `duration`, oldest first; none for an unknown GPU. */
    method GetTimeline(uuid: string, duration: int, now: int) returns (r: Option<seq<Snapshot>>)
      requires Valid()
      ensures Valid()
      ensures r == if uuid !in taken then None else Some(Window(taken[uuid], capacity, now - duration))
    {
      if uuid !in gpuBuffers {
        return None;
      }
      WindowExact(taken[uuid], uuid, lastRound, capacity, now - duration);
      var buf := gpuBuffers[uuid];
      var found := buf.Query(now - duration, Stamp);
      r := Some(found);
    }

    /** The retained snapshot nearest to an instant, the oldest such; an error if there is none. */
    method GetSnapshot(uuid: string, at: int) returns (r: Result<Snapshot, string>)
      requires Valid()
      ensures uuid !in taken ==> r == Err("GPU not found")
      ensures uuid in taken && taken[uuid] == [] ==> r == Err("no snapshots available")
      ensures uuid in taken && taken[uuid] != [] ==> r.Ok? && exists i: nat ::
        OldestNearest(LastN(taken[uuid], capacity), at, Stamp, i) && r.value == LastN(taken[uuid], capacity)[i]
    {
      if uuid !in gpuBuffers {
        return Err("GPU not found");
      }
      var buf := gpuBuffers[uuid];
      var found := buf.FindNearest(at, Stamp);
      r := if found.None? then Err("no snapshots available") else Ok(found.value);
    }

    /** The windows of all GPUs that have anything in theirs. */
    method GetAllTimelines(duration: int, now: int) returns (r: Log)
      requires Valid()
      ensures AreWindows(r, taken, capacity, now - duration)
    {
      hide Window, WindowsExcept, AreWindows, Timeline;
      r := map[];
      var left := gpuBuffers.Keys;
      NoWindowsYet(taken, capacity, now - duration);
      while left != {}
        invariant Valid() && left <= taken.Keys
        invariant WindowsExcept(r, taken, capacity, now - duration, left)
        decreases left
      {
        var uuid :| uuid in left;
        var found := GetTimeline(uuid, duration, now);
        r := WithWindow(r, uuid, found, taken, capacity, now - duration, left);
        left := left - {uuid};
      }
      NoneLeft(r, taken, lastRound, capacity, now - duration);
    }
  }
}
