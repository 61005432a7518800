/** Discovery of GPU interconnects: pkg/tools/nvlink_topology.go. */
module NVLink {
  import opened Basics

  const MaxNvLinks := 12
  const ErrorCounters := 5

  // What the driver says of one link; a counter that cannot be read is None.
  datatype Link =
    Unreadable | Inactive | NoRemote | Active(remoteBusID: string, remoteBus: int, counters: seq<Option<nat>>)

  // A device's links; none can be read of one that cannot be opened.
  type Device = Option<seq<Link>>

  datatype Connection = Connection(gpu1: int, gpu2: int, errorCount: nat)

  type Key = (int, int)

  type Links = map<Key, Connection>

  // ---------- One link seen from one end ----------

  // The sum of the counters that can be read, in 64 bits.
  function TotalErrors(counters: seq<Option<nat>>, n: nat): (total: nat)
    requires n <= |counters|
    ensures total < TwoTo64
  {
    if n == 0 then 0
    else
      var earlier, last := TotalErrors(counters, n - 1), counters[n - 1];
      if last.Some? then (earlier + last.value) % TwoTo64 else earlier
  }

  predicate WellFormed(l: Link) {
    l.Active? ==> |l.counters| == ErrorCounters
  }

  // The GPU at the other end; an unknown bus address is guessed from the bus number.
  function RemoteGPU(l: Link, pciToGPU: map<string, int>): int
    requires l.Active?
  {
    if l.remoteBusID in pciToGPU then pciToGPU[l.remoteBusID] else l.remoteBus - 1
  }

  // What a link adds to the picture, with the smaller GPU first.
  function Seen(gpu: int, l: Link, pciToGPU: map<string, int>): (r: Option<Connection>)
    requires WellFormed(l)
    ensures r.Some? ==> r.value.gpu1 <= r.value.gpu2
  {
    if !l.Active? then None
    else
      var remote := RemoteGPU(l, pciToGPU);
      Some(Connection(Min(gpu, remote), Max(gpu, remote), TotalErrors(l.counters, ErrorCounters)))
  }

  function KeyOf(c: Connection): Key {
    (c.gpu1, c.gpu2)
  }

  // ---------- Merging ----------

  function Merge(m: Links, c: Connection): Links {
    if KeyOf(c) !in m || c.errorCount > m[KeyOf(c)].errorCount then m[KeyOf(c) := c] else m
  }

  function Merged(seen: seq<Connection>): Links {
    if seen == [] then map[] else Merge(Merged(seen[..|seen| - 1]), seen[|seen| - 1])
  }

  // One connection for each pair of GPUs seen, with the most errors seen on it.
  ghost predicate MostErrors(m: Links, seen: seq<Connection>) {
    && (forall key <- m :: m[key] in seen && KeyOf(m[key]) == key)
    && (forall c <- seen :: KeyOf(c) in m && c.errorCount <= m[KeyOf(c)].errorCount)
  }

  lemma {:induction false} MergedExact(seen: seq<Connection>)
    ensures MostErrors(Merged(seen), seen)
  {
    if seen != [] {
      var front, last := seen[..|seen| - 1], seen[|seen| - 1];
      MergedExact(front);
      assert seen == front + [last];
      assert forall c :: c in seen <==> c in front || c == last;
    }
  }

  // There is only one such map.
  lemma MostErrorsUnique(m: Links, n: Links, s: seq<Connection>, t: seq<Connection>)
    requires MostErrors(m, s) && MostErrors(n, t)
    requires forall c :: c in s <==> c in t
    ensures m == n
  {
    assert m.Keys == n.Keys by {
      forall key | key in m ensures key in n { assert m[key] in t; }
      forall key | key in n ensures key in m { assert n[key] in s; }
    }
    forall key | key in m ensures m[key] == n[key] {
      assert m[key] in t && n[key] in s;
    }
  }

  /** Links may be met in any order, and from either or both ends: the picture is the same. */
  lemma OrderIndependent(s: seq<Connection>, t: seq<Connection>)
    requires forall c :: c in s <==> c in t
    ensures Merged(s) == Merged(t)
  {
    MergedExact(s);
    MergedExact(t);
    MostErrorsUnique(Merged(s), Merged(t), s, t);
  }

  // ---------- Devices ----------

  // What the first n links of a device show; nothing of a device that cannot be opened.
  function SeenOn(gpu: int, links: Device, pciToGPU: map<string, int>, n: nat): seq<Connection>
    requires ValidDevice(links) && n <= MaxNvLinks
  {
    if links.None? || n == 0 then []
    else
      var c := Seen(gpu, links.value[n - 1], pciToGPU);
      SeenOn(gpu, links, pciToGPU, n - 1) + if c.Some? then [c.value] else []
  }

  predicate ValidDevice(links: Device) {
    links.Some? ==> |links.value| == MaxNvLinks && forall l <- links.value :: WellFormed(l)
  }

  function SeenOnAll(devices: seq<Device>, pciToGPU: map<string, int>, n: nat): seq<Connection>
    requires n <= |devices| && forall d <- devices :: ValidDevice(d)
  {
    if n == 0 then []
    else SeenOnAll(devices, pciToGPU, n - 1) + SeenOn(n - 1, devices[n - 1], pciToGPU, MaxNvLinks)
  }

  method SumErrors(counters: seq<Option<nat>>) returns (total: nat)
    requires |counters| == ErrorCounters
    ensures total == TotalErrors(counters, ErrorCounters)
  {
    total := 0;
    for counter := 0 to ErrorCounters
      invariant total == TotalErrors(counters, counter)
    {
      if counters[counter].Some? {
        total := (total + counters[counter].value) % TwoTo64;
      }
    }
  }

  lemma MergedExtends(seen: seq<Connection>, c: Connection)
    ensures Merged(seen + [c]) == Merge(Merged(seen), c)
  {
    assert (seen + [c])[..|seen|] == seen;
  }

  // What one readable, active link changes in the map.
  method AddLink(linkMap: Links, gpu: int, l: Link, pciToGPU: map<string, int>, ghost seen: seq<Connection>)
    returns (after: Links)
    requires l.Active? && WellFormed(l) && linkMap == Merged(seen)
    ensures after == Merged(seen + [Seen(gpu, l, pciToGPU).value])
  {
    after := linkMap;
    var totalErrors := SumErrors(l.counters);
    var gpu1, gpu2 := gpu, RemoteGPU(l, pciToGPU);
    if gpu1 > gpu2 {
      gpu1, gpu2 := gpu2, gpu1;
    }
    MergedExact(seen);
    MergedExtends(seen, Connection(gpu1, gpu2, totalErrors));
    var key := (gpu1, gpu2);
    if key !in linkMap {
      after := linkMap[key := Connection(gpu1, gpu2, totalErrors)];
    } else if totalErrors > linkMap[key].errorCount {
      after := linkMap[key := linkMap[key].(errorCount := totalErrors)];
    }
  }

  lemma SeenOnExtends(gpu: int, links: seq<Link>, pciToGPU: map<string, int>, n: nat, seen: seq<Connection>)
    requires ValidDevice(Some(links)) && n < MaxNvLinks
    ensures WellFormed(links[n])
    ensures var before, after := SeenOn(gpu, Some(links), pciToGPU, n), SeenOn(gpu, Some(links), pciToGPU, n + 1);
            if links[n].Active? then seen + after == seen + before + [Seen(gpu, links[n], pciToGPU).value]
            else seen + after == seen + before
  {
    assert links[n] in links;
  }

  // How many of the first n links pass their context check, the first of them at `check`.
  function LinksAlive(alive: nat -> bool, check: nat, n: nat): (k: nat)
    ensures k <= n
  {
    if n == 0 then 0 else if alive(check + n - 1) then n else LinksAlive(alive, check, n - 1)
  }

  // The scan stops at the first check that fails.
  lemma {:induction false} StopsThere(alive: nat -> bool, check: nat, k: nat, n: nat)
    requires StaysCancelled(alive) && k < n && !alive(check + k) && (k > 0 ==> alive(check + k - 1))
    ensures LinksAlive(alive, check, n) == k
  {
    assert check + k <= check + n - 1;
    if k < n - 1 { StopsThere(alive, check, k, n - 1); }
  }

  /**
    Adds what the links of a device show to the map, up to the first check that finds
    the context cancelled.
   */
  method DiscoverNVLinks(
      gpu: int, links: seq<Link>, before: Links, pciToGPU: map<string, int>, alive: nat -> bool, check: nat,
      ghost seen: seq<Connection>)
    returns (linkMap: Links, next: nat)
    requires ValidDevice(Some(links)) && before == Merged(seen) && StaysCancelled(alive)
    ensures linkMap == Merged(seen + SeenOn(gpu, Some(links), pciToGPU, LinksAlive(alive, check, MaxNvLinks)))
    ensures next == check + Min(LinksAlive(alive, check, MaxNvLinks) + 1, MaxNvLinks)
  {
    linkMap := before;
    assert seen + [] == seen;
    for link := 0 to MaxNvLinks
      invariant link > 0 ==> alive(check + link - 1)
      invariant linkMap == Merged(seen + SeenOn(gpu, Some(links), pciToGPU, link))
    {
      if !alive(check + link) {
        StopsThere(alive, check, link, MaxNvLinks);
        return linkMap, check + link + 1;
      }
      SeenOnExtends(gpu, links, pciToGPU, link, seen);
      if !links[link].Active? {
        continue;
      }
      linkMap := AddLink(linkMap, gpu, links[link], pciToGPU, seen + SeenOn(gpu, Some(links), pciToGPU, link));
    }
    next := check + MaxNvLinks;
  }

  // ---------- The sorted answer ----------

  predicate Before(a: Connection, b: Connection) {
    a.gpu1 < b.gpu1 || (a.gpu1 == b.gpu1 && a.gpu2 < b.gpu2)
  }

  // The connections of the map, each once, in order of their GPUs.
  ghost predicate Listing(s: seq<Connection>, m: Links) {
    && (forall i, j :: 0 <= i < j < |s| ==> Before(s[i], s[j]))
    && (forall c :: c in s <==> KeyOf(c) in m && m[KeyOf(c)] == c)
  }

  /** However the map is iterated, the sorted list is the same. */
  lemma {:induction false} ListingUnique(s: seq<Connection>, t: seq<Connection>)
    requires forall i, j :: 0 <= i < j < |s| ==> Before(s[i], s[j])
    requires forall i, j :: 0 <= i < j < |t| ==> Before(t[i], t[j])
    requires forall c :: c in s <==> c in t
    ensures s == t
  {
    assert t != [] ==> t[0] in s;
    if s != [] {
      assert s[0] in t && t != [];
      var i :| 0 <= i < |t| && t[i] == s[0];
      var j :| 0 <= j < |s| && s[j] == t[0];
      assert s[0] == t[0];
      forall c ensures c in s[1..] <==> c in t[1..] {
        assert c in s[1..] <==> c in s && c != s[0] by { HeadOnce(s, c); }
        assert c in t[1..] <==> c in t && c != t[0] by { HeadOnce(t, c); }
      }
      ListingUnique(s[1..], t[1..]);
    }
  }

  lemma HeadOnce(s: seq<Connection>, c: Connection)
    requires s != [] && forall i, j :: 0 <= i < j < |s| ==> Before(s[i], s[j])
    ensures c in s[1..] <==> c in s && c != s[0]
  {
    assert s == [s[0]] + s[1..];
    if c in s[1..] {
      var k :| 0 <= k < |s[1..]| && s[1..][k] == c;
      assert s[k + 1] == c && Before(s[0], s[k + 1]);
    }
  }

  // Puts a connection in its place.
  method Insert(s: seq<Connection>, c: Connection) returns (r: seq<Connection>)
    requires forall i, j :: 0 <= i < j < |s| ==> Before(s[i], s[j])
    requires forall x <- s :: KeyOf(x) != KeyOf(c)
    ensures forall i, j :: 0 <= i < j < |r| ==> Before(r[i], r[j])
    ensures forall x :: x in r <==> x in s || x == c
  {
    var k := 0;
    while k < |s| && Before(s[k], c)
      invariant 0 <= k <= |s| && forall i :: 0 <= i < k ==> Before(s[i], c)
    {
      k := k + 1;
    }
    r := s[..k] + [c] + s[k..];
    assert s == s[..k] + s[k..];
    forall i | k <= i < |s| ensures Before(c, s[i]) {
      assert s[k] in s && KeyOf(s[k]) != KeyOf(c);
    }
  }

  // The map's values in any order, sorted.
  method SortedLinks(m: Links) returns (s: seq<Connection>)
    requires forall key <- m :: KeyOf(m[key]) == key
    ensures Listing(s, m)
  {
    s := [];
    var left := m.Items;
    while left != {}
      invariant left <= m.Items
      invariant forall i, j :: 0 <= i < j < |s| ==> Before(s[i], s[j])
      invariant forall c :: c in s <==> KeyOf(c) in m && m[KeyOf(c)] == c && (KeyOf(c), c) !in left
      decreases left
    {
      var item :| item in left;
      s := Insert(s, item.1);
      left := left - {item};
    }
  }

  // ---------- The tool ----------

  function PciMap(buses: seq<Option<string>>, n: nat): map<string, int>
    requires n <= |buses|
  {
    if n == 0 then map[]
    else if buses[n - 1].Some? then PciMap(buses, n - 1)[buses[n - 1].value := n - 1]
    else PciMap(buses, n - 1)
  }

  method BuildPciMap(buses: seq<Option<string>>) returns (pciToGPU: map<string, int>)
    ensures pciToGPU == PciMap(buses, |buses|)
  {
    pciToGPU := map[];
    for i := 0 to |buses|
      invariant pciToGPU == PciMap(buses, i)
    {
      if buses[i].Some? {
        pciToGPU := pciToGPU[buses[i].value := i];
      }
    }
  }

  predicate ValidDevices(devices: seq<Device>) {
    forall d <- devices :: ValidDevice(d)
  }

  // Everything the driver shows of the system, in device order.
  function SeenAll(buses: seq<Option<string>>, devices: seq<Device>): seq<Connection>
    requires ValidDevices(devices)
  {
    SeenOnAll(devices, PciMap(buses, |buses|), |devices|)
  }

  // All of the first i devices but the last of them in full, and of that one its first n links.
  function SeenUpTo(devices: seq<Device>, pciToGPU: map<string, int>, i: nat, n: nat): seq<Connection>
    requires i <= |devices| && n <= MaxNvLinks && ValidDevices(devices)
  {
    if i == 0 then []
    else SeenOnAll(devices, pciToGPU, i - 1) + SeenOn(i - 1, devices[i - 1], pciToGPU, n)
  }

  // ---------- The context checks ----------

  // The check before device i, when none fails: one for the handler, one for each device
  // before it, and twelve more for each of those that opens.
  function CheckBefore(devices: seq<Device>, i: nat): (k: nat)
    requires i <= |devices|
    ensures k >= 1
  {
    if i == 0 then 1 else CheckBefore(devices, i - 1) + 1 + if devices[i - 1].Some? then MaxNvLinks else 0
  }

  lemma {:induction false} ChecksGrow(devices: seq<Device>, i: nat, j: nat)
    requires i <= j <= |devices|
    ensures CheckBefore(devices, i) <= CheckBefore(devices, j)
  {
    if i < j { ChecksGrow(devices, i, j - 1); }
  }

  // How many links of device i pass their checks.
  function ScannedOn(devices: seq<Device>, alive: nat -> bool, i: nat): (k: nat)
    requires i < |devices|
    ensures k <= MaxNvLinks
  {
    LinksAlive(alive, CheckBefore(devices, i) + 1, MaxNvLinks)
  }

  // What the map holds after device i - 1, whether or not its scan was cut short.
  function FoundBefore(devices: seq<Device>, pciToGPU: map<string, int>, alive: nat -> bool, i: nat): seq<Connection>
    requires i <= |devices| && ValidDevices(devices)
  {
    if i == 0 then [] else SeenUpTo(devices, pciToGPU, i, ScannedOn(devices, alive, i - 1))
  }

  // Once the check before device i passes, all devices before it were scanned in full.
  lemma FullBefore(devices: seq<Device>, pciToGPU: map<string, int>, alive: nat -> bool, i: nat)
    requires i <= |devices| && ValidDevices(devices) && StaysCancelled(alive) && alive(CheckBefore(devices, i))
    ensures FoundBefore(devices, pciToGPU, alive, i) == SeenOnAll(devices, pciToGPU, i)
  {
    if i > 0 && devices[i - 1].Some? {
      assert CheckBefore(devices, i - 1) + MaxNvLinks <= CheckBefore(devices, i);
    }
  }

  // Where the next check is: at its place if the context is alive by then, and else at one that fails too.
  predicate CheckAt(devices: seq<Device>, alive: nat -> bool, i: nat, at: nat)
    requires i <= |devices|
  {
    if alive(CheckBefore(devices, i)) then at == CheckBefore(devices, i) else !alive(at)
  }

  // After a scan whose first check is at `from`: the check past its last, or one that fails like it.
  predicate AfterScan(alive: nat -> bool, from: nat, next: nat) {
    if alive(from + MaxNvLinks) then next == from + MaxNvLinks else !alive(next)
  }

  lemma ScanEnds(alive: nat -> bool, from: nat)
    requires StaysCancelled(alive)
    ensures AfterScan(alive, from, from + Min(LinksAlive(alive, from, MaxNvLinks) + 1, MaxNvLinks))
  {
    var k := LinksAlive(alive, from, MaxNvLinks);
    FailsAfter(alive, from, MaxNvLinks);
    assert alive(from + MaxNvLinks) ==> alive(from + MaxNvLinks - 1);
    assert from + k <= from + Min(k + 1, MaxNvLinks) || k == MaxNvLinks;
  }

  lemma CheckAfter(devices: seq<Device>, alive: nat -> bool, i: nat, next: nat)
    requires i < |devices|
    requires var from := CheckBefore(devices, i) + 1;
             if devices[i].Some? then AfterScan(alive, from, next) else next == from
    ensures CheckAt(devices, alive, i + 1, next)
  {}

  lemma {:induction false} FailsAfter(alive: nat -> bool, check: nat, n: nat)
    ensures LinksAlive(alive, check, n) < n ==> !alive(check + LinksAlive(alive, check, n))
  {
    if n > 0 && !alive(check + n - 1) { FailsAfter(alive, check, n - 1); }
  }

  // ---------- The answer ----------

  // The connections of the answer; none when cancellation is noticed between devices.
  function Answer(buses: seq<Option<string>>, devices: seq<Device>, alive: nat -> bool): Option<seq<Connection>>
    requires devices != [] && ValidDevices(devices)
  {
    if alive(CheckBefore(devices, |devices| - 1))
    then Some(FoundBefore(devices, PciMap(buses, |buses|), alive, |devices|))
    else None
  }

  /**
    There is an answer exactly when the check before the last device passes. It is then
    everything, except for the links of the last device whose checks fail; and that
    device is scanned in full exactly when its last link's check passes.
   */
  lemma AnswerExact(buses: seq<Option<string>>, devices: seq<Device>, alive: nat -> bool)
    requires devices != [] && ValidDevices(devices) && StaysCancelled(alive)
    ensures var last := |devices| - 1;
            var n := ScannedOn(devices, alive, last);
            && (Answer(buses, devices, alive).Some? <==> alive(CheckBefore(devices, last)))
            && (n == MaxNvLinks <==> alive(CheckBefore(devices, last) + MaxNvLinks))
            && (Answer(buses, devices, alive).Some? ==>
                  Answer(buses, devices, alive).value == SeenUpTo(devices, PciMap(buses, |buses|), |devices|, n))
            && (Answer(buses, devices, alive).Some? && (n == MaxNvLinks || devices[last].None?) ==>
                  Answer(buses, devices, alive).value == SeenAll(buses, devices))
  {}

  // The scan of one device, or its passing over.
  method ScanDevice(
      gpu: int, links: Device, before: Links, pciToGPU: map<string, int>, alive: nat -> bool, at: nat,
      ghost seen: seq<Connection>)
    returns (linkMap: Links, next: nat)
    requires ValidDevice(links) && StaysCancelled(alive) && before == Merged(seen)
    ensures linkMap == Merged(seen + SeenOn(gpu, links, pciToGPU, LinksAlive(alive, at + 1, MaxNvLinks)))
    ensures if links.Some? then AfterScan(alive, at + 1, next) else next == at + 1
  {
    if links.None? {
      assert seen + [] == seen;
      return before, at + 1;
    }
    ScanEnds(alive, at + 1);
    linkMap, next := DiscoverNVLinks(gpu, links.value, before, pciToGPU, alive, at + 1, seen);
  }

  // The state of the loop before device i.
  ghost predicate Progress(
      devices: seq<Device>, pciToGPU: map<string, int>, alive: nat -> bool, i: nat, links: Links, at: nat)
    requires i <= |devices| && ValidDevices(devices)
  {
    && links == Merged(FoundBefore(devices, pciToGPU, alive, i))
    && CheckAt(devices, alive, i, at)
    && (i > 0 ==> alive(CheckBefore(devices, i - 1)))
  }

  lemma ProgressFull(
      devices: seq<Device>, pciToGPU: map<string, int>, alive: nat -> bool, i: nat, links: Links, at: nat)
    requires i < |devices| && ValidDevices(devices) && StaysCancelled(alive)
    requires Progress(devices, pciToGPU, alive, i, links, at) && alive(at)
    ensures at == CheckBefore(devices, i) && links == Merged(SeenOnAll(devices, pciToGPU, i)) && ValidDevice(devices[i])
  {
    FullBefore(devices, pciToGPU, alive, i);
    assert devices[i] in devices;
  }

  lemma ProgressStep(
      devices: seq<Device>, pciToGPU: map<string, int>, alive: nat -> bool, i: nat, links: Links, at: nat)
    requires i < |devices| && ValidDevices(devices) && alive(CheckBefore(devices, i)) && ValidDevice(devices[i])
    requires var here := SeenOn(i, devices[i], pciToGPU, ScannedOn(devices, alive, i));
             links == Merged(SeenOnAll(devices, pciToGPU, i) + here)
    requires var from := CheckBefore(devices, i) + 1;
             if devices[i].Some? then AfterScan(alive, from, at) else at == from
    ensures Progress(devices, pciToGPU, alive, i + 1, links, at)
  {
    CheckAfter(devices, alive, i, at);
  }

  lemma ProgressStops(
      buses: seq<Option<string>>, devices: seq<Device>, pciToGPU: map<string, int>, alive: nat -> bool,
      i: nat, links: Links, at: nat)
    requires i < |devices| && ValidDevices(devices) && StaysCancelled(alive)
    requires Progress(devices, pciToGPU, alive, i, links, at) && !alive(at)
    ensures Answer(buses, devices, alive).None?
  {
    ChecksGrow(devices, i, |devices| - 1);
  }

  method Discover(buses: seq<Option<string>>, devices: seq<Device>, alive: nat -> bool)
    returns (linkMap: Option<Links>)
    requires devices != [] && ValidDevices(devices) && StaysCancelled(alive)
    ensures var found := Answer(buses, devices, alive);
            linkMap == if found.Some? then Some(Merged(found.value)) else None
  {
    var pciToGPU := BuildPciMap(buses);
    var links: Links, at := map[], 1;
    for i := 0 to |devices|
      invariant Progress(devices, pciToGPU, alive, i, links, at)
    {
      if !alive(at) {
        ProgressStops(buses, devices, pciToGPU, alive, i, links, at);
        return None;
      }
      ProgressFull(devices, pciToGPU, alive, i, links, at);
      links, at := ScanDevice(i, devices[i], links, pciToGPU, alive, at, SeenOnAll(devices, pciToGPU, i));
      ProgressStep(devices, pciToGPU, alive, i, links, at);
    }
    linkMap := Some(links);
  }

  datatype Error = Cancelled | CountFailed

  /** Lists one connection for each pair of linked GPUs that the answer holds, sorted, or says why not. */
  method Handle(count: Option<nat>, buses: seq<Option<string>>, devices: seq<Device>, alive: nat -> bool)
    returns (r: Result<seq<Connection>, Error>)
    requires count.Some? ==> |devices| == count.value
    requires ValidDevices(devices) && StaysCancelled(alive)
    ensures !alive(0) ==> r == Err(Cancelled)
    ensures alive(0) && count.None? ==> r == Err(CountFailed)
    ensures alive(0) && count == Some(0) ==> r == Ok([])
    ensures count.Some? && devices != [] ==>
      var found := Answer(buses, devices, alive);
      if found.Some? then r.Ok? && Listing(r.value, Merged(found.value)) else r == Err(Cancelled)
  {
    if !alive(0) {
      return Err(Cancelled);
    }
    if count.None? {
      return Err(CountFailed);
    }
    if count.value == 0 {
      return Ok([]);
    }
    var linkMap := Discover(buses, devices, alive);
    if linkMap.None? {
      return Err(Cancelled);
    }
    MergedExact(Answer(buses, devices, alive).value);
    var links := SortedLinks(linkMap.value);
    r := Ok(links);
  }

  // A GPU whose links cannot be read, and one that shows its first link to go there.
  const Unread: seq<Link> := seq(MaxNvLinks, _ => Unreadable)
  const Linked: seq<Link> := Unread[0 := Active("a", 0, [None, None, None, None, None])]
  const Buses: seq<Option<string>> := [Some("a"), Some("b")]
  const TwoGPUs: seq<Device> := [Some(Unread), Some(Linked)]

  // Cancelled between the check before the last device and that of its first link.
  function JustInTime(k: nat): bool {
    k <= 14
  }

  lemma {:induction false} NothingMore(gpu: int, links: seq<Link>, pciToGPU: map<string, int>, k: nat, n: nat)
    requires ValidDevice(Some(links)) && k <= n <= MaxNvLinks
    requires forall j :: k <= j < n ==> links[j] == Unreadable
    ensures SeenOn(gpu, Some(links), pciToGPU, n) == SeenOn(gpu, Some(links), pciToGPU, k)
  {
    if k < n { NothingMore(gpu, links, pciToGPU, k, n - 1); }
  }

  /** A partial answer given as a success: the one connection there is gets lost, without an error. */
  lemma PartialAnswer()
    ensures ValidDevices(TwoGPUs) && StaysCancelled(JustInTime)
    ensures Answer(Buses, TwoGPUs, JustInTime) == Some([])
    ensures SeenAll(Buses, TwoGPUs) == [Connection(0, 1, 0)]
  {
    var pciToGPU := PciMap(Buses, 2);
    TwoValid();
    NothingMore(0, Unread, pciToGPU, 0, MaxNvLinks);
    NothingMore(1, Linked, pciToGPU, 1, MaxNvLinks);
    OneLink(pciToGPU);
    TwoChecks();
    assert SeenOnAll(TwoGPUs, pciToGPU, 0) == [] && SeenOnAll(TwoGPUs, pciToGPU, 1) == [];
  }

  lemma TwoValid()
    ensures ValidDevice(Some(Unread)) && ValidDevice(Some(Linked)) && ValidDevices(TwoGPUs)
  {
    assert forall l <- Linked :: l == Unreadable || l == Linked[0];
  }

  lemma OneLink(pciToGPU: map<string, int>)
    requires pciToGPU == PciMap(Buses, 2) && ValidDevice(Some(Linked))
    ensures SeenOn(1, Some(Linked), pciToGPU, 1) == [Connection(0, 1, 0)]
  {
    assert PciMap(Buses, 0) == map[] && PciMap(Buses, 1) == map["a" := 0];
    assert pciToGPU["a"] == 0;
    NoErrors([None, None, None, None, None], ErrorCounters);
    assert SeenOn(1, Some(Linked), pciToGPU, 0) == [];
  }

  lemma {:induction false} NoErrors(counters: seq<Option<nat>>, n: nat)
    requires n <= |counters| && forall c <- counters :: c.None?
    ensures TotalErrors(counters, n) == 0
  {
    if n > 0 {
      NoErrors(counters, n - 1);
      assert counters[n - 1] in counters;
    }
  }

  lemma TwoChecks()
    ensures CheckBefore(TwoGPUs, 1) == 14 && ScannedOn(TwoGPUs, JustInTime, 1) == 0
  {
    assert CheckBefore(TwoGPUs, 0) == 1;
    StopsThere(JustInTime, 15, 0, MaxNvLinks);
  }

  /**
    Device order does not matter: a system whose devices show the same connections, in
    whatever order they are visited, gets the same answer.
   */
  lemma SameAnswer(s: seq<Connection>, t: seq<Connection>, seen: seq<Connection>, shown: seq<Connection>)
    requires Listing(s, Merged(seen)) && Listing(t, Merged(shown))
    requires forall c :: c in seen <==> c in shown
    ensures s == t
  {
    OrderIndependent(seen, shown);
    ListingUnique(s, t);
  }

  // ---------- The answer in terms of the devices ----------

  function Count(counter: Option<nat>): nat {
    if counter.Some? then counter.value else 0
  }

  lemma WrappedSum(a: nat, b: nat)
    ensures (a % TwoTo64 + b) % TwoTo64 == (a + b) % TwoTo64
  {}

  /** The errors of a link are the sum of its counters, those that cannot be read counting nothing, in 64 bits. */
  lemma SumExact(counters: seq<Option<nat>>)
    requires |counters| == 5
    ensures TotalErrors(counters, 5) ==
      (Count(counters[0]) + Count(counters[1]) + Count(counters[2]) + Count(counters[3]) + Count(counters[4])) % TwoTo64
  {
    var a, b, c, d := Count(counters[0]), Count(counters[1]), Count(counters[2]), Count(counters[3]);
    assert TotalErrors(counters, 0) == 0;
    assert TotalErrors(counters, 1) == a % TwoTo64;
    SumStep(counters, 1, a);
    SumStep(counters, 2, a + b);
    SumStep(counters, 3, a + b + c);
    SumStep(counters, 4, a + b + c + d);
  }

  lemma SumStep(counters: seq<Option<nat>>, n: nat, sum: nat)
    requires n < |counters| && TotalErrors(counters, n) == sum % TwoTo64
    ensures TotalErrors(counters, n + 1) == (sum + Count(counters[n])) % TwoTo64
  {
    WrappedSum(sum, Count(counters[n]));
  }

  // The GPU at the other end: the last one found at the link's address, or a guess from the bus number.
  ghost predicate RemoteIs(buses: seq<Option<string>>, l: Link, remote: int)
    requires l.Active?
  {
    if Some(l.remoteBusID) in buses
    then 0 <= remote < |buses| && buses[remote] == Some(l.remoteBusID)
         && forall g :: remote < g < |buses| ==> buses[g] != Some(l.remoteBusID)
    else remote == l.remoteBus - 1
  }

  lemma {:induction false} PciExact(buses: seq<Option<string>>, n: nat, bus: string)
    requires n <= |buses|
    ensures bus in PciMap(buses, n) <==> Some(bus) in buses[..n]
    ensures bus in PciMap(buses, n) ==>
      var g := PciMap(buses, n)[bus];
      0 <= g < n && buses[g] == Some(bus) && forall h :: g < h < n ==> buses[h] != Some(bus)
  {
    if n > 0 {
      PciExact(buses, n - 1, bus);
      assert buses[..n] == buses[..n - 1] + [buses[n - 1]];
    }
  }

  lemma RemoteExact(buses: seq<Option<string>>, l: Link)
    requires l.Active?
    ensures RemoteIs(buses, l, RemoteGPU(l, PciMap(buses, |buses|)))
  {
    PciExact(buses, |buses|, l.remoteBusID);
    assert buses[..|buses|] == buses;
  }

  lemma RemoteUnique(buses: seq<Option<string>>, l: Link, a: int, b: int)
    requires l.Active? && RemoteIs(buses, l, a) && RemoteIs(buses, l, b)
    ensures a == b
  {}

  // Link j of device i shows this connection: the two GPUs, the smaller first, and its errors.
  ghost predicate ShownBy(buses: seq<Option<string>>, devices: seq<Device>, i: nat, j: nat, c: Connection)
    requires ValidDevices(devices)
  {
    && i < |devices| && devices[i].Some? && j < |devices[i].value| && devices[i].value[j].Active?
    && exists remote: int :: RemoteIs(buses, devices[i].value[j], remote)
         && c.gpu1 == (if i < remote then i else remote) && c.gpu2 == (if i < remote then remote else i)
         && c.errorCount == TotalErrors(devices[i].value[j].counters, |devices[i].value[j].counters|)
  }

  lemma SeenShown(buses: seq<Option<string>>, devices: seq<Device>, i: nat, j: nat, c: Connection)
    requires ValidDevices(devices) && i < |devices| && devices[i].Some? && j < MaxNvLinks
    ensures ValidDevice(devices[i]) && WellFormed(devices[i].value[j])
    ensures Seen(i, devices[i].value[j], PciMap(buses, |buses|)) == Some(c) <==> ShownBy(buses, devices, i, j, c)
  {
    assert devices[i] in devices && devices[i].value[j] in devices[i].value;
    var l := devices[i].value[j];
    if l.Active? {
      RemoteExact(buses, l);
      forall remote: int | RemoteIs(buses, l, remote) ensures remote == RemoteGPU(l, PciMap(buses, |buses|)) {
        RemoteUnique(buses, l, remote, RemoteGPU(l, PciMap(buses, |buses|)));
      }
    }
  }

  lemma {:induction false} SeenOnExact(
      buses: seq<Option<string>>, devices: seq<Device>, i: nat, n: nat, c: Connection)
    requires ValidDevices(devices) && i < |devices| && ValidDevice(devices[i]) && n <= MaxNvLinks
    ensures c in SeenOn(i, devices[i], PciMap(buses, |buses|), n) <==>
            exists j: nat :: j < n && ShownBy(buses, devices, i, j, c)
  {
    if n > 0 {
      SeenOnExact(buses, devices, i, n - 1, c);
      if devices[i].Some? { SeenShown(buses, devices, i, n - 1, c); }
    }
  }

  lemma {:induction false} SeenOnAllExact(buses: seq<Option<string>>, devices: seq<Device>, n: nat, c: Connection)
    requires ValidDevices(devices) && n <= |devices|
    ensures c in SeenOnAll(devices, PciMap(buses, |buses|), n) <==>
            exists i: nat, j: nat :: i < n && j < MaxNvLinks && ShownBy(buses, devices, i, j, c)
  {
    if n > 0 {
      SeenOnAllExact(buses, devices, n - 1, c);
      assert devices[n - 1] in devices;
      SeenOnExact(buses, devices, n - 1, MaxNvLinks, c);
    }
  }

  lemma UncancelledAnswer(buses: seq<Option<string>>, devices: seq<Device>, alive: nat -> bool)
    requires devices != [] && ValidDevices(devices) && Uncancelled(alive)
    ensures Answer(buses, devices, alive) == Some(SeenAll(buses, devices))
  {
    AnswerExact(buses, devices, alive);
  }

  /**
    The list answered for a system, uncancelled: in strict order of the GPUs, each entry is
    what some link of some device shows, and of what any link shows the list has the pair,
    with at least as many errors.
   */
  lemma TopologyExact(
      buses: seq<Option<string>>, devices: seq<Device>, alive: nat -> bool, listed: seq<Connection>)
    requires devices != [] && ValidDevices(devices) && Uncancelled(alive)
    requires Listing(listed, Merged(Answer(buses, devices, alive).value))
    ensures forall a, b :: 0 <= a < b < |listed| ==>
      listed[a].gpu1 < listed[b].gpu1 || (listed[a].gpu1 == listed[b].gpu1 && listed[a].gpu2 < listed[b].gpu2)
    ensures forall c <- listed :: exists i: nat, j: nat :: ShownBy(buses, devices, i, j, c)
    ensures forall i: nat, j: nat, c: Connection :: ShownBy(buses, devices, i, j, c) ==>
      exists d :: d in listed && d.gpu1 == c.gpu1 && d.gpu2 == c.gpu2 && d.errorCount >= c.errorCount
  {
    var seen := SeenAll(buses, devices);
    UncancelledAnswer(buses, devices, alive);
    MergedExact(seen);
    forall c | c in listed ensures exists i: nat, j: nat :: ShownBy(buses, devices, i, j, c) {
      assert Merged(seen)[KeyOf(c)] in seen;
      SeenOnAllExact(buses, devices, |devices|, c);
    }
    forall i: nat, j: nat, c: Connection | ShownBy(buses, devices, i, j, c)
      ensures exists d :: d in listed && d.gpu1 == c.gpu1 && d.gpu2 == c.gpu2 && d.errorCount >= c.errorCount
    {
      assert devices[i] in devices;
      SeenOnAllExact(buses, devices, |devices|, c);
      var d := Merged(seen)[KeyOf(c)];
      assert KeyOf(d) == KeyOf(c) && d in listed;
    }
  }
}
