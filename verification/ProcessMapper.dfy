/** The cache of process-to-pod mappings of pkg/events/process_mapper.go. */
module ProcessMapping {
  import opened Basics

  datatype Pod = Pod(uid: string, name: string, namespace: string, containerID: string)

  datatype Cached = Cached(info: Pod, cachedAt: int)

  datatype Error = InvalidPID | NotExist | ReadFailed | LookupFailed

  // ---------- Eviction, on lists of the cache's entries ----------

  datatype Aged = Aged(pid: int, cachedAt: int)

  // The list names every entry of the cache once, with its age.
  ghost predicate Lists(s: seq<Aged>, cache: map<int, Cached>) {
    && (forall j, k :: 0 <= j < k < |s| ==> s[j].pid != s[k].pid)
    && (forall k :: 0 <= k < |s| ==> s[k].pid in cache && cache[s[k].pid].cachedAt == s[k].cachedAt)
    && forall pid :: pid in cache ==> exists k :: 0 <= k < |s| && s[k].pid == pid
  }

  // The list names every entry once except those in `left`.
  ghost predicate ListsBut(s: seq<Aged>, cache: map<int, Cached>, left: set<(int, Cached)>) {
    && (forall j, k :: 0 <= j < k < |s| ==> s[j].pid != s[k].pid)
    && (forall k :: 0 <= k < |s| ==> s[k].pid in cache && cache[s[k].pid].cachedAt == s[k].cachedAt)
    && (forall k :: 0 <= k < |s| ==> (s[k].pid, cache[s[k].pid]) !in left)
    && forall pid :: pid in cache ==> (pid, cache[pid]) in left || exists k :: 0 <= k < |s| && s[k].pid == pid
  }

  lemma ListsExtend(s: seq<Aged>, cache: map<int, Cached>, left: set<(int, Cached)>, item: (int, Cached))
    requires left <= cache.Items && item in left && ListsBut(s, cache, left)
    ensures ListsBut(s + [Aged(item.0, item.1.cachedAt)], cache, left - {item})
  {
    var t := s + [Aged(item.0, item.1.cachedAt)];
    assert item in cache.Items && cache[item.0] == item.1;
    forall pid | pid in cache && (pid, cache[pid]) !in left - {item}
      ensures exists k :: 0 <= k < |t| && t[k].pid == pid
    {
      if (pid, cache[pid]) == item {
        assert t[|s|].pid == pid;
      } else {
        var k :| 0 <= k < |s| && s[k].pid == pid;
        assert t[k].pid == pid;
      }
    }
  }

  lemma ListsAll(s: seq<Aged>, cache: map<int, Cached>)
    requires ListsBut(s, cache, {})
    ensures Lists(s, cache)
  {}

  function Pids(s: seq<Aged>): set<int> {
    set e <- s :: e.pid
  }

  // The first n are no newer than any of the rest.
  ghost predicate OldestFirst(s: seq<Aged>, n: nat) {
    forall j, k :: 0 <= j < n <= k < |s| ==> s[j].cachedAt <= s[k].cachedAt
  }

  function Swapped(s: seq<Aged>, i: nat, j: nat): seq<Aged>
    requires i < |s| && j < |s|
  {
    s[i := s[j]][j := s[i]]
  }

  lemma SwapKeeps(s: seq<Aged>, cache: map<int, Cached>, i: nat, j: nat)
    requires i <= j < |s| && Lists(s, cache)
    ensures Lists(Swapped(s, i, j), cache) && Swapped(s, i, j)[..i] == s[..i]
  {
    var t := Swapped(s, i, j);
    forall pid | pid in cache ensures exists k :: 0 <= k < |t| && t[k].pid == pid {
      var k :| 0 <= k < |s| && s[k].pid == pid;
      assert t[if k == i then j else if k == j then i else k].pid == pid;
    }
  }

  // Taking the oldest of the rest into place i keeps the oldest first.
  lemma SwapOrders(s: seq<Aged>, i: nat, j: nat)
    requires i <= j < |s| && OldestFirst(s, i)
    requires forall k :: i <= k < |s| ==> s[j].cachedAt <= s[k].cachedAt
    ensures OldestFirst(Swapped(s, i, j), i + 1)
  {}

  lemma PidsExtend(s: seq<Aged>, cache: map<int, Cached>, i: nat)
    requires i < |s| && Lists(s, cache)
    ensures Pids(s[..i + 1]) == Pids(s[..i]) + {s[i].pid} && s[i].pid !in Pids(s[..i])
  {
    assert s[..i + 1] == s[..i] + [s[i]];
  }

  // One round of the selection, on lists.
  lemma EvictStep(s: seq<Aged>, before: map<int, Cached>, i: nat, oldest: nat)
    requires i <= oldest < |s| && Lists(s, before) && OldestFirst(s, i)
    requires forall k :: i <= k < |s| ==> s[oldest].cachedAt <= s[k].cachedAt
    ensures var t := Swapped(s, i, oldest);
            && Lists(t, before) && OldestFirst(t, i + 1)
            && before - Pids(s[..i]) - {t[i].pid} == before - Pids(t[..i + 1])
  {
    SwapKeeps(s, before, i, oldest);
    SwapOrders(s, i, oldest);
    var t := Swapped(s, i, oldest);
    PidsExtend(t, before, i);
    assert before - Pids(s[..i]) - {t[i].pid} == before - (Pids(t[..i]) + {t[i].pid});
  }

  lemma {:induction false} PidsCounted(s: seq<Aged>, cache: map<int, Cached>, n: nat)
    requires n <= |s| && Lists(s, cache)
    ensures |Pids(s[..n])| == n && Pids(s[..n]) <= cache.Keys
  {
    if n > 0 {
      PidsCounted(s, cache, n - 1);
      PidsExtend(s, cache, n - 1);
    }
  }

  lemma AllCounted(s: seq<Aged>, cache: map<int, Cached>)
    requires Lists(s, cache)
    ensures |s| == |cache|
  {
    PidsCounted(s, cache, |s|);
    assert s[..|s|] == s;
    forall pid | pid in cache ensures pid in Pids(s) {
      var k :| 0 <= k < |s| && s[k].pid == pid;
      assert s[k] in s;
    }
    assert Pids(s) == cache.Keys;
  }

  function ToEvict(n: nat): (k: nat)
    ensures n > 0 ==> 1 <= k <= n
    ensures n >= 2 ==> k < n
  {
    Max(n / 10, 1)
  }

  // A tenth of the entries is gone, at least one; none of those is newer than one that stays.
  ghost predicate EvictedFrom(before: map<int, Cached>, after: map<int, Cached>) {
    && after.Keys <= before.Keys
    && (forall pid <- after :: after[pid] == before[pid])
    && (forall p, q | p in before && p !in after && q in after :: before[p].cachedAt <= before[q].cachedAt)
    && |after| == |before| - ToEvict(|before|)
  }

  lemma NoneEvicted(before: map<int, Cached>, s: seq<Aged>)
    ensures before - Pids(s[..0]) == before
  {
    assert Pids(s[..0]) == {};
  }

  lemma OldestGone(before: map<int, Cached>, s: seq<Aged>, n: nat)
    requires Lists(s, before) && n == ToEvict(|before|) <= |s| && OldestFirst(s, n)
    ensures EvictedFrom(before, before - Pids(s[..n]))
  {
    var after := before - Pids(s[..n]);
    PidsCounted(s, before, n);
    assert after.Keys == before.Keys - Pids(s[..n]);
    forall k | 0 <= k < n ensures s[k].pid in Pids(s[..n]) { assert s[..n][k] == s[k]; }
    forall p, q | p in before && p !in after && q in after ensures before[p].cachedAt <= before[q].cachedAt {
      var e :| e in s[..n] && e.pid == p;
      var j :| 0 <= j < n && s[j] == e;
      var k :| 0 <= k < |s| && s[k].pid == q;
    }
  }

  /** An entry newer than all the others is not evicted by its own arrival. */
  lemma NewestSurvives(before: map<int, Cached>, after: map<int, Cached>, pid: int)
    requires EvictedFrom(before, after) && pid in before && |before| >= 2
    requires forall p <- before :: p != pid ==> before[p].cachedAt < before[pid].cachedAt
    ensures pid in after
  {
    assert |after.Keys| == |after| > 0;
    var q :| q in after.Keys;
  }

  // ---------- What the kernel says of a process ----------

  datatype Cgroup = Container(id: string) | Failed(error: Error)

  // ---------- The mapper ----------

  class ProcessMapper {
    const staleTTL: int
    const maxCache: nat
    var cache: map<int, Cached>
    // Every successful resolution so far: process, pod, time.
    ghost var resolved: set<(int, Pod, int)>

    ghost predicate Valid()
      reads this
    {
      && maxCache >= 1 && |cache| <= maxCache
      && forall pid <- cache :: (pid, cache[pid].info, cache[pid].cachedAt) in resolved
    }

    constructor (ttl: int, max: nat)
      requires max >= 1
      ensures Valid() && cache == map[] && resolved == {} && staleTTL == ttl && maxCache == max
    {
      staleTTL, maxCache := ttl, max;
      cache, resolved := map[], {};
    }

    // The cache's entries, in any order.
    method Entries() returns (entries: array<Aged>)
      ensures fresh(entries) && Lists(entries[..], cache)
    {
      var left, listed := cache.Items, [];
      while left != {}
        invariant left <= cache.Items && ListsBut(listed, cache, left)
        decreases left
      {
        var item :| item in left;
        ListsExtend(listed, cache, left, item);
        listed := listed + [Aged(item.0, item.1.cachedAt)];
        left := left - {item};
      }
      ListsAll(listed, cache);
      entries := new Aged[|listed|](i requires 0 <= i < |listed| => listed[i]);
      assert entries[..] == listed;
    }

    // The index of the oldest entry from i on.
    method OldestFrom(entries: array<Aged>, i: nat) returns (oldest: nat)
      requires i < entries.Length
      ensures i <= oldest < entries.Length
      ensures forall k :: i <= k < entries.Length ==> entries[oldest].cachedAt <= entries[k].cachedAt
    {
      oldest := i;
      for j := i + 1 to entries.Length
        invariant i <= oldest < entries.Length
        invariant forall k :: i <= k < j ==> entries[oldest].cachedAt <= entries[k].cachedAt
      {
        if entries[j].cachedAt < entries[oldest].cachedAt {
          oldest := j;
        }
      }
    }

    // One round of the selection: the oldest of the rest goes to place i, and out of the cache.
    method EvictOne(entries: array<Aged>, i: nat, ghost before: map<int, Cached>)
      requires i < entries.Length && Lists(entries[..], before) && OldestFirst(entries[..], i)
      requires cache == before - Pids(entries[..][..i])
      modifies this`cache, entries
      ensures Lists(entries[..], before) && OldestFirst(entries[..], i + 1)
      ensures cache == before - Pids(entries[..][..i + 1])
    {
      var oldest := OldestFrom(entries, i);
      ghost var s := entries[..];
      EvictStep(s, before, i, oldest);
      entries[i], entries[oldest] := entries[oldest], entries[i];
      assert entries[..] == Swapped(s, i, oldest);
      cache := cache - {entries[i].pid};
    }

    /** Removes the oldest tenth, at least one, by selecting the oldest entries in place. */
    method EvictOldest()
      modifies this`cache
      ensures if |old(cache)| == 0 then cache == old(cache) else EvictedFrom(old(cache), cache)
      ensures |old(cache)| >= 10 ==> |cache| == |old(cache)| - |old(cache)| / 10
      ensures 0 < |old(cache)| < 10 ==> |cache| == |old(cache)| - 1
      ensures forall p <- cache :: p in old(cache) && cache[p] == old(cache)[p]
      ensures forall p, q | p in old(cache) && p !in cache && q in cache ::
        old(cache)[p].cachedAt <= old(cache)[q].cachedAt
    {
      if |cache| == 0 {
        return;
      }
      var toEvict := |cache| / 10;
      if toEvict < 1 {
        toEvict := 1;
      }
      var entries := Entries();
      EvictFirst(entries, toEvict);
    }

    method EvictFirst(entries: array<Aged>, n: nat)
      requires Lists(entries[..], cache) && n == ToEvict(|cache|) && |cache| > 0
      modifies this`cache, entries
      ensures EvictedFrom(old(cache), cache)
    {
      ghost var before := cache;
      AllCounted(entries[..], before);
      NoneEvicted(before, entries[..]);
      for i := 0 to n
        invariant Lists(entries[..], before) && OldestFirst(entries[..], i)
        invariant cache == before - Pids(entries[..][..i])
      {
        EvictOne(entries, i, before);
      }
      OldestGone(before, entries[..], n);
    }

    // The locked update: insert, then evict when over capacity.
    method Store(pid: int, info: Pod, now: int)
      requires Valid()
      modifies this
      ensures Valid() && resolved == old(resolved) + {(pid, info, now)}
      ensures var inserted := old(cache)[pid := Cached(info, now)];
              if |inserted| <= maxCache then cache == inserted else EvictedFrom(inserted, cache)
    {
      resolved := resolved + {(pid, info, now)};
      InsertGrows(cache, pid, Cached(info, now));
      cache := cache[pid := Cached(info, now)];
      if |cache| > maxCache {
        EvictOldest();
      }
    }

    /**
      Answers from the cache while it holds the process and is fresh, or is all there is
      because the process cannot be read or its container cannot be looked up; and
      otherwise as the kernel and the API server say right now.
     */
    method GetPodForPID(pid: int, now: int, cgroup: Cgroup, lookup: string -> Result<Option<Pod>, Error>)
      returns (r: Result<Option<Pod>, Error>)
      requires Valid()
      modifies this
      ensures Valid()
      ensures pid <= 0 ==> r == Err(InvalidPID)
      // A fresh entry, and a stale one when resolution fails.
      ensures pid > 0 && pid in old(cache) && now - old(cache)[pid].cachedAt < staleTTL ==>
        r == Ok(Some(old(cache)[pid].info))
      ensures pid > 0 && pid in old(cache) && cgroup.Failed? ==> r == Ok(Some(old(cache)[pid].info))
      ensures pid > 0 && pid in old(cache) && cgroup.Container? && cgroup.id != "" && lookup(cgroup.id).Err? ==>
        r == Ok(Some(old(cache)[pid].info))
      // No entry, and resolution fails.
      ensures pid > 0 && pid !in old(cache) && cgroup == Failed(NotExist) ==> r == Ok(None)
      ensures pid > 0 && pid !in old(cache) && cgroup.Failed? && cgroup.error != NotExist ==> r == Err(cgroup.error)
      ensures pid > 0 && pid !in old(cache) && cgroup.Container? && cgroup.id != "" && lookup(cgroup.id).Err? ==>
        r == Err(lookup(cgroup.id).error)
      // No fresh entry, and the process can be read; what is cached then, and otherwise.
      ensures var recent := pid in old(cache) && now - old(cache)[pid].cachedAt < staleTTL;
              && (pid > 0 && !recent && cgroup == Container("") ==> r == Ok(None))
              && (pid > 0 && !recent && cgroup.Container? && cgroup.id != "" && lookup(cgroup.id).Ok? ==>
                    r == lookup(cgroup.id))
              && if pid > 0 && !recent && cgroup.Container? && cgroup.id != "" &&
                    lookup(cgroup.id).Ok? && lookup(cgroup.id).value.Some?
                 then
                   var pod := lookup(cgroup.id).value.value;
                   var inserted := old(cache)[pid := Cached(pod, now)];
                   && resolved == old(resolved) + {(pid, pod, now)}
                   && if |inserted| <= maxCache then cache == inserted else EvictedFrom(inserted, cache)
                 else cache == old(cache) && resolved == old(resolved)
      // Every pod answered was resolved for that process.
      ensures r.Ok? && r.value.Some? ==>
        exists at :: (pid, r.value.value, at) in resolved &&
          (at == now || now - at < staleTTL || cgroup.Failed? || (cgroup.id != "" && lookup(cgroup.id).Err?))
    {
      if pid <= 0 {
        return Err(InvalidPID);
      }
      var cached := Lookup(cache, pid);
      if cached.Some? {
        assert (pid, cached.value.info, cached.value.cachedAt) in resolved;
        if now - cached.value.cachedAt < staleTTL {
          return Ok(Some(cached.value.info));
        }
      }
      if cgroup.Failed? {
        if cached.Some? {
          return Ok(Some(cached.value.info));
        }
        return if cgroup.error == NotExist then Ok(None) else Err(cgroup.error);
      }
      if cgroup.id == "" {
        return Ok(None);
      }
      var found := lookup(cgroup.id);
      if found.Err? {
        return if cached.Some? then Ok(Some(cached.value.info)) else Err(found.error);
      }
      if found.value.None? {
        return Ok(None);
      }
      Store(pid, found.value.value, now);
      assert (pid, found.value.value, now) in resolved;
      r := Ok(Some(found.value.value));
    }

    method ClearCache()
      requires Valid()
      modifies this`cache
      ensures Valid() && cache == map[]
    {
      cache := map[];
    }
  }

  lemma InsertGrows(cache: map<int, Cached>, pid: int, c: Cached)
    ensures |cache| <= |cache[pid := c]| <= |cache| + 1
  {
    assert cache[pid := c].Keys == cache.Keys + {pid};
  }
}
