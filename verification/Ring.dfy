/** The circular buffer of pkg/blackbox/ring.go, against the plain sequence of what was added. */
module Ring {
  import opened Basics

  type Time = int

  // ---------- What the queries mean on a sequence ----------

  // The last n items, or all of them if there are fewer.
  function LastN<T>(s: seq<T>, n: nat): (r: seq<T>)
    ensures |r| == if |s| < n then |s| else n
  {
    if |s| <= n then s else s[|s| - n..]
  }

  // Everything from the first item not before `since` on.
  function From<T>(s: seq<T>, since: Time, at: T -> Time): seq<T> {
    if s == [] then [] else if at(s[0]) >= since then s else From(s[1..], since, at)
  }

  function Filter<T>(s: seq<T>, keep: T -> bool): seq<T> {
    if s == [] then []
    else Filter(s[..|s| - 1], keep) + if keep(s[|s| - 1]) then [s[|s| - 1]] else []
  }

  function Distance(a: Time, b: Time): (d: nat)
    ensures d == a - b || d == b - a
  {
    if a < b then b - a else a - b
  }

  // Where the first item not before `since` stands; past the end if there is none.
  lemma {:induction false} FromCut<T>(s: seq<T>, since: Time, at: T -> Time) returns (k: nat)
    ensures k <= |s| && From(s, since, at) == s[k..]
    ensures (forall j :: 0 <= j < k ==> at(s[j]) < since) && (k < |s| ==> at(s[k]) >= since)
  {
    if s == [] || at(s[0]) >= since {
      k := 0;
    } else {
      var rest := FromCut(s[1..], since, at);
      k := rest + 1;
      assert forall j :: 1 <= j < k ==> s[j] == s[1..][j - 1];
    }
  }

  // Item i is nearest to the target, and no earlier item is as near.
  ghost predicate OldestNearest<T>(s: seq<T>, target: Time, at: T -> Time, i: nat) {
    && i < |s|
    && (forall j :: 0 <= j < |s| ==> Distance(at(s[i]), target) <= Distance(at(s[j]), target))
    && (forall j :: 0 <= j < i ==> Distance(at(s[i]), target) < Distance(at(s[j]), target))
  }

  /** No item is nearer to the target, before or after it, and no older one is as near. */
  lemma NearestExact<T>(s: seq<T>, target: Time, at: T -> Time, i: nat, j: nat)
    requires OldestNearest(s, target, at, i) && j < |s|
    ensures at(s[i]) >= target ==> at(s[j]) >= at(s[i]) || at(s[j]) <= target - (at(s[i]) - target)
    ensures at(s[i]) <= target ==> at(s[j]) <= at(s[i]) || at(s[j]) >= target + (target - at(s[i]))
    ensures at(s[j]) == at(s[i]) || at(s[j]) == 2 * target - at(s[i]) ==> i <= j
  {}

  // One more item takes over exactly when it is strictly nearer.
  lemma NearestExtends<T>(s: seq<T>, target: Time, at: T -> Time, best: nat, n: nat)
    requires n < |s| && (n > 0 ==> OldestNearest(s[..n], target, at, best))
    ensures n == 0 || Distance(at(s[n]), target) < Distance(at(s[best]), target) ==>
            OldestNearest(s[..n + 1], target, at, n)
    ensures n > 0 && Distance(at(s[n]), target) >= Distance(at(s[best]), target) ==>
            OldestNearest(s[..n + 1], target, at, best)
  {
    forall j | 0 <= j < n ensures s[..n][j] == s[..n + 1][j] {}
  }

  // Adding to what a bounded store keeps is keeping what was added to all of it.
  lemma LastNExtends<T>(s: seq<T>, x: T, n: nat)
    requires n > 0
    ensures LastN(LastN(s, n) + [x], n) == LastN(s + [x], n)
  {}

  lemma {:induction false} FilterPrepends<T>(x: T, s: seq<T>, keep: T -> bool)
    ensures Filter([x] + s, keep) == (if keep(x) then [x] else []) + Filter(s, keep)
  {
    if s == [] {
      assert [x] + s == [x] && [x][..0] == [];
    } else {
      FilterPrepends(x, s[..|s| - 1], keep);
      assert ([x] + s)[..|s|] == [x] + s[..|s| - 1];
    }
  }

  lemma {:induction false} FilterAll<T>(s: seq<T>, keep: T -> bool)
    ensures |Filter(s, keep)| <= |s|
    ensures Filter(s, keep) == s <==> forall x <- s :: keep(x)
  {
    if s != [] {
      FilterAll(s[..|s| - 1], keep);
      assert s == s[..|s| - 1] + [s[|s| - 1]];
    }
  }

  lemma {:induction false} FilterIn<T>(s: seq<T>, keep: T -> bool, x: T)
    ensures x in Filter(s, keep) <==> x in s && keep(x)
  {
    if s != [] {
      FilterIn(s[..|s| - 1], keep, x);
      assert s == s[..|s| - 1] + [s[|s| - 1]];
    }
  }

  function AtOrAfter<T>(since: Time, at: T -> Time): T -> bool {
    x => at(x) >= since
  }

  // Once an item is in the window, all later ones are.
  ghost predicate StaysIn<T>(s: seq<T>, since: Time, at: T -> Time) {
    forall i, j :: 0 <= i < j < |s| && at(s[i]) >= since ==> at(s[j]) >= since
  }

  /**
    Cutting at the first item of the window gives the window exactly when no item
    outside it follows one inside, as in any buffer filled in order of time.
   */
  lemma {:induction false} FromIsWindow<T>(s: seq<T>, since: Time, at: T -> Time)
    ensures From(s, since, at) == Filter(s, AtOrAfter(since, at)) <==> StaysIn(s, since, at)
  {
    var keep := AtOrAfter(since, at);
    if s != [] {
      assert s == [s[0]] + s[1..];
      if at(s[0]) >= since {
        FilterAll(s, keep);
        AllKept(s, since, at);
      } else {
        FilterPrepends(s[0], s[1..], keep);
        assert [] + Filter(s[1..], keep) == Filter(s[1..], keep);
        FromIsWindow(s[1..], since, at);
        StaysInTail(s, since, at);
      }
    }
  }

  // With the first item in the window, staying in means all of it is.
  lemma AllKept<T>(s: seq<T>, since: Time, at: T -> Time)
    requires s != [] && at(s[0]) >= since
    ensures StaysIn(s, since, at) <==> forall x <- s :: AtOrAfter(since, at)(x)
  {
    var keep := AtOrAfter(since, at);
    if forall x <- s :: keep(x) {
      assert forall j :: 0 <= j < |s| ==> s[j] in s;
    } else {
      var x :| x in s && !keep(x);
      var j :| 0 <= j < |s| && s[j] == x;
      assert 0 < j && at(s[0]) >= since && at(s[j]) < since;
    }
  }

  lemma StaysInTail<T>(s: seq<T>, since: Time, at: T -> Time)
    requires s != [] && at(s[0]) < since
    ensures StaysIn(s, since, at) <==> StaysIn(s[1..], since, at)
  {
    var rest := s[1..];
    if StaysIn(rest, since, at) {
      forall i, j | 0 <= i < j < |s| && at(s[i]) >= since ensures at(s[j]) >= since {
        assert rest[i - 1] == s[i] && rest[j - 1] == s[j];
      }
    }
    if StaysIn(s, since, at) {
      forall i, j | 0 <= i < j < |rest| && at(rest[i]) >= since ensures at(rest[j]) >= since {
        assert s[i + 1] == rest[i] && s[j + 1] == rest[j];
      }
    }
  }

  // ---------- The buffer ----------

  // The items held in `cells`, oldest first, when the next write goes to `head`.
  function Held<T>(cells: seq<T>, head: nat, full: bool): seq<T>
    requires head <= |cells|
  {
    if full then cells[head..] + cells[..head] else cells[..head]
  }

  lemma HeldAfterAdd<T>(cells: seq<T>, head: nat, full: bool, x: T)
    requires head < |cells|
    ensures var next := if head + 1 == |cells| then 0 else head + 1;
            Held(cells[head := x], next, full || head + 1 == |cells|) ==
            (if full then Held(cells, head, full)[1..] else Held(cells, head, full)) + [x]
  {}

  lemma WrapAround(a: nat, n: nat)
    requires a < 2 * n
    ensures a % n == if a < n then a else a - n
  {}

  class RingBuffer<T(0)> {
    const data: array<T>
    const capacity: nat
    var head: nat   // next write position
    var size: nat
    var full: bool  // the buffer has wrapped
    // Every item added since the last Clear.
    ghost var added: seq<T>

    ghost predicate Shape()
      reads this
    {
      && data.Length == capacity > 0
      && head < capacity
      && size <= capacity && (full <==> size == capacity)
      && (full || head == size)
    }

    // The items held, oldest first.
    ghost function Items(): (items: seq<T>)
      requires Shape()
      reads this, data
      ensures |items| == size
    {
      Held(data[..], head, full)
    }

    ghost predicate Valid()
      reads this, data
    {
      Shape() && Items() == LastN(added, capacity)
    }

    constructor (n: nat)
      requires n > 0
      ensures Valid() && fresh(data) && capacity == n && added == []
    {
      data := new T[n];
      capacity, head, size, full := n, 0, 0, false;
      added := [];
    }

    /** Adds an item; when the buffer is full the oldest one goes. */
    method Add(item: T)
      requires Valid()
      modifies this, data
      ensures Valid() && added == old(added) + [item]
      ensures Items() == LastN(old(Items()) + [item], capacity)
    {
      ghost var cells := data[..];
      LastNExtends(added, item, capacity);
      WrapAround(head + 1, capacity);
      HeldAfterAdd(cells, head, full, item);
      data[head] := item;
      assert data[..] == cells[head := item];
      head := (head + 1) % capacity;
      added := added + [item];
      if full {
        return;
      }
      size := size + 1;
      if size == capacity {
        full := true;
      }
    }

    method Clear(zero: T)
      requires Valid()
      modifies this, data
      ensures Valid() && added == [] && Items() == []
    {
      for i := 0 to data.Length {
        data[i] := zero;
      }
      head, size, full := 0, 0, false;
      added := [];
    }

    method Latest() returns (r: Option<T>)
      requires Valid()
      ensures r == if added == [] then None else Some(added[|added| - 1])
    {
      if size == 0 {
        return None;
      }
      var idx := (head - 1 + capacity) % capacity;
      WrapAround(head - 1 + capacity, capacity);
      assert Items()[size - 1] == data[idx];
      r := Some(data[idx]);
    }

    method Size() returns (n: nat)
      requires Valid()
      ensures n == |LastN(added, capacity)|
    {
      n := size;
    }

    method All() returns (r: seq<T>)
      requires Valid()
      ensures r == LastN(added, capacity)
    {
      if size == 0 {
        return [];
      }
      r := if full then data[head..] + data[..head] else data[..size];
    }

    /** Everything retained from the first item not before `since` on. */
    method Query(since: Time, at: T -> Time) returns (r: seq<T>)
      requires Valid()
      ensures r == From(LastN(added, capacity), since, at)
    {
      if size == 0 {
        return [];
      }
      var ordered := if full then data[head..] + data[..head] else data[..size];
      var start := 0;
      while start < |ordered| && at(ordered[start]) < since
        invariant start <= |ordered|
        invariant From(ordered, since, at) == From(ordered[start..], since, at)
      {
        assert ordered[start..][1..] == ordered[start + 1..];
        start := start + 1;
      }
      r := ordered[start..];
    }

    // The position in `data` of the i-th item held.
    function Slot(i: nat): (slot: nat)
      requires Shape() && i < size
      reads this, data
      ensures slot < capacity && data[slot] == Items()[i]
    {
      if full then
        WrapAround(head + i, capacity);
        (head + i) % capacity
      else i
    }

    method QueryFunc(keep: T -> bool) returns (r: seq<T>)
      requires Valid()
      ensures r == Filter(LastN(added, capacity), keep)
    {
      r := [];
      ghost var items := Items();
      for i := 0 to size
        invariant r == Filter(items[..i], keep)
      {
        var item := data[Slot(i)];
        assert items[..i + 1][..i] == items[..i];
        if keep(item) {
          r := r + [item];
        }
      }
      assert items[..size] == items;
    }

    /** The oldest of the retained items nearest to the target instant. */
    method FindNearest(target: Time, at: T -> Time) returns (r: Option<T>)
      requires Valid()
      ensures r.None? <==> added == []
      ensures r.Some? ==> exists i: nat ::
        OldestNearest(LastN(added, capacity), target, at, i) && r.value == LastN(added, capacity)[i]
    {
      if size == 0 {
        return None;
      }
      ghost var items := Items();
      var best := data[Slot(0)];
      var bestDiff: int := -1;
      ghost var bestAt: nat := 0;
      for i := 0 to size
        invariant bestDiff < 0 <==> i == 0
        invariant i > 0 ==> bestAt < i && best == items[bestAt] && bestDiff == Distance(at(best), target)
        invariant i > 0 ==> OldestNearest(items[..i], target, at, bestAt)
      {
        NearestExtends(items, target, at, bestAt, i);
        var item := data[Slot(i)];
        var diff := Distance(at(item), target);
        if bestDiff < 0 || diff < bestDiff {
          best, bestDiff, bestAt := item, diff, i;
        }
      }
      assert items[..size] == items;
      r := Some(best);
    }
  }

  // A capacity of zero or less is refused.
  method NewRingBuffer<T(0)>(capacity: int) returns (r: Option<RingBuffer<T>>)
    ensures r.None? <==> capacity <= 0
    ensures r.Some? ==> fresh(r.value) && fresh(r.value.data)
    ensures r.Some? ==> r.value.Valid() && r.value.capacity == capacity && r.value.added == []
  {
    if capacity <= 0 {
      return None;
    }
    var b := new RingBuffer<T>(capacity);
    r := Some(b);
  }
}
