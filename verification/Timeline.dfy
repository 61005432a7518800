/** Incident timelines: sorting, deduplication and order, as in pkg/events/correlator.go. */
module Timelines {

  datatype Entry = Entry(timestamp: int, eventType: string, description: string)

  function TypesOf(es: seq<Entry>): (types: seq<string>)
    ensures |types| == |es|
    ensures forall i :: 0 <= i < |es| ==> types[i] == es[i].eventType
  {
    seq(|es|, i requires 0 <= i < |es| => es[i].eventType)
  }

  ghost predicate InTimeOrder(es: seq<Entry>) {
    forall i, j :: 0 <= i < j < |es| ==> es[i].timestamp <= es[j].timestamp
  }

  // ---------- Sorting ----------

  // Any correct sort will do: nothing is promised of entries with equal times.
  ghost predicate SortOf(sorted: seq<Entry>, es: seq<Entry>) {
    multiset(sorted) == multiset(es) && InTimeOrder(sorted)
  }

  method SortByTime(es: seq<Entry>) returns (sorted: seq<Entry>)
    ensures SortOf(sorted, es)
  {
    sorted := [];
    for i := 0 to |es|
      invariant SortOf(sorted, es[..i])
    {
      SortExtends(sorted, es, i);
      sorted := Insert(sorted, es[i]);
    }
    assert es[..|es|] == es;
  }

  method Insert(s: seq<Entry>, e: Entry) returns (r: seq<Entry>)
    requires InTimeOrder(s)
    ensures SortOf(r, s + [e])
  {
    var k := 0;
    while k < |s| && s[k].timestamp <= e.timestamp
      invariant 0 <= k <= |s|
      invariant forall j :: 0 <= j < k ==> s[j].timestamp <= e.timestamp
    {
      k := k + 1;
    }
    InsertKeepsOrder(s, k, e);
    r := s[..k] + [e] + s[k..];
  }

  lemma InsertKeepsOrder(s: seq<Entry>, k: nat, e: Entry)
    requires InTimeOrder(s) && k <= |s|
    requires forall j :: 0 <= j < k ==> s[j].timestamp <= e.timestamp
    requires k < |s| ==> e.timestamp < s[k].timestamp
    ensures SortOf(s[..k] + [e] + s[k..], s + [e])
  {
    InsertKeepsAll(s, k, e);
    var r := s[..k] + [e] + s[k..];
    forall i, j | 0 <= i < j < |r| ensures r[i].timestamp <= r[j].timestamp {
      assert r[i] == if i < k then s[i] else if i == k then e else s[i - 1];
      assert r[j] == if j < k then s[j] else if j == k then e else s[j - 1];
    }
  }

  lemma InsertKeepsAll(s: seq<Entry>, k: nat, e: Entry)
    requires k <= |s|
    ensures multiset(s[..k] + [e] + s[k..]) == multiset(s + [e])
  {
    assert s == s[..k] + s[k..];
  }

  lemma SortExtends(sorted: seq<Entry>, es: seq<Entry>, i: nat)
    requires i < |es| && SortOf(sorted, es[..i])
    ensures multiset(sorted + [es[i]]) == multiset(es[..i + 1])
  {
    assert es[..i + 1] == es[..i] + [es[i]];
  }

  // ---------- Deduplication ----------

  function Key(e: Entry): string {
    e.eventType + "|" + e.description
  }

  // No earlier entry has the key of entry j.
  predicate FirstOfItsKey(es: seq<Entry>, j: nat)
    requires j < |es|
  {
    forall i :: 0 <= i < j ==> Key(es[i]) != Key(es[j])
  }

  function Dedup(es: seq<Entry>): seq<Entry> {
    if es == [] then []
    else
      var n := |es| - 1;
      Dedup(es[..n]) + if FirstOfItsKey(es, n) then [es[n]] else []
  }

  function KeysOf(es: seq<Entry>): set<string> {
    set e <- es :: Key(e)
  }

  // The loop: keeps the first entry of each key.
  method KeepFirsts(es: seq<Entry>) returns (result: seq<Entry>)
    ensures result == Dedup(es)
  {
    result := [];
    var seen: set<string> := {};
    for i := 0 to |es|
      invariant result == Dedup(es[..i])
      invariant forall key :: key in seen <==> exists k :: 0 <= k < i && Key(es[k]) == key
    {
      assert es[..i + 1][..i] == es[..i];
      var key := Key(es[i]);
      if key !in seen {
        seen := seen + {key};
        result := result + [es[i]];
      }
    }
    assert es[..|es|] == es;
  }

  /**
    Keeps the first entry of each key and drops the others. Where no type contains the
    separator that is the first entry of each pair of type and description, in order.
   */
  method DeduplicateTimeline(es: seq<Entry>) returns (result: seq<Entry>)
    ensures result == Dedup(es)
    ensures (forall e <- es :: '|' !in e.eventType) ==>
      && (forall e <- es :: exists m ::
            0 <= m < |result| && result[m].eventType == e.eventType && result[m].description == e.description)
      && (forall l, m :: 0 <= l < m < |result| ==>
            result[l].eventType != result[m].eventType || result[l].description != result[m].description)
    ensures exists at: seq<nat> :: Origins(es, result, at)
  {
    if |es| <= 1 {
      assert es != [] ==> es[..0] == [] && es == [es[0]];
      result := es;
    } else {
      result := KeepFirsts(es);
    }
    hide Dedup, Origins;
    Kept(es, result);
  }

  // Where the kept entries come from: position m of the result is first of its key in the input.
  lemma {:induction false} KeptFrom(es: seq<Entry>, m: nat) returns (j: nat)
    requires m < |Dedup(es)|
    ensures j < |es| && es[j] == Dedup(es)[m] && FirstOfItsKey(es, j)
    ensures |Dedup(es[..j])| == m
  {
    var n := |es| - 1;
    if m < |Dedup(es[..n])| {
      j := KeptFrom(es[..n], m);
      assert es[..n][..j] == es[..j];
    } else {
      j := n;
    }
  }

  // Every entry that is first of its key is kept, after all those kept from before it.
  lemma {:induction false} KeptAt(es: seq<Entry>, j: nat)
    requires j < |es| && FirstOfItsKey(es, j)
    ensures |Dedup(es[..j])| < |Dedup(es)| && Dedup(es)[|Dedup(es[..j])|] == es[j]
  {
    var n := |es| - 1;
    if j < n {
      KeptAt(es[..n], j);
      assert es[..n][..j] == es[..j];
    }
  }

  // What is kept of a prefix is a prefix of what is kept.
  lemma {:induction false} KeptPrefix(es: seq<Entry>, i: nat)
    requires i <= |es|
    ensures Dedup(es[..i]) <= Dedup(es)
  {
    if i == |es| {
      assert es[..i] == es;
    } else {
      KeptPrefix(es[..|es| - 1], i);
      assert es[..|es| - 1][..i] == es[..i];
    }
  }

  lemma KeptInOrder(es: seq<Entry>, i: nat, j: nat)
    requires i < j < |es| && FirstOfItsKey(es, i)
    ensures |Dedup(es[..i])| < |Dedup(es[..j])|
  {
    KeptAt(es[..j], i);
    assert es[..j][..i] == es[..i];
  }

  /**
    The result holds exactly one entry for each key of the input, the first with
    that key, and keeps their order; so a list sorted by time stays sorted.
   */
  lemma DedupKeepsFirsts(es: seq<Entry>)
    ensures forall e <- Dedup(es) :: e in es
    ensures forall l, m :: 0 <= l < m < |Dedup(es)| ==> Key(Dedup(es)[l]) != Key(Dedup(es)[m])
    ensures KeysOf(Dedup(es)) == KeysOf(es)
    ensures InTimeOrder(es) ==> InTimeOrder(Dedup(es))
  {
    forall e | e in Dedup(es) ensures e in es {
      var m :| 0 <= m < |Dedup(es)| && Dedup(es)[m] == e;
      var j := KeptFrom(es, m);
    }
    forall l, m | 0 <= l < m < |Dedup(es)|
      ensures Key(Dedup(es)[l]) != Key(Dedup(es)[m])
      ensures InTimeOrder(es) ==> Dedup(es)[l].timestamp <= Dedup(es)[m].timestamp
    {
      var i := KeptFrom(es, l);
      var j := KeptFrom(es, m);
      OriginsInOrder(es, i, j);
    }
    forall e | e in es ensures Key(e) in KeysOf(Dedup(es)) {
      var j :| 0 <= j < |es| && es[j] == e;
      var i := FirstWithKey(es, j);
      KeptAt(es, i);
      assert es[i] in Dedup(es);
    }
  }

  lemma OriginsInOrder(es: seq<Entry>, i: nat, j: nat)
    requires i < |es| && j < |es|
    ensures |Dedup(es[..i])| < |Dedup(es[..j])| ==> i < j
  {
    if j <= i {
      KeptPrefix(es[..i], j);
      assert es[..i][..j] == es[..j];
    }
  }

  // The first entry with the key of entry j.
  lemma {:induction false} FirstWithKey(es: seq<Entry>, j: nat) returns (i: nat)
    requires j < |es|
    ensures i <= j && Key(es[i]) == Key(es[j]) && FirstOfItsKey(es, i)
    decreases j
  {
    if FirstOfItsKey(es, j) {
      i := j;
    } else {
      var k :| 0 <= k < j && Key(es[k]) == Key(es[j]);
      i := FirstWithKey(es, k);
    }
  }

  // ---------- Keys and types ----------

  predicate Plain(s: string) {
    '|' !in s
  }

  // When no type contains the separator, equal keys mean equal types and descriptions.
  lemma {:induction false} KeyDetermines(a: string, x: string, b: string, y: string)
    requires Plain(a) && Plain(b) && a + "|" + x == b + "|" + y
    ensures a == b && x == y
  {
    assert a != "" ==> a[0] in a && a[0] != '|';
    assert b != "" ==> b[0] in b && b[0] != '|';
    if a == "" || b == "" {
      assert (a + "|" + x)[0] == (b + "|" + y)[0];
      assert x == (a + "|" + x)[1..] && y == (b + "|" + y)[1..];
    } else {
      assert (a + "|" + x)[0] == a[0] && (b + "|" + y)[0] == b[0];
      assert (a + "|" + x)[1..] == a[1..] + "|" + x;
      assert (b + "|" + y)[1..] == b[1..] + "|" + y;
      KeyDetermines(a[1..], x, b[1..], y);
    }
  }

  // No entry of another type has the key of a `t`.
  ghost predicate OwnKeys(es: seq<Entry>, t: string) {
    forall d, e :: d in es && e in es && d.eventType == t && Key(e) == Key(d) ==> e.eventType == t
  }

  lemma SameOwnKeys(s: seq<Entry>, es: seq<Entry>, t: string)
    requires (forall e :: e in s <==> e in es) && OwnKeys(es, t)
    ensures OwnKeys(s, t)
  {}

  /** No such type is lost, or gained. */
  lemma DedupKeepsTypes(es: seq<Entry>, t: string)
    requires OwnKeys(es, t)
    ensures t in TypesOf(Dedup(es)) <==> t in TypesOf(es)
  {
    if t in TypesOf(es) {
      var j :| 0 <= j < |es| && es[j].eventType == t;
      var i := FirstWithKey(es, j);
      assert es[i] in es && es[j] in es;
      KeptAt(es, i);
      assert TypesOf(Dedup(es))[|Dedup(es[..i])|] == t;
    }
    if t in TypesOf(Dedup(es)) {
      var m :| 0 <= m < |Dedup(es)| && Dedup(es)[m].eventType == t;
      var j := KeptFrom(es, m);
      assert TypesOf(es)[j] == t;
    }
  }

  // Where each kept entry stands in the input: in order, and with none like it before it.
  ghost predicate Origins(es: seq<Entry>, kept: seq<Entry>, at: seq<nat>) {
    && |at| == |kept| && (forall l, m :: 0 <= l < m < |at| ==> at[l] < at[m])
    && (forall m :: 0 <= m < |kept| ==> at[m] < |es| && kept[m] == es[at[m]])
    && (forall m, j: nat :: 0 <= m < |kept| && j < at[m] ==>
          es[j].eventType != kept[m].eventType || es[j].description != kept[m].description)
  }

  // The place of each kept entry.
  ghost function Places(es: seq<Entry>): (at: seq<nat>)
    ensures |at| == |Dedup(es)|
  {
    if es == [] then []
    else
      var n := |es| - 1;
      Places(es[..n]) + if FirstOfItsKey(es, n) then [n] else []
  }

  lemma {:induction false} PlacesFit(es: seq<Entry>)
    ensures Origins(es, Dedup(es), Places(es))
    ensures forall m :: 0 <= m < |Places(es)| ==> Places(es)[m] < |es|
  {
    if es != [] {
      var n := |es| - 1;
      PlacesFit(es[..n]);
      var at, kept := Places(es), Dedup(es);
      forall m, j: nat | 0 <= m < |kept| && j < at[m]
        ensures es[j].eventType != kept[m].eventType || es[j].description != kept[m].description
      {
        if m < |Dedup(es[..n])| {
          assert es[..n][j] == es[j];
        } else {
          assert Key(es[j]) != Key(es[n]);
        }
      }
    }
  }

  // An entry with the type and description of each, where types are plain.
  lemma PairKept(es: seq<Entry>, j: nat) returns (m: nat)
    requires j < |es| && OwnKeys(es, es[j].eventType)
    ensures m < |Dedup(es)| && Dedup(es)[m].eventType == es[j].eventType
    ensures Dedup(es)[m].description == es[j].description
    ensures InTimeOrder(es) ==> Dedup(es)[m].timestamp <= es[j].timestamp
  {
    var f := FirstWithKey(es, j);
    assert es[f] in es && es[j] in es;
    SameTail(es[j].eventType, es[f].description, es[j].description);
    KeptAt(es, f);
    m := |Dedup(es[..f])|;
  }

  lemma SameTail(t: string, x: string, y: string)
    requires t + "|" + x == t + "|" + y
    ensures x == y
  {
    assert x == (t + "|" + x)[|t| + 1..] && y == (t + "|" + y)[|t| + 1..];
  }

  lemma PlainTypesOwn(es: seq<Entry>, t: string)
    requires forall e <- es :: Plain(e.eventType)
    ensures OwnKeys(es, t)
  {
    forall d, e | d in es && e in es && d.eventType == t && Key(e) == Key(d) ensures e.eventType == t {
      KeyDetermines(d.eventType, d.description, e.eventType, e.description);
    }
  }

  /**
    What is kept, in terms of types and descriptions: entries of the input in their
    order, each the first of its pair, no pair twice, and where types are plain all pairs.
   */
  lemma Kept(es: seq<Entry>, kept: seq<Entry>)
    requires kept == Dedup(es)
    ensures exists at: seq<nat> :: Origins(es, kept, at)
    ensures forall l, m :: 0 <= l < m < |kept| ==>
      kept[l].eventType != kept[m].eventType || kept[l].description != kept[m].description
    ensures (forall e <- es :: '|' !in e.eventType) ==>
      forall e <- es :: exists m ::
        0 <= m < |kept| && kept[m].eventType == e.eventType && kept[m].description == e.description
  {
    PlacesFit(es);
    DedupKeepsFirsts(es);
    assert forall l, m :: 0 <= l < m < |kept| ==> Key(kept[l]) != Key(kept[m]);
    if forall e <- es :: Plain(e.eventType) {
      forall e | e in es
        ensures exists m ::
          0 <= m < |kept| && kept[m].eventType == e.eventType && kept[m].description == e.description
      {
        var j :| 0 <= j < |es| && es[j] == e;
        PlainTypesOwn(es, e.eventType);
        var m := PairKept(es, j);
      }
    }
  }

  // ---------- Order of types ----------

  ghost predicate Follows(types: seq<string>, a: string, b: string) {
    exists i, j :: 0 <= i <= j < |types| && types[i] == a && types[j] == b
  }

  /** Says whether a `b` comes at or after an `a`. */
  method HasSequence(types: seq<string>, a: string, b: string) returns (r: bool)
    ensures r <==> exists i, j :: 0 <= i <= j < |types| && types[i] == a && types[j] == b
  {
    var foundA: int := -1;
    for i := 0 to |types|
      invariant foundA < 0 ==> forall k :: 0 <= k < i ==> types[k] != a
      invariant foundA >= 0 ==> foundA < i && types[foundA] == a
      invariant forall k, l :: 0 <= k <= l < i && types[k] == a ==> types[l] != b
    {
      if types[i] == a && foundA < 0 {
        foundA := i;
      }
      if types[i] == b && foundA >= 0 {
        return true;
      }
    }
    return false;
  }

  // Types a and b occur in this order, and the entry for b is the first of its key.
  ghost predicate FollowsFirst(es: seq<Entry>, a: string, b: string) {
    exists i: nat, j: nat :: i <= j < |es| && es[i].eventType == a && es[j].eventType == b && FirstOfItsKey(es, j)
  }

  lemma OrderComesFrom(es: seq<Entry>, a: string, b: string)
    requires Follows(TypesOf(Dedup(es)), a, b)
    ensures FollowsFirst(es, a, b)
  {
    var kept := Dedup(es);
    var l, m :| 0 <= l <= m < |kept| && TypesOf(kept)[l] == a && TypesOf(kept)[m] == b;
    var i := KeptFrom(es, l);
    var j := KeptFrom(es, m);
    if l < m { OriginsInOrder(es, i, j); } else { assert a == b; i := j; }
    assert es[i].eventType == a && es[j].eventType == b;
  }

  lemma OrderIsKept(es: seq<Entry>, a: string, b: string)
    requires OwnKeys(es, a) && FollowsFirst(es, a, b)
    ensures Follows(TypesOf(Dedup(es)), a, b)
  {
    var i: nat, j: nat :| i <= j < |es| && es[i].eventType == a && es[j].eventType == b && FirstOfItsKey(es, j);
    var f := FirstWithKey(es, i);
    assert es[f] in es && es[i] in es;
    KeptAt(es, f);
    KeptAt(es, j);
    if f < j { KeptInOrder(es, f, j); }
    var types := TypesOf(Dedup(es));
    assert types[|Dedup(es[..f])|] == a && types[|Dedup(es[..j])|] == b;
  }

  /**
    Deduplication can only lose an order of types, and loses it exactly when every
    `b` after an `a` repeats an entry from before: an `a` is never lost to this.
   */
  lemma DedupOrderExact(es: seq<Entry>, a: string, b: string)
    requires OwnKeys(es, a)
    ensures Follows(TypesOf(Dedup(es)), a, b) <==> FollowsFirst(es, a, b)
    ensures Follows(TypesOf(Dedup(es)), a, b) ==> Follows(TypesOf(es), a, b)
  {
    if Follows(TypesOf(Dedup(es)), a, b) {
      OrderComesFrom(es, a, b);
      var i: nat, j: nat :| i <= j < |es| && es[i].eventType == a && es[j].eventType == b && FirstOfItsKey(es, j);
      assert TypesOf(es)[i] == a && TypesOf(es)[j] == b;
    }
    if FollowsFirst(es, a, b) { OrderIsKept(es, a, b); }
  }

  const Repeated :=
    [Entry(0, "xid", "XID 79"), Entry(1, "throttle", "GPU throttling active"), Entry(2, "xid", "XID 79")]

  /** The order of types in the whole list does not survive when the later entry is a repetition. */
  lemma DedupCanLoseOrder()
    ensures exists es: seq<Entry> ::
      && InTimeOrder(es) && OwnKeys(es, "throttle") && Follows(TypesOf(es), "throttle", "xid")
      && !Follows(TypesOf(Dedup(es)), "throttle", "xid")
  {
    var es := Repeated;
    assert Key(es[0]) == Key(es[2]);
    assert TypesOf(es)[1] == "throttle" && TypesOf(es)[2] == "xid";
    assert !FollowsFirst(es, "throttle", "xid");
    DedupOrderExact(es, "throttle", "xid");
  }
}
