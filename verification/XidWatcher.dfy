/** What the XID watcher's buffer can hold: pkg/xid/watcher.go and parser.go. */
module Watching {
  import opened Basics
  import opened Ring
  import opened XIDCodes

  datatype XIDEvent = XIDEvent(timestamp: int, code: int, pciBusID: string, gpuUUID: string, description: string)

  function XIDTime(e: XIDEvent): int { e.timestamp }

  const DefaultBufferSize := 100

  // As EnrichEvent leaves an event.
  predicate Enriched(e: XIDEvent) {
    e.description == Description(e.code)
  }

  // ---------- One message ----------

  // What the parser's expressions find in a kernel message: a bus address, a code unless
  // it is too long for a number, and perhaps the seconds since the system started.
  datatype Found = Found(busID: string, code: Option<nat>, seconds: Option<int>)

  // The event that a message stands for, stamped with the clock if it has no time of its own.
  function EventOf(found: Option<Found>, now: int): Option<XIDEvent> {
    if found.None? || found.value.code.None? then None
    else
      var f := found.value;
      var time := if f.seconds.Some? then f.seconds.value * Second else now;
      Some(XIDEvent(time, f.code.value, f.busID, "", Description(f.code.value)))
  }

  // ---------- The watcher ----------

  lemma {:induction false} FromWithin<T>(s: seq<T>, since: Time, at: T -> Time)
    ensures forall x <- From(s, since, at) :: x in s
  {
    if s != [] && at(s[0]) < since { FromWithin(s[1..], since, at); }
  }

  class Watcher {
    const buffer: RingBuffer<XIDEvent>

    ghost predicate Valid()
      reads this, buffer, buffer.data
    {
      buffer.Valid() && forall e <- buffer.added :: Enriched(e)
    }

    constructor (size: nat)
      requires size > 0
      ensures Valid() && fresh(buffer) && fresh(buffer.data) && buffer.capacity == size && buffer.added == []
    {
      buffer := new RingBuffer(size);
    }

    /** Adds the event that a message stands for, if there is one. */
    method HandleMessage(found: Option<Found>, now: int)
      requires Valid()
      modifies buffer, buffer.data
      ensures Valid()
      ensures found.None? || found.value.code.None? ==> buffer.added == old(buffer.added)
      ensures found.Some? && found.value.code.Some? ==>
        buffer.added == old(buffer.added) + [XIDEvent(
          if found.value.seconds.Some? then found.value.seconds.value * 1_000_000_000 else now,
          found.value.code.value, found.value.busID, "", Description(found.value.code.value))]
    {
      var event := EventOf(found, now);
      if event.Some? {
        buffer.Add(event.value);
      }
    }

    method GetAllEvents() returns (events: seq<XIDEvent>)
      requires Valid()
      ensures events == LastN(buffer.added, buffer.capacity)
      ensures forall e <- events :: Enriched(e)
    {
      events := buffer.All();
    }

    /** The events retained from the first one in the window on, each described as the table has its code. */
    method GetEvents(since: int) returns (events: seq<XIDEvent>)
      requires Valid()
      ensures events == From(LastN(buffer.added, buffer.capacity), since, XIDTime)
      ensures forall e <- events :: Enriched(e)
    {
      events := buffer.Query(since, XIDTime);
      FromWithin(LastN(buffer.added, buffer.capacity), since, XIDTime);
    }
  }

  // A negative size is refused, and none means the default.
  method NewWatcher(size: int) returns (w: Option<Watcher>)
    ensures w.None? <==> size < 0
    ensures w.Some? ==> w.value.Valid() && fresh(w.value) && fresh(w.value.buffer) && fresh(w.value.buffer.data)
    ensures w.Some? ==> w.value.buffer.added == []
    ensures w.Some? ==> w.value.buffer.capacity == if size == 0 then 100 else size
  {
    if size < 0 {
      return None;
    }
    var watcher := new Watcher(if size == 0 then DefaultBufferSize else size);
    w := Some(watcher);
  }
}
