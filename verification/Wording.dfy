/**
  How a timeline's entries are worded in pkg/events/correlator.go, and why no trigger,
  whatever its type, can pass for a hardware event.
 */
module Wording {
  import opened Correlation
  import opened Incidents
  import opened Telemetry
  import opened Timelines
  import opened Watching
  import opened XIDCodes

  const MaxMessageLength := 80
  const ShortUUIDLength := 8

  // ---------- Numbers and short forms ----------

  function Digits(n: nat): string {
    if n < 10 then ["0123456789"[n]] else Digits(n / 10) + ["0123456789"[n % 10]]
  }

  function Decimal(n: int): string {
    if n < 0 then "-" + Digits(-n) else Digits(n)
  }

  function Hex(n: nat): string {
    if n < 16 then ["0123456789abcdef"[n]] else Hex(n / 16) + ["0123456789abcdef"[n % 16]]
  }

  // The 64-bit mask with these bits, from bit k on.
  function Mask(bits: set<nat>, k: nat): nat
    decreases 64 - k
  {
    if k >= 64 then 0 else (if k in bits then 1 else 0) + 2 * Mask(bits, k + 1)
  }

  function Truncate(s: string): string {
    if |s| <= MaxMessageLength then s else s[..MaxMessageLength - 3] + "..."
  }

  function Short(uuid: string): string {
    if |uuid| > ShortUUIDLength then uuid[..ShortUUIDLength] else uuid
  }

  // ---------- Descriptions ----------

  function DescribeXID(e: XIDEvent): string {
    if e.description != "" then "XID " + Decimal(e.code) + ": " + e.description
    else "XID " + Decimal(e.code) + " on GPU " + e.pciBusID
  }

  function DescribeEvent(e: Event): string {
    if e.typ == "xid" && e.data.XID? then DescribeXID(e.data.xid)
    else if e.typ == "k8s" && e.data.K8s? then
      "[" + e.data.k8s.reason + "] " + e.data.k8s.podName + ": " + Truncate(e.data.k8s.message)
    else if e.typ == "throttle" then "GPU throttling active"
    else if e.typ == "ecc" then "ECC memory errors detected"
    else if e.typ == "temp" then "High GPU temperature"
    else e.typ + " event"
  }

  function DescribeThrottle(s: Snapshot): string {
    "GPU " + Short(s.uuid) + " throttling active (reason: 0x" + Hex(Mask(s.throttling, 0)) + ")"
  }

  function DescribeECC(s: Snapshot): string {
    "GPU " + Short(s.uuid) + " ECC errors: " + Digits(s.eccCorrectable) + " correctable, "
    + Digits(s.eccUncorrectable) + " uncorrectable"
  }

  // The degree sign is two bytes.
  function DescribeTemp(s: Snapshot): string {
    "GPU " + Short(s.uuid) + " temperature: " + Digits(s.temperature) + "\U{C2}\U{B0}C (threshold: "
    + Digits(s.tempThreshold) + "\U{C2}\U{B0}C)"
  }

  // Entries are worded as the program words them.
  ghost predicate Worded(texts: Texts) {
    && (forall e: Event :: texts.event(e) == DescribeEvent(e))
    && (forall s: Snapshot ::
          && texts.throttle(s) == DescribeThrottle(s)
          && texts.ecc(s) == DescribeECC(s)
          && texts.temp(s) == DescribeTemp(s))
  }

  // ---------- The wording is told apart ----------

  // The number that digits spell.
  function Spelled(s: string): int {
    if s == "" then 0 else Spelled(s[..|s| - 1]) * 10 + (s[|s| - 1] as int - '0' as int)
  }

  predicate AllDigits(s: string) {
    forall i :: 0 <= i < |s| ==> '0' <= s[i] <= '9'
  }

  /** Numbers are written in decimal. */
  lemma {:induction false} DigitsSpell(n: nat)
    ensures Digits(n) != "" && AllDigits(Digits(n)) && Spelled(Digits(n)) == n
  {
    assert forall d: nat :: d < 10 ==> "0123456789"[d] as int == '0' as int + d;
    if n >= 10 {
      DigitsSpell(n / 10);
      var s := Digits(n);
      assert s[..|s| - 1] == Digits(n / 10);
    } else {
      assert Digits(n)[..0] == "";
    }
  }

  lemma {:induction false} NumbersApart(a: string, b: string, x: string, y: string)
    requires AllDigits(a) && AllDigits(b) && a + ":" + x == b + ":" + y
    ensures a == b
  {
    var s := a + ":" + x;
    assert s == b + ":" + y;
    assert s[|a|] == ':' && s[|b|] == ':';
    assert a == s[..|a|] && b == s[..|b|];
  }

  lemma CodeFirst(e: XIDEvent)
    requires e.code >= 0 && e.description != ""
    ensures DescribeXID(e) == "XID " + (Digits(e.code) + ":" + (" " + e.description))
  {
    assert ": " == ":" + " ";
  }

  /** Events with different codes are worded differently, so each of them stays on a timeline. */
  lemma XIDsApart(d: XIDEvent, e: XIDEvent)
    requires Enriched(d) && Enriched(e) && d.code >= 0 && e.code >= 0 && d.code != e.code
    ensures DescribeXID(d) != DescribeXID(e)
  {
    DescriptionEnds(d.code);
    DescriptionEnds(e.code);
    CodeFirst(d);
    CodeFirst(e);
    DigitsSpell(d.code);
    DigitsSpell(e.code);
    if DescribeXID(d) == DescribeXID(e) {
      var a, b := Digits(d.code) + ":" + (" " + d.description), Digits(e.code) + ":" + (" " + e.description);
      assert a == ("XID " + a)[4..] && b == ("XID " + b)[4..];
      NumbersApart(Digits(d.code), Digits(e.code), " " + d.description, " " + e.description);
    }
  }

  /** GPUs whose identifiers begin differently are worded differently. */
  lemma GPUsApart(a: Snapshot, b: Snapshot)
    requires |a.uuid| >= 8 && |b.uuid| >= 8 && a.uuid[..8] != b.uuid[..8]
    ensures DescribeThrottle(a) != DescribeThrottle(b)
    ensures DescribeECC(a) != DescribeECC(b)
    ensures DescribeTemp(a) != DescribeTemp(b)
  {
    GPUFirst(a);
    GPUFirst(b);
  }

  lemma GPUFirst(s: Snapshot)
    requires |s.uuid| >= 8
    ensures |DescribeThrottle(s)| >= 12 && DescribeThrottle(s)[4..12] == s.uuid[..8]
    ensures |DescribeECC(s)| >= 12 && DescribeECC(s)[4..12] == s.uuid[..8]
    ensures |DescribeTemp(s)| >= 12 && DescribeTemp(s)[4..12] == s.uuid[..8]
  {}

  /** A bit of the mask is set exactly when its reason is one of those given. */
  lemma {:induction false} MaskLow(bits: set<nat>, k: nat)
    requires k < 64
    ensures (Mask(bits, k) % 2 == 1 <==> k in bits) && Mask(bits, k) / 2 == Mask(bits, k + 1)
  {}

  lemma XIDExamples()
    ensures DescribeXID(XIDEvent(0, 79, "", "", "bus")) == "XID 79: bus"
    ensures DescribeXID(XIDEvent(0, 7, "3B:00", "", "")) == "XID 7 on GPU 3B:00"
  {
    assert Digits(7) == "7" && Digits(79) == Digits(7) + "9" == "79";
  }

  lemma HexExample()
    ensures Hex(44) == "2c"
  {
    assert Hex(2) == "2" && Hex(44) == Hex(2) + "c";
  }

  // ---------- Kinds of entries ----------

  // The types that show trouble with the hardware.
  predicate Hardware(t: string) {
    t == "xid" || t == "throttle" || t == "ecc" || t == "temp"
  }

  // No other entry has the key of a hardware event.
  ghost predicate OwnKinds(es: seq<Entry>) {
    forall t: string :: Hardware(t) ==> OwnKeys(es, t)
  }

  // The types that can occur, besides the trigger's.
  predicate Known(t: string) {
    Hardware(t) || t == "k8s"
  }

  // The program's wording, or any wording when the trigger's type has no separator.
  ghost predicate Legible(i: Incident, texts: Texts) {
    Worded(texts) || Plain(i.trigger.typ)
  }

  lemma KnownPlain(t: string)
    ensures Known(t) ==> Plain(t)
  {}

  lemma {:induction false} SnapshotEntry(ss: seq<Snapshot>, texts: Texts, e: Entry) returns (s: Snapshot)
    requires e in SnapshotEntries(ss, texts)
    ensures s in ss && e in StateEntries(s, texts)
  {
    var n := |ss| - 1;
    if e in StateEntries(ss[n], texts) { s := ss[n]; } else { s := SnapshotEntry(ss[..n], texts, e); }
  }

  // The trigger's entry, a watcher's, or a snapshot's.
  lemma EntryCases(i: Incident, texts: Texts, e: Entry)
    requires Built(i, texts) && e in Entries(i, texts)
    ensures
      || e == EntryOf(i.trigger, texts)
      || (exists r :: r in i.related && FromSource(r) && e == EntryOf(r, texts))
      || (exists s :: s in i.snapshots && e in StateEntries(s, texts))
  {
    if e in EventEntries(i.related, texts) {
      var k :| 0 <= k < |i.related| && EventEntries(i.related, texts)[k] == e;
      assert i.related[k] in i.related;
    } else if e in SnapshotEntries(i.snapshots, texts) {
      var s := SnapshotEntry(i.snapshots, texts, e);
    }
  }

  // ---------- Descriptions told apart by their ends ----------

  lemma EndOf(a: string, b: string)
    requires |b| >= 3
    ensures EndsUnlikeEvent(a + b) <==> EndsUnlikeEvent(b)
  {}

  lemma XIDEnds(e: XIDEvent)
    requires Enriched(e)
    ensures EndsUnlikeEvent(DescribeXID(e))
  {
    DescriptionEnds(e.code);
    EndOf("XID " + Decimal(e.code) + ": ", e.description);
  }

  lemma StateEnds(s: Snapshot)
    ensures EndsUnlikeEvent(DescribeThrottle(s)) && EndsUnlikeEvent(DescribeECC(s)) && EndsUnlikeEvent(DescribeTemp(s))
  {}

  lemma StateEntryEnds(s: Snapshot, texts: Texts, d: Entry)
    requires Worded(texts) && d in StateEntries(s, texts)
    ensures EndsUnlikeEvent(d.description)
  {
    StateEnds(s);
    assert d.description == texts.throttle(s) || d.description == texts.ecc(s) || d.description == texts.temp(s);
  }

  lemma RelatedEnds(r: Event, texts: Texts)
    requires Worded(texts) && FromSource(r) && r.typ == "xid"
    ensures EndsUnlikeEvent(texts.event(r))
  {
    XIDEnds(r.data.xid);
  }

  lemma HardwareEnds(i: Incident, texts: Texts, d: Entry)
    requires Built(i, texts) && Worded(texts)
    requires d in Entries(i, texts) && d != EntryOf(i.trigger, texts) && Hardware(d.eventType)
    ensures EndsUnlikeEvent(d.description)
  {
    EntryCases(i, texts, d);
    if r :| r in i.related && FromSource(r) && d == EntryOf(r, texts) {
      RelatedEnds(r, texts);
    } else {
      var s :| s in i.snapshots && d in StateEntries(s, texts);
      StateEntryEnds(s, texts, d);
    }
  }

  // An event of an unknown type ends its key like no other.
  lemma UnknownEnds(e: Event)
    requires !Known(e.typ)
    ensures !EndsUnlikeEvent(e.typ + "|" + DescribeEvent(e))
  {
    EndOf(e.typ, " event");
    EndOf(e.typ + "|", e.typ + " event");
  }

  lemma HardwareApart(i: Incident, texts: Texts, d: Entry)
    requires Built(i, texts) && Worded(texts) && !Known(i.trigger.typ)
    requires d in Entries(i, texts) && Hardware(d.eventType)
    ensures Key(d) != Key(EntryOf(i.trigger, texts))
  {
    HardwareEnds(i, texts, d);
    EndOf(d.eventType + "|", d.description);
    UnknownEnds(i.trigger);
  }

  lemma TypesKnown(i: Incident, texts: Texts, e: Entry)
    requires Built(i, texts) && e in Entries(i, texts)
    ensures e == EntryOf(i.trigger, texts) || Known(e.eventType)
  {
    EntryCases(i, texts, e);
  }

  /** As the program words them, no other entry has the key of a hardware event, whatever the trigger's type. */
  lemma HardwareOwnKeys(i: Incident, texts: Texts, t: string)
    requires Built(i, texts) && Worded(texts) && Hardware(t)
    ensures OwnKeys(Entries(i, texts), t)
  {
    var es := Entries(i, texts);
    forall d, e | d in es && e in es && d.eventType == t && Key(e) == Key(d) ensures e.eventType == t {
      TypesKnown(i, texts, e);
      KnownPlain(t);
      KnownPlain(e.eventType);
      if Known(e.eventType) {
        KeyDetermines(t, d.description, e.eventType, e.description);
      } else {
        HardwareApart(i, texts, d);
      }
    }
  }

  // In any wording, types without the separator are told apart.
  lemma PlainOwnKeys(i: Incident, texts: Texts, t: string)
    requires Built(i, texts) && Plain(i.trigger.typ)
    ensures OwnKeys(Entries(i, texts), t)
  {
    var es := Entries(i, texts);
    forall d, e | d in es && e in es && d.eventType == t && Key(e) == Key(d) ensures e.eventType == t {
      TypesKnown(i, texts, d);
      TypesKnown(i, texts, e);
      KnownPlain(d.eventType);
      KnownPlain(e.eventType);
      KeyDetermines(d.eventType, d.description, e.eventType, e.description);
    }
  }

  lemma LegibleOwnKeys(i: Incident, texts: Texts, t: string)
    requires Built(i, texts) && Legible(i, texts) && Hardware(t)
    ensures OwnKeys(Entries(i, texts), t)
  {
    if Worded(texts) { HardwareOwnKeys(i, texts, t); } else { PlainOwnKeys(i, texts, t); }
  }
}
