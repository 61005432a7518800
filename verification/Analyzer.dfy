/** Choosing a root cause for an incident: pkg/incidents/analyzer.go. */
module Analysis {
  import opened Basics
  import opened Causality
  import opened Correlation
  import opened Patterns
  import opened Ring
  import opened Telemetry

  // ---------- Scoring ----------

  // The weights of the indicators that match.
  function Total(inds: seq<Indicator>, ctx: Context): int {
    if inds == [] then 0
    else
      var last := inds[|inds| - 1];
      Total(inds[..|inds| - 1], ctx) + if CheckIndicator(last, ctx).Some? then last.weight else 0
  }

  function EvidenceFor(inds: seq<Indicator>, ctx: Context): seq<Evidence> {
    if inds == [] then []
    else
      var found := CheckIndicator(inds[|inds| - 1], ctx);
      EvidenceFor(inds[..|inds| - 1], ctx) + if found.Some? then [found.value] else []
  }

  function Score(p: FailurePattern, ctx: Context): int {
    Min(Total(p.indicators, ctx), 100)
  }

  // The places of the indicators that match, in order.
  ghost function Matching(inds: seq<Indicator>, ctx: Context): seq<nat> {
    if inds == [] then []
    else
      var n := |inds| - 1;
      Matching(inds[..n], ctx) + if CheckIndicator(inds[n], ctx).Some? then [n] else []
  }

  /** The evidence: one piece for each indicator that matches, and what its check gave, in order. */
  lemma {:induction false} EvidenceExact(inds: seq<Indicator>, ctx: Context)
    ensures var at, evidence := Matching(inds, ctx), EvidenceFor(inds, ctx);
            && |at| == |evidence| && (forall j, k :: 0 <= j < k < |at| ==> at[j] < at[k])
            && (forall j :: 0 <= j < |at| ==> at[j] < |inds| && CheckIndicator(inds[at[j]], ctx) == Some(evidence[j]))
            && (forall k: nat :: k < |inds| && CheckIndicator(inds[k], ctx).Some? ==> k in at)
  {
    if inds != [] {
      var n := |inds| - 1;
      EvidenceExact(inds[..n], ctx);
      var at := Matching(inds, ctx);
      forall k: nat | k < |inds| && CheckIndicator(inds[k], ctx).Some? ensures k in at {
        if k < n {
          assert inds[..n][k] == inds[k];
          assert k in Matching(inds[..n], ctx);
        } else {
          assert at[|at| - 1] == n;
        }
      }
    }
  }

  method EvaluatePattern(p: FailurePattern, ctx: Context) returns (confidence: int, evidence: seq<Evidence>)
    ensures confidence == Score(p, ctx) && evidence == EvidenceFor(p.indicators, ctx)
  {
    confidence, evidence := 0, [];
    for i := 0 to |p.indicators|
      invariant confidence == Total(p.indicators[..i], ctx)
      invariant evidence == EvidenceFor(p.indicators[..i], ctx)
    {
      assert p.indicators[..i + 1][..i] == p.indicators[..i];
      var found := CheckIndicator(p.indicators[i], ctx);
      if found.Some? {
        confidence, evidence := confidence + p.indicators[i].weight, evidence + [found.value];
      }
    }
    assert p.indicators[..|p.indicators|] == p.indicators;
    if confidence > 100 {
      confidence := 100;
    }
  }

  // ---------- Selection ----------

  const UnknownPattern := FailurePattern("unknown", [], false)

  datatype RootCause = RootCause(category: string, confidence: int, evidence: seq<Evidence>, notYourCode: bool)

  // Pattern k has the highest score, and is the first to have it.
  ghost predicate FirstBest(patterns: seq<FailurePattern>, ctx: Context, k: nat) {
    && k < |patterns|
    && (forall j :: 0 <= j < |patterns| ==> Score(patterns[j], ctx) <= Score(patterns[k], ctx))
    && (forall j :: 0 <= j < k ==> Score(patterns[j], ctx) < Score(patterns[k], ctx))
  }

  ghost predicate CauseIs(p: FailurePattern, ctx: Context, r: RootCause) {
    r == RootCause(p.category, Score(p, ctx), EvidenceFor(p.indicators, ctx), p.notYourCode)
  }

  ghost predicate NoneReaches(patterns: seq<FailurePattern>, ctx: Context, least: int) {
    forall j :: 0 <= j < |patterns| ==> Score(patterns[j], ctx) < least
  }

  // The first best pattern if it scores 0.2 or more, and otherwise the unknown one.
  ghost predicate Selected(patterns: seq<FailurePattern>, ctx: Context, r: RootCause) {
    if NoneReaches(patterns, ctx, 20) then r == RootCause("unknown", 0, [NothingMatched], false)
    else exists k: nat :: FirstBest(patterns, ctx, k) && CauseIs(patterns[k], ctx, r)
  }

  // The best of the first n patterns: none yet, or one with a positive score.
  ghost predicate BestOf(patterns: seq<FailurePattern>, ctx: Context, n: nat, best: Option<nat>)
    requires n <= |patterns|
  {
    match best
    case None => NoneReaches(patterns[..n], ctx, 1)
    case Some(k) => FirstBest(patterns[..n], ctx, k) && Score(patterns[k], ctx) > 0
  }

  lemma BestExtends(patterns: seq<FailurePattern>, ctx: Context, n: nat, best: Option<nat>)
    requires n < |patterns| && BestOf(patterns, ctx, n, best)
    ensures var score := Score(patterns[n], ctx);
            var lead := if best.Some? then Score(patterns[best.value], ctx) else 0;
            BestOf(patterns, ctx, n + 1, if score > lead then Some(n) else best)
  {
    forall j | 0 <= j < n ensures patterns[..n][j] == patterns[..n + 1][j] {}
  }

  /**
    Takes the first pattern with the highest capped score when that is at least 0.2,
    and the unknown pattern with confidence zero otherwise, whatever the weights.
   */
  method MatchPatterns(patterns: seq<FailurePattern>, ctx: Context) returns (r: RootCause)
    ensures Selected(patterns, ctx, r)
    ensures r.confidence == 0 || 20 <= r.confidence <= 100
  {
    var best, bestConfidence, bestEvidence := UnknownPattern, 0, [];
    ghost var at: Option<nat> := None;
    for i := 0 to |patterns|
      invariant BestOf(patterns, ctx, i, at)
      invariant at.None? ==> bestConfidence == 0
      invariant at.Some? ==> at.value < i && best == patterns[at.value] && bestConfidence == Score(best, ctx)
      invariant at.Some? ==> bestEvidence == EvidenceFor(best.indicators, ctx)
    {
      BestExtends(patterns, ctx, i, at);
      var confidence, evidence := EvaluatePattern(patterns[i], ctx);
      if confidence > bestConfidence {
        best, bestConfidence, bestEvidence := patterns[i], confidence, evidence;
        at := Some(i);
      }
    }
    assert patterns[..|patterns|] == patterns;
    if bestConfidence < 20 {
      return RootCause(UnknownPattern.category, 0, [NothingMatched], false);
    }
    r := RootCause(best.category, bestConfidence, bestEvidence, best.notYourCode);
  }

  // ---------- Extraction ----------

  predicate IsXID(e: Event) {
    e.typ == "xid" && e.data.XID?
  }

  predicate IsK8s(e: Event) {
    e.typ == "k8s" && e.data.K8s?
  }

  function Gathered(i: Incident): seq<Event> {
    [i.trigger] + i.related
  }

  // The codes in order of first occurrence, each once.
  function CodesOf(es: seq<Event>): seq<int> {
    if es == [] then []
    else
      var earlier, e := CodesOf(es[..|es| - 1]), es[|es| - 1];
      if IsXID(e) && e.data.xid.code !in earlier then earlier + [e.data.xid.code] else earlier
  }

  function K8sOf(es: seq<Event>): seq<K8sEvent> {
    if es == [] then []
    else
      var earlier, e := K8sOf(es[..|es| - 1]), es[|es| - 1];
      if IsK8s(e) then earlier + [e.data.k8s] else earlier
  }

  /** The codes found are exactly those of the incident's XID events, none twice. */
  lemma {:induction false} CodesExact(es: seq<Event>)
    ensures forall c :: c in CodesOf(es) <==> exists e :: e in es && IsXID(e) && e.data.xid.code == c
    ensures forall j, k :: 0 <= j < k < |CodesOf(es)| ==> CodesOf(es)[j] != CodesOf(es)[k]
  {
    if es != [] {
      var front, last := es[..|es| - 1], es[|es| - 1];
      CodesExact(front);
      assert es == front + [last];
      forall c ensures c in CodesOf(es) <==> exists e :: e in es && IsXID(e) && e.data.xid.code == c {
        if IsXID(last) && last.data.xid.code == c {
          assert last in es;
        }
        if exists e :: e in es && IsXID(e) && e.data.xid.code == c {
          var e :| e in es && IsXID(e) && e.data.xid.code == c;
          assert e in front || e == last;
        }
        if c in CodesOf(front) {
          var e :| e in front && IsXID(e) && e.data.xid.code == c;
          assert e in es;
        }
      }
    }
  }

  // The code of this event, if it is an XID event.
  predicate ShowsCode(e: Event, code: int) {
    e.typ == "xid" && e.data.XID? && e.data.xid.code == code
  }

  lemma CodesGathered(i: Incident)
    ensures forall c :: c in CodesOf(Gathered(i)) <==>
      (i.trigger.typ == "xid" && i.trigger.data.XID? && i.trigger.data.xid.code == c) ||
      exists e :: e in i.related && e.typ == "xid" && e.data.XID? && e.data.xid.code == c
    ensures i.trigger.typ == "xid" && i.trigger.data.XID? ==>
      CodesOf(Gathered(i)) != [] && CodesOf(Gathered(i))[0] == i.trigger.data.xid.code
  {
    CodesExact(Gathered(i));
    CodesFirst(i.trigger, i.related);
    forall c ensures c in CodesOf(Gathered(i)) <==>
      ShowsCode(i.trigger, c) || exists e :: e in i.related && ShowsCode(e, c)
    {
      if e :| e in i.related && ShowsCode(e, c) { assert e in Gathered(i) && IsXID(e); }
      if ShowsCode(i.trigger, c) { assert i.trigger in Gathered(i) && IsXID(i.trigger); }
      if c in CodesOf(Gathered(i)) {
        var e :| e in Gathered(i) && IsXID(e) && e.data.xid.code == c;
        assert e == i.trigger || e in i.related;
      }
    }
    forall c, e | e in i.related && e.typ == "xid" && e.data.XID? && e.data.xid.code == c ensures ShowsCode(e, c) {}
  }

  lemma {:induction false} CodesFirst(trigger: Event, related: seq<Event>)
    ensures trigger.typ == "xid" && trigger.data.XID? ==>
      CodesOf([trigger] + related) != [] && CodesOf([trigger] + related)[0] == trigger.data.xid.code
  {
    if related == [] {
      assert [trigger] + related == [trigger] && [trigger][..0] == [];
    } else {
      var n := |related| - 1;
      CodesFirst(trigger, related[..n]);
      assert ([trigger] + related)[..n + 1] == [trigger] + related[..n];
    }
  }

  /** The codes of the trigger and of the related events, each once, the trigger's first. */
  method ExtractXIDCodes(i: Incident) returns (codes: seq<int>)
    ensures codes == CodesOf(Gathered(i))
    ensures forall c :: c in codes <==>
      (i.trigger.typ == "xid" && i.trigger.data.XID? && i.trigger.data.xid.code == c) ||
      exists e :: e in i.related && e.typ == "xid" && e.data.XID? && e.data.xid.code == c
    ensures forall j, k :: 0 <= j < k < |codes| ==> codes[j] != codes[k]
    ensures i.trigger.typ == "xid" && i.trigger.data.XID? ==> codes != [] && codes[0] == i.trigger.data.xid.code
  {
    CodesGathered(i);
    CodesExact(Gathered(i));
    codes := [];
    var seen: set<int> := {};
    if IsXID(i.trigger) {
      codes, seen := [i.trigger.data.xid.code], {i.trigger.data.xid.code};
    }
    assert [i.trigger][..0] == [];
    for k := 0 to |i.related|
      invariant codes == CodesOf([i.trigger] + i.related[..k])
      invariant forall c :: c in seen <==> c in codes
    {
      assert ([i.trigger] + i.related[..k + 1])[..k + 1] == [i.trigger] + i.related[..k];
      var e := i.related[k];
      if IsXID(e) {
        if e.data.xid.code !in seen {
          codes, seen := codes + [e.data.xid.code], seen + {e.data.xid.code};
        }
      }
    }
    assert i.related[..|i.related|] == i.related;
  }

  function ReasonsOf(ks: seq<K8sEvent>): (r: seq<string>)
    ensures |r| == |ks| && forall j :: 0 <= j < |ks| ==> r[j] == ks[j].reason
  {
    seq(|ks|, j requires 0 <= j < |ks| => ks[j].reason)
  }

  function MessagesOf(ks: seq<K8sEvent>): (r: seq<string>)
    ensures |r| == |ks| && forall j :: 0 <= j < |ks| ==> r[j] == ks[j].message
  {
    seq(|ks|, j requires 0 <= j < |ks| => ks[j].message)
  }

  lemma {:induction false} K8sMembers(es: seq<Event>)
    ensures forall k :: k in K8sOf(es) <==> exists e :: e in es && e.typ == "k8s" && e.data.K8s? && e.data.k8s == k
  {
    if es != [] {
      var front, last := es[..|es| - 1], es[|es| - 1];
      assert es == front + [last];
      K8sMembers(front);
      forall k ensures k in K8sOf(es) <==> exists e :: e in es && e.typ == "k8s" && e.data.K8s? && e.data.k8s == k {
        if e :| e in es && e.typ == "k8s" && e.data.K8s? && e.data.k8s == k { assert e in front || e == last; }
        if k in K8sOf(front) {
          var e :| e in front && e.typ == "k8s" && e.data.K8s? && e.data.k8s == k;
          assert e in es;
        } else if k in K8sOf(es) {
          assert last in es && IsK8s(last) && last.data.k8s == k;
        }
      }
    }
  }

  lemma {:induction false} K8sFirst(trigger: Event, related: seq<Event>)
    ensures trigger.typ == "k8s" && trigger.data.K8s? ==>
      K8sOf([trigger] + related) != [] && K8sOf([trigger] + related)[0] == trigger.data.k8s
  {
    if related == [] {
      assert [trigger] + related == [trigger] && [trigger][..0] == [];
    } else {
      var n := |related| - 1;
      K8sFirst(trigger, related[..n]);
      assert ([trigger] + related)[..n + 1] == [trigger] + related[..n];
    }
  }

  // This pod event is the trigger's or a related event's.
  ghost predicate PodEvent(i: Incident, k: K8sEvent) {
    || (i.trigger.typ == "k8s" && i.trigger.data == K8s(k))
    || exists e :: e in i.related && e.typ == "k8s" && e.data == K8s(k)
  }

  // The reason and the message of this pod event are at the same place.
  ghost predicate Said(reasons: seq<string>, messages: seq<string>, k: K8sEvent) {
    exists j :: 0 <= j < |reasons| == |messages| && reasons[j] == k.reason && messages[j] == k.message
  }

  // Some pod event gives this reason with this message.
  ghost predicate SaidBy(i: Incident, reason: string, message: string) {
    exists k :: PodEvent(i, k) && k.reason == reason && k.message == message
  }

  lemma K8sGathered(i: Incident)
    ensures forall k :: k in K8sOf(Gathered(i)) <==> PodEvent(i, k)
    ensures i.trigger.typ == "k8s" && i.trigger.data.K8s? ==>
      K8sOf(Gathered(i)) != [] && K8sOf(Gathered(i))[0] == i.trigger.data.k8s
  {
    K8sMembers(Gathered(i));
    K8sFirst(i.trigger, i.related);
    forall k ensures k in K8sOf(Gathered(i)) <==> PodEvent(i, k) {
      if k in K8sOf(Gathered(i)) {
        var e :| e in Gathered(i) && e.typ == "k8s" && e.data.K8s? && e.data.k8s == k;
        assert e == i.trigger || e in i.related;
      }
      if PodEvent(i, k) {
        if e :| e in i.related && e.typ == "k8s" && e.data == K8s(k) { assert e in Gathered(i); }
        assert i.trigger in Gathered(i);
      }
    }
  }

  lemma ReasonsMembers(ks: seq<K8sEvent>)
    ensures forall r :: r in ReasonsOf(ks) <==> exists k :: k in ks && k.reason == r
    ensures forall m :: m in MessagesOf(ks) <==> exists k :: k in ks && k.message == m
  {
    forall k | k in ks ensures k.reason in ReasonsOf(ks) && k.message in MessagesOf(ks) {
      var j :| 0 <= j < |ks| && ks[j] == k;
      assert ReasonsOf(ks)[j] == k.reason && MessagesOf(ks)[j] == k.message;
    }
  }

  lemma K8sPlaces(i: Incident)
    ensures var ks := K8sOf(Gathered(i));
            && (forall j :: 0 <= j < |ks| ==> PodEvent(i, ks[j]))
            && (forall k :: PodEvent(i, k) ==> exists j :: 0 <= j < |ks| && ks[j] == k)
            && (i.trigger.typ == "k8s" && i.trigger.data.K8s? ==> |ks| > 0 && ks[0] == i.trigger.data.k8s)
  {
    var ks := K8sOf(Gathered(i));
    K8sGathered(i);
    forall j | 0 <= j < |ks| ensures PodEvent(i, ks[j]) { assert ks[j] in ks; }
    forall k | PodEvent(i, k) ensures exists j :: 0 <= j < |ks| && ks[j] == k { assert k in ks; }
  }

  // What the extracted texts say, by the events they come from.
  lemma K8sTexts(i: Incident, reasons: seq<string>, messages: seq<string>)
    requires reasons == ReasonsOf(K8sOf(Gathered(i))) && messages == MessagesOf(K8sOf(Gathered(i)))
    ensures |reasons| == |messages|
    ensures forall j :: 0 <= j < |reasons| ==> SaidBy(i, reasons[j], messages[j])
    ensures forall k :: PodEvent(i, k) ==> Said(reasons, messages, k)
    ensures i.trigger.typ == "k8s" && i.trigger.data.K8s? ==>
      |reasons| > 0 && reasons[0] == i.trigger.data.k8s.reason && messages[0] == i.trigger.data.k8s.message
  {
    hide PodEvent;
    K8sPlaces(i);
  }

  /**
    The reasons and messages of all pod events, the trigger's first, and of each event at
    the same place.
   */
  method ExtractK8sEvents(i: Incident) returns (reasons: seq<string>, messages: seq<string>)
    ensures reasons == ReasonsOf(K8sOf(Gathered(i))) && messages == MessagesOf(K8sOf(Gathered(i)))
    ensures |reasons| == |messages|
    ensures forall j :: 0 <= j < |reasons| ==> SaidBy(i, reasons[j], messages[j])
    ensures forall k :: PodEvent(i, k) ==> Said(reasons, messages, k)
    ensures i.trigger.typ == "k8s" && i.trigger.data.K8s? ==>
      |reasons| > 0 && reasons[0] == i.trigger.data.k8s.reason && messages[0] == i.trigger.data.k8s.message
  {
    hide PodEvent, SaidBy, Said;
    reasons, messages := [], [];
    if IsK8s(i.trigger) {
      reasons, messages := [i.trigger.data.k8s.reason], [i.trigger.data.k8s.message];
    }
    assert [i.trigger][..0] == [];
    for k := 0 to |i.related|
      invariant reasons == ReasonsOf(K8sOf([i.trigger] + i.related[..k]))
      invariant messages == MessagesOf(K8sOf([i.trigger] + i.related[..k]))
    {
      assert ([i.trigger] + i.related[..k + 1])[..k + 1] == [i.trigger] + i.related[..k];
      var e := i.related[k];
      if IsK8s(e) {
        reasons, messages := reasons + [e.data.k8s.reason], messages + [e.data.k8s.message];
      }
    }
    assert i.related[..|i.related|] == i.related;
    K8sTexts(i, reasons, messages);
  }

  // The worst conditions over all snapshots: nothing exceeds them, and each was seen.
  ghost predicate Worst(ss: seq<Snapshot>, temperature: nat, ecc: nat, percent: real, reasons: set<nat>) {
    Hottest(ss, temperature) && MostErrors(ss, ecc) && Fullest(ss, percent) && reasons == AllReasons(ss)
  }

  ghost predicate Hottest(ss: seq<Snapshot>, temperature: nat) {
    && (forall s <- ss :: s.temperature <= temperature)
    && (temperature == 0 || exists s :: s in ss && s.temperature == temperature)
  }

  ghost predicate MostErrors(ss: seq<Snapshot>, ecc: nat) {
    && (forall s <- ss :: s.eccUncorrectable <= ecc)
    && (ecc == 0 || exists s :: s in ss && s.eccUncorrectable == ecc)
  }

  ghost predicate Fullest(ss: seq<Snapshot>, percent: real) {
    && (forall s <- ss :: MemoryUsagePercent(s) <= percent)
    && (percent == 0.0 || exists s :: s in ss && MemoryUsagePercent(s) == percent)
  }

  function AllReasons(ss: seq<Snapshot>): set<nat> {
    if ss == [] then {} else AllReasons(ss[..|ss| - 1]) + ss[|ss| - 1].throttling
  }

  /** Some reason to throttle is on record exactly when some snapshot was throttled. */
  lemma {:induction false} ReasonsExact(ss: seq<Snapshot>)
    ensures AllReasons(ss) != {} <==> AnyThrottled(ss)
  {
    if ss != [] {
      var front, last := ss[..|ss| - 1], ss[|ss| - 1];
      ReasonsExact(front);
      assert ss == front + [last];
      SeenExtends(front, last, "throttle");
    }
  }

  lemma ReasonsExtend(ss: seq<Snapshot>, s: Snapshot)
    ensures AllReasons(ss + [s]) == AllReasons(ss) + s.throttling
  {
    assert (ss + [s])[..|ss|] == ss;
  }

  lemma WorstExtends(ss: seq<Snapshot>, s: Snapshot, temperature: nat, ecc: nat, percent: real)
    requires Hottest(ss, temperature) && MostErrors(ss, ecc) && Fullest(ss, percent)
    ensures Hottest(ss + [s], if s.temperature > temperature then s.temperature else temperature)
    ensures MostErrors(ss + [s], if s.eccUncorrectable > ecc then s.eccUncorrectable else ecc)
    ensures Fullest(ss + [s], if MemoryUsagePercent(s) > percent then MemoryUsagePercent(s) else percent)
  {
    assert forall x :: x in ss + [s] <==> x in ss || x == s;
  }

  // The worst so far.
  datatype Conditions = Conditions(temperature: nat, ecc: nat, percent: real, reasons: set<nat>)

  ghost predicate WorstOf(ss: seq<Snapshot>, c: Conditions) {
    Worst(ss, c.temperature, c.ecc, c.percent, c.reasons)
  }

  // The body of the loop over snapshots.
  method Worsen(c: Conditions, s: Snapshot, ghost ss: seq<Snapshot>) returns (r: Conditions)
    requires WorstOf(ss, c)
    ensures WorstOf(ss + [s], r)
  {
    WorstExtends(ss, s, c.temperature, c.ecc, c.percent);
    ReasonsExtend(ss, s);
    var temperature, ecc, percent, reasons := c.temperature, c.ecc, c.percent, c.reasons;
    if s.temperature > temperature {
      temperature := s.temperature;
    }
    if s.eccUncorrectable > ecc {
      ecc := s.eccUncorrectable;
    }
    if s.throttling != {} {
      reasons := reasons + s.throttling;
    }
    var memPct := MemoryUsagePercent(s);
    if memPct > percent {
      percent := memPct;
    }
    r := Conditions(temperature, ecc, percent, reasons);
  }

  method ExtractConditions(ss: seq<Snapshot>) returns (c: Conditions)
    ensures WorstOf(ss, c)
  {
    c := Conditions(0, 0, 0.0, {});
    for i := 0 to |ss|
      invariant WorstOf(ss[..i], c)
    {
      assert ss[..i + 1] == ss[..i] + [ss[i]];
      c := Worsen(c, ss[i], ss[..i]);
    }
    assert ss[..|ss|] == ss;
  }

  ghost predicate IsContext(ctx: Context, i: Incident) {
    && ctx.xidCodes == CodesOf(Gathered(i))
    && Worst(i.snapshots, ctx.temperature, ctx.eccUncorrectable, ctx.memUtilPercent, ctx.throttleReasons)
    && ctx.k8sReasons == ReasonsOf(K8sOf(Gathered(i)))
    && ctx.k8sMessages == MessagesOf(K8sOf(Gathered(i)))
    && ctx.causality == i.causality
  }

  method ExtractContext(i: Incident) returns (ctx: Context)
    ensures IsContext(ctx, i)
  {
    var codes := ExtractXIDCodes(i);
    var c := ExtractConditions(i.snapshots);
    var k8sReasons, k8sMessages := ExtractK8sEvents(i);
    ctx := Context(codes, c.temperature, c.ecc, c.percent, c.reasons, k8sReasons, k8sMessages, i.causality);
  }

  // ---------- The report ----------

  function TimeOf(s: Snapshot): int {
    s.timestamp
  }

  /** The first of the snapshots nearest to an instant. */
  method FindClosestSnapshot(ss: seq<Snapshot>, target: int) returns (closest: Snapshot)
    requires ss != []
    ensures exists i: nat :: OldestNearest(ss, target, TimeOf, i) && ss[i] == closest
  {
    closest := ss[0];
    var closestDiff := Distance(TimeOf(closest), target);
    ghost var at: nat := 0;
    assert OldestNearest(ss[..1], target, TimeOf, 0);
    for i := 1 to |ss|
      invariant at < i && ss[at] == closest && closestDiff == Distance(TimeOf(closest), target)
      invariant OldestNearest(ss[..i], target, TimeOf, at)
    {
      NearestExtends(ss, target, TimeOf, at, i);
      var diff := Distance(TimeOf(ss[i]), target);
      if diff < closestDiff {
        closest, closestDiff, at := ss[i], diff, i;
      }
    }
    assert ss[..|ss|] == ss;
  }

  // The root cause, and the state of the hardware nearest to the incident.
  datatype Report = Report(rootCause: RootCause, hardware: Option<Snapshot>)

  const EmptyReport := Report(RootCause("unknown", 0, [NoIncident], false), None)

  // The root cause reported for an incident, or for none at all.
  ghost predicate Reported(patterns: seq<FailurePattern>, incident: Option<Incident>, r: RootCause) {
    match incident
    case None => r == EmptyReport.rootCause
    case Some(i) => exists ctx :: IsContext(ctx, i) && Selected(patterns, ctx, r)
  }

  // No hardware state without snapshots, and otherwise the first nearest one.
  ghost predicate NearestState(ss: seq<Snapshot>, target: int, hardware: Option<Snapshot>) {
    match hardware
    case None => ss == []
    case Some(s) => exists i: nat :: OldestNearest(ss, target, TimeOf, i) && ss[i] == s
  }

  method Analyze(patterns: seq<FailurePattern>, incident: Option<Incident>) returns (r: Report)
    ensures Reported(patterns, incident, r.rootCause)
    ensures incident.None? ==> r == EmptyReport
    ensures incident.Some? ==> NearestState(incident.value.snapshots, incident.value.timestamp, r.hardware)
  {
    if incident.None? {
      return EmptyReport;
    }
    var i := incident.value;
    var ctx := ExtractContext(i);
    var cause := MatchPatterns(patterns, ctx);
    r := Report(cause, None);
    if |i.snapshots| > 0 {
      var closest := FindClosestSnapshot(i.snapshots, i.timestamp);
      r := Report(cause, Some(closest));
    }
  }
}
