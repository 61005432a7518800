/**
  What is reported of an incident, in terms of its trigger, events and snapshots alone:
  the score of each known failure, and which of them is named with what confidence.
 */
module Reports {
  import opened Analysis
  import opened Attribution
  import opened Basics
  import opened Causality
  import opened Correlation
  import opened Incidents
  import opened Patterns
  import opened Telemetry
  import opened Wording

  // ---------- Observations ----------

  // Some pod event says so in its reason or its message, in any case.
  ghost predicate PodSays(i: Incident, text: string) {
    exists k :: PodEvent(i, k) && (OccursFolded(text, k.reason) || OccursFolded(text, k.message))
  }

  lemma SaysMentions(i: Incident, ctx: Context, text: string)
    requires IsContext(ctx, i)
    ensures Mentions(ctx, text) <==> PodSays(i, text)
  {
    var ks := K8sOf(Gathered(i));
    K8sGathered(i);
    ReasonsMembers(ks);
    if r :| r in ctx.k8sReasons && OccursFolded(text, r) {
      var k :| k in ks && k.reason == r;
      assert PodEvent(i, k);
    }
    if m :| m in ctx.k8sMessages && OccursFolded(text, m) {
      var k :| k in ks && k.message == m;
      assert PodEvent(i, k);
    }
    if k :| PodEvent(i, k) && (OccursFolded(text, k.reason) || OccursFolded(text, k.message)) {
      assert k.reason in ctx.k8sReasons && k.message in ctx.k8sMessages;
    }
  }

  /** Text is searched for without regard to the case of ASCII letters. */
  lemma FoldedExact(sub: string, s: string)
    ensures OccursFolded(sub, s) <==>
      exists at: nat :: at + |sub| <= |s| && SameFrom(sub, s, at)
  {
    if OccursFolded(sub, s) {
      var at: nat :| at <= |Lower(s)| && OccursAt(Lower(sub), Lower(s), at);
      forall k | 0 <= k < |sub| ensures SameLetter(sub[k], s[at + k]) {
        assert Lower(s)[at..at + |sub|][k] == Lower(sub)[k];
        LetterExact(sub[k], s[at + k]);
      }
      assert SameFrom(sub, s, at);
    }
    if at: nat :| at + |sub| <= |s| && SameFrom(sub, s, at) {
      forall k | 0 <= k < |sub| ensures Lower(s)[at..at + |sub|][k] == Lower(sub)[k] {
        assert SameLetter(sub[k], s[at + k]);
        LetterExact(sub[k], s[at + k]);
      }
      assert Lower(s)[at..at + |sub|] == Lower(sub);
      assert OccursAt(Lower(sub), Lower(s), at);
    }
  }

  // The same character, or an upper and a lower case letter 32 apart.
  predicate SameLetter(a: char, b: char) {
    || a == b
    || ('A' <= a <= 'Z' && b as int == a as int + 32)
    || ('A' <= b <= 'Z' && a as int == b as int + 32)
  }

  predicate SameFrom(sub: string, s: string, at: nat)
    requires at + |sub| <= |s|
  {
    forall k :: 0 <= k < |sub| ==> SameLetter(sub[k], s[at + k])
  }

  lemma LetterExact(a: char, b: char)
    ensures LowerChar(a) == LowerChar(b) <==> SameLetter(a, b)
  {}

  /** Memory use is above so many percent exactly when a hundred times the use is above so many times the total. */
  lemma PercentExact(s: Snapshot, percent: nat)
    requires s.memTotal > 0
    ensures MemoryUsagePercent(s) > percent as real <==> 100 * s.memUsed > percent * s.memTotal
  {
    var used, total := s.memUsed as real, s.memTotal as real;
    assert used / total * 100.0 * total == used * 100.0;
    if used / total * 100.0 > percent as real {
      Scaled(percent as real, used / total * 100.0, total);
    } else {
      Unscaled(used / total * 100.0, percent as real, total);
    }
    assert (percent * s.memTotal) as real == percent as real * total;
  }

  lemma Scaled(x: real, y: real, t: real)
    requires x < y && t > 0.0
    ensures x * t < y * t
  {}

  lemma Unscaled(x: real, y: real, t: real)
    requires x <= y && t > 0.0
    ensures x * t <= y * t
  {}

  // ---------- Conditions ----------

  lemma HotFound(ss: seq<Snapshot>, temperature: nat, limit: nat)
    requires Hottest(ss, temperature)
    ensures temperature > limit <==> exists s :: s in ss && s.temperature > limit
  {}

  lemma ErrorsFound(ss: seq<Snapshot>, ecc: nat)
    requires MostErrors(ss, ecc)
    ensures ecc > 0 <==> exists s :: s in ss && s.eccUncorrectable > 0
  {}

  lemma FullFound(ss: seq<Snapshot>, percent: real)
    requires Fullest(ss, percent)
    ensures percent > 95.0 <==> exists s :: s in ss && s.memTotal > 0 && 100 * s.memUsed > 95 * s.memTotal
  {
    if percent > 95.0 {
      var s :| s in ss && MemoryUsagePercent(s) == percent;
      PercentExact(s, 95);
    }
    if s :| s in ss && s.memTotal > 0 && 100 * s.memUsed > 95 * s.memTotal {
      PercentExact(s, 95);
      assert MemoryUsagePercent(s) <= percent;
    }
  }

  lemma ThrottledFound(ss: seq<Snapshot>)
    ensures AllReasons(ss) != {} <==> exists s :: s in ss && s.throttling != {}
  {
    ReasonsExact(ss);
    if s :| s in ss && s.throttling != {} { assert IsThrottled(s); }
    if AnyThrottled(ss) { var s :| s in ss && IsThrottled(s); }
  }

  // ---------- Scores ----------

  ghost function ThermalOf(i: Incident): int {
    If(exists s :: s in i.snapshots && s.temperature > 82, 30)
    + If(exists s :: s in i.snapshots && s.throttling != {}, 30)
    + If(i.causality == "thermal_cascade", 25) + If(HasCode(i, 79) || HasCode(i, 43), 15)
  }

  ghost function ECCOf(i: Incident): int {
    If(exists s :: s in i.snapshots && s.eccUncorrectable > 0, 40)
    + If(exists c: int :: HasCode(i, c) && c in {48, 63, 64, 68, 69, 8, 92}, 35)
    + If(i.causality == "memory_failure", 25)
  }

  ghost function SoftwareOf(i: Incident): int {
    If(exists s :: s in i.snapshots && s.memTotal > 0 && 100 * s.memUsed > 95 * s.memTotal, 30)
    + If(PodSays(i, "OOMKilled"), 35) + If(i.causality == "software_oom", 25) + If(forall c: int :: !HasCode(i, c), 10)
  }

  ghost function NVLinkOf(i: Incident): int {
    If(HasCode(i, 74), 50) + If(PodSays(i, "NVLink"), 30) + If(PodSays(i, "interconnect"), 20)
  }

  ghost function BusOf(i: Incident): int {
    If(HasCode(i, 79), 70) + If(i.causality == "thermal_cascade", 15)
    + If(exists s :: s in i.snapshots && s.throttling != {}, 15)
  }

  lemma ThermalObserved(i: Incident, ctx: Context)
    requires IsContext(ctx, i)
    ensures Score(ThermalCascadePattern, ctx) == ThermalOf(i)
  {
    ThermalScore(ctx);
    CodesFound(i, ctx, 79);
    CodesFound(i, ctx, 43);
    HotFound(i.snapshots, ctx.temperature, 82);
    ThrottledFound(i.snapshots);
    CauseLiterals();
  }

  lemma ECCObserved(i: Incident, ctx: Context)
    requires IsContext(ctx, i)
    ensures Score(ECCFailurePattern, ctx) == ECCOf(i)
  {
    ECCScore(ctx);
    ErrorsFound(i.snapshots, ctx.eccUncorrectable);
    CodesGathered(i);
    forall c: int ensures c in ctx.xidCodes && MemoryCode(c) <==> HasCode(i, c) && c in {48, 63, 64, 68, 69, 8, 92} {
      CodesFound(i, ctx, c);
    }
    CauseLiterals();
  }

  lemma SoftwareObserved(i: Incident, ctx: Context)
    requires IsContext(ctx, i)
    ensures Score(SoftwareOOMPattern, ctx) == SoftwareOf(i)
  {
    SoftwareScore(ctx);
    FullFound(i.snapshots, ctx.memUtilPercent);
    SaysMentions(i, ctx, "OOMKilled");
    NoCodes(i, ctx);
    CauseLiterals();
  }

  lemma NoCodes(i: Incident, ctx: Context)
    requires IsContext(ctx, i)
    ensures ctx.xidCodes == [] <==> forall c: int :: !HasCode(i, c)
  {
    forall c: int ensures c in ctx.xidCodes <==> HasCode(i, c) { CodesFound(i, ctx, c); }
    if ctx.xidCodes != [] { assert HasCode(i, ctx.xidCodes[0]); }
  }

  lemma NVLinkObserved(i: Incident, ctx: Context)
    requires IsContext(ctx, i)
    ensures Score(NVLinkFailurePattern, ctx) == NVLinkOf(i)
  {
    NVLinkScore(ctx);
    CodesFound(i, ctx, 74);
    SaysMentions(i, ctx, "NVLink");
    SaysMentions(i, ctx, "interconnect");
  }

  lemma BusObserved(i: Incident, ctx: Context)
    requires IsContext(ctx, i)
    ensures Score(XID79Pattern, ctx) == BusOf(i)
  {
    XID79Score(ctx);
    CodesFound(i, ctx, 79);
    ThrottledFound(i.snapshots);
    CauseLiterals();
  }

  // ---------- The report ----------

  // The highest of five scores, and the first failure to reach it.
  function Highest(a: int, b: int, c: int, d: int, e: int): int {
    Max(a, Max(b, Max(c, Max(d, e))))
  }

  lemma ChosenExact(ctx: Context, r: RootCause)
    requires Selected(KnownPatterns, ctx, r)
    ensures
      var a, b, c := Score(ThermalCascadePattern, ctx), Score(ECCFailurePattern, ctx), Score(SoftwareOOMPattern, ctx);
      var d, e := Score(NVLinkFailurePattern, ctx), Score(XID79Pattern, ctx);
      var best := Highest(a, b, c, d, e);
      if best < 20 then r == RootCause("unknown", 0, [NothingMatched], false)
      else
        && r.confidence == best && (r.notYourCode <==> r.category != "software_oom")
        && r.category == (if a == best then "thermal_cascade" else if b == best then "ecc_failure"
                          else if c == best then "software_oom" else if d == best then "nvlink_failure"
                          else "xid_79_bus_error")
  {
    hide Score;
    var ps := KnownPatterns;
    assert ps[0] == ThermalCascadePattern && ps[1] == ECCFailurePattern && ps[2] == SoftwareOOMPattern;
    assert ps[3] == NVLinkFailurePattern && ps[4] == XID79Pattern;
    CategoriesDiffer();
    if !NoneReaches(ps, ctx, 20) {
      var k: nat :| FirstBest(ps, ctx, k) && CauseIs(ps[k], ctx, r);
    }
  }

  lemma CategoriesDiffer()
    ensures "software_oom"[0] == 's' && "thermal_cascade"[0] == 't' && "ecc_failure"[0] == 'e'
    ensures "nvlink_failure"[0] == 'n' && "xid_79_bus_error"[0] == 'x'
  {}

  /**
    The report of any incident and the five known failures: each failure's score is the
    sum of the weights of what was observed for it; the highest score of at least 0.2 is
    reported, and the first failure that has it; only software is the user's code.
   */
  lemma ReportExact(i: Incident, r: RootCause)
    requires Reported(KnownPatterns, Some(i), r)
    ensures
      var best := Highest(ThermalOf(i), ECCOf(i), SoftwareOf(i), NVLinkOf(i), BusOf(i));
      if best < 20 then r == RootCause("unknown", 0, [NothingMatched], false)
      else
        && r.confidence == best && (r.notYourCode <==> r.category != "software_oom")
        && r.category == (if ThermalOf(i) == best then "thermal_cascade" else if ECCOf(i) == best then "ecc_failure"
                          else if SoftwareOf(i) == best then "software_oom"
                          else if NVLinkOf(i) == best then "nvlink_failure" else "xid_79_bus_error")
  {
    var ctx :| IsContext(ctx, i) && Selected(KnownPatterns, ctx, r);
    ThermalObserved(i, ctx);
    ECCObserved(i, ctx);
    SoftwareObserved(i, ctx);
    NVLinkObserved(i, ctx);
    BusObserved(i, ctx);
    ChosenExact(ctx, r);
  }

  // ---------- Killed pods ----------

  lemma KilledSays(i: Incident, k: K8sEvent)
    requires PodEvent(i, k) && k.reason == "OOMKilled"
    ensures PodSays(i, "OOMKilled")
  {
    assert SameFrom("OOMKilled", "OOMKilled", 0);
    FoldedExact("OOMKilled", "OOMKilled");
  }

  // What such an incident scores.
  lemma KilledScores(i: Incident, texts: Texts)
    requires Built(i, texts) && Completed(i, texts) && Legible(i, texts) && i.causality == "software_oom"
    ensures ThermalOf(i) <= 30 && ECCOf(i) == 0 && NVLinkOf(i) <= 50 && BusOf(i) == 0
    ensures SoftwareOf(i) == 70 +
      If(exists s :: s in i.snapshots && s.memTotal > 0 && 100 * s.memUsed > 95 * s.memTotal, 30)
  {
    hide PodSays;
    SoftwareOOMExact(i, texts);
    CausesUnlike();
    forall c: int ensures !HasCode(i, c) {}
    var e :| (e == i.trigger || e in i.related) && e.typ == "k8s" && e.data.K8s? && e.data.k8s.reason == "OOMKilled";
    assert PodEvent(i, e.data.k8s);
    KilledSays(i, e.data.k8s);
  }

  lemma CausesUnlike()
    ensures "software_oom" != "thermal_cascade" && "software_oom" != "memory_failure"
  {
    assert "software_oom"[0] == 's' && "thermal_cascade"[0] == 't' && "memory_failure"[0] == 'm';
  }

  /**
    The other half: a pod killed for its memory, with no hardware trouble gathered, is the
    user's code, with a confidence of 0.7, or of 1 if some GPU's memory was nearly full.
   */
  lemma KilledPodIsYours(i: Incident, texts: Texts, r: RootCause)
    requires Built(i, texts) && Completed(i, texts) && Legible(i, texts) && i.causality == "software_oom"
    requires Reported(KnownPatterns, Some(i), r)
    ensures r.category == "software_oom" && !r.notYourCode
    ensures r.confidence == 70 +
      If(exists s :: s in i.snapshots && s.memTotal > 0 && 100 * s.memUsed > 95 * s.memTotal, 30)
  {
    hide ThermalOf, ECCOf, SoftwareOf, NVLinkOf, BusOf;
    KilledScores(i, texts);
    ReportExact(i, r);
  }
}
