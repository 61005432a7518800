/** Who is to blame: what the known patterns report of every incident the correlator can build. */
module Attribution {
  import opened Analysis
  import opened Basics
  import opened Causality
  import opened Correlation
  import opened Incidents
  import opened Patterns
  import opened Telemetry
  import opened Wording

  // ---------- The scores of the known patterns ----------

  function If(holds: bool, weight: int): int {
    if holds then weight else 0
  }

  function Part(ind: Indicator, ctx: Context): int {
    If(CheckIndicator(ind, ctx).Some?, ind.weight)
  }

  lemma TotalOfTwo(a: Indicator, b: Indicator, ctx: Context)
    ensures Total([a, b], ctx) == Part(a, ctx) + Part(b, ctx)
  {
    assert [a, b][..1] == [a];
    assert Total([a], ctx) == Part(a, ctx);
  }

  lemma TotalOfThree(a: Indicator, b: Indicator, c: Indicator, ctx: Context)
    ensures Total([a, b, c], ctx) == Part(a, ctx) + Part(b, ctx) + Part(c, ctx)
  {
    assert [a, b, c][..2] == [a, b];
    TotalOfTwo(a, b, ctx);
  }

  lemma TotalOfFour(a: Indicator, b: Indicator, c: Indicator, d: Indicator, ctx: Context)
    ensures Total([a, b, c, d], ctx) == Part(a, ctx) + Part(b, ctx) + Part(c, ctx) + Part(d, ctx)
  {
    assert [a, b, c, d][..3] == [a, b, c];
    TotalOfThree(a, b, c, ctx);
  }

  predicate MemoryCode(code: int) {
    code in {48, 63, 64, 68, 69, 8, 92}
  }

  lemma ThermalScore(ctx: Context)
    ensures Score(ThermalCascadePattern, ctx) ==
            If(ctx.temperature > 82, 30) + If(ctx.throttleReasons != {}, 30)
            + If(ctx.causality == ThermalCascade, 25) + If(79 in ctx.xidCodes || 43 in ctx.xidCodes, 15)
  {
    var inds := ThermalCascadePattern.indicators;
    TotalOfFour(inds[0], inds[1], inds[2], inds[3], ctx);
    assert inds == [inds[0], inds[1], inds[2], inds[3]];
    assert CheckIndicator(inds[3], ctx).Some? <==> exists c :: c in ctx.xidCodes && c in [79, 43];
  }

  lemma ECCScore(ctx: Context)
    ensures Score(ECCFailurePattern, ctx) ==
            If(ctx.eccUncorrectable > 0, 40) + If(exists c :: c in ctx.xidCodes && MemoryCode(c), 35)
            + If(ctx.causality == MemoryFailure, 25)
  {
    var inds := ECCFailurePattern.indicators;
    TotalOfThree(inds[0], inds[1], inds[2], ctx);
    assert inds == [inds[0], inds[1], inds[2]];
    assert forall c :: MemoryCode(c) <==> c in [48, 63, 64, 68, 69, 8, 92];
    assert CheckIndicator(inds[1], ctx).Some? <==> exists c :: c in ctx.xidCodes && MemoryCode(c);
  }

  // Some reason or message contains the text, whatever its case.
  ghost predicate Mentions(ctx: Context, text: string) {
    || (exists r :: r in ctx.k8sReasons && OccursFolded(text, r))
    || (exists m :: m in ctx.k8sMessages && OccursFolded(text, m))
  }

  lemma MentionChecked(ctx: Context, text: string, weight: int)
    ensures CheckIndicator(Indicator("k8s_event", "contains", Text(text), weight), ctx).Some? <==> Mentions(ctx, text)
  {}

  lemma SoftwareScore(ctx: Context)
    ensures Score(SoftwareOOMPattern, ctx) ==
            If(ctx.memUtilPercent > 95.0, 30) + If(Mentions(ctx, "OOMKilled"), 35)
            + If(ctx.causality == SoftwareOOM, 25) + If(ctx.xidCodes == [], 10)
  {
    var inds := SoftwareOOMPattern.indicators;
    TotalOfFour(inds[0], inds[1], inds[2], inds[3], ctx);
    MentionChecked(ctx, "OOMKilled", 35);
    assert inds == [inds[0], inds[1], inds[2], inds[3]];
  }

  lemma NVLinkScore(ctx: Context)
    ensures Score(NVLinkFailurePattern, ctx) ==
            If(74 in ctx.xidCodes, 50) + If(Mentions(ctx, "NVLink"), 30) + If(Mentions(ctx, "interconnect"), 20)
  {
    var inds := NVLinkFailurePattern.indicators;
    TotalOfThree(inds[0], inds[1], inds[2], ctx);
    MentionChecked(ctx, "NVLink", 30);
    MentionChecked(ctx, "interconnect", 20);
    assert inds == [inds[0], inds[1], inds[2]];
  }

  lemma XID79Score(ctx: Context)
    ensures Score(XID79Pattern, ctx) ==
            If(79 in ctx.xidCodes, 70) + If(ctx.causality == ThermalCascade, 15) + If(ctx.throttleReasons != {}, 15)
  {
    var inds := XID79Pattern.indicators;
    TotalOfThree(inds[0], inds[1], inds[2], ctx);
    assert inds == [inds[0], inds[1], inds[2]];
  }

  // ---------- Blame ----------

  /**
    The user's code is cleared exactly when some hardware pattern reaches 0.2 and is not
    beaten by the software one, which wins ties against the patterns listed after it.
   */
  lemma BlameExact(ctx: Context, r: RootCause)
    requires Selected(KnownPatterns, ctx, r)
    ensures r.notYourCode <==>
      var before := Max(Score(ThermalCascadePattern, ctx), Score(ECCFailurePattern, ctx));
      var after := Max(Score(NVLinkFailurePattern, ctx), Score(XID79Pattern, ctx));
      var software := Score(SoftwareOOMPattern, ctx);
      (before >= 20 && before >= software) || (after >= 20 && after > software)
  {
    var ps := KnownPatterns;
    assert ps[0] == ThermalCascadePattern && ps[1] == ECCFailurePattern && ps[2] == SoftwareOOMPattern;
    assert ps[3] == NVLinkFailurePattern && ps[4] == XID79Pattern;
    if !NoneReaches(ps, ctx, 20) {
      var k: nat :| FirstBest(ps, ctx, k) && CauseIs(ps[k], ctx, r);
      assert r.notYourCode <==> k != 2;
    }
  }

  // The confidence reported is at least the score of any pattern that reaches 0.2.
  lemma ConfidenceAtLeast(patterns: seq<FailurePattern>, ctx: Context, r: RootCause, k: nat)
    requires Selected(patterns, ctx, r) && k < |patterns| && Score(patterns[k], ctx) >= 20
    ensures r.confidence >= Score(patterns[k], ctx)
  {}

  lemma ClearedByXID79(ctx: Context, r: RootCause)
    requires Selected(KnownPatterns, ctx, r) && 79 in ctx.xidCodes && Score(SoftwareOOMPattern, ctx) <= 65
    ensures r.notYourCode && r.confidence >= 70
  {
    XID79Score(ctx);
    BlameExact(ctx, r);
    ConfidenceAtLeast(KnownPatterns, ctx, r, 4);
  }

  lemma ClearedByMemoryErrors(ctx: Context, r: RootCause, code: int)
    requires Selected(KnownPatterns, ctx, r) && Score(SoftwareOOMPattern, ctx) <= 65
    requires ctx.eccUncorrectable > 0 && code in ctx.xidCodes && MemoryCode(code)
    ensures r.notYourCode && r.confidence >= 75
  {
    ECCScore(ctx);
    BlameExact(ctx, r);
    ConfidenceAtLeast(KnownPatterns, ctx, r, 1);
  }

  // The trigger or a related event is an XID event with this code.
  ghost predicate HasCode(i: Incident, code: int) {
    || (i.trigger.typ == "xid" && i.trigger.data.XID? && i.trigger.data.xid.code == code)
    || exists e :: e in i.related && e.typ == "xid" && e.data.XID? && e.data.xid.code == code
  }

  lemma CodesFound(i: Incident, ctx: Context, code: int)
    requires IsContext(ctx, i)
    ensures code in ctx.xidCodes <==> HasCode(i, code)
  {
    CodesGathered(i);
  }

  /** The software pattern scores at most 0.65 when there is an XID code and the cause is not software. */
  lemma SoftwareAtMost(ctx: Context)
    requires ctx.xidCodes != [] && ctx.causality != SoftwareOOM
    ensures Score(SoftwareOOMPattern, ctx) <= 65
  {
    SoftwareScore(ctx);
  }

  lemma NotSoftware(i: Incident, texts: Texts, code: int)
    requires Built(i, texts) && Legible(i, texts) && HasCode(i, code)
    ensures i.causality != SoftwareOOM
  {
    assert AnyEvent(i, "xid");
    XIDIsNotSoftware(i, texts);
  }

  /**
    A GPU that fell off the bus is never the user's code: in any incident, finished or
    cancelled, whatever triggered it, as the program words its entries.
   */
  lemma XID79NotYourCode(i: Incident, texts: Texts, r: RootCause)
    requires Built(i, texts) && Legible(i, texts)
    requires Reported(KnownPatterns, Some(i), r) && HasCode(i, 79)
    ensures r.notYourCode && r.confidence >= 70
  {
    var ctx :| IsContext(ctx, i) && Selected(KnownPatterns, ctx, r);
    CodesFound(i, ctx, 79);
    NotSoftware(i, texts, 79);
    SoftwareAtMost(ctx);
    ClearedByXID79(ctx, r);
  }

  /** Nor are uncorrectable memory errors with an XID event that confirms them. */
  lemma MemoryErrorsNotYourCode(i: Incident, texts: Texts, r: RootCause, s: Snapshot, code: int)
    requires Built(i, texts) && Legible(i, texts)
    requires Reported(KnownPatterns, Some(i), r)
    requires s in i.snapshots && s.eccUncorrectable > 0
    requires HasCode(i, code) && MemoryCode(code)
    ensures r.notYourCode && r.confidence >= 75
  {
    var ctx :| IsContext(ctx, i) && Selected(KnownPatterns, ctx, r);
    CodesFound(i, ctx, code);
    NotSoftware(i, texts, code);
    SoftwareAtMost(ctx);
    ClearedByMemoryErrors(ctx, r, code);
  }
}
