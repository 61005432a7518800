/** Failure signatures with weighted indicators: pkg/incidents/patterns.go and the checks of analyzer.go. */
module Patterns {
  import opened Basics

  // The dynamic type of an indicator's value; all signed and all unsigned widths are one each.
  datatype Value = Nil | Signed(i: int) | Unsigned(u: nat) | Float(r: real) | Text(s: string) | Codes(codes: seq<int>)

  // Weights are in hundredths.
  datatype Indicator = Indicator(kind: string, condition: string, value: Value, weight: int)

  datatype FailurePattern = FailurePattern(category: string, indicators: seq<Indicator>, notYourCode: bool)

  // What the analyzer extracts from an incident.
  datatype Context = Context(
    xidCodes: seq<int>,
    temperature: nat,
    eccUncorrectable: nat,
    memUtilPercent: real,
    throttleReasons: set<nat>,
    k8sReasons: seq<string>,
    k8sMessages: seq<string>,
    causality: string)

  // Why an indicator matched; its wording is left out.
  datatype Evidence =
    | XIDDetected(code: int) | XIDInSet(code: int) | NoXIDs | XIDsPresent(codes: seq<int>)
    | TempAbove(temperature: nat, threshold: nat) | TempBelow(temperature: nat, threshold: nat)
    | ECCErrors(count: nat) | ECCCount(count: nat)
    | ThermalThrottling(reasons: set<nat>) | Throttling(reasons: set<nat>) | NoThrottling
    | K8sReason(reason: string) | K8sMessage(search: string)
    | MemoryAbove(percent: real, limit: real) | MemoryBelow(percent: real, limit: real)
    | CausalityIs(causality: string) | CausalityIncludes(causality: string)
    | NothingMatched | NoIncident

  // ---------- Conversions ----------

  function ToInt(v: Value): Option<int> {
    match v
    case Signed(i) => Some(i)
    case Unsigned(u) => Some(if u < TwoTo63 then u else u - TwoTo64)
    case _ => None
  }

  function ToUint32(v: Value): Option<nat> {
    match v
    case Signed(i) => if i < 0 then None else Some(i % TwoTo32)
    case Unsigned(u) => Some(u % TwoTo32)
    case _ => None
  }

  function ToUint64(v: Value): Option<nat> {
    match v
    case Signed(i) => if i < 0 then None else Some(i)
    case Unsigned(u) => Some(u)
    case _ => None
  }

  function ToFloat64(v: Value): Option<real> {
    match v
    case Float(r) => Some(r)
    case Signed(i) => Some(i as real)
    case Unsigned(u) => Some(u as real)
    case _ => None
  }

  // ---------- Text ----------

  function LowerChar(c: char): char {
    if 'A' <= c <= 'Z' then c + 32 as char else c
  }

  function Lower(s: string): (r: string)
    ensures |r| == |s| && forall i :: 0 <= i < |s| ==> r[i] == LowerChar(s[i])
  {
    seq(|s|, i requires 0 <= i < |s| => LowerChar(s[i]))
  }

  predicate OccursAt(sub: string, s: string, i: nat) {
    i + |sub| <= |s| && s[i..i + |sub|] == sub
  }

  predicate Occurs(sub: string, s: string) {
    exists i: nat :: i <= |s| && OccursAt(sub, s, i)
  }

  predicate OccursFolded(sub: string, s: string) {
    Occurs(Lower(sub), Lower(s))
  }

  // The first element that satisfies the test.
  function First<T>(s: seq<T>, test: T -> bool): (r: Option<T>)
    ensures r.None? <==> forall x <- s :: !test(x)
    ensures r.Some? ==>
      exists k :: 0 <= k < |s| && s[k] == r.value && test(s[k]) && forall j :: 0 <= j < k ==> !test(s[j])
  {
    if s == [] then None
    else if test(s[0]) then Some(s[0])
    else First(s[1..], test)
  }

  // ---------- Checks ----------

  function CheckXID(ind: Indicator, ctx: Context): Option<Evidence> {
    match ind.condition
    case "equals" =>
      var target := ToInt(ind.value);
      if target.Some? && target.value in ctx.xidCodes then Some(XIDDetected(target.value)) else None
    case "in" =>
      if !ind.value.Codes? then None
      else
        var hit := First(ctx.xidCodes, code => code in ind.value.codes);
        if hit.Some? then Some(XIDInSet(hit.value)) else None
    case "not_present" => if ctx.xidCodes == [] then Some(NoXIDs) else None
    case "present" => if ctx.xidCodes != [] then Some(XIDsPresent(ctx.xidCodes)) else None
    case _ => None
  }

  function CheckTemp(ind: Indicator, ctx: Context): Option<Evidence> {
    var threshold := ToUint32(ind.value);
    if threshold.None? then None
    else if ind.condition == "greater_than" && ctx.temperature > threshold.value then
      Some(TempAbove(ctx.temperature, threshold.value))
    else if ind.condition == "less_than" && ctx.temperature < threshold.value then
      Some(TempBelow(ctx.temperature, threshold.value))
    else None
  }

  function CheckECC(ind: Indicator, ctx: Context): Option<Evidence> {
    var threshold := ToUint64(ind.value);
    if threshold.None? then None
    else if ind.condition == "greater_than" && ctx.eccUncorrectable > threshold.value then
      Some(ECCErrors(ctx.eccUncorrectable))
    else if ind.condition == "equals" && ctx.eccUncorrectable == threshold.value then
      Some(ECCCount(ctx.eccUncorrectable))
    else None
  }

  function CheckThrottle(ind: Indicator, ctx: Context): Option<Evidence> {
    if ind.condition == "present" && ctx.throttleReasons != {} then
      Some(if ind.value.Text? && Occurs("thermal", ind.value.s) then ThermalThrottling(ctx.throttleReasons)
           else Throttling(ctx.throttleReasons))
    else if ind.condition == "not_present" && ctx.throttleReasons == {} then Some(NoThrottling)
    else None
  }

  function CheckK8sEvent(ind: Indicator, ctx: Context): Option<Evidence> {
    if !ind.value.Text? then None
    else
      var search := ind.value.s;
      match ind.condition
      case "contains" =>
        var reason := First(ctx.k8sReasons, r => OccursFolded(search, r));
        if reason.Some? then Some(K8sReason(reason.value))
        else if First(ctx.k8sMessages, m => OccursFolded(search, m)).Some? then Some(K8sMessage(search))
        else None
      case "equals" =>
        var reason := First(ctx.k8sReasons, r => Lower(r) == Lower(search));
        if reason.Some? then Some(K8sReason(reason.value)) else None
      case _ => None
  }

  function CheckMemUtil(ind: Indicator, ctx: Context): Option<Evidence> {
    var threshold := ToFloat64(ind.value);
    if threshold.None? then None
    else if ind.condition == "greater_than" && ctx.memUtilPercent > threshold.value then
      Some(MemoryAbove(ctx.memUtilPercent, threshold.value))
    else if ind.condition == "less_than" && ctx.memUtilPercent < threshold.value then
      Some(MemoryBelow(ctx.memUtilPercent, threshold.value))
    else None
  }

  function CheckCausality(ind: Indicator, ctx: Context): Option<Evidence> {
    if !ind.value.Text? then None
    else if ind.condition == "equals" && ctx.causality == ind.value.s then Some(CausalityIs(ctx.causality))
    else if ind.condition == "contains" && Occurs(ind.value.s, ctx.causality) then Some(CausalityIncludes(ind.value.s))
    else None
  }

  function CheckIndicator(ind: Indicator, ctx: Context): Option<Evidence> {
    match ind.kind
    case "xid" => CheckXID(ind, ctx)
    case "temp" => CheckTemp(ind, ctx)
    case "ecc" => CheckECC(ind, ctx)
    case "throttle" => CheckThrottle(ind, ctx)
    case "k8s_event" => CheckK8sEvent(ind, ctx)
    case "mem_util" => CheckMemUtil(ind, ctx)
    case "causality" => CheckCausality(ind, ctx)
    case _ => None
  }

  // ---------- What the checks mean ----------

  lemma ChecksExact(ind: Indicator, ctx: Context)
    ensures CheckIndicator(ind, ctx).Some? ==>
      ind.kind in {"xid", "temp", "ecc", "throttle", "k8s_event", "mem_util", "causality"}
    ensures ind.kind == "temp" && ind.value.Unsigned? && ind.value.u < 0x1_0000_0000 ==>
      (CheckIndicator(ind, ctx).Some? <==>
        || (ind.condition == "greater_than" && ctx.temperature > ind.value.u)
        || (ind.condition == "less_than" && ctx.temperature < ind.value.u))
    ensures ind.kind == "ecc" && ind.value.Unsigned? ==>
      (CheckIndicator(ind, ctx).Some? <==>
        || (ind.condition == "greater_than" && ctx.eccUncorrectable > ind.value.u)
        || (ind.condition == "equals" && ctx.eccUncorrectable == ind.value.u))
    ensures ind.kind == "throttle" ==>
      (CheckIndicator(ind, ctx).Some? <==>
        || (ind.condition == "present" && ctx.throttleReasons != {})
        || (ind.condition == "not_present" && ctx.throttleReasons == {}))
    ensures ind.kind == "mem_util" && ind.value.Float? ==>
      (CheckIndicator(ind, ctx).Some? <==>
        || (ind.condition == "greater_than" && ctx.memUtilPercent > ind.value.r)
        || (ind.condition == "less_than" && ctx.memUtilPercent < ind.value.r))
  {}

  lemma TextChecksExact(ind: Indicator, ctx: Context)
    ensures ind.kind == "causality" && ind.value.Text? ==>
      (CheckIndicator(ind, ctx).Some? <==>
        || (ind.condition == "equals" && ctx.causality == ind.value.s)
        || (ind.condition == "contains" &&
              exists i: nat :: i <= |ctx.causality| && OccursAt(ind.value.s, ctx.causality, i)))
    ensures ind.kind == "k8s_event" && ind.value.Text? ==>
      (CheckIndicator(ind, ctx).Some? <==>
        || (ind.condition == "contains" && exists r :: r in ctx.k8sReasons && OccursFolded(ind.value.s, r))
        || (ind.condition == "contains" && exists m :: m in ctx.k8sMessages && OccursFolded(ind.value.s, m))
        || (ind.condition == "equals" && exists r :: r in ctx.k8sReasons && Lower(r) == Lower(ind.value.s)))
    ensures ind.kind in {"causality", "k8s_event"} && !ind.value.Text? ==> CheckIndicator(ind, ctx).None?
  {}

  lemma CodeChecksExact(ind: Indicator, ctx: Context)
    ensures ind.kind == "xid" && ind.condition == "equals" && ind.value.Signed? ==>
      (CheckIndicator(ind, ctx).Some? <==> ind.value.i in ctx.xidCodes)
    ensures ind.kind == "xid" && ind.condition == "in" && ind.value.Codes? ==>
      (CheckIndicator(ind, ctx).Some? <==> exists c :: c in ctx.xidCodes && c in ind.value.codes)
    ensures ind.kind == "xid" && ind.condition == "present" ==>
      (CheckIndicator(ind, ctx).Some? <==> ctx.xidCodes != [])
    ensures ind.kind == "xid" && ind.condition == "not_present" ==>
      (CheckIndicator(ind, ctx).Some? <==> ctx.xidCodes == [])
    ensures ind.kind == "xid" && CheckIndicator(ind, ctx).Some? ==>
      ind.condition in {"equals", "in", "present", "not_present"}
  {}

  /** What the evidence shows of the numbers that made it. */
  lemma EvidenceShows(ind: Indicator, ctx: Context)
    ensures CheckIndicator(ind, ctx).Some? ==>
      match CheckIndicator(ind, ctx).value
      case TempAbove(t, limit) => t == ctx.temperature && t > limit && ToUint32(ind.value) == Some(limit)
      case TempBelow(t, limit) => t == ctx.temperature && t < limit && ToUint32(ind.value) == Some(limit)
      case ECCErrors(count) => count == ctx.eccUncorrectable
      case ECCCount(count) => count == ctx.eccUncorrectable
      case MemoryAbove(p, limit) => p == ctx.memUtilPercent && p > limit && ToFloat64(ind.value) == Some(limit)
      case MemoryBelow(p, limit) => p == ctx.memUtilPercent && p < limit && ToFloat64(ind.value) == Some(limit)
      case XIDDetected(code) => code in ctx.xidCodes && ToInt(ind.value) == Some(code)
      case XIDInSet(code) => code in ctx.xidCodes && ind.value.Codes? && code in ind.value.codes
      case XIDsPresent(codes) => codes == ctx.xidCodes
      case ThermalThrottling(reasons) => reasons == ctx.throttleReasons && reasons != {}
      case Throttling(reasons) => reasons == ctx.throttleReasons && reasons != {}
      case K8sReason(reason) => reason in ctx.k8sReasons
      case K8sMessage(search) => ind.value == Text(search)
      case CausalityIs(causality) => causality == ctx.causality
      case CausalityIncludes(causality) => ind.value == Text(causality)
      case NoXIDs => ctx.xidCodes == []
      case NoThrottling => ctx.throttleReasons == {}
      case NothingMatched => false
      case NoIncident => false
  {}

  // ---------- The known patterns ----------

  const ThermalCascadePattern := FailurePattern("thermal_cascade", [
    Indicator("temp", "greater_than", Unsigned(82), 30),
    Indicator("throttle", "present", Text("hw_thermal"), 30),
    Indicator("causality", "equals", Text("thermal_cascade"), 25),
    Indicator("xid", "in", Codes([79, 43]), 15)], true)

  const ECCFailurePattern := FailurePattern("ecc_failure", [
    Indicator("ecc", "greater_than", Unsigned(0), 40),
    Indicator("xid", "in", Codes([48, 63, 64, 68, 69, 8, 92]), 35),
    Indicator("causality", "equals", Text("memory_failure"), 25)], true)

  const SoftwareOOMPattern := FailurePattern("software_oom", [
    Indicator("mem_util", "greater_than", Float(95.0), 30),
    Indicator("k8s_event", "contains", Text("OOMKilled"), 35),
    Indicator("causality", "equals", Text("software_oom"), 25),
    Indicator("xid", "not_present", Nil, 10)], false)

  const NVLinkFailurePattern := FailurePattern("nvlink_failure", [
    Indicator("xid", "equals", Signed(74), 50),
    Indicator("k8s_event", "contains", Text("NVLink"), 30),
    Indicator("k8s_event", "contains", Text("interconnect"), 20)], true)

  const XID79Pattern := FailurePattern("xid_79_bus_error", [
    Indicator("xid", "equals", Signed(79), 70),
    Indicator("causality", "equals", Text("thermal_cascade"), 15),
    Indicator("throttle", "present", Text(""), 15)], true)

  const KnownPatterns :=
    [ThermalCascadePattern, ECCFailurePattern, SoftwareOOMPattern, NVLinkFailurePattern, XID79Pattern]
}
