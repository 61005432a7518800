/**
  The gateway around the fan-out: routeToGPUNode of pkg/gateway/router.go on the
  breaker object, and the error gate and aggregation of pkg/gateway/proxy.go.
 */
module Gateway {
  import opened Basics
  import opened CircuitBreaking
  import opened FanOut
  import opened FanOutSafety
  import opened FanOutTheorems

  // ---------- One node ----------

  /**
    Calls one node if it is ready and its circuit admits it, and records the reply
    exactly once. `reply` is what the network gives back between the two instants.
   */
  method RouteToGPUNode(cb: CircuitBreaker, node: Node, asked: Time, replied: Time, reply: Result<string, string>)
    returns (r: Result<string, string>)
    requires cb.Valid()
    modifies cb
    ensures cb.Valid()
    ensures !node.ready ==> r.Err? && cb.history == old(cb.history)
    ensures node.ready && !TraceAdmits(cb.Cfg(), old(cb.history), node.name, asked) ==>
            r.Err? && cb.history == old(cb.history) + [Event(Allow, node.name, asked)]
    ensures node.ready && TraceAdmits(cb.Cfg(), old(cb.history), node.name, asked) ==>
            && r == reply
            && cb.history == old(cb.history) + [Event(Allow, node.name, asked),
                 Event(if reply.Ok? then RecordSuccess else RecordFailure, node.name, replied)]
  {
    if !node.ready {
      return Err("agent on node " + node.name + " is not ready");
    }
    var admitted := cb.Allow(node.name, asked);
    if !admitted {
      return Err("circuit open for node " + node.name);
    }
    if reply.Err? {
      cb.RecordFailure(node.name, replied);
      return reply;
    }
    cb.RecordSuccess(node.name, replied);
    return reply;
  }

  // ---------- Results and their aggregation ----------

  // An empty error stands for none.
  datatype NodeResult = NodeResult(nodeName: string, podName: string, response: string, error: string)

  datatype NodeData<D> = NodeData(nodeName: string, podName: string, outcome: Result<D, string>)

  datatype Status = Success | Partial | Error

  datatype Aggregate<D> =
    Aggregate(status: Status, nodeCount: nat, successCount: nat, errorCount: nat, nodes: seq<NodeData<D>>)

  function Successful(results: seq<NodeResult>): nat {
    if results == [] then 0
    else Successful(results[..|results| - 1]) + if results[|results| - 1].error == "" then 1 else 0
  }

  function Shown<D>(parse: string -> D, r: NodeResult): NodeData<D> {
    NodeData(r.nodeName, r.podName, if r.error == "" then Ok(parse(r.response)) else Err(r.error))
  }

  lemma {:induction false} SuccessfulExtremes(results: seq<NodeResult>)
    ensures Successful(results) <= |results|
    ensures Successful(results) == 0 <==> forall r <- results :: r.error != ""
    ensures Successful(results) == |results| <==> forall r <- results :: r.error == ""
  {
    if results != [] {
      var n := |results| - 1;
      SuccessfulExtremes(results[..n]);
      assert results == results[..n] + [results[n]];
    }
  }

  lemma {:induction false} SuccessfulCounted(results: seq<NodeResult>)
    ensures Successful(results) == |set k: nat | k < |results| && results[k].error == ""|
  {
    if results != [] {
      var n := |results| - 1;
      var front := results[..n];
      SuccessfulCounted(front);
      var before := set k: nat | k < |front| && front[k].error == "";
      var after := set k: nat | k < |results| && results[k].error == "";
      assert after == before + if results[n].error == "" then {n} else {};
    }
  }

  /** The aggregation used for every tool without one of its own. */
  method AggregateDefault<D>(results: seq<NodeResult>, parse: string -> D) returns (a: Aggregate<D>)
    ensures a.nodeCount == |results| == |a.nodes|
    ensures forall k :: 0 <= k < |results| ==> a.nodes[k] == Shown(parse, results[k])
    ensures forall k :: 0 <= k < |results| ==>
      && a.nodes[k].nodeName == results[k].nodeName && a.nodes[k].podName == results[k].podName
      && (results[k].error == "" ==> a.nodes[k].outcome == Ok(parse(results[k].response)))
      && (results[k].error != "" ==> a.nodes[k].outcome == Err(results[k].error))
    ensures a.successCount == Successful(results) && a.successCount + a.errorCount == |results|
    ensures a.successCount == |set k: nat | k < |results| && results[k].error == ""|
    ensures a.status == Success <==> forall r <- results :: r.error == ""
    ensures a.status == Error <==> results != [] && forall r <- results :: r.error != ""
  {
    var successCount, errorCount := 0, 0;
    var nodes: seq<NodeData<D>> := [];
    for i := 0 to |results|
      invariant successCount == Successful(results[..i]) && successCount + errorCount == i == |nodes|
      invariant forall k :: 0 <= k < i ==> nodes[k] == Shown(parse, results[k])
    {
      var result := results[i];
      assert results[..i + 1][..i] == results[..i];
      if result.error != "" {
        nodes := nodes + [NodeData(result.nodeName, result.podName, Err(result.error))];
        errorCount := errorCount + 1;
      } else {
        nodes := nodes + [NodeData(result.nodeName, result.podName, Ok(parse(result.response)))];
        successCount := successCount + 1;
      }
    }
    assert results[..|results|] == results;
    SuccessfulExtremes(results);
    SuccessfulCounted(results);
    var status := if errorCount > 0 && successCount == 0 then Error else if errorCount > 0 then Partial else Success;
    a := Aggregate(status, |results|, successCount, errorCount, nodes);
  }

  // ---------- From the fan-out to the tool's answer ----------

  // The texts a run's goroutines put into their results.
  datatype Texts = Texts(response: nat -> string, error: nat -> string)

  // No error text is empty: each of them starts with what went wrong.
  function ErrorText(out: Outcome, detail: string): string {
    match out
    case CircuitOpen => "circuit open (state: " + detail + ")"
    case Cancelled => "context cancelled while waiting for semaphore"
    case Refused => "circuit open for node " + detail
    case Failed => "request failed on node " + detail
    case Succeeded => ""
  }

  function ResultOf(c: Setup, texts: Texts, e: Entry): NodeResult
    requires e.index < |c.nodes|
  {
    var node := c.nodes[e.index];
    NodeResult(node.name, node.podName,
      if e.out == Succeeded then texts.response(e.index) else "", ErrorText(e.out, texts.error(e.index)))
  }

  function ResultsOf(c: Setup, texts: Texts, entries: seq<Entry>): (results: seq<NodeResult>)
    requires forall e <- entries :: e.index < |c.nodes|
    ensures |results| == |entries|
    ensures forall k :: 0 <= k < |entries| ==> results[k] == ResultOf(c, texts, entries[k])
  {
    seq(|entries|, k requires 0 <= k < |entries| => ResultOf(c, texts, entries[k]))
  }

  lemma {:induction false} SuccessesAgree(c: Setup, texts: Texts, entries: seq<Entry>)
    requires forall e <- entries :: e.index < |c.nodes|
    ensures Successful(ResultsOf(c, texts, entries)) == Successes(entries)
  {
    if entries != [] {
      var n := |entries| - 1;
      SuccessesAgree(c, texts, entries[..n]);
      assert ResultsOf(c, texts, entries)[..n] == ResultsOf(c, texts, entries[..n]);
    }
  }

  lemma EntriesListed(c: Setup, run: seq<Label>, s: State)
    requires c.Valid() && Reaches(c, run, s)
    ensures forall e <- s.results :: e.index < |c.nodes|
  {
    ReachableInv(c, run, s);
    forall e | e in s.results ensures e.index < |c.nodes| {
      assert e in s.results + s.buffer;
    }
  }

  lemma {:induction false} SuccessesExtremes(entries: seq<Entry>)
    ensures Successes(entries) <= |entries|
    ensures Successes(entries) == 0 <==> forall e <- entries :: e.out != Succeeded
    ensures Successes(entries) == |entries| <==> forall e <- entries :: e.out == Succeeded
  {
    if entries != [] {
      var n := |entries| - 1;
      SuccessesExtremes(entries[..n]);
      assert entries == entries[..n] + [entries[n]];
    }
  }

  // router.go returns an error when there are results and none succeeded.
  predicate RouteFails(s: State) {
    s.successCount == 0 && |s.results| > 0
  }

  // A node's data: under its own name and pod, and its own response, or some error, as its result came out.
  ghost predicate ShownFor<D>(c: Setup, e: Entry, texts: Texts, parse: string -> D, data: NodeData<D>)
    requires e.index < |c.nodes|
  {
    && data.nodeName == c.nodes[e.index].name && data.podName == c.nodes[e.index].podName
    && (e.out == Succeeded ==> data.outcome == Ok(parse(texts.response(e.index))))
    && (e.out != Succeeded ==> data.outcome.Err? && data.outcome.error != "")
  }

  lemma ShownExact<D>(c: Setup, e: Entry, texts: Texts, parse: string -> D)
    requires e.index < |c.nodes|
    ensures ShownFor(c, e, texts, parse, Shown(parse, ResultOf(c, texts, e)))
  {}

  datatype Answer<D> = ToolError | Answered(aggregate: Aggregate<D>)

  // The aggregation of a fan-out's results.
  method AggregateEntries<D>(c: Setup, entries: seq<Entry>, texts: Texts, parse: string -> D) returns (a: Aggregate<D>)
    requires forall e <- entries :: e.index < |c.nodes|
    ensures a.nodeCount == |entries| == |a.nodes|
    ensures forall k :: 0 <= k < |entries| ==> a.nodes[k] == Shown(parse, ResultOf(c, texts, entries[k]))
    ensures a.status == Success <==> forall e <- entries :: e.out == Succeeded
    ensures a.status == Error <==> entries != [] && forall e <- entries :: e.out != Succeeded
  {
    var results := ResultsOf(c, texts, entries);
    ErrorsShown(c, texts, entries);
    a := AggregateDefault(results, parse);
  }

  /**
    ProxyHandler.Handle, with the nodes listed and the fan-out returned in any
    interleaving: the tool reports an error exactly when the listing failed, or some node
    was owed a result and none gave one; otherwise it reports one node per owed result,
    and never the status `error`, which the aggregation knows but the gate in front of it
    keeps out.
   */
  method Handle<D>(listed: bool, c: Setup, ghost run: seq<Label>, s: State, texts: Texts, parse: string -> D)
    returns (answer: Answer<D>)
    requires listed ==> c.Valid() && Reaches(c, run, s) && s.main == Returned
    ensures listed ==> forall e <- s.results :: e.index < |c.nodes|
    ensures answer == ToolError <==> !listed || (s.results != [] && forall e <- s.results :: e.out != Succeeded)
    ensures answer.Answered? ==>
      && answer.aggregate.nodeCount == |s.results| == |answer.aggregate.nodes|
      && (forall k :: 0 <= k < |s.results| ==>
            answer.aggregate.nodes[k] == Shown(parse, ResultOf(c, texts, s.results[k])))
      && (forall k :: 0 <= k < |s.results| ==> ShownFor(c, s.results[k], texts, parse, answer.aggregate.nodes[k]))
      && (answer.aggregate.status == Success <==> forall e <- s.results :: e.out == Succeeded)
      && answer.aggregate.status != Error
  {
    if !listed {
      return ToolError;
    }
    EntriesListed(c, run, s);
    GateExact(c, run, s);
    if RouteFails(s) {
      return ToolError;
    }
    forall k | 0 <= k < |s.results|
      ensures ShownFor(c, s.results[k], texts, parse, Shown(parse, ResultOf(c, texts, s.results[k])))
    {
      ShownExact(c, s.results[k], texts, parse);
    }
    var a := AggregateEntries(c, s.results, texts, parse);
    answer := Answered(a);
  }

  // The gate closes exactly when there are results and none succeeded.
  lemma GateExact(c: Setup, run: seq<Label>, s: State)
    requires c.Valid() && Reaches(c, run, s) && s.main == Returned
    ensures RouteFails(s) <==> s.results != [] && forall e <- s.results :: e.out != Succeeded
  {
    OneResultEach(c, run, s);
    SuccessesExtremes(s.results);
  }

  // A result carries no error exactly when its entry is a success.
  lemma ErrorsShown(c: Setup, texts: Texts, entries: seq<Entry>)
    requires forall e <- entries :: e.index < |c.nodes|
    ensures var results := ResultsOf(c, texts, entries);
            && ((forall r <- results :: r.error == "") <==> forall e <- entries :: e.out == Succeeded)
            && ((forall r <- results :: r.error != "") <==> forall e <- entries :: e.out != Succeeded)
  {
    var results := ResultsOf(c, texts, entries);
    SuccessesAgree(c, texts, entries);
    SuccessesExtremes(entries);
    SuccessfulExtremes(results);
  }
}
