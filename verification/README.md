# k8s-gpu-mcp-server in Dafny

A model of the parts of the GPU diagnostic gateway and agent that keep state or run a
protocol, with proofs of what they promise. Time is an integer number of nanoseconds,
text a sequence of characters standing for bytes.

**Gateway.** `CircuitBreaking` is the per-node breaker, as an object with its maps and as a
function of the trace of operations. What it promises is stated over the trace alone.
`FanOut` is `RouteToAllNodes` as a transition system: the main loop that sends results before
anyone receives them, the workers with their semaphore, the closer and the collector, each
step atomic, in every interleaving, with cancellation at any moment and with other calls
using the same breaker. `FanOutSafety` holds its invariant, `FanOutTheorems` what follows
for every reachable state and for finished runs, and `FanOutOutcomes` what each result
stands for. `Gateway` adds the call to one node, the
aggregation, and the error gate in front of it. `HttpClient` is the retry loop with 64-bit
arithmetic.

**Wire.** `UTF8` is RFC 3629; `Json` is RFC 8259 text with all its choices of white space
and escapes, and what Go writes of it. `Framing` is the byte scanner that splits responses,
the requests and the parsers; `Oneshot` is the agent's handling of requests and its run over lines with the line scanner's limit;
`OneshotRuns` is that run with its scanning goroutine and channel, in every interleaving;
`Exchange` puts gateway and agent together for a whole tool call.

**Black box.** `Ring` is the circular buffer against the sequence of everything added;
`Recording` is the flight recorder with one such buffer for each GPU; `Telemetry` is one sample.

**Incidents.** `Timelines` has sorting, deduplication and order; `Correlation` the gathering
around a trigger; `Incidents` the timeline, the causality and `Correlate`. `XIDCodes` and
`Watching` are what the XID watcher's buffer can hold, and `Wording` how entries are
described. `Causality` has what these say of every incident that can be built, and `Ties`
what equal times leave open. `Patterns` has the indicators and the table of known failures, `Analysis` the scoring and the report, and `Attribution` the results that
span both packages. `Reports` says what is reported of any incident from its events and
snapshots alone. Weights are in hundredths.

**Caches and topology.** `ProcessMapping` is the process-to-pod cache with its in-place
eviction, `NVLink` the discovery of GPU interconnects, `CertReloading` the TLS certificate
cache. `Basics` has the stock datatypes.

## What the proofs found

- The metrics callback is not told of `Reset`. `ReportedStateExact` says on the trace when it
  shows a state that is not the node's: the circuit was not closed when it was reset, and
  since then came neither a success nor enough failures.
- A scanning goroutine that notices a cancellation drops the line it holds and closes its
  channel, and the main loop may take that for the end of the input (`EarlyEndOfInput`). A
  reported end of input means that everything was read exactly when the goroutine noticed
  none (`EndOfInputExact`). With an error of the reader pending while lines were still handed
  out, the same drop ends as a read error with a line unread (`EarlyReadError`), and only so
  (`ReadFailureExact`).
- An escaped string means the string it came from exactly when that is well-formed UTF-8
  (`EscapeReadsBack`).
- Splitting a run's output gives back its objects exactly when no `null`, the answer to a
  notification, precedes an object (`ResponsesRecovered`); the last reply is read as it is
  exactly when the response just before it is not `null` (`LastReplyRead`).
- Backoff can overflow. The delays of all the retries a policy allows are the intended ones
  exactly when the last of them fits in 64 bits, as the default policy's do (`BackoffExact`,
  `DefaultFits`); the first that does not fit is negative, and the retry immediate. The
  program itself never gets there: its policy type is not exported and only ever the default.
- A ring buffer query cuts at the first match, which is the window exactly when no item
  outside it follows one inside (`FromIsWindow`). XID and Kubernetes events are gathered this
  way, so their lower window bound holds under that condition (`GatheredIsWindow`).
- The comment on `deduplicateTimeline`'s caller speaks of consecutive entries; the code drops
  every later entry with the same type and description. An order of types can be lost by it;
  `DedupOrderExact` says exactly when.
- Whether an incident is a thermal cascade can depend on the order in which a map of GPUs is
  visited, whatever the sort (`MapOrderDecides`). `EverySort` and `SomeSort` give the orders
  of types that do not depend on how ties are sorted and those that may, and
  `IndependentExact` the causes that do not.
- The key that deduplication compares does not separate types from descriptions that
  contain `|`. In the program's wording, with what the XID watcher can hold, no trigger's
  entry has the key of a hardware event, whatever its type (`HardwareOwnKeys`): so no type of
  hardware event is lost, and a bus error is never blamed on the user's code.
- What a temperature threshold means is computed in 32 unsigned bits: one below ten wraps,
  and nothing is hot by it (`HotExact`).
- Cancellation during the last device of the NVLink discovery gives a partial answer as a
  success (`PartialAnswer`); `AnswerExact` says when there is an answer and when it is whole.
- A certificate load that sees one disk state while the stats after it see the next is never
  repaired, and breaks the five-minute bound (`TornLoadStale`, `TornLoadBreaksBound`). What is
  served is what was on disk when its times were last found there exactly when the last load
  saw the pair those times stand for (`TornExact`). A failed check is not repeated for five
  minutes (`FailureDelays`).

## Model

| member | source | states |
|---|---|---|
| CircuitBreaking.CircuitBreaker.Allow | pkg/gateway/circuit_breaker.go:91-115 | answers as the trace so far admits, and turns an expired open circuit half-open, telling the callback |
| CircuitBreaking.CircuitBreaker.RecordSuccess | pkg/gateway/circuit_breaker.go:119-127 | the maps stay those of the whole history |
| CircuitBreaking.CircuitBreaker.RecordFailure | pkg/gateway/circuit_breaker.go:131-142 | the maps stay those of the whole history |
| CircuitBreaking.CircuitBreaker.Reset | pkg/gateway/circuit_breaker.go:166-173 | the maps stay those of the whole history, and the callback hears nothing |
| CircuitBreaking.CircuitBreaker.State | pkg/gateway/circuit_breaker.go:152-156 | the state that the trace determines |
| CircuitBreaking.CircuitBreaker.Failures | pkg/gateway/circuit_breaker.go:159-163 | the number of failures since the node's last success or reset |
| CircuitBreaking.TraceSemantics | pkg/gateway/circuit_breaker.go:91-142 | after any run and for any threshold: the count is the failures since the last success or reset; closed iff below the threshold; half-open iff also asked later than the timeout after the last failure |
| CircuitBreaking.FailureCountExact | pkg/gateway/circuit_breaker.go:119-142 | the count is the number of the node's failures that no success or reset of it follows |
| CircuitBreaking.StateExact | pkg/gateway/circuit_breaker.go:91-142 | closed iff there is no such failure or fewer than the threshold; half-open iff not closed and the node was also asked later than the timeout after its last failure |
| CircuitBreaking.AdmitsByTrace | pkg/gateway/circuit_breaker.go:91-115 | whether a call is admitted, in terms of the trace alone |
| CircuitBreaking.RefusedExactly | pkg/gateway/circuit_breaker.go:96-115 | with a clock that does not go back, refused iff the threshold is reached and the last failure is at most the timeout old, however often it was tried |
| CircuitBreaking.NodesIndependent | pkg/gateway/circuit_breaker.go:41-51 | a node's entries after an interleaved trace are those of a breaker that saw only its own events |
| CircuitBreaking.ReportedStateExact | pkg/gateway/circuit_breaker.go:145-149 | the callback's last state is the node's, unless the trace shows a reset of a circuit that was not closed, followed by neither a success nor enough failures to open it |
| CircuitBreaking.HealthyExact | pkg/gateway/circuit_breaker.go:145-149 | every report says healthy iff it says closed |
| CircuitBreaking.ReportedWithoutReset | pkg/gateway/circuit_breaker.go:145-149 | in a run that never resets the node the callback's last state is its state |
| CircuitBreaking.ResetLeavesCallbackStale | pkg/gateway/circuit_breaker.go:166-173 | a run after which the callback shows open and the circuit is closed |
| FanOutSafety.ReachableInv | pkg/gateway/router.go:327-416 | the invariant of every reachable state: shapes, counters, channel, messages, tallies, log |
| FanOutTheorems.SlotsBounded | pkg/gateway/router.go:332-380 | in every interleaving at most maxConcurrency workers hold a slot, and every request is made by one that does |
| FanOutTheorems.SendsNeverBlock | pkg/gateway/router.go:328-394 | whenever a result is about to be sent the channel is open and has room, also before any receiver exists |
| FanOutTheorems.ReleasesNeverBlock | pkg/gateway/router.go:365-372 | giving back a slot and telling the WaitGroup never find them empty |
| FanOutTheorems.NeverStuck | pkg/gateway/router.go:336-416 | every state before the return has an enabled step of the call's own |
| FanOutTheorems.RunsEnd | pkg/gateway/router.go:336-416 | no run takes more than 16 own steps for each node and 4 more |
| FanOutTheorems.OneResultEach | pkg/gateway/router.go:336-416 | a finished run holds exactly one result for each ready node reached before cancellation and none for any other; the counts add up; none is `cancelled` unless the context was |
| FanOutTheorems.OneRecordPerRequest | pkg/gateway/router.go:351-394 | each result stands for exactly the breaker operations of its outcome: one Record for a request sent, none for a node refused, cancelled or without a result |
| FanOutOutcomes.OutcomeExact | pkg/gateway/router.go:351-394 | in terms of the steps of the run alone: a result is a success iff its worker got a good reply, failed iff a bad one, cancelled iff the worker gave up, refused iff its second question was answered with no, and circuit open iff no worker started |
| FanOutOutcomes.RecordsExact | pkg/gateway/router.go:187-192 | the breaker is told of a success of a node iff a good reply of it came in, of a failure iff a bad one did, at most once, and under the node's name |
| FanOutOutcomes.RefusedExactlyWhenFailing | pkg/gateway/router.go:351-362 | a node is held back iff at some question about it enough recent failures of it had been recorded |
| FanOutTheorems.RefusalsRecorded | pkg/gateway/router.go:351-362 | a node refused was turned down by the breaker at some moment of the run |
| FanOutTheorems.RefusedOnlyWhenFailing | pkg/gateway/router.go:351-362 | at that moment the node had as many failures as the limit, the last of them at most the timeout old |
| Gateway.RouteToGPUNode | pkg/gateway/router.go:134-194 | an unready node touches nothing, a refused one only asks, an admitted one asks and records exactly once, by its reply |
| Gateway.AggregateDefault | pkg/gateway/proxy.go:193-234 | one node of output for each result in order, under its name and pod, with its parsed response or its error; success iff no errors, error iff results and none succeeded |
| Gateway.Handle | pkg/gateway/proxy.go:129-137 | a tool error iff the nodes could not be listed, or there are results and none succeeded; otherwise each node under its own name and pod with its own response, or an error that is not empty; the aggregation behind it never says `error` |
| Gateway.SuccessesAgree | pkg/gateway/router.go:406-416 | the results that the router counts as successes are those the aggregation counts |
| HttpClient.BackoffIsIdeal | pkg/gateway/http_client.go:135-141 | while the doubled delay fits in 64 bits it is min(BaseDelay*2^(k-1), MaxDelay) |
| HttpClient.WaitsDouble | pkg/gateway/http_client.go:135-141 | the waits of a policy up to its cap |
| HttpClient.BackoffNondecreasing | pkg/gateway/http_client.go:135-141 | under the same condition later retries never wait less |
| HttpClient.BackoffExact | pkg/gateway/http_client.go:66-77 | the delays of all allowed retries are the intended ones iff the last of them fits in 64 bits |
| HttpClient.DefaultFits | pkg/gateway/http_client.go:34-40 | the default policy is one of those, with 700 ms of waiting in all |
| HttpClient.BackoffOverflows | pkg/gateway/http_client.go:135-141 | a policy whose second retry, which the loop makes, comes at once instead of after the cap |
| HttpClient.LaterMisfitCanAgree | pkg/gateway/http_client.go:135-141 | a delay that does not fit and still comes out as intended |
| HttpClient.TotalWaitBounded | pkg/gateway/http_client.go:66-93 | n waits take at most n times the maximum delay |
| HttpClient.CallMCP | pkg/gateway/http_client.go:59-94 | at most MaxRetries+1 requests; returns the first success after failures only; however it ends the wait is the sum of the delays between its requests, at most MaxRetries*MaxDelay; both ways a context can end it |
| UTF8.WellFormedExact | pkg/gateway/framing.go:75-128 | the byte tables accept exactly the encodings of code points |
| Json.EscapedText | pkg/gateway/framing.go:75-128 | how each byte of ASCII is written in a string |
| Json.EscapeReadsBack | pkg/gateway/framing.go:75-128 | an escaped string is legal; it means the string it came from iff that is well-formed UTF-8, and otherwise that string with its stray bytes replaced |
| Json.MarshalledOnOneLine | pkg/gateway/framing.go:117-128 | no marshalled value contains a line end, whatever its strings say |
| Framing.SplitJSONObjects | pkg/gateway/framing.go:197-241 | the byte loop computes the scanner that the lemmas below are about |
| Framing.SplitInvertsPrinting | pkg/gateway/framing.go:197-241 | objects printed with any white space around them are split back into exactly their texts, in order, whatever their strings contain |
| Framing.SeparatorExact | pkg/gateway/framing.go:197-241 | a separator without braces and quotes is dropped iff it is white space |
| Framing.StdioReadsLast | pkg/gateway/framing.go:134-193 | of any objects on the wire the stdio parser reads the last as the HTTP parser would |
| Framing.FallbackChangesNothing | pkg/gateway/proxy.go:536-557 | on a single-object response both parsers agree and the fallback cannot change the answer |
| Framing.AnswerExact | pkg/gateway/framing.go:161-191 | over the decoded response: a protocol error iff it has one, a tool error with the first text or `unknown` iff the tool says so, no data iff there is no content, and otherwise the first text, decoded iff it can be |
| Framing.StdioAnswerExact | pkg/gateway/framing.go:134-191 | the same of the last object on the wire |
| Framing.ToolRequestText | pkg/gateway/framing.go:75-128 | the bytes of a tools/call request: the tool, and the arguments if there are any |
| Framing.InitializeRequestText | pkg/gateway/framing.go:85-103 | the bytes of the initialize request |
| Framing.ToolMarshalled | pkg/gateway/framing.go:75-128 | the tools/call request is a marshalled object for every tool name and arguments |
| Framing.InitializeMarshalled | pkg/gateway/framing.go:75-128 | so is the initialize request |
| Oneshot.RunLines | pkg/mcp/oneshot.go:115-162 | over a channel that hands over some of the lines: lines consumed = processed + errors + skipped, processed at most the limit, output and statistics are those of the consumed lines, and what each ending means |
| Oneshot.Run | pkg/mcp/oneshot.go:93-163 | the same over an input split into lines below the token limit, after which the reader ends or fails |
| Oneshot.ProcessRequest | pkg/mcp/oneshot.go:166-223 | counts as processed iff the line parses, the reply can be marshalled and the write goes through; what is written is the reply, or the error response of what failed, or nothing iff the write fails |
| Oneshot.OneLineEach | pkg/mcp/oneshot.go:166-223 | each line that is not empty is answered with exactly one line, unless the write fails |
| Oneshot.ErrorIsObject | pkg/mcp/oneshot.go:197-223 | an error response is one marshalled object, whatever the request's id and the error's text |
| Oneshot.ErrorText | pkg/mcp/oneshot.go:197-223 | the bytes of an error response: its id or null, code and message |
| Oneshot.LineScanned | pkg/mcp/oneshot.go:98-113 | a line is what stands before a newline, without a carriage return at its end, and one that does not fit ends the input with an error |
| OneshotRuns.AlwaysAccounted | pkg/mcp/oneshot.go:93-163 | in every interleaving of goroutine, main loop and cancellation the accounts are those of the lines consumed, and a run ends as the loop over the lines handed to the channel |
| OneshotRuns.CountsExact | pkg/mcp/oneshot.go:115-162 | processed are the lines that parse, are handled and whose reply is written, skipped the empty ones, errors all others; the output is one piece for each line consumed |
| OneshotRuns.EndOfInputExact | pkg/mcp/oneshot.go:104-131 | a run that reports the end of the input consumed all of it iff the goroutine noticed no cancellation |
| OneshotRuns.ReadFailureExact | pkg/mcp/oneshot.go:104-124 | a read error is reported with a line unread iff the goroutine noticed a cancellation while the error was pending; without a cancellation it is reported after all lines, unless the limit came first |
| OneshotRuns.EarlyReadError | pkg/mcp/oneshot.go:104-124 | a run that reports the reader's error with the only line unread |
| OneshotRuns.EarlyEndOfInput | pkg/mcp/oneshot.go:104-131 | a run that ends like a normal end of input with its only line unread |
| OneshotRuns.NeverStuck | pkg/mcp/oneshot.go:93-163 | until it ends the run has an enabled step of its own |
| OneshotRuns.RunsEnd | pkg/mcp/oneshot.go:93-163 | no run takes more than three own steps for each line and two more |
| Oneshot.MarshalledLineRead | pkg/mcp/oneshot.go:98-113 | a marshalled value below the token limit is read back as one line, whatever follows |
| Exchange.ResponsesRecovered | pkg/gateway/framing.go:197-241 | splitting what a run wrote gives back the texts of its objects in order iff no null precedes an object |
| Exchange.LastReplyRead | pkg/gateway/framing.go:134-193 | the stdio parser reads the last object as it is iff the response just before it is not null |
| Exchange.RepliesDecide | pkg/mcp/oneshot.go:166-223 | the responses of a run are all objects if the server's own replies are |
| Exchange.EveryResponseRecovered | pkg/mcp/oneshot.go:185-191 | if they are, splitting what a run wrote gives back every response in order, whichever lines failed |
| Exchange.RequestLines | pkg/gateway/framing.go:117-128 | the agent's scanner reads exactly the two messages out of a request |
| Exchange.InitializeFits | pkg/gateway/framing.go:85-103 | the initialize message is always below the token limit |
| Exchange.CallOverStdio | pkg/gateway/proxy.go:536-557 | for any tool and arguments, in every uncancelled interleaving of the agent's run, the agent consumes the two messages, writes exactly the two replies as lines, and the gateway, after failing to read both as one, gets the tools/call reply: an error if the tool reports one, and otherwise its first text |
| Exchange.NullSpoilsNext | pkg/gateway/framing.go:197-241 | a `null` line before an object spoils the object |
| Ring.RingBuffer.Add | pkg/blackbox/ring.go:47-63 | holds the last `capacity` of everything added since the last Clear |
| Ring.RingBuffer.Clear | pkg/blackbox/ring.go:234-247 | holds nothing, as if new |
| Ring.RingBuffer.Latest | pkg/blackbox/ring.go:67-79 | the last item added, or none |
| Ring.RingBuffer.Size | pkg/blackbox/ring.go:82-86 | the number of items retained |
| Ring.RingBuffer.All | pkg/blackbox/ring.go:95-114 | the retained items, oldest first |
| Ring.RingBuffer.Query | pkg/blackbox/ring.go:120-155 | the retained items from the first one in the window on |
| Ring.RingBuffer.QueryFunc | pkg/blackbox/ring.go:159-186 | the retained items that satisfy the predicate, in order |
| Ring.RingBuffer.FindNearest | pkg/blackbox/ring.go:192-231 | the oldest of the retained items nearest to the target |
| Ring.NearestExact | pkg/blackbox/ring.go:192-231 | nothing retained is nearer than what is found, before or after the target, and nothing older is as near |
| Ring.FromIsWindow | pkg/blackbox/ring.go:120-155 | the cut is the filtered window iff no item outside follows one inside |
| Ring.NewRingBuffer | pkg/blackbox/ring.go:35-44 | refused iff the capacity is not positive |
| Recording.ValidateExact | pkg/blackbox/config.go:66-77 | the limits of a valid configuration |
| Recording.BufferCapacity | pkg/blackbox/config.go:66-86 | as many places as whole intervals fit into the retention, and at least one for a valid configuration |
| Recording.TimelineMeans | pkg/blackbox/recorder.go:205-221 | the invariant of a GPU's buffer: its own snapshots only, in order of time, none later than the last round |
| Recording.WindowExact | pkg/blackbox/ring.go:120-155 | in such a timeline the cut is exactly the snapshots of the window |
| Recording.WindowCut | pkg/blackbox/recorder.go:205-221 | a window is what is retained from the first snapshot that is not too old on |
| Recording.WindowsExact | pkg/blackbox/recorder.go:240-259 | of all windows together: a GPU is in the map iff it has a retained snapshot that is not too old, and exactly those |
| Recording.RoundExact | pkg/blackbox/recorder.go:344-403 | a GPU's samples of a round are what each device that is it read, in device order, with the round's time and the device's number |
| Recording.RoundGiven | pkg/blackbox/recorder.go:344-403 | a round gives each GPU its own samples, also one first seen in it, and keeps every timeline in order |
| Recording.DiscoveryGiven | pkg/blackbox/recorder.go:274-320 | a GPU found gets an empty timeline and every other keeps its own |
| Recording.Recorder.DiscoverGPUs | pkg/blackbox/recorder.go:274-320 | the same of the buffers themselves |
| Recording.Recorder.SampleAllGPUs | pkg/blackbox/recorder.go:344-403 | each timeline grows by exactly its GPU's samples of the round, stamped with its time |
| Recording.Recorder.GetTimeline | pkg/blackbox/recorder.go:205-221 | exactly the retained snapshots of the window, oldest first |
| Recording.Recorder.GetSnapshot | pkg/blackbox/recorder.go:180-201 | the oldest nearest retained snapshot, and both errors |
| Recording.Recorder.GetAllTimelines | pkg/blackbox/recorder.go:240-259 | the windows of exactly the GPUs that have anything in theirs, each of its own GPU's snapshots |
| Timelines.SortByTime | pkg/events/correlator.go:374-377 | some permutation in order of time |
| Timelines.DeduplicateTimeline | pkg/events/correlator.go:836-853 | entries of the input in their order, each the first with its type and description, no two alike, and where no type contains the separator one for each pair of type and description |
| Timelines.DedupKeepsFirsts | pkg/events/correlator.go:836-853 | exactly one entry for each key, order of time kept |
| Timelines.KeptAt | pkg/events/correlator.go:836-853 | the entry kept of a key is the first, at its place |
| Timelines.DedupKeepsTypes | pkg/events/correlator.go:836-853 | an event type whose keys no other type shares is not lost or gained |
| Timelines.KeyDetermines | pkg/events/correlator.go:845 | equal keys mean equal type and description when no type contains the separator |
| Timelines.HasSequence | pkg/events/correlator.go:800-811 | true iff a `b` comes at or after an `a` |
| Timelines.DedupOrderExact | pkg/events/correlator.go:800-853 | an order of types survives deduplication iff the later entry repeats no earlier one, when no other type shares the keys of the earlier type; deduplication adds no order |
| Timelines.DedupCanLoseOrder | pkg/events/correlator.go:800-853 | a timeline whose order is lost |
| Correlation.GatherSource | pkg/events/correlator.go:268-319 | a source's events in the window in order, or when cancelled a prefix of them |
| Correlation.GatheredIsWindow | pkg/events/correlator.go:277-291 | these are the events inside both bounds iff no earlier retained event follows one in the window |
| Correlation.GatherGPUSnapshots | pkg/events/correlator.go:322-343 | for each GPU exactly its snapshots within lookback and window, oldest first, in any order of GPUs; when cancelled all or none of a GPU's |
| Incidents.BuildTimeline | pkg/events/correlator.go:346-422 | some correct sort of the trigger's, the events' and the snapshots' entries, deduplicated |
| Incidents.DetectCausality | pkg/events/correlator.go:528-559 | the cause that the order of types and the pod events give, whatever the loops do |
| Incidents.HasOOMEvent | pkg/events/correlator.go:562-584 | true iff the trigger or some related event is an OOMKilled one |
| Watching.NewWatcher | pkg/xid/watcher.go:97-122 | refused iff the size is negative; a size of zero means 100 |
| Watching.Watcher.HandleMessage | pkg/xid/watcher.go:243-266 | a message that parses adds one event with its code and address, described from the table and stamped by its own time or the clock, and every other adds none |
| Watching.Watcher.GetEvents | pkg/xid/watcher.go:183-187 | the events retained from the first in the window on, all described from the table |
| Watching.Watcher.GetAllEvents | pkg/xid/watcher.go:214-216 | all events retained, so described |
| XIDCodes.DescriptionEnds | pkg/xid/codes.go:27-197 | no description of the table ends like that of an event of an unknown type |
| Wording.HardwareOwnKeys | pkg/events/correlator.go:698-853 | as the program words entries, no other entry has the key of a hardware event, whatever the trigger's type |
| Wording.XIDsApart | pkg/events/correlator.go:698-706 | events with different codes have different descriptions |
| Wording.GPUsApart | pkg/events/correlator.go:760-787 | so have the conditions of GPUs whose identifiers begin differently |
| Incidents.EventsExact | pkg/events/correlator.go:268-319 | each event gathered is one of a watcher's, not after the window, and every watcher's event inside the window is gathered as what it is |
| Incidents.SnapshotsExact | pkg/events/correlator.go:322-343 | the snapshots gathered are exactly those retained that are inside lookback and window |
| Incidents.Correlate | pkg/events/correlator.go:210-265 | every incident is finished and so made or cancelled and empty of conclusions; its events are the watchers' events of the window or a prefix of them |
| Causality.TimelineTypes | pkg/events/correlator.go:346-422 | a type is on a finished timeline iff an event gathered has it or a snapshot shows it: for hardware events in the program's wording whatever the trigger's type, and for every type in any wording when the trigger's has no separator |
| Causality.TimelineInOrder | pkg/events/correlator.go:346-383 | in order of time, no two entries with the same type and description |
| Causality.EventShown | pkg/events/correlator.go:346-383 | every hardware event gathered is on the finished timeline under its own type and description, since the first time it was seen, whatever the trigger's type |
| Causality.SnapshotShown | pkg/events/correlator.go:385-422 | so is every condition that a snapshot shows |
| Causality.NothingElseShown | pkg/events/correlator.go:346-422 | and every entry is the trigger's, an event's or such a condition |
| Causality.HotExact | pkg/events/correlator.go:790-797 | hot is ten degrees below the threshold or more, or 85 without one; a threshold below ten wraps |
| Causality.SoftwareOOMExact | pkg/events/correlator.go:550-556 | named iff a pod was killed and neither events nor snapshots show hardware trouble |
| Causality.XIDSurvives | pkg/events/correlator.go:346-383 | an XID event reaches the timeline, whatever the trigger's type |
| Causality.XIDIsNotSoftware | pkg/events/correlator.go:550-556 | with an XID event gathered the cause is never software, finished or cancelled |
| Causality.CascadesExact | pkg/events/correlator.go:537-548 | the order-based causes on the sorted list itself, and what must have been gathered for them |
| Ties.EverySort | pkg/events/correlator.go:374-383 | an order of two types, neither sharing keys with others, is in the timeline of every correct sort iff some `a` is earlier than some key of type `b` ever is |
| Ties.SomeSort | pkg/events/correlator.go:374-383 | it is in the timeline of some correct sort iff some `a` is no later than some key of type `b` first is |
| Ties.ThermalExact | pkg/events/correlator.go:537-542 | which entries every sort, and which some sort, makes a thermal cascade |
| Ties.MemoryExact | pkg/events/correlator.go:544-548 | the same of a memory failure |
| Ties.IndependentExact | pkg/events/correlator.go:537-548 | for an incident, when these causes do not depend on how ties are sorted |
| Ties.MapOrderDecides | pkg/events/correlator.go:331-342 | for every sort, two orders of visiting the same GPUs give one thermal cascade and one unknown cause |
| Patterns.First | pkg/incidents/analyzer.go:322-338 | the first element that satisfies a test, if any does |
| Patterns.ChecksExact | pkg/incidents/analyzer.go:352-496 | when the numeric checks match, for every condition |
| Patterns.TextChecksExact | pkg/incidents/analyzer.go:421-496 | when the checks on texts match |
| Patterns.CodeChecksExact | pkg/incidents/analyzer.go:315-350 | when the checks on XID codes match |
| Patterns.EvidenceShows | pkg/incidents/analyzer.go:293-496 | the values that a piece of evidence shows are those that were checked |
| Analysis.EvaluatePattern | pkg/incidents/analyzer.go:270-290 | the capped sum of the matching weights, with one piece of evidence for each of them in order |
| Analysis.EvidenceExact | pkg/incidents/analyzer.go:270-290 | one piece of evidence for each indicator that matches, its own, in order, and none for others |
| Analysis.MatchPatterns | pkg/incidents/analyzer.go:223-266 | for any patterns and weights the first pattern with the highest score when that is at least 0.2, otherwise unknown with confidence 0; the evidence is the chosen pattern's; confidence is 0 or in [0.2, 1] |
| Analysis.ExtractXIDCodes | pkg/incidents/analyzer.go:172-199 | exactly the codes of the trigger and of the related events, none twice, the trigger's first |
| Analysis.CodesExact | pkg/incidents/analyzer.go:172-199 | exactly the codes of the incident's XID events, none twice |
| Analysis.ExtractConditions | pkg/incidents/analyzer.go:145-163 | the highest temperature, error count and memory use over the snapshots, each of them seen, and all throttle reasons |
| Analysis.ReasonsExact | pkg/incidents/analyzer.go:155-157 | there are throttle reasons iff some snapshot was throttled |
| Analysis.ExtractK8sEvents | pkg/incidents/analyzer.go:202-220 | reasons and messages of exactly the pod events among the trigger and the related events, of each at the same place, the trigger's first |
| Analysis.FindClosestSnapshot | pkg/incidents/analyzer.go:573-590 | the first of the snapshots nearest to the instant |
| Analysis.Analyze | pkg/incidents/analyzer.go:42-83 | the root cause selected for the extracted context and the nearest hardware state, or the empty report for no incident |
| Attribution.ThermalScore | pkg/incidents/patterns.go:102-110 | the pattern's score in terms of what was observed |
| Attribution.ECCScore | pkg/incidents/patterns.go:136-143 | the pattern's score in terms of what was observed |
| Attribution.SoftwareScore | pkg/incidents/patterns.go:169-177 | the pattern's score in terms of what was observed |
| Attribution.NVLinkScore | pkg/incidents/patterns.go:202-209 | the pattern's score in terms of what was observed |
| Attribution.XID79Score | pkg/incidents/patterns.go:239-246 | the pattern's score in terms of what was observed |
| Attribution.BlameExact | pkg/incidents/analyzer.go:250-265 | the user's code is cleared iff a hardware pattern reaches 0.2 and beats the software one, ties going to the pattern listed first |
| Attribution.SoftwareAtMost | pkg/incidents/patterns.go:169-177 | with an XID code and a cause that is not software the software pattern scores at most 0.65 |
| Attribution.NotSoftware | pkg/events/correlator.go:550-556 | an incident with an XID event does not have the software cause |
| Attribution.XID79NotYourCode | pkg/incidents/analyzer.go:172-265 | every incident that can be built with an XID 79 event, whatever triggered it, is reported as not the user's code, with confidence at least 0.7 |
| Attribution.MemoryErrorsNotYourCode | pkg/incidents/analyzer.go:172-265 | so is every one with uncorrectable errors and a memory XID, with confidence at least 0.75 |
| Reports.ReportExact | pkg/incidents/analyzer.go:42-290 | in terms of trigger, events, snapshots and causality alone: the score of each known failure, and that the highest of at least 0.2 is reported, the first that has it, with only software being the user's code |
| Reports.KilledPodIsYours | pkg/incidents/analyzer.go:223-265 | every incident with the software cause is reported as the user's code, with confidence 0.7, or 1 if some GPU's memory was over 95 percent full |
| Reports.FoldedExact | pkg/incidents/analyzer.go:421-450 | texts are searched for without regard to the case of ASCII letters |
| Reports.PercentExact | pkg/blackbox/snapshot.go:105-111 | memory use is compared as the quotient it stands for |
| ProcessMapping.ProcessMapper.GetPodForPID | pkg/events/process_mapper.go:168-237 | the answer in every case of cache, process and lookup: a stale entry is answered only if the process cannot be read or its container cannot be looked up; every pod answered was resolved for that process; what is cached afterwards |
| ProcessMapping.ProcessMapper.Store | pkg/events/process_mapper.go:224-234 | the cache never exceeds its maximum |
| ProcessMapping.ProcessMapper.EvictOldest | pkg/events/process_mapper.go:419-450 | removes exactly max(1, len/10) entries, none of them newer than one that stays, whatever the map order |
| ProcessMapping.ProcessMapper.EvictOne | pkg/events/process_mapper.go:440-448 | one round in place: the oldest of the rest comes next and leaves the cache |
| ProcessMapping.ProcessMapper.ClearCache | pkg/events/process_mapper.go:299-303 | the cache is empty |
| ProcessMapping.NewestSurvives | pkg/events/process_mapper.go:224-233 | an entry newer than all others survives the eviction it causes |
| ProcessMapping.OldestGone | pkg/events/process_mapper.go:419-450 | a partial selection sort that removes its first n removes n distinct oldest entries |
| NVLink.DiscoverNVLinks | pkg/tools/nvlink_topology.go:142-214 | the map is the merge of everything seen so far, cut at the first failing check |
| NVLink.AddLink | pkg/tools/nvlink_topology.go:170-212 | one more link, with its errors summed in 64 bits, merged into the map whichever end it is seen from |
| NVLink.MergedExact | pkg/tools/nvlink_topology.go:199-212 | one connection for each pair of GPUs seen, with the most errors seen on it from either end |
| NVLink.OrderIndependent | pkg/tools/nvlink_topology.go:101-117 | the map depends only on what was seen, not on the order or how often |
| NVLink.Seen | pkg/tools/nvlink_topology.go:192-207 | the smaller GPU comes first |
| NVLink.SortedLinks | pkg/tools/nvlink_topology.go:119-129 | every connection of the map once, in strict order, whatever the map order |
| NVLink.ListingUnique | pkg/tools/nvlink_topology.go:119-129 | there is only one such list |
| NVLink.SameAnswer | pkg/tools/nvlink_topology.go:101-129 | systems that show the same connections in any order get the same answer |
| NVLink.TopologyExact | pkg/tools/nvlink_topology.go:57-214 | uncancelled, the list is in strict order, each entry is what some link of some device shows, and every pair shown is listed with the most errors seen |
| NVLink.SumExact | pkg/tools/nvlink_topology.go:170-177 | a link's errors are the sum of its readable counters, in 64 bits |
| NVLink.Discover | pkg/tools/nvlink_topology.go:101-117 | the map is the merge of the answer below, and there is none iff cancellation is noticed between devices |
| NVLink.AnswerExact | pkg/tools/nvlink_topology.go:104-152 | there is an answer iff the check before the last device passes; it lacks exactly the links of that device whose checks fail; the device is scanned in full iff its last link's check passes |
| NVLink.PartialAnswer | pkg/tools/nvlink_topology.go:149-152 | a system whose only connection is missing from an answer given as a success |
| NVLink.Handle | pkg/tools/nvlink_topology.go:57-139 | the connections of the answer, each once and sorted, and every error case |
| CertReloading.CertReloader.GetCertificate | pkg/mcp/tls.go:79-93 | serves what the state machine of the runs below serves |
| CertReloading.CertReloader.MaybeReload | pkg/mcp/tls.go:96-122 | the new state, with every way to fail |
| CertReloading.CertReloader.ReloadLocked | pkg/mcp/tls.go:132-155 | all four fields change together or none does |
| CertReloading.NewCertReloader | pkg/mcp/tls.go:66-75 | starts iff the initial load is complete |
| CertReloading.NeverMixed | pkg/mcp/tls.go:132-155 | over any run with any failures the pair and both times are those of one complete load |
| CertReloading.ServesLastChecked | pkg/mcp/tls.go:79-155 | whatever fails, the pair served is the one on disk at the last successful check |
| CertReloading.StalenessBound | pkg/mcp/tls.go:79-155 | if nothing fails, a pair served at t was on disk at some instant in (t-5min, t] |
| CertReloading.TornExact | pkg/mcp/tls.go:132-155 | whatever is read when and whatever fails, the pair served is the one on disk when its times were last found there iff the last load saw the pair that its recorded times stand for |
| CertReloading.TornLoadStale | pkg/mcp/tls.go:133-149 | a start whose load and stats see two disk states serves the replaced pair for ever, although every later call succeeds and sees one |
| CertReloading.TornLoadBreaksBound | pkg/mcp/tls.go:133-149 | one such call breaks the five-minute bound |
| CertReloading.FailureDelays | pkg/mcp/tls.go:104-113 | after a failed check nothing is checked for five minutes |

## Left out

- Half-open circuits admit every call, as the code does; the comments' single test request is not enforced there and not claimed here.
- Requests are assumed to return in the fan-out; what they do (HTTP, exec, redaction, metrics, logs) is a parameter.
- The wording of errors: `ErrorText` keeps that no error is empty.
- Gateway.Handle: tools with an aggregation of their own (GPU inventory, Kubernetes metadata), rate limits and the tool's own request parsing are not modelled.
- JSON decoding is a parameter of the parsers; `FallbackChangesNothing` assumes that it skips white space around an object, and `CallOverStdio` that it refuses a second one. Number syntax is only as fine as splitting needs.
- Trimming follows ASCII white space.
- `ValidateMCPRequest` and `BuildHTTPToolRequest` add only easy members.
- Oneshot.Run: how many lines the scanning goroutine hands over is a parameter, which the runs of `OneshotRuns` determine, and so is how many lines were handed out before a failing reader's error; a write succeeds or fails as a whole, and waiting for input is not modelled.
- An escaped surrogate is read alone, as the replacement character; none is ever written.
- Recording.Recorder: Start, Stop and the ticker, and the processes in a snapshot, are not modelled; rounds and queries are atomic.
- Recording.Recorder.SampleAllGPUs: the clock does not go back between rounds.
- Watching.Watcher: what the expressions find in a kernel message is a parameter, with the bus address as normalised; reading the kernel log and the handlers are not modelled.
- Correlation.GatherSource: takes what a watcher's buffer retains; the Kubernetes watcher is not modelled.
- Correlation.GatherGPUSnapshots: takes what `GetAllTimelines` returned rather than the recorder object.
- Severities, relative times, incident identifiers, affected pods and automatic correlation are not modelled; they do not influence the timeline's order or the causality.
- Causality.TimelineTypes: for a trigger whose type contains `|` it speaks of hardware events only, because a pod's message can repeat such a trigger's entry; no cause depends on pod entries.
- Events handed to `Analyze` by hand, past the correlator, may have any description and are not covered by the results on triggers of any type.
- Ties.MapOrderDecides: a sort decides by the times alone, as one does that compares nothing else; its algorithm is not modelled.
- `time.Sub` saturation is not modelled.
- Patterns: regular expressions and templates are not modelled; case folding is ASCII; weights and percentages are exact, so rounding of sums is not modelled.
- Analysis.Analyze: does not report pod, node, GPU and recommendations, because they are lookups and templates.
- ProcessMapping.ProcessMapper.GetPodForPID: cgroup parsing and the pod list are parameters; the read and the update each hold the lock and keep the invariant, but two overlapping calls are not modelled as one run.
- NVLink.DiscoverNVLinks: the map's text key is a pair of numbers, which it determines; 64-bit wrap-around of the error sum is modelled, health and summary are not.
- CertReloading.CertReloader: one call reads the clock once, its first two stats see one disk state and so do its last two; concurrent callers are serialised by the lock.
