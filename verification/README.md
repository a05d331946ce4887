# nodecore in Dafny

nodecore is a load balancer for blockchain RPC. This project models the parts of it whose
correctness is decided by state, concurrency or byte-level reasoning, and proves what they promise.

| part of nodecore | modules |
|---|---|
| streaming a JSON-RPC result out of a response without buffering it | JsonGrammar, ResultCounter, JsonDecoder, DecoderSoundness, ChunkAnalysis, Envelope, EnvelopeSoundness, ResultStream, StreamedResponse, ReadAhead, ConcurrentStream |
| concurrent protocols, as interleaved steps | StatsHolder, StatsProgress, ParallelHedge, HedgeOutcome, Subscriptions |
| upstream and chain state machines | Protocol, UpstreamMethods, UpstreamEvents, ChainState, ChainAggregates, HeadLag, ChainSupervisor, SupervisedUpstream |
| cache identity and REST routing | Sorting, SelectorKey, SelectorIdentity, SelectorCollisions, SelectorMeaning, RestHash, RestPath, PathMatcher, MatchingLaws |
| arithmetic controllers | AutoTune, Retry |
| import resolution of method specs | SpecImports |
| shared definitions | Common |

Conventions:

- JSON text is a `string` whose characters stand for bytes; the theorems hold for every character.
  The grammar is sections 2 to 7 of RFC 8259, with any whitespace, and a response is an object of
  that grammar with any members in any order.
- `encoding/json`'s decoder is modelled as a tokenizer. Whether a number can be held by a float64 is
  a parameter (`fits`), because the decoder stops at a number it cannot hold.
- A goroutine protocol is a relation between states, one step of one goroutine at a time. A theorem
  about a `Run` holds for every interleaving and any number of participants.
- Maps that Go walks in random order are walked by arbitrary choice, so what is proved holds for
  every order.
- Timers, clocks, the network, the fork choice, jitter and the token bucket are inputs that can be
  anything.

## What turned out not to hold

The code is modelled as it is. Where a natural promise fails, there is a witness and the condition
under which it holds.

- A first chunk with a complete `error` key is never streamed, except when a number before that key
  overflows a float64: the walk stops there and does not see the key. Such a response is served as a
  success (`Envelope.StreamedErrorIsHidden`, `Envelope.HugeNumberHides`,
  `StreamedResponse.ServeHiddenError`).
- Streamed and buffered results agree exactly when the first `result` member and the last one seen in
  the first chunk have the same text; with a repeated key the walk takes the last and the parser the
  first (`StreamedResponse.ServeResponse`, `StreamedResponse.ServeRepeatedResult`).
- The hedge returns the best of the results recorded when the last finisher gathers, which is the best
  of all, whatever the results, exactly when everybody's is recorded by then; an execution is counted
  before its result is recorded (`ParallelHedge.BestOfAll`, `ParallelHedge.MissedIsPassedOver`,
  `ParallelHedge.BetterResultMissed`).
- Unsubscribing twice deletes whoever took the name in between. That subscriber misses what is
  published from then on, and apart from it only one whose buffer was full when an event came
  (`Subscriptions.UpToDateExactlyWhen`, `Subscriptions.DroppedExactlyWhen`,
  `Subscriptions.SecondUnsubscribeLosesEvents`).
- An upstream removed while it lags and then restored keeps calling itself syncing until its lag
  crosses the threshold again (`HeadLag.RemovedWhileBehind`, `HeadLag.StepIsEnough`).
- The stored methods are those composed after the last change of the banned or missing methods that
  was handled while valid. They are the methods to serve exactly if what was banned or missing then and
  what is now switch off the same methods, those aside that the configuration decides on its own. A
  method found missing while an upstream is invalid is served when it is valid again, and finding it
  missing once more does not help (`UpstreamEvents.Upstream.ProcessAll`,
  `UpstreamMethods.StillComposed`, `UpstreamEvents.DetectedWhileInvalid`).
- A health report that comes while an upstream is invalid is lost: the status is that of the lag and the
  health at the last status event handled while valid (`UpstreamEvents.ReportLostWhileInvalid`,
  `UpstreamEvents.Upstream.ProcessAll`).
- When the caller cancels, the read-ahead loop can return success with chunks unseen. An unwrapped
  result is whole on success all the same. A body passed through is whole on success exactly if `Finish`
  cannot send on a cancelled stream, or the body is empty; so the contract of `streamNativeCallBody`
  needs `Send` to fail once the stream's context is cancelled (`ReadAhead.CancelledSeesNothing`,
  `ConcurrentStream.UnwrappedIsWhole`, `ConcurrentStream.PassThroughNeedsFailingSend`).
- Cache keys are distinct for distinct node classes unless a label name has a `=`, a value has a `|` or
  a `)`, the name in an exists selector has a `)`, or a value list is empty; each of these can share a
  key (`SelectorIdentity.KeyIsIdentity` and the lemmas of SelectorCollisions).
- A selector without a key admits every node class, unless it negates something that does not
  constrain the class, or has an empty union: these admit no class and still share the unconstrained
  entry, for the negation by design (`SelectorMeaning.SharedEntryAdmitsAll`, `SelectorMeaning.NegationKeepsMeaningExactlyWhen`,
  `SelectorMeaning.EmptyUnionAdmitsNothing`).
- A method is found to be forced on exactly if an enabled name stands for it, for every configuration,
  if and only if no group but its own, the default group and that of subscriptions holds it
  (`UpstreamMethods.ForcedExactlyWhen`). The comment on `IsForceEnabled` calls it the read side of the
  expansion without that condition.
- Rebuilding the URL of a match gives the request's segments exactly if the template has a literal
  verb, or has the verb `*` and captured only `*`, or has no verb and captured nothing with a `/`
  (`MatchingLaws.RebuildUndoesMatch`). The comment on `BuildRestURL` calls it the inverse of `Match`
  without these exceptions. Matching does not go back to a wildcard, as the comment on `Match` says
  (`MatchingLaws.NoGoingBack`).
- A stop sentinel returns the previous result, except when the policy wraps the last failure and the
  attempt was the last allowed one or came after the maximum duration (`Retry.SentinelGivesPrevious`).
- A tuned rate limit above 2^31 wraps to a negative number for one period and is then 1
  (`AutoTune.IncreaseCanWrap`, `AutoTune.IncreaseRaises`, `AutoTune.WrappedRecovers`).

## Model

| member | source | states |
|---|---|---|
| ResultCounter.ResultCounter.Step | internal/protocol/json_rpc_stream.go:186-198 | the four-mode byte automaton, updated in place, follows the transition function on which the grammar theorems are proved |
| ResultCounter.ResultCounter.StepBracket | internal/protocol/json_rpc_stream.go:200-228 | one byte of an object or array: nesting counts outside strings only, escapes skip one byte |
| ResultCounter.ResultCounter.StepString | internal/protocol/json_rpc_stream.go:230-247 | one byte of a string |
| ResultCounter.SkipResultValueBytes | internal/protocol/json_rpc_stream.go:300-312 | the loop returns the offset just past the value, or the end of the buffer when the value does not end in it |
| ResultCounter.ScanConcat | internal/protocol/json_rpc_stream.go:300-312 | counting two pieces one after the other is counting them together, so read boundaries do not matter |
| ResultCounter.ValueEnds | internal/protocol/json_rpc_stream.go:150-293 | for every JSON value in any whitespace, the counter primed from its first byte ends exactly at its end: on the last byte of objects, arrays and strings, at the first delimiter after a scalar |
| ResultCounter.NeverStopsInside | internal/protocol/json_rpc_stream.go:150-255 | and on no proper prefix of it |
| JsonDecoder.SkipNextValue | internal/protocol/json_rpc_stream.go:320-351 | the recursive loop over tokens reads what the recursive definition of a skipped value reads, errors included |
| JsonDecoder.SkipValue | internal/protocol/json_rpc_stream.go:320-351 | on every JSON value with anything legal behind it, skipping succeeds exactly if every number in it fits, and then leaves exactly what follows |
| JsonDecoder.TokenExtend | internal/protocol/json_rpc_stream.go:88-144 | a token read from a truncated chunk is the token of the whole text, unless it is a scalar touching the cut |
| JsonDecoder.SkipNextExtend | internal/protocol/json_rpc_stream.go:320-351 | a value skipped inside a truncated chunk is skipped the same way in the whole text |
| DecoderSoundness.ValueFound | internal/protocol/json_rpc_stream.go:320-351 | over every input: where skipping succeeds, exactly one JSON value was read, behind whitespace, with numbers that fit, and the decoder stands right behind it; so with `SkipValue` the skip accepts JSON and nothing else |
| DecoderSoundness.NumberFound | internal/protocol/json_rpc_stream.go:320-351 | what is read as a number is a number of the grammar |
| DecoderSoundness.StringFound | internal/protocol/json_rpc_stream.go:320-351 | what is read as a string is a string of the grammar, with the code units it stands for |
| ChunkAnalysis.ResultValueStart | internal/protocol/json_rpc_stream.go:267-293 | finds the first byte of the value behind a key, its colon and whitespace, and primes the counter from it; fails exactly if the chunk ends first or no colon follows |
| ChunkAnalysis.AnalyzeChunk | internal/protocol/json_rpc_stream.go:88-144 | the loop over the chunk computes the walk that the envelope theorems are about |
| ChunkAnalysis.LocateResult | internal/protocol/json_rpc_stream.go:112-128 | the branch for the result key: where its value starts and whether it runs over the end of the chunk |
| Envelope.AnalyzeEnvelope | internal/protocol/json_rpc_stream.go:88-144 | on every prefix of every response the token walk gives what a recursion over the members, which never looks at bytes, expects |
| Envelope.AnalysisMeans | internal/protocol/json_rpc_stream.go:88-144 | a prefix is streamable if and only if the walk reads a result key, no error key, and each result key it reads has its value started; the offset is the start of the last such value, inside the prefix, and the counter is primed for it |
| Envelope.StreamedErrorIsHidden | internal/protocol/json_rpc_stream.go:88-144 | if a streamable prefix holds a complete envelope-level error key, a number before it does not fit a float64 |
| Envelope.HugeNumberHides | internal/protocol/json_rpc_stream.go:88-144 | in every prefix of every response, a result whose value has started makes the prefix streamable if a number that does not fit follows before any error key is read, whatever keys come after it |
| Envelope.SkipsAgree | internal/protocol/json_rpc_stream.go:300-351 | the byte skip and the token skip agree on where a value ends, and each succeeds exactly when stated |
| EnvelopeSoundness.StreamsOnlyEnvelopes | internal/protocol/json_rpc_stream.go:88-144 | over every chunk, well-formed or not: if it is streamed, then up to the reported offset it is the start of a response object, the member whose value starts there is named result, and no member up to it is named error |
| ResultStream.Emitter.WriteChunk | internal/server/emerald/grpc_blockchain.go:341-351 | a chunk reaches the client unchanged, the first item alone carries metadata, an empty non-final chunk sends nothing, a failed send changes nothing |
| ResultStream.Emitter.Write | internal/server/emerald/grpc_blockchain.go:328-336 | the writer form of the same |
| ResultStream.Emitter.Finish | internal/server/emerald/grpc_blockchain.go:357-362 | afterwards exactly the last item is final, and the payload is unchanged |
| ResultStream.EmitFromBuffer | internal/server/emerald/json_rpc_result_stream.go:182-208 | of a buffer exactly the bytes up to the end of the value are sent, and the counter stands where the buffer ends |
| ResultStream.PassedConcat | internal/server/emerald/json_rpc_result_stream.go:182-208 | what is passed on does not depend on how the body is cut into chunks |
| ResultStream.StreamReadAhead | internal/server/emerald/json_rpc_result_stream.go:54-115 | for every way the reader splits the body: all of the value is sent and the rest read and dropped, or an error is returned and the client has a prefix |
| ResultStream.StreamJsonRPCResult | internal/server/emerald/json_rpc_result_stream.go:128-176 | succeeds if and only if the value starts in the first chunk, ends in the body and no send fails; the payload is then exactly the value, otherwise a prefix without a final item |
| ResultStream.StreamNativeCallBody | internal/server/emerald/native_call_adapter.go:248-298 | on success one first and one final item, the final one last; otherwise no final item |
| StreamedResponse.AnalyzeFirstChunk | internal/protocol/json_rpc_stream.go:72-82 | a body shorter than the chunk is never streamed; otherwise the analysis of its first bytes, which stay unread |
| StreamedResponse.BufferedIs | internal/protocol/parse_response.go:27-31 | the buffered parser returns the text of the first result member |
| StreamedResponse.ServeResponse | internal/server/emerald/native_call_adapter.go:248-298 | end to end on every response, cut anywhere and read in any pieces: the client gets exactly the located value and one final item if its end arrived and no send failed, else an error and no final item; the payload equals the buffered result exactly when the first and the located result member have the same text |
| StreamedResponse.ServeLocated | internal/server/emerald/native_call_adapter.go:248-298 | the delivery of a located value, as in `ServeResponse` |
| StreamedResponse.HiddenError | internal/protocol/json_rpc_stream.go:72-144 | a concrete response longer than the chunk, with a complete error key in its first 8192 bytes, that is streamed |
| StreamedResponse.ServeHiddenError | internal/server/emerald/native_call_adapter.go:248-298 | however it is read, its client gets a complete result and no error |
| StreamedResponse.SecondResultIsLocated | internal/protocol/json_rpc_stream.go:88-144 | of two result members the walk locates the second in every prefix in which it has started, and the buffered parser returns the first |
| StreamedResponse.RepeatedResultDiffers | internal/protocol/parse_response.go:27-31 | a concrete response longer than the chunk on which the two differ |
| StreamedResponse.ServeRepeatedResult | internal/server/emerald/native_call_adapter.go:248-298 | however it is read, its client gets what the buffered parser does not return |
| ReadAhead.RunKeepsInv | internal/server/emerald/json_rpc_result_stream.go:54-115 | in every interleaving of producer, consumer and a cancellation the queue holds what was read and not yet taken, in order, and no more than four chunks |
| ReadAhead.ReadAheadIsSequential | internal/server/emerald/json_rpc_result_stream.go:54-115 | on every schedule the callback sees the chunks and the caller the result of the plain sequential loop over what was taken; that is the whole body, unless the call succeeds after a cancellation |
| ReadAhead.CancelledSeesNothing | internal/server/emerald/json_rpc_result_stream.go:54-115 | a call cancelled at once can return success with nothing seen, whatever the body |
| ReadAhead.NoDeadlock | internal/server/emerald/json_rpc_result_stream.go:54-115 | while either goroutine lives one of them can take a step |
| ReadAhead.RunsAreShort | internal/server/emerald/json_rpc_result_stream.go:54-115 | every run ends within a number of steps linear in the body |
| ConcurrentStream.VerdictIsTheEmitters | internal/server/emerald/json_rpc_result_stream.go:128-176 | the callback of the interleaved model is what the emitter answers chunk after chunk, with the payload it has sent by then |
| ConcurrentStream.AnyScheduleStreams | internal/server/emerald/json_rpc_result_stream.go:54-115 | on every schedule the client has a prefix of what is to be passed on, and all of it once the value is over; without a cancellation the call succeeds if and only if no send failed and the body ended well or the value was over, and then everything was passed on |
| ConcurrentStream.UnwrappedIsWhole | internal/server/emerald/json_rpc_result_stream.go:158-176 | a result unwrapped with success is whole, cancelled or not |
| ConcurrentStream.PassThroughNeedsFailingSend | internal/server/emerald/native_call_adapter.go:285-297 | a body passed through with success is whole on every schedule if and only if `Finish` cannot send on a cancelled stream, or the body is empty |
| StatsHolder.WriterKeepsInv | internal/stats/generic_stats_service.go:74-111 | every step of every writer (load, closed check, count, re-check, store, add, leave) keeps counters equal to the writers inside and adds equal to the sum over holders |
| StatsHolder.FlushKeepsInv | internal/stats/generic_stats_service.go:147-166 | so does every step of swap, close, drain and hand-off |
| StatsHolder.HandedNeverChange | internal/stats/generic_stats_service.go:74-166 | over every interleaving a map handed to `ProcessStatsData` is never written again |
| StatsHolder.AddsAreConserved | internal/stats/generic_stats_service.go:74-166 | between flushes completed adds are those handed off plus those in the live holder, per key, nothing lost or doubled |
| StatsHolder.AddsAreConservedInFlush | internal/stats/generic_stats_service.go:147-166 | during a flush the holder being drained is the one other place |
| StatsHolder.EveryRequestOnce | internal/stats/generic_stats_service.go:74-166 | when all calls have returned uncancelled, every request of every call is counted exactly once |
| StatsProgress.NeverBlocked | internal/stats/generic_stats_service.go:74-111 | in every reachable state a writer with a request can take a step without giving it up |
| StatsProgress.StepIsCloser | internal/stats/generic_stats_service.go:74-111 | every own step brings a writer closer to leaving with its request counted, by a measure that falls at the closed check and at the re-check only if they turn the right way |
| StatsProgress.LockFree | internal/stats/generic_stats_service.go:74-166 | under every schedule a writer that has not counted its request moves at most eleven times for each holder that was current meanwhile |
| StatsProgress.FinishesAlone | internal/stats/generic_stats_service.go:74-111 | from every reachable state a writer left alone is through after at most eleven steps; its request is counted once, in the holder it had settled on or else in the current one, and nothing else changes |
| StatsProgress.CancelledLeaves | internal/stats/generic_stats_service.go:74-80 | a cancelled writer between requests leaves at once, and no counter and no map shows what it dropped |
| StatsProgress.FlushEnds | internal/stats/generic_stats_service.go:147-166 | once the writers inside have left, a flush ends after at most three steps and hands off exactly the map of its holder |
| StatsProgress.CanComplete | internal/stats/generic_stats_service.go:74-166 | every run can be continued to one in which all calls have returned and no flush is under way; every request of every call is then counted exactly once, unless a call was cancelled |
| ParallelHedge.RunKeepsInv | internal/resilience/parallel_hedge.go:157-233 | the invariant of count, flag, records and channel over every interleaving |
| ParallelHedge.ExactlyOneResult | internal/resilience/parallel_hedge.go:157-233 | at most one result is ever sent, by an execution that returned; once all executions are over exactly one was |
| ParallelHedge.WinnerSurvives | internal/resilience/parallel_hedge.go:219-230 | when the result is returned every other started execution is cancelled and the winner is not |
| ParallelHedge.NoHang | internal/resilience/parallel_hedge.go:157-233 | the wait cannot hang: with nothing sent and nothing running the timer is still to fire |
| ParallelHedge.LastFinisherChoosesBest | internal/resilience/parallel_hedge.go:187-201 | the last finisher's choice is of least rank among the results recorded when it gathers, from a set that holds its own |
| ParallelHedge.BestOfAll | internal/resilience/parallel_hedge.go:187-201 | the best of the results read is the best of all for every assignment of result types if and only if everybody's was read |
| ParallelHedge.RecastIsRun | internal/resilience/parallel_hedge.go:157-201 | up to the choice no step reads a result type: every run is a run for any other types |
| ParallelHedge.MissedIsPassedOver | internal/resilience/parallel_hedge.go:180-201 | for every run in which the last finisher misses somebody there is a run in which it sends its own result although the missed one is better |
| ParallelHedge.BetterResultMissed | internal/resilience/parallel_hedge.go:180-201 | a run in which a failure is returned although another execution had succeeded |
| ParallelHedge.RankIsPlace | internal/protocol/data.go:33-39 | the rank of a result type is its place in the order of the constants |
| HedgeOutcome.EagerResultEndsTheRace | internal/resilience/parallel_hedge.go:178-186 | in every run, once an execution whose result may end the race (the policy can stop on it, or it is the first one's and came before the delay) is past the flag, a result is sent or about to be |
| HedgeOutcome.SentIsEagerOrBest | internal/resilience/parallel_hedge.go:178-201 | whatever is sent is such a result, or all executions were counted and it is the best of those recorded when the last finisher began to read |
| HedgeOutcome.GathersAllRecorded | internal/resilience/parallel_hedge.go:187-196 | the last finisher reads everything recorded by then, its own result included |
| HedgeOutcome.RacesAreShort | internal/resilience/parallel_hedge.go:157-233 | every run of n executions has at most 10 n + 2 steps |
| HedgeOutcome.ExecNeverBlocked | internal/resilience/parallel_hedge.go:171-205 | a started execution that is not over can always take its next step, whoever waits |
| HedgeOutcome.EndedMeansReturned | internal/resilience/parallel_hedge.go:157-233 | where no step is possible any more the caller has its answer and everything started is over |
| Subscriptions.StepKeepsInv | pkg/utils/subscriptions.go:46-142 | each step of publish, subscribe, replay, unsubscribe (again, too) and receive keeps the invariant about every subscriber, plain or replaying: what it was sent, up to where, and what is on its way |
| Subscriptions.RunKeepsInv | pkg/utils/subscriptions.go:46-142 | over every interleaving |
| Subscriptions.DroppedExactlyWhen | pkg/utils/subscriptions.go:119-142 | in every run an event was dropped for a subscriber if and only if some publish came to it while it was open and its buffer was full |
| Subscriptions.NoGap | pkg/utils/subscriptions.go:46-142 | in every run a subscriber that had room for every publish that came to it and whose name nobody else's unsubscribe deleted was sent every event published since its registration, in order and without a gap: all while it stays, and after its unsubscribe began exactly those published before, but for at most the one on its way then; in front of them at most the last event before |
| Subscriptions.NeverOverflows | pkg/utils/subscriptions.go:119-142 | no buffer ever holds more than its size |
| Subscriptions.PublishEnds | pkg/utils/subscriptions.go:119-142 | from every reachable state a publish can end although nobody receives |
| Subscriptions.CanClose | pkg/utils/subscriptions.go:46-55 | an unsubscribe under way can close its channel whatever else is under way, and nobody else notices |
| Subscriptions.ReplayHasNoGap | pkg/utils/subscriptions.go:95-142 | a replay subscriber under the same conditions was sent exactly the history from the last event before its registration to where `NoGap` says |
| Subscriptions.EvictedHasGap | pkg/utils/subscriptions.go:46-55 | a subscriber whose name somebody else's unsubscribe deleted gets nothing published from then on, and all that was published before |
| Subscriptions.UpToDateExactlyWhen | pkg/utils/subscriptions.go:46-142 | once something was published since, a staying subscriber that had room is up to date if and only if it was not evicted |
| Subscriptions.NoSendAfterClose | pkg/utils/subscriptions.go:46-55 | no step sends on a closed channel, and none closes before its unsubscribe began |
| Subscriptions.ClosedForGood | pkg/utils/subscriptions.go:46-55 | over whole runs |
| Subscriptions.SecondUnsubscribeLosesEvents | pkg/utils/subscriptions.go:46-55 | a run in which a second unsubscribe makes another subscriber miss an event |
| Protocol.StatusSeesOnlyTheThreshold | internal/protocol/data.go:321-333 | two lags give the same status for every availability if and only if they are on the same side of the threshold |
| Protocol.SyncingExactlyWhen | internal/protocol/data.go:321-333 | an upstream is called syncing if and only if it says so itself, or it would be available, there is a threshold and its lag is above it; any other availability is passed on |
| Protocol.EqualButRawData | internal/protocol/blocks.go:20-25 | blocks are equal if and only if they agree in all but the raw data |
| Protocol.EmptyIsZero | internal/protocol/blocks.go:31-33 | a block is empty if and only if it is the zero block in all but slot and raw data |
| UpstreamMethods.NewUpstreamMethods | internal/upstreams/methods/methods.go:24-73 | a method is available if and only if an enabled name stands for it, or it is in the spec and no disabled name stands for it; names stand for groups |
| UpstreamMethods.Compose | internal/upstreams/upstream.go:333-343 | spec minus banned, unsupported and disabled, plus enabled |
| UpstreamMethods.StillComposed | internal/upstreams/upstream.go:333-343 | methods composed from old sets are those of new sets if and only if both switch off the same spec methods, those aside that the configuration enables or disables |
| UpstreamMethods.BansNeverRestore | internal/upstreams/upstream.go:325-343 | no set of bans serves a method that detection found missing, unless the configuration enables it |
| UpstreamMethods.IsForceEnabled | internal/upstreams/methods/methods.go:135-153 | the loop finds whether some enabled name is the method, its group or a group that holds it |
| UpstreamMethods.ForcedStays | internal/upstreams/methods/methods.go:128-153 | a force-enabled method that the connectors can serve is served whatever is banned or missing |
| UpstreamMethods.ForcedExactlyWhen | internal/upstreams/methods/methods.go:128-153 | for every configuration a method of the spec is forced on if and only if an enabled name stands for it, exactly if every group that holds it is the default group, its own or that of subscriptions |
| UpstreamMethods.SkippedBanIsHarmless | internal/upstreams/upstream_events.go:58-71 | ignoring the ban of a forced method changes nothing that is served |
| UpstreamEvents.Upstream.OnFatalError | internal/upstreams/upstream_events.go:43-50 | announces the removal once and leaves the state |
| UpstreamEvents.Upstream.OnBecameValid | internal/upstreams/upstream_events.go:51-57 | announces the stored state once |
| UpstreamEvents.Upstream.OnMethods | internal/upstreams/upstream_events.go:58-92 | bans, unbans and detection results: the sets change as told, forced bans are ignored, and the stored methods are composed from the new sets if the upstream is valid and the event is not skipped, and otherwise stay |
| UpstreamEvents.Upstream.OnStatus | internal/upstreams/upstream_events.go:93-105 | while valid the status is derived from the base availability and the stored lag, and announced only if it changed |
| UpstreamEvents.Upstream.OnReport | internal/upstreams/upstream_events.go:106-118 | while valid the state afterwards says what the report says, and otherwise agrees with the state before in everything the report is not about; exactly one announcement is made, a head as a head, unless nothing changed |
| UpstreamEvents.ReportIsStored | internal/upstreams/upstream_events.go:106-118 | a report is skipped if and only if the state says so already, and changes nothing it is not about |
| UpstreamEvents.NoBlockIsZero | internal/upstreams/upstream_events.go:106-118 | the first block of a kind is skipped if and only if it is the zero block, raw data aside |
| UpstreamEvents.Upstream.Process | internal/upstreams/upstream_events.go:38-118 | one turn of the loop keeps every invariant, and the lag, the health and the status are the stated functions of the event |
| UpstreamEvents.Upstream.ProcessAll | internal/upstreams/upstream_events.go:16-121 | over every event sequence the invariants hold; the stored methods are composed from what was banned and missing after the last set-changing event handled while valid, and are the ones to serve now if and only if both pairs of sets switch off the same methods; the status is that of the lag and the health at the last status event handled while valid |
| UpstreamEvents.StaysInStep | internal/upstreams/upstream_events.go:58-92 | in runs without a fatal error neither has |
| UpstreamEvents.StatusIsCurrent | internal/upstreams/upstream_events.go:93-105 | after that event the health never changes, and the lag only if one is stored |
| UpstreamEvents.BannedExactlyWhen | internal/upstreams/upstream_events.go:58-78 | after any run a method is banned if and only if it is not forced and a ban came with no unban behind it, or it was banned before and no unban came |
| UpstreamEvents.LagIsNatural | internal/upstreams/upstream.go:302-308 | the stored lag is never negative |
| UpstreamEvents.LagsKeepHealth | internal/upstreams/upstream_events.go:93-105 | lag events never change what the last health probe said |
| UpstreamEvents.ReportLostWhileInvalid | internal/upstreams/upstream_events.go:93-96 | a health report that comes while invalid changes neither the health nor the status announced on recovery |
| UpstreamEvents.OrderlyAppend | internal/upstreams/upstream_events.go:43-118 | the order of announcements is kept by each one |
| UpstreamEvents.RemovedThenValidated | internal/upstreams/upstream_events.go:43-57 | the announcement after a removal is that the upstream is valid: nothing in between |
| UpstreamEvents.ValidatedOncePerRemoval | internal/upstreams/upstream_events.go:43-57 | between two validations there is a removal |
| UpstreamEvents.DetectedWhileInvalid | internal/upstreams/upstream_events.go:79-118 | a method found missing while invalid is announced as served on recovery, and still is after it was found missing again |
| ChainState.ProcessCaps | internal/upstreams/chain_supervisor_state.go:120-129 | the union of the caps |
| ChainState.ProcessMethods | internal/upstreams/chain_supervisor_state.go:155-161 | the union of the methods |
| ChainState.ProcessLowerBounds | internal/upstreams/chain_supervisor_state.go:163-180 | per type the lowest bound, that of the first upstream that has it |
| ChainState.ProcessUpstreamBlocks | internal/upstreams/chain_supervisor_state.go:182-211 | per type the highest block, that of the first upstream that has it |
| ChainState.ProcessLabels | internal/upstreams/chain_supervisor_state.go:131-153 | each non-empty label set once, with the number of upstreams that carry it |
| ChainState.CompareAggregatedLabels | internal/upstreams/chain_supervisor_state.go:44-57 | same length and every entry found |
| ChainState.Pigeonhole | internal/upstreams/chain_supervisor_state.go:44-57 | a list of distinct entries found in a list of the same length is a permutation of it |
| ChainState.CompareDecidesBags | internal/upstreams/chain_supervisor_state.go:44-57 | on lists made by `ProcessLabels` the comparison is true if and only if the upstreams' label multisets are equal |
| ChainState.Compare | internal/upstreams/chain_supervisor_state.go:73-118 | publishes a change of a component if and only if it differs |
| ChainState.CompareIsEnough | internal/upstreams/chain_supervisor_state.go:73-118 | any copy that agreed with the old state and applies the changes agrees with the new one |
| ChainState.CompareIsNeeded | internal/upstreams/chain_supervisor_state.go:73-118 | nothing is published if and only if the states agree |
| ChainAggregates.MergesAgree | internal/upstreams/chain_supervisor.go:254-274 | whatever the iteration order, two merges of one table have equal status, caps, methods, heights, bounds and label multisets |
| ChainAggregates.HeadsAreNotMerged | internal/upstreams/chain_supervisor.go:194-205 | a head written into a row leaves every merged part right |
| ChainAggregates.BlocksOfTable | internal/upstreams/chain_supervisor_state.go:182-211 | merged blocks are the maxima over the available rows of the table |
| ChainAggregates.BoundsOfTable | internal/upstreams/chain_supervisor_state.go:163-180 | merged bounds are the minima |
| ChainAggregates.LabelsOfTable | internal/upstreams/chain_supervisor_state.go:131-153 | merged labels count the available rows that carry them |
| ChainAggregates.UnavailableAddsNothing | internal/upstreams/chain_supervisor.go:254-274 | an upstream that is not available adds nothing to blocks, bounds, caps, methods or labels: they are those of the table without it |
| ChainAggregates.SubMethodsExactlyWhen | internal/upstreams/chain_supervisor.go:340-364 | a subscription is offered if and only if there are websockets and it is in the chain's spec, or it is a topic of `eth_subscribe` with its capability behind it; `eth_subscribe` itself is not |
| HeadLag.StepKeepsTrack | internal/upstreams/chain_supervisor.go:310-322 | what the supervisor remembers of an upstream fits what it told it |
| HeadLag.StepIsEnough | internal/upstreams/chain_supervisor.go:310-322 | after a head update the status derived from the told lag is the one of the true lag, if and only if it is not the case that a lag over the threshold was forgotten and the current one is not over it |
| HeadLag.EdgesAreEnough | internal/upstreams/chain_supervisor.go:296-325 | over every series of lags, pushing at crossings derives the same status as pushing every lag, and pushes exactly once per crossing |
| HeadLag.RightOnHeights | internal/upstreams/chain_supervisor.go:296-325 | what an upstream makes of the lag it was told is said by the two heights alone |
| HeadLag.ObserveAllRight | internal/upstreams/chain_supervisor.go:296-325 | after a pass over the table every upstream that was never removed calls itself syncing if and only if it would be available and the chain's head is more than the threshold above its own, and nothing new is forgotten |
| HeadLag.ForgetLeavesStale | internal/upstreams/chain_supervisor.go:185-189 | removing an upstream makes it stale if and only if it was over the threshold, or was stale before |
| HeadLag.RemovedWhileBehind | internal/upstreams/chain_supervisor.go:185-192 | a removed and restored upstream that has caught up still calls itself syncing |
| ChainSupervisor.ChainSupervisor.constructor | internal/upstreams/chain_supervisor.go:59-96 | the initial state, which satisfies every invariant |
| ChainSupervisor.ChainSupervisor.AvailableUpstreams | internal/upstreams/chain_supervisor.go:327-338 | lists the available rows, each once, in any order |
| ChainSupervisor.ChainSupervisor.ProcessUpstreamStatuses | internal/upstreams/chain_supervisor.go:366-376 | the best status of any upstream, capped by unavailable |
| ChainSupervisor.ChainSupervisor.Merge | internal/upstreams/chain_supervisor.go:254-267 | the merged state is the aggregate of the current table |
| ChainSupervisor.ChainSupervisor.UpdateState | internal/upstreams/chain_supervisor.go:254-274 | afterwards the cache is fresh, the replica that replays everything published agrees with it, and something was published if and only if the state changed |
| ChainSupervisor.ChainSupervisor.CalculateHeadLags | internal/upstreams/chain_supervisor.go:296-325 | one observation per row, pushing at crossings; with `ObserveAllRight` the status of every upstream follows from the heights |
| ChainSupervisor.ChainSupervisor.UpdateHead | internal/upstreams/chain_supervisor.go:230-252 | the head follows the fork choice, or is zeroed, and is published exactly if the choice changed it and it is not empty; then lags are observed and right, and all invariants are kept |
| ChainSupervisor.ChainSupervisor.RemoveRow | internal/upstreams/chain_supervisor.go:185-192 | the row is gone, its lag forgotten and the cache fresh |
| ChainSupervisor.ChainSupervisor.OnRemove | internal/upstreams/chain_supervisor.go:185-193 | an unknown upstream is ignored; a known one is gone, the cache fresh and the lags of all others right |
| ChainSupervisor.ChainSupervisor.OnHead | internal/upstreams/chain_supervisor.go:194-205 | the row's head is replaced, nothing merged changes, lags are right |
| ChainSupervisor.ChainSupervisor.OnState | internal/upstreams/chain_supervisor.go:206-209 | the row is stored and the cache fresh |
| ChainSupervisor.ChainSupervisor.OnValid | internal/upstreams/chain_supervisor.go:210-223 | the recovered row is stored, the cache fresh, and lags right if it has a head |
| ChainSupervisor.ChainSupervisor.ProcessEvent | internal/upstreams/chain_supervisor.go:177-228 | after every event: replica, last published head, cache and lags as above; the table, whether the cache was merged, who was removed and the head are the stated function of the event |
| ChainSupervisor.ChainSupervisor.ProcessEvents | internal/upstreams/chain_supervisor.go:177-228 | over every run the invariants hold and the table, whether the cache was merged, who was removed and the head are that function of the events; a merged cache is the aggregate of the table, the last published head is the head unless there is none, and lags are right after an event that offers a head |
| ChainSupervisor.LastSettles | internal/upstreams/chain_supervisor.go:230-252 | after any run the head is the one settled by the last event that offered an empty block, which leaves none, or a block that the fork choice followed |
| ChainSupervisor.UnsettledKeepHead | internal/upstreams/chain_supervisor.go:230-252 | all other events leave it |
| ChainSupervisor.ChangesKeepHead | internal/upstreams/chain_supervisor.go:230-274 | publishing merged changes never hides the last published head, so a subscriber that follows the heads always knows the chain's head |
| SupervisedUpstream.RowFollows | internal/upstreams/chain_supervisor.go:177-228 | the supervisor's row for an upstream depends only on that upstream's announcements, however they are interleaved with others |
| SupervisedUpstream.RowIsUpstreamState | internal/upstreams/upstream_events.go:131-136 | once they are handled, the row is the state the upstream stores, and an invalid upstream has no row |
| SupervisedUpstream.ToldIsStored | internal/upstreams/upstream.go:302-308 | the lag an upstream acts on is the one the supervisor has on record as told |
| SupervisedUpstream.StatusIsOfTrueLag | internal/upstreams/chain_supervisor.go:296-325 | told only the crossings, an upstream that has handled the status event of the last one derives the status of its last lag and last handled health report |
| SelectorKey.LabelClassKey | internal/protocol/request_selector_key.go:87-136 | the recursive method with its loops computes the key that the identity theorems are about |
| SelectorKey.UnionParts | internal/protocol/request_selector_key.go:104-122 | one unconstrained alternative makes the whole union unconstrained |
| SelectorKey.LabelClassParts | internal/protocol/request_selector_key.go:138-147 | the non-empty keys of the children, sorted |
| SelectorKey.LabelCacheKey | internal/protocol/request_selector_key.go:82-85 | the key of the conjunction of the request's selectors |
| SelectorKey.KeyIsPrinted | internal/protocol/request_selector_key.go:87-147 | the key is the printed form of the reduced tree, reduction being defined without strings |
| SelectorKey.ReduceIsReduced | internal/protocol/request_selector_key.go:87-147 | a reduced tree has no unconstrained member and no group of fewer than two |
| SelectorKey.KeyExactlyWhen | internal/protocol/request_selector_key.go:87-147 | a selector has the shared, empty key if and only if it does not constrain the node class: not a label or exists selector, no conjunct that constrains, or some alternative that does not |
| SelectorKey.UnlabelledIsFree | internal/protocol/request_selector_key.go:68-147 | a selector with no label and no exists selector anywhere, such as one by height, does not constrain the class |
| SelectorIdentity.KeyIsIdentity | internal/protocol/request_selector_key.go:68-147 | for label names without `=`, values without the separator or `)`, exists names without `)` and non-empty value lists: equal keys if and only if equal reduced trees up to order |
| SelectorIdentity.KeyDeterminesTree | internal/protocol/request_selector_key.go:87-147 | the printed key can be read back |
| SelectorIdentity.SameClassSameKey | internal/protocol/request_selector_key.go:82-147 | trees equal up to order have equal keys, whatever the names |
| SelectorIdentity.KeyIgnoresOrder | internal/protocol/request_selector_key.go:82-147 | reordering children or values at any depth never changes the key |
| SelectorIdentity.UnlabelledConjunct | internal/protocol/request_selector_key.go:87-147 | a conjunct that does not constrain the node class, at any place of any conjunction at any depth, never changes the key |
| SelectorMeaning.ReductionKeepsMeaning | internal/protocol/request_selector_key.go:87-147 | the reduced tree admits the same nodes as the selector, for selectors without empty unions and negations of what does not constrain |
| SelectorMeaning.NegationKeepsMeaningExactlyWhen | internal/protocol/request_selector_key.go:123-130 | a negation keeps its meaning if and only if what it negates constrains the class |
| SelectorMeaning.EmptyUnionAdmitsNothing | internal/protocol/request_selector_key.go:104-122 | an empty union admits no node, and has the shared key |
| SelectorMeaning.SharedKeySameClasses | internal/protocol/request_selector_key.go:68-147 | requests that share a cache key admit the same nodes, under the conditions of `KeyIsIdentity` and `ReductionKeepsMeaning` |
| SelectorMeaning.SharedEntryAdmitsAll | internal/protocol/request_selector_key.go:68-85 | a request with the shared key admits every node, whatever its names |
| SelectorCollisions.NameCollides | internal/protocol/request_selector_key.go:17-21 | every label name with a `=` shares a key with a shorter name and a longer value |
| SelectorCollisions.SeparatorCollides | internal/protocol/request_selector_key.go:17-21 | a value with the separator shares a key with two values |
| SelectorCollisions.EmptyListCollides | internal/protocol/request_selector_key.go:17-21 | no values share a key with one empty value |
| SelectorCollisions.ParenCollides | internal/protocol/request_selector_key.go:87-147 | a value or an exists name with a closing parenthesis can make two different groupings share a key |
| Sorting.SortIs | internal/protocol/request_selector_key.go:138-147 | sorting gives a sorted permutation |
| Sorting.SortCanonical | internal/protocol/request_selector_key.go:138-147 | sorted lists are equal if and only if their multisets are |
| RestHash.HashInput | internal/protocol/rest_request.go:134-161 | the buffer is the framed sections of the request's identity, in order, absent parts left out |
| RestHash.NumberOfBigEndian | internal/protocol/rest_request.go:136-142 | the length bytes determine the length |
| RestHash.ReadFrames | internal/protocol/rest_request.go:136-142 | reading frames back undoes framing, for sections shorter than 2^64 |
| RestHash.RecoverSections | internal/protocol/rest_request.go:143-159 | the request is recovered from its sections |
| RestHash.HashInputIsInjective | internal/protocol/rest_request.go:124-161 | equal buffers if and only if equal method, ordered captures, query or its absence, body and label key |
| RestPath.SplitTemplate | pkg/utils/path.go:133-147 | verb first if there is one, then the non-empty segments |
| RestPath.FillInPlace | pkg/utils/path.go:114-125 | overwriting wildcards from left to right gives the filled template, or fails if and only if there are too few parameters |
| RestPath.BuildRestURL | pkg/utils/path.go:109-127 | the shortcut for templates without `*` agrees with the general case |
| RestPath.RebuiltSegments | pkg/utils/path.go:109-147 | the rebuilt path has the verb if there is one, then the template's segments with the parameters in place of the wildcards |
| PathMatcher.PathMatcher.constructor | pkg/utils/path.go:36-46 | the empty trie |
| PathMatcher.NewPathMatcher | pkg/utils/path.go:36-42 | the trie of the templates in order |
| PathMatcher.PathMatcher.Descend | pkg/utils/path.go:50-64 | one level of `add`: the child is found or made in place, everything else stays |
| PathMatcher.PathMatcher.Add | pkg/utils/path.go:48-66 | the trie grown in place is the trie of one more template |
| PathMatcher.PathMatcher.Match | pkg/utils/path.go:75-94 | walking the nodes gives what the definition on the list of templates gives, which knows no trie |
| PathMatcher.TrieMeans | pkg/utils/path.go:48-66 | a path has a node if and only if some template begins with it, labelled with the last template that ends there |
| MatchingLaws.MatchFills | pkg/utils/path.go:68-94 | a match is a registered template whose wildcards filled with the captures give the request's segments |
| MatchingLaws.RebuildUndoesMatch | pkg/utils/path.go:96-127 | for every matcher and every match, rebuilding gives the request's segments if and only if the matched template has a literal verb, or the verb `*` and only `*` captured, or no verb and no capture with a `/` |
| MatchingLaws.MatchThenBuild | pkg/utils/path.go:75-127 | the two methods composed do so on every matcher |
| MatchingLaws.WildcardVerbIsLost | pkg/utils/path.go:109-127 | with `*` for a verb the rebuilt segments are not the request's, for every plain verb |
| MatchingLaws.SlashInVerbIsSplit | pkg/utils/path.go:109-147 | nor are they when a template without a verb captures a verb with a `/` |
| MatchingLaws.LiteralsMatchThemselves | pkg/utils/path.go:75-94 | a wildcard-free template matches itself if and only if no later one has the same segments |
| MatchingLaws.NoGoingBack | pkg/utils/path.go:68-94 | a literal child that leads nowhere hides a wildcard that would match |
| MatchingLaws.OrderIsIrrelevant | pkg/utils/path.go:32-42 | registration order and repetition make no difference when no two templates split alike |
| AutoTune.DecreaseNeverRaises | internal/ratelimiter/upstream_autotune.go:185-210 | a decrease gives a limit between 1 and the old one |
| AutoTune.IncreaseRaises | internal/ratelimiter/upstream_autotune.go:170-210 | an increase raises the limit if and only if the raised one fits 32 bits |
| AutoTune.WrappedRecovers | internal/ratelimiter/upstream_autotune.go:170-178 | a wrapped limit is 1 after the next period |
| AutoTune.IncreaseCanWrap | internal/ratelimiter/upstream_autotune.go:174-178 | a limit that wraps |
| AutoTune.RunsAreSound | internal/ratelimiter/upstream_autotune.go:93-210 | over all runs whose increases fit, the step stays in [2.5, 50] and the limit at least 1 |
| AutoTune.TurnsUndoRepetitions | internal/ratelimiter/upstream_autotune.go:185-198 | from rest the step is 10; a turn gives back the step before a repetition if and only if that was at most 25, and a repetition the step before a turn if and only if that was at least 5 |
| AutoTune.DecisionIs | internal/ratelimiter/upstream_autotune.go:93-140 | the limit is lowered if and only if the failures reach the threshold's share of the requests let through, and raised if and only if there were none and the busiest slice exceeds 95 percent of the limit or the refusals exceed the threshold's share of all requests |
| AutoTune.FallsToOne | internal/ratelimiter/upstream_autotune.go:93-210 | a limit of at most 2^k is 1 after k + 5 decreases, with any quiet periods between them |
| AutoTune.UpstreamAutoTune.Allow | internal/ratelimiter/upstream_autotune.go:69-80 | every request is counted once in its slice, and once as let through or as limited |
| AutoTune.UpstreamAutoTune.IncErrors | internal/ratelimiter/upstream_autotune.go:181-183 | one more error |
| AutoTune.UpstreamAutoTune.CountAttempts | internal/ratelimiter/upstream_autotune.go:99-117 | the sum and the maximum of the slices, in any order |
| AutoTune.UpstreamAutoTune.RecalculateRateLimit | internal/ratelimiter/upstream_autotune.go:93-179 | the period's decision and the tuning it leads to, and counting starts afresh |
| AutoTune.UpstreamAutoTune.RunPeriod | internal/ratelimiter/upstream_autotune.go:69-183 | a whole period of requests, refusals and failures leads to the tuning that its traffic decides |
| Retry.RetryExecutor.OnFailure | internal/resilience/retry.go:422-449 | what a failed attempt is worth, and whether the retries are exceeded |
| Retry.RetryExecutor.GetFixedDelay | internal/resilience/retry.go:466-481 | the k-th delay is min(delay * 2^k, maxDelay), or the delay itself without a maximum |
| Retry.RetryExecutor.GetDelay | internal/resilience/retry.go:452-497 | the delay is the base delay after jitter, or what is left of the maximum duration if that is less, and never negative |
| Retry.RetryExecutor.Apply | internal/resilience/retry.go:359-419 | the inner call runs at most maxRetries + 1 times, stops at the first final attempt, and returns its outcome; every base delay is the closed form |
| Retry.DelaysGrow | internal/resilience/retry.go:466-481 | base delays never shrink and are capped |
| Retry.DelayDoubles | internal/resilience/retry.go:466-481 | the closed form satisfies the doubling recurrence of the code |
| Retry.EndIsUnique | internal/resilience/retry.go:359-449 | where a run ends is determined, and within the limit |
| Retry.SentinelGivesPrevious | internal/resilience/retry.go:366-449 | after retried failures an attempt that aborts with a stop sentinel ends the run with the result of the attempt before it, if and only if the retries are not used up or last failures are returned unwrapped |
| Retry.SuccessIsReturned | internal/resilience/retry.go:366-449 | after retried failures a success ends the run and is returned |
| Retry.FailuresExceed | internal/resilience/retry.go:366-449 | failures all the way run the call exactly once more than there are retries and return the last failure, wrapped or not |
| SpecImports.Loader.EnrichSpec | pkg/methods/resolved_specs.go:41-86 | terminates on every graph; success resolves the spec, failure means it cannot be resolved at any depth; what was resolved stays, after its imports |
| SpecImports.Loader.ResolveImports | pkg/methods/resolved_specs.go:108-135 | imports are resolved and merged in order, missing ones fail |
| SpecImports.Loader.EnrichSpecs | pkg/methods/resolved_specs.go:28-39 | in whatever order the map is walked, succeeds if and only if every spec resolves, and then all are resolved |
| SpecImports.CircularNeverResolves | pkg/methods/resolved_specs.go:46-52 | a spec that needs itself never resolves, so reporting a cycle is right |
| SpecImports.ResolvesExactlyWhen | pkg/methods/resolved_specs.go:28-135 | every spec resolves if and only if every import exists, the import graph has no cycle, and no check refuses a spec whose imports resolve |
| SpecImports.OrderIsIrrelevant | pkg/methods/resolved_specs.go:28-39 | two successful walks resolve every spec to the same value |

## Left out

- JsonGrammar: bytes are characters without encoding; UTF-8 validity, the decoder's replacement of invalid sequences and surrogate pairs are not modelled.
- JsonDecoder: only the tokens, errors and offsets that the walk uses are modelled, not decoded numbers or strings beyond their code units.
- Retry.RetryExecutor.Apply: unlimited retries (maxRetries of -1), the random delay range and delay functions are not modelled; the configuration never produces the first, and time elapsed is one number per attempt.
- Retry.RetryExecutor.GetFixedDelay: the doubled delay is exact, so float32 rounding and the overflow of delays near 2^63 nanoseconds are not captured.
- AutoTune.RunsAreSound: percentages are reals, so float64 rounding is not captured; concurrent counting during a recalculation is not interleaved.
- ChainSupervisor.ChainSupervisor.ProcessEvents: the set of live upstream objects is fixed during a run, metrics and finalization lags are left out, and nothing is claimed about which head the fork choice picks.
- ChainSupervisor.ChainSupervisor.UpdateState: the replica agrees on blocks up to the raw data that block equality ignores, as the source compares them.
- SupervisedUpstream.StatusIsOfTrueLag: for upstreams that were never removed; what a removal leaves behind is in HeadLag.
- UpstreamEvents.Upstream.Process: ban timers are unban events that can come at any time; an upstream without caps and one with no caps are the same.
- PathMatcher.PathMatcher.Add: nodes live in one growing list and refer to each other by index instead of by reference.
- SpecImports.Loader.EnrichSpecs: merging methods, connector checks and clashes of same-level imports are arbitrary functions that can refuse.
- StreamedResponse.ServeResponse: a context cancelled by the client is a send that fails, as ConcurrentStream shows it has to be; the decision not to stream leads to the buffered path, of which only the result lookup is modelled.
- RestHash.HashInput: the digest itself and the encoding of the query are left out.
- SelectorIdentity.KeyIsIdentity: the condition is on the names and values of each selector, one way; with an excluded character some pairs of selectors collide and others do not.
- StreamedResponse.BufferedIs: of the buffered parser only the lookup of the result is modelled, not that of the error, the id or the protocol version.
- The JSON-RPC request hash is a plain concatenation, and no injectivity is claimed for it.
- Merging of stored statistics with the outbox, which overwrites equal keys.
- HTTP, gRPC, Redis, Postgres and Prometheus plumbing, server start-up, logging and configuration defaults.
- Signatures, JWT, key loading and client addresses.
- Score functions, the router's matchers other than those for labels, chain-specific detectors and the cache policies.
