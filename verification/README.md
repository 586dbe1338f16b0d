# A verified model of Tremor's framing, reassembly and flow control

Tremor moves events from *sources* (onramps) through *pipelines* to *sinks* (offramps). Bytes
that enter a source go through a chain of *preprocessors* that cut them into messages and a *codec*
that decodes each message; on the way out a codec and a chain of *postprocessors* do the opposite.
Pipelines send insights (acknowledgements, failures, circuit-breaker messages) backwards, against
the flow of events: the *contraflow*.

This project models the stateful parts of that machinery in Dafny and proves what they are for.
`dafny verify dfyconfig.toml` checks all of it. One module per file:

| part | modules |
|---|---|
| framing: incremental decoders and their encoders | `Framing`, `LengthPrefix`, `TextualLength`, `Lines` |
| GELF chunking: state, whole runs, wire format | `Gelf`, `GelfReassembly`, `GelfWire` |
| chains of stages, and both ends of a connection together | `Chain`, `EndToEnd`, `ExactChain` |
| codecs | `BInflux`, `StatsD` |
| flow control as step systems | `Contraflow`, `PriorityMerge`, `AtomicMaxCounter`, `AsyncSink` |
| the source task: message loop, ids, breaker, streams; and its whole runs | `SourceManager`, `SourceRuns` |
| tables that have to agree | `World` (repository and registry), `Offramp` |
| the cron scheduler | `Cron` |
| shared vocabulary and numerals | `Base`, `BigEndian`, `Decimal` |

How to read it. An object that is updated in place is a class (`LengthPrefix.Decoder`,
`Gelf.Receiver`, `SourceManager.Manager`, ...). Each of its methods is proved equal to a step of a
specification on values (`Feed`, `Accept`, `Emit`, ...), and the theorems are lemmas about any
number of such steps. Concurrent protocols are step systems: a state, the actions that can happen
next, and lemmas about every sequence of them, that is, every interleaving.

Conventions. `usize` is 64 bits wide. Arithmetic on `u64` wraps, as it does in an optimised build
(`Cargo.toml` does not ask for overflow checks there). Times, random ids, what a library call or a
channel answers, and the order in which a hash map is iterated over are parameters, so a theorem
holds for all of them. Text is its UTF-8 bytes.

## Where the code does less, or other, than one would expect

Each of these is proved, with the exact condition under which the expected property holds.

* GELF. A comment says that messages are destroyed five seconds after their first chunk. Generations
  are swapped only when a chunk arrives, so an idle receiver keeps a message for ever
  (`GelfReassembly.SilenceKeepsChunks`). A message comes out if and only if no two swaps happen between
  one of its chunks and its last (`ReassembledExactly`); arriving within five seconds is sufficient.
  `ExactChain.ChainExactly` says which messages of a whole connection that makes.
* GELF, two senders. Every encoder counts its ids from 0. If two senders share a receiver, chunks of one
  message of each can come out as a message that nobody sent (`GelfWire.SendersMixed`). Exactly when a chunk
  brings something out, whoever sent the others, and what, is `GelfReassembly.AnyTraffic` and
  `AnyTrafficReturns`.
* Length prefix. A header is read only when more than 8 bytes are there, so an empty payload at the
  end of a stream is held back until one more byte arrives (`LengthPrefix.RoundTrip`, `LateEmptyPayload`).
* Textual length prefix. After a header that does not parse, its whitespace stays in the buffer, so
  every later call fails too (`TextualLength.PoisonIsForever`).
* Lines. The decoder splits the whole stream exactly if nothing exceeds the limit
  (`Lines.RefinesSplitting`). Past the limit, an overlong line that arrives whole is dropped without
  an error (`DroppedSilently`); of one whose start was dropped by a failed call, the rest can come out as
  a line that is not in the stream (`OverflowLeaksTail`). `WholeLinesExactly` says, for every successful
  call after any others, exactly when it hands out lines of the stream only. A limit
  of 0 means "no limit" for finished lines, but refuses any unfinished one (`ZeroLimit`).
* BInflux counts tags that are not strings but does not write them, so the round trip holds if and
  only if all tags are strings (`BInflux.RoundTrip`, `NonTextTagBreaks`).
* Textual length prefix, again. A payload of 2^32 bytes or more is framed, but no decoder takes the frame
  (`TextualLength.EncodeFrame`).
* StatsD. A gauge below zero comes back as a subtraction or not at all (`StatsD.NegativeGauge`), and a sample
  rate that is an integer comes back as a float (`IntegerRate`); `StatsD.RoundTrip` says exactly which
  integer metrics survive.
* Contraflow. A comment claims that the unbounded contraflow queue holds at most N insights, N being
  the number that one event can trigger. That holds if and only if the queue stays empty for ever
  (`Contraflow.OneToN`). For D >= 1 offramps with queues of size Q >= 1, K >= 1 messages per pipeline step and
  N insights per message, the least bound is `N * (D * (Q + 1) + K)`; it is reached (`BoundAttained`,
  `LeastBound`).
* REST sink. A task that aborts never returns its slot. When all tasks are over, exactly the slots of the
  aborted ones are missing (`AtomicMaxCounter.SlotsLost`, `OneAborts`). A task that has yet to start can
  still get through if and only if fewer tasks have aborted than there are slots (`ThroughExactly`); once
  all slots are lost, the sink never sends again (`AbortedSlotsStayTaken`).
* Elastic sink. With a concurrency of 0 there is no limit at all (`AsyncSink.ZeroIsUnlimited`). One
  request that never reports blocks the sink (`SilentHeadBlocks`).
* Cron. When a firing is late, the firing times up to the moment at which the entry is re-armed are skipped,
  and no others (`Cron.SkippedExactly`).
* Some calls report an error and have changed repository and registry all the same: exactly the binds of an
  instance that is running already, whose servant is replaced, and the binds of pipelines, onramps and
  offramps that cannot be linked at the end (`World.FailedYetChanged`). One unbind removes every trace
  (`UndoneByUnbind`).
* Offramp. A linked offramp informs a new input if a destination has *ever* been connected, even if none
  is connected any more (`Offramp.InformedExactly`, `StaleLink`).
* Offramp. An event is answered with a fail although the sink took it, if the sink returned a response for a
  port with a destination whose url lacks a port (`AnsweredExactly`, `TakenYetFailed`).
* Source. A ready-made (structured) event that cannot be sent is lost without `fail` being called
  (`SourceRuns.FailExactly`, `StructuredLost`).

## Model

| member | source | states |
|---|---|---|
| LengthPrefix.Decoder.Process | src/preprocessor.rs:358-381 | terminates; output and new state are those of the specification, from any state |
| LengthPrefix.Fragmentation | src/preprocessor.rs:358-381 | from every state, processing a then b gives the outputs and the state of processing a+b |
| LengthPrefix.AnyFragmentation | src/preprocessor.rs:358-381 | the same for any number of fragments, empty ones included |
| LengthPrefix.Conservation | src/preprocessor.rs:358-381 | no byte is lost or made up: re-framing the outputs and the unread rest gives back the stream |
| LengthPrefix.RoundTrip | src/postprocessor.rs:239-244 | framed payloads, concatenated and cut up arbitrarily, come back exactly, except that a last empty payload waits |
| LengthPrefix.LateEmptyPayload | src/preprocessor.rs:373-378 | one more byte releases the waiting empty payload |
| LengthPrefix.EncodeFrame | src/postprocessor.rs:239-244 | a fresh decoder turns the frame back into the payload, and holds an empty one back |
| TextualLength.Decoder.Process | src/preprocessor.rs:394-429 | terminates; result, error and new state are those of the specification, from any state |
| TextualLength.Fragmentation | src/preprocessor.rs:394-429 | processing a then b agrees with a+b, and the two fail together |
| TextualLength.AnyFragmentation | src/preprocessor.rs:394-429 | the same for any number of fragments |
| TextualLength.DrainSettles | src/preprocessor.rs:394-429 | a call either fails and leaves the decoder poisoned, or leaves it waiting for bytes it does not have |
| TextualLength.PoisonIsForever | src/preprocessor.rs:406-425 | after one bad header every later call fails, without a message, whatever arrives |
| TextualLength.RoundTrip | src/postprocessor.rs:255-263 | payloads shorter than 2^32, empty ones included, come back exactly under any fragmentation |
| TextualLength.EncodeFrame | src/postprocessor.rs:255-263 | a fresh decoder turns the frame back into the payload if and only if its length is below 2^32, and fails otherwise |
| Lines.Splitter.Save | src/preprocessor/lines.rs:64-86 | buffers a fragment within the limit, otherwise empties the buffer and fails |
| Lines.Splitter.Complete | src/preprocessor/lines.rs:88-112 | takes the buffered start together with the rest of the line, or empties the buffer and fails |
| Lines.Splitter.Process | src/preprocessor/lines.rs:120-168 | result, error and buffer are those of the specification, the early return on overflow included |
| Lines.SplitJoin | src/preprocessor/lines.rs:120-168 | splitting is inverse to joining with the separator, and no piece contains it |
| Lines.SplitAppend | src/preprocessor/lines.rs:120-168 | the pieces of a concatenation are those of its parts, run together where they meet |
| Lines.StateInvariant | src/preprocessor/lines.rs:64-168 | after any call, failed or not, the buffer is free of separators and within the limit; so is every line handed out, as far as there is a limit |
| Lines.WithinLimits | src/preprocessor/lines.rs:120-168 | on a stream within the limit any fragmentation yields the whole-stream lines, with the unfinished tail in the buffer |
| Lines.RefinesSplitting | src/preprocessor/lines.rs:120-168 | any fragmentation yields the split of the whole stream without an error if and only if no line and no rest exceeds the limit |
| Lines.BufferIsEnd | src/preprocessor/lines.rs:64-168 | after any calls, failed ones included, the buffer is the end of the unfinished line of the whole stream |
| Lines.WholeLinesExactly | src/preprocessor/lines.rs:64-168 | after any fragmentation, when a successful call hands out lines of the stream and nothing else (if and only if), and what it hands out otherwise |
| Lines.DroppedSilently | src/preprocessor/lines.rs:46-58 | an overlong line that arrives whole is dropped without an error |
| Lines.OverflowLeaksTail | src/preprocessor/lines.rs:88-112 | past the limit, the tail of a line whose start was dropped is handed out as a line |
| Lines.ZeroLimit | src/preprocessor/lines.rs:46-86 | with limit 0 and buffering, a call fails if and only if it leaves an unfinished line |
| Lines.RoundTrip | src/postprocessor.rs:108-114 | newline-terminated payloads come back exactly under any fragmentation |
| Lines.EncodeFrame | src/postprocessor.rs:108-114 | a fresh decoder turns the frame back into the payload if and only if that is a line it accepts |
| Gelf.Receiver.Enqueue | src/preprocessor/gelf.rs:141-237 | one chunk: both maps, the swap time and the result are those of the specification, in every branch |
| Gelf.Assemble | src/preprocessor/gelf.rs:240-251 | the segments in order, or nothing if one is missing |
| Gelf.AcceptValid | src/preprocessor/gelf.rs:141-237 | keeps the invariant: disjoint maps; entries with count >= 2, truthful stored and bytes, never complete |
| Gelf.NeverMissing | src/preprocessor/gelf.rs:240-251 | the missing-segment branch is unreachable, and the message is as long as the entry's byte count |
| GelfReassembly.Isolation | src/preprocessor/gelf.rs:141-237 | the entry of a message changes only by a swap or by a chunk of its own |
| GelfReassembly.Lifetime | src/preprocessor/gelf.rs:143-148 | an entry is current until the first swap after its first chunk, old until the second, then gone |
| GelfReassembly.AnyTraffic | src/preprocessor/gelf.rs:141-237 | arbitrary traffic under an id: a chunk returns something if and only if the chunks since the one that created its entry carry each index below that one's count exactly once |
| GelfReassembly.AnyTrafficReturns | src/preprocessor/gelf.rs:240-251 | and it is then their data, put together by index |
| GelfReassembly.ReassembledExactly | src/preprocessor/gelf.rs:141-237 | with its chunks in any order among any others, at any times: a chunk returns the message, byte for byte, if and only if it is the last and no two swaps have happened since any other |
| GelfReassembly.Reassembles | src/preprocessor/gelf.rs:141-237 | within five seconds: returned exactly once, at its last chunk, and no trace remains |
| GelfReassembly.SilenceKeepsChunks | src/preprocessor/gelf.rs:143-148 | without traffic in between a message completes however late |
| GelfWire.Encoder.EncodeGelf | src/postprocessor/gelf.rs:36-68 | datagrams, refusal and id counter are those of the specification |
| GelfWire.ChunksFlatten | src/postprocessor/gelf.rs:37-38 | chunking loses nothing and makes no empty chunk |
| GelfWire.ChunkCount | src/postprocessor/gelf.rs:37-46 | a message needs more than n datagrams if and only if it is longer than n full chunks; the encoder refuses beyond 128 |
| GelfWire.ParseEncoded | src/preprocessor/gelf.rs:68-108 | the header parser undoes the encoder |
| GelfWire.EncodeParsed | src/preprocessor/gelf.rs:68-108 | nothing but the encoder's own output parses to a given multi-chunk segment |
| GelfWire.ScatteredMessage | src/postprocessor/gelf.rs:36-68 | encoder to receiver: datagrams in any order among others, within five seconds, give the message at the last one |
| GelfWire.SendersMixed | src/postprocessor/gelf.rs:36-68 | two encoders share their first id: the first chunk of one message and the second of another come out as one |
| Chain.RunStage | src/preprocessor.rs:102-113 | one stage over a list is a stateful flat-map that stops at the first error |
| Chain.RunChain | src/preprocessor.rs:94-116 | the two-buffer loop refines the fold of flat-maps, stages and ingest time included |
| Chain.FlatMapSplit | src/preprocessor.rs:102-113 | a flat-map over a list can be cut anywhere |
| Chain.FoldStep | src/postprocessor.rs:77-98 | the chain is its first k stages followed by the next; stages after a failing one are untouched |
| Chain.IngestTimeRoundTrip | src/postprocessor.rs:222-228 | an attached ingest time is what the other side extracts, with the data unchanged |
| EndToEnd.SentWire | src/postprocessor.rs:77-98 | what gelf-chunking then length-prefixed puts on the wire is the framed datagrams of the messages that are not refused |
| EndToEnd.ReceiveRun | src/preprocessor.rs:94-116 | the receiving chain is the length-prefix decoder feeding the GELF receiver, over any calls |
| ExactChain.KeptRun | src/preprocessor/gelf.rs:141-237 | over the datagrams of all messages, the receiver brings out the messages of one chunk and those in time, and nothing else |
| ExactChain.KeptAll | src/preprocessor/gelf.rs:141-237 | these are all the non-empty messages if and only if every message of several chunks is in time |
| ExactChain.ChainExactly | src/preprocessor.rs:94-116 | chunked, framed, concatenated, cut up arbitrarily, received at any times, refused messages included: exactly which messages come out, and that it is all of them if and only if all are in time |
| EndToEnd.ChainRoundTrip | src/preprocessor.rs:94-116 | for chunks at most five seconds apart: all accepted non-empty messages, in order, and nothing left pending |
| BInflux.Encode | src/codec/binflux.rs:33-106 | bytes or error are those of the specification, for any iteration order |
| BInflux.AppendTags | src/codec/binflux.rs:56-70 | the tag loop appends the strings and passes over other tags |
| BInflux.AppendFields | src/codec/binflux.rs:72-103 | the field loop appends every entry, failing on one it cannot encode |
| BInflux.Decode | src/codec/binflux.rs:108-164 | record or error are those of the specification |
| BInflux.ReadScalarPrefix | src/codec/binflux.rs:132-156 | each kind of field value is read back, and not a byte more |
| BInflux.RoundTrip | src/codec/binflux.rs:33-164 | decoding gives back the encoded record, whatever the iteration orders, if and only if all tags are strings |
| BInflux.Injective | src/codec/binflux.rs:33-106 | different records have different bytes |
| BInflux.EncodableExactly | src/codec/binflux.rs:33-106 | exactly which records can be encoded |
| BInflux.NonTextTagBreaks | src/codec/binflux.rs:56-67 | any tag that is not a string makes a record that encodes and does not decode |
| StatsD.Encode | src/codec/statsd.rs:45-76 | bytes or error are those of the specification |
| StatsD.Decode | src/codec/statsd.rs:78-171 | metric or error are those of the specification |
| StatsD.DecodedShape | src/codec/statsd.rs:78-171 | whatever decodes has a colon-free name, a known type, an action only if it is a gauge, and a 64-bit number |
| StatsD.RoundTrip | src/codec/statsd.rs:45-171 | an integer metric that encodes comes back if and only if it survives (name, value, kind, action) and its sample rate is absent or a float that is parsed back |
| StatsD.NegativeGauge | src/codec/statsd.rs:107-152 | a negative gauge comes back as a subtraction or not at all |
| StatsD.IntegerRate | src/codec/statsd.rs:65-72 | no metric with an integer sample rate comes back |
| PriorityMerge.Merger.Poll | src/permge.rs:60-70 | one poll of the merge: the answer and both streams afterwards |
| PriorityMerge.OnePoll | src/permge.rs:60-70 | a message is the front of its class, the others lose nothing, every higher class had nothing to offer, and the end is reported exactly when all have ended |
| PriorityMerge.LossFree | src/pipeline.rs:376-382 | over any polls each class comes out in order and without loss |
| PriorityMerge.EndIsFinal | src/permge.rs:60-70 | once ended, the merge stays ended |
| PriorityMerge.PipelineConsistent | src/pipeline.rs:376-382 | the pipeline's nesting of the three streams meets what the polls require |
| Contraflow.ContraflowBounded | src/pipeline.rs:569-585 | in every interleaving, insights between the two polls of the merge included, the queue holds at most N * (D * (Q + 1) + K) |
| Contraflow.BoundAttained | src/pipeline.rs:569-585 | for any number of offramps a run fills it to exactly that |
| Contraflow.LeastBound | src/pipeline.rs:569-585 | exactly which numbers bound the queue in every run |
| Contraflow.OneToN | src/pipeline.rs:579-584 | what one message or one event can trigger is a bound if and only if the queue stays empty for ever |
| Contraflow.StepBounded | src/permge.rs:60-70 | the potential behind the bound rises only when an event is taken, and is small between the poll that found no insight and that |
| Contraflow.StepWorks | src/pipeline.rs:380-434 | without new input every step leaves strictly less work |
| Contraflow.NoDeadlock | src/pipeline.rs:380-434 | while work is left, a step that needs no new input is possible |
| Contraflow.EveryScheduleDrains | src/pipeline.rs:380-434 | every schedule ends within the work it starts with, and has then drained everything |
| AtomicMaxCounter.StepInv | src/sink/rest.rs:1067-1108 | each atomic step keeps: counter = slots held <= max, refusals saw a full counter, no give-back at zero |
| AtomicMaxCounter.Safety | src/sink/rest.rs:1055-1108 | so does every interleaving of any number of tasks |
| AtomicMaxCounter.SlotsLost | src/sink/rest.rs:357-420 | when all tasks are over the counter is the number of aborted ones, so zero if and only if nobody aborted |
| AtomicMaxCounter.AbortedSlotsStayTaken | src/sink/rest.rs:357-420 | after as many aborts as there are slots, nothing gets through any more |
| AtomicMaxCounter.ThroughExactly | src/sink/rest.rs:1055-1108 | in every reachable state, a task yet to start gets through in some continuation if and only if fewer tasks have aborted than there are slots |
| AtomicMaxCounter.OneAborts | src/sink/rest.rs:357-420 | a run of three steps, for any number of slots and tasks, after which a slot is lost |
| AtomicMaxCounter.FailureMeansProgress | src/sink/rest.rs:1067-1108 | a failed exchange implies that another succeeded since the load |
| AtomicMaxCounter.ExchangesCount | src/sink/rest.rs:1067-1108 | the number by which the other lemmas measure progress is the number of exchanges that succeeded |
| AtomicMaxCounter.FailuresBounded | src/sink/rest.rs:1067-1108 | at most n - 1 failed exchanges per successful one, plus those stale at the start |
| AsyncSink.Queue.Enqueue | src/async_sink.rs:64-71 | appends, or reports AtCapacity and changes nothing |
| AsyncSink.Queue.Dequeue | src/async_sink.rs:72-84 | takes the oldest result if it has arrived; otherwise the queue is as before |
| AsyncSink.Elastic.MaybeEnque | src/sink/elastic.rs:473-483 | one event: the whole new state, in each of the four cases |
| AsyncSink.ConcurrencyLimit | src/sink/elastic.rs:439-447 | with capacity >= 1, in every interleaving: AtCapacity is never met, running requests hold places, at most capacity run |
| AsyncSink.ResultsInOrder | src/async_sink.rs:57-89 | results leave in the order of the requests, none skipped or repeated, whatever order they finish in |
| AsyncSink.ZeroIsUnlimited | src/sink/elastic.rs:439-447 | with capacity 0 any number of requests can run at once |
| AsyncSink.SilentHeadBlocks | src/async_sink.rs:72-84 | a request that never reports stops the sink after at most capacity more |
| AsyncSink.DroppedExactly | src/sink/elastic.rs:473-478 | an event is dropped if and only if capacity requests are queued and the oldest has not reported |
| AsyncSink.EveryEventOnce | src/sink/elastic.rs:473-483 | every event is dropped, refused as malformed, or sent: exactly one of these |
| SourceManager.Manager.HandleMsg | src/source.rs:282-390 | one message: lists, breaker and ending as specified, for every kind of message and failure |
| SourceManager.Manager.HandlePipelines | src/source.rs:282-390 | handles every waiting message, unless the task ends, and says whether the source may be pulled |
| SourceManager.Manager.TransmitEvent | src/source.rs:392-465 | uses up one id whether or not anything is connected; an error exactly if some addressable pipeline cannot be reached |
| SourceManager.Manager.MakeEventData | src/source.rs:229-274 | preprocesses with the stream's own chain and decodes each message; an unknown stream is an error |
| SourceManager.Manager.RouteResult | src/source.rs:528-546 | sends results and errors to their ports; an error if any send failed |
| SourceManager.Manager.Pull | src/source.rs:548-653 | one reply of the source, of any kind |
| SourceManager.Manager.Round | src/source.rs:548-653 | one round of the loop: drain the messages, then pull if that is allowed |
| SourceRuns.RunTraced | src/source.rs:548-653 | every run leaves a trace in which each act was allowed when it happened, and which leads to its state |
| SourceRuns.DrainIsRun | src/source.rs:282-390 | draining the messages is a run of single steps |
| SourceRuns.IdsWithoutGap | src/source.rs:392-465 | over any run the transmitted ids are 0, 1, 2, ... without a gap (modulo 2^64) |
| SourceRuns.DatumBlock | src/source.rs:528-653 | a datum's results take consecutive ids from the one it was pulled under, then fail or the empty-event call |
| SourceRuns.FailExactly | src/source.rs:562-637 | in any run, batches included: fail is called right after the events of a datum, for its id, if and only if one of them could not be sent; and nowhere else |
| SourceRuns.StructuredLost | src/source.rs:565-569 | a ready-made event that cannot be sent is transmitted with an error, and nothing follows |
| SourceRuns.PulledOnlyWhenOpen | src/source.rs:276-281 | over any run: no pull between Close and the next Open, nor while a required list is empty, nor before every message is handled that had arrived when the task looked |
| SourceRuns.StreamState | src/source.rs:557-564 | the open streams and their chains are what each stream's own history says |
| SourceRuns.StreamIsolation | src/source.rs:207-227 | the output for a stream is what a fresh chain makes of its own pieces since its last start, whatever is interleaved |
| SourceRuns.InterleavedExactly | src/source.rs:207-227 | senders on interleaved streams: exactly which messages each stream yields, and all of its own sender's if and only if all are in time |
| World.Repository.Publish | src/repository.rs:87-99 | adds an artefact without instances, or refuses one that is there |
| World.Repository.Unpublish | src/repository.rs:101-119 | removes an unused, non-system artefact; otherwise reports which condition failed |
| World.Repository.Bind | src/repository.rs:120-131 | appends the instance to its artefact's list |
| World.Repository.Unbind | src/repository.rs:132-143 | removes every mention of the instance from that list |
| World.Registry.Publish | src/registry.rs:90-104 | replaces a servant that is there, and still reports an error |
| World.Registry.Unpublish | src/registry.rs:105-112 | removes the servant, or reports that there is none |
| World.Runtime.BindServant | src/system.rs:185-210 | both indexes after a bind, whichever step fails |
| World.Runtime.UnbindServant | src/system.rs:212-223 | both indexes after an unbind, whichever step fails |
| World.Runtime.BindBinding | src/system.rs:511-526 | bindings: spawned before they are looked up, linked by the caller |
| World.Runtime.UnbindBinding | src/system.rs:528-541 | bindings: taken out of the registry first |
| World.AlwaysAgree | src/system.rs:185-223 | after any calls, failed ones included: a servant is registered if and only if its own artefact lists it |
| World.UnpublishOnlyUnused | src/repository.rs:101-119 | so an artefact can be unpublished if and only if it exists, is not a system artefact, and none of its servants is running |
| World.SystemStays | src/repository.rs:101-119 | no sequence of calls removes a system artefact |
| World.FailedYetChanged | src/system.rs:185-223 | for every agreeing state and call: it reports an error and has changed the indexes if and only if it is a bind that got that far, of a running instance or without a link |
| World.UndoneByUnbind | src/system.rs:185-223 | what a bind leaves, failed or not, and that one unbind removes every trace |
| Offramp.SinkManager.RemovePipeline | src/sink.rs:228-231 | removes the input; done if and only if nothing is connected |
| Offramp.SinkManager.RemoveDestPipeline | src/sink.rs:232-237 | removes every mention of the destination on that port; done if and only if nothing is connected |
| Offramp.SinkManager.OnEvent | src/sink.rs:189-209 | carries out the replies to an event through `SinkManager`'s own tables, up to the first that cannot be delivered |
| Offramp.SinkManager.OnSignal | src/sink.rs:239-275 | carries out the replies to a signal, all of them |
| Offramp.HandleResponse | src/sink.rs:306-342 | sends to all but the first destination, then to that one, and stops at a url without a port |
| Offramp.Task.Handle | src/offramp.rs:248-408 | one message: both tables, the ending and everything sent |
| Offramp.Mirror | src/offramp.rs:286-402 | after every message of any run the two pairs of tables are equal, and hold exactly the connections the messages left in place |
| Offramp.DoneExactly | src/offramp.rs:371-402 | the task ends as done if and only if an answered disconnect, not of the metrics port, leaves nothing connected |
| Offramp.AnsweredExactly | src/offramp.rs:257-285 | when a transactional event is answered, with an ack or a fail, and to whom |
| Offramp.TakenYetFailed | src/sink.rs:306-342 | a run in which an event that the sink took is answered with a fail |
| Offramp.EitherWay | src/offramp.rs:410-420 | a reply reaches the same pipelines by either way |
| Offramp.LinkedForEver | src/offramp.rs:316-328 | the destination table is non-empty if and only if some output port has ever been connected |
| Offramp.InformedExactly | src/offramp.rs:286-370 | a connected input has been sent its initial insight if and only if the offramp is not linked or a destination has ever been connected |
| Offramp.StaleLink | src/offramp.rs:293-305 | also when no destination is connected any more |
| Cron.ChronomicQueue.Pop | src/source/crononome.rs:191-203 | an earliest item if it is due, otherwise nothing |
| Cron.ChronomicQueue.Next | src/source/crononome.rs:265-270 | pops and re-arms: the queue afterwards |
| Cron.ChronomicQueue.Init | src/source/crononome.rs:303-317 | arms every entry |
| Cron.FixedSet | src/source/crononome.rs:246-253 | a schedule that answers from a fixed set of times has the properties the other lemmas assume |
| Cron.QueuedOnce | src/source/crononome.rs:246-270 | in any run each entry is queued at most once, and an entry with a firing time ahead is queued |
| Cron.IdleIsExact | src/source/crononome.rs:265-270 | when nothing is due, the queue holds exactly the next firing time of every entry |
| Cron.FiringOrder | src/source/crononome.rs:191-203 | earliest first, and each entry at strictly increasing times |
| Cron.NeverEarly | src/source/crononome.rs:191-203 | no firing of any run is before its time |
| Cron.NextFiring | src/source/crononome.rs:246-270 | of two successive firings of an entry, the second is for the first firing time after the clock at which the entry was re-armed |
| Cron.SkippedExactly | src/source/crononome.rs:246-270 | a firing time after the first of two successive firings is skipped if and only if it was not ahead any more at the re-arming |
| Cron.FixedClock | src/source/crononome.rs:265-270 | while the clock stands still, repeated calls fire exactly the due items, then nothing |
| Cron.IdleWithinEntries | src/source/crononome.rs:265-270 | so at most as many firings as entries |
| Decimal.ParsePrintSigned | src/codec/statsd.rs:52-60 | parsing undoes the printing of any 64-bit signed number |
| BigEndian.DecodeEncode | src/postprocessor.rs:239-244 | reading undoes the writing of a big-endian number of any width |

## Left out

* Compression stages, base64, decompression by magic number: their work is in libraries.
* GELF over TCP (its trailing byte), and the random id of the Wayfair header: a message of that kind
  has one chunk, so its id is never looked at.
* GELF chunk sizes that do not exceed the 12-byte header, with which the encoder cannot work at all.
* JSON, YAML, MsgPack, CSV, influx and syslog codecs: they wrap parsers and printers that are not here.
* The text of floats (StatsD values, sample rates): printing and parsing are parameters. The proofs
  assume only what is stated about them.
* UTF-8 validity checks on decoded text.
* Values are seen through the accessors the codecs use: an integer is taken by the signed accessor if it
  is in range, a float only by the float accessor.
* The script engine, `ExecutableGraph` and `EventId`: a pipeline step is an abstract function with a bound
  on what it sends; of a set of ids only the earliest and the latest are used.
* Runs of more than 2^64 messages of one sender, in which GELF ids repeat.
* Connections that change during a contraflow run, ticks and signals, and sinks that reply on their own.
* Concurrent bind and unbind of one instance, and the linking of a binding by its caller: runs of operations are sequential.
* Preprocessors and postprocessors as trait objects: a stage is a datatype with the state of each
  kind, and the source keeps its chains as values. `Chain.RunChain` is the loop on an array of stages
  updated in place, with the inner loop as the method `RunStage`.
* The heap, hash maps and channels inside: the cron queue is a list of which an earliest item is taken,
  maps are maps, channels are queues of messages or numbered slots for one result.
* In the source task and the offramp task, the messages that tell pipelines about a connection can
  fail at any point; metrics, logging and the content of error events are not modelled.
* Entries whose cron expression does not parse: the source does not start then. A clock that goes back
  is outside the guarantees on firing times.
* Network, database and broker sources and sinks, configuration, start-up and shutdown of the system.
* A bounded channel of capacity zero: the channel library does not make one, so Q = 0 does not occur.
* How many messages wait in the source's own unbounded channel, whose comment (src/source.rs:468-483) makes
  the same claim as the pipeline's: only the pipeline's is bounded here.
* Contraflow.ContraflowBounded: N, K, Q and the number of offramps are fixed during a run.
* EndToEnd.ChainRoundTrip: a sufficient condition only; `ExactChain.ChainExactly` has the exact one.
