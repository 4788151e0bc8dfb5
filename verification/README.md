# golinker: verified models of its send, receive and polling logic

golinker is an RDMA RPC transport. This project models the state machines of its Go code in Dafny and
proves what they guarantee together.

- **The closed send loop** (`SendLoopSpec`, `SendLoopProofs`, `SendLoopTheorems`, `SendLoopLiveness`,
  `SendLoop`, `BufferPool`). The aggregator batches messages, the send pool hands out registered
  buffers, the connection tracks and posts them, the completion handler gives them back and wakes the
  aggregator. `SendLoopSpec` says what each call does to the state the modules share; the classes of
  `SendLoop` and `BufferPool` update fields and buffer memory in place and are proved against it; the
  other files prove what every run keeps: the buffer partition, the agreement of the counters, order,
  batch capacity, drainage, what each status means (`SendLoopStatus`), and exactly what a lost send
  breaks.
- **The same loop under concurrency** (`AggregatorRace`): any number of goroutines, interleaved at the
  granularity of the mutex, the atomic counter, the pool and the device; what a batch may hold
  (`RaceBatches`), and that a goroutine left alone does what the sequential model does
  (`RaceRefinement`).
- **The wire codec** (`Wire`, `WireTheorems`), byte by byte, with its in-place packer and its parser
  loop.
- **The receive side** (`Receive`) and end-to-end delivery (`EndToEnd`).
- **The completion-queue waiters** (`CompletionQueue`, `WaiterProgress`, `WaiterLoops`) against a device that may add a
  completion between any two steps. Notification follows section 11.4.2.2 (Request Completion
  Notification) of the InfiniBand Architecture Specification, Volume 1.
- **The ping-pong echo** (`EchoProtocol`, `PingPong`), **the token bucket** (`RateLimiter`) and **the
  least-loaded queue pool** (`CqPool`).

`dafny verify dfyconfig.toml` checks the whole project.

## What does not hold, and exactly when

The code is modelled as it is. Where a property one would expect fails, the project proves exactly when
it holds, and gives a concrete run in which it does not.

- An error completion, a rejected post or a send on a dead connection leaves `ongoingSends` too high
  for good. From then on the idle trigger never fires, and a small aggregated message can wait for ever
  (`StrandedIff`, `LostForever`, `IdleTriggerDead`; run: `StrandingRun`).
- A batch whose post is rejected, or that meets a dead connection, is not put back: its messages were
  accepted and are lost (`OnTheWireIff`; run: `DroppedRun`).
- `aggregateSend` does not check the size of a message. One longer than a buffer of the pool is accepted,
  cut off when it is packed, posted with the full length, and lost (`OnTheWireIff`, `CapacityIff`,
  `AppendFits`; run: `OversizeRun`).
- An immediate send overtakes waiting aggregated messages (`ImmediateOvertakes`; run: `OvertakingRun`).
- An immediate send of an oversize message can hold the last buffer while the idle flush asks for it,
  and strand the batch (`StrandsIff`; run: `OversizeStrands`). In the code the flush asks for up to the
  allocation timeout (pkg/buffer/pool.go:110-115), so it is stranded only if the buffer is held that
  long; the model has an acquire fail at once.
- A poll that fails between arming and parking puts the waiter to sleep on completions that are already
  there (`BecomesStuckIff`, `StuckIff`; run: `FailedPollSticks`).
- An empty message in a received batch panics (`RecvConn.OnCompletion`, `BeforeEmptyIsPrefix`; run:
  `EmptyMessageRun`, `EmptyMessagePanics`).
- Receive buffers that carried messages are never returned. The comment at pkg/connection/conn.go:325
  says that the pipeline is kept full; in fact it is only while the pool has spare buffers and no
  replenishing post fails, and runs dry after as many messages as the pool has buffers
  (`PipelineFullIff`, `Starvation`; runs: `PipelineShrinks`, `RejectedRepost`).
- A queue released before it is registered is still registered afterwards (`AgreementKeptIff`; run:
  `LateAddRun`).
- A negative rate is accepted and makes the bucket negative (`NeverNegativeIff`; run: `NegativeRun`).

## Model

| member | source | states |
|---|---|---|
| `SendLoopTheorems.Fifo` | pkg/message/aggregator.go:79-206 | Over every run of sends, flushes, completions, error completions, failed posts and disconnections in which each accepted message alone fits a pool buffer: unpacking all batches in the order they were handed to the connection, posted or not, and then reading what is pending gives exactly the accepted aggregated payloads, in order; `Sent` + `PendingCount` counts them and the immediate sends, `Flushed` counts the batches |
| `SendLoopTheorems.RunOrder` | pkg/message/aggregator.go:79-206 | Over every run, messages of any size: the messages packed into batches, in the order the batches were handed over, followed by what is pending, are exactly the accepted ones in order; every attempt holds its packed messages as far as they fit the buffer |
| `SendLoopTheorems.ContentsIff` | pkg/message/wire.go:79-84 | A receiver gets the messages of an attempt if and only if the batch fits the buffer; otherwise the copy was cut off and it gets fewer or none |
| `SendLoopTheorems.OnTheWireIff` | pkg/message/aggregator.go:161-193 | Over every run: what a receiver can unpack from the batches the device got, followed by what is pending, is what was accepted if and only if no batch met a rejected post or a dead connection and no batch was longer than a pool buffer; the second never happens when each accepted message alone fits |
| `SendLoopTheorems.DroppedRun` | pkg/connection/conn.go:136-143 | Concrete run: the flush of one accepted message is rejected, and the message is neither pending nor on the wire |
| `SendLoopTheorems.CompletionOrder` | pkg/message/aggregator.go:197-206 | A completion, idle flush included, loses and reorders no message |
| `SendLoopTheorems.StepOrder` | pkg/message/aggregator.go:79-206 | One operation extends the aggregated stream by exactly what it accepts; a message whose overflow flush fails, for lack of a buffer, a rejected post or a dead connection, is not accepted |
| `SendLoopTheorems.FlushOrder` | pkg/message/aggregator.go:161-193 | A flush moves messages from pending to the connection without losing, duplicating or reordering any, also when it gets no buffer |
| `SendLoopTheorems.AggregateOrder` | pkg/message/aggregator.go:113-150 | An aggregated send whose overflow flush fails is not accepted; in every other case, also when it returns the error of a later flush, its message is accepted, last |
| `SendLoopTheorems.ImmediateOrder` | pkg/message/aggregator.go:87-110 | An immediate send hands over at most one more attempt, which unpacks to its one payload, and leaves the aggregated messages alone |
| `SendLoopTheorems.ImmediateOvertakes` | pkg/message/aggregator.go:79-84 | Order across the two paths, read from what the device accepted, survives a posted immediate send if and only if every waiting message equals the new one |
| `SendLoopTheorems.OvertakingRun` | pkg/message/aggregator.go:79-84 | Concrete run: a message waits behind an immediate one and a second immediate one overtakes it |
| `SendLoopTheorems.Capacity` | pkg/message/aggregator.go:113-193 | Over every run whose accepted messages each fit alone in the aggregator's buffer, or in any larger limit: the pending size is the sum of 12 + len, the pending batch keeps to that limit even after failed flushes, and so does every batch that was packed |
| `SendLoopTheorems.CapacityIff` | pkg/message/aggregator.go:113-193 | Every batch, sent or waiting, stays within the limit if and only if every accepted message alone does |
| `SendLoopTheorems.PackingIsSafe` | pkg/message/wire.go:69-87 | Over every run, messages of any size included, the headers of the batch that waits fit a pool buffer, so packing it never runs past the end |
| `SendLoopTheorems.AppendPackable` | pkg/message/aggregator.go:117-133 | Appending a message of any size keeps that so |
| `SendLoopTheorems.StepConfig` | pkg/message/aggregator.go:79-206 | No operation changes the sizes and the threshold |
| `SendLoopTheorems.OversizeRun` | pkg/message/wire.go:79-84 | Concrete run: a single aggregated message longer than a pool buffer is accepted, cut off when packed, and posted; it is not pending any more and a receiver gets nothing of it |
| `SendLoopTheorems.AppendFits` | pkg/message/aggregator.go:117-133 | After the overflow check, the pending batch keeps to the limit if and only if the new message alone does: nothing on this path checks that it does |
| `SendLoopTheorems.FlushFits` | pkg/message/aggregator.go:161-193 | A flush keeps the batch that waits, and every batch handed to the connection, within the limit, also when the messages are put back |
| `SendLoopTheorems.StepFits` | pkg/message/aggregator.go:79-206 | Every operation keeps waiting and posted batches within the limit, as long as the message it accepts alone is |
| `SendLoopTheorems.BelowThreshold` | pkg/message/aggregator.go:135-150 | After a successful aggregated send a waiting batch is below the threshold and some counted send is still to complete |
| `SendLoopStatus.ImmediateStatus` | pkg/message/aggregator.go:87-110 | An immediate send succeeds if and only if a buffer was free, the message fits it, the connection was up and the post was accepted, and its message is then on the wire; each failing guard has its own error, in that order, and without a buffer or with a message too large nothing was handed over |
| `SendLoopStatus.AggregateStatus` | pkg/message/aggregator.go:113-150 | The status of an aggregated send from the guards alone: of a failing overflow flush, after which the message was not accepted; success when no flush is due, with the message waiting; or of the threshold or idle flush, with the message waiting when there was no buffer, lost when the post failed, and on the wire on success |
| `SendLoopStatus.FlushStatus` | pkg/message/aggregator.go:161-193 | The status of a flush from the guards alone, and where the pending messages then are |
| `SendLoopStatus.SuccessMeans` | pkg/message/aggregator.go:79-84 | A send that reports success has its message on the wire or last among those that wait |
| `SendLoopStatus.SendPath` | pkg/message/aggregator.go:79-84 | The aggregated path is taken if and only if aggregation is enabled and the pool is busy |
| `SendLoopLiveness.Agreement` | pkg/cq/dispatcher.go:97-136 | Over every run with a connected connection, successful posts and successful completions, `ongoingSends`, the tracked WRIDs and `inFlightN` are equal, and a waiting batch implies a tracked WRID |
| `SendLoopLiveness.EveryBufferAccountedFor` | pkg/buffer/send_pool.go:47-77 | Over every run, failures included: free buffers, tracked buffers and buffers of sends on a dead connection are disjoint, without duplicates and are all the buffers; `inFlightN` and `ongoingSends` are given exactly by their numbers and by the error releases |
| `SendLoopLiveness.BusyIff` | pkg/buffer/send_pool.go:70-77 | Over every run while the connection stays up, error completions and rejected posts included: the buffers in flight are the tracked ones, and the test of `IsBusy` holds if and only if at least max(1, half of the buffers) are tracked |
| `SendLoopLiveness.StaysUp` | pkg/connection/conn.go:109-112 | While the connection stays up no buffer is left with a send on a dead connection |
| `SendLoopLiveness.NeverDropped` | pkg/buffer/pool.go:119-128 | In every reachable state, releasing a tracked buffer appends it to the free list: the drop branch is never taken |
| `SendLoopLiveness.IdleFlushFindsBuffer` | pkg/message/aggregator.go:142-206 | A flush caused by idleness always finds a free buffer, whatever happened before: nothing is pending after it |
| `SendLoopLiveness.StrandedIff` | pkg/message/aggregator.go:142-206 | From any reachable state, once all sends under way have completed, in any order and whatever becomes of the posts this causes: the batch that waited is no longer waiting if and only if there was none or no send had been lost before (error completion, rejected post, or send on a dead connection) |
| `SendLoopLiveness.CompletionMovesIff` | pkg/message/aggregator.go:197-206 | A completion of a tracked send flushes if it is the only one tracked and none was lost, and otherwise leaves the batch waiting |
| `SendLoopLiveness.LostForever` | pkg/message/aggregator.go:197-206 | Over every run, lost sends never become fewer and `ongoingSends` never falls below them |
| `SendLoopLiveness.IdleTriggerDead` | pkg/message/aggregator.go:142-206 | After a loss, over every run, no completion flushes any more, and an aggregated message with room below the threshold only waits |
| `SendLoopLiveness.StrandedAtOnceIff` | pkg/message/aggregator.go:142-150 | With nothing tracked or pending, an aggregated message below the threshold is left waiting if and only if an earlier send was lost |
| `SendLoopLiveness.StrandingRun` | pkg/connection/conn.go:136-143 | Concrete run: after one rejected post a small aggregated message is accepted and waits, with nothing tracked and the only buffer free |
| `SendLoopLiveness.StrandedForever` | pkg/message/aggregator.go:197-206 | A batch waiting with nothing tracked is not moved by any completion |
| `SendLoopLiveness.RejectedPostLoses` | pkg/connection/conn.go:136-143 | Concrete run: a single rejected post leaves the send counted with nothing tracked |
| `SendLoopLiveness.DrainStep` | pkg/cq/dispatcher.go:97-111 | Each successful completion of a tracked send brings the loop exactly one completion nearer to rest |
| `SendLoopLiveness.Quiescence` | pkg/message/aggregator.go:161-206 | With k sends tracked and none lost, their completions in any order end after exactly k, or k + 1 if a batch waited; then nothing is pending or tracked and every buffer is free exactly once |
| `SendLoopLiveness.StepClean` | pkg/cq/dispatcher.go:97-128 | An operation without failures loses no send |
| `SendLoopProofs.RunKeeps` | pkg/message/aggregator.go:79-206 | Partition of the buffers, exact counters, exact pending size, and no batch waiting without a counted send, in every reachable state |
| `SendLoopProofs.StepKeeps` | pkg/message/aggregator.go:79-206 | Every operation keeps that invariant |
| `SendLoopProofs.LaunchKeeps` | pkg/connection/conn.go:109-146 | Acquire, count and post keep the accounts in every outcome; exactly the unsuccessful outcomes lose a send |
| `SendLoopProofs.RejectedKeeps` | pkg/connection/conn.go:136-143 | A rejected post gives the buffer back and untracks it, and the counted send is lost |
| `SendLoopProofs.PostedKeeps` | pkg/connection/conn.go:109-146 | A successful post turns the acquired buffer into a tracked one and loses nothing |
| `SendLoopProofs.DisconnectedKeeps` | pkg/connection/conn.go:109-112 | A send on a connection that is not connected leaves its buffer neither free nor tracked |
| `SendLoopProofs.FlushKeeps` | pkg/message/aggregator.go:161-193 | After a flush the invariant holds; it fails for lack of a buffer if and only if messages wait and none is free, and then changes nothing |
| `SendLoopProofs.AggregateKeeps` | pkg/message/aggregator.go:113-150 | The invariant survives an aggregated send through all three triggers |
| `SendLoopProofs.ImmediateKeeps` | pkg/message/aggregator.go:87-110 | The invariant survives an immediate send, also when the message is too large and the buffer goes back |
| `SendLoopProofs.CompletionKeeps` | pkg/cq/dispatcher.go:97-111 | The invariant survives any completion: genuine, duplicate, unknown or out of order |
| `SendLoopProofs.ErrorKeeps` | pkg/cq/dispatcher.go:114-128 | An error completion of a tracked send keeps the accounts and loses exactly that send |
| `SendLoopProofs.PartitionCovers` | pkg/buffer/send_pool.go:47-66 | No buffer is missing: free, tracked and outstanding buffers are all the buffers |
| `SendLoopProofs.ReleasePartition` | pkg/cq/dispatcher.go:97-111 | Untracking and completing a WRID takes its buffer from the tracked ones to the end of the free list |
| `SendLoopProofs.AcquirePartition` | pkg/buffer/send_pool.go:47-55 | Acquiring takes the first free buffer out, to nobody else |
| `SendLoopProofs.TrackPartition` | pkg/cq/dispatcher.go:89-93 | A new WRID is never one already tracked |
| `SendLoop.Aggregator.Send` | pkg/message/aggregator.go:79-84 | In place: sends immediately unless aggregation is enabled and the pool is busy; the whole new state, and no byte of a tracked buffer changes |
| `SendLoop.Aggregator.ImmediateSend` | pkg/message/aggregator.go:87-110 | In place, against the value function whose order and accounts are proved; no byte of a tracked buffer changes |
| `SendLoop.Aggregator.AggregateSend` | pkg/message/aggregator.go:113-150 | In place, for messages of any size: overflow flush, append, threshold flush, idle flush |
| `SendLoop.Aggregator.FlushIfFull` | pkg/message/aggregator.go:117-126 | In place: the overflow trigger |
| `SendLoop.Aggregator.FlushIfDue` | pkg/message/aggregator.go:134-150 | In place: the threshold and idle triggers |
| `SendLoop.Aggregator.Flush` | pkg/message/aggregator.go:154-158 | In place: flush on request |
| `SendLoop.Aggregator.FlushLocked` | pkg/message/aggregator.go:161-193 | In place: empties pending, packs into the acquired buffer and posts, or puts the messages back |
| `SendLoop.Aggregator.PutBack` | pkg/message/aggregator.go:171-176 | The loop that recomputes the size of the messages put back |
| `SendLoop.Aggregator.PackAndSend` | pkg/message/aggregator.go:180-192 | In place: pack, count, post |
| `SendLoop.Aggregator.Pack` | pkg/message/aggregator.go:180-181 | The buffer holds the packed batch as far as it fits, and the posted bytes of every tracked buffer are intact |
| `SendLoop.Aggregator.OthersUntouched` | pkg/buffer/pool.go:58-90 | No tracked buffer shares memory with a free one |
| `SendLoop.Aggregator.OnSendComplete` | pkg/message/aggregator.go:197-206 | In place: counts down and flushes what waits when the count reaches zero |
| `SendLoop.Aggregator.Stats` | pkg/message/aggregator.go:209-221 | Reports the counters and what is pending |
| `SendLoop.Aggregator.constructor` | pkg/message/aggregator.go:49-68 | Defaults of 12288 and 9216 for sizes that are not positive; nothing pending |
| `SendLoop.SendCompletionHandler.TrackSend` | pkg/cq/dispatcher.go:89-93 | Records the buffer under its WRID |
| `SendLoop.SendCompletionHandler.ReleaseTracked` | pkg/cq/dispatcher.go:98-107 | A tracked WRID is removed and its buffer goes back to the pool; an unknown one changes nothing |
| `SendLoop.SendCompletionHandler.OnCompletion` | pkg/cq/dispatcher.go:97-111 | In place: gives the buffer back first and then tells the aggregator, if there is a callback; the whole loop's new state |
| `SendLoop.SendCompletionHandler.OnError` | pkg/cq/dispatcher.go:114-128 | Gives the buffer back and does not tell the aggregator |
| `SendLoop.SendCompletionHandler.OnErrorCompletion` | pkg/cq/dispatcher.go:114-128 | The same as a step of the whole loop: every invariant survives, and the send counts as lost |
| `SendLoop.SendCompletionHandler.InFlight` | pkg/cq/dispatcher.go:131-136 | The number of tracked WRIDs |
| `SendLoop.Conn.Send` | pkg/connection/conn.go:109-146 | Fails before tracking unless connected; tracks before posting; a rejected post is untracked and its buffer freed |
| `SendLoop.Connect` | pkg/message/aggregator.go:49-68 | A loop wired over a fully built pool starts in the state all run theorems start from |
| `EndToEnd.Delivered` | pkg/connection/conn.go:272-328 | From `Aggregator.Send` to the receive channel, over every clean run of the aggregated path with messages that fit the buffers of both sides, and every interleaving of arrivals and reads: the receiver sees a prefix of the accepted messages in order; once drained and arrived, all of them. A batch arrives only in a posted buffer it fits; every batch fits; arrivals and posted buffers together are at most the receive pool |
| `EndToEnd.ArrivalsBounded` | pkg/connection/conn.go:272-328 | Free and posted receive buffers and batches arrived add up to the receive pool |
| `EndToEnd.EmptyMessageRun` | pkg/connection/conn.go:297-307 | Concrete run: an empty message is sent and posted, unpacks to itself, and nothing of it can be delivered |
| `EndToEnd.InOrderDelivery` | pkg/connection/conn.go:297-318 | With room in the channel, messages read and queued are those of the arrived batches in order |
| `EndToEnd.ReceivedIsContents` | pkg/connection/conn.go:290-297 | The completion handler receives what the attempt carries |
| `EndToEnd.NothingDroppedIff` | pkg/connection/conn.go:222-228 | A batch of non-empty messages loses nothing if and only if the channel has room for all of it |
| `AggregatorRace.NoStrandedBatch` | pkg/message/aggregator.go:113-206 | Under every interleaving of any number of goroutines: whenever the lock is free and messages are pending, a send is counted, or a completion saw zero and waits for the lock, or an immediate send that fits is about to be counted |
| `AggregatorRace.NoStrandedBatchWithBuffers` | pkg/message/aggregator.go:113-206 | Under every interleaving in which no flush finds the pool exhausted, oversize sends or not: whenever the lock is free and messages are pending, a send is counted or a completion saw zero and waits for the lock |
| `AggregatorRace.StrandsIff` | pkg/message/aggregator.go:142-206 | A step strands a batch if and only if it is a flush that asks for a buffer while senders of oversize messages hold all of them, nothing is counted and nobody waits to flush |
| `AggregatorRace.FittingNeverStarves` | pkg/message/aggregator.go:93-97 | If no oversize immediate send is ever started, that event never happens |
| `AggregatorRace.OversizeStrands` | pkg/message/aggregator.go:87-97 | Concrete schedule: an oversize immediate send holds the only buffer just when the idle flush asks for it, and the batch is left with everything at rest |
| `AggregatorRace.AtRest` | pkg/message/aggregator.go:161-206 | When all goroutines are idle and all sends completed, nothing is pending, every buffer is back and the batches are the accepted messages in order |
| `AggregatorRace.EventualDelivery` | pkg/message/aggregator.go:161-206 | Any run followed by any schedule without new sends: its effective steps are at most the work there was, some step is effective until everything is at rest, and at rest nothing is pending, every buffer is back and every accepted message was posted in order |
| `AggregatorRace.StepWorks` | pkg/message/aggregator.go:113-206 | Without new sends, every step that has an effect lowers the work left |
| `AggregatorRace.SomeoneCanMove` | pkg/message/aggregator.go:113-206 | Until everything is at rest some goroutine can move: there is no deadlock |
| `AggregatorRace.Interleavings` | pkg/message/aggregator.go:87-206 | Under every interleaving: mutual exclusion, every buffer and every counted send is in exactly one place, and posted batches, the batch in hand and the pending messages are the accepted messages in order |
| `RaceBatches.BatchesKeepToBuffer` | pkg/message/aggregator.go:117-126 | Over every schedule: each batch of more than one message, posted, in hand or pending, takes at most `bufferSize` bytes |
| `RaceBatches.PendingWithinThreshold` | pkg/message/aggregator.go:134-140 | Over every schedule in which flushes find buffers: whenever the lock is free, what is pending is within the threshold |
| `RaceRefinement.AggregateAlone` | pkg/message/aggregator.go:113-150 | A goroutine that runs alone through `aggregateSend` leaves pending messages, count, buffers and batches as the sequential model does, each flush trigger included, and accepts the message exactly when that does |
| `RaceRefinement.FlushAlone` | pkg/message/aggregator.go:154-193 | The same for `Flush`: it takes whatever is pending |
| `RaceRefinement.CompletionAlone` | pkg/message/aggregator.go:197-206 | The same for a completion and its idle flush |
| `RaceRefinement.ImmediateAlone` | pkg/message/aggregator.go:87-110 | The same for an immediate send |
| `RaceRefinement.IdleIsFinal` | pkg/message/aggregator.go:79-206 | Where a goroutine that runs alone ends is determined |
| `AggregatorRace.StepKeepsComing` | pkg/message/aggregator.go:197-206 | Nobody but the goroutine that takes the lock to flush stops a flush from coming |
| `AggregatorRace.ExhaustedMeansComing` | pkg/message/aggregator.go:170-178 | If a flush finds no buffer, one of those who have them will cause a flush, unless all are held in vain |
| `AggregatorRace.StepExcludes` | pkg/message/aggregator.go:114-149 | Every step keeps at most one goroutine inside the lock |
| `AggregatorRace.StepAccounts` | pkg/buffer/send_pool.go:47-66 | Every step keeps every buffer, and every counted send, in one place |
| `WireTheorems.RoundTrip` | pkg/message/wire.go:69-128 | For every list of messages with 32-bit lengths, unpacking the packed batch gives the list back, whatever follows it in the buffer |
| `WireTheorems.Truncation` | pkg/message/wire.go:69-128 | For every length up to the packed size, unpacking succeeds if and only if the cut is a message boundary at or after the command header, and then yields exactly the messages before it; every other cut is an invalid batch |
| `WireTheorems.ClippedUnpacks` | pkg/message/wire.go:79-84 | A batch cut off at the end of a buffer unpacks to its messages if and only if it was not cut, otherwise to fewer or none |
| `WireTheorems.HeaderBytes` | pkg/message/wire.go:35-40 | The command header byte by byte: 0, 0, 0, 230 and eight zeros |
| `WireTheorems.MessageBytes` | pkg/message/wire.go:51-64 | Where each message of a batch sits: the packing time and the length most significant byte first, the payload after them; the timestamp field reads back as the packing time |
| `WireTheorems.UnpacksIffBatch` | pkg/message/wire.go:92-128 | All of some bytes unpack to a list of messages if and only if they are a batch of it by the grammar |
| `WireTheorems.PackedIsBatch` | pkg/message/wire.go:69-87 | What the packer writes is a batch of its messages and of no others |
| `WireTheorems.ParserExact` | pkg/message/wire.go:92-128 | On arbitrary bytes: the parser accepts exactly the inputs of an independently stated grammar, and reports an unknown command exactly for a whole header of another type |
| `WireTheorems.ParseIsGrammar` | pkg/message/wire.go:106-127 | The framed part parses to a list of messages if and only if it is framed as that list |
| `WireTheorems.Repack` | pkg/message/wire.go:92-143 | On success the length is the batch size of the result, and packing again reproduces the input except for reserved and timestamp bytes |
| `WireTheorems.GrammarFixesBytes` | pkg/message/wire.go:51-64 | Messages determine every byte of the framed part but the timestamps |
| `WireTheorems.ParseFrames` | pkg/message/wire.go:106-127 | Framed messages followed by anything: the parser takes them off and goes on with the rest |
| `WireTheorems.ParseTruncatedFrames` | pkg/message/wire.go:106-127 | Truncation of the framed part |
| `Wire.PackBatch` | pkg/message/wire.go:69-87 | In place: returns the batch size, writes the packed batch as far as it fits the buffer and leaves every later byte unchanged |
| `Wire.CopyClipped` | pkg/message/wire.go:79-84 | `copy`: what does not fit the rest of the buffer is cut off |
| `Wire.PackSingle` | pkg/message/wire.go:132-134 | The batch of one message, in place, as far as it fits |
| `Wire.UnpackBatch` | pkg/message/wire.go:92-128 | The parser loop recovers what the format says, for every length; no byte outside the length is read |
| `Wire.BatchSize` | pkg/message/wire.go:137-143 | Returns the length of the packed batch |
| `Wire.EncodeCmdHeader` | pkg/message/wire.go:35-40 | Twelve bytes in place, nothing else |
| `Wire.EncodeAppHeader` | pkg/message/wire.go:51-54 | Twelve bytes in place, nothing else |
| `Wire.DecodeCmdHeader` | pkg/message/wire.go:43-48 | Too short is an invalid batch; otherwise the big-endian command type |
| `Wire.DecodeAppHeader` | pkg/message/wire.go:57-64 | Too short is an invalid batch; otherwise timestamp and size |
| `Wire.PutBigEndian` | pkg/message/wire.go:35-54 | A big-endian store in place |
| `Wire.BigEndianDecodes` | pkg/message/wire.go:35-64 | Reading back what was stored, for values that fit the width |
| `Wire.BigEndianEncodes` | pkg/message/wire.go:35-64 | Storing again what was read, for every byte string |
| `Wire.FramesConcat` | pkg/message/wire.go:74-86 | Framing distributes over concatenation of message lists |
| `BufferPool.Pool.NewPool` | pkg/buffer/pool.go:45-98 | A failed allocation or registration at any iteration leaves exactly the allocations made freed and exactly the registrations made deregistered; each address and region exactly once; success leaves every buffer free, distinct and registered; it fails if and only if the sizes are not positive or the device failed, with the error of the call that failed |
| `BufferPool.Pool.BuildAll` | pkg/buffer/pool.go:58-95 | The construction loop with its failure exits |
| `BufferPool.Pool.Grow` | pkg/buffer/pool.go:58-90 | One iteration: on a failed registration only the memory just allocated is freed |
| `BufferPool.Pool.Cleanup` | pkg/buffer/pool.go:177-191 | Frees and deregisters everything built so far, each once |
| `BufferPool.Pool.ReleaseAll` | pkg/buffer/pool.go:152-173 | The release loop: each buffer freed and deregistered in turn, also after a failed deregistration, which is reported |
| `BufferPool.Pool.Close` | pkg/buffer/pool.go:144-174 | Whatever part of the buffers is in flight, closing frees and deregisters each exactly once, and reports an error if and only if a deregistration failed; a second close changes nothing |
| `BufferPool.Pool.Alloc` | pkg/buffer/pool.go:102-116 | First free buffer, or closed, too large, exhausted, in that order |
| `BufferPool.Pool.Free` | pkg/buffer/pool.go:119-128 | Appends to the free list unless it is full or the pool is closed |
| `BufferPool.FreedExactlyOnce` | pkg/buffer/pool.go:177-191 | Each allocation of a failed construction occurs exactly once among the frees |
| `BufferPool.AppendedOnce` | pkg/buffer/pool.go:144-174 | An address released once and not before occurs exactly once in the ledger |
| `BufferPool.SendPool.AcquireForSend` | pkg/buffer/send_pool.go:47-55 | Takes the first free buffer and marks it in flight; fails without effect |
| `BufferPool.SendPool.CompleteSend` | pkg/buffer/send_pool.go:58-66 | Unmarks the buffer, counts down only if it was marked, and frees it |
| `BufferPool.SendPool.IsBusy` | pkg/buffer/send_pool.go:70-77 | Busy if and only if some send is in flight and at least half the buffers, rounded down, are |
| `Receive.RecvConn.OnCompletion` | pkg/connection/conn.go:272-318 | Of the bytes that arrived in the tracked buffer: if they are a batch, by the grammar, its messages are delivered in order as far as the channel has room, and at its first empty message the call panics with those before it delivered; if they are not, nothing is. After a panic the buffer is consumed and none posted; otherwise one is posted |
| `Receive.PackedDelivers` | pkg/connection/conn.go:290-315 | A packed batch of non-empty messages is delivered as its longest prefix that fits, and whole if there is room |
| `Receive.FirstEmpty` | pkg/connection/conn.go:297-307 | Delivery stops at the first empty message |
| `Receive.OfferAllIsPrefix` | pkg/connection/conn.go:222-228 | Exactly the longest prefix that fits the channel's 128 entries is delivered |
| `Receive.BeforeEmptyIsPrefix` | pkg/connection/conn.go:297-307 | Delivery reaches the whole batch if and only if no message is empty |
| `Receive.RecvConn.DeliverRecv` | pkg/connection/conn.go:222-228 | Appends if there is room, drops otherwise |
| `Receive.RecvConn.DeliverBatch` | pkg/connection/conn.go:297-315 | The delivery loop; panics if and only if the batch has an empty message |
| `Receive.RecvConn.PostRecvBuffers` | pkg/connection/conn.go:233-267 | Allocates, tracks and posts one by one; a rejected post is untracked and freed |
| `Receive.PostManyConserves` | pkg/connection/conn.go:233-267 | Posting neither loses nor duplicates a buffer, rejected posts included |
| `Receive.PostManySucceedsIff` | pkg/connection/conn.go:233-267 | Posting succeeds if and only if enough buffers are free and no post is rejected |
| `Receive.PipelineFullIff` | pkg/connection/conn.go:325-328 | After k messages in tracked buffers, min(posted - rejected, all - k) buffers are posted, where posted is what was posted at the start and rejected the replenishing posts that failed: as many as at the start if and only if none failed and the pool has k more than were posted then |
| `Receive.PipelineLevel` | pkg/connection/conn.go:233-318 | The number of tracked buffers after every run; empty and unknown completions and rejected posts included |
| `Receive.RejectedRepost` | pkg/connection/conn.go:325-328 | Concrete run: a rejected replenishing post leaves nothing posted although a buffer is free |
| `Receive.PipelineShrinks` | pkg/connection/conn.go:325-328 | Concrete run: with every buffer posted, the first message leaves one fewer |
| `Receive.RecvConn.EmptyMessagePanics` | pkg/connection/conn.go:297-307 | Concrete case: a batch of one empty message in a tracked buffer is unpacked, and none of it can be delivered |
| `Receive.Starvation` | pkg/connection/conn.go:272-328 | Over every run a receive buffer is free, tracked or consumed, and a consumed one never returns: non-empty completions of tracked buffers number at most the pool's buffers, and after that many no completion changes anything |
| `EventWaiter.NoLostCompletion` | pkg/cq/poller.go:445-481 | Over every interleaving with the device: completions are dispatched exactly once and in order; a parked waiter is armed or has an event; with successful polls it never sleeps on waiting completions; acknowledged events are those read |
| `EventWaiter.BecomesStuckIff` | pkg/cq/poller.go:456-468 | A waiter goes to sleep on waiting completions if and only if a poll fails in the drain after arming while completions are there and no event is pending |
| `SmartWaiter.BecomesStuckIff` | pkg/cq/poller.go:513-526 | The same for the single poll after arming |
| `EventWaiter.StuckIff` | pkg/cq/poller.go:445-481 | With failing polls too: a parked waiter sleeps on waiting completions if and only if no event is pending and the poll that ended the drain left completions behind |
| `EventWaiter.FailedPollSticks` | pkg/cq/poller.go:344-349 | Concrete run: one failed poll after arming is enough, and the next completion ends it |
| `EventWaiter.StepKeeps` | pkg/cq/poller.go:445-481 | Every step of waiter or device keeps the invariant |
| `EventWaiterProgress.Progress` | pkg/cq/poller.go:445-481 | After any run, with the device quiet: the effective turns are bounded by a measure; until the waiter is parked with no event, some turn is effective, so an event wakes it; and there everything added was dispatched if and only if the poll before parking left nothing, which holds when no poll fails |
| `EventWaiterProgress.EveryTurnCounts` | pkg/cq/poller.go:445-481 | Until then every turn with a possible poll has an effect |
| `EventWaiterProgress.DrainsEmpty` | pkg/cq/poller.go:461-479 | The waiter goes on to arm or to park only when nothing is left to take or a poll failed |
| `SmartWaiter.NoLostCompletion` | pkg/cq/poller.go:486-536 | The same with a single poll after arming and with stale events; parks only after more than SpinCount empty polls since the last non-empty one or wake; at the loop head acknowledged events equal reads |
| `SmartWaiter.StepKeeps` | pkg/cq/poller.go:486-536 | Every step of waiter or device keeps the invariant |
| `SmartWaiterProgress.Progress` | pkg/cq/poller.go:486-536 | The same progress in smart mode |
| `SmartWaiterProgress.SpinsThenArms` | pkg/cq/poller.go:498-514 | Polls in a row that find nothing keep the goroutine busy-polling while they are fewer than SpinCount and lead to arming as soon as they are that many |
| `SmartWaiterProgress.FindingResets` | pkg/cq/poller.go:498-535 | A poll that finds something starts the count again; after a wake the goroutine spins again only when nothing is left to take or a poll failed |
| `EventWaiterLoop.Waiter.EventWaiterLoop` | pkg/cq/poller.go:445-481 | The loop itself goes through exactly the states of the step system, for every schedule of device and goroutine |
| `SmartWaiterLoop.Waiter.SmartWaiterLoop` | pkg/cq/poller.go:486-536 | The loop itself goes through exactly the states of the step system, for every schedule of device and goroutine |
| `EventWaiterLoop.Waiter.Drain` | pkg/cq/poller.go:461-463 | Polls until a poll finds nothing |
| `SmartWaiterLoop.Waiter.BusyPoll` | pkg/cq/poller.go:498-511 | Polls until SpinCount polls in a row found nothing |
| `CompletionQueue.Dispatcher.PollSingleCQ` | pkg/cq/poller.go:338-364 | Index by index, a successful completion goes to the completion entry and any other to the error entry, in order, and each is counted; a failed poll is reported and counts as empty |
| `CompletionQueue.PollExact` | pkg/cq/poller.go:338-364 | A poll keeps dispatch an exactly-once, in-order prefix |
| `CompletionQueue.SuccessesAreThose` | pkg/cq/poller.go:352-361 | The completions counted are exactly the successful ones |
| `EchoProtocol.EchoSafety` | cmd/golinker-bench/server.go:139-165 | For every interleaving of client, server and device: no message meets an empty receive queue, and each completed round received exactly the bytes sent |
| `EchoProtocol.EchoReturnsPayload` | cmd/golinker-bench/client.go:282-308 | For every interleaving, each completed round returned the payload given to the call that began it, or, of one longer than the buffer, its first bytes up to the buffer size |
| `EchoProtocol.SentIsGiven` | internal/rdma/pingpong.go:121-131 | What is sent is what the calls of `Send` were given, or as much of it as fits the buffer |
| `EchoProtocol.RepostIsSafe` | internal/rdma/pingpong.go:210-237 | Between the server's early re-post and the end of its copy, no step of anyone changes its receive buffer, which holds the client's payload |
| `EchoProtocol.CopyOutIsSafe` | internal/rdma/pingpong.go:142-170 | Between the client's poll and its copy nothing can land in its receive buffer |
| `EchoProtocol.RunKeeps` | cmd/golinker-bench/client.go:282-308 | In every reachable state the one message of the round is in exactly one place and is the client's payload |
| `EchoProtocol.StepKeeps` | internal/rdma/pingpong.go:121-237 | Every step keeps that invariant |
| `EchoProtocol.SomeoneCanMove` | cmd/golinker-bench/server.go:139-165 | The protocol never deadlocks |
| `EchoProtocol.FifteenSteps` | cmd/golinker-bench/client.go:282-308 | Effective steps and remaining work add up to fifteen per round begun, whatever the schedule: every round ends |
| `EchoProtocol.StepProgress` | internal/rdma/pingpong.go:121-237 | Every step that has an effect brings the round one nearer to its end |
| `PingPong.PingPongConn.CopyAndPost` | internal/rdma/pingpong.go:121-137 | Copies at most the buffer size in place and posts that length, unless the post is rejected |
| `PingPong.PingPongConn.PostRaw` | internal/rdma/pingpong.go:175-187 | Posts at most the buffer size, no copy, unless the post is rejected |
| `PingPong.PingPongConn.PollSend` | internal/rdma/pingpong.go:190-205 | One poll of the send queue |
| `PingPong.PingPongConn.PollRecv` | internal/rdma/pingpong.go:142-155 | One poll of the receive queue |
| `PingPong.PingPongConn.CopyOut` | internal/rdma/pingpong.go:156-163 | Copies the message out, clipped to the destination, changing nothing else |
| `PingPong.PingPongConn.CopyRecvToSend` | internal/rdma/pingpong.go:232-237 | Copies between the two buffers in place, clipped to their size |
| `PingPong.PingPongConn.PostRecv` | internal/rdma/pingpong.go:110-116 | One more receive posted, unless the post is rejected |
| `PingPong.PingPongConn.constructor` | internal/rdma/pingpong.go:48-106 | Zeroed buffers and one receive posted |
| `RateLimiter.WindowBound` | cmd/golinker-bench/ratelimit/limiter.go:32-81 | For every two calls of a run, the grants from the first to the second, inclusive, are at most the burst plus the rate times the time between |
| `RateLimiter.ConstructedLimiter` | cmd/golinker-bench/ratelimit/limiter.go:19-81 | A constructed limiter grants the first max(1, burst) calls however fast they come, and in every window at most that many plus the rate times its length |
| `RateLimiter.GrantedIffWithinEveryWindow` | cmd/golinker-bench/ratelimit/limiter.go:32-81 | A call is granted if and only if, with it, every window that ends there respects that bound: the limiter is never stricter than it must be |
| `RateLimiter.AvailableIsLeastAllowance` | cmd/golinker-bench/ratelimit/limiter.go:32-81 | The tokens at a call are exactly the least allowance over all windows that end there |
| `RateLimiter.TokensInRange` | cmd/golinker-bench/ratelimit/limiter.go:36-50 | Tokens stay between zero and the burst |
| `RateLimiter.NeverNegativeIff` | cmd/golinker-bench/ratelimit/limiter.go:19-29 | Over every run of calls the tokens stay non-negative if and only if the rate given to the constructor is not negative, which it does not check |
| `RateLimiter.NegativeRun` | cmd/golinker-bench/ratelimit/limiter.go:19-29 | Concrete run: rate -1 and burst 1 leave minus two tokens after three seconds |
| `RateLimiter.SleepIsExact` | cmd/golinker-bench/ratelimit/limiter.go:52-55 | The sleep computed by `Wait` is exactly the time to the next token |
| `RateLimiter.Limiter.TryWait` | cmd/golinker-bench/ratelimit/limiter.go:61-81 | In place: one attempt; rate zero always grants and changes nothing |
| `RateLimiter.Limiter.Wait` | cmd/golinker-bench/ratelimit/limiter.go:32-57 | In place: attempts at successive clock readings, all refused but the last |
| `RateLimiter.Limiter.constructor` | cmd/golinker-bench/ratelimit/limiter.go:19-29 | A full bucket; a burst that is not positive becomes one |
| `CqPool.Balance` | pkg/cq/pool.go:61-96 | From a fresh pool of k pollers, after n rounds of assign and register the first n mod k pollers have one queue more than the floor of n/k, the others exactly that |
| `CqPool.RoundsLevel` | pkg/cq/pool.go:61-96 | Levels fill up poller by poller |
| `CqPool.AgreementKeptIff` | pkg/cq/pool.go:61-116 | The index names the poller of every registered queue after an operation if and only if the operation is not the late registration of a queue already released |
| `CqPool.ReleaseForgets` | pkg/cq/pool.go:99-116 | A released queue is forgotten by the index and every poller, and nothing else changes |
| `CqPool.LateAddRun` | pkg/cq/pool.go:99-116 | Concrete run: assigned, released, then registered, a queue is registered without being in the index |
| `CqPool.Agreement` | pkg/cq/pool.go:61-116 | Over every run without such a late registration, each registered queue is registered with exactly the poller the index names |
| `CqPool.LeastLoaded` | pkg/cq/pool.go:69-78 | The first poller with the fewest queues |
| `CqPool.PollerPool.Assign` | pkg/cq/pool.go:61-96 | In place: the search loop finds that poller and the index records it; fails without effect when closed or when no queue can be created |
| `CqPool.PollerPool.Release` | pkg/cq/pool.go:99-116 | In place: removes the queue from the index and from the poller it names, registered or not; an unknown queue changes nothing |
| `CqPool.Poller.AddCQ` | pkg/cq/poller.go:101-124 | Registers a queue once |
| `CqPool.Poller.RemoveCQ` | pkg/cq/poller.go:127-149 | Unregisters a queue, or reports it unknown |
| `CqPool.Poller.NumCQs` | pkg/cq/poller.go:193-197 | The number of registered queues |

## Left out

- SendLoop.Connect: requires that a pool buffer holds what the aggregator batches and at least two headers; with smaller buffers the code panics when it packs.
- SendLoopTheorems.OversizeRun: what lies beyond the end of a buffer is not modelled, so a send longer than its buffer carries only the bytes inside it.
- RateLimiter.Limiter.Wait: the clock readings are inputs, so a wait ends when they do; floats are reals and the sleep is not truncated to nanoseconds.
- EventWaiterLoop.Waiter.EventWaiterLoop: arming and reading do not fail, and cancellation is the end of the schedule; the statistics it counts are not modelled.
- SmartWaiterLoop.Waiter.SmartWaiterLoop: as for the event loop.
- BufferPool.Pool.Alloc: an empty pool fails at once; waiting up to the allocation timeout is not modelled.
- RateLimiter.SleepIsExact: the sleep is not truncated to whole nanoseconds.
- CqPool.Poller.AddCQ: nil arguments and starting the queue's waiter are not modelled.
- CqPool.Poller.RemoveCQ: nil arguments and stopping the queue's waiter are not modelled.
- PingPong.PingPongConn.constructor: failing allocation, registration or first post is not modelled.
- PingPong.PingPongConn.PollRecv: as for `PollSend`.
- PingPong.PingPongConn.PollSend: the polling loops around single polls are the waiting states of `EchoProtocol`, because the other party moves in between; polls do not fail there.
- CqPool.PollerPool.Assign: creating a queue yields one not seen before; the index names pollers by their position.
- Receive.RecvConn.OnCompletion: immediate data and the error callback, which does nothing, are not modelled.
- AggregatorRace.StrandsIff: posts and completions succeed, as in `NoStrandedBatch`; what a lost send does is stated at call granularity by `SendLoopLiveness.StrandedIff`.
- AggregatorRace.NoStrandedBatch: posts and completions succeed; lost sends are covered at call granularity.
- Integer widths: WRIDs, counters and sizes are unbounded, except that the wire format cuts to its field widths.
- Several connections on one send queue: WRIDs are per connection, so one connection per send queue is modelled.
- Addresses handed out again by the allocator after a free.
- Closing a pool or a connection while it is in use, allocation timeouts, and releasing buffers of in-flight sends on close of the connection.
- Foreign verbs and connection-manager calls (internal/rdma/cm.go, real_cm.go, real_verbs.go, listener.go, dial.go, hotpath.c): post, poll and notify are abstract steps of a reliable, in-order device.
- pkg/connection/manager.go and cm_events.go: connection lifecycle bookkeeping.
- The legacy event channel of pkg/cq/poller.go:265-304 and the busy and event poll loops over all queues, file descriptors, poller start and close.
- pkg/message/immediate.go and pkg/buffer/recv_pool.go: thin variants of what is modelled.
- The sink loop, servers, configuration, mocks, command lines, reporting and metrics: input and output, or easy facts.
