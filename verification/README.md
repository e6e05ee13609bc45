# Verified models of the Openland server's state machines

This project models, in Dafny, the parts of the Openland server whose guarantees rest on
invariants over many steps, and proves those guarantees for all inputs, runs and
interleavings. `dafny verify dfyconfig.toml` checks all of it.

| files | what they model |
|---|---|
| `AllocatorStore`, `HighContentionAllocator`, `AllocatorRuns`, `AllocatorWindows`, `AllocatorMarks` | the high-contention id allocator: one `allocate` call against a transaction, then all interleavings of optimistic transactions over one store |
| `RemoteTransport`, `TransportProtocol`, `TransportHistory` | the ordered message stream: one endpoint, then two of them over a network that drops, duplicates and reorders, and those runs told from their steps |
| `Wire`, `Structs`, `StructsBytes`, `StructsCode` | the protobuf encoders and decoders: wire format, a table-driven meaning for all ten messages, their bytes by literal tags, and the generated loops of six of them proved against it |
| `BusListeners`, `NatsBusEngine`, `BusHistory`, `LocalBusEngine`, `BusDelivery` | the publish-subscribe engines, the asynchronous life of broker subscriptions, and delivery to listeners that cancel while they are run |
| `CachedSubspace` | the per-transaction write-back cache against a plain map |
| `ExpiringMaps`, `DistributedCollector`, `SummaryResolve`, `SummaryCollectors`, `Quantiles` | the metric collectors, tagged and untagged, and their quantiles |
| `EntityCounter`, `EventPaging`, `FrequencyGauge` | the restartable counter, cursor paging, and the sliding-window frequency gauge |

Each stateful class carries out the source's statements step by step. Its methods equate
the new state with a function of the old one (`Model()` is the abstract value), and the
properties are lemmas about those functions and about runs of them.

## How the surroundings are modelled

- FoundationDB: a transaction has a snapshot, its own mutations laid over it, the keys it
  read with conflicts and the keys it declared as written. It commits iff none of the
  former was declared written since its snapshot; its mutations are then replayed on the
  store as it is at that moment. The counter worker's transactions are serializable, and
  the rows it counts do not change.
- NATS: every published packet may arrive at any time, any number of times or never; a
  broker subscription is taken up and reported back at two later moments of its own.
- `Math.random`, clocks and timers are parameters: a draw is any real in [0, 1), a timer
  fires at any moment after it was started, a gauge's clock readings are given.
- Message bodies are numbers, 0 standing for the falsy ones; a peer id is a non-empty
  string. Row and event keys are numbers in key order. Floats are exact integers or
  ratios. Map iteration order is left open wherever a loop runs over a map.
- protobufjs readers and writers follow the Protocol Buffers "Encoding" guide, sections
  "Base 128 Varints", "Packed Repeated Fields" and "Last One Wins".
- Range reads continue strictly after `after` in the direction that is read.

## What turned out not to hold

- The retry of the transport (RemoteTransport.ts:121) asks for `receivedSeq + 1`. In every
  run this is a number other than that of the message the receiver is waiting for
  (`RetryNeverNamesTheGap`, `RetryMissesALostMessage`). A retry is pending whenever a
  delivered message waits for an earlier one (`WaitingMessageHasRetry`), but also when
  nothing is missing: each message that comes in order leaves one that asks for this very
  message (`InOrderStillAsks`).
- A message with a falsy body is held by its sender for good: no ack removes it and no nack
  resends it (`FalsyIsHeldForGood`).
- The guard at HighContentionAllocator.ts:76 compares what is left of a tuple key with a
  number. That is an empty array, which compares as 0, so the guard never fires. The model
  lets an attempt be abandoned there or not: uniqueness and the chain of windows hold
  either way, and so does the bound of marks by their counter until it wraps; the exact
  count holds for attempts that are not abandoned, as the code has it.
- The cache writes falsy values other than null as deletes. For any codec,
  `FlushAgreesIffWritesSurvive` says exactly when the write-back agrees with direct access.
  The recent-items collection (RecentCollection.ts:20) packs numbers big-endian and unpacks
  them little-endian, so with it hardly any number does (`RecentWriteAgreesIff`).
- The counter worker moves its cursor inside the body of its second transaction
  (findEntitiesCount.ts:54). If the body runs again after a failed commit although the
  counter was not written meanwhile, a batch is skipped (`RetriedBodySkipsABatch`).
  `CountIsExactIffSafe` gives the exact condition over all runs. Without any rows a stale
  count stays (`EmptyNeverStarts`).
- The broker engine iterates over the live array of listeners, so a listener that cancels
  its own handle when it is run makes the next one miss the message
  (`DeliveryIsCompleteIff`, `OneIsPassedOver`); the local engine copies the array first.

## Model

| member | source | states |
|---|---|---|
| AllocatorRuns.AllocationIsUnique | packages/openland-module-db/HighContentionAllocator.ts:24-88 | over every interleaving of transactions, no two committed calls return the same number, and no open transaction holds one twice |
| AllocatorRuns.CommittedStaySpent | packages/openland-module-db/HighContentionAllocator.ts:36-58 | a committed number stays marked in `recent` or lies below the newest counter key, although `recent` is cleared without conflicts |
| AllocatorRuns.StepKeepsInv | packages/openland-module-db/HighContentionAllocator.ts:24-88 | begin, attempt, commit and abort keep the invariant on store, commit history and open transactions that uniqueness rests on |
| AllocatorRuns.AcceptedIsProtected | packages/openland-module-db/HighContentionAllocator.ts:70-85 | a returned candidate was free in the view of its transaction and is covered by a read conflict on its key |
| AllocatorRuns.CommittedAreFresh | packages/openland-module-db/HighContentionAllocator.ts:70-85 | a transaction that passes the conflict check allocated nothing that anyone committed before it |
| AllocatorRuns.OthersAfterCommit | packages/openland-module-db/HighContentionAllocator.ts:36-86 | replaying a commit over a newer store than it was made on invalidates nothing that other open transactions rely on |
| AllocatorRuns.NewestNeverMovesBack | packages/openland-module-db/HighContentionAllocator.ts:26-58 | no commit, however stale its snapshot, moves the newest counter key back |
| AllocatorStore.AttemptReplay | packages/openland-module-db/HighContentionAllocator.ts:36-86 | the buffered mutations of an attempt have the same closed effect on whatever store they are replayed |
| AllocatorStore.FreshWindowIsNotCrowded | packages/openland-module-db/HighContentionAllocator.ts:35-58 | the window after the newest counter has a count of one and ends the opening loop: one advance is always enough |
| AllocatorStore.WindowsDisjoint | packages/openland-module-db/HighContentionAllocator.ts:51-57 | two windows of the chain 0, s + windowSize(s), … do not overlap |
| AllocatorStore.WindowsTile | packages/openland-module-db/HighContentionAllocator.ts:90-103 | every natural number lies in exactly one window of the chain |
| AllocatorStore.ChainIs | packages/openland-module-db/HighContentionAllocator.ts:90-103 | the windows start at multiples of 64 below 256, of 1024 from there to 65792, and of 8192 beyond |
| AllocatorStore.Newest | packages/openland-module-db/HighContentionAllocator.ts:26-32 | the reversed range read with limit 1: the greatest counter key, 0 without any |
| AllocatorWindows.WindowsStayOnChain | packages/openland-module-db/HighContentionAllocator.ts:26-58 | in every run all counter keys and all windows used, committed or not, start on the chain |
| AllocatorWindows.NewestCounterIsExact | packages/openland-module-db/HighContentionAllocator.ts:42-54 | while no attempt is abandoned the newest counter equals the number of marks in its window, these are exactly the numbers issued there, and none lies beyond the window |
| AllocatorWindows.ViewCounterIsExact | packages/openland-module-db/HighContentionAllocator.ts:42-54 | the same holds in what any open transaction sees |
| AllocatorMarks.MarksAreCounted | packages/openland-module-db/HighContentionAllocator.ts:42-86 | in every run, abandoned attempts or not, the marks of the newest window are at most its counter and no mark lies beyond it, until 64 bits no longer hold the number of attempts |
| AllocatorMarks.ViewMarksAreCounted | packages/openland-module-db/HighContentionAllocator.ts:42-86 | the same in what any open transaction sees |
| AllocatorMarks.CoveredStep | packages/openland-module-db/HighContentionAllocator.ts:36-86 | any legal attempt, replayed on any later store, keeps the marks counted and inside the window |
| AllocatorMarks.MoreThanHalfFree | packages/openland-module-db/HighContentionAllocator.ts:42-86 | whenever the search loop is entered, in a run without abandoned attempts or with fewer than 2^32 attempts, strictly more than half of the candidates are free and the 32-bit read of the counter does not wrap |
| AllocatorMarks.LeavesWhenHalfIssued | packages/openland-module-db/HighContentionAllocator.ts:35-58 | in runs without abandoned attempts a window is left for the next one iff it is half issued, this attempt included |
| HighContentionAllocator.OpenWindow | packages/openland-module-db/HighContentionAllocator.ts:26-58 | the opening loop picks the newest window or, iff that is half counted, the next one, with the counter and clear writes of that choice |
| HighContentionAllocator.Draw | packages/openland-module-db/HighContentionAllocator.ts:60-86 | one turn of the search: marks the candidate, and accepts it iff it was unmarked, adding its write conflict only then |
| HighContentionAllocator.Allocate | packages/openland-module-db/HighContentionAllocator.ts:24-88 | every draw is the candidate whose unit interval of the scaled random number it falls in; the first free one drawn is returned, with exactly the mutations and conflict keys of that attempt, and none only if every draw was taken |
| HighContentionAllocator.Offset | packages/openland-module-db/HighContentionAllocator.ts:65 | the offset is the whole part of random times window: it stays inside the window and every offset of it is reached |
| HighContentionAllocator.EveryFreeIsReached | packages/openland-module-db/HighContentionAllocator.ts:60-86 | for every free candidate of the opened window there is a random number with which a search returns it |
| HighContentionAllocator.KeysOfAttempt | packages/openland-module-db/HighContentionAllocator.ts:60-86 | an attempt adds a read conflict for every draw whose key its transaction had not written or cleared, and a write conflict for the number it returns |
| TransportProtocol.ExactlyOnceInOrder | packages/openland-module-pubsub/RemoteTransport.ts:63-105 | with packets dropped, duplicated and reordered at will, what a side emits is at every step exactly the first `receivedProcessedSeq + 1` bodies its peer sent, in both directions |
| TransportProtocol.NothingForgotten | packages/openland-module-pubsub/RemoteTransport.ts:88-99 | every sent number is still held by the sender or was emitted, and every ack in flight names an emitted message |
| TransportProtocol.NextMissingIsHeld | packages/openland-module-pubsub/RemoteTransport.ts:94-99 | the next missing message is still held; a nack naming it is answered with its body iff the body is truthy |
| TransportProtocol.FalsyIsHeldForGood | packages/openland-module-pubsub/RemoteTransport.ts:88-99 | in every run a sent falsy body is held for good: no ack removes it and no nack resends it |
| TransportProtocol.EmitsLongestArrivedPrefix | packages/openland-module-pubsub/RemoteTransport.ts:76-85 | once connected the emitted prefix is the longest gap-free prefix of what arrived, whenever `connect` happened; before that everything is buffered |
| TransportProtocol.RetryNeverNamesTheGap | packages/openland-module-pubsub/RemoteTransport.ts:116-143 | in every run a pending retry asks for a number other than the missing one |
| TransportProtocol.RetryMissesALostMessage | packages/openland-module-pubsub/RemoteTransport.ts:116-143 | a run in which message 0 of two is lost and the retry asks for 2 |
| TransportProtocol.RunKeepsInv | packages/openland-module-pubsub/RemoteTransport.ts:63-250 | every run keeps both endpoint invariants and both directions of the sender-receiver invariant |
| TransportProtocol.ActKeeps | packages/openland-module-pubsub/RemoteTransport.ts:63-250 | each handler, on any packet ever published, keeps the invariant of the endpoint and of both directions |
| TransportProtocol.FlushKeeps | packages/openland-module-pubsub/RemoteTransport.ts:175-181 | flushing emits a run that matches the sender's log and ends at a message that has not arrived |
| TransportHistory.StopIsTold | packages/openland-module-pubsub/RemoteTransport.ts:229-248 | a connected side that stops publishes one stop packet, its first, and has neither peer nor retry left |
| TransportHistory.StopStopsThePeer | packages/openland-module-pubsub/RemoteTransport.ts:100-104 | that packet, delivered to a peer that still runs, stops it; the peer sends none back, emits nothing more and has no retry pending |
| TransportHistory.EarlyStopIsSilent | packages/openland-module-pubsub/RemoteTransport.ts:229-248 | a side that stops before `connect` has published nothing, then or before |
| TransportHistory.StopSignalOnceIff | packages/openland-module-pubsub/RemoteTransport.ts:130-141 | in every run a side has published one stop packet if it was connected and stopped by its own call or by a failed retry, and none otherwise |
| TransportHistory.EveryPacketHasItsCause | packages/openland-module-pubsub/RemoteTransport.ts:63-250 | in every run the packets a step adds are told by its action, the numbers kept and the bodies emitted in it: a message per send, an ack per emission, a reply per answerable nack, a nack per fired retry, a stop |
| TransportHistory.MsgsAreTheLog | packages/openland-module-pubsub/RemoteTransport.ts:215-227 | the messages on the wire are the bodies passed to `send`, numbered from 0 in order, each once |
| TransportHistory.LogIsSends | packages/openland-module-pubsub/RemoteTransport.ts:215-227 | a side has sent the bodies of the sends made while it was connected, in order |
| TransportHistory.AcksAreTheEmitted | packages/openland-module-pubsub/RemoteTransport.ts:153-159 | the acks on the wire are those of the emitted messages, in order, each once |
| TransportHistory.ArrivedIs | packages/openland-module-pubsub/RemoteTransport.ts:70-85 | what has arrived is what was delivered by messages, and by replies that came before a stop |
| TransportHistory.HeldUnlessAcked | packages/openland-module-pubsub/RemoteTransport.ts:88-93 | a side holds exactly the sent numbers whose body is falsy or whose ack did not reach it |
| TransportHistory.StatusMoves | packages/openland-module-pubsub/RemoteTransport.ts:49-53 | the status moves from init over started and connected to stopped by these actions only, and never back |
| TransportHistory.SeenIsGreatestArrival | packages/openland-module-pubsub/RemoteTransport.ts:145-151 | the `receivedSeq` of a connected side is the greatest number of any message delivered to it, before or after `connect` |
| TransportHistory.RetryMoves | packages/openland-module-pubsub/RemoteTransport.ts:108-151 | in every run, how each step starts, replaces or calls off the retry, told by what was emitted and seen |
| TransportHistory.WaitingMessageHasRetry | packages/openland-module-pubsub/RemoteTransport.ts:116-151 | in every run, while a delivered message waits for an earlier one a retry is pending |
| TransportHistory.InOrderStillAsks | packages/openland-module-pubsub/RemoteTransport.ts:161-173 | a message that comes in order with nothing missing leaves a retry pending that asks for this message, already emitted and acked |
| RemoteTransport.RunEnd | packages/openland-module-pubsub/RemoteTransport.ts:175-181 | the end of the gap-free run of buffered numbers: every number up to it is there and the next is not |
| RemoteTransport.Transport.HandleMessage | packages/openland-module-pubsub/RemoteTransport.ts:161-173 | emits, acks and flushes on the expected number, buffers a later one once, ignores an earlier one |
| RemoteTransport.Transport.FlushIfNeeded | packages/openland-module-pubsub/RemoteTransport.ts:175-181 | the loop emits and acks the whole run of buffered messages, and terminates |
| RemoteTransport.Transport.StartRetryTimerIfNeeded | packages/openland-module-pubsub/RemoteTransport.ts:116-143 | starts a retry for `receivedSeq + 1` when none is set and something is unprocessed |
| RemoteTransport.Transport.OnReceivedSeq | packages/openland-module-pubsub/RemoteTransport.ts:145-151 | raises `receivedSeq` and starts the retry if something is unprocessed |
| RemoteTransport.Transport.ReceiveMsg | packages/openland-module-pubsub/RemoteTransport.ts:70-85 | drops negative numbers, handles when connected, buffers the first copy otherwise |
| RemoteTransport.Transport.ReceiveAck | packages/openland-module-pubsub/RemoteTransport.ts:88-93 | forgets an acked body if it is truthy |
| RemoteTransport.Transport.ReceiveNack | packages/openland-module-pubsub/RemoteTransport.ts:94-99 | republishes the body of a held, truthy message |
| RemoteTransport.Transport.ReceiveStop | packages/openland-module-pubsub/RemoteTransport.ts:100-104 | clears the remote id before stopping, so no stop packet goes back |
| RemoteTransport.Transport.ReceiveReply | packages/openland-module-pubsub/RemoteTransport.ts:125-129 | handles a reply unless stopped |
| RemoteTransport.Transport.FailRetry | packages/openland-module-pubsub/RemoteTransport.ts:130-141 | stops iff nothing newer arrived since the retry was set |
| RemoteTransport.Transport.ReplayReceivedSeqs | packages/openland-module-pubsub/RemoteTransport.ts:203-206 | after replaying the buffered numbers `receivedSeq` is their maximum |
| RemoteTransport.Transport.Connect | packages/openland-module-pubsub/RemoteTransport.ts:183-213 | fails unless started; flushes, then replays the numbers, then settles the retry timer |
| RemoteTransport.Transport.Send | packages/openland-module-pubsub/RemoteTransport.ts:215-227 | fails unless connected; numbers, keeps and publishes the body |
| RemoteTransport.Transport.Stop | packages/openland-module-pubsub/RemoteTransport.ts:229-254 | fails when stopped; tells a connected peer and drops the retry, as the stop step of the runs |
| Structs.RoundTrip | packages/openland-module-db/structs.js:103-187 | for every message type: decoding the encoding of a message, anywhere in a buffer, returns it and stops exactly at its end |
| Structs.ConcatenationMerges | packages/openland-module-db/structs.js:146-187 | two encodings one after the other decode to the merged message: last scalar wins, optionals stay, repeated fields append |
| Structs.StreamDecodes | packages/openland-module-db/structs.js:146-187 | any stream of fitting fields in any order decodes to what they mean in order, and fails exactly for the first required field that never came |
| Structs.GroupingDoesNotMatter | packages/openland-module-db/structs.js:161-171 | decoded from the bytes of any stream of fields, a repeated int32 field is the list of its numbers in order, packed, unpacked or mixed |
| Structs.LastOneWins | packages/openland-module-db/structs.js:151-160 | decoded from the bytes of any stream of fields, a number or flag has the last value that came for it, whatever comes around it |
| Structs.DecodedStreamIs | packages/openland-module-db/structs.js:150-187 | the decoder returns what the fields of a stream mean in order iff no required field is missing |
| Structs.MessagePuts | packages/openland-module-db/structs.js:103-120 | the fields `encode` writes, put into any message, merge the encoded message into it |
| Structs.FieldDecodes | packages/openland-module-db/structs.js:150-181 | the bytes of one field are consumed exactly and have the effect of that field on the message so far |
| StructsBytes.TreeNodeBytes | packages/openland-module-db/structs.js:103-187 | from its own fields, without the tables: the bytes written, tag by tag; their decoding; which required field an incomplete message fails for |
| StructsBytes.NodeChildrenBytes | packages/openland-module-db/structs.js:428-495 | the same for this message: bytes by literal tags, decoding, missing fields |
| StructsBytes.TreeHeadBytes | packages/openland-module-db/structs.js:664-718 | the same for this message: bytes by literal tags, decoding, missing fields |
| StructsBytes.CountersMessageRefBytes | packages/openland-module-db/structs.js:894-981 | the same for this message: bytes by literal tags, decoding, missing fields |
| StructsBytes.DirectCounterRefsBytes | packages/openland-module-db/structs.js:1170-1222 | the same for this message: bytes by literal tags, decoding; nothing is required |
| StructsBytes.DirectCounterRefBytes | packages/openland-module-db/structs.js:1404-1471 | the same for this message: bytes by literal tags, decoding, missing fields |
| StructsBytes.ConversationCountersStateBytes | packages/openland-module-db/structs.js:1632-1692 | the same for this message: bytes by literal tags, decoding; nothing is required |
| StructsBytes.UserCounterStateBytes | packages/openland-module-db/structs.js:1878-1950 | the same for this message: bytes by literal tags, decoding, missing fields |
| StructsBytes.UserSubscriptionStateBytes | packages/openland-module-db/structs.js:2136-2197 | the same for this message: bytes by literal tags, decoding, missing fields |
| StructsBytes.UserCounterAsyncSubscriptionsBytes | packages/openland-module-db/structs.js:2351-2403 | the same for this message: bytes by literal tags, decoding; nothing is required |
| StructsBytes.UnknownIsSkipped | packages/openland-module-db/structs.js:177-179 | a field with any number the message does not have is passed over wherever it comes, whatever its wire type |
| StructsBytes.NestedFailureFails | packages/openland-module-db/structs.js:172-176 | if a nested message does not decode, the outer one fails for the same reason |
| Wire.VarintReads | packages/openland-module-db/structs.js:107-121 | the base-128 varint of a number reads back as that number and ends where it ends |
| Wire.Int32Reads | packages/openland-module-db/structs.js:107-121 | every int32 reads back, negative ones through their ten-byte two's complement varint |
| Wire.Int32sRead | packages/openland-module-db/structs.js:110-115 | a packed payload of int32s reads back as the same list, up to its end |
| Wire.VarintIs | packages/openland-module-db/structs.js:107-121 | the bytes of a varint spell its number in base 128, least digit first, each but the last with the high bit, none superfluous |
| Wire.Int32BytesAre | packages/openland-module-db/structs.js:107-121 | an int32 is written as itself, a negative one as ten bytes of its 64-bit two's complement |
| Wire.BoolIsNotZero | packages/openland-module-db/structs.js:954-956 | a flag is read as true iff the low 32 bits of its varint are not all zero |
| StructsCode.ReadRepeated | packages/openland-module-db/structs.js:161-171 | the packed and unpacked arm of the decoder appends exactly what the field carries |
| StructsCode.WritePacked | packages/openland-module-db/structs.js:110-115 | a non-empty list is written as tag, length and varints |
| StructsCode.EncodeTreeNode | packages/openland-module-db/structs.js:103-121 | the encoder appends the encoding of the node, children behind their lengths |
| StructsCode.DecodeTreeNode | packages/openland-module-db/structs.js:146-187 | the decoder loop returns or fails exactly as `Decode` says, cursor included |
| StructsCode.EncodeNodeChildren | packages/openland-module-db/structs.js:428-436 | appends the encoding of the message |
| StructsCode.DecodeNodeChildren | packages/openland-module-db/structs.js:462-495 | returns or fails exactly as `Decode` says, cursor included |
| StructsCode.EncodeCountersMessageRef | packages/openland-module-db/structs.js:894-912 | appends the encoding of the message |
| StructsCode.DecodeCountersMessageRef | packages/openland-module-db/structs.js:938-981 | returns or fails exactly as `Decode` says, cursor included |
| StructsCode.EncodeDirectCounterRefs | packages/openland-module-db/structs.js:1170-1177 | appends the encoding of the message |
| StructsCode.DecodeDirectCounterRefs | packages/openland-module-db/structs.js:1203-1222 | returns or fails exactly as `Decode` says, cursor included |
| StructsCode.EncodeDirectCounterRef | packages/openland-module-db/structs.js:1404-1412 | appends the encoding of the message |
| StructsCode.DecodeDirectCounterRef | packages/openland-module-db/structs.js:1438-1471 | returns or fails exactly as `Decode` says, cursor included |
| StructsCode.EncodeUserCounterState | packages/openland-module-db/structs.js:1878-1889 | appends the encoding of the message |
| StructsCode.DecodeUserCounterState | packages/openland-module-db/structs.js:1915-1950 | returns or fails exactly as `Decode` says, cursor included |
| NatsBusEngine.MappedTopicsAreOpen | packages/openland-module-pubsub/NatsBusEngine.ts:46-118 | the topic map holds exactly the topics with an uncancelled handle |
| NatsBusEngine.DroppedRecordsDoNotLeak | packages/openland-module-pubsub/NatsBusEngine.ts:74-117 | a record outside the map has no listeners, and its broker subscription is gone or is given up when its pending call returns |
| NatsBusEngine.SettledMeansOnePerTopic | packages/openland-module-pubsub/NatsBusEngine.ts:74-118 | with nothing pending there is exactly one live broker subscription per mapped topic and no other |
| NatsBusEngine.DeliveredOncePerHandle | packages/openland-module-pubsub/NatsBusEngine.ts:75-86 | the array a message finds is empty or holds every open handle of its topic once, and no second broker subscription has one for the topic |
| BusHistory.HandlesAre | packages/openland-module-pubsub/NatsBusEngine.ts:46-64 | in every run the handles are those the subscribe calls gave out, each cancelled iff a cancel named it |
| BusHistory.ListenersAre | packages/openland-module-pubsub/NatsBusEngine.ts:66-118 | in every run the listeners of a topic are the receivers of its subscribes in order, each first cancel taking out the first entry of its receiver |
| BusHistory.DeliveredInOrder | packages/openland-module-pubsub/NatsBusEngine.ts:75-86 | the array a message finds is empty or is that list of its topic |
| NatsBusEngine.CancelNeverFails | packages/openland-module-pubsub/NatsBusEngine.ts:99-118 | no cancel in any run reaches the "inconsistency" or "double unsubscribe" throw |
| NatsBusEngine.StepKeepsInv | packages/openland-module-pubsub/NatsBusEngine.ts:46-118 | subscribe, broker acceptance, completion and cancel, in any order, keep the engine invariant |
| NatsBusEngine.Engine.Subscribe | packages/openland-module-pubsub/NatsBusEngine.ts:46-64 | shares the record of a mapped topic or makes one, and returns a new open handle |
| NatsBusEngine.Engine.CreateNewSubscription | packages/openland-module-pubsub/NatsBusEngine.ts:66-97 | answers with the record of a mapped topic, else maps a fresh record with one listener and requests its broker subscription |
| NatsBusEngine.Engine.SubscribeReturns | packages/openland-module-pubsub/NatsBusEngine.ts:88-93 | gives the broker subscription up iff the record was canceled meanwhile |
| NatsBusEngine.Engine.Cancel | packages/openland-module-pubsub/NatsBusEngine.ts:54-63 | does something only the first time, and then exactly what `Unsubscribe` does |
| NatsBusEngine.Engine.Unsubscribe | packages/openland-module-pubsub/NatsBusEngine.ts:99-118 | removes the first matching listener, and with the last one the record and its broker subscription |
| LocalBusEngine.Engine.Subscribe | packages/openland-module-pubsub/LocalBusEngine.ts:18-31 | appends the receiver to the topic's array and keeps arrays matched to open handles |
| LocalBusEngine.Engine.Cancel | packages/openland-module-pubsub/LocalBusEngine.ts:28-39 | removes the first occurrence of the receiver, once; the lookup never fails, so "Impossible" is not reachable |
| LocalBusEngine.Engine.Publish | packages/openland-module-pubsub/LocalBusEngine.ts:7-16 | runs the array of that moment in order, each callback as often as it has open handles, even if listeners cancel their own handles meanwhile |
| BusListeners.SpliceMatches | packages/openland-module-pubsub/LocalBusEngine.ts:33-38 | removing one occurrence for one cancelled handle keeps occurrences equal to open handles, also for a function subscribed many times |
| BusListeners.OpenIsListed | packages/openland-module-pubsub/LocalBusEngine.ts:33-38 | an open handle's receiver is in the array |
| BusListeners.FindIndex | packages/openland-module-pubsub/LocalBusEngine.ts:33 | the first position of the receiver, or -1 |
| BusDelivery.Deliver | packages/openland-module-pubsub/NatsBusEngine.ts:83-85 | iterating over the live array while listeners cancel their own handles runs exactly `Turns`: each cancelling listener makes the one behind it be passed over |
| BusDelivery.OneTurn | packages/openland-module-pubsub/NatsBusEngine.ts:83-118 | one turn of that loop, with the cancel and its splice of the live array, leaves due exactly the rest of `Turns` and keeps the engine invariant |
| BusDelivery.DeliveryIsCompleteIff | packages/openland-module-pubsub/NatsBusEngine.ts:83-118 | in every run, a message reaches all listeners of its topic iff none but the last in the array has a handle of its own left to cancel |
| BusDelivery.OneIsPassedOver | packages/openland-module-pubsub/NatsBusEngine.ts:83-118 | when just one listener cancels, everybody is run but the one behind it |
| CachedSubspace.RunsAgree | packages/openland-module-db/CachedSubspace.ts:29-80 | for any reads and writes of a transaction every read returns what a plain map updated in program order returns |
| CachedSubspace.ReadIsLastWrite | packages/openland-module-db/CachedSubspace.ts:29-57 | after any operations a read returns the key's last write or else what the store holds, and the cache has exactly the keys touched |
| CachedSubspace.WriteBackStores | packages/openland-module-db/CachedSubspace.ts:59-69 | for any codec the write-back leaves untouched keys alone, stores a truthy last write serialized, and clears the key of any other |
| CachedSubspace.FlushAgreesIffWritesSurvive | packages/openland-module-db/CachedSubspace.ts:52-71 | for any codec and any reads and writes, the write-back leaves the subspace equal to that map iff every key's last write is of null or of a value that is truthy and parses back to itself |
| CachedSubspace.FlushAgreesIffTruthy | packages/openland-module-db/CachedSubspace.ts:59-69 | with an inverse codec, iff no key's last write is of a value that is falsy and not null |
| CachedSubspace.WritesAreLast | packages/openland-module-db/CachedSubspace.ts:52-57 | the pending writes are the last write of every written key |
| CachedSubspace.FalsyWriteIsLost | packages/openland-module-db/CachedSubspace.ts:59-69 | any falsy value that is not null, written once, is read back inside the transaction and absent after the write-back |
| CachedSubspace.RecentWriteAgreesIff | packages/openland-module-db/collections/RecentCollection.ts:20 | a number written through the recent-items codec, packed big-endian and unpacked little-endian, agrees with direct access iff it is not 0 and reads the same in both byte orders |
| CachedSubspace.OneHookIfWritten | packages/openland-module-db/CachedSubspace.ts:55-70 | exactly one commit hook is registered if anything was written, none otherwise |
| CachedSubspace.Subspace.Read | packages/openland-module-db/CachedSubspace.ts:29-45 | answers from the cache, else reads, parses and caches, absent keys included |
| CachedSubspace.Subspace.Write | packages/openland-module-db/CachedSubspace.ts:52-71 | updates cache and writes, and registers the hook on the first write |
| CachedSubspace.Subspace.Flush | packages/openland-module-db/CachedSubspace.ts:59-69 | the loop over the writes, in any order, leaves each key set or cleared as last written |
| DistributedCollector.ReportsConverge | packages/openland-module-monitoring/DistributedCollector.ts:28-61 | fresh reports with distinct times per key, taken in any order, leave the same contents, sum and count |
| DistributedCollector.ShowsLatest | packages/openland-module-monitoring/DistributedCollector.ts:36-61 | after any fresh reports each key shows a latest candidate, and nothing if there is none |
| DistributedCollector.TagShowsWhatIsCurrent | packages/openland-module-monitoring/DistributedCollector.ts:77-122 | after any reports and timer firings a tag holds the reports of its own that are current, told from the steps alone, and is there iff it has one |
| DistributedCollector.SumInAnyOrder | packages/openland-module-monitoring/DistributedCollector.ts:28-34 | the sum resolved is the sum along any enumeration of the live keys |
| DistributedCollector.TaggedIsAFamily | packages/openland-module-monitoring/DistributedCollector.ts:77-122 | after any reports and timer firings the tagged gauge is, tag by tag, the untagged gauge of that tag's reports; no empty inner map, one pending timer per live entry |
| DistributedCollector.GaugeCollector.ReceiveReport | packages/openland-module-monitoring/DistributedCollector.ts:36-61 | drops expired and older reports, else replaces the entry and its timer; entries and timers stay matched and timer handles new |
| DistributedCollector.GaugeCollector.TimerFires | packages/openland-module-monitoring/DistributedCollector.ts:59 | deletes the key of the timer and nothing else |
| DistributedCollector.GaugeCollector.Resolve | packages/openland-module-monitoring/DistributedCollector.ts:28-34 | the sum of the live values, in any enumeration of them, and their number |
| DistributedCollector.GaugeTaggedCollector.ReceiveReport | packages/openland-module-monitoring/DistributedCollector.ts:86-122 | the same under a tag, making the inner map before the age check; the collector stays where the run of its steps leads, with a new timer handle for each stored report |
| DistributedCollector.GaugeTaggedCollector.TimerFires | packages/openland-module-monitoring/DistributedCollector.ts:114-119 | deletes from the inner map the timer was started for, and the tag with the last key, leaving the other tags in order |
| DistributedCollector.GaugeTaggedCollector.Resolve | packages/openland-module-monitoring/DistributedCollector.ts:77-84 | one sum and count per tag, over its current reports, in the order the tags were inserted |
| ExpiringMaps.PutTaggedRefines | packages/openland-module-monitoring/DistributedCollector.ts:93-121 | storing under a tag is storing in that tag's untagged collector and in no other, and keeps entries and timers one to one |
| ExpiringMaps.ExpireTaggedRefines | packages/openland-module-monitoring/DistributedCollector.ts:114-119 | a timer does to every tag what it does to the untagged collector there, and leaves no empty inner map |
| SummaryCollectors.TaggedSummaryIsAFamily | packages/openland-module-monitoring/DistributedCollector.ts:194-214 | after any reports and timer firings a tag holds exactly the live observations of its own summary, one pending timer each |
| SummaryCollectors.TagShowsItsOwnSummary | packages/openland-module-monitoring/DistributedCollector.ts:174-192 | what a tag shows equals what its own summary shows, and a tag is listed iff that summary has samples |
| SummaryCollectors.SamplesAreLive | packages/openland-module-monitoring/DistributedCollector.ts:134-162 | the samples shown are those of the observations whose timers are pending, however numbered |
| SummaryResolve.ResolveValues | packages/openland-module-monitoring/DistributedCollector.ts:134-148 | one entry per configured quantile, in order, each with its own quantile and a live observation of its nearest rank; the number of live observations and their sum in any order |
| SummaryResolve.ShownSummarizes | packages/openland-module-monitoring/DistributedCollector.ts:134-148 | the sorted samples, their quantiles and their sum meet that account, whatever the keys |
| SummaryResolve.SumInAnyOrder | packages/openland-module-monitoring/DistributedCollector.ts:145-148 | the sum of the samples is the sum along any enumeration of the observations |
| SummaryCollectors.TagSummarizesWhatRemains | packages/openland-module-monitoring/DistributedCollector.ts:174-214 | after any reports and timer firings a tag summarizes the observations that its reports made less than five seconds before they came and whose timers have not fired, and is there iff one remains |
| SummaryCollectors.SummaryCollector.ReceiveReport | packages/openland-module-monitoring/DistributedCollector.ts:150-162 | drops expired reports, else stores the value under a new number with a new timer |
| SummaryCollectors.SummaryCollector.Resolve | packages/openland-module-monitoring/DistributedCollector.ts:134-148 | the same for the live observations of the summary |
| SummaryCollectors.SummaryTaggedCollector.ReceiveReport | packages/openland-module-monitoring/DistributedCollector.ts:194-214 | the same under a tag, numbers shared by all tags; the collector stays where the run of its steps leads, with new timer handles |
| SummaryCollectors.SummaryTaggedCollector.TimerFires | packages/openland-module-monitoring/DistributedCollector.ts:208-213 | deletes the observation, and the tag with the last one |
| SummaryCollectors.SummaryTaggedCollector.Resolve | packages/openland-module-monitoring/DistributedCollector.ts:174-192 | one such summary per tag, over the observations remaining under it, in the order the tags were inserted |
| Quantiles.QuantileIsNearestRank | packages/openland-module-monitoring/DistributedCollector.ts:134-148 | the value for 0 < p <= 1 is a sample, at least ceil(n p) samples are at most it and at least n - ceil(n p) + 1 are at least it |
| Quantiles.QuantilesAscend | packages/openland-module-monitoring/DistributedCollector.ts:134-148 | a larger quantile never reports a smaller value |
| Quantiles.ZeroIsMinimum | packages/openland-module-monitoring/DistributedCollector.ts:139-140 | p = 0 reports the minimum |
| Quantiles.IndexInRange | packages/openland-module-monitoring/DistributedCollector.ts:142-143 | the computed index is always a position of the samples |
| Quantiles.SortedIsSorted | packages/openland-module-monitoring/DistributedCollector.ts:136 | sorting permutes the samples into ascending order |
| EntityCounter.CountIsExactIffSafe | packages/openland-module-db/findEntitiesCount.ts:33-70 | over all runs of two-transaction workers of newer job versions, bodies rerun after failed commits included: the saved count was right at every moment iff every commit was safe, its worker overtaken, without rows left, or with the cursor first chosen |
| EntityCounter.CountIsExact | packages/openland-module-db/findEntitiesCount.ts:33-70 | in every run of safe commits the saved progress is as found until a job writes it, and from then on its count is the number of rows up to its cursor |
| EntityCounter.ConflictsAreSafe | packages/openland-module-db/findEntitiesCount.ts:33-70 | a run whose commits fail only because another one was made meanwhile has safe commits only |
| EntityCounter.UnsafeCommitMiscounts | packages/openland-module-db/findEntitiesCount.ts:49-69 | a commit that is not safe leaves a wrong count |
| EntityCounter.FinishedPassIsTrue | packages/openland-module-db/findEntitiesCount.ts:33-70 | in every run of safe commits a started pass shows the true number of rows iff no row lies past its cursor, and always the size of the set of rows up to it |
| EntityCounter.PassFinishes | packages/openland-module-db/findEntitiesCount.ts:33-70 | n undisturbed workers count min(n · batchSize, true size) from whatever stale state was found |
| EntityCounter.ExactIffCursorUnmoved | packages/openland-module-db/findEntitiesCount.ts:49-54 | when the body runs again after a failed commit that nobody overtook, the new count is exact iff the cursor is still the one first chosen |
| EntityCounter.RetriedBodySkipsABatch | packages/openland-module-db/findEntitiesCount.ts:49-69 | two rows, batches of one, one such failed commit: the pass ends with a count of one |
| EntityCounter.EmptyNeverStarts | packages/openland-module-db/findEntitiesCount.ts:50-53 | without rows a stale count is never replaced |
| EntityCounter.AdvanceIsGood | packages/openland-module-db/findEntitiesCount.ts:56-69 | an overtaken worker changes nothing, any other leaves an exact count if its commit is safe |
| EntityCounter.FindEntitiesCount | packages/openland-module-db/findEntitiesCount.ts:10-29 | with rows that may change between its transactions, the loop counts distinct rows, each there when read, and none is left out that was there all the time; over unchanging rows it ends with their number |
| EntityCounter.PassedCounts | packages/openland-module-db/findEntitiesCount.ts:20 | the rows a cursor has passed are as many as the set of keys up to it |
| EntityCounter.CounterWorker.ReadProgress | packages/openland-module-db/findEntitiesCount.ts:33-47 | the first transaction: restart when nothing or an older version is saved, else go on from the saved cursor |
| EntityCounter.CounterWorker.Advance | packages/openland-module-db/findEntitiesCount.ts:49-70 | the second transaction: moves the cursor, and writes only if the version code is unchanged or nothing is saved |
| EventPaging.WalkVisitsAll | packages/openland-module-db/eventsFind.ts:20-49 | following the cursors with any limit, from any start, in either direction, visits every later event exactly once in order; all pages but the last are full; the walk ends |
| EventPaging.WalkIsComplete | packages/openland-module-db/eventsFind.ts:20-49 | from the options alone: the walk visits exactly the events asked for, in the asked direction, on pages that are all full but the last |
| EventPaging.HaveMoreIffEventsRemain | packages/openland-module-db/eventsFind.ts:27-49 | `haveMore` iff some event lies past the returned cursor |
| EventPaging.ConsumerMissesNothing | packages/openland-module-db/eventsFind.ts:20-49 | a consumer that keeps its cursor while events are appended between reads neither loses nor repeats an event, whatever limits it asks for |
| EventPaging.PageSplitsPending | packages/openland-module-db/eventsFind.ts:26-49 | the page and what is pending after its cursor are together what was pending before |
| EventPaging.EventsFind | packages/openland-module-db/eventsFind.ts:13-49 | the items are the first events past the cursor or `after` in the asked direction, at most the limit, with `haveMore` only when full and the last key as cursor; without a limit all of them |
| EventPaging.PageOfIsPage | packages/openland-module-db/eventsFind.ts:13-49 | the page meets that account for every ordered store and every options |
| EventPaging.PendingIsAskedFor | packages/openland-module-db/eventsFind.ts:20-24 | what is pending is exactly what the options ask for, in their direction |
| EventPaging.LaterIsTheRest | packages/openland-module-db/eventsFind.ts:20-24 | a range read after a key is the end of the line holding exactly the events past that key |
| FrequencyGauge.QueueIsTheWindow | packages/openland-module-monitoring/DistributedTaggedFrequencyGauge.ts:44-78 | for every clock that does not run backwards the queue is time-sorted and holds exactly the logged operations newer than the last cutoff, from which the rate is counted |
| FrequencyGauge.RateCountsTheWindow | packages/openland-module-monitoring/DistributedTaggedFrequencyGauge.ts:26-78 | in every run the rate is made of the sizes logged after the last cutoff over the time since that cutoff; before any cleanup, of all sizes over the time since the first was logged |
| FrequencyGauge.DropIsFilter | packages/openland-module-monitoring/DistributedTaggedFrequencyGauge.ts:74-76 | on a time-sorted queue shifting from the front is filtering |
| FrequencyGauge.Gauge.Add | packages/openland-module-monitoring/DistributedTaggedFrequencyGauge.ts:56-66 | appends the operation, making the entry with the time read first |
| FrequencyGauge.Gauge.Inc | packages/openland-module-monitoring/DistributedTaggedFrequencyGauge.ts:44-54 | adds an operation of size one |
| FrequencyGauge.Gauge.Cleanup | packages/openland-module-monitoring/DistributedTaggedFrequencyGauge.ts:68-78 | sweeps every tag with its own reading of the clock |
| FrequencyGauge.Gauge.Report | packages/openland-module-monitoring/DistributedTaggedFrequencyGauge.ts:26-40 | sets, for tags whose window is at least a second, the floored operations per second |

## Left out

- HighContentionAllocator: un-awaited parallel `allocate` calls inside one transaction.
- AllocatorWindows.NewestCounterIsExact: does not cover attempts abandoned at line 76, because an abandoned attempt would count and mark a number it does not return; the guard there never fires, and MarksAreCounted gives the bound for all runs.
- AllocatorWindows.ViewCounterIsExact: does not cover abandoned attempts, for the same reason.
- AllocatorMarks.MoreThanHalfFree: does not cover runs with 2^32 attempts some of which were abandoned, where the 32 bits read of the counter may wrap.
- HighContentionAllocator.Allocate: the draws are a given finite list; that a free candidate is eventually drawn is a matter of probability (MoreThanHalfFree gives the odds).
- RemoteTransport: liveness of retransmission, the keep-alive interval and the watchdog timing (stopping is a step that may happen at any time), `stop` called from inside a listener, packets from third parties, and message listeners attached late.
- EntityCounter.CountIsExact: does not cover unsafe commits, because the property is false there (CountIsExactIffSafe); and the rows the workers count are fixed.
- EntityCounter.FinishedPassIsTrue: does not cover unsafe commits, for the same reason.
- StructsCode: the loops of TreeHead, ConversationCountersState, UserSubscriptionState and UserCounterAsyncSubscriptions, which repeat shapes already there; `Structs` covers the meaning of all ten messages.
- Structs.RoundTrip: encodings of 2^32 bytes and more, where the 32-bit length prefix wraps.
- Wire: skipping unknown groups; `verify`, `fromObject`, `toObject` and the delimited variants of structs.js.
- NatsBusEngine: records and handles are known by their index instead of object identity, and `asyncRun` does not fail.
- BusDelivery.Deliver: listeners cancel their own handles while they are run; subscribing from inside a listener, and cancelling the handles of others there, are not modelled.
- CachedSubspace: `readPrefixed`, which bypasses the cache, and two instances sharing one prefix.
- ExpiringMaps: inner map objects are known by their index.
- DistributedCollector: the persisted gauges, the text of the Prometheus report, and the event bus that brings the reports.
- EventPaging: decoding of event values, base64 of cursors, negative limits.
- FrequencyGauge: the intervals that call cleanup and report, and the switch that turns reporting off.
- FoundationDB, NATS and protobufjs themselves are not part of this model, nor are the repositories, resolvers and modules built on the code above.
