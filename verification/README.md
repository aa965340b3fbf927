# Verified model of the latency tester's concurrent and stateful core

The repository measures exchange latencies with libcurl and shares them between peers over libp2p.
Most of it is input and output; this project models the parts that hold state machines, protocols,
in-place algorithms and integer arithmetic, and proves what they promise for all inputs and all runs.
`dafny verify dfyconfig.toml` checks everything.

| files | what they model |
|---|---|
| `PriorityMutex.dfy`, `PriorityMutexRuns.dfy` | the two-class lock, as a class and as runs of any number of sessions |
| `AckProtocol.dfy`, `AckConnection.dfy`, `AckProtocolRuns.dfy`, `AckProtocolLiveness.dfy`, `AckProtocolOutcomes.dfy` | acknowledged messages: `SendMsg`, the receive loops, the ack dispatcher, every interleaving |
| `Framing.dfy` | `Send`, `Recv` and `handleConnectionMsg` on a byte stream read in arbitrary chunks |
| `SeedReader.dfy` | the hash-chain reader that makes keys from a seed |
| `WebSocketRecv.dfy`, `WebSocketRecvProps.dfy`, `WebSocketMessages.dfy` | the receive loop with the growing buffer, and what it makes of messages |
| `QuickSort.dfy`, `DecimalPlaces.dfy` | the sort and the decimal counter of `myutils` |
| `GoInts.dfy`, `LatencyAverage.dfy`, `OffsetEstimate.dfy` | int64 arithmetic, the halving average, the clock-offset estimate |
| `LatencyNode.dfy`, `CacheNetwork.dfy` | the message consumer with its per-peer maps, and the broadcast of results |

How concurrency is modelled: a step is what one goroutine does between two blocking operations (for the
lock: between taking and releasing the one mutex). The classes hold the code of each step; every method
is proved equal to a transition function, and the theorems are about all sequences of these transitions.

## What turned out false, and the exact condition

- Exclusion between the classes of `PriorityMutex` does not hold for arbitrary clients
  (`OverlapIsReachable`). It holds exactly while every unlock comes from the last holder of its class or
  happens while that class still has waiters (`ExclusionExactlyWhenClean`).
- The dispatcher can send on a closed channel and panic. Exactly three steps lead there: a timeout of the
  call whose channel the dispatcher has loaded, an error return of the write of that call, and loading a
  channel that is closed but not yet deleted (`DoomedExactly`). Each is reachable (`PanicIsReachable`),
  and afterwards nothing averts the panic (`DoomedStays`).
- `Recv` returns what `Send` was given if and only if the payload has 1 byte to 10 MiB
  (`RoundTripExactly`). Longer payloads are not rejected by `Send`; from 2^32 bytes on the header wraps.
- A stream cut right behind a header ends for `Recv` like a clean close (`TruncatedError`).
- A WebSocket message is not always returned whole, because the receive call ends with the first payload
  whose frame lacks CURLWS_CONT, whatever part of the frame has arrived, and with the tenth poll in a row
  without payload. With an allocator that succeeds, a message whose last frame is not empty comes back
  whole if and only if nothing before its last piece of payload ends the call (no payload without
  CURLWS_CONT, so the last frame arrives in one piece and no control frame comes in between; no error; no
  ten polls in a row without payload; no empty final frame with nothing behind it yet), what comes
  before that piece is at most 1 MiB less 1024 bytes, and the piece fits into the buffer that this calls
  for (`WholeMessageExactly`; for fragments and quiet polls only, `FragmentsExactly`). For a message
  in one frame that is 4095 bytes in one piece. Inputs that are cut: `TwoPieces`, `SilenceCuts`,
  `ControlFrameCuts`.
- An empty last frame is not noticed. A message with payload that ends this way comes back whole if and only
  if nothing up to its last payload ends the call, it is at most 1 MiB less 1024 bytes, and behind it the
  call ends before more payload comes: with an error, with nothing yet under a final frame, or with the
  tenth poll in a row without payload (`EmptyLastExactly`). Ten such polls before the empty frame return
  the message without reading the frame. If payload comes first, two messages are returned as one
  (`EmptyLastMerges`); if the transport runs dry, a text message loses its mark (`EmptyLastLosesText`,
  `EmptyLastWhole`).
- `QuickSort` can panic, because its loop also compares the pivot with itself. Some choice of pivots panics
  if and only if the slice holds an element below itself and another element below that one
  (`PanicsExactly`), as with "at most" on 1, 2 (`AtMostPanics`).
- An average stays between what it averages, at every step, if and only if no sum overflows an int64
  (`HalfBetweenExactly`, `BetweenExactlyWhenSumsFit`).
- The cached version of a peer's result can go back: when a reply is overtaken by a broadcast, or when an
  old broadcast copy is sent after a newer reply (`VersionCanGoBack`). A step keeps it from ever going
  back, as long as nothing stale is sent later, if and only if the sender does not send a copy older than
  the one it sent last (`GoesBackExactly`). No code in the repository sends the request that would cause
  a reply, and without replies versions never go back (`CachedVersionRises`).

## Model

| member | source | states |
|---|---|---|
| PriorityLock.PriorityMutex.LockHighPriority | myutils/myutils.go:222-232 | the call counts itself as a waiter and acquires at once unless "low" is active; the state becomes that of the class-independent lock step |
| PriorityLock.PriorityMutex.WakeHigh | myutils/myutils.go:227-231 | a woken session tests the guard again: it acquires or goes back to sleep |
| PriorityLock.PriorityMutex.UnlockHighPriority | myutils/myutils.go:235-247 | signal own waiters, else hand over to all low waiters, else free the lock; mirror image of the low unlock |
| PriorityLock.PriorityMutex.LockLowPriority | myutils/myutils.go:250-260 | the mirror image of the high lock, proved against the same transition function with the classes exchanged |
| PriorityLock.PriorityMutex.UnlockLowPriority | myutils/myutils.go:281-293 | the mirror image of the high unlock |
| PriorityLock.PriorityMutex.TryLockLowPriority | myutils/myutils.go:263-278 | succeeds exactly when the mutex was free and no class is active; otherwise changes nothing |
| PriorityLockRuns.InvStep | myutils/myutils.go:222-293 | every step of every class keeps the joint invariant: exact waiter counters, sleepers only behind the other class, an active class always has a holder or a waiter |
| PriorityLockRuns.NoLostWakeup | myutils/myutils.go:226-231 | in every reachable state the counters are the numbers of waiting sessions, and a session sleeps only while the other class is active and has a holder or a woken session left to hand the lock back |
| PriorityLockRuns.DeadlockFree | myutils/myutils.go:222-293 | in every reachable state with a waiter and no holder some woken session acquires at its next step |
| PriorityLockRuns.TryLockNeverBarges | myutils/myutils.go:262-278 | in every reachable state a successful try-lock finds no session of either class waiting |
| PriorityLockRuns.HandoverStands | myutils/myutils.go:241-243 | once a class is active and one of its sessions woken, no steps of others take the turn back: that session acquires when it next runs |
| PriorityLockRuns.DrainStepDecreases | myutils/myutils.go:222-293 | wakeups and unlocks lower (2*waiters + holders, woken sessions) lexicographically |
| PriorityLockRuns.DrainTerminates | myutils/myutils.go:222-293 | without new calls every run is finite, with an explicit bound |
| PriorityLockRuns.DrainServesEveryone | myutils/myutils.go:222-293 | a draining run that cannot continue ends with the free lock, each waiter having acquired once and each waiter and holder having unlocked once |
| PriorityLockRuns.MatchedStep | myutils/myutils.go:235-247 | all holders stay inside the active class across a step exactly when the step is a clean unlock or no unlock |
| PriorityLockRuns.ExclusionExactlyWhenClean | myutils/myutils.go:222-293 | a step leaves all clean continuations free of simultaneous high and low holders if and only if it is clean |
| PriorityLockRuns.SignalIsIdle | myutils/myutils.go:239-240 | in clean runs the signal of an unlock finds no sleeper, because the waiters of the active class are all awake |
| PriorityLockRuns.OneClientPerClassExcludes | myutils/myutils.go:222-293 | with one client per class no reachable state has a high and a low holder |
| PriorityLockRuns.TryOnlyClientsExclude | myutils/myutils.go:262-278 | with one high client and any number of low clients that only try, the classes exclude each other and there is at most one low holder |
| PriorityLockRuns.OverlapIsReachable | myutils/myutils.go:239-246 | a concrete run in which a high and a low session hold together |
| AckConnection.P2pConnection.BeginSend | p2p_base/base_node.go:219-228 | the waiter channel is stored before the message is written |
| AckConnection.P2pConnection.EndWrite | p2p_base/base_node.go:235-242 | a write that returns an error, its frame on the stream or not, closes the channel; a successful one leads to the select or returns |
| AckConnection.P2pConnection.LeaveSelect | p2p_base/base_node.go:229-250 | acked or timed out, the channel is closed while its map entry is still there |
| AckConnection.P2pConnection.DeleteWaiter | p2p_base/base_node.go:229-232 | the entry is deleted after the close |
| AckConnection.P2pConnection.DispatcherLoad | p2p_base/connection.go:67-69 | the first ack is taken off the channel, as in the protocol step, and its waiter looked up; an ack without waiter is dropped |
| AckConnection.P2pConnection.DispatcherSend | p2p_base/connection.go:70 | a panic exactly if the channel is closed, a rendezvous exactly if its call is in the select, and blocked while that call is still inside the write |
| AckProtocolRuns.InvStep | p2p_base/base_node.go:163-251 | every step of every goroutine keeps the joint invariant of stream, dispatcher and calls |
| AckProtocolRuns.AckedMeansDelivered | p2p_base/base_node.go:214-251 | in every run, with timeouts and failures, an acknowledged call has its message, with the data it was called with, on the receiver's channel, once |
| AckProtocolRuns.InOrderAtMostOnce | p2p_base/base_node.go:163-202 | what was delivered is a prefix of what was written, with distinct ids, in both directions |
| AckProtocolRuns.ExactlyOneStage | p2p_base/connection.go:65-74 | every written message that asks for an ack is in exactly one of ten stages, any other id in none |
| AckProtocolRuns.BlockedExactly | p2p_base/base_node.go:177-185 | in every run the channels hold at most 100 messages and the receive loop is blocked exactly while the one it needs holds 100 |
| AckProtocolOutcomes.OutcomeExactly | p2p_base/base_node.go:214-251 | in every run: the write's error exactly if the write failed, the timeout error exactly after the timeout, nil exactly if the ack was handed over or, without one asked for, the write succeeded |
| AckProtocolOutcomes.NilExactly | p2p_base/base_node.go:214-251 | a call returns nil if and only if it was confirmed or, without needsAck, written; its message with its fields is then on the stream, and with needsAck on the receiver's channel |
| AckProtocolLiveness.DispatcherFindsWaiter | p2p_base/connection.go:67-71 | without timeout and false send error every ack finds its waiter registered and open, and the send finds its call in the select or inside the write that takes it there |
| AckProtocolLiveness.WaitersAreLiveCalls | p2p_base/base_node.go:224-233 | in every run the waiter map holds exactly the calls that have not returned |
| AckProtocolLiveness.DoomedExactly | p2p_base/base_node.go:229-236 | exactly which three steps make the dispatcher send on a closed channel |
| AckProtocolLiveness.DoomedStays | p2p_base/connection.go:69-70 | from then on the panic stays possible and nothing else resolves it |
| AckProtocolLiveness.OpenMeansPending | p2p_base/connection.go:69-70 | in every run the channel the dispatcher has loaded is open exactly while its call is in the select or still inside the write |
| AckProtocolLiveness.AckBeatsWrite | p2p_base/base_node.go:235-236 | a run in which the ack is back before the write of its message returns |
| AckProtocolLiveness.PanicIsReachable | p2p_base/base_node.go:229-247 | from one reachable state, runs that panic by the timeout, by the error return and by the late load |
| AckProtocolLiveness.WorkStep | p2p_base/base_node.go:177-200 | every step but a new call lowers a measure of the work left |
| AckProtocolLiveness.Quiescence | p2p_base/base_node.go:177-200 | the number of steps of any run is bounded by its number of calls |
| AckProtocolLiveness.TwoFramesPerMessage | p2p_base/message.go:44-57 | at most one ack frame per data frame; acks are never acked and never delivered as messages |
| AckProtocolLiveness.Completion | p2p_base/base_node.go:214-251 | a fault-free run stops only when every call has returned nil, every message is delivered and no waiter is left |
| Framing.ReadFull | p2p_base/connection.go:178-203 | filling a buffer does not depend on how the stream is chunked; a short stream gives EOF if nothing came before its clean end, unexpected EOF if something did, and the stream's error if it broke |
| Framing.Send | p2p_base/connection.go:155-173 | header and data are appended; an error exactly if a write failed, and then a prefix of them |
| Framing.Recv | p2p_base/connection.go:176-206 | result and remaining stream are those of the specification, for any chunking |
| Framing.RoundTripExactly | p2p_base/connection.go:155-206 | receiving a sent frame gives back the payload and the rest of the stream if and only if its length is valid |
| Framing.HeaderOrder | p2p_base/connection.go:157-162 | the header has its most significant byte first: headers compare byte by byte as the lengths do |
| Framing.InvalidLengthExactly | p2p_base/connection.go:187-193 | the error for an invalid length comes exactly for 0 and for more than 10485760, and takes only the header off the stream |
| Framing.OnlyValidLengths | p2p_base/connection.go:190-193 | whatever the bytes are, no payload outside 1 byte to 10 MiB is returned |
| Framing.AllFramesArrive | p2p_base/connection.go:155-206 | any list of valid payloads is received whole, in order, then the end of the stream |
| Framing.TruncatedStream | p2p_base/connection.go:176-206 | every prefix of a stream yields exactly the complete payloads, then the error of the place of the cut |
| Framing.TruncatedError | p2p_base/connection.go:176-206 | on a closed stream EOF exactly if the cut is at the end of a frame or right behind a header, otherwise unexpected EOF; on a broken stream its error |
| Framing.HandleConnectionMsg | p2p_base/base_node.go:163-202 | the loop splits the parsed messages over the two channels in order and sends one ack for each data message that asks for it, whole unless a write of it failed; without a failed write exactly the acks asked for are sent |
| Framing.DeliveredIsForwarded | p2p_base/base_node.go:177-200 | one turn of the sequential loop is the delivery step of the interleaved protocol |
| Framing.HonestPeer | p2p_base/base_node.go:163-202 | any list of messages an honest peer sends is parsed as that list |
| SeedStream.SeedReader.Read | p2p_base/base_node.go:54-65 | a read returns the next bytes of the stream H(s), H(H(s)), ... up to the end of the block, at least one if there is room |
| SeedStream.ReadsAreStream | p2p_base/base_node.go:54-65 | the results of any reads concatenate to an initial part of the stream, one byte or more per nonempty read |
| SeedStream.ChunkingIsInvisible | p2p_base/base_node.go:45-65 | two callers with the same seed see the same bytes however they chunk their reads |
| SeedStream.ReadFull | p2p_base/base_node.go:67-69 | a full read of n bytes is the next n bytes of the stream |
| SeedStream.StreamStarts | p2p_base/base_node.go:45-52 | the first 32 bytes are the hash of the seed string |
| SeedStream.StreamGoesOn | p2p_base/base_node.go:55-60 | each later 32 bytes are the hash of the 32 before |
| SeedStream.KeyMaterial | p2p_base/base_node.go:67-69 | n bytes read from a new reader are the hash of the seed string, then the hash of each block before; 32 bytes are that hash |
| WebSocketRecv.Connection.WebSocketRecv | http_client/websocket_client_libcurl.c:122-231 | all accesses are in bounds, the result and the transport left are those of the loop function, the message is terminated by a zero, and at most 10 * MAX polls happen |
| WebSocketRecv.Connection.LoopBody | http_client/websocket_client_libcurl.c:136-208 | one turn makes room, polls once and ends in the exit that the turn function names |
| WebSocketRecvProps.CallsConserve | http_client/websocket_client_libcurl.c:122-231 | over any sequence of calls, results and thrown-away buffers concatenate to the transport's bytes |
| WebSocketRecvProps.MessagesAreTransport | http_client/websocket_client_libcurl.c:122-231 | without overflow and allocation failure the returned messages alone do |
| WebSocketRecvProps.OneDoublingIsEnough | http_client/websocket_client_libcurl.c:139-160 | the buffer size is a function of the bytes received, 4096 times a power of two up to 1 MiB, reached with one doubling |
| WebSocketRecvProps.RecvLimits | http_client/websocket_client_libcurl.c:156-160 | overflow only at the full size, messages nonempty and short enough for the terminator, allocation failure only at the size needed |
| WebSocketRecvProps.LoopIsSimple | http_client/websocket_client_libcurl.c:135-209 | with a working allocator the loop equals one without buffer variables |
| WebSocketMessages.RecvExactly | http_client/websocket_client_libcurl.c:135-230 | for every transport: the first event that ends a call, and from it the overflow, the message, its text mark and what is left, with polls, retries and buffer gone |
| WebSocketMessages.CallEnds | http_client/websocket_client_libcurl.c:135-209 | every call ends with exactly one event, at the latest the tenth behind the last |
| WebSocketMessages.WholeMessageExactly | http_client/websocket_client_libcurl.c:168-208 | a message, in whatever pieces and with whatever between them, is returned whole if and only if nothing before its last payload ends the call, what comes before leaves 1 KiB of the maximum, and the last payload fits |
| WebSocketMessages.FragmentsExactly | http_client/websocket_client_libcurl.c:168-208 | for fragments and quiet polls: whole if and only if all payload before the last has CURLWS_CONT, no ten quiet polls come in a row, and the sizes fit |
| WebSocketMessages.MessagesArriveExactly | http_client/websocket_client_libcurl.c:122-231 | a transport with a list of messages yields exactly that list, one for each call, if and only if each meets the condition |
| WebSocketMessages.TwoPieces | http_client/websocket_client_libcurl.c:191-198 | a frame that arrives in two pieces comes back as two messages |
| WebSocketMessages.SilenceCuts | http_client/websocket_client_libcurl.c:168-179 | ten empty polls between two fragments return the first alone, as binary |
| WebSocketMessages.ControlFrameCuts | http_client/websocket_client_libcurl.c:191-198 | a control frame between two fragments ends the message with its own payload |
| WebSocketMessages.OneFrame | http_client/websocket_client_libcurl.c:164-199 | one frame in one piece is whole exactly up to 4095 bytes, with its mark |
| WebSocketMessages.TwoFrames | http_client/websocket_client_libcurl.c:139-160 | behind 3072, 3073 and 1047552 bytes a last frame fits up to 1023, 5118 and 1023 bytes, behind 1047553 none |
| WebSocketMessages.NineOrTenPolls | http_client/websocket_client_libcurl.c:132-179 | nine empty polls between two fragments do not matter, ten cut the message |
| WebSocketMessages.EmptyLastExactly | http_client/websocket_client_libcurl.c:168-208 | a message that goes on after its last payload is returned whole if and only if it leaves 1 KiB of the maximum and the call ends behind it before more payload |
| WebSocketMessages.EmptyLastWhole | http_client/websocket_client_libcurl.c:168-228 | the text mark it then carries and what is left of the transport |
| WebSocketMessages.EmptyLastLosesText | http_client/websocket_client_libcurl.c:168-228 | when the call runs into the end of the transport a text message comes back as binary |
| WebSocketMessages.EmptyLastMerges | http_client/websocket_client_libcurl.c:190-206 | payload that comes behind an empty last frame is appended: two messages are returned as one |
| Sorting.QuickSort | myutils/myutils.go:110-127 | for every pivot choice it terminates with the result of the specification, only permutes the slice, panics only with a bad pair in the slice, and sorts for strict orders |
| Sorting.PanicsExactly | myutils/myutils.go:115-124 | some pivot choice panics if and only if the slice holds an element below itself and another element below that one |
| Sorting.AtMostPanics | myutils/myutils.go:118 | "at most" on 1, 2 panics with the pivot 2 and not with the pivot 1 |
| Sorting.SortSorts | myutils/myutils.go:110-127 | for a strict order the specification's result is sorted, whatever the pivots |
| Sorting.SortRearranges | myutils/myutils.go:110-127 | the result is a permutation of the slice and nothing outside is touched, for any comparison |
| Sorting.Gather | myutils/myutils.go:117-122 | the smaller elements end up in front of `left`, which passes the end if and only if every element of the slice is below the pivot, the pivot included |
| Sorting.Combine | myutils/myutils.go:123-126 | two sorted sides of a pivot make a sorted slice, from transitivity and irreflexivity alone |
| DecimalPlaces.CountIsLeast | myutils/myutils.go:296-307 | ten to the k times the value of a decimal string is an integer if and only if k is at least the count |
| DecimalPlaces.NoFraction | myutils/myutils.go:305-306 | a string without a point has no decimals |
| DecimalPlaces.SeveralPoints | myutils/myutils.go:300-307 | a string with two points or more has no decimals |
| LatencyAverage.HalfBetweenExactly | p2p_latency/p2p_latency_node.go:55 | the new average lies between the old one and the sample if and only if their sum fits in an int64 |
| LatencyAverage.HalfTowardZero | p2p_latency/p2p_latency_node.go:55 | the half of the sum is rounded toward zero |
| LatencyAverage.BetweenExactlyWhenSumsFit | p2p_latency/p2p_latency_node.go:51-58 | over a whole sequence every step lands between the average so far and the sample if and only if every sum fits in an int64 |
| LatencyAverage.BoundedSumsFit | p2p_latency/p2p_latency_node.go:51-58 | samples within bounds whose doubles fit never overflow |
| LatencyAverage.AverageIsAccurate | p2p_latency/p2p_latency_node.go:51-58 | while each sum fits in an int64 the average is between the bounds of the samples and within 1 ns of the exact halving average |
| LatencyAverage.ConvergesToConstant | p2p_latency/p2p_latency_node.go:55 | on a constant input, while each sum fits, the distance halves with each sample, up to 1 ns |
| LatencyNode.P2PLatencyNode.Consume | p2p_latency/p2p_latency.go:81-127 | the consumer loop leaves the fold of the message effects in the maps |
| LatencyNode.P2PLatencyNode.HandleAvgLatencyMsg | p2p_latency/p2p_latency_node.go:40-62 | an unreadable stamp changes nothing; otherwise only the sender's entry is set |
| LatencyNode.P2PLatencyNode.GetBnLatencyAll | p2p_latency/p2p_latency_bn.go:121-130 | the cache with the own entry replaced by the own result |
| LatencyNode.AveragePerPeer | p2p_latency/p2p_latency_node.go:51-58 | for any interleaving of peers an entry is the average of that peer's samples alone |
| LatencyNode.CachePerPeer | p2p_latency/p2p_latency_bn.go:98-106 | the cached result of a peer is the last one that peer sent |
| LatencyNode.FirstSamples | p2p_latency/p2p_latency_node.go:40-62 | the first entry is the time from stamp to arrival, the second the rounded mean of two |
| LatencyNode.QuestionsAnswered | p2p_latency/p2p_latency_bn.go:60-96 | every question is answered once, to who asked, with the own result, and nothing else is |
| LatencyNode.PeerAverageIsAccurate | p2p_latency/p2p_latency_node.go:40-62 | the accuracy of the average while its sums fit, for one peer among any other traffic |
| CacheNetwork.StoreIsHandled | p2p_latency/p2p_latency.go:114-116 | the network model's store step is what the node's consumer does with a result |
| CacheNetwork.CachedWasPublished | p2p_latency/p2p_latency_bn.go:98-106 | in every run a value cached under a name is one that node's result field has had |
| CacheNetwork.GoesBackExactly | p2p_latency/p2p_latency_bn.go:23-106 | after any run without stale sends, some continuation without stale sends lowers the cached version if and only if the step sends a copy older than the last one sent |
| CacheNetwork.CachedVersionRises | p2p_latency/p2p_latency_bn.go:10-57 | in runs without replies the cached version of a peer never goes back |
| CacheNetwork.VersionCanGoBack | p2p_latency/p2p_latency_bn.go:23-96 | concrete runs that set it back: a reply overtaken by a broadcast, and an old broadcast copy sent after a newer reply |
| CacheNetwork.BroadcastArrives | p2p_latency/p2p_latency_bn.go:10-57 | a result refreshed, copied and broadcast, with no other send of that node behind it, is the cached one when everything has arrived |
| CacheNetwork.FailedSendDrops | p2p_latency/p2p_latency_bn.go:52-56 | a failed send drops its copy and changes nothing else |
| OffsetEstimate.MeasureOffset | p2p_latency/bn_latency.go:85-131 | the mean of the successful estimates, rounded toward zero, whenever their exact sum fits in an int64; 0 if no probe succeeded |
| OffsetEstimate.RoundedMeanIsNear | p2p_latency/bn_latency.go:127-131 | that mean is less than 1 ns from the exact one |
| OffsetEstimate.WriteBack | p2p_latency/bn_latency.go:133-138 | only the first run case of the name changes |
| OffsetEstimate.ProbeBound | p2p_latency/bn_latency.go:104-119 | an estimate is within half the round trip and one millisecond of the true offset |
| OffsetEstimate.AverageBound | p2p_latency/bn_latency.go:127-131 | the average over any number of probes stays within the same bounds for the largest round trip |

## Left out

- libcurl, libp2p, QUIC, TLS, key generation and SHA-256 are not part of this model; the hash is any function to 32 bytes, ids are unique, and JSON round-trips.
- Fields of messages that do not influence the modelled behaviour (peer ids, names, time stamps, the own id of an ack) are omitted.
- Lock sessions are anonymous: a goroutine that locks twice is two sessions, and unlocks come from holders.
- `Signal` wakes any sleeper; Go's first-come order among sleepers is not used.
- Several streams between the same two nodes and reconnection: the code does not order them, so one stream per pair is modelled, opened by the sender.
- Frames get onto the stream as one unit, at some moment of their write; two goroutines interleaving their header and data writes on one stream are outside the model. `Framing.Send` covers the partial write of one sender.
- AckProtocolLiveness.Completion: the stream is modelled with unbounded buffering, so a frame or an ack can always be written; flow control that blocks a full stream is not modelled.
- `msgChan` is shared with other streams in the source; its capacity is modelled for one stream's messages.
- The acceptor's dispatcher: `TwoFramesPerMessage` and the invariant show that no ack ever reaches it.
- Framing.HandleConnectionMsg: channel capacity and blocking are in the interleaved model (`AckProtocol`), not in this sequential one.
- LatencyNode.P2PLatencyNode.HandleBnLatencyMsgReq: the source answers with a synchronous `SendMsg(.., true)` (p2p_latency/p2p_latency_bn.go:90), which can block the consumer for up to five seconds; here the answer is appended to `answers`.
- Broadcasting waits for all its sends; towards one receiver that is the rule that a broadcast starts only when the previous copy is gone.
- The theorems on whole messages are for an allocator that succeeds; `WebSocketRecvProps.RecvLimits` and `WebSocketRecvProps.CallsConserve` cover one that fails.
- `websocket_recv_libcurl` with an invalid client returns NULL before the loop; client life cycle, `websocket_connect_libcurl` and `websocket_send_libcurl` are easy members.
- The WebSocket skew correction adds the estimate whose sign is local minus server, so it does not cancel the skew; only the estimate is modelled.
- The average of the HTTP and WebSocket latencies, the OKX files (near copies of the Binance ones), HTTP handlers, configuration, logging and the remaining helpers add no new property.
- DecimalPlaces.CountIsLeast: covers an optional sign and digits with one point, no exponent; `CountDecimalPlaces` returns 0 for strings with several points.
