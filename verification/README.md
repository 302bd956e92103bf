# HiveMindBridge, modelled and proved in Dafny

HiveMindBridge is the host's end of a protocol with a swarm agent. User threads queue requests and cut
byte payloads into numbered packets. An outbound thread cycles the queue: it sends each request once and
keeps it until it is answered or times out. An inbound thread queues what arrives. `spin()`, called over
and over by the user, handles what arrived, acknowledges calls, launches callbacks, returns their results,
puts payloads together again, reconnects and keeps the connection alive.

The model comes in two layers.

* **Operations.** One Dafny class per class of the program that changes its fields: `ThreadSafeQueue`,
  `BytesAccumulator`, `HiveMindHostApiRequestHandler`, `OutboundRequestHandle`, `UserCallbackMap`,
  `UserCallRequestHandler`, `MessageHandler`, `HiveMindBridgeImpl`. Their methods follow the program branch
  by branch, loops included, and each is proved equal to a function on values.
* **Runs.** The threads interleave, so each of the bridge's two sides is also a state machine whose steps
  are the locked calls: `OutboundProtocol` (the outbound thread against pushes, responses, connection and
  disconnection), `SpinProtocol` (the spinning thread against arrivals, callbacks that finish,
  registrations). `BridgeSystem` puts both together with any number of `sendBytes` calls in flight. Theorems
  about runs are for every list of events that is possible, and every moment of it. `OutboundTheorems` and
  `SpinRefinement` prove that a stretch of steps that nothing interrupts does what the class method does;
  `SendBytesRefinement` proves it of `sendBytes` in any interleaving.

| file | what it holds |
|---|---|
| `Prelude`, `Messages` | fixed-width integers; the messages, with the fields the bridge reads |
| `ThreadSafeQueue`, `BytesAccumulator`, `OutboundRequestHandle` | the small stateful classes |
| `BytesReceiver`, `ReceiverProperties` | reassembly, and what it delivers on any stream of packets |
| `Fragmentation`, `SinglePrecision` | the arithmetic of `sendBytes`, single-precision division included, and the round trip with reassembly |
| `OutboundProtocol`, `OutboundInvariants`, `OutboundTheorems`, `OutboundProgress`, `OutboundDispatch`, `OutboundAnswers` | the outbound side over whole runs: safety, then progress |
| `UserCallbackMap`, `UserCallRequestHandler`, `MessageHandler` | the registry, the answers to user calls, the routing of messages |
| `SpinProtocol`, `SpinInvariants`, `SpinTheorems`, `SpinProgress` | the spinning side over whole runs |
| `BridgeSystem`, `EndToEnd`, `EndToEndProgress`, `EndToEndSample` | the whole bridge, and a payload's way from `sendBytes` to the peer's user: that it arrives as it should, that it does get there, and one run in which it does |
| `BridgePushes` | what gets into the queue of the whole bridge, and the keep-alive's way through it |
| `PendingLoop`, `HiveMindBridgeImpl`, `SpinRefinement`, `SendBytesRefinement` | the bridge's methods, and the step machines' agreement with them |

## What the code does that its users would not expect

The model follows the code. Three things it does are kept, each with the exact condition:

* **A payload whose size is a positive multiple of the packet size loses its last packet's worth of bytes.**
  The length of the last packet is a remainder (src/HiveMindBridgeImpl.cpp:153-154), which is then zero.
  `Fragmentation.RoundTripExactlyWhen` says for which payloads the round trip holds, `FullPacketIsLost` is
  the smallest failure, and `EndToEnd.SendBytesEndToEnd` says what arrives in either case.
* **The registry can be read just past its end.** The readers test `index > size`
  (src/user-call/UserCallbackMap.cpp:35 and 48), so the index equal to the size gets through. The model
  calls that outcome `Undefined`; `UserCallbacks.UndefinedExactlyPastTheEnd` and `SpinTheorems.RuinedExactlyBy`
  say when it happens, and that it does not otherwise.
* **A transfer that arrives twice is delivered twice**, since its accumulator is forgotten on delivery:
  `ReceiverProperties.DeliveredTimesExactlyWhen` says, for every stream, exactly how often a transfer is
  delivered, `DeliveredAgainExactlyByReplay` when that is more than once, and `ReplayDeliversAgain` gives the
  failing input.

A smaller one: the limit on a request's age is named in seconds and commented on as a delay
(include/hivemind-bridge/HiveMindBridgeImpl.h:25-27), but it counts visits by the outbound thread, ten of them.

## What is assumed

* Each locked call of a queue is one step, and so is each operation on the map of responses, although the
  program shares that map between two threads without a lock. The program erases a response through the
  iterator that the search for it returned (src/HiveMindBridgeImpl.cpp:198-203); the model erases it by its
  id, so it assumes that a response stored in between does not invalidate that iterator.
* Handling one message is one step against the registration of callbacks and against the lookup that a
  launched callback makes (src/user-call/UserCallRequestHandler.cpp:108-126), which the program does not lock
  either.
* A serialized message is written whole. What is serialized while the connection is up reaches the peer in
  order, for the packets of the transfer at hand: `SendBytesEndToEnd` states this as a precondition. The
  theorems about a bad network assume nothing of the kind.
* The capacity of a packet (`BytesDTO::PAYLOAD_MAX_SIZE`) and the limit on the arguments of a function call
  belong to another library. The proofs hold for any capacity from 1 to 255 and any limit.
* Random ids are arbitrary. Where a property needs one to be fresh, its precondition says so.
* A callback is a step at which its future becomes ready with an arbitrary result or none.
* The keep-alive greeting's test of the connection and its push are one step; the same greeting pushed at any
  other moment is covered too, because any thread may push any message at any time.

The ceiling that `sendBytes` takes in single precision is not assumed to be exact: `FloatCeilingIsExact`
proves it from the definition of rounding to nearest in IEEE 754, with `SinglePrecision` holding the numbers.

## Model

Constructors, setters and accessors have contracts that state their whole effect, in the files named above;
the table leaves them out.

| member | source | states |
|---|---|---|
| EndToEnd.SendBytesEndToEnd | src/HiveMindBridgeImpl.cpp:140-233 | In any run of the bridge, when a `sendBytes` of a nonempty payload has returned true, nobody else used its transfer id, no packet was answered before it was sent, and none waits or was lost, then a peer (in any run of its own) that was listening calls its user exactly once for the transfer, with exactly the payload if the size is no multiple of the packet size, and otherwise with the payload cut by one packet's worth |
| EndToEndProgress.SendBytesGetsThrough | src/HiveMindBridgeImpl.cpp:140-233 | In any run, with nothing assumed about what still waits: a `sendBytes` that has returned true is delivered exactly once at a listening peer to which it is relayed, if the connection stays up while the outbound thread makes seven steps for each handle queued at its return, and seven more, however they interleave with pushes, responses and arrivals |
| EndToEndProgress.TransferGetsSentAmongOthers | src/HiveMindBridgeImpl.cpp:188-233 | Under the same conditions all its packets have been sent on the live connection, and the peer has been sent exactly the transfer's packets, in order, once each |
| EndToEnd.TransferGetsSent | src/HiveMindBridgeImpl.cpp:188-233 | The special case of the outbound thread left alone with a live connection: from any moment of any run, a number of its steps bounded by what is queued sends every packet of a completed `sendBytes` |
| EndToEndSample.ByteArrives | src/HiveMindBridgeImpl.cpp:140-233 | A concrete run of a bridge and one of a peer that meet everything `SendBytesEndToEnd` asks for, and deliver one transfer |
| SendBytesRefinement.ReturnsAsSpecified | src/HiveMindBridgeImpl.cpp:140-173 | In any run, a `sendBytes` call that has returned has pushed exactly the handles, and returned the result, that the method is specified to for what its tests of the connection found, however its steps were interleaved |
| SendBytesRefinement.EachPacketFollowsATest | src/HiveMindBridgeImpl.cpp:130-138 | In any run, each packet of a call was pushed by a step of that call whose preceding step was a test that found the connection up |
| SendBytesRefinement.FailedTestEnds | src/HiveMindBridgeImpl.cpp:160-165 | A test that finds the connection down makes the call return false, for good, and it pushes nothing from then on |
| SendBytesRefinement.CallsFollowTheirTests | src/HiveMindBridgeImpl.cpp:146-172 | At every moment of a call: one packet pushed per test that found the connection up, but for the one about to be; true returned after as many as there are packets, false after the first failed test |
| EndToEnd.SendBytesPushesAPrefix | src/HiveMindBridgeImpl.cpp:140-173 | At any moment what a `sendBytes` call has queued is a prefix of its packets, in order, to its destination; it has returned true if and only if that is all of them |
| BridgePushes.PushesAre | src/HiveMindBridgeImpl.cpp:130-173 | The queue of the whole bridge is pushed what users push, the packets of `sendBytes` with their ids, and greetings due on a live connection, and nothing else |
| BridgePushes.ConnectionIsTrue | src/HiveMindBridgeImpl.cpp:235-238 | What every test of the connection finds is what was last heard of it |
| BridgePushes.KeepAliveIsSent | src/HiveMindBridgeImpl.cpp:97-104 | In any run, a keep-alive that falls due on a live connection is pushed with source, destination and agent 0, and once it no longer waits it has been sent as a greeting; it is never refused, retired or timed out |
| BridgePushes.KeepAliveIsAGreeting | src/MessageUtils.cpp:100 | A peer takes such a message for a greeting from agent 0 |
| EndToEnd.TransferReachesPeer | src/HiveMindBridgeImpl.cpp:188-233 | When all packets of a call were serialized on a live connection, filtering what was sent by the transfer id leaves exactly its packets, in order and without repetition |
| EndToEnd.ListenerDelivers | src/HiveMindHostApiRequestHandler.cpp:27-57 | A receiver that a transfer's packets reach in order among any other traffic, after its user registered, delivers that transfer once, with its pieces joined |
| EndToEnd.OnlyExactPayloadsReachTheUser | src/HiveMindHostApiRequestHandler.cpp:27-57 | In every run of a peer, on a network that drops, repeats, reorders and mixes packets of any transfers, every call of the user's callback gets the complete exact bytes of one of them |
| EndToEnd.PacketsNoLongerWaiting | src/HiveMindBridgeImpl.cpp:196-228 | A packet of a call that no longer waits in the queue was serialized, unless a response with its id was stored before |
| EndToEnd.OutboundPartIsARun | src/HiveMindBridgeImpl.cpp:188-233 | The outbound side of every run of the whole bridge is a run of the outbound machine, so that machine's theorems hold inside the bridge |
| EndToEnd.RetirementsArePaidByArrivals | src/HiveMindBridgeImpl.cpp:52-54 | For every id, the requests dropped as answered plus the response still stored are at most the messages handled that are generic responses, bare or about a user call, or function-call responses, with that id |
| BridgeSystem.InvariantAlways | src/HiveMindBridgeImpl.cpp:40-233 | Every run of the whole bridge keeps the invariants of both sides, stores exactly the responses the spinning thread recorded, and keeps each call's pushes a prefix of its packets |
| Fragmentation.WhatIsSent | src/HiveMindBridgeImpl.cpp:143-170 | Joining the packets' bytes gives the payload, or, for a positive multiple of the packet size, the payload without its last packet's worth and nothing else missing |
| Fragmentation.RoundTripExactlyWhen | src/HiveMindBridgeImpl.cpp:151-155 | The packets join to the payload if and only if it is empty or its size is no multiple of the packet size |
| Fragmentation.FullPacketIsLost | src/HiveMindBridgeImpl.cpp:151-155 | Counterexample: every payload of exactly one full packet is sent as one empty packet |
| Fragmentation.RepairedLastPacket | src/HiveMindBridgeImpl.cpp:151-155 | Of the length the last packet should have had, which is not the program's: it fits a packet and completes the payload, for every size |
| Fragmentation.PacketCountBounds | src/HiveMindBridgeImpl.cpp:143 | The packet count is the least number of packets that can hold the payload, and zero only for the empty one |
| Fragmentation.PieceInside | src/HiveMindBridgeImpl.cpp:147-157 | Every packet's bytes lie inside the payload, no packet exceeds the capacity, and the last one ends at the payload's end unless the division is exact |
| Fragmentation.JoinedPrefix | src/HiveMindBridgeImpl.cpp:146-157 | The packets before packet k join to the payload's bytes before where packet k starts |
| Fragmentation.FloatCeilingIsExact | src/HiveMindBridgeImpl.cpp:143 | With both operands and the quotient each rounded to a nearest number of single precision, ties either way, the ceiling taken is the integer ceiling, for every 16-bit size and every capacity |
| Fragmentation.NarrowingIsHarmless | src/HiveMindBridgeImpl.cpp:148-154 | The stores to 8 and 16 bits in the packet loop lose nothing |
| Fragmentation.SliceIsPiece | src/HiveMindBridgeImpl.cpp:148-157 | The slice computed with the narrowing stores is, for every packet of every payload, the piece the round trip speaks of, inside the payload |
| Fragmentation.CreationNeverFails | src/MessageUtils.cpp:82-98 | The message of every packet `sendBytes` cuts can be built, with that packet in it, so the failure branch is dead |
| Fragmentation.CreationFailsExactlyWhen | src/MessageUtils.cpp:82-98 | A bytes message is refused if and only if its payload exceeds a packet, and otherwise carries what it was given, field by field |
| BytesAccumulation.BytesAccumulator.AppendBytes | src/BytesAccumulator.cpp:4-17 | Accepts if and only if the number follows the last one in 32 bits; then exactly the first `length` bytes are added, otherwise nothing changes |
| BytesAccumulation.AccumulatorIsGreedy | src/BytesAccumulator.cpp:4-17 | On any stream of any length the accumulator adds exactly the pieces that "take the next number in 32 bits, ignore the rest" picks, in that order, and its counter is their number modulo 2^32 |
| BytesAccumulation.CountedWithoutWrap | src/BytesAccumulator.cpp:5-9 | Until 2^32 packets have been accepted the wrap-around plays no part |
| BytesReceiving.HiveMindHostApiRequestHandler.HandleMessage | src/HiveMindHostApiRequestHandler.cpp:5-13 | Only bytes requests have an effect: that of receiving their packet |
| BytesReceiving.HiveMindHostApiRequestHandler.HandleBytes | src/HiveMindHostApiRequestHandler.cpp:27-57 | The map of heap-allocated accumulators, never shared between ids, changes as the value-level receiver of `ReceiverProperties` does, with the same deliveries |
| ReceiverProperties.NonInterference | src/HiveMindHostApiRequestHandler.cpp:35-57 | On any interleaved stream a transfer ends in the state, and causes the deliveries, of the run that sees only its own packets, across its own completions and restarts |
| ReceiverProperties.OnlyExactPayloadsAreDelivered | src/HiveMindHostApiRequestHandler.cpp:37-57 | However packets of any transfers are dropped, repeated, reordered and mixed, each delivery is the complete, exact payload of one of them |
| ReceiverProperties.GenuineStep | src/HiveMindHostApiRequestHandler.cpp:37-57 | One packet keeps every live accumulator equal to the join of its transfer's pieces up to the awaited number |
| ReceiverProperties.StepProgress | src/HiveMindHostApiRequestHandler.cpp:27-57 | The awaited packet, heard by a set callback, advances a transfer by one or, being the last, delivers it exactly and starts it afresh; any other packet, and any change of the callback, neither delivers it nor changes what it awaits |
| ReceiverProperties.DeliveredTimesExactlyWhen | src/HiveMindHostApiRequestHandler.cpp:27-57 | On any stream of genuine packets, however mixed, and however the callback is set and unset: a transfer is delivered m times or more if and only if the packets heard contain, in order, what was missing of it and m - 1 more copies of the whole of it |
| ReceiverProperties.DeliveredTimesWhileListening | src/HiveMindHostApiRequestHandler.cpp:27-57 | The same for a user who keeps listening, in terms of the stream itself |
| ReceiverProperties.DeliveredAgainExactlyByReplay | src/HiveMindHostApiRequestHandler.cpp:49-57 | A transfer new to the receiver is delivered a second time if and only if the whole of it is heard twice, one copy after the other |
| ReceiverProperties.DeliveredExactlyWhen | src/HiveMindHostApiRequestHandler.cpp:43-57 | A transfer's exact payload is delivered if and only if the packets it still needs are heard in order |
| ReceiverProperties.DeliveredByTheEnd | src/HiveMindHostApiRequestHandler.cpp:43-57 | A sufficient condition that does not mention the accumulator: packets from any number not beyond the awaited one occur in order, at given positions |
| ReceiverProperties.InOrderDeliversOnce | src/HiveMindHostApiRequestHandler.cpp:37-57 | A transfer fed in order from any point on is delivered exactly once and leaves the receiver without a trace of it |
| ReceiverProperties.DeliveredOnceAmongOthers | src/HiveMindHostApiRequestHandler.cpp:37-57 | The same among any traffic of other transfers |
| ReceiverProperties.ReplayDeliversAgain | src/HiveMindHostApiRequestHandler.cpp:49-57 | The failing input: every whole transfer that arrives twice is delivered exactly twice, and nothing else is |
| ReceiverProperties.NobodyListening | src/HiveMindHostApiRequestHandler.cpp:27-34 | Packets that arrive while no callback is set neither advance, end nor start a transfer |
| OutboundDispatch.TimesOutAtTheEleventhVisit | src/HiveMindBridgeImpl.cpp:196-222 | In every run, whatever else is queued, pushed and answered: a message that times out does so at its eleventh visit, one that waits has had at most ten, and it has been sent exactly when it has had one |
| OutboundAnswers.AnsweredIsRetired | src/HiveMindBridgeImpl.cpp:196-204 | In every run: a request at queue position q whose response is stored, no other request having its id, is retired once the thread is through with q + 1 handles, sent before or not; it has not timed out, is in no queue, has used that response up, and the response is gone unless one was stored again |
| OutboundAnswers.ResponseStays | src/HiveMindBridgeImpl.cpp:198-204 | In every run a stored response stays until a request with its id is retired: no erasing takes another |
| OutboundAnswers.StoredUntilUsed | src/HiveMindBridgeImpl.cpp:52-54 | In every run each id that was stored is still there or has been used up |
| OutboundAnswers.LostExactlyWhenDown | src/HiveMindBridgeImpl.cpp:207-209 | A message serialized counts as lost exactly when the connection is down at that moment |
| OutboundAnswers.HistoryIsTrue | include/hivemind-bridge/ThreadSafeQueue.h:13-16 | The logs the theorems speak of hold exactly the pushes and the stored responses that happened, in order, and the connection is what it was last said to be |
| OutboundHandles.IterateExamines | src/HiveMindBridgeImpl.cpp:190-228 | One pass of the loop body, case by case: an answered request goes with its response, sent or not, and no other response does; an unanswered one is sent first, then aged, then dropped at ten; greetings are sent; the rest is dropped |
| OutboundDispatch.SentWithinSteps | src/HiveMindBridgeImpl.cpp:188-229 | While the connection stays up, whatever waits to be sent at some moment is sent, or dropped as answered, within seven steps of the thread per handle queued then, and seven more, in any interleaving |
| OutboundDispatch.DealtInTurn | src/HiveMindBridgeImpl.cpp:190-229 | A request or greeting at queue position q is sent, or dropped as answered, once the thread has taken q + 2 handles, and at q + 1 unless it is still busy with it, whatever is pushed meanwhile |
| OutboundDispatch.WaitingIsDealt | src/HiveMindBridgeImpl.cpp:190-229 | Whatever waits to be sent is sent, or dropped as answered, once the thread is through with as many handles as were queued |
| OutboundHandles.UnansweredRequestLifetime | src/HiveMindBridgeImpl.cpp:196-222 | For the loop body as one function: an unanswered request that is alone in the queue is sent at its first visit only, still queued after ten and gone after eleven |
| OutboundInvariants.InvariantAlways | src/HiveMindBridgeImpl.cpp:188-233 | Every run of the outbound side keeps its invariant: queue calls meet what they need, handles carry what was pushed, sends follow pushes, every push is in one place, responses are accounted for |
| OutboundInvariants.InvariantNext | src/HiveMindBridgeImpl.cpp:188-233 | Each single step keeps that invariant from any state that has it |
| OutboundInvariants.LinearizedNext | src/HiveMindBridgeImpl.cpp:190-192 | No step makes the thread read or pop an empty queue, pop something other than it read, or erase a response that is gone |
| OutboundInvariants.OrderedNext | src/HiveMindBridgeImpl.cpp:188-229 | What was sent followed by what waits to be sent stays in push order, cycling included |
| OutboundInvariants.ConservedNext | src/HiveMindBridgeImpl.cpp:189-229 | No step loses or duplicates a message |
| OutboundInvariants.AccountedNext | src/HiveMindBridgeImpl.cpp:196-204 | Id by id, responses used up and still stored remain within those that were stored |
| OutboundTheorems.WireFollowsPushOrder | src/HiveMindBridgeImpl.cpp:188-233 | In every run the messages serialized are an in-order subsequence of the pushes, each push at most once, across cycling, concurrent pushes, disconnection and reconnection |
| OutboundTheorems.ExactlyOnePlace | src/HiveMindBridgeImpl.cpp:189-229 | Every push is, at every moment, in exactly one place exactly once: waiting or held, answered, timed out, sent as a greeting, refused |
| OutboundTheorems.FatesAreDeserved | src/HiveMindBridgeImpl.cpp:196-228 | Only requests time out, and only after being sent; greetings are sent; refused is exactly what is neither, and it is never sent; an answered request had a response stored under its id |
| OutboundTheorems.ResponsesPayForRetirements | src/HiveMindBridgeImpl.cpp:196-204 | Each request dropped as answered used up one response with its id, none twice; retirements plus the map's size never exceed the responses stored |
| OutboundTheorems.RetiredOnceSent | src/HiveMindBridgeImpl.cpp:196-211 | A request is dropped unsent only if a response with its id had been stored before |
| OutboundTheorems.NoLongerWaiting | src/HiveMindBridgeImpl.cpp:196-222 | A request that does not wait to be sent and was not dropped unsent has been sent |
| OutboundTheorems.GoneMeansSent | src/HiveMindBridgeImpl.cpp:196-222 | In every run, a pushed request that no longer waits was serialized, unless answered too early |
| OutboundTheorems.QueueCallsLinearize | include/hivemind-bridge/ThreadSafeQueue.h:13-41 | In every run the outbound thread's separate calls of `empty`, `front` and `pop`, with pushes between them, amount to one atomic take at the moment of the pop |
| OutboundTheorems.UninterruptedIteration | src/HiveMindBridgeImpl.cpp:189-229 | Left alone on a nonempty queue, the stepwise thread does exactly one pass of the loop body as `HiveMindBridgeImpl.OutboundIteration` is specified |
| OutboundProgress.TotalWorkIsBounded | src/HiveMindBridgeImpl.cpp:190-228 | Over a whole run the thread takes at most eleven handles per request pushed and one per other message |
| OutboundProgress.DistanceShrinks | src/HiveMindBridgeImpl.cpp:189-229 | On a live connection every step of the thread lowers a measure, until the queue is found empty |
| OutboundProgress.Drains | src/HiveMindBridgeImpl.cpp:189-229 | From any state the invariant allows, with the connection up, the thread empties the queue within a number of steps computed from that state |
| OutboundProgress.BoundedWaiting | src/HiveMindBridgeImpl.cpp:188-229 | While the queue holds at most L handles, a message still around is in the course of iteration 11 * L from its push at the latest, and when that iteration is decided it is gone, whatever is pushed meanwhile |
| OutboundProgress.ExaminedInTurn | src/HiveMindBridgeImpl.cpp:190-192 | A handle at position q moves up one place per iteration and is the one examined at iteration q + 1, whatever is pushed meanwhile |
| UserCallbacks.UserCallbackMap.RegisterCallback | src/user-call/UserCallbackMap.cpp:3-16 | Says whether the name was known; the name now maps to the new function and manifest, a known name keeps its index, and map and list still agree |
| UserCallbacks.UserCallbackMap.GetManifestAt | src/user-call/UserCallbackMap.cpp:34-45 | The manifest of the name at an index, with the bounds test as written |
| UserCallbacks.UserCallbackMap.GetNameAt | src/user-call/UserCallbackMap.cpp:47-52 | The name at an index, with the bounds test as written |
| UserCallbacks.RegistryRefinesRegistrations | src/user-call/UserCallbackMap.cpp:3-16 | After any registrations the list holds each name once in order of first registration, and the map holds the latest function and manifest of exactly those names |
| UserCallbacks.NamesAreStable | src/user-call/UserCallbackMap.cpp:3-16 | Later registrations keep every name at its index, and in the map |
| UserCallbacks.EnumerationIsComplete | src/user-call/UserCallbackMap.cpp:32-52 | Reading every index below the length gives each registered name exactly once, in first-registration order, with its latest manifest |
| UserCallbacks.UndefinedExactlyPastTheEnd | src/user-call/UserCallbackMap.cpp:34-52 | The readers go past the vector if and only if the index equals the length, and are right everywhere else |
| UserCallbacks.FirstDescriptionOfNothing | src/user-call/UserCallbackMap.cpp:34-37 | Counterexample: with nothing registered, index 0 is read past the end |
| UserCalls.UserCallRequestHandler.HandleMessage | src/user-call/UserCallRequestHandler.cpp:6-48 | Builds the handle that the properties of `UserCallsAreAcknowledged` and `RemoteEnumerationIsComplete` are proved about |
| UserCalls.UserCallRequestHandler.HandleFunctionDescriptionRequest | src/user-call/UserCallRequestHandler.cpp:58-80 | The copying loop answers with the whole manifest; a refusal above the length |
| UserCalls.UserCallRequestHandler.HandleFunctionCallRequest | src/user-call/UserCallRequestHandler.cpp:82-106 | Ok and a future for a registered name; a refusal and no future otherwise |
| UserCalls.UserCallsAreAcknowledged | src/user-call/UserCallRequestHandler.cpp:6-48 | Every user call but a description just past the end is acknowledged with its id, its ends swapped, to the module that asked; a callback starts exactly when the ack says Ok, and its name stays registered whatever is registered later |
| UserCalls.RemoteEnumerationIsComplete | src/user-call/UserCallRequestHandler.cpp:50-106 | After any registrations, what a remote caller reads from the acks is the number of distinct names, each in first-registration order with its latest manifest, refusals above; a call is accepted exactly when its name was registered |
| MessageHandling.MessageHandler.HandleMessage | src/MessageHandler.cpp:13-77 | Requests to acknowledge are exactly the user calls, responses to store exactly the generic and function-call ones, with their id, status and details; only packets touch the receiver |
| MessageHandling.RoutingPartition | src/MessageHandler.cpp:13-77 | On the shape of the message: exactly the user-call requests become requests, exactly the generic responses, bare or about a user call, and the function-call responses become stored responses with that id, status and details; host-API messages become neither |
| MessageHandling.OnlyPacketsAreAbsorbed | src/HiveMindHostApiRequestHandler.cpp:5-13 | The receiver is given the packet of every bytes request, and nothing of any other message |
| SpinInvariants.InvariantAlways | src/HiveMindBridgeImpl.cpp:40-105 | Every run of the spinning side keeps its invariant: inbox, acks, returns, pending calls, registry, receiver and schedule |
| SpinInvariants.InboxNext | src/HiveMindBridgeImpl.cpp:42-44 | The inbox stays the arrivals not yet handled; what is popped is what was handled |
| SpinInvariants.AcksNext | src/HiveMindBridgeImpl.cpp:46-54 | The acks sent and the responses stored stay, in order, those of the messages handled |
| SpinInvariants.ReturnsNext | src/HiveMindBridgeImpl.cpp:58-78 | Every return stays owed to one earlier ack, and every pending entry still free of a return |
| SpinInvariants.NoneForgottenNext | src/HiveMindBridgeImpl.cpp:58-78 | A launched callback stays in flight, pending, or over with its value sent |
| SpinTheorems.InboxIsFifo | src/HiveMindBridgeImpl.cpp:42-44 | In every run the inbox is never read or popped empty, and messages are handled in order of arrival |
| SpinTheorems.AcksFollowArrivals | src/HiveMindBridgeImpl.cpp:42-54 | In every run the acks are, in order of arrival, one per user-call request handled, with its id, ends swapped, to the module that asked; the responses stored say, one for each and in order, what the generic and function-call responses handled said |
| SpinTheorems.ReturnsComeAfterAcksOnce | src/HiveMindBridgeImpl.cpp:240-266 | Every return goes, from the call's destination to its source and calling module, with exactly the finished value, only if one exists and fits the limit, after the ack of its call, and at most once per call |
| SpinTheorems.OkAcksAreKept | src/user-call/UserCallRequestHandler.cpp:82-106 | Every ack sent that says Ok belongs to a call whose callback was launched |
| SpinTheorems.CallsAreNeverForgotten | src/HiveMindBridgeImpl.cpp:58-78 | A launched callback is being recorded, or pending, or over with its value sent if and only if it may be sent; the pending list stays in order of arrival |
| SpinProgress.SpinDoesItsWork | src/HiveMindBridgeImpl.cpp:41-78 | In every run, one call of `spin` on a live connection handles one message if one was there, never more; whatever was over when it began is pending no more, with or without a result, and has been returned if and only if it left a value within the limit; what still runs is still pending |
| SpinProgress.DeadSpin | src/HiveMindBridgeImpl.cpp:79-104 | One call on a dead connection handles, sends and forgets nothing of the spinning side, and counts one spin |
| SpinProgress.SpinEnds | src/HiveMindBridgeImpl.cpp:40-105 | Every call is over within seven steps of its own and one for each pending request |
| SpinProgress.HistoryIsTrue | src/HiveMindBridgeImpl.cpp:115-128 | The arrivals, the registry, the callbacks' results and the receiver's setting are those that what happened makes them |
| SpinTheorems.LaunchedCallbacksAreFound | src/user-call/UserCallRequestHandler.cpp:108-126 | When a callback that was acknowledged looks its name up again, whatever was registered since, the name is there |
| SpinTheorems.DeliveriesFollowArrivals | src/HiveMindBridgeImpl.cpp:42-44 | In every run the user of bytes was called as a receiver fed with the arrived packets, in order, calls it |
| SpinTheorems.KeepAliveSchedule | src/HiveMindBridgeImpl.cpp:97-104 | For a period N > 0, n >= 1 spins attempt exactly (n - 1) / N greetings and the counter stays in 0..N, whatever the connection does; none for N = 0 |
| SpinTheorems.RuinedExactlyBy | src/user-call/UserCallbackMap.cpp:34-37 | A step reads the registry past its end if and only if the message it handles asks for the description at the index equal to the number of names |
| BridgeImpl.HiveMindBridgeImpl.QueueAndSend | src/HiveMindBridgeImpl.cpp:130-138 | True exactly on a live connection, and then the message is queued once, unsent |
| BridgeImpl.HiveMindBridgeImpl.SendBytes | src/HiveMindBridgeImpl.cpp:140-173 | Over the array, for every size and every point of disconnection: exactly the packets before the first failed test of the connection are queued, unsent, in order, each with the bridge's id, the destination, its request id and its piece; true is returned if and only if no test failed |
| BridgeImpl.HiveMindBridgeImpl.OutboundIteration | src/HiveMindBridgeImpl.cpp:189-229 | Over the queue, the response map and the wire, case by case, what `IterateExamines` says of one pass, answered requests included |
| BridgeImpl.HiveMindBridgeImpl.OutboundThread | src/HiveMindBridgeImpl.cpp:188-233 | When no other thread interferes, the loop does one such pass per test that finds the connection up, and stops at the first that does not; the interleaved loop is the subject of `OutboundTheorems` and `OutboundDispatch` |
| BridgeImpl.HiveMindBridgeImpl.SendReturn | src/HiveMindBridgeImpl.cpp:240-266 | Sends the one return that is due, or nothing without a value or with too many arguments |
| BridgeImpl.HiveMindBridgeImpl.ScanRequests | src/HiveMindBridgeImpl.cpp:58-78 | The loop that erases while it iterates leaves an entry if and only if it has a future that is not ready, in order, and sends, in order, one return for each of the others that left a value within the limit, to where its call came from |
| PendingLoop.UnfinishedAre | src/HiveMindBridgeImpl.cpp:61-77 | What the value-level loop keeps is exactly the entries with a future that is not ready, in order |
| PendingLoop.ReturnsAre | src/HiveMindBridgeImpl.cpp:240-266 | What it sends is exactly the returns due, in order, with their addresses and values |
| BridgeImpl.HiveMindBridgeImpl.Greet | src/HiveMindBridgeImpl.cpp:268-285 | On a live connection sends a greeting with source, destination and agent 0; true if and only if a greeting answers it, whose agent id is then taken over |
| BridgeImpl.HiveMindBridgeImpl.Reconnect | src/HiveMindBridgeImpl.cpp:88-95 | Listens, greets, and hangs up on a peer that does not answer |
| BridgeImpl.ConnectedMeansGreeted | src/HiveMindBridgeImpl.cpp:79-96 | A spin on a dead connection ends connected if and only if a peer was accepted and answered with a greeting; only then is the id replaced, and nothing queued or pending is touched |
| BridgeImpl.HiveMindBridgeImpl.HandleOne | src/HiveMindBridgeImpl.cpp:42-56 | At most one message is taken; its ack is sent and its request kept, or its response stored |
| BridgeImpl.HiveMindBridgeImpl.CountSpin | src/HiveMindBridgeImpl.cpp:97-104 | When the counter has reached the period, starts it again at one and queues, on a live connection, a greeting of zeros; otherwise counts one; nothing for a period of zero |
| BridgeImpl.HiveMindBridgeImpl.Spin | src/HiveMindBridgeImpl.cpp:40-105 | A whole spin, connected or not, changes the bridge's whole state as its parts in sequence do, or reads the registry past its end |
| SpinRefinement.UninterruptedSpin | src/HiveMindBridgeImpl.cpp:40-105 | The step machine, left alone on a live connection, ends in the state the `Spin` method is specified to reach, or both go past the registry's end |
| SpinRefinement.ScanningToTheEnd | src/HiveMindBridgeImpl.cpp:58-78 | The machine's walk over the pending calls keeps and returns the same ones as the erasing loop |
| SpinRefinement.InboundSteps | src/HiveMindBridgeImpl.cpp:42-56 | The machine's steps from the test of the inbox to the loop amount to handling one message |

## Left out

- Sockets: a connected flag stands for them, which `listen` may set and hanging up or losing the peer clears.
- The serializer, the deserializer and the DTO library: messages are datatypes with the fields the bridge reads; the capacity of DTO arrays and the truncation of names are not part of this model.
- Real threads, locks and sleeps: steps that interleave in every order stand for them. `std::async` is a step at which a future becomes ready.
- What user callbacks do, including exceptions and calls back into the bridge.
- Arguments of a function call on their way into a callback: nothing in the bridge depends on them.
- `HiveMindHostApiResponseHandler`, the `HiveMindBridge` facade, loggers and the getters of the handles; the neighbour requests only push a message, which the model allows at any time.
- The destructor, and shutting down.
- The greeting exchange on reconnection inside the step machines: there the connection only comes up, and the outbound thread is started, while that thread is stopped. The methods `Greet` and `Reconnect` model the exchange itself.
- Fields of `InboundRequestHandle` that are never read (the callback's name), or never set for anything but a function call (source, destination, module): the latter are `None` then.
- Any use of the status and details of a stored response: the program never reads them.
- What becomes of a transfer cut short by a disconnection: its first packets stay at the peer until the same transfer id is used again.
- `ThreadSafeQueue.back` and `size`, which nothing calls. `pop` and `front` of an empty queue are undefined in the program; the model asks for a nonempty queue and proves, in `OutboundTheorems` and `SpinTheorems`, that both threads always have one.
