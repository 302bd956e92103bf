/** `HiveMindBridgeImpl`, each of its operations as the thread that runs it executes it when nothing
    interrupts. What the outside decides comes in as parameters: whether the connection is up each time
    it is tested, the random ids, the bytes read from the stream, which futures are ready.
    `OutboundProtocol`, `SpinProtocol` and `BridgeSystem` say what happens under interruption. */
module BridgeImpl {
  import opened Prelude
  import opened Messages
  import opened ThreadSafeQueues
  import opened OutboundHandles
  import opened BytesReceiving
  import opened UserCallbacks
  import opened UserCalls
  import opened MessageHandling
  import opened Fragmentation
  import opened PendingLoop
  import SpinProtocol

  /** Everything a bridge holds, by value. */
  datatype View = View(
    connected: bool,
    inbox: seq<Message>,
    outbox: seq<Handle>,
    wire: seq<Message>,
    pending: seq<InboundRequest>,
    responses: map<uint32, InboundResponse>,
    agent: uint32,
    counter: uint32,
    registry: Registry,
    receiver: Receiver,
    delivered: seq<Delivery>)

  /** How many of the first tests of the connection find it up. */
  function LeadingUp(link: seq<bool>): (n: nat)
    ensures n <= |link|
  {
    if link == [] || !link[0] then 0 else 1 + LeadingUp(link[1..])
  }

  lemma {:induction false} LeadingUpIs(link: seq<bool>, n: nat)
    requires n <= |link| && (forall i :: 0 <= i < n ==> link[i]) && (n < |link| ==> !link[n])
    ensures LeadingUp(link) == n
    decreases |link|
  {
    if n == 0 {
    } else {
      LeadingUpIs(link[1..], n - 1);
    }
  }

  /** What `queueAndSend` does. */
  function Queued(v: View, m: Message): View {
    if v.connected then v.(outbox := v.outbox + [Handle(m, Ready, 0)]) else v
  }

  /** What the packet loop of `sendBytes` has queued after n rounds. */
  function PacketHandles(agent: uint32, destination: uint32, transfer: uint32, payload: Payload,
                         requestIds: seq<uint32>, n: nat): seq<Handle>
    requires n <= PacketCount(|payload|) && n <= |requestIds|
  {
    seq(n, k requires 0 <= k < n => Handle(PacketMessage(agent, destination, requestIds[k], transfer, payload, k), Ready, 0))
  }

  /** The handle is unsent, and its message takes packet k of the transfer from the agent to the destination. */
  predicate CarriesPacket(h: Handle, agent: uint32, destination: uint32, requestId: uint32, transfer: uint32,
                          payload: Payload, k: nat)
    requires k < PacketCount(|payload|)
  {
    && h.state == Ready && h.delay == 0
    && h.message.source == agent && h.message.destination == destination
    && h.message.body == Request(requestId, HostRequest(Bytes(PacketAt(transfer, payload, k))))
  }

  lemma NoHandles(agent: uint32, destination: uint32, transfer: uint32, payload: Payload, requestIds: seq<uint32>)
    ensures PacketHandles(agent, destination, transfer, payload, requestIds, 0) == []
  {
    PacketCountBounds(|payload|);
  }

  lemma OneMoreHandle(agent: uint32, destination: uint32, transfer: uint32, payload: Payload, requestIds: seq<uint32>, n: nat)
    requires n < PacketCount(|payload|) && n < |requestIds|
    ensures PacketHandles(agent, destination, transfer, payload, requestIds, n + 1)
         == PacketHandles(agent, destination, transfer, payload, requestIds, n)
            + [Handle(PacketMessage(agent, destination, requestIds[n], transfer, payload, n), Ready, 0)]
  {
    hide PacketMessage, PacketCount;
  }

  lemma PacketHandlesAre(agent: uint32, destination: uint32, transfer: uint32, payload: Payload, requestIds: seq<uint32>, n: nat)
    requires n <= PacketCount(|payload|) && n <= |requestIds|
    ensures |PacketHandles(agent, destination, transfer, payload, requestIds, n)| == n
    ensures forall k :: 0 <= k < n ==>
      CarriesPacket(PacketHandles(agent, destination, transfer, payload, requestIds, n)[k], agent, destination, requestIds[k],
                    transfer, payload, k)
  {
    hide PacketCount, PacketAt;
  }

  /** The first half of a spin on a live connection: handle one message, act on the outcome. None when
      the registry is read past its end. */
  function HandleInbound(v: View, token: nat): Option<View>
    requires Agree(v.registry)
  {
    if v.inbox == [] then Some(v)
    else
      var m := v.inbox[0];
      var outcome := Absorb(v.receiver, m);
      var v' := v.(inbox := v.inbox[1..], receiver := outcome.receiver, delivered := v.delivered + outcome.deliveries);
      var routed := Route(v.registry, m, token);
      if routed.Broken? then None else Some(Recorded(v', routed))
  }

  /** What is done with the outcome: an ack is sent and the request kept, or a response stored. */
  function Recorded(v: View, routed: Routed): View {
    match routed
    case AsRequest(h) => v.(pending := v.pending + [h], wire := v.wire + [h.response])
    case AsResponse(r) => v.(responses := v.responses[r.id := r])
    case _ => v
  }

  /** The second half: the loop over the pending requests. */
  function ScanPending(v: View, ready: map<nat, Option<CallbackReturn>>, requestIds: seq<uint32>): View
    requires |requestIds| == |v.pending|
  {
    v.(pending := Unfinished(v.pending, ready), wire := v.wire + Returns(v.pending, ready, requestIds))
  }

  /** What `greet` does. */
  function Greeted(v: View, reply: Message): View {
    if !v.connected then v
    else
      v.(wire := v.wire + [GREET], agent := match GreetedBy(reply) case Some(agent) => agent case None => v.agent)
  }

  /** A spin on a dead connection: listen, greet, and hang up if the greeting is not answered. */
  function Reconnected(v: View, accepted: bool, reply: Message): View {
    var v' := Greeted(v.(connected := accepted), reply);
    v'.(connected := accepted && GreetedBy(reply).Some?)
  }

  /** The keep-alive at the end of a spin. */
  function KeptAlive(v: View, period: uint32): View {
    var (counter, attempt) := SpinProtocol.Beat(v.counter, period);
    (if attempt then Queued(v, GREET) else v).(counter := counter)
  }

  class HiveMindBridgeImpl {
    const messageHandler: MessageHandler
    const inboundQueue: ThreadSafeQueue<Message>
    const outboundQueue: ThreadSafeQueue<Handle>
    const keepAliveNbSpin: uint32
    const registry: UserCallbackMap
    const receiver: HiveMindHostApiRequestHandler
    var connected: bool
    var wire: seq<Message>
    var inboundRequests: seq<InboundRequest>
    var inboundResponses: map<uint32, InboundResponse>
    var swarmAgentId: uint32
    var keepAliveCounter: uint32

    ghost predicate Valid()
      reads this, registry, receiver, receiver.Repr
    {
      && messageHandler.userCalls.callbackMap == registry && messageHandler.hostApi == receiver
      && (inboundQueue as object) != outboundQueue
      && {this, inboundQueue, outboundQueue, registry} !! receiver.Repr
      && receiver.Valid() && Agree(registry.Value())
      && forall h <- inboundRequests :: h.future.Some? ==> h.context.Some?
    }

    ghost function Value(): View
      requires Valid()
      reads this, inboundQueue, outboundQueue, registry, receiver, receiver.Repr
    {
      View(connected, inboundQueue.items, outboundQueue.items, wire, inboundRequests, inboundResponses, swarmAgentId,
           keepAliveCounter, registry.Value(), receiver.Value(), receiver.delivered)
    }

    constructor (keepAliveNbSpin: uint32)
      ensures Valid() && fresh(inboundQueue) && fresh(outboundQueue) && fresh(registry) && fresh(receiver.Repr)
      ensures this.keepAliveNbSpin == keepAliveNbSpin
      ensures Value() == View(false, [], [], [], [], map[], 0, 0, EMPTY, Receiver(false, map[]), [])
    {
      var callbackMap := new UserCallbackMap();
      var userCalls := new UserCallRequestHandler(callbackMap);
      var hostApi := new HiveMindHostApiRequestHandler();
      messageHandler := new MessageHandler(userCalls, hostApi);
      registry, receiver := callbackMap, hostApi;
      inboundQueue := new ThreadSafeQueue<Message>();
      outboundQueue := new ThreadSafeQueue<Handle>();
      this.keepAliveNbSpin := keepAliveNbSpin;
      connected, wire, inboundRequests, inboundResponses, swarmAgentId, keepAliveCounter := false, [], [], map[], 0, 0;
    }

    method QueueAndSend(m: Message) returns (ok: bool)
      requires Valid()
      modifies outboundQueue
      ensures Valid() && ok == connected
      ensures Value() == Queued(old(Value()), m)
      ensures outboundQueue.items == old(outboundQueue.items) + if connected then [Handle(m, Ready, 0)] else []
    {
      if connected {
        var handle := new OutboundRequestHandle(m);
        outboundQueue.Push(handle.Value());
        return true;
      }
      return false;
    }

    // `link[k]` is what the k-th test of the connection finds.
    method SendBytes(destination: uint32, payload: array<byte>, payloadSize: uint16, transfer: uint32,
                     requestIds: seq<uint32>, link: seq<bool>) returns (ok: bool)
      requires Valid() && payloadSize <= payload.Length
      requires |requestIds| == |link| == PacketCount(payloadSize)
      modifies this`connected, outboundQueue
      ensures Valid()
      ensures ok <==> LeadingUp(link) == PacketCount(payloadSize)
      ensures connected == if payloadSize == 0 then old(connected) else ok
      ensures outboundQueue.items == old(outboundQueue.items)
        + PacketHandles(swarmAgentId, destination, transfer, payload[..payloadSize], requestIds, LeadingUp(link))
      ensures |outboundQueue.items| == |old(outboundQueue.items)| + LeadingUp(link)
      ensures forall k :: 0 <= k < LeadingUp(link) ==>
        CarriesPacket(outboundQueue.items[|old(outboundQueue.items)| + k], swarmAgentId, destination, requestIds[k],
                      transfer, payload[..payloadSize], k)
    {
      hide PacketHandles, PacketMessage, LeadingUp, CarriesPacket, PacketAt, Queued, PacketCount, PieceLength, Piece;
      CountIsCeiling(payloadSize);
      ghost var data: Payload := payload[..payloadSize];
      NoHandles(swarmAgentId, destination, transfer, data, requestIds);
      var nPackets := (payloadSize + PAYLOAD_MAX_SIZE - 1) / PAYLOAD_MAX_SIZE;
      var packetNumber := 0;
      while packetNumber < nPackets
        invariant 0 <= packetNumber <= nPackets == PacketCount(payloadSize) && |data| == payloadSize
        invariant Valid()
        invariant forall i :: 0 <= i < packetNumber ==> link[i]
        invariant connected == if packetNumber == 0 then old(connected) else true
        invariant outboundQueue.items == old(outboundQueue.items)
          + PacketHandles(swarmAgentId, destination, transfer, data, requestIds, packetNumber)
      {
        var isLastPacket := packetNumber == nPackets - 1;
        var packetSize := PAYLOAD_MAX_SIZE % 0x100;
        var packetStartIndex := (packetNumber * PAYLOAD_MAX_SIZE) % 0x1_0000;
        if isLastPacket {
          packetSize := (payloadSize - packetNumber * PAYLOAD_MAX_SIZE) % PAYLOAD_MAX_SIZE % 0x100;
        }
        SliceIsPiece(data, packetNumber, packetStartIndex, packetSize);
        var piece := payload[packetStartIndex..packetStartIndex + packetSize];
        assert piece == data[packetStartIndex..packetStartIndex + packetSize];
        CreationNeverFails(swarmAgentId, destination, requestIds[packetNumber], transfer, data, packetNumber);
        var message := CreateBytesMessage(swarmAgentId, destination, requestIds[packetNumber], transfer,
                                          packetNumber, isLastPacket, piece);
        if message.None? {
          return false;
        }
        connected := link[packetNumber];
        var queued := QueueAndSend(message.value);
        if !queued {
          LeadingUpIs(link, packetNumber);
          PacketHandlesAre(swarmAgentId, destination, transfer, data, requestIds, packetNumber);
          return false;
        }
        OneMoreHandle(swarmAgentId, destination, transfer, data, requestIds, packetNumber);
        packetNumber := packetNumber + 1;
      }
      LeadingUpIs(link, packetNumber);
      PacketCountBounds(payloadSize);
      PacketHandlesAre(swarmAgentId, destination, transfer, data, requestIds, packetNumber);
      return true;
    }

    ghost function ToOutbox(): Outbox
      reads this, outboundQueue
    {
      Outbox(outboundQueue.items, inboundResponses, wire)
    }

    // One pass through the loop body of the outbound thread.
    method OutboundIteration()
      requires Valid()
      modifies this`wire, this`inboundResponses, outboundQueue
      ensures Valid()
      ensures ToOutbox() == Iterate(old(ToOutbox()))
      ensures old(outboundQueue.items) == [] ==>
        outboundQueue.items == [] && inboundResponses == old(inboundResponses) && wire == old(wire)
      ensures old(outboundQueue.items) != [] ==>
        Examined(old(outboundQueue.items)[0], old(ToOutbox()).(queue := old(outboundQueue.items)[1..]), ToOutbox())
    {
      IterateExamines(ToOutbox());
      var empty := outboundQueue.Empty();
      if empty {
        return;
      }
      var front := outboundQueue.Front();
      var handle := new OutboundRequestHandle.CopyOf(front);
      outboundQueue.Pop();
      if handle.message.body.Request? {
        var id := handle.message.body.id;
        if id in inboundResponses {
          inboundResponses := inboundResponses - {id};
        } else if handle.state == Ready {
          wire := wire + [handle.message];
          handle.SetState(Sent);
          outboundQueue.Push(handle.Value());
        } else {
          var delay := handle.BumpDelaySinceSent(THREAD_SLEEP_MS);
          if delay < DELAY_BEFORE_DROP {
            outboundQueue.Push(handle.Value());
          }
        }
      } else if handle.message.body.Greeting? {
        wire := wire + [handle.message];
      }
    }

    // `link[k]` is what the loop's k-th test of the connection finds.
    method OutboundThread(link: seq<bool>)
      requires Valid()
      modifies this`connected, this`wire, this`inboundResponses, outboundQueue
      ensures Valid()
      ensures ToOutbox() == IterateTimes(old(ToOutbox()), LeadingUp(link))
    {
      hide Iterate;
      var i := 0;
      while i < |link| && link[i]
        invariant 0 <= i <= |link| && forall j :: 0 <= j < i ==> link[j]
        invariant Valid()
        invariant ToOutbox() == IterateTimes(old(ToOutbox()), i)
      {
        connected := link[i];
        OutboundIteration();
        i := i + 1;
      }
      if i < |link| {
        connected := link[i];
      }
      LeadingUpIs(link, i);
    }

    // One pass through the loop body of the inbound thread; None when nothing could be deserialized.
    method InboundIteration(read: Option<Message>)
      requires Valid()
      modifies inboundQueue
      ensures Valid()
      ensures Value() == old(Value()).(inbox := old(inboundQueue.items) + if read.Some? then [read.value] else [])
    {
      if read.Some? {
        inboundQueue.Push(read.value);
      }
    }

    method SendReturn(request: InboundRequest, result: Option<CallbackReturn>, requestId: uint32)
      requires Valid() && request.context.Some?
      modifies this`wire
      ensures Valid()
      ensures
        wire == old(wire) + AsSeq(SpinProtocol.ReturnFor(request.context.value, requestId, result))
      ensures result.None? || |result.value.arguments| > FUNCTION_CALL_ARGUMENTS_MAX_LENGTH ==> wire == old(wire)
      ensures result.Some? && |result.value.arguments| <= FUNCTION_CALL_ARGUMENTS_MAX_LENGTH ==>
        var call := UserCallRequest(Host, request.context.value.caller, FunctionCall(result.value.name, result.value.arguments));
        wire == old(wire)
          + [Message(request.context.value.destination, request.context.value.source, Request(requestId, call))]
    {
      if result.Some? {
        var arguments := result.value.arguments;
        if |arguments| > FUNCTION_CALL_ARGUMENTS_MAX_LENGTH {
          return;
        }
        var context := request.context.value;
        var message := CreateFunctionCallRequest(context.destination, context.source, requestId, context.caller,
                                                 result.value.name, arguments);
        wire := wire + [message];
      }
    }

    // The loop over the pending requests, which erases as it goes. `ready` holds the futures that are
    // ready, with their values; the k-th request examined draws the k-th random id, should it need one.
    method ScanRequests(ready: map<nat, Option<CallbackReturn>>, requestIds: seq<uint32>)
      requires Valid() && |requestIds| == |inboundRequests|
      modifies this`wire, this`inboundRequests
      ensures Valid()
      ensures Value() == ScanPending(old(Value()), ready, requestIds)
      ensures exists at :: StaysAt(inboundRequests, old(inboundRequests), ready, at)
      ensures old(wire) <= wire
      ensures exists at :: ReturnsFrom(wire[|old(wire)|..], old(inboundRequests), ready, requestIds, at)
    {
      hide Unfinished, Returns, ReturnOf, SpinProtocol.StillRuns;
      var i, drawn := 0, 0;
      ghost var all := inboundRequests;
      NothingToScan(ready);
      while i < |inboundRequests|
        invariant 0 <= i <= |inboundRequests| && 0 <= drawn <= |all| && |inboundRequests| - i == |all| - drawn
        invariant Valid()
        invariant inboundRequests[i..] == all[drawn..]
        invariant inboundRequests[..i] + Unfinished(all[drawn..], ready) == Unfinished(all, ready)
        invariant wire + Returns(all[drawn..], ready, requestIds[drawn..]) == old(wire) + Returns(all, ready, requestIds)
        decreases |all| - drawn
      {
        ScanTurn(inboundRequests, i, all, drawn, wire, ready, requestIds);
        i := ExamineAt(i, ready, requestIds[drawn]);
        drawn := drawn + 1;
      }
      NothingToScan(ready);
      ScanIsOver(inboundRequests, wire, all, old(wire), ready, requestIds);
    }

    // One turn of the loop: the position to look at next.
    method ExamineAt(i: nat, ready: map<nat, Option<CallbackReturn>>, requestId: uint32) returns (next: nat)
      requires Valid() && i < |inboundRequests|
      modifies this`wire, this`inboundRequests
      ensures Valid()
      ensures wire == old(wire) + ReturnOf(old(inboundRequests)[i], ready, requestId)
      ensures
        var kept := SpinProtocol.StillRuns(old(inboundRequests)[i].future, ready);
        && next == (if kept then i + 1 else i)
        && inboundRequests == if kept then old(inboundRequests) else old(inboundRequests)[..i] + old(inboundRequests)[i + 1..]
    {
      var request := inboundRequests[i];
      if request.future.Some? {
        if request.future.value in ready {
          SendReturn(request, ready[request.future.value], requestId);
          inboundRequests := inboundRequests[..i] + inboundRequests[i + 1..];
          next := i;
        } else {
          next := i + 1;
        }
      } else {
        inboundRequests := inboundRequests[..i] + inboundRequests[i + 1..];
        next := i;
      }
    }

    method Greet(reply: Message) returns (ok: bool)
      requires Valid()
      modifies this`wire, this`swarmAgentId
      ensures Valid()
      ensures ok <==> connected && reply.body.Greeting?
      ensures Value() == Greeted(old(Value()), reply)
      ensures wire == old(wire) + if connected then [Message(0, 0, Greeting(0))] else []
      ensures swarmAgentId == if ok then reply.body.agent else old(swarmAgentId)
    {
      if connected {
        wire := wire + [GREET];
        var agent := messageHandler.HandleGreet(reply);
        if agent.Some? {
          swarmAgentId := agent.value;
          return true;
        }
      }
      return false;
    }

    // `defined` is false when the message asks for a description just past the registry's end.
    method HandleOne(token: nat) returns (defined: bool)
      requires Valid()
      modifies this`wire, this`inboundRequests, this`inboundResponses, inboundQueue, receiver.Repr
      ensures fresh(receiver.Repr - old(receiver.Repr))
      ensures defined <==> HandleInbound(old(Value()), token).Some?
      ensures defined ==> Valid() && Value() == HandleInbound(old(Value()), token).value
    {
      hide Route, Absorb, Recorded;
      var empty := inboundQueue.Empty();
      if empty {
        return true;
      }
      var routed := HandleFront(token);
      if routed.Broken? {
        return false;
      }
      Record(routed);
      return true;
    }

    method HandleFront(token: nat) returns (routed: Routed)
      requires Valid() && inboundQueue.items != []
      modifies inboundQueue, receiver.Repr
      ensures fresh(receiver.Repr - old(receiver.Repr))
      ensures routed == Route(old(registry.Value()), old(inboundQueue.items)[0], token)
      ensures routed.AsRequest? && routed.handle.future.Some? ==> routed.handle.context.Some?
      ensures !routed.Broken? ==>
        && Valid()
        && var outcome := Absorb(old(receiver.Value()), old(inboundQueue.items)[0]);
        Value() == old(Value()).(inbox := old(inboundQueue.items)[1..], receiver := outcome.receiver,
                                 delivered := old(receiver.delivered) + outcome.deliveries)
    {
      hide Route, Absorb;
      var message := inboundQueue.Front();
      RoutedIsComplete(registry.Value(), message, token);
      routed := messageHandler.HandleMessage(message, token);
      if !routed.Broken? {
        inboundQueue.Pop();
      }
    }

    // What is done with the outcome of handling a message.
    method Record(routed: Routed)
      requires Valid() && (routed.AsRequest? && routed.handle.future.Some? ==> routed.handle.context.Some?)
      modifies this`wire, this`inboundRequests, this`inboundResponses
      ensures Valid()
      ensures Value() == Recorded(old(Value()), routed)
      ensures routed.AsRequest? ==>
        && inboundRequests == old(inboundRequests) + [routed.handle] && wire == old(wire) + [routed.handle.response]
        && inboundResponses == old(inboundResponses)
      ensures routed.AsResponse? ==>
        && inboundResponses == old(inboundResponses)[routed.response.id := routed.response]
        && inboundRequests == old(inboundRequests) && wire == old(wire)
    {
      match routed {
        case AsRequest(handle) =>
          inboundRequests := inboundRequests + [handle];
          wire := wire + [handle.response];
        case AsResponse(response) =>
          inboundResponses := inboundResponses[response.id := response];
        case _ =>
      }
    }

    // `accepted`: what `listen` makes of the connection. `reply`: what the peer answers to the greeting.
    method Spin(token: nat, ready: map<nat, Option<CallbackReturn>>, requestIds: seq<uint32>, accepted: bool, reply: Message)
      returns (defined: bool)
      requires Valid()
      requires connected && HandleInbound(Value(), token).Some? ==>
        |requestIds| == |HandleInbound(Value(), token).value.pending|
      modifies this, inboundQueue, outboundQueue, receiver.Repr
      ensures fresh(receiver.Repr - old(receiver.Repr))
      ensures defined <==> old(connected) ==> HandleInbound(old(Value()), token).Some?
      ensures defined ==> Valid()
      ensures defined && old(connected) ==>
        Value() == KeptAlive(ScanPending(HandleInbound(old(Value()), token).value, ready, requestIds), keepAliveNbSpin)
      ensures defined && !old(connected) ==>
        Value() == KeptAlive(Reconnected(old(Value()), accepted, reply), keepAliveNbSpin)
    {
      hide HandleInbound, ScanPending, KeptAlive, Reconnected;
      if connected {
        defined := HandleOne(token);
        if !defined {
          return;
        }
        ScanRequests(ready, requestIds);
      } else {
        defined := true;
        Reconnect(accepted, reply);
      }
      CountSpin();
    }

    method Reconnect(accepted: bool, reply: Message)
      requires Valid()
      modifies this`connected, this`wire, this`swarmAgentId
      ensures Valid()
      ensures Value() == Reconnected(old(Value()), accepted, reply)
    {
      connected := accepted;
      var greeted := Greet(reply);
      if !greeted {
        connected := false;
      }
    }

    method CountSpin()
      requires Valid()
      modifies this`keepAliveCounter, outboundQueue
      ensures Valid()
      ensures Value() == KeptAlive(old(Value()), keepAliveNbSpin)
      ensures
        var due := keepAliveNbSpin > 0 && old(keepAliveCounter) >= keepAliveNbSpin;
        && outboundQueue.items == old(outboundQueue.items)
                                  + (if due && connected then [Handle(Message(0, 0, Greeting(0)), Ready, 0)] else [])
        && keepAliveCounter == if keepAliveNbSpin == 0 then old(keepAliveCounter)
                               else if due then 1 else old(keepAliveCounter) + 1
    {
      if keepAliveNbSpin > 0 {
        if keepAliveCounter >= keepAliveNbSpin {
          keepAliveCounter := 0;
          var queued := QueueAndSend(GREET);
        }
        keepAliveCounter := keepAliveCounter + 1;
      }
    }
  }

  lemma RoutedIsComplete(r: Registry, m: Message, token: nat)
    requires Agree(r)
    ensures
      var routed := Route(r, m, token);
      routed.AsRequest? && routed.handle.future.Some? ==> routed.handle.context.Some?
  {
    if IsUserCall(m) {
      UserCallsAreAcknowledged(r, m, token, []);
    }
  }

  /** A spin on a dead connection ends connected exactly when a peer was accepted and answered the
      greeting with one; only then is the bridge's own id replaced, by the peer's. The one message sent
      is the greeting, to an accepted peer, and nothing queued or pending is touched. */
  lemma ConnectedMeansGreeted(v: View, accepted: bool, reply: Message)
    ensures
      var v' := Reconnected(v, accepted, reply);
      && (v'.connected <==> accepted && reply.body.Greeting?)
      && v'.agent == (if v'.connected then reply.body.agent else v.agent)
      && v'.wire == (if accepted then v.wire + [Message(0, 0, Greeting(0))] else v.wire)
      && v' == v.(connected := v'.connected, agent := v'.agent, wire := v'.wire)
  {
  }
}
