/** The whole bridge: user threads inside `sendBytes` and `queueAndSend`, the spinning thread, the inbound
    and outbound threads, the connection. What the spinning thread does to the outbound side, storing
    responses and queueing greetings, happens in its own steps. */
module BridgeSystem {
  import opened Prelude
  import opened Messages
  import opened Fragmentation
  import opened MessageHandling
  import opened SpinInvariants
  import Out = OutboundProtocol
  import OutInv = OutboundInvariants
  import OutThm = OutboundTheorems
  import Spinning = SpinProtocol
  import UserCallbacks

  /** Where a `sendBytes` call stands in its loop. */
  datatype Stage =
    | Observing            // about to test the connection for the next packet
    | Pushing              // the connection was up: about to push the packet
    | Returned(ok: bool)

  /** A `sendBytes` call. `places` are the serials its packets got, in order: history. */
  datatype Call = Call(destination: uint32, transfer: uint32, payload: Payload, stage: Stage, places: seq<nat>)

  datatype System = System(out: Out.State, spin: Spinning.State, calls: seq<Call>)

  datatype Event =
    | Begin(destination: uint32, transfer: uint32, payload: Payload)
    | Observe(call: nat)
    | Enqueue(call: nat, agent: uint32, requestId: uint32)
    | UserPush(message: Message)
    | Connect
    | StartThread
    | Disconnect
    | OutboundStep
    | SpinEvent(event: Spinning.Event)

  function Start(period: uint32): System {
    System(Out.INIT, Spinning.Start(period), [])
  }

  /** The event of the outbound side that an event of the system amounts to, if any. */
  function OutEvent(s: System, e: Event): Option<Out.Event> {
    match e
    case Enqueue(c, agent, requestId) =>
      if c < |s.calls| && |s.calls[c].places| < PacketCount(|s.calls[c].payload|) then
        Some(Out.Push(PacketMessage(agent, s.calls[c].destination, requestId, s.calls[c].transfer,
                                    s.calls[c].payload, |s.calls[c].places|)))
      else None
    case UserPush(m) => Some(Out.Push(m))
    case Connect => Some(Out.Connect)
    case StartThread => Some(Out.Start)
    case Disconnect => Some(Out.Disconnect)
    case OutboundStep => Some(Out.ThreadStep)
    case SpinEvent(Work(_)) =>
      (match s.spin.phase
       case Recording(AsResponse(r)) => Some(Out.Store(r))
       case Beating =>
         if Spinning.Beat(s.spin.counter, s.spin.period).1 && s.out.connected then Some(Out.Push(GREET)) else None
       case _ => None)
    case _ => None
  }

  function NextCall(c: Call, e: Event, s: System): Call {
    match e
    case Observe(_) => c.(stage := if s.out.connected then Pushing else Returned(false))
    case Enqueue(_, _, _) =>
      c.(places := c.places + [|s.out.pushed|],
         stage := if |c.places| + 1 >= PacketCount(|c.payload|) then Returned(true) else Observing)
    case _ => c
  }

  function NextCalls(s: System, e: Event): seq<Call> {
    match e
    case Begin(destination, transfer, payload) =>
      s.calls + [Call(destination, transfer, payload, if payload == [] then Returned(true) else Observing, [])]
    case Observe(c) => if c < |s.calls| then s.calls[c := NextCall(s.calls[c], e, s)] else s.calls
    case Enqueue(c, _, _) => if c < |s.calls| then s.calls[c := NextCall(s.calls[c], e, s)] else s.calls
    case _ => s.calls
  }

  ghost predicate Enabled(s: System, e: Event) {
    && (OutEvent(s, e).Some? ==> Out.Enabled(s.out, OutEvent(s, e).value))
    && match e
       case Observe(c) => c < |s.calls| && s.calls[c].stage == Observing
       case Enqueue(c, _, _) => c < |s.calls| && s.calls[c].stage == Pushing
       case SpinEvent(event) => Spinning.Enabled(s.spin, event) && (event.Spin? ==> event.connected == s.out.connected)
       case _ => true
  }

  function Next(s: System, e: Event): System
    requires UserCallbacks.Agree(s.spin.registry)
  {
    System(
      match OutEvent(s, e) case Some(o) => Out.Next(s.out, o) case None => s.out,
      if e.SpinEvent? then Spinning.Next(s.spin, e.event) else s.spin,
      NextCalls(s, e))
  }

  /** The state after the first k events. */
  ghost function After(period: uint32, es: seq<Event>, k: nat): (s: System)
    requires k <= |es|
    ensures UserCallbacks.Agree(s.spin.registry)
  {
    if k == 0 then Start(period)
    else
      var s := After(period, es, k - 1);
      if es[k - 1].SpinEvent? then
        Spinning.RegistryStaysInAgreement(s.spin, es[k - 1].event);
        Next(s, es[k - 1])
      else Next(s, es[k - 1])
  }

  ghost predicate Legal(period: uint32, es: seq<Event>) {
    forall k :: 0 <= k < |es| ==> Enabled(After(period, es, k), es[k])
  }

  // ---------- The parts keep their invariants inside the whole ----------

  /** Whose answers have been stored: exactly those the spinning thread recorded. */
  ghost predicate StoresAgree(s: System) {
    s.out.stored == Ids(s.spin.stored)
  }

  function Ids(rs: seq<InboundResponse>): seq<uint32> {
    seq(|rs|, i requires 0 <= i < |rs| => rs[i].id)
  }

  /** The packets of a call pushed so far are the first ones, in order, under the call's transfer id. */
  ghost predicate CallFits(c: Call, out: Out.State) {
    && |c.places| <= PacketCount(|c.payload|)
    && StrictlyIncreasing(c.places)
    && (forall i :: 0 <= i < |c.places| ==> c.places[i] < |out.pushed| && IsPacketOf(out.pushed[c.places[i]], c, i))
    && (c.stage == Returned(true) <==> |c.places| == PacketCount(|c.payload|))
  }

  ghost predicate IsPacketOf(m: Message, c: Call, i: nat)
    requires i < PacketCount(|c.payload|)
  {
    m.body.Request? && m == PacketMessage(m.source, c.destination, m.body.id, c.transfer, c.payload, i)
  }

  ghost predicate CallsFit(calls: seq<Call>, out: Out.State) {
    forall c :: 0 <= c < |calls| ==> CallFits(calls[c], out)
  }

  ghost predicate Invariant(s: System) {
    && Out.Invariant(s.out)
    && SpinInvariants.Invariant(s.spin)
    && StoresAgree(s)
    && CallsFit(s.calls, s.out)
  }

  lemma OutNext(s: System, e: Event)
    requires Out.Invariant(s.out) && Enabled(s, e) && UserCallbacks.Agree(s.spin.registry)
    ensures Out.Invariant(Next(s, e).out)
    ensures s.out.pushed <= Next(s, e).out.pushed
  {
    hide Out.Invariant, Out.Next, Spinning.Next;
    match OutEvent(s, e)
    case Some(o) =>
      OutInv.InvariantNext(s.out, o);
      OutInv.LogsGrow(s.out, o);
    case None =>
  }

  lemma SpinNext(s: System, e: Event)
    requires SpinInvariants.Invariant(s.spin) && Enabled(s, e)
    ensures SpinInvariants.Invariant(Next(s, e).spin)
  {
    hide SpinInvariants.Invariant, Out.Next, Spinning.Next;
    if e.SpinEvent? {
      SpinInvariants.InvariantNext(s.spin, e.event);
    }
  }

  lemma StoredBy(s: Out.State, o: Out.Event)
    ensures Out.Next(s, o).stored == if o.Store? then s.stored + [o.response.id] else s.stored
  {
    hide Out.Settle;
    if o == Out.ThreadStep && s.phase.Deciding? {
      SettleStores(s);
    }
  }

  lemma SettleStores(s: Out.State)
    requires s.phase.Deciding?
    ensures Out.Settle(s, s.phase.held).stored == s.stored
  {
  }

  lemma SpinStoredBy(s: Spinning.State, e: Spinning.Event)
    requires UserCallbacks.Agree(s.registry)
    ensures
      Spinning.Next(s, e).stored ==
      if e.Work? && s.phase.Recording? && s.phase.routed.AsResponse? then s.stored + [s.phase.routed.response] else s.stored
  {
  }

  lemma StoresAgreeNext(s: System, e: Event)
    requires StoresAgree(s) && Enabled(s, e) && UserCallbacks.Agree(s.spin.registry)
    ensures StoresAgree(Next(s, e))
  {
    if OutEvent(s, e).Some? {
      StoredBy(s.out, OutEvent(s, e).value);
    }
    if e.SpinEvent? {
      SpinStoredBy(s.spin, e.event);
    }
    hide Out.Next, Spinning.Next;
    if e.SpinEvent? && e.event.Work? && s.spin.phase.Recording? && s.spin.phase.routed.AsResponse? {
      var r := s.spin.phase.routed.response;
      assert OutEvent(s, e) == Some(Out.Store(r));
      assert Ids(s.spin.stored + [r]) == Ids(s.spin.stored) + [r.id];
    }
  }

  lemma FitsLater(c: Call, out: Out.State, out': Out.State)
    requires CallFits(c, out) && out.pushed <= out'.pushed
    ensures CallFits(c, out')
  {
    forall i | 0 <= i < |c.places| ensures IsPacketOf(out'.pushed[c.places[i]], c, i) {
      assert out'.pushed[c.places[i]] == out.pushed[c.places[i]];
    }
  }

  lemma EnqueuedFits(c: Call, out: Out.State, out': Out.State, agent: uint32, requestId: uint32)
    requires CallFits(c, out) && c.stage == Pushing && |c.places| < PacketCount(|c.payload|)
    requires out'.pushed == out.pushed + [PacketMessage(agent, c.destination, requestId, c.transfer, c.payload, |c.places|)]
    ensures
      CallFits(c.(places := c.places + [|out.pushed|],
                  stage := if |c.places| + 1 >= PacketCount(|c.payload|) then Returned(true) else Observing), out')
  {
    IncreasingSnoc(c.places, |out.pushed|);
    var c' := c.(places := c.places + [|out.pushed|],
                 stage := if |c.places| + 1 >= PacketCount(|c.payload|) then Returned(true) else Observing);
    hide PacketMessage;
    forall i | 0 <= i < |c'.places| ensures c'.places[i] < |out'.pushed| && IsPacketOf(out'.pushed[c'.places[i]], c', i) {
      if i < |c.places| {
        assert out'.pushed[c.places[i]] == out.pushed[c.places[i]];
        assert IsPacketOf(out.pushed[c.places[i]], c, i);
      } else {
        PacketMessageIsPacket(agent, c.destination, requestId, c.transfer, c.payload, i);
      }
    }
  }

  lemma PacketMessageIsPacket(agent: uint32, destination: uint32, requestId: uint32, transfer: uint32, payload: Payload, k: nat)
    requires k < PacketCount(|payload|)
    ensures
      var m := PacketMessage(agent, destination, requestId, transfer, payload, k);
      m.source == agent && m.body.Request? && m.body.id == requestId && PacketIn(m) == Some(PacketAt(transfer, payload, k))
  {
  }

  lemma CallsNext(s: System, e: Event)
    requires CallsFit(s.calls, s.out) && Enabled(s, e) && UserCallbacks.Agree(s.spin.registry)
    ensures CallsFit(Next(s, e).calls, Next(s, e).out)
  {
    var s' := Next(s, e);
    if OutEvent(s, e).Some? {
      OutInv.PushedNext(s.out, OutEvent(s, e).value);
    }
    if e.Begin? {
      PacketCountBounds(|e.payload|);
    }
    hide Out.Next, Spinning.Next, CallFits, PacketMessage;
    forall c | 0 <= c < |s'.calls| ensures CallFits(s'.calls[c], s'.out) {
      if c < |s.calls| && s'.calls[c] == s.calls[c] {
        FitsLater(s.calls[c], s.out, s'.out);
      } else {
        ChangedCallFits(s, e, c);
      }
    }
  }

  lemma ChangedCallFits(s: System, e: Event, c: nat)
    requires CallsFit(s.calls, s.out) && Enabled(s, e) && UserCallbacks.Agree(s.spin.registry)
    requires c < |Next(s, e).calls| && (c < |s.calls| ==> Next(s, e).calls[c] != s.calls[c])
    ensures CallFits(Next(s, e).calls[c], Next(s, e).out)
  {
    var s' := Next(s, e);
    match e
    case Begin(destination, transfer, payload) =>
      PacketCountBounds(|payload|);
    case Observe(_) =>
    case Enqueue(_, agent, requestId) =>
      assert CallFits(s.calls[c], s.out);
      OutInv.PushedNext(s.out, OutEvent(s, e).value);
      EnqueuedFits(s.calls[c], s.out, s'.out, agent, requestId);
    case _ =>
  }

  lemma {:induction false} InvariantAlways(period: uint32, es: seq<Event>, k: nat)
    requires Legal(period, es) && k <= |es|
    ensures Invariant(After(period, es, k))
  {
    hide Out.Invariant, SpinInvariants.Invariant, Next, Enabled;
    if k == 0 {
      OutInv.InitInvariant();
      SpinInvariants.InvariantAtStart(period);
    } else {
      InvariantAlways(period, es, k - 1);
      var s, e := After(period, es, k - 1), es[k - 1];
      OutNext(s, e);
      SpinNext(s, e);
      StoresAgreeNext(s, e);
      CallsNext(s, e);
    }
  }
}
