/** From `sendBytes` on one bridge to the user's callback on another. */
module EndToEnd {
  import opened Prelude
  import opened Messages
  import opened Fragmentation
  import opened BytesAccumulation
  import opened BytesReceiving
  import opened ReceiverProperties
  import opened MessageHandling
  import opened SpinInvariants
  import SpinTheorems
  import Spinning = SpinProtocol
  import Out = OutboundProtocol
  import OutInv = OutboundInvariants
  import OutThm = OutboundTheorems
  import UserCallbacks
  import Progress = OutboundProgress
  import opened BridgeSystem

  // ---------- The parts of a run are runs of the parts ----------

  /** The outbound events in the first k events of the system. */
  ghost function OutEvents(period: uint32, es: seq<Event>, k: nat): seq<Out.Event>
    requires k <= |es|
  {
    if k == 0 then []
    else OutEvents(period, es, k - 1) +
         match OutEvent(BridgeSystem.After(period, es, k - 1), es[k - 1]) case Some(o) => [o] case None => []
  }

  lemma {:induction false} OutAfterPrefix(os: seq<Out.Event>, o: Out.Event, k: nat)
    requires k <= |os|
    ensures Out.After(os + [o], k) == Out.After(os, k)
  {
    hide Out.Next;
    if k == 0 {
    } else {
      OutAfterPrefix(os, o, k - 1);
    }
  }

  lemma OutExtend(os: seq<Out.Event>, o: Out.Event)
    requires Out.Legal(os) && Out.Enabled(Out.After(os, |os|), o)
    ensures Out.Legal(os + [o]) && Out.After(os + [o], |os| + 1) == Out.Next(Out.After(os, |os|), o)
  {
    hide Out.Next, Out.Enabled;
    OutAfterPrefix(os, o, |os|);
    forall j | 0 <= j < |os + [o]| ensures Out.Enabled(Out.After(os + [o], j), (os + [o])[j]) {
      OutAfterPrefix(os, o, j);
    }
  }

  /** Whatever is proved of every run of the outbound side holds of the outbound side of every run of
      the bridge. */
  lemma {:induction false} OutboundPartIsARun(period: uint32, es: seq<Event>, k: nat)
    requires BridgeSystem.Legal(period, es) && k <= |es|
    ensures
      var os := OutEvents(period, es, k);
      Out.Legal(os) && Out.After(os, |os|) == BridgeSystem.After(period, es, k).out
  {
    hide Out.Next, Out.Legal, Out.After, BridgeSystem.Next, BridgeSystem.Enabled, OutEvent;
    if k == 0 {
      NoEvents();
    } else {
      OutboundPartIsARun(period, es, k - 1);
      OutPartStep(OutEvents(period, es, k - 1), BridgeSystem.After(period, es, k - 1), es[k - 1]);
    }
  }

  lemma OutPartStep(os: seq<Out.Event>, s: System, e: Event)
    requires Out.Legal(os) && Out.After(os, |os|) == s.out
    requires BridgeSystem.Enabled(s, e) && UserCallbacks.Agree(s.spin.registry)
    ensures
      var os' := os + match OutEvent(s, e) case Some(o) => [o] case None => [];
      Out.Legal(os') && Out.After(os', |os'|) == BridgeSystem.Next(s, e).out
  {
    hide Out.Next, Out.Legal, Out.After, Out.Enabled, Spinning.Next, Spinning.Enabled, NextCalls, OutEvent;
    match OutEvent(s, e)
    case Some(o) => OutExtend(os, o);
    case None => assert os + [] == os;
  }

  lemma NoEvents()
    ensures Out.Legal([]) && Out.After([], 0) == Out.INIT
  {
  }

  /** How many of the first n arrivals answer request `id`: generic responses with that id, bare or about a
      user call, and responses to function calls. */
  function AnswersTo(id: uint32, arrived: seq<Message>, n: nat): nat
    requires n <= |arrived|
  {
    if n == 0 then 0
    else AnswersTo(id, arrived, n - 1) +
         match arrived[n - 1].body
         case Response(i, GenericResponse(_, _)) => if i == id then 1 else 0
         case Response(i, UserCallResponse(_, _, GenericReply(_, _))) => if i == id then 1 else 0
         case Response(i, UserCallResponse(_, _, FunctionCallReply(_, _))) => if i == id then 1 else 0
         case _ => 0
  }

  lemma {:induction false} AnswersToAre(id: uint32, arrived: seq<Message>, n: nat)
    requires n <= |arrived|
    ensures multiset(Ids(AnswersAmong(arrived, n)))[id] == AnswersTo(id, arrived, n)
  {
    if n == 0 {
    } else {
      AnswersToAre(id, arrived, n - 1);
      var before := AnswersAmong(arrived, n - 1);
      match AnswerIn(arrived[n - 1])
      case Some(answer) => assert Ids(before + [answer]) == Ids(before) + [answer.id];
      case None => assert before + [] == before;
    }
  }

  /** Each response pays for at most one retirement, across the whole bridge: for every id, the requests
      dropped as answered are at most the generic and function-call responses with that id among the
      messages handled. Host-API responses, in particular those about neighbours, drop nothing. */
  lemma RetirementsArePaidByArrivals(period: uint32, es: seq<Event>, k: nat, id: uint32)
    requires BridgeSystem.Legal(period, es) && k <= |es|
    ensures
      var s := BridgeSystem.After(period, es, k);
      && 0 <= Done(s.spin) <= |s.spin.arrived|
      && multiset(s.out.consumed)[id] + (if id in s.out.responses then 1 else 0)
         <= AnswersTo(id, s.spin.arrived, Done(s.spin))
      && |s.out.retired| == |s.out.consumed|
      && (forall n :: 0 <= n < |s.out.retired| ==>
           s.out.retired[n] < |s.out.pushed| && s.out.pushed[s.out.retired[n]].body.Request?
           && s.out.pushed[s.out.retired[n]].body.id == s.out.consumed[n])
  {
    hide BridgeSystem.After, Out.After, OutEvents, AnswersTo, AnswersAmong;
    BridgeSystem.InvariantAlways(period, es, k);
    OutboundPartIsARun(period, es, k);
    var s := BridgeSystem.After(period, es, k);
    AnswersToAre(id, s.spin.arrived, Done(s.spin));
    var os := OutEvents(period, es, k);
    OutThm.ResponsesPayForRetirements(os, |os|, id);
  }

  // ---------- What the peer is sent ----------

  ghost predicate Known(o: Out.State) {
    forall i <- o.sent :: i < |o.pushed|
  }

  /** The packets, in order, among the first n messages serialized while the connection was up. */
  ghost function Received(o: Out.State, n: nat): seq<Input>
    requires Known(o) && n <= |o.sent|
  {
    if n == 0 then []
    else Received(o, n - 1) +
         (assert o.sent[n - 1] in o.sent;
          if o.sent[n - 1] in o.lost then [] else Spinning.InputsIn(o.pushed[o.sent[n - 1]]))
  }

  /** Nobody else uses the transfer id of the call. */
  ghost predicate OwnsTransfer(c: Call, o: Out.State) {
    forall i :: 0 <= i < |o.pushed| && i !in c.places ==>
      PacketIn(o.pushed[i]).None? || PacketIn(o.pushed[i]).value.id != c.transfer
  }

  /** Every packet of the call has been serialized, while the connection was up. */
  ghost predicate AllSent(c: Call, o: Out.State) {
    forall i <- c.places :: i in o.sent && i !in o.lost
  }

  lemma {:induction false} OnlyForConcat(a: seq<Input>, b: seq<Input>, id: uint32)
    ensures OnlyFor(a + b, id) == OnlyFor(a, id) + OnlyFor(b, id)
    decreases |a|
  {
    if a == [] {
      assert a + b == b;
    } else {
      var head := if Concerns(a[0], id) then [a[0]] else [];
      assert (a + b)[0] == a[0] && (a + b)[1..] == a[1..] + b;
      OnlyForConcat(a[1..], b, id);
      assert head + (OnlyFor(a[1..], id) + OnlyFor(b, id)) == head + OnlyFor(a[1..], id) + OnlyFor(b, id);
    }
  }

  lemma OnlyForInputsIn(m: Message, id: uint32)
    ensures OnlyFor(Spinning.InputsIn(m), id) ==
      if PacketIn(m).Some? && PacketIn(m).value.id == id then [Arrives(PacketIn(m).value)] else []
  {
    var inputs := Spinning.InputsIn(m);
    if inputs != [] {
      assert inputs[1..] == [];
    }
  }

  /** m packets of the call are among the first n messages sent, and they are the first m. */
  ghost predicate Progressed(c: Call, o: Out.State, n: nat, m: nat)
    requires n <= |o.sent| && m <= |c.places|
  {
    forall i :: 0 <= i < |c.places| ==> (i < m <==> c.places[i] in o.sent[..n])
  }

  lemma NextSent(c: Call, o: Out.State, n: nat, m: nat, j: nat)
    requires n < |o.sent| && m <= |c.places| && j < |c.places| && c.places[j] == o.sent[n]
    requires Progressed(c, o, n, m) && AllSent(c, o)
    requires StrictlyIncreasing(c.places) && StrictlyIncreasing(o.sent)
    ensures j == m && Progressed(c, o, n + 1, m + 1)
  {
    assert forall q :: 0 <= q < n ==> o.sent[..n][q] == o.sent[q];
    assert o.sent[n] !in o.sent[..n];
    assert c.places[m] in c.places && c.places[j] in c.places;
    assert o.sent[..n + 1] == o.sent[..n] + [o.sent[n]];
  }

  lemma OtherSent(c: Call, o: Out.State, n: nat, m: nat)
    requires n < |o.sent| && m <= |c.places| && o.sent[n] !in c.places
    requires Progressed(c, o, n, m)
    ensures Progressed(c, o, n + 1, m)
  {
    assert o.sent[..n + 1] == o.sent[..n] + [o.sent[n]];
    forall i | 0 <= i < |c.places| ensures i < m <==> c.places[i] in o.sent[..n + 1] {
      assert c.places[i] in c.places;
    }
  }

  /** The first m packets of a call, as inputs of the peer. */
  function FirstPackets(c: Call, m: nat): seq<Input>
    requires m <= PacketCount(|c.payload|)
  {
    PacketCountBounds(|c.payload|);
    Remaining(c.transfer, Pieces(c.payload), 0)[..m]
  }

  lemma NextPacket(c: Call, m: nat)
    requires m < PacketCount(|c.payload|)
    ensures FirstPackets(c, m + 1) == FirstPackets(c, m) + [Arrives(PacketAt(c.transfer, c.payload, m))]
  {
    PacketCountBounds(|c.payload|);
  }

  lemma ReceivedNext(c: Call, o: Out.State, n: nat, m: nat) returns (m': nat)
    requires Known(o) && n < |o.sent| && StrictlyIncreasing(o.sent)
    requires CallFits(c, o) && c.stage == Returned(true) && OwnsTransfer(c, o) && AllSent(c, o)
    requires m <= |c.places| && Progressed(c, o, n, m) && OnlyFor(Received(o, n), c.transfer) == FirstPackets(c, m)
    ensures m' <= |c.places| && Progressed(c, o, n + 1, m')
    ensures OnlyFor(Received(o, n + 1), c.transfer) == FirstPackets(c, m')
  {
    var x := o.sent[n];
    assert x in o.sent;
    var here := if x in o.lost then [] else Spinning.InputsIn(o.pushed[x]);
    assert Received(o, n + 1) == Received(o, n) + here;
    OnlyForConcat(Received(o, n), here, c.transfer);
    hide PacketMessage, Remaining, Pieces, Spinning.InputsIn, OnlyFor, Received, FirstPackets;
    if x in c.places {
      var j :| 0 <= j < |c.places| && c.places[j] == x;
      NextSent(c, o, n, m, j);
      OwnPacket(c, o, m);
      NextPacket(c, m);
      m' := m + 1;
    } else {
      OtherSent(c, o, n, m);
      OthersPacket(c, o, x);
      OnlyForNothing(c.transfer);
      m' := m;
    }
  }

  lemma NothingSent(c: Call, o: Out.State)
    requires Known(o) && |c.places| <= PacketCount(|c.payload|)
    ensures Progressed(c, o, 0, 0) && OnlyFor(Received(o, 0), c.transfer) == FirstPackets(c, 0)
  {
    hide PacketMessage, Pieces;
  }

  /** Of the first n messages sent, those the transfer receives are its first m packets, in order. */
  lemma {:induction false} ReceivedSoFar(c: Call, o: Out.State, n: nat) returns (m: nat)
    requires Known(o) && n <= |o.sent| && StrictlyIncreasing(o.sent)
    requires CallFits(c, o) && c.stage == Returned(true) && OwnsTransfer(c, o) && AllSent(c, o)
    ensures m <= |c.places| && Progressed(c, o, n, m)
    ensures OnlyFor(Received(o, n), c.transfer) == FirstPackets(c, m)
  {
    assert |c.places| <= PacketCount(|c.payload|);
    hide Received, OnlyFor, FirstPackets, Progressed, OwnsTransfer, Known, CallFits, AllSent, StrictlyIncreasing;
    if n == 0 {
      m := 0;
      NothingSent(c, o);
    } else {
      m := ReceivedSoFar(c, o, n - 1);
      m := ReceivedNext(c, o, n - 1, m);
    }
  }

  lemma OnlyForNothing(id: uint32)
    ensures OnlyFor([], id) == []
  {
  }

  lemma OwnPacket(c: Call, o: Out.State, m: nat)
    requires CallFits(c, o) && m < |c.places|
    ensures OnlyFor(Spinning.InputsIn(o.pushed[c.places[m]]), c.transfer) == [Arrives(PacketAt(c.transfer, c.payload, m))]
  {
    var message := o.pushed[c.places[m]];
    hide PacketMessage;
    assert IsPacketOf(message, c, m);
    PacketMessageIsPacket(message.source, c.destination, message.body.id, c.transfer, c.payload, m);
    OnlyForInputsIn(message, c.transfer);
  }

  lemma OthersPacket(c: Call, o: Out.State, x: nat)
    requires OwnsTransfer(c, o) && x < |o.pushed| && x !in c.places
    ensures OnlyFor(Spinning.InputsIn(o.pushed[x]), c.transfer) == []
  {
    OnlyForInputsIn(o.pushed[x], c.transfer);
  }

  lemma FullyProgressed(c: Call, o: Out.State, m: nat)
    requires m <= |c.places| && Progressed(c, o, |o.sent|, m) && AllSent(c, o)
    ensures m == |c.places|
  {
    assert o.sent[..|o.sent|] == o.sent;
    if |c.places| > 0 {
      assert c.places[|c.places| - 1] in c.places;
    }
  }

  /** Once all its packets are sent, the peer gets exactly the packets of the transfer, in order and once
      each, whatever else is sent around them. */
  lemma TransferReachesPeer(c: Call, o: Out.State)
    requires Out.Invariant(o)
    requires CallFits(c, o) && c.stage == Returned(true) && OwnsTransfer(c, o) && AllSent(c, o)
    ensures Known(o) && |Pieces(c.payload)| < UINT32_LIMIT
    ensures OnlyFor(Received(o, |o.sent|), c.transfer) == Remaining(c.transfer, Pieces(c.payload), 0)
  {
    OutThm.SentInOrder(o);
    assert |c.places| == PacketCount(|c.payload|);
    hide Out.Invariant, CallFits, OwnsTransfer;
    var m := ReceivedSoFar(c, o, |o.sent|);
    FullyProgressed(c, o, m);
    PacketCountBounds(|c.payload|);
    assert FirstPackets(c, m) == Remaining(c.transfer, Pieces(c.payload), 0);
  }

  /** `sendBytes` at any moment of any run, however the connection behaves: what it has pushed is a prefix
      of its packets, in order, and it returns true exactly when that is all of them. */
  lemma SendBytesPushesAPrefix(period: uint32, es: seq<Event>, k: nat, c: nat)
    requires BridgeSystem.Legal(period, es) && k <= |es| && c < |BridgeSystem.After(period, es, k).calls|
    ensures
      var s := BridgeSystem.After(period, es, k);
      var call := s.calls[c];
      && |call.places| <= PacketCount(|call.payload|)
      && StrictlyIncreasing(call.places)
      && (forall i :: 0 <= i < |call.places| ==>
           && call.places[i] < |s.out.pushed|
           && PacketIn(s.out.pushed[call.places[i]]) == Some(PacketAt(call.transfer, call.payload, i))
           && s.out.pushed[call.places[i]].destination == call.destination)
      && (call.stage == Returned(true) <==> |call.places| == PacketCount(|call.payload|))
  {
    hide BridgeSystem.After, Out.Invariant, SpinInvariants.Invariant;
    BridgeSystem.InvariantAlways(period, es, k);
    var s := BridgeSystem.After(period, es, k);
    var call := s.calls[c];
    assert CallFits(call, s.out);
    forall i | 0 <= i < |call.places|
      ensures PacketIn(s.out.pushed[call.places[i]]) == Some(PacketAt(call.transfer, call.payload, i))
              && s.out.pushed[call.places[i]].destination == call.destination
    {
      assert IsPacketOf(s.out.pushed[call.places[i]], call, i);
    }
  }

  // ---------- What the peer does with it ----------

  /** From input `cut` on a callback is set, and the transfer starts after that. */
  ghost predicate ListensFrom(inputs: seq<Input>, id: uint32, cut: nat) {
    && cut <= |inputs|
    && ReceiverProperties.Run(NEW_RECEIVER, inputs[..cut]).receiver.callbackSet
    && CallbackStaysSet(inputs[cut..])
    && (forall i :: 0 <= i < cut && inputs[i].Arrives? ==> inputs[i].packet.id != id)
  }

  lemma {:induction false} PacketInputsConcat(a: seq<Input>, b: seq<Input>)
    ensures PacketInputs(a + b) == PacketInputs(a) + PacketInputs(b)
    decreases |b|
  {
    if b == [] {
      assert a + b == a;
    } else {
      PacketInputsConcat(a, b[..|b| - 1]);
      assert (a + b)[..|a + b| - 1] == a + b[..|b| - 1];
    }
  }

  /** Setting a callback where one is set changes nothing for the packets. */
  lemma {:induction false} SettingsDoNotMatter(r: Receiver, inputs: seq<Input>)
    requires r.callbackSet && CallbackStaysSet(inputs)
    ensures ReceiverProperties.Run(r, inputs) == ReceiverProperties.Run(r, PacketInputs(inputs))
    ensures ReceiverProperties.Run(r, inputs).receiver.callbackSet
    decreases |inputs|
  {
    if inputs == [] {
    } else {
      var front, last := inputs[..|inputs| - 1], inputs[|inputs| - 1];
      assert inputs == front + [last];
      SettingsDoNotMatter(r, front);
      RunSnoc(r, front, last);
      PacketInputsSnoc(front, last);
      if last.Arrives? {
        RunSnoc(r, PacketInputs(front), last);
      } else {
        var before := ReceiverProperties.Run(r, front);
        assert before.deliveries + [] == before.deliveries;
        assert PacketInputs(front) + [] == PacketInputs(front);
        assert Step(before.receiver, last).receiver == before.receiver;
      }
    }
  }

  lemma {:induction false} NoneBefore(inputs: seq<Input>, id: uint32)
    requires forall i :: 0 <= i < |inputs| && inputs[i].Arrives? ==> inputs[i].packet.id != id
    ensures OnlyFor(PacketInputs(inputs), id) == []
    ensures DeliveriesFor(ReceiverProperties.Run(NEW_RECEIVER, inputs).deliveries, id) == []
    ensures id !in ReceiverProperties.Run(NEW_RECEIVER, inputs).receiver.live
    decreases |inputs|
  {
    if inputs == [] {
    } else {
      var front, last := inputs[..|inputs| - 1], inputs[|inputs| - 1];
      assert inputs == front + [last];
      NoneBefore(front, id);
      RunSnoc(NEW_RECEIVER, front, last);
      PacketInputsSnoc(front, last);
      var before := ReceiverProperties.Run(NEW_RECEIVER, front);
      DeliveriesForConcat(before.deliveries, Step(before.receiver, last).deliveries, id);
      if last.Arrives? {
        OnlyForConcat(PacketInputs(front), [last], id);
        assert [last][1..] == [] && OnlyFor([last], id) == [];
      } else {
        assert PacketInputs(front) + [] == PacketInputs(front);
      }
    }
  }

  /** A peer that listens, and gets the packets of a transfer in order and once each among anything else,
      calls its user's callback for it exactly once, with the pieces joined. */
  lemma ListenerDelivers(inputs: seq<Input>, id: uint32, pieces: seq<Payload>, cut: nat)
    requires 0 < |pieces| < UINT32_LIMIT && ListensFrom(inputs, id, cut)
    requires OnlyFor(PacketInputs(inputs), id) == Remaining(id, pieces, 0)
    ensures DeliveriesFor(ReceiverProperties.Run(NEW_RECEIVER, inputs).deliveries, id) == [Delivery(id, Join(pieces))]
  {
    hide ReceiverProperties.Run, OnlyFor, PacketInputs, Remaining;
    var a, b := inputs[..cut], inputs[cut..];
    assert inputs == a + b;
    var r := ReceiverProperties.Run(NEW_RECEIVER, a).receiver;
    RunConcat(NEW_RECEIVER, a, b);
    NoneBefore(a, id);
    PacketInputsConcat(a, b);
    OnlyForConcat(PacketInputs(a), PacketInputs(b), id);
    SettingsDoNotMatter(r, b);
    assert OnlyFor(PacketInputs(b), id) == Remaining(id, pieces, 0);
    DeliveredOnceAmongOthers(r, PacketInputs(b), id, pieces);
    DeliveriesForConcat(ReceiverProperties.Run(NEW_RECEIVER, a).deliveries, ReceiverProperties.Run(r, b).deliveries, id);
  }

  /** The packets among the first n arrivals at a peer come from the given transfers, with any losses,
      repetitions and reorderings. */
  ghost predicate GenuineArrivals(arrived: seq<Message>, n: nat, transfers: Transfers)
    requires n <= |arrived| && WellFormed(transfers)
  {
    forall i :: 0 <= i < n && PacketIn(arrived[i]).Some? ==> Genuine(PacketIn(arrived[i]).value, transfers)
  }

  lemma {:induction false} GenuinePackets(arrived: seq<Message>, n: nat, transfers: Transfers)
    requires n <= |arrived| && WellFormed(transfers) && GenuineArrivals(arrived, n, transfers)
    ensures GenuineStream(PacketsAmong(arrived, n), transfers)
  {
    if n == 0 {
    } else {
      GenuinePackets(arrived, n - 1, transfers);
    }
  }

  lemma {:induction false} GenuineAmongSettings(inputs: seq<Input>, transfers: Transfers)
    requires WellFormed(transfers) && GenuineStream(PacketInputs(inputs), transfers)
    ensures GenuineStream(inputs, transfers)
    decreases |inputs|
  {
    if inputs == [] {
    } else {
      var front, last := inputs[..|inputs| - 1], inputs[|inputs| - 1];
      assert inputs == front + [last];
      PacketInputsSnoc(front, last);
      var ps := PacketInputs(front);
      assert forall i :: 0 <= i < |ps| ==> PacketInputs(inputs)[i] == ps[i];
      GenuineAmongSettings(front, transfers);
      if last.Arrives? {
        assert PacketInputs(inputs)[|ps|] == last;
      }
    }
  }

  /** On any network, in every run of a peer: as long as the packets that arrive are packets of some
      transfers, every call of its user's callback gets the complete, exact bytes of one of them. */
  lemma OnlyExactPayloadsReachTheUser(period: uint32, es: seq<Spinning.Event>, k: nat, transfers: Transfers)
    requires Spinning.Legal(period, es) && k <= |es| && WellFormed(transfers)
    requires
      var s := Spinning.After(period, es, k);
      Looked(s) <= |s.arrived| && GenuineArrivals(s.arrived, Looked(s), transfers)
    ensures forall d <- Spinning.After(period, es, k).delivered :: Exact(d, transfers)
  {
    hide Spinning.After, ReceiverProperties.Run;
    var s := Spinning.After(period, es, k);
    SpinTheorems.DeliveriesFollowArrivals(period, es, k);
    GenuinePackets(s.arrived, Looked(s), transfers);
    GenuineAmongSettings(s.inputs, transfers);
    OnlyExactPayloadsAreDelivered(NEW_RECEIVER, s.inputs, transfers);
  }

  // ---------- End to end ----------

  /** No response with the request id of one of the call's packets is stored before that packet is sent,
      in the first k states. */
  ghost predicate NoEarlyAnswer(period: uint32, es: seq<Event>, k: nat, c: Call)
    requires k <= |es|
  {
    forall n, j :: 0 <= n < |c.places| && 0 <= j <= k && c.places[n] < |BridgeSystem.After(period, es, k).out.pushed| ==>
      OutThm.NotAnsweredEarly(BridgeSystem.After(period, es, j).out, c.places[n],
                              IdOf(BridgeSystem.After(period, es, k).out.pushed[c.places[n]]))
  }

  function IdOf(m: Message): uint32 {
    if m.body.Request? then m.body.id else 0
  }

  lemma SystemStepRetires(s: System, e: Event, i: nat, id: uint32)
    requires Out.Invariant(s.out) && BridgeSystem.Enabled(s, e) && UserCallbacks.Agree(s.spin.registry)
    requires OutThm.NotAnsweredEarly(s.out, i, id) && (i in s.out.retired ==> i in s.out.sent)
    requires
      var s' := BridgeSystem.Next(s, e);
      i < |s'.out.pushed| ==> OutThm.RequestAt(s'.out, i, id)
    ensures
      var s' := BridgeSystem.Next(s, e);
      i in s'.out.retired ==> i in s'.out.sent
  {
    hide Out.Next, Out.Invariant, Out.Enabled, Spinning.Next, NextCalls, OutThm.NotAnsweredEarly;
    if OutEvent(s, e).Some? {
      OutThm.RetiredOnceSentNext(s.out, OutEvent(s, e).value, i, id);
    }
  }

  lemma StartsUnretired(period: uint32)
    ensures BridgeSystem.Start(period).out.retired == []
  {
  }

  lemma {:induction false} SystemRetiredOnceSent(period: uint32, es: seq<Event>, k: nat, i: nat, id: uint32)
    requires BridgeSystem.Legal(period, es) && k <= |es|
    requires forall j :: 0 <= j <= k ==> OutThm.NotAnsweredEarly(BridgeSystem.After(period, es, j).out, i, id)
    requires i < |BridgeSystem.After(period, es, k).out.pushed| ==> OutThm.RequestAt(BridgeSystem.After(period, es, k).out, i, id)
    ensures i in BridgeSystem.After(period, es, k).out.retired ==> i in BridgeSystem.After(period, es, k).out.sent
  {
    hide BridgeSystem.Next, BridgeSystem.Start, BridgeSystem.Enabled, Out.Invariant, SpinInvariants.Invariant, CallsFit,
      StoresAgree, OutThm.NotAnsweredEarly;
    if k > 0 {
      BridgeSystem.InvariantAlways(period, es, k - 1);
      var s, e := BridgeSystem.After(period, es, k - 1), es[k - 1];
      OutNext(s, e);
      SystemRetiredOnceSent(period, es, k - 1, i, id);
      SystemStepRetires(s, e, i, id);
    } else {
      StartsUnretired(period);
    }
  }

  /** The packets of a call that has returned true and that no longer wait in the queue have all been
      serialized, unless one of their ids was answered before. */
  lemma PacketsNoLongerWaiting(period: uint32, es: seq<Event>, k: nat, c: nat)
    requires BridgeSystem.Legal(period, es) && k <= |es| && c < |BridgeSystem.After(period, es, k).calls|
    requires NoEarlyAnswer(period, es, k, BridgeSystem.After(period, es, k).calls[c])
    ensures
      var s := BridgeSystem.After(period, es, k);
      forall i <- s.calls[c].places ::
        && i < |s.out.pushed| && s.out.pushed[i].body.Request?
        && (i in s.out.retired ==> i in s.out.sent)
        && (i !in Out.Unsent(Out.Line(s.out)) ==> i in s.out.sent)
  {
    hide BridgeSystem.After, Out.Invariant, SpinInvariants.Invariant, OutThm.NotAnsweredEarly, PacketMessage;
    BridgeSystem.InvariantAlways(period, es, k);
    var s := BridgeSystem.After(period, es, k);
    var call := s.calls[c];
    assert CallFits(call, s.out);
    forall i | i in call.places
      ensures i < |s.out.pushed| && s.out.pushed[i].body.Request? && (i in s.out.retired ==> i in s.out.sent)
              && (i !in Out.Unsent(Out.Line(s.out)) ==> i in s.out.sent)
    {
      var n :| 0 <= n < |call.places| && call.places[n] == i;
      assert IsPacketOf(s.out.pushed[i], call, n);
      SystemRetiredOnceSent(period, es, k, i, s.out.pushed[i].body.id);
      if i !in Out.Unsent(Out.Line(s.out)) {
        OutThm.NoLongerWaiting(s.out, i);
      }
    }
  }

  /** What the user of the peer gets for a payload: all of it, unless its size is a multiple of the packet
      size; then all but its last packet's worth. */
  function Delivered(payload: Payload): seq<byte> {
    if |payload| % PAYLOAD_MAX_SIZE != 0 || |payload| < PAYLOAD_MAX_SIZE then payload
    else payload[..|payload| - PAYLOAD_MAX_SIZE]
  }

  /** After k events of a run, `sendBytes` call c of a nonempty payload has returned true; nobody else used
      its transfer id; no packet's id was answered before the packet was sent; none of its packets waits
      any more, and none was sent into a dead connection. */
  ghost predicate SentUndisturbed(period: uint32, es: seq<Event>, k: nat, c: nat) {
    && BridgeSystem.Legal(period, es) && k <= |es| && c < |BridgeSystem.After(period, es, k).calls|
    && var s := BridgeSystem.After(period, es, k);
    var call := s.calls[c];
    && call.stage == Returned(true) && call.payload != []
    && OwnsTransfer(call, s.out) && NoEarlyAnswer(period, es, k, call)
    && (forall i <- call.places :: i !in Out.Unsent(Out.Line(s.out)) && i !in s.out.lost)
  }

  /** A peer, after k events of a run of its own, has handled what was sent, as far as the transfer goes, and
      its user was listening, from input `cut` on, when the transfer began. */
  ghost predicate Relayed(o: Out.State, id: uint32, period: uint32, es: seq<Spinning.Event>, k: nat, cut: nat) {
    && Spinning.Legal(period, es) && k <= |es|
    && var peer := Spinning.After(period, es, k);
    && Known(o) && Looked(peer) <= |peer.arrived|
    && OnlyFor(PacketsAmong(peer.arrived, Looked(peer)), id) == OnlyFor(Received(o, |o.sent|), id)
    && ListensFrom(peer.inputs, id, cut)
  }

  /** End to end. A `sendBytes` call is sent undisturbed, in any run of the bridge: among other calls, other
      pushes, cycling requests, responses, reconnections. It is relayed to a peer, in any run of its own.
      Then that peer's user's callback was called for the transfer exactly once, with exactly the payload
      when the size is not a multiple of the packet size, and with the payload cut by one packet's worth
      when it is. */
  lemma SendBytesEndToEnd(period: uint32, es: seq<Event>, k: nat, c: nat,
                          period': uint32, es': seq<Spinning.Event>, k': nat, cut: nat)
    requires SentUndisturbed(period, es, k, c)
    requires
      var s := BridgeSystem.After(period, es, k);
      Relayed(s.out, s.calls[c].transfer, period', es', k', cut)
    ensures
      var call := BridgeSystem.After(period, es, k).calls[c];
      DeliveriesFor(Spinning.After(period', es', k').delivered, call.transfer)
      == [Delivery(call.transfer, Delivered(call.payload))]
  {
    hide BridgeSystem.After, Spinning.After, Out.Invariant, SpinInvariants.Invariant, CallFits, OwnsTransfer, NoEarlyAnswer,
      Received, Relayed, OnlyFor, Remaining, Out.Line, Out.Unsent;
    BridgeSystem.InvariantAlways(period, es, k);
    var s := BridgeSystem.After(period, es, k);
    PacketsNoLongerWaiting(period, es, k, c);
    assert CallFits(s.calls[c], s.out) && AllSent(s.calls[c], s.out);
    SentIsDelivered(s.calls[c], s.out, period', es', k', cut);
  }

  /** What has all been sent, and is relayed, is delivered once. */
  lemma SentIsDelivered(call: Call, o: Out.State,
                        period: uint32, es: seq<Spinning.Event>, k: nat, cut: nat)
    requires Out.Invariant(o) && call.payload != []
    requires CallFits(call, o) && call.stage == Returned(true) && OwnsTransfer(call, o) && AllSent(call, o)
    requires Relayed(o, call.transfer, period, es, k, cut)
    ensures DeliveriesFor(Spinning.After(period, es, k).delivered, call.transfer)
         == [Delivery(call.transfer, Delivered(call.payload))]
  {
    hide Spinning.After, Out.Invariant, CallFits, OwnsTransfer, AllSent, Received, OnlyFor, ListensFrom, Remaining,
      ReceiverProperties.Run, PacketInputs, PacketsAmong;
    TransferReachesPeer(call, o);
    SpinTheorems.DeliveriesFollowArrivals(period, es, k);
    WhatArrives(call.payload);
    ListenerDelivers(Spinning.After(period, es, k).inputs, call.transfer, Pieces(call.payload), cut);
  }

  lemma WhatArrives(payload: Payload)
    requires payload != []
    ensures Join(Pieces(payload)) == Delivered(payload) && 0 < |Pieces(payload)|
  {
    WhatIsSent(payload);
    PacketCountBounds(|payload|);
    if |payload| < PAYLOAD_MAX_SIZE {
      DivisionIsUnique(|payload|, 0, |payload|, PAYLOAD_MAX_SIZE);
    }
  }

  // ---------- It does get sent ----------

  /** With the connection up and the outbound thread running, a bounded number of its steps sends every
      packet of the call that has not been sent yet, over the live connection; if none was lost before,
      the peer then gets exactly the packets of the transfer. */
  lemma TransferGetsSent(period: uint32, es: seq<Event>, k: nat, c: nat) returns (n: nat)
    requires BridgeSystem.Legal(period, es) && k <= |es| && c < |BridgeSystem.After(period, es, k).calls|
    requires
      var s := BridgeSystem.After(period, es, k);
      var call := s.calls[c];
      && s.out.connected && s.out.phase != Out.Stopped
      && call.stage == Returned(true)
      && OwnsTransfer(call, s.out) && NoEarlyAnswer(period, es, k, call)
      && (forall i <- call.places :: i !in s.out.lost)
    ensures
      var s := BridgeSystem.After(period, es, k);
      var call, o := s.calls[c], OutThm.Steps(s.out, n);
      && n <= Progress.Distance(s.out)
      && AllSent(call, o) && Known(o) && |Pieces(call.payload)| < UINT32_LIMIT
      && OnlyFor(Received(o, |o.sent|), call.transfer) == Remaining(call.transfer, Pieces(call.payload), 0)
  {
    hide BridgeSystem.After, Out.Invariant, Out.Advance, SpinInvariants.Invariant, CallFits, NoEarlyAnswer,
      Received, OnlyFor, Remaining, Out.Line, Out.Unsent, OutThm.Steps, Progress.Distance;
    BridgeSystem.InvariantAlways(period, es, k);
    var s := BridgeSystem.After(period, es, k);
    var call := s.calls[c];
    PacketsNoLongerWaiting(period, es, k, c);
    n := Progress.Drains(s.out);
    var o := OutThm.Steps(s.out, n);
    forall i | i in call.places ensures i in o.sent && i !in o.lost {
      var j :| 0 <= j < |call.places| && call.places[j] == i;
      assert OutThm.NotAnsweredEarly(s.out, i, s.out.pushed[i].body.id) by {
        EarlyNow(period, es, k, call, j);
      }
      StepsSend(s.out, n, i);
    }
    StepsKeep(s.out, n);
    assert CallFits(call, s.out);
    FitsLater(call, s.out, o);
    TransferReachesPeer(call, o);
  }

  lemma EarlyNow(period: uint32, es: seq<Event>, k: nat, c: Call, j: nat)
    requires k <= |es| && NoEarlyAnswer(period, es, k, c) && j < |c.places|
    requires c.places[j] < |BridgeSystem.After(period, es, k).out.pushed|
    requires BridgeSystem.After(period, es, k).out.pushed[c.places[j]].body.Request?
    ensures OutThm.NotAnsweredEarly(BridgeSystem.After(period, es, k).out, c.places[j],
                                    BridgeSystem.After(period, es, k).out.pushed[c.places[j]].body.id)
  {
    hide BridgeSystem.After;
  }

  lemma {:induction false} StepsKeep(o: Out.State, n: nat)
    requires Out.Invariant(o) && o.connected && o.phase != Out.Stopped
    ensures
      var o' := OutThm.Steps(o, n);
      && Out.Invariant(o') && o'.connected && o'.phase != Out.Stopped
      && o'.pushed == o.pushed && o'.stored == o.stored && o'.lost == o.lost
  {
    hide Out.Invariant, Out.Advance, Out.Next;
    if n == 0 {
    } else {
      StepsKeep(o, n - 1);
      var before := OutThm.Steps(o, n - 1);
      Progress.StepInvariant(before);
      Progress.AdvanceKeeps(before);
    }
  }

  lemma {:induction false} StepsRetireOnceSent(o: Out.State, n: nat, i: nat)
    requires Out.Invariant(o) && o.connected && o.phase != Out.Stopped
    requires i < |o.pushed| && o.pushed[i].body.Request?
    requires OutThm.NotAnsweredEarly(o, i, o.pushed[i].body.id) && (i in o.retired ==> i in o.sent)
    ensures
      var o' := OutThm.Steps(o, n);
      && OutThm.NotAnsweredEarly(o', i, o.pushed[i].body.id) && (i in o'.retired ==> i in o'.sent)
  {
    hide Out.Invariant, Out.Advance;
    if n == 0 {
    } else {
      StepsKeep(o, n - 1);
      StepsRetireOnceSent(o, n - 1, i);
      var before := OutThm.Steps(o, n - 1);
      Progress.InvariantEnabled(before);
      StepsKeep(o, n);
      assert Out.Next(before, Out.ThreadStep) == Out.Advance(before);
      OutThm.RetiredOnceSentNext(before, Out.ThreadStep, i, o.pushed[i].body.id);
      OutInv.LogsGrow(before, Out.ThreadStep);
    }
  }

  lemma StepsSend(o: Out.State, n: nat, i: nat)
    requires Out.Invariant(o) && o.connected && o.phase != Out.Stopped
    requires i < |o.pushed| && o.pushed[i].body.Request? && i !in o.lost
    requires OutThm.NotAnsweredEarly(o, i, o.pushed[i].body.id) && (i in o.retired ==> i in o.sent)
    requires Progress.Drained(OutThm.Steps(o, n))
    ensures i in OutThm.Steps(o, n).sent && i !in OutThm.Steps(o, n).lost
  {
    StepsKeep(o, n);
    StepsRetireOnceSent(o, n, i);
    var o' := OutThm.Steps(o, n);
    hide Out.Invariant, Out.Advance, OutThm.Steps;
    Progress.DrainedLineIsEmpty(o');
    OutThm.NoLongerWaiting(o', i);
  }
}
