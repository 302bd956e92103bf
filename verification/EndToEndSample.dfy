/** One run in which a byte is sent and arrives: what `EndToEnd.SendBytesEndToEnd` asks for does happen. */
module EndToEndSample {
  import opened Prelude
  import opened Messages
  import opened Fragmentation
  import opened ReceiverProperties
  import opened SpinInvariants
  import opened EndToEnd
  import opened BridgeSystem
  import UserCallbacks
  import Out = OutboundProtocol
  import OutThm = OutboundTheorems
  import opened OutboundHandles
  import Spinning = SpinProtocol

  const PAYLOAD: Payload := [65]
  const PACKET: Message := PacketMessage(1, 2, 42, 7, PAYLOAD, 0)

  /** The bridge connects, is asked to send one byte as transfer 7, and its outbound thread goes once round. */
  const SENDING: seq<Event> :=
    [Connect, StartThread, Begin(2, 7, PAYLOAD), Observe(0), Enqueue(0, 1, 42),
     OutboundStep, OutboundStep, OutboundStep, OutboundStep, OutboundStep, OutboundStep, OutboundStep]

  /** The peer listens, and handles the packet that arrives. */
  const RECEIVING: seq<Spinning.Event> :=
    [Spinning.OnBytes(true), Spinning.Arrive(PACKET), Spinning.Spin(true), Spinning.Work(0), Spinning.Work(0)]

  lemma OnePacket()
    ensures PacketCount(1) == 1
  {
    PacketCountBounds(1);
  }

  /** The states of the sending bridge, one after each event. */
  ghost function Sent(n: nat): System
    requires n <= |SENDING|
  {
    var o := Out.INIT.(connected := n >= 1);
    var ready, sent := Out.Ticket(0, Handle(PACKET, Ready, 0)), Out.Ticket(0, Handle(PACKET, SendState.Sent, 0));
    var out :=
      if n == 0 then o
      else if n == 1 then o
      else if n <= 4 then o.(phase := Out.Polling)
      else if n <= 8 then
        o.(pushed := [PACKET], queue := [ready],
           phase := if n == 5 then Out.Polling
                    else if n == 6 then Out.Testing
                    else if n == 7 then Out.Peeking
                    else Out.Popping(ready))
      else if n <= 10 then
        o.(pushed := [PACKET], pops := 1, phase := if n == 9 then Out.Deciding(ready) else Out.Sending(ready))
      else
        o.(pushed := [PACKET], pops := 1, sent := [0], queue := if n == 11 then [] else [sent],
           phase := if n == 11 then Out.Requeuing(sent) else Out.Polling);
    var stage := if n == 3 then Observing else if n == 4 then Pushing else Returned(true);
    var call := Call(2, 7, PAYLOAD, stage, if n < 5 then [] else [0]);
    System(out, Spinning.Start(0), if n < 3 then [] else [call])
  }

  lemma EnqueuedPacket(s: System)
    requires s == Sent(4)
    ensures OutEvent(s, SENDING[4]) == Some(Out.Push(PACKET))
    ensures NextCalls(s, SENDING[4]) == Sent(5).calls
  {
    OnePacket();
    hide PacketMessage, PacketCount;
    assert |PAYLOAD| == 1 && |s.calls| == 1 && s.calls[0].places == [] && |s.out.pushed| == 0;
    assert s.calls[0].places + [0] == [0];
    assert NextCalls(s, SENDING[4]) == [NextCall(s.calls[0], SENDING[4], s)];
  }

  lemma PreparationNext(n: nat)
    requires n < 5
    ensures BridgeSystem.Enabled(Sent(n), SENDING[n]) && BridgeSystem.Next(Sent(n), SENDING[n]) == Sent(n + 1)
  {
    if n == 4 {
      EnqueuedPacket(Sent(4));
    }
    hide PacketMessage, PacketCount;
  }

  lemma RoundNext(n: nat)
    requires 5 <= n < |SENDING|
    ensures BridgeSystem.Enabled(Sent(n), SENDING[n]) && BridgeSystem.Next(Sent(n), SENDING[n]) == Sent(n + 1)
  {
    assert SENDING[n] == OutboundStep;
    assert PACKET.body.Request?;
    hide PacketMessage, PacketCount;
  }

  lemma SentNext(n: nat)
    requires n < |SENDING|
    ensures BridgeSystem.Enabled(Sent(n), SENDING[n]) && BridgeSystem.Next(Sent(n), SENDING[n]) == Sent(n + 1)
  {
    hide BridgeSystem.Next, BridgeSystem.Enabled, Sent;
    if n < 5 {
      PreparationNext(n);
    } else {
      RoundNext(n);
    }
  }

  lemma {:induction false} SendingRuns(n: nat)
    requires n <= |SENDING|
    ensures BridgeSystem.After(0, SENDING, n) == Sent(n)
  {
    hide BridgeSystem.Next, BridgeSystem.Enabled;
    if n == 0 {
      assert Sent(0) == BridgeSystem.Start(0);
    } else {
      SendingRuns(n - 1);
      SentNext(n - 1);
    }
  }

  lemma SendingIsLegal()
    ensures BridgeSystem.Legal(0, SENDING)
  {
    hide BridgeSystem.After, BridgeSystem.Enabled, Sent;
    forall n | 0 <= n < |SENDING| ensures BridgeSystem.Enabled(BridgeSystem.After(0, SENDING, n), SENDING[n]) {
      SendingRuns(n);
      SentNext(n);
    }
  }

  lemma NothingIsAnswered(c: Call)
    ensures NoEarlyAnswer(0, SENDING, |SENDING|, c)
  {
    hide BridgeSystem.After;
    forall j | 0 <= j <= |SENDING| ensures BridgeSystem.After(0, SENDING, j).out.stored == [] {
      SendingRuns(j);
    }
  }

  lemma SentAtTheEnd(s: System)
    requires s == Sent(12)
    ensures |s.calls| == 1 && s.calls[0] == Call(2, 7, PAYLOAD, Returned(true), [0]) && s.out.lost == {}
    ensures s.out.sent == [0] && s.out.pushed == [PACKET] && Out.Unsent(Out.Line(s.out)) == []
    ensures OwnsTransfer(s.calls[0], s.out)
  {
    hide PacketMessage;
    var t := Out.Ticket(0, Handle(PACKET, SendState.Sent, 0));
    assert s.out.queue == [t] && Out.Line(s.out) == [t];
    assert [t][..0] == [];
  }

  /** The sending side of the sample meets what `SendBytesEndToEnd` asks for. */
  lemma ByteIsSent()
    ensures SentUndisturbed(0, SENDING, |SENDING|, 0)
  {
    hide BridgeSystem.After, BridgeSystem.Legal, NoEarlyAnswer, OwnsTransfer, Out.Line, Out.Unsent, Sent, PacketMessage;
    SendingIsLegal();
    SendingRuns(12);
    SentAtTheEnd(Sent(12));
    NothingIsAnswered(Sent(12).calls[0]);
  }

  /** The states of the peer, one after each event. */
  ghost function Peer(n: nat): Spinning.State
    requires n <= |RECEIVING|
  {
    var s := Spinning.Start(0);
    var t := s.(receiver := s.receiver.(callbackSet := true), inputs := [SetCallback(true)]);
    var u := t.(inbox := [PACKET], arrived := [PACKET]);
    if n == 0 then s
    else if n == 1 then t
    else if n == 2 then u
    else if n == 3 then u.(phase := Spinning.Testing)
    else if n == 4 then u.(phase := Spinning.Peeking)
    else Spinning.Handle(u.(phase := Spinning.Peeking))
  }

  lemma PeerNext(n: nat)
    requires n < |RECEIVING|
    ensures UserCallbacks.Agree(Peer(n).registry)
    ensures Spinning.Enabled(Peer(n), RECEIVING[n]) && Spinning.Next(Peer(n), RECEIVING[n]) == Peer(n + 1)
  {
    hide PacketMessage, Spinning.Handle;
  }

  lemma {:induction false} ReceivingRuns(n: nat)
    requires n <= |RECEIVING|
    ensures Spinning.After(0, RECEIVING, n) == Peer(n)
  {
    hide Spinning.Next, Spinning.Enabled;
    if n == 0 {
      assert Peer(0) == Spinning.Start(0);
    } else {
      ReceivingRuns(n - 1);
      PeerNext(n - 1);
    }
  }

  lemma ReceivingIsLegal()
    ensures Spinning.Legal(0, RECEIVING)
  {
    hide Spinning.After, Spinning.Enabled, Peer;
    forall n | 0 <= n < |RECEIVING| ensures Spinning.Enabled(Spinning.After(0, RECEIVING, n), RECEIVING[n]) {
      ReceivingRuns(n);
      PeerNext(n);
    }
  }

  lemma PeerAtTheEnd(s: Spinning.State)
    requires s == Peer(5)
    ensures s.arrived == [PACKET] && Looked(s) == 1 && s.inputs == [SetCallback(true), Arrives(PacketAt(7, PAYLOAD, 0))]
  {
    OnePacket();
    PacketMessageIsPacket(1, 2, 42, 7, PAYLOAD, 0);
    hide PacketMessage;
  }

  lemma PeerListens(inputs: seq<Input>)
    requires |inputs| == 2 && inputs[0] == SetCallback(true) && inputs[1].Arrives?
    ensures ListensFrom(inputs, 7, 1)
  {
    assert inputs[..1][1..] == [];
  }

  /** The sample as a whole: the byte is sent undisturbed and relayed, so `SendBytesEndToEnd` applies, and the
      peer's user is called once. */
  lemma ByteArrives()
    ensures SentUndisturbed(0, SENDING, |SENDING|, 0)
    ensures Relayed(BridgeSystem.After(0, SENDING, |SENDING|).out, 7, 0, RECEIVING, |RECEIVING|, 1)
    ensures |DeliveriesFor(Spinning.After(0, RECEIVING, |RECEIVING|).delivered, 7)| == 1
  {
    hide BridgeSystem.After, Spinning.After, Spinning.Legal, SentUndisturbed, ListensFrom, OnlyFor, Received, PacketsAmong,
      PacketMessage, Sent, Peer;
    ByteIsSent();
    SendingRuns(12);
    SentAtTheEnd(Sent(12));
    ReceivingIsLegal();
    ReceivingRuns(5);
    PeerAtTheEnd(Peer(5));
    PeerListens(Peer(5).inputs);
    SameToTheEar(Sent(12).out, Peer(5));
    SendBytesEndToEnd(0, SENDING, |SENDING|, 0, 0, RECEIVING, |RECEIVING|, 1);
  }

  lemma SameToTheEar(o: Out.State, peer: Spinning.State)
    requires o.sent == [0] && o.pushed == [PACKET] && o.lost == {} && peer.arrived == [PACKET]
    ensures Known(o) && PacketsAmong(peer.arrived, 1) == Received(o, 1)
  {
    hide PacketMessage, Spinning.InputsIn;
    assert Received(o, 0) == [] && PacketsAmong(peer.arrived, 0) == [];
  }
}
