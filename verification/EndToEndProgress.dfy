/** That a `sendBytes` call does get through, in any run in which the connection stays up long enough:
    whoever else uses the bridge meanwhile. */
module EndToEndProgress {
  import opened Prelude
  import opened Messages
  import opened Fragmentation
  import opened BytesReceiving
  import opened ReceiverProperties
  import opened SpinInvariants
  import opened EndToEnd
  import opened BridgeSystem
  import Out = OutboundProtocol
  import OutInv = OutboundInvariants
  import OutThm = OutboundTheorems
  import Dispatch = OutboundDispatch
  import Spinning = SpinProtocol

  /** How many of the events from j on, before k, are steps of the outbound thread. */
  function OutboundSteps(es: seq<Event>, j: nat, k: nat): nat
    requires j <= k <= |es|
    decreases k
  {
    if j == k then 0 else OutboundSteps(es, j, k - 1) + (if es[k - 1] == OutboundStep then 1 else 0)
  }

  ghost predicate StaysConnected(period: uint32, es: seq<Event>, j: nat, k: nat)
    requires k <= |es|
  {
    forall n :: j <= n <= k ==> BridgeSystem.After(period, es, n).out.connected
  }

  lemma AfterStep(period: uint32, es: seq<Event>, k: nat)
    requires k < |es|
    ensures BridgeSystem.After(period, es, k + 1) == BridgeSystem.Next(BridgeSystem.After(period, es, k), es[k])
  {
    hide BridgeSystem.Next;
  }

  // ---------- The outbound side of a stretch of a run ----------

  lemma OutEventsStep(period: uint32, es: seq<Event>, k: nat)
    requires k < |es|
    ensures
      var o := OutEvent(BridgeSystem.After(period, es, k), es[k]);
      OutEvents(period, es, k + 1) == OutEvents(period, es, k) + match o case Some(e) => [e] case None => []
  {
    hide OutEvent, BridgeSystem.After;
  }

  lemma StepIsThreadStep(s: System, e: Event)
    ensures OutEvent(s, e) == Some(Out.ThreadStep) <==> e == OutboundStep
  {
  }

  /** The outbound events up to k begin with those up to j, and lead to the same states. */
  lemma {:induction false} OutPrefix(period: uint32, es: seq<Event>, j: nat, k: nat)
    requires BridgeSystem.Legal(period, es) && j <= k <= |es|
    ensures
      var os, os' := OutEvents(period, es, j), OutEvents(period, es, k);
      os <= os' && Out.After(os', |os|) == BridgeSystem.After(period, es, j).out
    decreases k
  {
    hide Out.After, Out.Legal, BridgeSystem.After, BridgeSystem.Legal, OutEvents, OutEvent;
    if j == k {
      OutboundPartIsARun(period, es, j);
    } else {
      OutPrefix(period, es, j, k - 1);
      OutEventsStep(period, es, k - 1);
      match OutEvent(BridgeSystem.After(period, es, k - 1), es[k - 1])
      case Some(e) => OutAfterPrefix(OutEvents(period, es, k - 1), e, |OutEvents(period, es, j)|);
      case None => assert OutEvents(period, es, k) == OutEvents(period, es, k - 1);
    }
  }

  lemma {:induction false} SameSteps(period: uint32, es: seq<Event>, j: nat, k: nat)
    requires BridgeSystem.Legal(period, es) && j <= k <= |es|
    ensures |OutEvents(period, es, j)| <= |OutEvents(period, es, k)|
    ensures Dispatch.ThreadSteps(OutEvents(period, es, k), |OutEvents(period, es, j)|, |OutEvents(period, es, k)|)
         == OutboundSteps(es, j, k)
    decreases k
  {
    hide BridgeSystem.After, BridgeSystem.Legal, OutEvents, OutEvent;
    OutPrefix(period, es, j, k);
    if j == k {
    } else {
      SameSteps(period, es, j, k - 1);
      OutEventsStep(period, es, k - 1);
      OutPrefix(period, es, j, k - 1);
      var os, n := OutEvents(period, es, k - 1), |OutEvents(period, es, j)|;
      StepIsThreadStep(BridgeSystem.After(period, es, k - 1), es[k - 1]);
      match OutEvent(BridgeSystem.After(period, es, k - 1), es[k - 1])
      case Some(e) => StepsOfPrefix(os, e, n, |os|);
      case None => assert OutEvents(period, es, k) == os;
    }
  }

  lemma {:induction false} StepsOfPrefix(os: seq<Out.Event>, e: Out.Event, j: nat, k: nat)
    requires j <= k <= |os|
    ensures Dispatch.ThreadSteps(os + [e], j, k) == Dispatch.ThreadSteps(os, j, k)
    decreases k
  {
    if j == k {
    } else {
      StepsOfPrefix(os, e, j, k - 1);
    }
  }

  lemma {:induction false} SameConnection(period: uint32, es: seq<Event>, j: nat, k: nat)
    requires BridgeSystem.Legal(period, es) && j <= k <= |es| && StaysConnected(period, es, j, k)
    ensures
      var os := OutEvents(period, es, k);
      |OutEvents(period, es, j)| <= |os| && Dispatch.ConnectedThroughout(os, |OutEvents(period, es, j)|, |os|)
    decreases k
  {
    hide Out.After, BridgeSystem.After, BridgeSystem.Legal, OutEvents, OutEvent;
    OutPrefix(period, es, k, k);
    assert BridgeSystem.After(period, es, k).out.connected;
    if j == k {
    } else {
      SameConnection(period, es, j, k - 1);
      OutEventsStep(period, es, k - 1);
      var os, n := OutEvents(period, es, k - 1), |OutEvents(period, es, j)|;
      match OutEvent(BridgeSystem.After(period, es, k - 1), es[k - 1])
      case Some(e) => ConnectedOneMore(os, e, n);
      case None => assert OutEvents(period, es, k) == os;
    }
  }

  lemma ConnectedOneMore(os: seq<Out.Event>, e: Out.Event, j: nat)
    requires j <= |os| && Dispatch.ConnectedThroughout(os, j, |os|) && Out.After(os + [e], |os| + 1).connected
    ensures Dispatch.ConnectedThroughout(os + [e], j, |os + [e]|)
  {
    hide Out.After;
    forall n | j <= n <= |os + [e]| ensures Out.After(os + [e], n).connected {
      if n <= |os| {
        OutAfterPrefix(os, e, n);
        assert Out.After(os, n).connected;
      }
    }
  }

  /** `OutboundDispatch.SentWithinSteps` for the whole bridge. */
  lemma SentWithinSteps(period: uint32, es: seq<Event>, j: nat, k: nat, i: nat)
    requires BridgeSystem.Legal(period, es) && j <= k <= |es| && StaysConnected(period, es, j, k)
    requires
      var o := BridgeSystem.After(period, es, j).out;
      && o.phase != Out.Stopped
      && i in Out.Unsent(Out.Line(o)) && i < |o.pushed| && Dispatch.Sendable(o.pushed[i])
      && OutboundSteps(es, j, k) >= 7 * (|o.queue| + 1)
    ensures Dispatch.Dealt(BridgeSystem.After(period, es, k).out, i)
  {
    hide Out.After, Out.Legal, BridgeSystem.After, BridgeSystem.Legal, OutEvents, Dispatch.Dealt, Dispatch.ThreadSteps,
      Dispatch.ConnectedThroughout, Out.Line, Out.Unsent, OutboundSteps;
    OutPrefix(period, es, j, k);
    OutboundPartIsARun(period, es, k);
    SameSteps(period, es, j, k);
    SameConnection(period, es, j, k);
    Dispatch.SentWithinSteps(OutEvents(period, es, k), |OutEvents(period, es, j)|, |OutEvents(period, es, k)|, i);
  }

  lemma NothingIsLost(period: uint32, es: seq<Event>, j: nat, k: nat)
    requires BridgeSystem.Legal(period, es) && j <= k <= |es| && StaysConnected(period, es, j, k)
    ensures BridgeSystem.After(period, es, k).out.lost == BridgeSystem.After(period, es, j).out.lost
  {
    hide Out.After, BridgeSystem.After, BridgeSystem.Legal, OutEvents, Dispatch.ConnectedThroughout;
    OutPrefix(period, es, j, k);
    OutPrefix(period, es, k, k);
    SameConnection(period, es, j, k);
    Dispatch.NothingIsLost(OutEvents(period, es, k), |OutEvents(period, es, j)|, |OutEvents(period, es, k)|);
  }

  // ---------- A call that has returned ----------

  lemma ReturnedStays(s: System, e: Event, c: nat)
    requires UserCallbacks.Agree(s.spin.registry) && BridgeSystem.Enabled(s, e)
    requires c < |s.calls| && s.calls[c].stage.Returned?
    ensures c < |BridgeSystem.Next(s, e).calls| && BridgeSystem.Next(s, e).calls[c] == s.calls[c]
  {
    hide Out.Next, Spinning.Next, OutEvent, Out.Enabled, Spinning.Enabled, NextCall;
  }

  lemma {:induction false} CallStaysReturned(period: uint32, es: seq<Event>, j: nat, k: nat, c: nat)
    requires BridgeSystem.Legal(period, es) && j <= k <= |es|
    requires c < |BridgeSystem.After(period, es, j).calls| && BridgeSystem.After(period, es, j).calls[c].stage.Returned?
    ensures c < |BridgeSystem.After(period, es, k).calls|
    ensures BridgeSystem.After(period, es, k).calls[c] == BridgeSystem.After(period, es, j).calls[c]
    decreases k
  {
    hide BridgeSystem.Next, BridgeSystem.Enabled, BridgeSystem.After;
    if j == k {
    } else {
      CallStaysReturned(period, es, j, k - 1, c);
      AfterStep(period, es, k - 1);
      ReturnedStays(BridgeSystem.After(period, es, k - 1), es[k - 1], c);
    }
  }

  lemma {:induction false} LogsGrowAlong(period: uint32, es: seq<Event>, j: nat, k: nat)
    requires BridgeSystem.Legal(period, es) && j <= k <= |es|
    ensures
      var o, o' := BridgeSystem.After(period, es, j).out, BridgeSystem.After(period, es, k).out;
      o.pushed <= o'.pushed && o.sent <= o'.sent
    decreases k
  {
    hide BridgeSystem.Next, BridgeSystem.After;
    if j == k {
    } else {
      LogsGrowAlong(period, es, j, k - 1);
      AfterStep(period, es, k - 1);
      LogsGrowOnce(BridgeSystem.After(period, es, k - 1), es[k - 1]);
    }
  }

  lemma LogsGrowOnce(s: System, e: Event)
    requires UserCallbacks.Agree(s.spin.registry)
    ensures s.out.pushed <= BridgeSystem.Next(s, e).out.pushed && s.out.sent <= BridgeSystem.Next(s, e).out.sent
  {
    hide Out.Next, Spinning.Next, OutEvent, NextCalls;
    match OutEvent(s, e)
    case Some(o) => OutInv.LogsGrow(s.out, o);
    case None =>
  }

  /** The hypotheses about a call that has returned true after j events, up to event k: the connection stays
      up, the outbound thread runs and makes seven steps per handle queued at j and seven more; none of
      the packets was lost before j, none is answered before it is sent, and nobody else uses the
      transfer id. */
  ghost predicate GivenTime(period: uint32, es: seq<Event>, j: nat, k: nat, c: nat) {
    && BridgeSystem.Legal(period, es) && j <= k <= |es| && StaysConnected(period, es, j, k)
    && var s := BridgeSystem.After(period, es, j);
    && c < |s.calls| && s.calls[c].stage == Returned(true)
    && s.out.phase != Out.Stopped && OutboundSteps(es, j, k) >= 7 * (|s.out.queue| + 1)
    && (forall i <- s.calls[c].places :: i !in s.out.lost)
    && OwnsTransfer(s.calls[c], BridgeSystem.After(period, es, k).out)
    && NoEarlyAnswer(period, es, k, s.calls[c])
  }

  lemma PlaceGetsSent(period: uint32, es: seq<Event>, j: nat, k: nat, c: nat, i: nat)
    requires GivenTime(period, es, j, k, c)
    requires i in BridgeSystem.After(period, es, j).calls[c].places
    ensures i in BridgeSystem.After(period, es, k).out.sent
  {
    hide BridgeSystem.After, Out.Invariant, SpinInvariants.Invariant, NoEarlyAnswer, OutThm.NotAnsweredEarly,
      StaysConnected, Out.Line, Out.Unsent, OwnsTransfer;
    var s, s' := BridgeSystem.After(period, es, j), BridgeSystem.After(period, es, k);
    CallStaysReturned(period, es, j, k, c);
    LogsGrowAlong(period, es, j, k);
    PacketsNoLongerWaiting(period, es, k, c);
    PlaceIsPushed(period, es, j, c, i);
    if i in Out.Unsent(Out.Line(s.out)) {
      SentWithinSteps(period, es, j, k, i);
    } else {
      PacketsNoLongerWaitingBefore(period, es, j, k, c);
    }
  }

  lemma PlaceIsPushed(period: uint32, es: seq<Event>, j: nat, c: nat, i: nat)
    requires BridgeSystem.Legal(period, es) && j <= |es| && c < |BridgeSystem.After(period, es, j).calls|
    requires i in BridgeSystem.After(period, es, j).calls[c].places
    ensures
      var o := BridgeSystem.After(period, es, j).out;
      i < |o.pushed| && o.pushed[i].body.Request?
  {
    hide BridgeSystem.After, Out.Invariant, SpinInvariants.Invariant, PacketMessage;
    BridgeSystem.InvariantAlways(period, es, j);
    var s := BridgeSystem.After(period, es, j);
    assert CallFits(s.calls[c], s.out);
    var n :| 0 <= n < |s.calls[c].places| && s.calls[c].places[n] == i;
    assert IsPacketOf(s.out.pushed[i], s.calls[c], n);
  }

  lemma PacketsNoLongerWaitingBefore(period: uint32, es: seq<Event>, j: nat, k: nat, c: nat)
    requires GivenTime(period, es, j, k, c)
    ensures
      var s := BridgeSystem.After(period, es, j);
      forall i <- s.calls[c].places :: i !in Out.Unsent(Out.Line(s.out)) ==> i in s.out.sent
  {
    hide BridgeSystem.After, OutThm.NotAnsweredEarly, StaysConnected, Out.Line, Out.Unsent, OwnsTransfer;
    NoEarlierAnswer(period, es, j, k, c);
    PacketsNoLongerWaiting(period, es, j, c);
  }

  lemma NoEarlierAnswer(period: uint32, es: seq<Event>, j: nat, k: nat, c: nat)
    requires GivenTime(period, es, j, k, c)
    ensures NoEarlyAnswer(period, es, j, BridgeSystem.After(period, es, j).calls[c])
  {
    hide BridgeSystem.After, OutThm.NotAnsweredEarly, StaysConnected, OwnsTransfer;
    LogsGrowAlong(period, es, j, k);
    var o, o' := BridgeSystem.After(period, es, j).out, BridgeSystem.After(period, es, k).out;
    assert forall i :: 0 <= i < |o.pushed| ==> o'.pushed[i] == o.pushed[i];
  }

  /** In any run in which the connection stays up: a `sendBytes` call that has returned true has all of its
      packets sent once the outbound thread has made seven steps per handle queued then, and seven more,
      however these are interleaved with pushes, responses, arrivals and anything else. The peer is then
      sent exactly the packets of the transfer, in order, once each. */
  lemma TransferGetsSentAmongOthers(period: uint32, es: seq<Event>, j: nat, k: nat, c: nat)
    requires GivenTime(period, es, j, k, c)
    ensures
      var call, o := BridgeSystem.After(period, es, j).calls[c], BridgeSystem.After(period, es, k).out;
      && Out.Invariant(o) && CallFits(call, o) && AllSent(call, o) && Known(o) && |Pieces(call.payload)| < UINT32_LIMIT
      && OnlyFor(Received(o, |o.sent|), call.transfer) == Remaining(call.transfer, Pieces(call.payload), 0)
  {
    hide BridgeSystem.After, Out.Invariant, SpinInvariants.Invariant, CallFits, OwnsTransfer, NoEarlyAnswer, OutboundSteps,
      Received, OnlyFor, Remaining, StaysConnected;
    var call, s' := BridgeSystem.After(period, es, j).calls[c], BridgeSystem.After(period, es, k);
    BridgeSystem.InvariantAlways(period, es, k);
    CallStaysReturned(period, es, j, k, c);
    assert CallFits(call, s'.out);
    NothingIsLost(period, es, j, k);
    forall i | i in call.places ensures i in s'.out.sent && i !in s'.out.lost {
      PlaceGetsSent(period, es, j, k, c, i);
    }
    TransferReachesPeer(call, s'.out);
  }

  /** End to end, with nothing assumed about what still waits: a call that has returned true and is given time,
      relayed to a peer that listens, is delivered there exactly once. */
  lemma SendBytesGetsThrough(period: uint32, es: seq<Event>, j: nat, k: nat, c: nat,
                             period': uint32, es': seq<Spinning.Event>, k': nat, cut: nat)
    requires GivenTime(period, es, j, k, c) && BridgeSystem.After(period, es, j).calls[c].payload != []
    requires Relayed(BridgeSystem.After(period, es, k).out, BridgeSystem.After(period, es, j).calls[c].transfer,
                     period', es', k', cut)
    ensures
      var call := BridgeSystem.After(period, es, j).calls[c];
      DeliveriesFor(Spinning.After(period', es', k').delivered, call.transfer)
      == [Delivery(call.transfer, Delivered(call.payload))]
  {
    hide BridgeSystem.After, Spinning.After, Out.Invariant, CallFits, OwnsTransfer, NoEarlyAnswer, OutboundSteps,
      Received, OnlyFor, Remaining, StaysConnected, AllSent, Relayed;
    TransferGetsSentAmongOthers(period, es, j, k, c);
    SentIsDelivered(BridgeSystem.After(period, es, j).calls[c], BridgeSystem.After(period, es, k).out,
                    period', es', k', cut);
  }
}
