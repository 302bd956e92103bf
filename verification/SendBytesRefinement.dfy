/** `sendBytes` step by step, in any run of the bridge, does what `HiveMindBridgeImpl.SendBytes` is specified to
    do: it pushes a packet only after a test that found the connection up, and gives up at the first that
    does not. */
module SendBytesRefinement {
  import opened Prelude
  import opened Messages
  import opened Fragmentation
  import opened OutboundHandles
  import opened BridgeSystem
  import opened EndToEndProgress
  import BridgeImpl
  import UserCallbacks
  import OutInv = OutboundInvariants
  import Out = OutboundProtocol
  import Spinning = SpinProtocol

  /** What call c's tests of the connection have found, in order, in the first k events. */
  ghost function Link(period: uint32, es: seq<Event>, k: nat, c: nat): seq<bool>
    requires k <= |es|
  {
    if k == 0 then []
    else Link(period, es, k - 1, c)
         + (if es[k - 1] == Observe(c) then [BridgeSystem.After(period, es, k - 1).out.connected] else [])
  }

  /** Where a call stands, by what its tests have found: one packet pushed for each test that found the
      connection up, but for the packet about to be pushed, and false returned for the first that did not. */
  ghost predicate Follows(call: Call, link: seq<bool>) {
    var pushed, all := |call.places|, PacketCount(|call.payload|);
    && pushed <= |link| && (forall n :: 0 <= n < pushed ==> link[n])
    && match call.stage
       case Observing => |link| == pushed < all
       case Pushing => |link| == pushed + 1 <= all && link[pushed]
       case Returned(ok) => if ok then |link| == pushed == all else |link| == pushed + 1 <= all && !link[pushed]
  }

  lemma LegalStep(period: uint32, es: seq<Event>, k: nat)
    requires BridgeSystem.Legal(period, es) && k < |es|
    ensures BridgeSystem.Enabled(BridgeSystem.After(period, es, k), es[k])
    ensures BridgeSystem.After(period, es, k + 1) == BridgeSystem.Next(BridgeSystem.After(period, es, k), es[k])
  {
    hide BridgeSystem.Next, BridgeSystem.Enabled;
  }

  lemma NoCallsAtFirst(period: uint32, es: seq<Event>)
    ensures BridgeSystem.After(period, es, 0).calls == []
  {
  }

  lemma LinkNext(period: uint32, es: seq<Event>, k: nat, c: nat)
    requires k < |es|
    ensures Link(period, es, k + 1, c)
         == Link(period, es, k, c) + (if es[k] == Observe(c) then [BridgeSystem.After(period, es, k).out.connected] else [])
  {
    hide BridgeSystem.After;
  }

  lemma NoLinkAtFirst(period: uint32, es: seq<Event>, c: nat)
    ensures Link(period, es, 0, c) == []
  {
  }

  lemma OthersKeepCall(s: System, e: Event, c: nat)
    requires UserCallbacks.Agree(s.spin.registry) && c < |s.calls|
    requires e != Observe(c) && !(e.Enqueue? && e.call == c)
    ensures c < |BridgeSystem.Next(s, e).calls| && BridgeSystem.Next(s, e).calls[c] == s.calls[c]
  {
    hide Out.Next, Spinning.Next, OutEvent;
  }

  lemma ObservedCall(s: System, c: nat)
    requires UserCallbacks.Agree(s.spin.registry) && BridgeSystem.Enabled(s, Observe(c))
    ensures c < |s.calls| && s.calls[c].stage == Observing && c < |BridgeSystem.Next(s, Observe(c)).calls|
    ensures BridgeSystem.Next(s, Observe(c)).calls[c]
         == s.calls[c].(stage := if s.out.connected then Pushing else Returned(false))
  {
    hide Out.Next, Spinning.Next;
  }

  lemma EnqueuedCall(s: System, e: Event)
    requires UserCallbacks.Agree(s.spin.registry) && BridgeSystem.Enabled(s, e) && e.Enqueue?
    ensures
      var c := e.call;
      && c < |s.calls| && s.calls[c].stage == Pushing && c < |BridgeSystem.Next(s, e).calls|
      && var call := s.calls[c];
      BridgeSystem.Next(s, e).calls[c]
      == call.(places := call.places + [|s.out.pushed|],
               stage := if |call.places| + 1 >= PacketCount(|call.payload|) then Returned(true) else Observing)
  {
    hide Out.Next, Spinning.Next, PacketCount;
  }

  lemma BegunCall(s: System, e: Event, c: nat)
    requires UserCallbacks.Agree(s.spin.registry) && BridgeSystem.Enabled(s, e)
    requires c >= |s.calls|
    ensures e != Observe(c) && !(e.Enqueue? && e.call == c)
    ensures c < |BridgeSystem.Next(s, e).calls| ==> Follows(BridgeSystem.Next(s, e).calls[c], [])
  {
    if e.Begin? {
      PacketCountBounds(|e.payload|);
    }
    hide Out.Next, Spinning.Next, PacketCount;
  }

  lemma FollowsNext(s: System, e: Event, c: nat, link: seq<bool>)
    requires UserCallbacks.Agree(s.spin.registry) && BridgeSystem.Enabled(s, e)
    requires if c < |s.calls| then Follows(s.calls[c], link) else link == []
    ensures
      var s' := BridgeSystem.Next(s, e);
      var link' := link + (if e == Observe(c) then [s.out.connected] else []);
      if c < |s'.calls| then Follows(s'.calls[c], link') else link' == []
  {
    hide BridgeSystem.Next, BridgeSystem.Enabled, PacketCount;
    assert link + [] == link;
    if c >= |s.calls| {
      BegunCall(s, e, c);
    } else if e == Observe(c) {
      ObservedCall(s, c);
    } else if e.Enqueue? && e.call == c {
      EnqueuedCall(s, e);
    } else {
      OthersKeepCall(s, e, c);
    }
  }

  /** Every call, at every moment of every run, stands where its tests have brought it. */
  lemma {:induction false} CallsFollowTheirTests(period: uint32, es: seq<Event>, k: nat, c: nat)
    requires BridgeSystem.Legal(period, es) && k <= |es|
    ensures
      var s := BridgeSystem.After(period, es, k);
      if c < |s.calls| then Follows(s.calls[c], Link(period, es, k, c)) else Link(period, es, k, c) == []
  {
    hide BridgeSystem.After, BridgeSystem.Next, BridgeSystem.Enabled, BridgeSystem.Legal, Link, Follows, PacketCount;
    if k == 0 {
      NoCallsAtFirst(period, es);
      NoLinkAtFirst(period, es, c);
    } else {
      CallsFollowTheirTests(period, es, k - 1, c);
      LegalStep(period, es, k - 1);
      LinkNext(period, es, k - 1, c);
      FollowsNext(BridgeSystem.After(period, es, k - 1), es[k - 1], c, Link(period, es, k - 1, c));
    }
  }

  /** A test that finds the connection down ends the call: it returns false and pushes nothing from then on. */
  lemma FailedTestEnds(period: uint32, es: seq<Event>, j: nat, k: nat, c: nat)
    requires BridgeSystem.Legal(period, es) && j < k <= |es| && es[j] == Observe(c)
    requires !BridgeSystem.After(period, es, j).out.connected
    ensures
      var s, s' := BridgeSystem.After(period, es, j), BridgeSystem.After(period, es, k);
      && c < |s.calls| && c < |s'.calls|
      && s'.calls[c].stage == Returned(false) && s'.calls[c].places == s.calls[c].places
  {
    hide BridgeSystem.After, BridgeSystem.Next, BridgeSystem.Enabled, BridgeSystem.Legal;
    LegalStep(period, es, j);
    ObservedCall(BridgeSystem.After(period, es, j), c);
    CallStaysReturned(period, es, j + 1, k, c);
  }

  predicate ByCall(e: Event, c: nat) {
    e == Observe(c) || (e.Enqueue? && e.call == c)
  }

  /** Event p pushes under this serial a packet of call c, and event i is the test it rests on: the call's
      preceding step, which found the connection up. */
  ghost predicate PushedOnTest(period: uint32, es: seq<Event>, i: nat, p: nat, c: nat, serial: nat) {
    && i < p < |es| && es[i] == Observe(c) && BridgeSystem.After(period, es, i).out.connected
    && es[p].Enqueue? && es[p].call == c && |BridgeSystem.After(period, es, p).out.pushed| == serial
    && (forall n :: i < n < p ==> !ByCall(es[n], c))
  }

  /** A call about to push has just found the connection up. */
  lemma {:induction false} PushingIsTested(period: uint32, es: seq<Event>, k: nat, c: nat) returns (i: nat)
    requires BridgeSystem.Legal(period, es) && k <= |es|
    requires
      var s := BridgeSystem.After(period, es, k);
      c < |s.calls| && s.calls[c].stage == Pushing
    ensures i < k && es[i] == Observe(c) && BridgeSystem.After(period, es, i).out.connected
    ensures forall n :: i < n < k ==> !ByCall(es[n], c)
  {
    hide BridgeSystem.After, BridgeSystem.Next, BridgeSystem.Enabled, BridgeSystem.Legal, Link, Follows, PacketCount;
    if k == 0 {
      NoCallsAtFirst(period, es);
    } else {
      var s, e := BridgeSystem.After(period, es, k - 1), es[k - 1];
      LegalStep(period, es, k - 1);
      if c >= |s.calls| {
        NotPushingYet(s, e, c);
      } else if e == Observe(c) {
        ObservedCall(s, c);
        i := k - 1;
      } else {
        OthersOrEnqueue(s, e, c);
        i := PushingIsTested(period, es, k - 1, c);
      }
    }
  }

  lemma NotPushingYet(s: System, e: Event, c: nat)
    requires UserCallbacks.Agree(s.spin.registry) && BridgeSystem.Enabled(s, e) && c >= |s.calls|
    ensures c < |BridgeSystem.Next(s, e).calls| ==> BridgeSystem.Next(s, e).calls[c].stage != Pushing
  {
    hide BridgeSystem.Next, BridgeSystem.Enabled;
    BegunCall(s, e, c);
  }

  lemma OthersOrEnqueue(s: System, e: Event, c: nat)
    requires UserCallbacks.Agree(s.spin.registry) && BridgeSystem.Enabled(s, e) && c < |s.calls| && e != Observe(c)
    requires c < |BridgeSystem.Next(s, e).calls| && BridgeSystem.Next(s, e).calls[c].stage == Pushing
    ensures !ByCall(e, c) && s.calls[c].stage == Pushing
  {
    hide BridgeSystem.Next, BridgeSystem.Enabled, PacketCount;
    if ByCall(e, c) {
      EnqueuedCall(s, e);
    } else {
      OthersKeepCall(s, e, c);
    }
  }

  /** No packet without a test: each packet of a call was pushed by a step of that call whose preceding step
      was a test that found the connection up. */
  lemma {:induction false} EachPacketFollowsATest(period: uint32, es: seq<Event>, k: nat, c: nat, n: nat)
    requires BridgeSystem.Legal(period, es) && k <= |es| && c < |BridgeSystem.After(period, es, k).calls|
    requires n < |BridgeSystem.After(period, es, k).calls[c].places|
    ensures
      var serial := BridgeSystem.After(period, es, k).calls[c].places[n];
      exists i: nat, p: nat :: p < k && PushedOnTest(period, es, i, p, c, serial)
  {
    hide BridgeSystem.After, BridgeSystem.Next, BridgeSystem.Enabled, BridgeSystem.Legal, PacketCount;
    if k == 0 {
      NoCallsAtFirst(period, es);
    } else {
      var s, e := BridgeSystem.After(period, es, k - 1), es[k - 1];
      var serial := BridgeSystem.After(period, es, k).calls[c].places[n];
      LegalStep(period, es, k - 1);
      if c >= |s.calls| {
        BegunCall(s, e, c);
      } else if e.Enqueue? && e.call == c && n == |s.calls[c].places| {
        EnqueuedCall(s, e);
        var i := PushingIsTested(period, es, k - 1, c);
        assert PushedOnTest(period, es, i, k - 1, c, serial);
      } else {
        PlacesBefore(s, e, c, n);
        EachPacketFollowsATest(period, es, k - 1, c, n);
      }
    }
  }

  lemma PlacesBefore(s: System, e: Event, c: nat, n: nat)
    requires UserCallbacks.Agree(s.spin.registry) && BridgeSystem.Enabled(s, e) && c < |s.calls|
    requires c < |BridgeSystem.Next(s, e).calls| && n < |BridgeSystem.Next(s, e).calls[c].places|
    requires !(e.Enqueue? && e.call == c && n == |s.calls[c].places|)
    ensures n < |s.calls[c].places| && BridgeSystem.Next(s, e).calls[c].places[n] == s.calls[c].places[n]
  {
    hide BridgeSystem.Next, BridgeSystem.Enabled, PacketCount;
    if e == Observe(c) {
      ObservedCall(s, c);
    } else if e.Enqueue? && e.call == c {
      EnqueuedCall(s, e);
    } else {
      OthersKeepCall(s, e, c);
    }
  }

  // ---------- Against the specification of the method ----------

  /** The handles a call has pushed, as they went into the queue. */
  ghost function PushedHandles(call: Call, o: Out.State): seq<Handle>
    requires forall i <- call.places :: i < |o.pushed|
  {
    seq(|call.places|, n requires 0 <= n < |call.places| =>
      assert call.places[n] in call.places; Handle(o.pushed[call.places[n]], Ready, 0))
  }

  /** A call that has returned, in any run, has pushed the handles and returned the result that
      `HiveMindBridgeImpl.SendBytes` is specified to push and return, `link` being what its tests of the
      connection find and `agent` the id the bridge had meanwhile. What tests it would have made after a
      failed one does not matter. */
  lemma ReturnsAsSpecified(period: uint32, es: seq<Event>, k: nat, c: nat,
                           link: seq<bool>, requestIds: seq<uint32>, agent: uint32)
    requires BridgeSystem.Legal(period, es) && k <= |es| && c < |BridgeSystem.After(period, es, k).calls|
    requires
      var s := BridgeSystem.After(period, es, k);
      var call := s.calls[c];
      && call.stage.Returned? && |link| == |requestIds| == PacketCount(|call.payload|)
      && Link(period, es, k, c) <= link
      && (forall n :: 0 <= n < |call.places| && n < |requestIds|
                      && call.places[n] < |s.out.pushed| && s.out.pushed[call.places[n]].body.Request? ==>
           s.out.pushed[call.places[n]].source == agent && s.out.pushed[call.places[n]].body.id == requestIds[n])
    ensures
      var s := BridgeSystem.After(period, es, k);
      var call := s.calls[c];
      && (forall i <- call.places :: i < |s.out.pushed|)
      && (call.stage == Returned(true) <==> BridgeImpl.LeadingUp(link) == PacketCount(|call.payload|))
      && PushedHandles(call, s.out) == BridgeImpl.PacketHandles(agent, call.destination, call.transfer, call.payload,
                                                                requestIds, BridgeImpl.LeadingUp(link))
  {
    hide BridgeSystem.After, BridgeSystem.Legal, Link, Out.Invariant, PacketMessage, PacketCount, BridgeImpl.LeadingUp;
    var s := BridgeSystem.After(period, es, k);
    var call := s.calls[c];
    BridgeSystem.InvariantAlways(period, es, k);
    assert CallFits(call, s.out);
    CallsFollowTheirTests(period, es, k, c);
    BridgeImpl.LeadingUpIs(link, |call.places|);
    forall n | 0 <= n < |call.places|
      ensures call.places[n] < |s.out.pushed|
      ensures s.out.pushed[call.places[n]]
           == PacketMessage(agent, call.destination, requestIds[n], call.transfer, call.payload, n)
    {
      assert IsPacketOf(s.out.pushed[call.places[n]], call, n);
    }
  }
}
