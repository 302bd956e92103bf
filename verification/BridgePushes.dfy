/** What gets into the outbound queue of the whole bridge, and what becomes of the keep-alive greetings. */
module BridgePushes {
  import opened Prelude
  import opened Messages
  import opened Fragmentation
  import opened MessageHandling
  import opened BridgeSystem
  import opened EndToEnd
  import opened EndToEndProgress
  import UserCallbacks
  import Out = OutboundProtocol
  import OutInv = OutboundInvariants
  import OutThm = OutboundTheorems
  import Answers = OutboundAnswers
  import Spinning = SpinProtocol

  /** The spinning thread is about to count a spin, and the keep-alive is due. */
  predicate KeepAliveDue(s: System, e: Event) {
    && e.SpinEvent? && e.event.Work? && s.spin.phase == Spinning.Beating
    && s.spin.period > 0 && s.spin.counter >= s.spin.period
  }

  /** The outbound queue is pushed what users push, the packets of `sendBytes`, and, on a live connection only,
      a greeting from nobody to nobody each time the keep-alive is due: nothing else. */
  lemma PushesAre(s: System, e: Event)
    requires UserCallbacks.Agree(s.spin.registry) && BridgeSystem.Enabled(s, e) && CallsFit(s.calls, s.out)
    ensures
      var pushed, pushed' := s.out.pushed, BridgeSystem.Next(s, e).out.pushed;
      match e
      case UserPush(m) => pushed' == pushed + [m]
      case Enqueue(c, agent, requestId) =>
        && c < |s.calls| && |s.calls[c].places| < PacketCount(|s.calls[c].payload|)
        && pushed' == pushed + [Message(agent, s.calls[c].destination,
                                        Request(requestId, HostRequest(Bytes(PacketAt(s.calls[c].transfer, s.calls[c].payload,
                                                                                      |s.calls[c].places|)))))]
      case _ => pushed' == pushed + (if KeepAliveDue(s, e) && s.out.connected then [Message(0, 0, Greeting(0))] else [])
  {
    if e.Enqueue? {
      assert CallFits(s.calls[e.call], s.out);
    }
    if OutEvent(s, e).Some? {
      OutInv.PushedNext(s.out, OutEvent(s, e).value);
    }
    hide Out.Next, Spinning.Next, PacketCount, PacketAt, CallsFit, CallFits;
    assert s.out.pushed + [] == s.out.pushed;
  }

  /** Whether the last that was heard of the connection is that it is up. */
  function UpIn(es: seq<Event>, k: nat): bool
    requires k <= |es|
  {
    if k == 0 then false
    else if es[k - 1] == Connect then true
    else if es[k - 1] == Disconnect then false
    else UpIn(es, k - 1)
  }

  lemma ConnectedNext(s: System, e: Event)
    requires UserCallbacks.Agree(s.spin.registry)
    ensures BridgeSystem.Next(s, e).out.connected
         == (if e == Connect then true else if e == Disconnect then false else s.out.connected)
  {
    if OutEvent(s, e).Some? {
      Answers.ConnectedNext(s.out, OutEvent(s, e).value);
    }
    hide Out.Next, Spinning.Next;
  }

  /** The connection of the bridge is what it was last said to be. */
  lemma {:induction false} ConnectionIsTrue(period: uint32, es: seq<Event>, k: nat)
    requires k <= |es|
    ensures BridgeSystem.After(period, es, k).out.connected == UpIn(es, k)
  {
    hide BridgeSystem.After, BridgeSystem.Next;
    if k == 0 {
      DownAtFirst(period, es);
    } else {
      ConnectionIsTrue(period, es, k - 1);
      AfterStep(period, es, k - 1);
      ConnectedNext(BridgeSystem.After(period, es, k - 1), es[k - 1]);
    }
  }

  lemma DownAtFirst(period: uint32, es: seq<Event>)
    ensures !BridgeSystem.After(period, es, 0).out.connected
  {
  }

  /** An attempt is counted exactly when the keep-alive is due. */
  lemma AttemptsAre(s: System, e: Event)
    requires UserCallbacks.Agree(s.spin.registry) && KeepAliveDue(s, e)
    ensures BridgeSystem.Next(s, e).spin.attempts == s.spin.attempts + 1
  {
    hide Out.Next;
  }

  /** A keep-alive that falls due on a live connection is pushed as a greeting with nothing but zeros in it. From
      then on it waits or is in the thread's hands, and once it no longer is it has been sent as a greeting:
      it is never refused, never taken for answered, and never times out. */
  lemma KeepAliveIsSent(period: uint32, es: seq<Event>, j: nat, k: nat)
    requires BridgeSystem.Legal(period, es) && j < k <= |es|
    requires
      var s := BridgeSystem.After(period, es, j);
      KeepAliveDue(s, es[j]) && s.out.connected
    ensures
      var i, o := |BridgeSystem.After(period, es, j).out.pushed|, BridgeSystem.After(period, es, k).out;
      && i < |o.pushed| && o.pushed[i] == Message(0, 0, Greeting(0))
      && i !in o.discarded && i !in o.retired && i !in o.expired
      && (i in Out.Serials(Out.Line(o)) || (i in o.greeted && i in o.sent))
  {
    hide BridgeSystem.After, BridgeSystem.Legal, BridgeSystem.Next, BridgeSystem.Enabled, OutEvents, Out.After, Out.Legal,
      Out.Invariant, SpinInvariants.Invariant, Out.Line, Out.Serials, KeepAliveDue;
    var s := BridgeSystem.After(period, es, j);
    BridgeSystem.InvariantAlways(period, es, j);
    StepOf(period, es, j);
    DuePush(s, es[j]);
    LogsGrowAlong(period, es, j + 1, k);
    OutboundPartIsARun(period, es, k);
    var os := OutEvents(period, es, k);
    var i := |s.out.pushed|;
    OutThm.FatesAreDeserved(os, |os|, i);
    OutInv.InvariantAlways(os, |os|);
    GreetingIsSomewhere(BridgeSystem.After(period, es, k).out, i);
  }

  lemma StepOf(period: uint32, es: seq<Event>, k: nat)
    requires BridgeSystem.Legal(period, es) && k < |es|
    ensures BridgeSystem.Enabled(BridgeSystem.After(period, es, k), es[k])
    ensures BridgeSystem.After(period, es, k + 1) == BridgeSystem.Next(BridgeSystem.After(period, es, k), es[k])
  {
    hide BridgeSystem.Next, BridgeSystem.Enabled;
  }

  lemma DuePush(s: System, e: Event)
    requires BridgeSystem.Invariant(s) && UserCallbacks.Agree(s.spin.registry) && BridgeSystem.Enabled(s, e)
    requires KeepAliveDue(s, e) && s.out.connected
    ensures BridgeSystem.Next(s, e).out.pushed == s.out.pushed + [Message(0, 0, Greeting(0))]
  {
    hide BridgeSystem.Next, BridgeSystem.Enabled;
    PushesAre(s, e);
  }

  lemma GreetingIsSomewhere(o: Out.State, i: nat)
    requires Out.Invariant(o) && i < |o.pushed| && o.pushed[i].body.Greeting?
    ensures i !in o.retired && i !in o.expired && i !in o.discarded
    ensures i in Out.Serials(Out.Line(o)) || (i in o.greeted && i in o.sent)
  {
    hide Out.Line, Out.Serials, Out.Linearized, Out.Ordered, Out.Accounted;
    OutThm.PlaceOf(o, i);
  }

  /** A peer that gets such a greeting takes it for one, from agent 0. */
  lemma KeepAliveIsAGreeting()
    ensures GreetedBy(Message(0, 0, Greeting(0))) == Some(0)
  {
  }
}
