/** A spin that nothing interrupts, step by step in `SpinProtocol`, does what `HiveMindBridgeImpl.Spin`
    is specified to do in one go. */
module SpinRefinement {
  import opened Prelude
  import opened Messages
  import opened UserCallbacks
  import opened UserCalls
  import opened MessageHandling
  import opened SpinProtocol
  import OutboundHandles
  import BridgeImpl
  import PendingLoop

  /** n steps of the spinning thread, drawing the given random ids. */
  function Works(s: State, requestIds: seq<uint32>): (s': State)
    requires Agree(s.registry)
    ensures Agree(s'.registry)
    decreases |requestIds|
  {
    if requestIds == [] then s
    else
      RegistryStaysInAgreement(s, Work(requestIds[0]));
      assert Next(s, Work(requestIds[0])) == Advance(s, requestIds[0]);
      Works(Advance(s, requestIds[0]), requestIds[1..])
  }

  lemma {:induction false} WorksCompose(s: State, a: seq<uint32>, b: seq<uint32>)
    requires Agree(s.registry)
    ensures Works(s, a + b) == Works(Works(s, a), b)
    decreases |a|
  {
    hide Advance, Next;
    if a == [] {
      assert a + b == b;
    } else {
      assert (a + b)[0] == a[0] && (a + b)[1..] == a[1..] + b;
      RegistryStaysInAgreement(s, Work(a[0]));
      NextIsAdvance(s, a[0]);
      WorksCompose(Advance(s, a[0]), a[1..], b);
    }
  }

  lemma NextIsAdvance(s: State, requestId: uint32)
    requires Agree(s.registry)
    ensures Next(s, Work(requestId)) == Advance(s, requestId)
  {
  }

  lemma WorksOne(s: State, requestId: uint32)
    requires Agree(s.registry)
    ensures Agree(Advance(s, requestId).registry)
    ensures Works(s, [requestId]) == Advance(s, requestId)
  {
    hide Advance, Next;
    RegistryStaysInAgreement(s, Work(requestId));
    NextIsAdvance(s, requestId);
    assert [requestId][1..] == [];
  }

  /** The pending requests of the two models are the same ones. */
  ghost predicate SamePending(ps: seq<Pending>, rs: seq<InboundRequest>) {
    |ps| == |rs| && forall i :: 0 <= i < |ps| ==> ps[i].future == rs[i].future && ps[i].context == rs[i].context
  }

  function MessagesIn(log: seq<Output>): seq<Message> {
    seq(|log|, i requires 0 <= i < |log| => log[i].message)
  }

  function StoreAll(responses: map<uint32, InboundResponse>, stored: seq<InboundResponse>): map<uint32, InboundResponse> {
    if stored == [] then responses
    else
      var last := stored[|stored| - 1];
      StoreAll(responses, stored[..|stored| - 1])[last.id := last]
  }

  /** The spinning thread's part of the bridge's state. `wire` and `responses` are what was there before
      its logs began. */
  ghost predicate Mirrors(s: State, v: BridgeImpl.View, wire: seq<Message>, responses: map<uint32, InboundResponse>) {
    && v.inbox == s.inbox && v.registry == s.registry && v.receiver == s.receiver && v.delivered == s.delivered
    && v.counter == s.counter && SamePending(s.pending, v.pending)
    && v.wire == wire + MessagesIn(s.log)
    && v.responses == StoreAll(responses, s.stored)
  }

  // ---------- The loop over the pending requests ----------

  /** s' is s after the loop has examined rs, whose entries are those at the head of the rest. */
  ghost predicate Examined(s: State, s': State, rs: seq<InboundRequest>, requestIds: seq<uint32>)
    requires |requestIds| == |rs|
  {
    && s.phase.Scanning? && s'.phase.Scanning?
    && s.phase.kept <= s'.phase.kept
    && SamePending(s'.phase.kept[|s.phase.kept|..], PendingLoop.Unfinished(rs, s.finished))
    && MessagesIn(s'.log) == MessagesIn(s.log) + PendingLoop.Returns(rs, s.finished, requestIds)
    && s' == s.(phase := s'.phase, log := s'.log)
  }

  lemma ExaminedMore(s: State, r: State, s': State, rs: seq<InboundRequest>, requestIds: seq<uint32>)
    requires rs != [] && |requestIds| == |rs| && s.phase.Scanning? && s.phase.rest != [] && r.phase.Scanning?
    requires s.phase.rest[0].future == rs[0].future && s.phase.rest[0].context == rs[0].context
    requires r.phase.kept == if StillRuns(rs[0].future, s.finished) then s.phase.kept + [s.phase.rest[0]] else s.phase.kept
    requires MessagesIn(r.log) == MessagesIn(s.log) + PendingLoop.ReturnOf(rs[0], s.finished, requestIds[0])
    requires r == s.(phase := r.phase, log := r.log)
    requires Examined(r, s', rs[1..], requestIds[1..])
    ensures Examined(s, s', rs, requestIds)
  {
    hide PendingLoop.ReturnOf, StillRuns, MessagesIn;
    var k := |s.phase.kept|;
    assert s'.phase.kept[k..] ==
      (if StillRuns(rs[0].future, s.finished) then [s.phase.rest[0]] else []) + s'.phase.kept[|r.phase.kept|..];
  }

  lemma NothingExamined(s: State)
    requires s.phase.Scanning?
    ensures Examined(s, s, [], [])
  {
    assert s.phase.kept[|s.phase.kept|..] == [];
    assert MessagesIn(s.log) + [] == MessagesIn(s.log);
  }

  lemma {:induction false} ScanningToTheEnd(s: State, rs: seq<InboundRequest>, requestIds: seq<uint32>)
    requires Agree(s.registry) && s.phase.Scanning? && SamePending(s.phase.rest, rs) && |requestIds| == |rs|
    ensures Examined(s, Works(s, requestIds), rs, requestIds)
    ensures Works(s, requestIds).phase.rest == []
    decreases |rs|
  {
    if rs != [] {
      var r := Advance(s, requestIds[0]);
      ScanOne(s, rs[0], requestIds[0]);
      hide Advance, ReturnOf, PendingLoop.ReturnOf, ReturnFor, Next, Examined, MessagesIn;
      ScanningToTheEnd(r, rs[1..], requestIds[1..]);
      ExaminedMore(s, r, Works(r, requestIds[1..]), rs, requestIds);
    } else {
      assert requestIds == [] && rs == [];
      NothingExamined(s);
    }
  }

  lemma ScanOne(s: State, r: InboundRequest, requestId: uint32)
    requires Agree(s.registry) && s.phase.Scanning? && s.phase.rest != []
    requires s.phase.rest[0].future == r.future && s.phase.rest[0].context == r.context
    ensures
      var s' := Advance(s, requestId);
      && s'.phase.Scanning? && s'.phase.rest == s.phase.rest[1..]
      && s'.phase.kept == (if StillRuns(r.future, s.finished) then s.phase.kept + [s.phase.rest[0]] else s.phase.kept)
      && s.log <= s'.log && MessagesIn(s'.log) == MessagesIn(s.log) + PendingLoop.ReturnOf(r, s.finished, requestId)
      && s' == s.(phase := s'.phase, log := s'.log)
  {
    var p := s.phase.rest[0];
    var returned := ReturnOf(p, s.finished, requestId);
    assert MessagesIn(s.log + returned) == MessagesIn(s.log) + MessagesIn(returned);
    assert StillRuns(r.future, s.finished) ==> PendingLoop.ReturnOf(r, s.finished, requestId) == [];
    assert MessagesIn(s.log) + [] == MessagesIn(s.log);
  }

  // ---------- The inbound message ----------

  lemma MessagesSnoc(log: seq<Output>, o: Output)
    ensures MessagesIn(log + [o]) == MessagesIn(log) + [o.message]
  {
  }

  lemma StoreAllSnoc(responses: map<uint32, InboundResponse>, stored: seq<InboundResponse>, r: InboundResponse)
    ensures StoreAll(responses, stored + [r]) == StoreAll(responses, stored)[r.id := r]
  {
    assert (stored + [r])[..|stored|] == stored;
  }

  lemma SamePendingSnoc(ps: seq<Pending>, rs: seq<InboundRequest>, p: Pending, r: InboundRequest)
    requires SamePending(ps, rs) && p.future == r.future && p.context == r.context
    ensures SamePending(ps + [p], rs + [r])
  {
  }

  lemma RecordMirrors(s: State, v: BridgeImpl.View, wire: seq<Message>, responses: map<uint32, InboundResponse>)
    requires s.phase.Recording? && s.handled > 0 && Mirrors(s, v, wire, responses)
    ensures
      var s' := Record(s, s.phase.routed);
      && s'.phase == Scanning([], s'.pending) && Mirrors(s', BridgeImpl.Recorded(v, s.phase.routed), wire, responses)
      && s'.finished == s.finished && s'.period == s.period && s'.registry == s.registry && s'.handled == s.handled
      && s'.attempts == s.attempts
  {
    hide MessagesIn, StoreAll, SamePending;
    match s.phase.routed
    case AsRequest(h) =>
      var p := Pending(s.handled - 1, h.future, h.context);
      SamePendingSnoc(s.pending, v.pending, p, h);
      MessagesSnoc(s.log, Ack(s.handled - 1, h.response));
      assert wire + (MessagesIn(s.log) + [h.response]) == wire + MessagesIn(s.log) + [h.response];
    case AsResponse(r) =>
      StoreAllSnoc(responses, s.stored, r);
    case _ =>
  }

  lemma HandleMirrors(s: State, v: BridgeImpl.View, wire: seq<Message>, responses: map<uint32, InboundResponse>)
    requires Agree(s.registry) && s.phase == Peeking && s.inbox != [] && Mirrors(s, v, wire, responses)
    ensures
      var routed := Route(s.registry, s.inbox[0], s.handled);
      var outcome := Absorb(s.receiver, s.inbox[0]);
      var s' := Handle(s);
      if routed.Broken? then s'.phase == Ruined
      else
        && s'.phase == Popping(s.inbox[0], routed)
        && Mirrors(s', v.(receiver := outcome.receiver, delivered := v.delivered + outcome.deliveries), wire, responses)
        && s'.finished == s.finished && s'.period == s.period && s'.registry == s.registry
        && s'.inbox == s.inbox && s'.handled == s.handled && s'.attempts == s.attempts
  {
  }

  /** From the test of the inbox to the loop over the pending requests. */
  lemma {:induction false} InboundSteps(s: State, v: BridgeImpl.View, wire: seq<Message>, responses: map<uint32, InboundResponse>,
                     ids: seq<uint32>)
    requires Agree(s.registry) && s.phase == Testing && s.inbox != [] && Mirrors(s, v, wire, responses) && |ids| == 4
    ensures
      var handled := BridgeImpl.HandleInbound(v, s.handled);
      && (handled.None? ==> Works(s, ids[..2]).phase == Ruined)
      && (handled.Some? ==>
           var s' := Works(s, ids);
           && s'.phase == Scanning([], s'.pending) && Mirrors(s', handled.value, wire, responses)
           && s'.finished == s.finished && s'.period == s.period && s'.handled == s.handled + 1 && s'.attempts == s.attempts)
  {
    var a := Advance(s, ids[0]);
    assert a == s.(phase := Peeking);
    var b := Advance(a, ids[1]);
    HandleMirrors(a, v, wire, responses);
    WorksOne(s, ids[0]);
    WorksOne(a, ids[1]);
    WorksCompose(s, [ids[0]], [ids[1]]);
    assert ids[..2] == [ids[0]] + [ids[1]];
    var routed := Route(s.registry, s.inbox[0], s.handled);
    if !routed.Broken? {
      var c := Advance(b, ids[2]);
      assert c == b.(phase := Recording(routed), inbox := s.inbox[1..], handled := s.handled + 1);
      var d := Advance(c, ids[3]);
      var outcome := Absorb(v.receiver, v.inbox[0]);
      var w := v.(inbox := v.inbox[1..], receiver := outcome.receiver, delivered := v.delivered + outcome.deliveries);
      RecordMirrors(c, w, wire, responses);
      WorksOne(b, ids[2]);
      WorksOne(c, ids[3]);
      hide Advance, Works, Record, Handle, Route, Absorb, Mirrors;
      WorksCompose(s, ids[..2], [ids[2]]);
      WorksCompose(s, ids[..2] + [ids[2]], [ids[3]]);
      assert ids == ids[..2] + [ids[2]] + [ids[3]];
    }
  }

  // ---------- A whole spin ----------

  /** From the loop over the pending requests to the end of the spin. */
  lemma {:induction false} ScanAndBeat(s: State, v: BridgeImpl.View, wire: seq<Message>, responses: map<uint32, InboundResponse>,
                    requestIds: seq<uint32>, x: uint32, y: uint32)
    requires Agree(s.registry) && s.phase == Scanning([], s.pending) && Mirrors(s, v, wire, responses)
    requires |requestIds| == |v.pending|
    ensures
      var s' := Works(s, requestIds + [x, y]);
      && s'.phase == Idle && s'.beats == s.beats + 1
      && s'.attempts == s.attempts + (if Beat(s.counter, s.period).1 then 1 else 0)
      && Mirrors(s', BridgeImpl.ScanPending(v, s.finished, requestIds).(counter := Beat(s.counter, s.period).0), wire, responses)
  {
    ScanningToTheEnd(s, v.pending, requestIds);
    var a := Works(s, requestIds);
    var b := Advance(a, x);
    assert b == a.(phase := Beating, pending := a.phase.kept);
    assert a.phase.kept[0..] == a.phase.kept;
    var c := Advance(b, y);
    WorksOne(a, x);
    WorksOne(b, y);
    WorksCompose(s, requestIds, [x]);
    WorksCompose(s, requestIds + [x], [y]);
    assert requestIds + [x, y] == requestIds + [x] + [y];
    assert wire + (MessagesIn(s.log) + PendingLoop.Returns(v.pending, s.finished, requestIds))
        == wire + MessagesIn(s.log) + PendingLoop.Returns(v.pending, s.finished, requestIds);
  }

  /** An uninterrupted spin on a live connection, with or without a message in the inbox: the step machine
      ends where the bridge's `Spin` is specified to end, having attempted a greeting exactly when it
      queues one, or both read the registry past its end. */
  lemma UninterruptedSpin(s: State, v: BridgeImpl.View, wire: seq<Message>, responses: map<uint32, InboundResponse>,
                          ids: seq<uint32>, requestIds: seq<uint32>, x: uint32, y: uint32)
    requires Agree(s.registry) && s.phase == Idle && Mirrors(s, v, wire, responses) && v.connected
    requires |ids| == if s.inbox == [] then 1 else 4
    requires
      var handled := BridgeImpl.HandleInbound(v, s.handled);
      handled.Some? ==> |requestIds| == |handled.value.pending|
    ensures
      var started := Next(s, Spin(true));
      var handled := BridgeImpl.HandleInbound(v, s.handled);
      && Agree(started.registry)
      && (handled.None? ==> |ids| == 4 && Works(started, ids[..2]).phase == Ruined)
      && (handled.Some? ==>
           var s' := Works(started, ids + (requestIds + [x, y]));
           var v' := BridgeImpl.KeptAlive(BridgeImpl.ScanPending(handled.value, s.finished, requestIds), s.period);
           && s'.phase == Idle && Mirrors(s', v', wire, responses)
           && v'.outbox == v.outbox +
                           (if s'.attempts > s.attempts then
                              [OutboundHandles.Handle(Message(0, 0, Greeting(0)), OutboundHandles.Ready, 0)]
                            else []))
  {
    var started := Next(s, Spin(true));
    assert started == s.(phase := Testing);
    if s.inbox == [] {
      WorksOne(started, ids[0]);
      assert ids == [ids[0]];
    } else {
      InboundSteps(started, v, wire, responses, ids);
    }
    var handled := BridgeImpl.HandleInbound(v, s.handled);
    if handled.Some? {
      var a := Works(started, ids);
      HandlingKeeps(v, s.handled);
      ScanAndBeat(a, handled.value, wire, responses, requestIds, x, y);
      WorksCompose(started, ids, requestIds + [x, y]);
      hide Works, Advance, BridgeImpl.HandleInbound, BridgeImpl.KeptAlive;
      KeptAliveIs(BridgeImpl.ScanPending(handled.value, s.finished, requestIds), s.period);
    }
  }

  lemma HandlingKeeps(v: BridgeImpl.View, token: nat)
    requires Agree(v.registry) && BridgeImpl.HandleInbound(v, token).Some?
    ensures
      var v' := BridgeImpl.HandleInbound(v, token).value;
      v'.connected == v.connected && v'.outbox == v.outbox && v'.counter == v.counter
  {
  }

  lemma KeptAliveIs(v: BridgeImpl.View, period: uint32)
    ensures
      BridgeImpl.KeptAlive(v, period) ==
      v.(counter := Beat(v.counter, period).0,
         outbox := v.outbox + (if Beat(v.counter, period).1 && v.connected then
                                 [OutboundHandles.Handle(GREET, OutboundHandles.Ready, 0)] else []))
  {
    assert v.outbox + [] == v.outbox;
  }
}
