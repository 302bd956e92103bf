/** Every run of the outbound side keeps the invariant; what it means for readers of the history. */
module OutboundInvariants {
  import opened Prelude
  import opened Messages
  import opened OutboundHandles
  import opened OutboundProtocol

  // ---------- One step ----------

  ghost predicate AllFaithful(s: State) {
    forall t <- Line(s) :: Faithful(t, s)
  }

  lemma HeldIsFaithful(s: State)
    requires AllFaithful(s)
    ensures forall t <- Held(s) :: Faithful(t, s)
    ensures forall t <- s.queue :: Faithful(t, s)
  {
    assert forall t <- Held(s) :: t in Line(s);
    assert forall t <- s.queue :: t in Line(s);
  }

  lemma LinearizedNext(s: State, e: Event)
    requires Linearized(s) && AllFaithful(s) && Enabled(s, e)
    ensures Linearized(Next(s, e))
  {
    HeldIsFaithful(s);
    if e == ThreadStep && s.phase.Deciding? {
      assert Faithful(s.phase.held, s);
    }
  }

  /** The push log and the send log only grow. */
  lemma LogsGrow(s: State, e: Event)
    ensures s.pushed <= Next(s, e).pushed && s.sent <= Next(s, e).sent
  {
    hide Settle;
    if e == ThreadStep && s.phase.Deciding? {
      SettleEffect(s);
    }
  }

  lemma StillFaithful(t: Ticket, s: State, s': State)
    requires Faithful(t, s) && s.pushed <= s'.pushed && s.sent <= s'.sent
    ensures Faithful(t, s')
  {
  }

  /** The ticket in the thread's hands after a step, if any, is one it read from the queue or the one it
      already held, with a state and a clock that match what was done. */
  lemma HeldStaysFaithful(s: State)
    requires Linearized(s) && AllFaithful(s) && s.phase != Stopped
    ensures forall t <- Held(Advance(s)) :: Faithful(t, Advance(s))
  {
    HeldIsFaithful(s);
    LogsGrow(s, ThreadStep);
    var s' := Advance(s);
    if Held(s') != [] {
      var t' := Held(s')[0];
      if t' in Line(s) {
        StillFaithful(t', s, s');
      } else {
        assert Faithful(Held(s)[0], s);
      }
    }
  }

  lemma FaithfulNext(s: State, e: Event)
    requires Linearized(s) && AllFaithful(s) && Enabled(s, e)
    ensures AllFaithful(Next(s, e))
  {
    var s' := Next(s, e);
    HeldIsFaithful(s);
    LogsGrow(s, e);
    if e == ThreadStep {
      HeldStaysFaithful(s);
    }
    forall t | t in Line(s') ensures Faithful(t, s') {
      if t in Line(s) {
        StillFaithful(t, s, s');
      } else if e == ThreadStep {
        assert t in Held(s');
      }
    }
  }

  lemma SendOrderSplit(s: State)
    ensures SendOrder(s) == s.sent + Unsent(Held(s)) + Unsent(s.queue)
  {
    UnsentConcat(Held(s), s.queue);
  }

  lemma UnsentOne(t: Ticket)
    ensures Unsent([t]) == if t.handle.state == Ready then [t.serial] else []
  {
    assert [t][..0] == [];
  }

  /** `w'` is `w` without its entry n. */
  ghost predicate Without(w: seq<nat>, w': seq<nat>, n: nat) {
    n < |w| && w' == w[..n] + w[n + 1..]
  }

  /** What examining a handle does to the rest of the state. */
  lemma SettleEffect(s: State)
    requires s.phase.Deciding?
    ensures
      var t := s.phase.held;
      var s' := Settle(s, t);
      && s'.queue == s.queue && s'.sent == s.sent && s'.pushed == s.pushed
      && s'.retired == s.retired && s'.greeted == s.greeted && s'.consumed == s.consumed
      && ( || (Held(s') == [] && s'.expired == s.expired + [t.serial] && s'.discarded == s.discarded)
           || (Held(s') == [] && s'.expired == s.expired && s'.discarded == s.discarded + [t.serial])
           || (|Held(s')| == 1 && Held(s')[0].serial == t.serial && Held(s')[0].handle.state == t.handle.state
               && s'.expired == s.expired && s'.discarded == s.discarded))
  {
  }

  lemma SettleOrder(s: State)
    requires s.phase.Deciding?
    ensures
      var s' := Settle(s, s.phase.held);
      SendOrder(s') == SendOrder(s) || Without(SendOrder(s), SendOrder(s'), |s.sent|)
  {
    SettleEffect(s);
    SendOrderSplit(s);
    SendOrderSplit(Settle(s, s.phase.held));
    HeldPartOrder(s.sent, s.phase.held, Held(Settle(s, s.phase.held)), Unsent(s.queue));
  }

  lemma {:induction false} HeldPartOrder(sent: seq<nat>, t: Ticket, after: seq<Ticket>, queued: seq<nat>)
    requires after == [] || (|after| == 1 && after[0].serial == t.serial && after[0].handle.state == t.handle.state)
    ensures
      var w, w' := sent + Unsent([t]) + queued, sent + Unsent(after) + queued;
      w' == w || Without(w, w', |sent|)
  {
    UnsentOne(t);
    if after != [] {
      UnsentOne(after[0]);
      assert after == [after[0]];
    }
  }

  lemma EraseOrder(s: State)
    requires s.phase.Erasing? && Linearized(s)
    ensures
      var s' := Advance(s);
      SendOrder(s') == SendOrder(s) || Without(SendOrder(s), SendOrder(s'), |s.sent|)
  {
    var t := s.phase.held;
    SendOrderSplit(s);
    SendOrderSplit(Advance(s));
    UnsentOne(t);
    if t.handle.state == Ready {
      assert SendOrder(s) == s.sent + [t.serial] + Unsent(s.queue);
      assert SendOrder(Advance(s)) == s.sent + Unsent(s.queue);
    }
  }

  lemma SendingEffect(s: State)
    requires s.phase.Sending?
    ensures Advance(s).queue == s.queue && Advance(s).sent == s.sent + [s.phase.held.serial]
    ensures Unsent(Held(Advance(s))) == []
  {
    if Held(Advance(s)) != [] {
      UnsentOne(Held(Advance(s))[0]);
    }
  }

  lemma SendingOrder(s: State)
    requires s.phase.Sending? && s.phase.held.handle.state == Ready
    ensures SendOrder(Advance(s)) == SendOrder(s)
  {
    SendOrderSplit(s);
    SendOrderSplit(Advance(s));
    UnsentOne(s.phase.held);
    SendingEffect(s);
  }

  lemma RequeueOrder(s: State)
    requires s.phase.Requeuing? && Linearized(s)
    ensures SendOrder(Advance(s)) == SendOrder(s)
  {
    SendOrderSplit(s);
    SendOrderSplit(Advance(s));
    UnsentOne(s.phase.held);
    UnsentConcat(s.queue, [s.phase.held]);
  }

  lemma PushOrder(s: State, m: Message)
    ensures SendOrder(Next(s, Push(m))) == SendOrder(s) + [|s.pushed|]
  {
    var s' := Next(s, Push(m));
    var t := Ticket(|s.pushed|, Handle(m, Ready, 0));
    SendOrderSplit(s);
    SendOrderSplit(s');
    UnsentConcat(s.queue, [t]);
    UnsentOne(t);
    assert Held(s') == Held(s);
  }

  /** Steps that neither push nor dispose of a held ticket only move tickets along the line. */
  lemma QuietStep(s: State, e: Event)
    requires Linearized(s) && Enabled(s, e) && !e.Push? && (e == ThreadStep ==> Held(s) == [])
    ensures
      var s' := Next(s, e);
      && Line(s') == Line(s) && s'.pushed == s.pushed && s'.sent == s.sent
      && s'.retired == s.retired && s'.expired == s.expired && s'.greeted == s.greeted && s'.discarded == s.discarded
  {
    assert e == ThreadStep && s.phase.Popping? ==> Line(Next(s, e)) == Line(s);
  }

  /** One step leaves the send order alone, or adds the newest serial at its end, or drops the entry
      after those sent. */
  lemma SendOrderNext(s: State, e: Event)
    requires Linearized(s) && Enabled(s, e)
    ensures
      var w, w' := SendOrder(s), SendOrder(Next(s, e));
      w' == w || (e.Push? && w' == w + [|s.pushed|]) || Without(w, w', |s.sent|)
  {
    if e.Push? {
      PushOrder(s, e.message);
    } else if e == ThreadStep && s.phase.Deciding? {
      SettleOrder(s);
    } else if e == ThreadStep && s.phase.Erasing? {
      EraseOrder(s);
    } else if e == ThreadStep && s.phase.Sending? {
      SendingOrder(s);
    } else if e == ThreadStep && s.phase.Requeuing? {
      RequeueOrder(s);
    } else {
      QuietStep(s, e);
    }
  }

  lemma WithoutKeepsOrder(w: seq<nat>, w': seq<nat>, n: nat, limit: nat)
    requires Without(w, w', n) && InPushOrder(w, limit)
    ensures InPushOrder(w', limit)
  {
    forall i | 0 <= i < |w'| ensures w'[i] == w[if i < n then i else i + 1] {
    }
  }

  lemma NewestKeepsOrder(w: seq<nat>, limit: nat)
    requires InPushOrder(w, limit)
    ensures InPushOrder(w + [limit], limit + 1)
  {
    IncreasingSnoc(w, limit);
  }

  lemma OrderedNext(s: State, e: Event)
    requires Linearized(s) && Ordered(s) && Enabled(s, e)
    ensures Ordered(Next(s, e))
  {
    SendOrderNext(s, e);
    PushedNext(s, e);
    var w, w' := SendOrder(s), SendOrder(Next(s, e));
    if e.Push? && w' == w + [|s.pushed|] {
      NewestKeepsOrder(w, |s.pushed|);
    } else if w' != w {
      WithoutKeepsOrder(w, w', |s.sent|, |s.pushed|);
      assert InPushOrder(w', |Next(s, e).pushed|);
    }
  }

  lemma PushedNext(s: State, e: Event)
    ensures Next(s, e).pushed == if e.Push? then s.pushed + [e.message] else s.pushed
  {
  }

  lemma SerialsConcat(a: seq<Ticket>, b: seq<Ticket>)
    ensures Serials(a + b) == Serials(a) + Serials(b)
  {
  }

  lemma WhereaboutsSplit(s: State)
    ensures Whereabouts(s) == multiset(Serials(Held(s))) + multiset(Serials(s.queue)) + multiset(s.retired)
                              + multiset(s.expired) + multiset(s.greeted) + multiset(s.discarded)
  {
    SerialsConcat(Held(s), s.queue);
  }

  lemma MultisetSnoc(a: seq<nat>, x: nat)
    ensures multiset(a + [x]) == multiset(a) + multiset{x}
  {
  }

  lemma PushConserves(s: State, m: Message)
    requires Conserved(s)
    ensures Conserved(Next(s, Push(m)))
  {
    var s' := Next(s, Push(m));
    WhereaboutsSplit(s);
    WhereaboutsSplit(s');
    assert Held(s') == Held(s);
    var t := Ticket(|s.pushed|, Handle(m, Ready, 0));
    SerialsConcat(s.queue, [t]);
    MultisetSnoc(Serials(s.queue), t.serial);
    assert Serials([t]) == [t.serial];
  }

  /** The places a message can be in, as a tuple of lists of serials. */
  datatype Places = Places(held: seq<nat>, queue: seq<nat>, retired: seq<nat>, expired: seq<nat>,
                           greeted: seq<nat>, discarded: seq<nat>)
  {
    ghost function Total(): multiset<nat> {
      multiset(held) + multiset(queue) + multiset(retired) + multiset(expired) + multiset(greeted) + multiset(discarded)
    }
  }

  ghost function PlacesIn(s: State): Places {
    Places(Serials(Held(s)), Serials(s.queue), s.retired, s.expired, s.greeted, s.discarded)
  }

  lemma TotalIsWhereabouts(s: State)
    ensures PlacesIn(s).Total() == Whereabouts(s)
  {
    WhereaboutsSplit(s);
  }

  /** A held serial that moves to one of the other places is still counted once. */
  lemma MovingConserves(p: Places, p': Places, x: nat)
    requires p.held == [x]
    requires
      || p' == p
      || p' == p.(held := [], queue := p.queue + [x])
      || p' == p.(held := [], retired := p.retired + [x])
      || p' == p.(held := [], expired := p.expired + [x])
      || p' == p.(held := [], greeted := p.greeted + [x])
      || p' == p.(held := [], discarded := p.discarded + [x])
    ensures p'.Total() == p.Total()
  {
    MultisetSnoc(p.queue, x);
    MultisetSnoc(p.retired, x);
    MultisetSnoc(p.expired, x);
    MultisetSnoc(p.greeted, x);
    MultisetSnoc(p.discarded, x);
  }

  lemma HeldAdvance(s: State)
    requires Linearized(s) && Held(s) != []
    ensures Whereabouts(Advance(s)) == Whereabouts(s) && Advance(s).pushed == s.pushed
  {
    var t := s.phase.held;
    var s' := Advance(s);
    assert Serials([t]) == [t.serial];
    if s.phase.Deciding? {
      SettleEffect(s);
      assert Held(s') != [] ==> Serials(Held(s')) == [t.serial];
    }
    SerialsConcat(s.queue, [t]);
    MovingConserves(PlacesIn(s), PlacesIn(s'), t.serial);
    TotalIsWhereabouts(s);
    TotalIsWhereabouts(s');
  }

  lemma ConservedNext(s: State, e: Event)
    requires Linearized(s) && Conserved(s) && Enabled(s, e)
    ensures Conserved(Next(s, e))
  {
    if e.Push? {
      PushConserves(s, e.message);
    } else if e == ThreadStep && Held(s) != [] {
      HeldAdvance(s);
    } else {
      QuietStep(s, e);
    }
  }

  lemma SettleReason(s: State)
    requires s.phase.Deciding?
    ensures
      var t := s.phase.held;
      var s' := Settle(s, t);
      && (s'.expired != s.expired ==>
           s'.expired == s.expired + [t.serial] && t.handle.state == Sent && t.handle.message.body.Request?)
      && (s'.discarded != s.discarded ==>
           s'.discarded == s.discarded + [t.serial] && !t.handle.message.body.Request? && !t.handle.message.body.Greeting?)
  {
    assert s.phase.held.serial == (s.expired + [s.phase.held.serial])[|s.expired|];
  }

  lemma SettleFates(s: State)
    requires s.phase.Deciding? && AllFaithful(s) && Ordered(s) && FatesMeanIt(s)
    ensures FatesMeanIt(Settle(s, s.phase.held))
  {
    HeldIsFaithful(s);
    var t := s.phase.held;
    assert Faithful(t, s);
    if t.handle.state == Ready {
      ReadyMeansUnsent(s, t);
    }
    SettleEffect(s);
    SettleReason(s);
    FatesAfterRest(s, Settle(s, t), t);
  }

  lemma FatesAfterRest(s: State, s': State, t: Ticket)
    requires FatesMeanIt(s) && Faithful(t, s) && (t.handle.state == Ready ==> t.serial !in s.sent)
    requires s'.sent == s.sent && s'.pushed == s.pushed
    requires s'.retired == s.retired && s'.greeted == s.greeted && s'.consumed == s.consumed
    requires s'.expired != s.expired ==> s'.expired == s.expired + [t.serial] && t.handle.state == Sent
    requires s'.discarded != s.discarded ==>
      s'.discarded == s.discarded + [t.serial] && !t.handle.message.body.Request? && !t.handle.message.body.Greeting?
    ensures FatesMeanIt(s')
  {
    assert forall i <- s'.expired :: i in s.expired || (i == t.serial && t.handle.state == Sent);
    assert forall i <- s'.discarded :: i in s.discarded || (i == t.serial && t.handle.state == Ready);
  }

  lemma EraseFates(s: State)
    requires s.phase.Erasing? && Linearized(s) && AllFaithful(s) && FatesMeanIt(s)
    ensures FatesMeanIt(Advance(s))
  {
    HeldIsFaithful(s);
    assert Faithful(s.phase.held, s);
  }

  lemma SendingFates(s: State)
    requires s.phase.Sending? && Linearized(s) && AllFaithful(s) && FatesMeanIt(s)
    ensures FatesMeanIt(Advance(s))
  {
    HeldIsFaithful(s);
    var t := s.phase.held;
    assert Faithful(t, s);
    var s' := Advance(s);
    assert forall i :: i in s'.sent <==> i in s.sent || i == t.serial;
    assert forall i <- s'.greeted :: i in s.greeted || i == t.serial;
  }

  lemma FatesNext(s: State, e: Event)
    requires Linearized(s) && AllFaithful(s) && Ordered(s) && FatesMeanIt(s) && Enabled(s, e)
    ensures FatesMeanIt(Next(s, e))
  {
    if e == ThreadStep && s.phase.Deciding? {
      SettleFates(s);
    } else if e == ThreadStep && s.phase.Erasing? {
      EraseFates(s);
    } else if e == ThreadStep && s.phase.Sending? {
      SendingFates(s);
    }
  }

  /** A handle still marked ready has not been serialized. */
  lemma ReadyMeansUnsent(s: State, t: Ticket)
    requires Ordered(s) && t in Line(s) && t.handle.state == Ready
    ensures t.serial !in s.sent
  {
    UnsentHas(Line(s), t);
    var u := Unsent(Line(s));
    var j :| 0 <= j < |u| && u[j] == t.serial;
    var w := s.sent + u;
    forall i | 0 <= i < |s.sent| ensures s.sent[i] != t.serial {
      assert w[i] < w[|s.sent| + j];
    }
  }

  lemma {:induction false} UnsentHas(ts: seq<Ticket>, t: Ticket)
    requires t in ts && t.handle.state == Ready
    ensures t.serial in Unsent(ts)
    decreases |ts|
  {
    if t == ts[|ts| - 1] {
    } else {
      UnsentHas(ts[..|ts| - 1], t);
    }
  }

  lemma StoreAccounted(s: State, r: InboundResponse)
    requires Accounted(s)
    ensures Accounted(Next(s, Store(r)))
  {
    var s' := Next(s, Store(r));
    assert s'.responses.Keys == s.responses.Keys + {r.id};
    assert multiset(s'.responses.Keys) <= multiset(s.responses.Keys) + multiset{r.id};
    assert multiset(s'.stored) == multiset(s.stored) + multiset{r.id};
  }

  lemma EraseAccounted(s: State)
    requires Linearized(s) && s.phase.Erasing? && Accounted(s)
    ensures Accounted(Advance(s))
  {
    var s' := Advance(s);
    var id := s.phase.held.handle.message.body.id;
    assert s'.responses.Keys == s.responses.Keys - {id};
    assert multiset(s.responses.Keys) == multiset(s'.responses.Keys) + multiset{id};
    assert multiset(s'.consumed) == multiset(s.consumed) + multiset{id};
  }

  lemma AccountedNext(s: State, e: Event)
    requires Linearized(s) && Accounted(s) && Enabled(s, e)
    ensures Accounted(Next(s, e))
  {
    if e.Store? {
      StoreAccounted(s, e.response);
    } else if e == ThreadStep && s.phase.Erasing? {
      EraseAccounted(s);
    }
  }

  lemma InvariantNext(s: State, e: Event)
    requires Invariant(s) && Enabled(s, e)
    ensures Invariant(Next(s, e))
  {
    LinearizedNext(s, e);
    FaithfulNext(s, e);
    OrderedNext(s, e);
    ConservedNext(s, e);
    FatesNext(s, e);
    AccountedNext(s, e);
  }

  // ---------- Every run ----------

  lemma InitInvariant()
    ensures Invariant(INIT)
  {
    assert Line(INIT) == [];
    assert Serials([]) == [];
  }

  lemma {:induction false} InvariantAlways(es: seq<Event>, k: nat)
    requires Legal(es) && k <= |es|
    ensures Invariant(After(es, k))
  {
    hide Next, Invariant;
    if k == 0 {
      InitInvariant();
    } else {
      InvariantAlways(es, k - 1);
      InvariantNext(After(es, k - 1), es[k - 1]);
    }
  }
}
