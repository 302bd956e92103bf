/** What holds of every run of the outbound side, in the terms of someone who pushed a message. */
module OutboundTheorems {
  import opened Prelude
  import opened Messages
  import opened OutboundHandles
  import opened OutboundProtocol
  import opened OutboundInvariants

  /** The messages serialized by the outbound thread, in order. */
  function Wire(s: State): seq<Message>
    requires forall i <- s.sent :: i < |s.pushed|
  {
    seq(|s.sent|, k requires 0 <= k < |s.sent| => assert s.sent[k] in s.sent; s.pushed[s.sent[k]])
  }

  /** The wire is an in-order subsequence of the pushes: no push is serialized twice, and none
      overtakes another, however requests cycle through the queue and whoever pushes meanwhile, and
      across any number of disconnections and restarts. */
  lemma WireFollowsPushOrder(es: seq<Event>, k: nat)
    requires Legal(es) && k <= |es|
    ensures forall i <- After(es, k).sent :: i < |After(es, k).pushed|
    ensures OccursAt(Wire(After(es, k)), After(es, k).pushed, After(es, k).sent)
  {
    hide After;
    InvariantAlways(es, k);
    SentInOrder(After(es, k));
    WireOccurs(After(es, k));
  }

  lemma WireOccurs(s: State)
    requires StrictlyIncreasing(s.sent) && forall i <- s.sent :: i < |s.pushed|
    ensures OccursAt(Wire(s), s.pushed, s.sent)
  {
    forall n | 0 <= n < |s.sent| ensures s.sent[n] < |s.pushed| && s.pushed[s.sent[n]] == Wire(s)[n] {
      assert s.sent[n] in s.sent;
    }
  }

  lemma SentInOrder(s: State)
    requires Ordered(s)
    ensures StrictlyIncreasing(s.sent) && forall i <- s.sent :: i < |s.pushed|
  {
    var w := SendOrder(s);
    forall i, j | 0 <= i < j < |s.sent| ensures s.sent[i] < s.sent[j] {
      assert w[i] == s.sent[i] && w[j] == s.sent[j];
    }
    forall i | 0 <= i < |s.sent| ensures s.sent[i] < |s.pushed| {
      assert w[i] == s.sent[i];
    }
  }

  /** How many times serial i is found in each place a message can be. */
  ghost function Count(i: nat, where: seq<nat>): nat {
    multiset(where)[i]
  }

  /** Every push is in exactly one place, exactly once: waiting or held, answered, timed out, sent as a
      greeting, or refused. */
  lemma ExactlyOnePlace(es: seq<Event>, k: nat, i: nat)
    requires Legal(es) && k <= |es|
    ensures
      var s := After(es, k);
      Count(i, Serials(Line(s))) + Count(i, s.retired) + Count(i, s.expired) + Count(i, s.greeted) + Count(i, s.discarded)
      == if i < |s.pushed| then 1 else 0
  {
    InvariantAlways(es, k);
    var s := After(es, k);
    BelowCounts(|s.pushed|, i);
    assert Whereabouts(s)[i] == Below(|s.pushed|)[i];
  }

  /** What each final place says about the message. Only requests time out, and only after they were
      sent; only what is neither a request nor a greeting is refused, and it is never sent. */
  lemma FatesAreDeserved(es: seq<Event>, k: nat, i: nat)
    requires Legal(es) && k <= |es| && i < |After(es, k).pushed|
    ensures
      var s := After(es, k);
      && (i in s.expired ==> i in s.sent && s.pushed[i].body.Request?)
      && (i in s.greeted ==> i in s.sent && s.pushed[i].body.Greeting?)
      && (i in s.discarded <==> !s.pushed[i].body.Request? && !s.pushed[i].body.Greeting? && i !in Serials(Line(s)))
      && (i in s.retired ==> s.pushed[i].body.Request? && s.pushed[i].body.id in s.stored)
  {
    InvariantAlways(es, k);
    ExactlyOnePlace(es, k, i);
    var s := After(es, k);
    if i in s.retired {
      var n :| 0 <= n < |s.retired| && s.retired[n] == i;
      assert s.consumed[n] in multiset(s.consumed);
      assert multiset(s.consumed)[s.consumed[n]] <= multiset(s.stored)[s.consumed[n]];
    }
    if i in Serials(Line(s)) {
      assert Count(i, Serials(Line(s))) >= 1;
    }
    if i in s.discarded {
      assert Count(i, s.discarded) >= 1;
    }
    assert i in s.retired || i in s.expired || i in s.greeted || i in s.discarded || i in Serials(Line(s));
  }

  /** Each request dropped as answered used up one response that was stored under its id, and no
      response is used up twice: for every id, the retirements plus the response still stored are at
      most the responses that were stored. */
  lemma ResponsesPayForRetirements(es: seq<Event>, k: nat, id: uint32)
    requires Legal(es) && k <= |es|
    ensures
      var s := After(es, k);
      && |s.consumed| == |s.retired|
      && (forall n :: 0 <= n < |s.retired| ==>
           s.retired[n] < |s.pushed| && s.pushed[s.retired[n]].body.Request? && s.pushed[s.retired[n]].body.id == s.consumed[n])
      && multiset(s.consumed)[id] + (if id in s.responses then 1 else 0) <= multiset(s.stored)[id]
      && |s.retired| + |s.responses| <= |s.stored|
  {
    InvariantAlways(es, k);
    var s := After(es, k);
    var stored: multiset<uint32> := multiset(s.stored);
    var used: multiset<uint32> := multiset(s.consumed) + multiset(s.responses.Keys);
    assert used[id] <= stored[id];
    assert stored == used + (stored - used);
    assert |stored| == |used| + |stored - used|;
    assert |used| == |multiset(s.consumed)| + |multiset(s.responses.Keys)|;
    assert |multiset(s.responses.Keys)| == |s.responses.Keys| == |s.responses|;
  }

  /** No response with this id has been stored, or push i has been serialized. */
  ghost predicate NotAnsweredEarly(s: State, i: nat, id: uint32) {
    id in s.stored ==> i in s.sent
  }

  ghost predicate RequestAt(s: State, i: nat, id: uint32) {
    i < |s.pushed| && s.pushed[i].body.Request? && s.pushed[i].body.id == id
  }

  /** If no response came early, a step does not drop request i unsent. */
  lemma RetiredOnceSentNext(s: State, e: Event, i: nat, id: uint32)
    requires Invariant(s) && Enabled(s, e) && NotAnsweredEarly(s, i, id)
    requires i in s.retired ==> i in s.sent
    requires i < |Next(s, e).pushed| ==> RequestAt(Next(s, e), i, id)
    ensures i in Next(s, e).retired ==> i in Next(s, e).sent
  {
    LogsGrow(s, e);
    if e == ThreadStep && s.phase.Erasing? {
      HeldIsFaithful(s);
      assert Faithful(s.phase.held, s);
      StoredIfPresent(s, s.phase.held.handle.message.body.id);
    } else if e == ThreadStep && s.phase.Deciding? {
      SettleEffect(s);
    }
  }

  lemma StoredIfPresent(s: State, id: uint32)
    requires Accounted(s) && id in s.responses
    ensures id in s.stored
  {
    var used: multiset<uint32> := multiset(s.consumed) + multiset(s.responses.Keys);
    assert multiset(s.responses.Keys)[id] == 1;
    assert used[id] <= multiset(s.stored)[id];
  }

  /** A request is never dropped unsent unless a response with its id was stored too early. */
  lemma {:induction false} RetiredOnceSent(es: seq<Event>, k: nat, i: nat, id: uint32)
    requires Legal(es) && k <= |es|
    requires forall j :: 0 <= j < k ==> NotAnsweredEarly(After(es, j), i, id)
    requires i < |After(es, k).pushed| ==> RequestAt(After(es, k), i, id)
    ensures i in After(es, k).retired ==> i in After(es, k).sent
  {
    hide Next, Invariant, NotAnsweredEarly;
    if k > 0 {
      InvariantAlways(es, k - 1);
      PushedNext(After(es, k - 1), es[k - 1]);
      RetiredOnceSent(es, k - 1, i, id);
      RetiredOnceSentNext(After(es, k - 1), es[k - 1], i, id);
    } else {
      assert After(es, k) == INIT;
    }
  }

  /** A request that no longer waits to be sent, and was not dropped unsent, was sent. */
  lemma NoLongerWaiting(s: State, i: nat)
    requires Invariant(s) && i < |s.pushed| && s.pushed[i].body.Request?
    requires i in s.retired ==> i in s.sent
    requires i !in Unsent(Line(s))
    ensures i in s.sent
  {
    PlaceOf(s, i);
    if i in Serials(Line(s)) {
      var n :| 0 <= n < |Line(s)| && Line(s)[n].serial == i;
      assert Faithful(Line(s)[n], s);
      if Line(s)[n].handle.state == Ready {
        UnsentHas(Line(s), Line(s)[n]);
      }
    }
  }

  lemma PlaceOf(s: State, i: nat)
    requires Conserved(s) && i < |s.pushed|
    ensures i in Serials(Line(s)) || i in s.retired || i in s.expired || i in s.greeted || i in s.discarded
  {
    BelowCounts(|s.pushed|, i);
    assert Whereabouts(s)[i] == 1;
  }

  /** In every run: a pushed request that is no longer waiting was serialized, unless a response with its
      id had been stored before. */
  lemma GoneMeansSent(es: seq<Event>, k: nat, i: nat)
    requires Legal(es) && k <= |es| && i < |After(es, k).pushed| && After(es, k).pushed[i].body.Request?
    requires forall j :: 0 <= j < k ==> NotAnsweredEarly(After(es, j), i, After(es, k).pushed[i].body.id)
    requires i !in Unsent(Line(After(es, k)))
    ensures i in After(es, k).sent
  {
    hide Invariant, Next, After, NotAnsweredEarly;
    InvariantAlways(es, k);
    RetiredOnceSent(es, k, i, After(es, k).pushed[i].body.id);
    NoLongerWaiting(After(es, k), i);
  }

  // ---------- The three queue calls act as one ----------

  /** The same state, seen by someone for whom "is there a message? copy it; pop it" is one action. */
  function Atomic(s: State): State {
    match s.phase
    case Testing => s.(phase := Polling)
    case Peeking => s.(phase := Polling)
    case Popping(_) => s.(phase := Polling)
    case _ => s
  }

  /** One atomic action of the outbound thread on the queue: take the first message. */
  ghost predicate TakesFirst(a: State, a': State) {
    && a.phase == Polling && a.queue != []
    && a' == a.(phase := Deciding(a.queue[0]), queue := a.queue[1..], pops := a.pops + 1)
  }

  lemma QuietThreadStep(s: State)
    requires Linearized(s) && Held(s) == []
    ensures
      var a, a' := Atomic(s), Atomic(Advance(s));
      if s.phase.Popping? then TakesFirst(a, a')
      else if s.phase.Testing? || s.phase.Peeking? then a' == a
      else if s.phase.Polling? then a' == if s.connected then a else a.(phase := Stopped)
      else a' == a
  {
  }

  lemma BusyThreadStep(s: State)
    requires Linearized(s) && Held(s) != []
    ensures Atomic(s) == s && Atomic(Advance(s)) == Advance(s)
  {
  }

  lemma OthersStep(s: State, e: Event)
    requires Enabled(s, e) && e != ThreadStep
    ensures Atomic(Next(s, e)) == Next(Atomic(s), e)
  {
  }

  /** `empty`, `front` and `pop` are three locked calls between which anyone may push. In every run they
      amount to one atomic take, at the moment of the pop: every other step of the three is invisible,
      and every step of anyone else is the same step for the atomic observer. */
  lemma QueueCallsLinearize(es: seq<Event>, k: nat, e: Event)
    requires Legal(es) && k <= |es| && Enabled(After(es, k), e)
    ensures
      var s := After(es, k);
      var a, a' := Atomic(s), Atomic(Next(s, e));
      if e == ThreadStep && s.phase.Popping? then TakesFirst(a, a')
      else if e == ThreadStep && (s.phase.Testing? || s.phase.Peeking?) then a' == a
      else if e == ThreadStep && s.phase.Polling? then a' == if s.connected then a else a.(phase := Stopped)
      else a' == Next(a, e)
  {
    InvariantAlways(es, k);
    var s := After(es, k);
    if e != ThreadStep {
      OthersStep(s, e);
    } else if Held(s) == [] {
      QuietThreadStep(s);
    } else {
      BusyThreadStep(s);
    }
  }

  // ---------- An iteration that nothing interrupts ----------

  function Steps(s: State, n: nat): State {
    if n == 0 then s else Advance(Steps(s, n - 1))
  }

  function Handles(ts: seq<Ticket>): seq<Handle> {
    seq(|ts|, i requires 0 <= i < |ts| => ts[i].handle)
  }

  ghost function OutboxOf(s: State): Outbox
    requires forall i <- s.sent :: i < |s.pushed|
  {
    Outbox(Handles(s.queue), s.responses, Wire(s))
  }

  lemma FourStepsToDeciding(s: State)
    requires s.phase == Polling && s.connected && s.queue != []
    ensures Steps(s, 4) == s.(phase := Deciding(s.queue[0]), queue := s.queue[1..], pops := s.pops + 1)
  {
    assert Steps(s, 1) == s.(phase := Testing);
    assert Steps(s, 2) == s.(phase := Peeking);
    assert Steps(s, 3) == s.(phase := Popping(s.queue[0]));
  }

  /** What the outbox becomes when the handle t, just popped, is dealt with. */
  function Dealt(o: Outbox, h: Handle): Outbox {
    Iterate(o.(queue := [h] + o.queue))
  }

  ghost predicate EndsIteration(d: State, s': State, t: Ticket)
    requires forall i <- d.sent :: i < |d.pushed|
  {
    && s'.phase == Polling && s'.pops == d.pops
    && (forall i <- s'.sent :: i < |s'.pushed|)
    && OutboxOf(s') == Dealt(OutboxOf(d), t.handle)
  }

  lemma DealtInPlace(d: State, t: Ticket)
    requires d.phase == Deciding(t) && Linearized(d) && Faithful(t, d)
    requires forall i <- d.sent :: i < |d.pushed|
    requires !Decide(t.handle, d.responses).Transmit? && !Decide(t.handle, d.responses).Keep?
    ensures exists n :: 0 < n <= 3 && EndsIteration(d, Steps(d, n), t)
  {
    assert ([t.handle] + Handles(d.queue))[1..] == Handles(d.queue);
    assert Steps(d, 1) == Advance(d);
    assert Steps(d, 2) == Advance(Advance(d));
    match Decide(t.handle, d.responses)
    case Retire => assert EndsIteration(d, Steps(d, 2), t);
    case TransmitOnce =>
      assert Wire(Steps(d, 2)) == Wire(d) + [t.handle.message];
      assert EndsIteration(d, Steps(d, 2), t);
    case Expire => assert EndsIteration(d, Steps(d, 1), t);
    case Discard => assert EndsIteration(d, Steps(d, 1), t);
  }

  lemma {:induction false} DealtByRequeuing(d: State, t: Ticket)
    requires d.phase == Deciding(t) && Linearized(d) && Faithful(t, d)
    requires forall i <- d.sent :: i < |d.pushed|
    requires Decide(t.handle, d.responses).Transmit? || Decide(t.handle, d.responses).Keep?
    ensures exists n :: 0 < n <= 3 && EndsIteration(d, Steps(d, n), t)
  {
    assert ([t.handle] + Handles(d.queue))[1..] == Handles(d.queue);
    assert Steps(d, 1) == Advance(d);
    assert Steps(d, 2) == Advance(Advance(d));
    var s' := if Decide(t.handle, d.responses).Transmit? then Steps(d, 3) else Steps(d, 2);
    var t' := s'.queue[|d.queue|];
    assert s'.queue == d.queue + [t'];
    assert Handles(s'.queue) == Handles(d.queue) + [t'.handle];
    if Decide(t.handle, d.responses).Transmit? {
      assert Wire(s') == Wire(d) + [t.handle.message];
      assert EndsIteration(d, Steps(d, 3), t);
    } else {
      assert EndsIteration(d, Steps(d, 2), t);
    }
  }

  lemma {:induction false} StepsCompose(s: State, a: nat, b: nat)
    ensures Steps(Steps(s, a), b) == Steps(s, a + b)
  {
    hide Advance;
    if b == 0 {
    } else {
      StepsCompose(s, a, b - 1);
    }
  }

  lemma DealtWith(d: State, t: Ticket) returns (n: nat)
    requires d.phase == Deciding(t) && Linearized(d) && Faithful(t, d)
    requires forall i <- d.sent :: i < |d.pushed|
    ensures 0 < n <= 3 && EndsIteration(d, Steps(d, n), t)
  {
    if Decide(t.handle, d.responses).Transmit? || Decide(t.handle, d.responses).Keep? {
      DealtByRequeuing(d, t);
    } else {
      DealtInPlace(d, t);
    }
    n :| 0 < n <= 3 && EndsIteration(d, Steps(d, n), t);
  }

  lemma IterationFrom(s: State) returns (n: nat)
    requires s.phase == Polling && s.connected && s.queue != [] && Faithful(s.queue[0], s)
    requires forall i <- s.sent :: i < |s.pushed|
    ensures n <= 7 && Steps(s, n).phase == Polling && Steps(s, n).pops == s.pops + 1
    ensures forall i <- Steps(s, n).sent :: i < |Steps(s, n).pushed|
    ensures OutboxOf(Steps(s, n)) == Iterate(OutboxOf(s))
  {
    hide Advance, Iterate;
    var d := Steps(s, 4);
    FourStepsToDeciding(s);
    assert Faithful(s.queue[0], d);
    var k := DealtWith(d, s.queue[0]);
    StepsCompose(s, 4, k);
    PoppedOutbox(s, d);
    n := 4 + k;
  }

  /** Left alone on a nonempty queue, the thread comes back to its loop test having done exactly one
      `Iterate`. */
  lemma UninterruptedIteration(s: State)
    requires Invariant(s) && s.phase == Polling && s.connected && s.queue != []
    ensures exists n :: n <= 7 && Steps(s, n).phase == Polling && Steps(s, n).pops == s.pops + 1
                        && (forall i <- Steps(s, n).sent :: i < |Steps(s, n).pushed|)
                        && OutboxOf(Steps(s, n)) == Iterate(OutboxOf(s))
  {
    assert s.queue[0] in Line(s);
    var n := IterationFrom(s);
  }

  lemma PoppedOutbox(s: State, d: State)
    requires s.queue != [] && d.queue == s.queue[1..] && d.responses == s.responses && d.sent == s.sent && d.pushed == s.pushed
    requires forall i <- s.sent :: i < |s.pushed|
    ensures Dealt(OutboxOf(d), s.queue[0].handle) == Iterate(OutboxOf(s))
  {
    assert [s.queue[0].handle] + Handles(d.queue) == Handles(s.queue);
    assert Wire(d) == Wire(s);
  }
}
