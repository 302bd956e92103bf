/** What becomes of responses, in every run of the outbound side: a stored response stays until a request
    uses it up, and a request whose response is there is retired at its next visit. */
module OutboundAnswers {
  import opened Prelude
  import opened Messages
  import opened OutboundHandles
  import opened OutboundProtocol
  import opened OutboundInvariants
  import opened OutboundTheorems
  import opened OutboundProgress
  import opened OutboundDispatch

  // ---------- The history is what happened ----------

  function PushesIn(es: seq<Event>, k: nat): seq<Message>
    requires k <= |es|
  {
    if k == 0 then [] else PushesIn(es, k - 1) + (if es[k - 1].Push? then [es[k - 1].message] else [])
  }

  function StoresIn(es: seq<Event>, k: nat): seq<uint32>
    requires k <= |es|
  {
    if k == 0 then [] else StoresIn(es, k - 1) + (if es[k - 1].Store? then [es[k - 1].response.id] else [])
  }

  /** Whether the last that was heard of the connection is that it is up. */
  function UpIn(es: seq<Event>, k: nat): bool
    requires k <= |es|
  {
    if k == 0 then false
    else if es[k - 1] == Connect then true
    else if es[k - 1] == Disconnect then false
    else UpIn(es, k - 1)
  }

  lemma ConnectedNext(s: State, e: Event)
    ensures Next(s, e).connected == (if e == Connect then true else if e == Disconnect then false else s.connected)
  {
    hide Decide;
  }

  lemma StoredNext(s: State, e: Event)
    ensures Next(s, e).stored == if e.Store? then s.stored + [e.response.id] else s.stored
  {
    hide Decide;
  }

  /** The logs of pushes and stored responses hold exactly those that happened, in order, and the connection is
      what it was last said to be. */
  lemma {:induction false} HistoryIsTrue(es: seq<Event>, k: nat)
    requires k <= |es|
    ensures After(es, k).pushed == PushesIn(es, k)
    ensures After(es, k).stored == StoresIn(es, k)
    ensures After(es, k).connected == UpIn(es, k)
  {
    hide Next;
    if k == 0 {
    } else {
      ConnectedNext(After(es, k - 1), es[k - 1]);
      HistoryIsTrue(es, k - 1);
      PushedNext(After(es, k - 1), es[k - 1]);
      StoredNext(After(es, k - 1), es[k - 1]);
    }
  }

  // ---------- Responses stay until they are used up ----------

  /** What a step does to the responses: storing adds one, erasing takes the held request's, and nothing
      else touches them. */
  lemma ResponsesNext(s: State, e: Event)
    requires Linearized(s)
    ensures
      var s' := Next(s, e);
      if e.Store? then s'.responses == s.responses[e.response.id := e.response] && s'.consumed == s.consumed
      else if e == ThreadStep && s.phase.Erasing? then
        var id := s.phase.held.handle.message.body.id;
        s'.responses == s.responses - {id} && s'.consumed == s.consumed + [id]
      else s'.responses == s.responses && s'.consumed == s.consumed
  {
    hide Decide;
  }

  lemma StaysOrUsed(s: State, e: Event, id: uint32)
    requires Linearized(s)
    ensures s.consumed <= Next(s, e).consumed
    ensures id in s.responses ==> id in Next(s, e).responses || Next(s, e).consumed == s.consumed + [id]
    ensures id in Next(s, e).stored ==> id in s.stored || id in Next(s, e).responses
  {
    hide Next, Linearized;
    ResponsesNext(s, e);
    StoredNext(s, e);
  }

  lemma NothingAtFirst(es: seq<Event>)
    ensures After(es, 0).stored == []
  {
  }

  /** A response that was stored is still there, or some request has used one with its id up. */
  lemma {:induction false} StoredUntilUsed(es: seq<Event>, k: nat, id: uint32)
    requires Legal(es) && k <= |es| && id in After(es, k).stored
    ensures id in After(es, k).responses || id in After(es, k).consumed
  {
    hide Next, After, Enabled, Linearized, AllFaithful, Legal;
    if k == 0 {
      NothingAtFirst(es);
    } else {
      AfterStep(es, k - 1);
      BasicAlways(es, k - 1);
      StaysOrUsed(After(es, k - 1), es[k - 1], id);
      if id in After(es, k - 1).stored {
        StoredUntilUsed(es, k - 1, id);
      }
    }
  }

  /** A response stays until a request with its id is retired. */
  lemma {:induction false} ResponseStays(es: seq<Event>, j: nat, k: nat, id: uint32)
    requires Legal(es) && j <= k <= |es| && id in After(es, j).responses
    ensures |After(es, j).consumed| <= |After(es, k).consumed|
    ensures id in After(es, k).responses || id in After(es, k).consumed[|After(es, j).consumed|..]
    decreases k
  {
    hide Next, After, Enabled, Linearized, AllFaithful, Legal;
    if j == k {
    } else {
      ResponseStays(es, j, k - 1, id);
      AfterStep(es, k - 1);
      BasicAlways(es, k - 1);
      StaysOrUsed(After(es, k - 1), es[k - 1], id);
      UsedStays(After(es, k - 1).consumed, After(es, k).consumed, |After(es, j).consumed|, id);
    }
  }

  lemma UsedStays(used: seq<uint32>, used': seq<uint32>, n: nat, id: uint32)
    requires n <= |used| && used <= used'
    ensures id in used[n..] ==> id in used'[n..]
    ensures used' == used + [id] ==> id in used'[n..]
  {
    assert used'[n..] == used[n..] + used'[|used|..];
    if used' == used + [id] {
      assert used'[|used|..] == [id];
    }
  }

  // ---------- An answered request is retired ----------

  /** Nobody but push i is a request with this id. */
  ghost predicate OnlyRequest(s: State, i: nat, id: uint32) {
    forall n :: 0 <= n < |s.pushed| && n != i && s.pushed[n].body.Request? ==> s.pushed[n].body.id != id
  }

  lemma OnlyRequestBefore(es: seq<Event>, k: nat, i: nat, id: uint32)
    requires k < |es| && OnlyRequest(After(es, k + 1), i, id)
    ensures OnlyRequest(After(es, k), i, id)
  {
    AfterStep(es, k);
    hide After, Next;
    PushedNext(After(es, k), es[k]);
    var ms, ms' := After(es, k).pushed, After(es, k + 1).pushed;
    assert forall n :: 0 <= n < |ms| ==> ms'[n] == ms[n];
  }

  /** While another handle is dealt with, the response of request i stays. */
  lemma OthersLeaveIt(s: State, e: Event, i: nat, id: uint32)
    requires Linearized(s) && AllFaithful(s) && OnlyRequest(s, i, id) && id in s.responses
    requires e == ThreadStep && s.phase.Erasing? ==> s.phase.held.serial != i
    ensures id in Next(s, e).responses
  {
    HeldIsFaithful(s);
    hide Next;
    ResponsesNext(s, e);
    if e == ThreadStep && s.phase.Erasing? {
      assert Faithful(s.phase.held, s);
    }
  }

  /** The thread has request i in hand, and its response is there. */
  ghost predicate AboutToRetire(s: State, i: nat, id: uint32) {
    && (s.phase.Deciding? || s.phase.Erasing?) && s.phase.held.serial == i
    && s.phase.held.handle.message.body.Request? && s.phase.held.handle.message.body.id == id && id in s.responses
  }

  lemma RetiresNext(s: State, e: Event, i: nat, id: uint32)
    requires Linearized(s) && Enabled(s, e) && AboutToRetire(s, i, id)
    ensures
      var s' := Next(s, e);
      && s'.pops == s.pops
      && (AboutToRetire(s', i, id) || (i in s'.retired && s'.responses == s.responses - {id} && e == ThreadStep))
  {
  }

  lemma RetiredStays(s: State, e: Event, i: nat)
    requires i in s.retired
    ensures i in Next(s, e).retired
  {
    hide Decide;
  }

  /** Two places are never the same message: what is queued is not in hand. */
  lemma QueuedIsNotHeld(s: State, q: nat)
    requires Conserved(s) && q < |s.queue| && s.queue[q].serial < |s.pushed|
    ensures Held(s) != [] ==> Held(s)[0].serial != s.queue[q].serial
  {
    var i := s.queue[q].serial;
    BelowCounts(|s.pushed|, i);
    WhereaboutsSplit(s);
    assert Whereabouts(s)[i] == 1;
    hide Conserved, Whereabouts, Below;
    SerialCounts(s.queue, q);
    if Held(s) != [] {
      SerialCounts(Held(s), 0);
    }
  }

  lemma SerialCounts(ts: seq<Ticket>, q: nat)
    requires q < |ts|
    ensures multiset(Serials(ts))[ts[q].serial] >= 1
  {
    assert Serials(ts)[q] == ts[q].serial;
    assert ts[q].serial in multiset(Serials(ts));
  }

  ghost predicate OnItsWay(s: State, t: Ticket, q: nat, id: uint32) {
    q < |s.queue| && s.queue[q] == t && id in s.responses
  }

  /** One step, while request t with its response there is at position q of the queue. */
  lemma OnItsWayNext(s: State, e: Event, t: Ticket, q: nat, id: uint32)
    requires Invariant(s) && Linearized(s) && AllFaithful(s) && Enabled(s, e) && OnItsWay(s, t, q, id)
    requires t.handle.message.body.Request? && t.handle.message.body.id == id && OnlyRequest(s, t.serial, id)
    ensures
      var s' := Next(s, e);
      if s'.pops == s.pops then OnItsWay(s', t, q, id)
      else s'.pops == s.pops + 1 && if q == 0 then AboutToRetire(s', t.serial, id) else OnItsWay(s', t, q - 1, id)
  {
    ConservedPart(s);
    HeldIsFaithful(s);
    assert Faithful(s.queue[q], s);
    QueuedIsNotHeld(s, q);
    hide Next, Invariant, Conserved;
    OthersLeaveIt(s, e, t.serial, id);
    QueueMoves(s, e);
  }

  lemma ConservedPart(s: State)
    requires Invariant(s)
    ensures Conserved(s)
  {
  }

  /** No response with this id is stored from event j on, before k. */
  ghost predicate NotStoredAgain(es: seq<Event>, j: nat, k: nat, id: uint32)
    requires k <= |es|
  {
    forall n :: j <= n < k && es[n].Store? ==> es[n].response.id != id
  }

  ghost predicate Retiring(s: State, t: Ticket, q: nat, taken: int, id: uint32, once: bool) {
    if taken <= q then taken >= 0 && OnItsWay(s, t, q - taken, id)
    else
      || (t.serial in s.retired && (once ==> id !in s.responses))
      || (taken == q + 1 && AboutToRetire(s, t.serial, id))
  }

  lemma {:induction false} RetiringAlong(es: seq<Event>, j: nat, k: nat, q: nat)
    requires Legal(es) && j <= k <= |es| && q < |After(es, j).queue|
    requires
      var t := After(es, j).queue[q];
      && t.handle.message.body.Request? && t.handle.message.body.id in After(es, j).responses
      && OnlyRequest(After(es, k), t.serial, t.handle.message.body.id)
    ensures
      var t := After(es, j).queue[q];
      Retiring(After(es, k), t, q, After(es, k).pops - After(es, j).pops, t.handle.message.body.id,
               NotStoredAgain(es, j, k, t.handle.message.body.id))
    decreases k
  {
    hide Next, After, Enabled, Linearized, AllFaithful, Invariant, OnlyRequest;
    var t := After(es, j).queue[q];
    var id := t.handle.message.body.id;
    if j == k {
    } else {
      AfterStep(es, k - 1);
      OnlyRequestBefore(es, k - 1, t.serial, id);
      RetiringAlong(es, j, k - 1, q);
      InvariantAlways(es, k - 1);
      BasicAlways(es, k - 1);
      var once := NotStoredAgain(es, j, k, id);
      assert once ==> NotStoredAgain(es, j, k - 1, id);
      RetiringNext(After(es, k - 1), es[k - 1], t, q, After(es, k - 1).pops - After(es, j).pops, id,
                   NotStoredAgain(es, j, k - 1, id), once);
    }
  }

  lemma RetiringNext(s: State, e: Event, t: Ticket, q: nat, taken: int, id: uint32, once: bool, once': bool)
    requires Invariant(s) && Linearized(s) && AllFaithful(s) && Enabled(s, e) && Retiring(s, t, q, taken, id, once)
    requires t.handle.message.body.Request? && t.handle.message.body.id == id && OnlyRequest(s, t.serial, id)
    requires once' ==> once && !(e.Store? && e.response.id == id)
    ensures Retiring(Next(s, e), t, q, taken + Next(s, e).pops - s.pops, id, once')
  {
    hide Next, Enabled, Linearized, AllFaithful, Invariant, OnlyRequest, AboutToRetire, OnItsWay;
    PopsGrow(s, e);
    if taken <= q {
      OnItsWayNext(s, e, t, q - taken, id);
    } else if t.serial in s.retired && (once ==> id !in s.responses) {
      RetiredStays(s, e, t.serial);
      ResponsesNext(s, e);
    } else {
      RetiresNext(s, e, t.serial, id);
    }
  }

  /** An answered request goes. If the response of a request at position q of the queue is there, and no other
      request with its id is pushed, then once the thread is through with q + 1 handles the request has
      been retired, has not timed out, and never will; and it used that response up. */
  lemma AnsweredIsRetired(es: seq<Event>, j: nat, k: nat, q: nat)
    requires Legal(es) && j <= k <= |es| && q < |After(es, j).queue|
    requires
      var t := After(es, j).queue[q];
      && t.handle.message.body.Request? && t.handle.message.body.id in After(es, j).responses
      && OnlyRequest(After(es, k), t.serial, t.handle.message.body.id)
    requires Finished(es, j, k) >= q + 1
    ensures
      var i := After(es, j).queue[q].serial;
      && i in After(es, k).retired && i !in After(es, k).expired
      && i !in Serials(Line(After(es, k)))
      && After(es, j).queue[q].handle.message.body.id in After(es, k).consumed
      && (NotStoredAgain(es, j, k, After(es, j).queue[q].handle.message.body.id) ==>
           After(es, j).queue[q].handle.message.body.id !in After(es, k).responses)
  {
    hide After, Linearized, AboutToRetire, NotStoredAgain;
    var t := After(es, j).queue[q];
    RetiringAlong(es, j, k, q);
    RetiringIsUndecided(After(es, k), t.serial, t.handle.message.body.id);
    RetiredUsedOne(es, j, k, q);
    ExactlyOnePlace(es, k, t.serial);
    assert Count(t.serial, After(es, k).retired) >= 1;
  }

  lemma RetiredUsedOne(es: seq<Event>, j: nat, k: nat, q: nat)
    requires Legal(es) && j <= k <= |es| && q < |After(es, j).queue|
    requires After(es, j).queue[q].serial in After(es, k).retired
    ensures After(es, j).queue[q].handle.message.body.Request?
    ensures After(es, j).queue[q].handle.message.body.id in After(es, k).consumed
  {
    hide After;
    QueuedIsPushed(es, j, q);
    SendableStays(es, j, k, After(es, j).queue[q].serial);
    ResponsesPayForRetirements(es, k, 0);
    var s := After(es, k);
    var n :| 0 <= n < |s.retired| && s.retired[n] == After(es, j).queue[q].serial;
    assert s.consumed[n] in s.consumed;
  }

  lemma RetiringIsUndecided(s: State, i: nat, id: uint32)
    ensures AboutToRetire(s, i, id) ==> Undecided(s)
  {
  }

  // ---------- What is lost ----------

  lemma LostNext(s: State, e: Event)
    requires Linearized(s)
    ensures
      var s' := Next(s, e);
      if e == ThreadStep && s.phase.Sending? then
        && s'.sent == s.sent + [s.phase.held.serial]
        && s'.lost == (if s.connected then s.lost else s.lost + {s.phase.held.serial})
      else s'.sent == s.sent && s'.lost == s.lost
  {
    hide Decide;
  }

  lemma SentOnce(s: State, s': State, i: nat)
    requires InPushOrder(SendOrder(s'), |s'.pushed|) && s.sent <= s'.sent && i in s.sent
    ensures s'.sent != s.sent + [i]
  {
    var n :| 0 <= n < |s.sent| && s.sent[n] == i;
    var w := SendOrder(s');
    if |s'.sent| > |s.sent| {
      assert w[n] == s'.sent[n] == i && w[|s.sent|] == s'.sent[|s.sent|];
      assert w[n] < w[|s.sent|];
      assert (s.sent + [i])[|s.sent|] == i;
    }
  }

  lemma {:induction false} LostWasSent(es: seq<Event>, k: nat)
    requires Legal(es) && k <= |es|
    ensures forall i <- After(es, k).lost :: i in After(es, k).sent
  {
    hide Next, After, Enabled, Linearized, AllFaithful, Legal;
    if k == 0 {
      NothingLostAtFirst(es);
    } else {
      LostWasSent(es, k - 1);
      AfterStep(es, k - 1);
      BasicAlways(es, k - 1);
      LostNext(After(es, k - 1), es[k - 1]);
    }
  }

  lemma NothingLostAtFirst(es: seq<Event>)
    ensures After(es, 0).lost == {}
  {
  }

  lemma SendingIsUnsent(s: State)
    requires Invariant(s) && s.phase.Sending?
    ensures s.phase.held.serial !in s.sent
  {
    hide Conserved, FatesMeanIt, Accounted;
    assert s.phase.held in Line(s);
    ReadyMeansUnsent(s, s.phase.held);
  }

  /** A message serialized is lost exactly when the connection is down at that moment. */
  lemma {:induction false} LostExactlyWhenDown(es: seq<Event>, j: nat, k: nat)
    requires Legal(es) && j < k <= |es| && es[j] == ThreadStep && After(es, j).phase.Sending?
    ensures After(es, j).phase.held.serial in After(es, k).sent
    ensures After(es, j).phase.held.serial in After(es, k).lost <==> !After(es, j).connected
    decreases k
  {
    hide Next, After, Enabled, Linearized, AllFaithful, Legal, Invariant;
    var i := After(es, j).phase.held.serial;
    AfterStep(es, k - 1);
    InvariantAlways(es, k);
    InvariantAlways(es, k - 1);
    BasicAlways(es, k - 1);
    LostNext(After(es, k - 1), es[k - 1]);
    if j == k - 1 {
      LostWasSent(es, j);
      SendingIsUnsent(After(es, j));
    } else {
      LostExactlyWhenDown(es, j, k - 1);
      OrderedPart(After(es, k));
      if es[k - 1] == ThreadStep && After(es, k - 1).phase.Sending? && After(es, k - 1).phase.held.serial == i {
        SentOnce(After(es, k - 1), After(es, k), i);
      }
    }
  }

  lemma OrderedPart(s: State)
    requires Invariant(s)
    ensures InPushOrder(SendOrder(s), |s.pushed|)
  {
  }
}
