/** How much work a push can cause, that the queue drains, and how long a push can wait. */
module OutboundProgress {
  import opened Prelude
  import opened Messages
  import opened OutboundHandles
  import opened OutboundProtocol
  import opened OutboundInvariants
  import opened OutboundTheorems

  /** How many times a handle can still be examined. */
  function Weight(h: Handle): int {
    if !h.message.body.Request? then 1
    else if h.state == Ready then DELAY_BEFORE_DROP + 1
    else DELAY_BEFORE_DROP - h.delay
  }

  function TotalWeight(ts: seq<Ticket>): int {
    if ts == [] then 0 else TotalWeight(ts[..|ts| - 1]) + Weight(ts[|ts| - 1].handle)
  }

  lemma {:induction false} TotalWeightConcat(a: seq<Ticket>, b: seq<Ticket>)
    ensures TotalWeight(a + b) == TotalWeight(a) + TotalWeight(b)
    decreases |b|
  {
    if b == [] {
      assert a + b == a;
    } else {
      TotalWeightConcat(a, b[..|b| - 1]);
      assert (a + b)[..|a + b| - 1] == a + b[..|b| - 1];
    }
  }

  lemma TotalWeightOne(t: Ticket)
    ensures TotalWeight([t]) == Weight(t.handle)
  {
    assert [t][..0] == [];
  }

  function Requests(ms: seq<Message>): nat {
    if ms == [] then 0
    else Requests(ms[..|ms| - 1]) + (if ms[|ms| - 1].body.Request? then 1 else 0)
  }

  /** Eleven examinations for a request, one for anything else. */
  function Credit(ms: seq<Message>): int {
    (DELAY_BEFORE_DROP + 1) * Requests(ms) + (|ms| - Requests(ms))
  }

  /** The thread has taken a handle and not yet lowered its weight. */
  predicate Undecided(s: State) {
    s.phase.Deciding? || s.phase.Erasing? || s.phase.Sending?
  }

  function Slack(s: State): int {
    if Undecided(s) then 1 else 0
  }

  lemma LineWeight(s: State)
    ensures TotalWeight(Line(s)) == TotalWeight(Held(s)) + TotalWeight(s.queue)
  {
    TotalWeightConcat(Held(s), s.queue);
  }

  function HeldWeight(s: State): int {
    if Held(s) == [] then 0 else Weight(Held(s)[0].handle)
  }

  lemma LineWeightIs(s: State)
    ensures TotalWeight(Line(s)) == HeldWeight(s) + TotalWeight(s.queue)
  {
    LineWeight(s);
    if Held(s) != [] {
      TotalWeightOne(Held(s)[0]);
      assert Held(s) == [Held(s)[0]];
    }
  }

  /** Once a handle is decided upon it has lost at least one examination, or it is gone. */
  lemma UndecidedWeight(s: State)
    requires Linearized(s) && Undecided(s) && Faithful(s.phase.held, s)
    ensures
      var s' := Advance(s);
      && s'.queue == s.queue && s'.pops == s.pops && s'.pushed == s.pushed && s'.connected == s.connected
      && s'.phase != Stopped
      && HeldWeight(s') == HeldWeight(s) - (if Undecided(s') then 0 else if Held(s') == [] then HeldWeight(s) else 1)
      && HeldWeight(s) >= 1
  {
  }

  lemma RequeuingWeight(s: State)
    requires s.phase.Requeuing?
    ensures
      var s' := Advance(s);
      && TotalWeight(Line(s')) == TotalWeight(Line(s))
      && s'.phase == Polling && s'.pops == s.pops && s'.pushed == s.pushed && s'.connected == s.connected
  {
    LineWeightIs(s);
    LineWeightIs(Advance(s));
    TotalWeightConcat(s.queue, [s.phase.held]);
    TotalWeightOne(s.phase.held);
  }

  /** What one step of the thread does to the weight: nothing until it has decided, and then the handle
      loses at least one. */
  lemma HeldWeightAdvance(s: State)
    requires Linearized(s) && Held(s) != [] && Faithful(s.phase.held, s)
    ensures
      var s' := Advance(s);
      && TotalWeight(Line(s')) - Slack(s') <= TotalWeight(Line(s)) - Slack(s)
      && (Undecided(s) && !Undecided(s') ==> TotalWeight(Line(s')) < TotalWeight(Line(s)))
      && (Undecided(s') ==> TotalWeight(Line(s')) == TotalWeight(Line(s)))
      && s'.pops == s.pops && s'.pushed == s.pushed && s'.connected == s.connected && s'.phase != Stopped
  {
    if s.phase.Requeuing? {
      RequeuingWeight(s);
    } else {
      UndecidedWeight(s);
      LineWeightIs(s);
      LineWeightIs(Advance(s));
    }
  }

  ghost predicate WorkBounded(s: State) {
    s.pops + TotalWeight(Line(s)) <= Credit(s.pushed) + Slack(s)
  }

  lemma CreditSnoc(ms: seq<Message>, m: Message)
    ensures Credit(ms + [m]) == Credit(ms) + Weight(Handle(m, Ready, 0))
  {
    assert (ms + [m])[..|ms|] == ms;
  }

  lemma PushedLine(s: State, m: Message)
    ensures Line(Next(s, Push(m))) == Line(s) + [Ticket(|s.pushed|, Handle(m, Ready, 0))]
    ensures Next(s, Push(m)).pushed == s.pushed + [m]
    ensures Next(s, Push(m)).pops == s.pops && Slack(Next(s, Push(m))) == Slack(s)
  {
    assert Held(Next(s, Push(m))) == Held(s);
  }

  lemma PushWork(s: State, m: Message)
    requires WorkBounded(s)
    ensures WorkBounded(Next(s, Push(m)))
  {
    var t := Ticket(|s.pushed|, Handle(m, Ready, 0));
    PushedLine(s, m);
    TotalWeightConcat(Line(s), [t]);
    TotalWeightOne(t);
    CreditSnoc(s.pushed, m);
    hide Next, Line, Weight, Credit, TotalWeight;
    assert WorkBounded(Next(s, Push(m)));
  }

  lemma WorkBoundedNext(s: State, e: Event)
    requires Invariant(s) && WorkBounded(s) && Enabled(s, e)
    ensures WorkBounded(Next(s, e))
  {
    if e.Push? {
      PushWork(s, e.message);
    } else if e == ThreadStep && Held(s) != [] {
      HeldIsFaithful(s);
      HeldWeightAdvance(s);
    } else {
      QuietStep(s, e);
      QuietWork(s, e);
    }
  }

  lemma QuietWork(s: State, e: Event)
    requires Linearized(s) && Enabled(s, e) && !e.Push? && (e == ThreadStep ==> Held(s) == [])
    ensures Next(s, e).pops - Slack(Next(s, e)) == s.pops - Slack(s)
  {
  }

  lemma InitWork()
    ensures WorkBounded(INIT)
  {
    assert Line(INIT) == [];
  }

  lemma {:induction false} WorkBoundedAlways(es: seq<Event>, k: nat)
    requires Legal(es) && k <= |es|
    ensures WorkBounded(After(es, k))
  {
    hide Next, Invariant, WorkBounded;
    if k == 0 {
      InitWork();
    } else {
      WorkBoundedAlways(es, k - 1);
      InvariantAlways(es, k - 1);
      WorkBoundedNext(After(es, k - 1), es[k - 1]);
    }
  }

  /** Over a whole run, however it interleaves, the outbound thread takes at most eleven handles from the
      queue per request pushed and one per other message. */
  lemma TotalWorkIsBounded(es: seq<Event>, k: nat)
    requires Legal(es) && k <= |es|
    ensures
      var s := After(es, k);
      s.pops <= 11 * Requests(s.pushed) + (|s.pushed| - Requests(s.pushed))
  {
    WorkBoundedAlways(es, k);
    InvariantAlways(es, k);
    LineIsHeavy(After(es, k));
  }

  lemma LineIsHeavy(s: State)
    requires AllFaithful(s)
    ensures TotalWeight(Line(s)) >= |Line(s)|
    ensures Undecided(s) ==> TotalWeight(Line(s)) >= 1
  {
    HeavyEach(Line(s), s);
  }

  lemma {:induction false} HeavyEach(ts: seq<Ticket>, s: State)
    requires forall t <- ts :: Faithful(t, s)
    ensures TotalWeight(ts) >= |ts|
    decreases |ts|
  {
    if ts == [] {
    } else {
      assert ts[|ts| - 1] in ts;
      HeavyEach(ts[..|ts| - 1], s);
    }
  }

  // ---------- Draining ----------

  /** Steps left in the current iteration; an iteration costs at most eight. */
  function Rank(p: Phase): nat {
    match p
    case Requeuing(_) => 8
    case Polling => 7
    case Testing => 6
    case Peeking => 5
    case Popping(_) => 4
    case Deciding(_) => 3
    case _ => 2
  }

  function Distance(s: State): int {
    8 * TotalWeight(Line(s)) + Rank(s.phase)
  }

  ghost predicate Drained(s: State) {
    s.phase == Testing && s.queue == []
  }

  lemma QuietDistance(s: State)
    requires Linearized(s) && Held(s) == [] && s.connected && s.phase != Stopped && !Drained(s)
    ensures Rank(Advance(s).phase) < Rank(s.phase) && Advance(s).phase != Stopped && Advance(s).connected
  {
  }

  lemma RankAfterHeld(s: State)
    requires Linearized(s) && Held(s) != []
    ensures Undecided(s) && Undecided(Advance(s)) ==> Rank(Advance(s).phase) < Rank(s.phase)
    ensures Undecided(s) && !Undecided(Advance(s)) ==> Rank(Advance(s).phase) < Rank(s.phase) + 8
    ensures !Undecided(s) ==> Rank(Advance(s).phase) < Rank(s.phase) && !Undecided(Advance(s))
  {
  }

  lemma DistanceShrinks(s: State)
    requires Linearized(s) && s.connected && s.phase != Stopped && !Drained(s)
    requires AllFaithful(s)
    ensures Distance(Advance(s)) < Distance(s)
    ensures Advance(s).phase != Stopped && Advance(s).connected
  {
    if Held(s) != [] {
      HeldIsFaithful(s);
      HeldWeightAdvance(s);
      RankAfterHeld(s);
    } else {
      QuietStep(s, ThreadStep);
      QuietDistance(s);
    }
  }

  lemma InvariantParts(s: State)
    requires Invariant(s)
    ensures Linearized(s) && AllFaithful(s) && Distance(s) >= 0
  {
    LineIsHeavy(s);
  }

  /** With the connection up and nothing pushed any more, the thread empties the queue in a bounded
      number of steps: everything in the line is sent, answered, timed out or refused. */
  lemma {:induction false} Drains(s: State) returns (n: nat)
    requires Invariant(s) && s.connected && s.phase != Stopped
    ensures n <= Distance(s) && Drained(Steps(s, n))
    decreases Distance(s)
  {
    hide Invariant, Advance, Next, Distance, AllFaithful, Linearized, Drained;
    InvariantParts(s);
    if Drained(s) {
      n := 0;
    } else {
      DistanceShrinks(s);
      StepInvariant(s);
      var k := Drains(Advance(s));
      StepsFromFirst(s, k);
      n := k + 1;
    }
  }

  lemma StepInvariant(s: State)
    requires Invariant(s) && s.phase != Stopped
    ensures Invariant(Advance(s))
  {
    hide Advance, Invariant;
    InvariantEnabled(s);
    InvariantNext(s, ThreadStep);
  }

  lemma InvariantEnabled(s: State)
    requires Invariant(s) && s.phase != Stopped
    ensures Enabled(s, ThreadStep)
  {
  }

  lemma {:induction false} StepsFromFirst(s: State, k: nat)
    ensures Steps(Advance(s), k) == Steps(s, k + 1)
  {
    hide Advance;
    if k == 0 {
    } else {
      StepsFromFirst(s, k - 1);
    }
  }

  lemma DrainedLineIsEmpty(s: State)
    requires Drained(s)
    ensures Line(s) == []
  {
  }

  lemma AdvanceKeeps(s: State)
    requires s.connected && s.phase != Stopped
    ensures
      var s' := Advance(s);
      s'.pushed == s.pushed && s'.stored == s.stored && s'.lost == s.lost && s'.connected && s'.phase != Stopped
  {
  }

  // ---------- Bounded waiting ----------

  /** Iterations until the ticket at position q of the queue is certainly gone, if the queue never holds
      more than `limit`. */
  function QueueWait(t: Ticket, q: nat, limit: nat): int {
    (Weight(t.handle) - 1) * limit + q + 1
  }

  function HeldWait(s: State, t: Ticket, limit: nat): int {
    if Undecided(s) then (Weight(t.handle) - 1) * limit else Weight(t.handle) * limit
  }

  ghost predicate QueueWaits(queue: seq<Ticket>, i: nat, limit: nat, budget: int) {
    forall q :: 0 <= q < |queue| && queue[q].serial == i ==> QueueWait(queue[q], q, limit) <= budget
  }

  ghost predicate WaitsAtMost(s: State, i: nat, limit: nat, budget: int) {
    && QueueWaits(s.queue, i, limit, budget)
    && (Held(s) != [] && Held(s)[0].serial == i ==> HeldWait(s, Held(s)[0], limit) <= budget)
  }

  lemma DecidedWait(s: State, limit: nat)
    requires Undecided(s) && Linearized(s) && Faithful(s.phase.held, s)
    ensures
      var s' := Advance(s);
      && s'.queue == s.queue && s'.pops == s.pops
      && (Held(s') != [] ==> Held(s')[0].serial == s.phase.held.serial
                             && HeldWait(s', Held(s')[0], limit) <= HeldWait(s, s.phase.held, limit))
  {
    var s' := Advance(s);
    if Held(s') != [] && !Undecided(s') {
      assert Weight(Held(s')[0].handle) == Weight(s.phase.held.handle) - 1;
    }
  }

  lemma RequeuedWait(s: State, i: nat, limit: nat, budget: int)
    requires s.phase.Requeuing? && |s.queue| + 1 <= limit
    requires WaitsAtMost(s, i, limit, budget)
    ensures QueueWaits(s.queue + [s.phase.held], i, limit, budget)
  {
    var t := s.phase.held;
    var w := Weight(t.handle);
    assert (w - 1) * limit + limit == w * limit;
    forall q | 0 <= q < |s.queue + [t]| && (s.queue + [t])[q].serial == i
      ensures QueueWait((s.queue + [t])[q], q, limit) <= budget
    {
      if q < |s.queue| {
        assert QueueWait(s.queue[q], q, limit) <= budget;
      }
    }
  }

  lemma PoppedWait(queue: seq<Ticket>, i: nat, limit: nat, budget: int)
    requires queue != [] && QueueWaits(queue, i, limit, budget)
    ensures QueueWaits(queue[1..], i, limit, budget - 1)
  {
    forall q | 0 <= q < |queue[1..]| && queue[1..][q].serial == i
      ensures QueueWait(queue[1..][q], q, limit) <= budget - 1
    {
      assert queue[1..][q] == queue[q + 1];
      assert QueueWait(queue[q + 1], q + 1, limit) <= budget;
    }
  }

  lemma WaitsNext(s: State, e: Event, i: nat, limit: nat, budget: int)
    requires Linearized(s) && AllFaithful(s) && Enabled(s, e)
    requires WaitsAtMost(s, i, limit, budget)
    requires i < |s.pushed| && |Next(s, e).queue| <= limit
    ensures WaitsAtMost(Next(s, e), i, limit, budget - (Next(s, e).pops - s.pops))
  {
    var s' := Next(s, e);
    if e.Push? {
      assert Held(s') == Held(s);
      forall q | 0 <= q < |s'.queue| && s'.queue[q].serial == i ensures QueueWait(s'.queue[q], q, limit) <= budget {
        assert s'.queue[q] == s.queue[q];
      }
    } else if e == ThreadStep && Undecided(s) {
      HeldIsFaithful(s);
      DecidedWait(s, limit);
    } else if e == ThreadStep && s.phase.Requeuing? {
      RequeuedWait(s, i, limit, budget);
    } else if e == ThreadStep && s.phase.Popping? {
      PoppedWait(s.queue, i, limit, budget);
      assert s.queue[0].serial == i ==> QueueWait(s.queue[0], 0, limit) <= budget;
    }
  }

  /** The queue holds at most `limit` handles in every state after event j, up to the k-th. */
  ghost predicate QueueStaysWithin(es: seq<Event>, j: nat, k: nat, limit: nat)
    requires k <= |es|
  {
    forall n :: j < n <= k ==> |After(es, n).queue| <= limit
  }

  lemma AfterStep(es: seq<Event>, k: nat)
    requires k < |es|
    ensures After(es, k + 1) == Next(After(es, k), es[k])
    ensures Legal(es) ==> Enabled(After(es, k), es[k])
  {
  }

  lemma {:induction false} WaitingRun(es: seq<Event>, j: nat, k: nat, limit: nat)
    requires Legal(es) && j < k <= |es| && es[j].Push? && QueueStaysWithin(es, j, k, limit)
    ensures |After(es, j).pushed| < |After(es, k).pushed|
    ensures WaitsAtMost(After(es, k), |After(es, j).pushed|, limit,
                        (DELAY_BEFORE_DROP + 1) * limit - (After(es, k).pops - After(es, j).pops))
    decreases k
  {
    hide Next, After, Enabled, Linearized, AllFaithful, WaitsAtMost;
    var s := After(es, k - 1);
    AfterStep(es, k - 1);
    BasicAlways(es, k - 1);
    PushedNext(s, es[k - 1]);
    assert |After(es, k).queue| <= limit;
    if j == k - 1 {
      assert es[j] == Push(es[j].message);
      JustPushed(s, es[j].message, limit);
    } else {
      WaitingRun(es, j, k - 1, limit);
      WaitsNext(s, es[k - 1], |After(es, j).pushed|, limit, (DELAY_BEFORE_DROP + 1) * limit - (s.pops - After(es, j).pops));
    }
  }

  lemma BasicAlways(es: seq<Event>, k: nat)
    requires Legal(es) && k <= |es|
    ensures Linearized(After(es, k)) && AllFaithful(After(es, k))
  {
    hide After;
    InvariantAlways(es, k);
  }

  lemma JustPushed(s: State, m: Message, limit: nat)
    requires AllFaithful(s) && |Next(s, Push(m)).queue| <= limit
    ensures WaitsAtMost(Next(s, Push(m)), |s.pushed|, limit, (DELAY_BEFORE_DROP + 1) * limit)
    ensures Next(s, Push(m)).pops == s.pops
  {
    var s' := Next(s, Push(m));
    var i := |s.pushed|;
    HeldIsFaithful(s);
    assert forall t <- s.queue :: Faithful(t, s);
    assert Held(s') == Held(s);
    assert Held(s) != [] ==> Faithful(Held(s)[0], s);
    assert forall q :: 0 <= q < |s.queue| ==> s'.queue[q] == s.queue[q] && s.queue[q] in s.queue;
    assert forall q :: 0 <= q < |s'.queue| && s'.queue[q].serial == i ==> q == |s.queue|;
  }

  lemma JustPushedCounts(es: seq<Event>, j: nat, k: nat, limit: nat)
    requires j < k <= |es| && es[j].Push? && QueueStaysWithin(es, j, k, limit)
    ensures limit > 0
  {
    AfterStep(es, j);
    assert |After(es, j + 1).queue| > 0;
  }

  /** While the queue never holds more than `limit` handles, a message still in the bridge's hands is in the
      course of its iteration number 11 * limit from its push at the latest, and once an iteration has
      been decided there are fewer: after 11 * limit of them the message is gone, whatever is pushed
      meanwhile. */
  lemma {:induction false} BoundedWaiting(es: seq<Event>, j: nat, k: nat, limit: nat)
    requires Legal(es) && j < k <= |es| && es[j].Push? && QueueStaysWithin(es, j, k, limit)
    requires |After(es, j).pushed| in Serials(Line(After(es, k)))
    ensures After(es, k).pops - After(es, j).pops <= 11 * limit
    ensures !Undecided(After(es, k)) ==> After(es, k).pops - After(es, j).pops < 11 * limit
  {
    hide After, WaitsAtMost, Linearized, AllFaithful, QueueStaysWithin, Legal, Undecided, Line, Serials;
    JustPushedCounts(es, j, k, limit);
    WaitingRun(es, j, k, limit);
    BasicAlways(es, k);
    StillWaiting(After(es, k), |After(es, j).pushed|, limit,
                 (DELAY_BEFORE_DROP + 1) * limit - (After(es, k).pops - After(es, j).pops));
  }

  lemma StillWaiting(s: State, i: nat, limit: nat, budget: int)
    requires WaitsAtMost(s, i, limit, budget) && i in Serials(Line(s))
    requires AllFaithful(s) && limit > 0
    ensures budget >= 0
    ensures !Undecided(s) ==> budget > 0
  {
    var p :| 0 <= p < |Line(s)| && Line(s)[p].serial == i;
    var t := Line(s)[p];
    assert Faithful(t, s);
    NonNegative(Weight(t.handle) - 1, limit);
    assert Weight(t.handle) * limit == (Weight(t.handle) - 1) * limit + limit;
    if p >= |Held(s)| {
      var q := p - |Held(s)|;
      assert s.queue[q] == t;
      assert QueueWait(t, q, limit) <= budget;
    } else {
      assert Held(s)[0] == t;
    }
  }

  lemma NonNegative(a: int, b: int)
    requires a >= 0 && b >= 0
    ensures a * b >= 0
  {
  }

  /** A handle at position q of the queue moves forward by one with every iteration and stays put
      otherwise, and is the one examined at iteration q + 1, whatever is pushed meanwhile. */
  lemma {:induction false} ExaminedInTurn(es: seq<Event>, j: nat, k: nat, q: nat)
    requires Legal(es) && j <= k <= |es| && q < |After(es, j).queue|
    ensures
      var t := After(es, j).queue[q];
      var taken := After(es, k).pops - After(es, j).pops;
      && taken >= 0
      && (taken <= q ==> q - taken < |After(es, k).queue| && After(es, k).queue[q - taken] == t)
      && (taken == q + 1 && After(es, k - 1).pops < After(es, k).pops ==> After(es, k).phase == Deciding(t))
    decreases k
  {
    hide Next, After, Enabled, Linearized, AllFaithful;
    if j == k {
    } else {
      AfterStep(es, k - 1);
      BasicAlways(es, k - 1);
      ExaminedInTurn(es, j, k - 1, q);
      QueueMoves(After(es, k - 1), es[k - 1]);
    }
  }

  lemma QueueMoves(s: State, e: Event)
    requires Linearized(s) && Enabled(s, e)
    ensures
      var s' := Next(s, e);
      var popped := e == ThreadStep && s.phase.Popping?;
      && s'.pops == s.pops + (if popped then 1 else 0)
      && (popped ==> s.queue != [] && s'.queue == s.queue[1..] && s'.phase == Deciding(s.queue[0]))
      && (!popped ==> s.queue <= s'.queue)
  {
    if e == ThreadStep && s.phase.Deciding? {
      SettleEffect(s);
    }
  }
}
