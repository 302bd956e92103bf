/** When a message that waits to be sent is sent, and when an unanswered request times out, in every run
    of the outbound side: whatever is pushed, stored and cycled meanwhile. */
module OutboundDispatch {
  import opened Prelude
  import opened Messages
  import opened OutboundHandles
  import opened OutboundProtocol
  import opened OutboundInvariants
  import opened OutboundTheorems
  import opened OutboundProgress

  predicate Sendable(m: Message) {
    m.body.Request? || m.body.Greeting?
  }

  /** Message i has been sent, or dropped because it was answered. */
  ghost predicate Dealt(s: State, i: nat) {
    i in s.sent || i in s.retired
  }

  /** The thread is in the course of examining message i. */
  predicate InHand(s: State, i: nat) {
    Undecided(s) && s.phase.held.serial == i
  }

  lemma DealtStays(s: State, e: Event, i: nat)
    requires Dealt(s, i)
    ensures Dealt(Next(s, e), i)
  {
    hide Settle;
    LogsGrow(s, e);
    if e == ThreadStep && s.phase.Deciding? {
      SettleEffect(s);
    }
  }

  lemma ExaminedOnce(s: State, e: Event, i: nat)
    requires Linearized(s) && AllFaithful(s) && Enabled(s, e)
    requires InHand(s, i) && i < |s.pushed| && Sendable(s.pushed[i])
    ensures Next(s, e).pops == s.pops
    ensures Dealt(Next(s, e), i) || InHand(Next(s, e), i)
  {
    HeldIsFaithful(s);
    assert Faithful(s.phase.held, s);
  }

  lemma {:induction false} SendableStays(es: seq<Event>, j: nat, k: nat, i: nat)
    requires j <= k <= |es| && i < |After(es, j).pushed|
    ensures i < |After(es, k).pushed| && After(es, k).pushed[i] == After(es, j).pushed[i]
    decreases k
  {
    hide Next;
    if j == k {
    } else {
      SendableStays(es, j, k - 1, i);
      PushedNext(After(es, k - 1), es[k - 1]);
    }
  }

  lemma {:induction false} DealtLater(es: seq<Event>, j: nat, k: nat, i: nat)
    requires j <= k <= |es| && Dealt(After(es, j), i)
    ensures Dealt(After(es, k), i)
    decreases k
  {
    hide Next;
    if j == k {
    } else {
      DealtLater(es, j, k - 1, i);
      DealtStays(After(es, k - 1), es[k - 1], i);
    }
  }

  lemma PopsGrow(s: State, e: Event)
    requires Linearized(s) && Enabled(s, e)
    ensures Next(s, e).pops == s.pops + (if e == ThreadStep && s.phase.Popping? then 1 else 0)
  {
    hide Next;
    QueueMoves(s, e);
  }

  /** What the thread holds undecided is dealt with before it takes anything else. */
  lemma {:induction false} HeldIsDealt(es: seq<Event>, j: nat, k: nat, i: nat)
    requires Legal(es) && j <= k <= |es| && InHand(After(es, j), i)
    requires i < |After(es, j).pushed| && Sendable(After(es, j).pushed[i])
    ensures After(es, k).pops >= After(es, j).pops
    ensures Dealt(After(es, k), i) || (InHand(After(es, k), i) && After(es, k).pops == After(es, j).pops)
    decreases k
  {
    hide Next, After, Enabled, Linearized, AllFaithful, Dealt, InHand;
    if j == k {
    } else {
      AfterStep(es, k - 1);
      HeldIsDealt(es, j, k - 1, i);
      BasicAlways(es, k - 1);
      SendableStays(es, j, k - 1, i);
      PopsGrow(After(es, k - 1), es[k - 1]);
      if Dealt(After(es, k - 1), i) {
        DealtStays(After(es, k - 1), es[k - 1], i);
      } else {
        ExaminedOnce(After(es, k - 1), es[k - 1], i);
      }
    }
  }

  /** A request or greeting at position q of the queue has been sent, or dropped because it was answered,
      once the thread has taken q + 2 handles, and already at q + 1 if it is not still busy with it. */
  lemma {:induction false} DealtInTurn(es: seq<Event>, j: nat, k: nat, q: nat)
    requires Legal(es) && j <= k <= |es| && q < |After(es, j).queue|
    requires Sendable(After(es, j).queue[q].handle.message)
    ensures
      var i := After(es, j).queue[q].serial;
      var taken := After(es, k).pops - After(es, j).pops;
      taken > q ==> Dealt(After(es, k), i) || (taken == q + 1 && InHand(After(es, k), i))
    decreases k
  {
    hide Next, After, Enabled, Linearized, AllFaithful, Dealt;
    var t := After(es, j).queue[q];
    if j == k {
    } else {
      AfterStep(es, k - 1);
      DealtInTurn(es, j, k - 1, q);
      ExaminedInTurn(es, j, k - 1, q);
      ExaminedInTurn(es, j, k, q);
      BasicAlways(es, k - 1);
      PopsGrow(After(es, k - 1), es[k - 1]);
      if After(es, k - 1).pops - After(es, j).pops > q {
        QueuedIsPushed(es, j, q);
        SendableStays(es, j, k - 1, t.serial);
        if Dealt(After(es, k - 1), t.serial) {
          DealtStays(After(es, k - 1), es[k - 1], t.serial);
        } else {
          ExaminedOnce(After(es, k - 1), es[k - 1], t.serial);
        }
      }
    }
  }

  lemma QueuedIsPushed(es: seq<Event>, j: nat, q: nat)
    requires Legal(es) && j <= |es| && q < |After(es, j).queue|
    ensures
      var t := After(es, j).queue[q];
      t.serial < |After(es, j).pushed| && After(es, j).pushed[t.serial] == t.handle.message
  {
    BasicAlways(es, j);
    HeldIsFaithful(After(es, j));
    hide After;
    assert Faithful(After(es, j).queue[q], After(es, j));
  }

  /** Handles taken since event j and dealt with. */
  ghost function Finished(es: seq<Event>, j: nat, k: nat): int
    requires j <= |es| && k <= |es|
  {
    After(es, k).pops - After(es, j).pops - (if Undecided(After(es, k)) then 1 else 0)
  }

  /** Whatever waited to be sent at some moment has been sent, or dropped because it was answered, once the
      thread is through with as many handles as were queued then. */
  lemma WaitingIsDealt(es: seq<Event>, j: nat, k: nat, i: nat)
    requires Legal(es) && j <= k <= |es| && i in Unsent(Line(After(es, j)))
    requires i < |After(es, j).pushed| && Sendable(After(es, j).pushed[i])
    requires Finished(es, j, k) >= |After(es, j).queue|
    ensures Dealt(After(es, k), i)
  {
    hide After, Dealt;
    var s := After(es, j);
    BasicAlways(es, j);
    var p := UnsentIsIn(s, i);
    if p < |Held(s)| {
      HeldIsDealt(es, j, k, i);
    } else {
      DealtInTurn(es, j, k, p - |Held(s)|);
    }
  }

  lemma {:induction false} UnsentAt(ts: seq<Ticket>, i: nat) returns (p: nat)
    requires i in Unsent(ts)
    ensures p < |ts| && ts[p].serial == i && ts[p].handle.state == Ready
  {
    p := |ts| - 1;
    if ts[p].handle.state == Ready && ts[p].serial == i {
    } else {
      p := UnsentAt(ts[..p], i);
    }
  }

  lemma UnsentIsIn(s: State, i: nat) returns (p: nat)
    requires Linearized(s) && AllFaithful(s) && i in Unsent(Line(s)) && i < |s.pushed|
    ensures p < |Line(s)|
    ensures p < |Held(s)| ==> InHand(s, i)
    ensures p >= |Held(s)| ==>
      var t := s.queue[p - |Held(s)|];
      t.serial == i && t.handle.message == s.pushed[i]
  {
    p := UnsentAt(Line(s), i);
    assert Faithful(Line(s)[p], s);
  }

  // ---------- In steps of the thread ----------

  /** How many of the events from j on, before k, are steps of the outbound thread. */
  function ThreadSteps(es: seq<Event>, j: nat, k: nat): nat
    requires j <= k <= |es|
    decreases k
  {
    if j == k then 0 else ThreadSteps(es, j, k - 1) + (if es[k - 1] == ThreadStep then 1 else 0)
  }

  /** Steps since the thread last took a handle; there are seven phases to an iteration at most. */
  function Age(p: Phase): nat {
    match p
    case Deciding(_) => 0
    case Erasing(_) => 1
    case Sending(_) => 1
    case Requeuing(_) => 2
    case Polling => 3
    case Testing => 4
    case Peeking => 5
    case Popping(_) => 6
    case _ => 0
  }

  ghost predicate ConnectedThroughout(es: seq<Event>, j: nat, k: nat)
    requires k <= |es|
  {
    forall n :: j <= n <= k ==> After(es, n).connected
  }

  lemma Ages(s: State)
    requires Linearized(s) && s.connected && s.phase != Stopped && !Drained(s)
    ensures 7 * Advance(s).pops + Age(Advance(s).phase) > 7 * s.pops + Age(s.phase)
    ensures Advance(s).phase != Stopped
  {
  }

  lemma OthersDoNotAge(s: State, e: Event)
    requires e != ThreadStep && s.phase != Stopped && Enabled(s, e)
    ensures Next(s, e).pops == s.pops && Next(s, e).phase == s.phase
  {
  }

  lemma DrainedGoesOn(s: State)
    requires Drained(s)
    ensures Advance(s).phase != Stopped
  {
  }

  lemma {:induction false} KeepsRunning(es: seq<Event>, j: nat, k: nat)
    requires Legal(es) && j <= k <= |es| && ConnectedThroughout(es, j, k) && After(es, j).phase != Stopped
    ensures After(es, k).phase != Stopped
    decreases k
  {
    hide Next, After, Enabled, Linearized, Drained, Advance, Age;
    if j == k {
    } else {
      KeepsRunning(es, j, k - 1);
      assert After(es, k - 1).connected;
      RunsOn(es, k - 1);
    }
  }

  lemma RunsOn(es: seq<Event>, k: nat)
    requires Legal(es) && k < |es| && After(es, k).connected && After(es, k).phase != Stopped
    ensures After(es, k + 1).phase != Stopped
    ensures !Drained(After(es, k)) ==>
      7 * After(es, k + 1).pops + Age(After(es, k + 1).phase)
      >= 7 * After(es, k).pops + Age(After(es, k).phase) + (if es[k] == ThreadStep then 1 else 0)
  {
    BasicAlways(es, k);
    AfterStep(es, k);
    hide After, Advance, Age, Linearized, AllFaithful;
    var s := After(es, k);
    if es[k] != ThreadStep {
      OthersDoNotAge(s, es[k]);
    } else if Drained(s) {
      DrainedGoesOn(s);
    } else {
      Ages(s);
    }
  }

  /** Each step of the thread brings it nearer to taking the next handle, as long as there is one. */
  lemma {:induction false} StepsTakeHandles(es: seq<Event>, j: nat, k: nat)
    requires Legal(es) && j <= k <= |es| && ConnectedThroughout(es, j, k) && After(es, j).phase != Stopped
    requires forall n :: j <= n < k ==> !Drained(After(es, n))
    ensures 7 * (After(es, k).pops - After(es, j).pops) + Age(After(es, k).phase)
         >= ThreadSteps(es, j, k) + Age(After(es, j).phase)
    decreases k
  {
    hide Next, Drained, Age, After;
    if j == k {
    } else {
      StepsTakeHandles(es, j, k - 1);
      KeepsRunning(es, j, k - 1);
      assert After(es, k - 1).connected;
      RunsOn(es, k - 1);
    }
  }

  /** When the queue is found empty, everything queued at an earlier moment has been finished with. */
  lemma DrainedFinishes(es: seq<Event>, j: nat, n: nat)
    requires Legal(es) && j <= n <= |es| && Drained(After(es, n))
    ensures Finished(es, j, n) >= |After(es, j).queue|
  {
    hide After;
    PopsNeverShrink(es, j, n);
    if After(es, j).queue == [] {
    } else {
      ExaminedInTurn(es, j, n, |After(es, j).queue| - 1);
    }
  }

  lemma {:induction false} PopsNeverShrink(es: seq<Event>, j: nat, k: nat)
    requires Legal(es) && j <= k <= |es|
    ensures After(es, j).pops <= After(es, k).pops
    decreases k
  {
    hide Next, Linearized;
    if j == k {
    } else {
      PopsNeverShrink(es, j, k - 1);
      BasicAlways(es, k - 1);
      PopsGrow(After(es, k - 1), es[k - 1]);
    }
  }

  /** While the connection stays up: whatever waits to be sent at some moment has been sent, or dropped
      because it was answered, once the thread has made seven steps for each handle queued then and seven
      more, however these steps are interleaved with anything else. */
  lemma SentWithinSteps(es: seq<Event>, j: nat, k: nat, i: nat)
    requires Legal(es) && j <= k <= |es| && ConnectedThroughout(es, j, k) && After(es, j).phase != Stopped
    requires i in Unsent(Line(After(es, j)))
    requires i < |After(es, j).pushed| && Sendable(After(es, j).pushed[i])
    requires ThreadSteps(es, j, k) >= 7 * (|After(es, j).queue| + 1)
    ensures Dealt(After(es, k), i)
  {
    hide After, Dealt, Drained, ThreadSteps;
    if n :| j <= n < k && Drained(After(es, n)) {
      DrainedFinishes(es, j, n);
      WaitingIsDealt(es, j, n, i);
      DealtLater(es, n, k, i);
    } else {
      StepsTakeHandles(es, j, k);
      assert Age(After(es, k).phase) <= 6;
      WaitingIsDealt(es, j, k, i);
    }
  }

  lemma SendsAreSafe(s: State, e: Event)
    requires s.connected
    ensures Next(s, e).lost == s.lost
  {
  }

  lemma {:induction false} NothingIsLost(es: seq<Event>, j: nat, k: nat)
    requires j <= k <= |es| && ConnectedThroughout(es, j, k)
    ensures After(es, k).lost == After(es, j).lost
    decreases k
  {
    hide Next;
    if j == k {
    } else {
      NothingIsLost(es, j, k - 1);
      SendsAreSafe(After(es, k - 1), es[k - 1]);
    }
  }

  // ---------- Timing out ----------

  /** How often the thread took message i from the queue. */
  function Visits(es: seq<Event>, k: nat, i: nat): nat
    requires k <= |es|
  {
    if k == 0 then 0 else Visits(es, k - 1, i) + (if Takes(After(es, k - 1), es[k - 1], i) then 1 else 0)
  }

  predicate Takes(s: State, e: Event, i: nat) {
    e == ThreadStep && s.phase.Popping? && s.phase.copy.serial == i
  }

  /** The visits that have shaped a handle. */
  function VisitsIn(h: Handle): int {
    if h.state == Ready then 0 else h.delay + 1
  }

  /** A message that is still around has been visited as often as its handle says, and once more if the
      thread has it in hand; one that timed out, eleven times. */
  ghost predicate VisitsFit(s: State, i: nat, visits: nat) {
    && (forall t <- s.queue :: t.serial == i ==> visits == VisitsIn(t.handle))
    && (forall t <- Held(s) :: t.serial == i ==> visits == VisitsIn(t.handle) + (if Undecided(s) then 1 else 0))
    && (i in s.expired ==> visits == DELAY_BEFORE_DROP + 1)
    && (i >= |s.pushed| ==> visits == 0)
  }

  lemma VisitInHand(s: State, i: nat, visits: nat)
    requires Linearized(s) && AllFaithful(s) && Undecided(s) && VisitsFit(s, i, visits)
    ensures VisitsFit(Advance(s), i, visits)
  {
    HeldIsFaithful(s);
    assert s.phase.held in Held(s) && Faithful(s.phase.held, s);
  }

  lemma VisitTaken(s: State, i: nat, visits: nat)
    requires Invariant(s) && s.phase.Popping? && VisitsFit(s, i, visits)
    ensures VisitsFit(Advance(s), i, visits + (if s.phase.copy.serial == i then 1 else 0))
  {
    hide Ordered, FatesMeanIt, Accounted, Conserved;
    var t := s.phase.copy;
    assert t in s.queue && t in Line(s) && Faithful(t, s);
    if t.serial == i {
      TakenOnlyOnce(s);
    }
  }

  /** The first of the queue is nowhere else. */
  lemma {:induction false} TakenOnlyOnce(s: State)
    requires Conserved(s) && s.queue != [] && Held(s) == [] && s.queue[0].serial < |s.pushed|
    ensures s.queue[0].serial !in s.expired
    ensures forall t <- s.queue[1..] :: t.serial != s.queue[0].serial
  {
    var i := s.queue[0].serial;
    PlacedOnce(s, i);
    hide Conserved, Line;
    assert Serials(s.queue) == [i] + Serials(s.queue[1..]);
    assert multiset(Serials(s.queue))[i] == 1 + multiset(Serials(s.queue[1..]))[i];
    forall t | t in s.queue[1..] ensures t.serial != i {
      var q :| 0 <= q < |s.queue[1..]| && s.queue[1..][q] == t;
      assert Serials(s.queue[1..])[q] == t.serial;
    }
  }

  lemma PlacedOnce(s: State, i: nat)
    requires Conserved(s) && Held(s) == [] && i < |s.pushed|
    ensures multiset(Serials(s.queue))[i] + multiset(s.expired)[i] <= 1
  {
    BelowCounts(|s.pushed|, i);
    assert Whereabouts(s)[i] == 1;
    assert Line(s) == s.queue;
  }

  lemma VisitQuiet(s: State, e: Event, i: nat, visits: nat)
    requires Linearized(s) && Enabled(s, e) && VisitsFit(s, i, visits)
    requires e == ThreadStep ==> !Undecided(s) && !s.phase.Popping?
    ensures VisitsFit(Next(s, e), i, visits)
  {
  }

  lemma {:induction false} VisitsAlwaysFit(es: seq<Event>, k: nat, i: nat)
    requires Legal(es) && k <= |es|
    ensures VisitsFit(After(es, k), i, Visits(es, k, i))
  {
    hide Next, Advance, VisitsFit, Invariant, Takes, Enabled, Linearized, AllFaithful;
    if k == 0 {
      NoVisits(i);
    } else {
      VisitsAlwaysFit(es, k - 1, i);
      InvariantAlways(es, k - 1);
      BasicAlways(es, k - 1);
      AfterStep(es, k - 1);
      VisitsNext(After(es, k - 1), es[k - 1], i, Visits(es, k - 1, i));
    }
  }

  lemma NoVisits(i: nat)
    ensures VisitsFit(INIT, i, 0)
  {
  }

  lemma VisitsNext(s: State, e: Event, i: nat, visits: nat)
    requires Invariant(s) && Linearized(s) && AllFaithful(s) && Enabled(s, e) && VisitsFit(s, i, visits)
    ensures VisitsFit(Next(s, e), i, visits + (if Takes(s, e, i) then 1 else 0))
  {
    hide Invariant, Linearized, AllFaithful, VisitsFit, Advance;
    if e == ThreadStep && Undecided(s) {
      VisitInHand(s, i, visits);
    } else if e == ThreadStep && s.phase.Popping? {
      VisitTaken(s, i, visits);
    } else {
      VisitQuiet(s, e, i, visits);
    }
  }

  /** In every run, whatever else is queued and answered: a message that times out does so at its eleventh
      visit, and one that waits between two visits has had at most ten. */
  lemma TimesOutAtTheEleventhVisit(es: seq<Event>, k: nat, i: nat)
    requires Legal(es) && k <= |es|
    ensures i in After(es, k).expired ==> Visits(es, k, i) == 11
    ensures forall t <- After(es, k).queue :: t.serial == i ==>
      && Visits(es, k, i) <= 10
      && (Visits(es, k, i) == 0 <==> i !in After(es, k).sent)
  {
    hide After, Visits, Invariant;
    VisitsAlwaysFit(es, k, i);
    InvariantAlways(es, k);
    QueuedVisits(After(es, k), i, Visits(es, k, i));
  }

  lemma QueuedVisits(s: State, i: nat, visits: nat)
    requires Invariant(s) && VisitsFit(s, i, visits)
    ensures forall t <- s.queue :: t.serial == i ==>
      visits <= DELAY_BEFORE_DROP && (visits == 0 <==> i !in s.sent)
  {
    hide Conserved, FatesMeanIt, Accounted, Linearized;
    forall t | t in s.queue && t.serial == i ensures visits <= DELAY_BEFORE_DROP && (visits == 0 <==> i !in s.sent) {
      assert t in Line(s) && Faithful(t, s);
      if t.handle.state == Ready {
        ReadyMeansUnsent(s, t);
      }
    }
  }
}
