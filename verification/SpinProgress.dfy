/** What one call of `spin()` gets done, in every run, whatever arrives, finishes and is registered while it
    is under way; and that the logs of the spinning side hold what happened. */
module SpinProgress {
  import opened Prelude
  import opened Messages
  import opened BytesReceiving
  import opened UserCallbacks
  import opened UserCalls
  import opened MessageHandling
  import opened SpinProtocol
  import opened SpinInvariants
  import SpinTheorems

  // ---------- The history is what happened ----------

  function ArrivalsIn(es: seq<Event>, k: nat): seq<Message>
    requires k <= |es|
  {
    if k == 0 then [] else ArrivalsIn(es, k - 1) + (if es[k - 1].Arrive? then [es[k - 1].message] else [])
  }

  function RegistrationsIn(es: seq<Event>, k: nat): seq<Registration>
    requires k <= |es|
  {
    if k == 0 then []
    else RegistrationsIn(es, k - 1)
         + (if es[k - 1].RegisterAction? then [Registration(es[k - 1].name, es[k - 1].wrapper)] else [])
  }

  function ResultsIn(es: seq<Event>, k: nat): map<nat, Option<CallbackReturn>>
    requires k <= |es|
  {
    if k == 0 then map[]
    else if es[k - 1].Complete? then ResultsIn(es, k - 1)[es[k - 1].token := es[k - 1].result]
    else ResultsIn(es, k - 1)
  }

  function Listening(es: seq<Event>, k: nat): bool
    requires k <= |es|
  {
    if k == 0 then false else if es[k - 1].OnBytes? then es[k - 1].valid else Listening(es, k - 1)
  }

  lemma AbsorbKeepsListening(receiver: Receiver, m: Message)
    ensures Absorb(receiver, m).receiver.callbackSet == receiver.callbackSet
  {
  }

  lemma HistoryNext(s: State, e: Event)
    requires Agree(s.registry)
    ensures
      var s' := Next(s, e);
      && s'.arrived == s.arrived + (if e.Arrive? then [e.message] else [])
      && s'.registry == (if e.RegisterAction? then Register(s.registry, e.name, e.wrapper) else s.registry)
      && s'.finished == (if e.Complete? then s.finished[e.token := e.result] else s.finished)
      && s'.receiver.callbackSet == (if e.OnBytes? then e.valid else s.receiver.callbackSet)
  {
    hide Route, Absorb, Register;
    if e.Work? && s.phase.Peeking? && s.inbox != [] {
      AbsorbKeepsListening(s.receiver, s.inbox[0]);
    }
    if e.Work? && s.phase.Scanning? {
      ScanFrame(s, e.requestId);
    }
    if e.Work? && s.phase.Recording? {
      RecordFrame(s);
    }
  }

  /** The arrivals, the registry, the results of callbacks and the receiver's setting are those that the events
      made them. */
  lemma {:induction false} HistoryIsTrue(period: uint32, es: seq<Event>, k: nat)
    requires k <= |es|
    ensures
      var s := After(period, es, k);
      && s.arrived == ArrivalsIn(es, k)
      && s.registry == RegisterAll(EMPTY, RegistrationsIn(es, k))
      && s.finished == ResultsIn(es, k)
      && s.receiver.callbackSet == Listening(es, k)
  {
    hide After, Next, Register, RegisterAll;
    if k == 0 {
      HistoryAtFirst(period, es);
    } else {
      HistoryIsTrue(period, es, k - 1);
      AfterNext(period, es, k - 1);
      HistoryNext(After(period, es, k - 1), es[k - 1]);
      var rs := RegistrationsIn(es, k - 1);
      if es[k - 1].RegisterAction? {
        RegisterLast(rs, Registration(es[k - 1].name, es[k - 1].wrapper));
      } else {
        assert rs + [] == rs;
      }
    }
  }

  lemma HistoryAtFirst(period: uint32, es: seq<Event>)
    ensures After(period, es, 0) == Start(period) && RegisterAll(EMPTY, []) == EMPTY
  {
  }

  lemma RegisterLast(rs: seq<Registration>, r: Registration)
    ensures RegisterAll(EMPTY, rs + [r]) == Register(RegisterAll(EMPTY, rs), r.name, r.wrapper)
  {
    assert (rs + [r])[..|rs|] == rs;
  }

  lemma AfterNext(period: uint32, es: seq<Event>, k: nat)
    requires k < |es|
    ensures After(period, es, k + 1) == Next(After(period, es, k), es[k])
    ensures Legal(period, es) ==> Enabled(After(period, es, k), es[k])
  {
    hide Next, Enabled;
  }

  // ---------- One call of spin ----------

  /** Every entry of the list waits for a callback that is not among these. */
  ghost predicate NoneOf(ps: seq<Pending>, over: set<nat>) {
    forall i :: 0 <= i < |ps| ==> ps[i].future.Some? && ps[i].future.value !in over
  }

  /** A spin on a live connection is under way that was entered with `handled` messages handled, `beats` spins
      counted and the callbacks `over` finished; `waiting` if a message was there. */
  ghost predicate Spinning(s: State, handled: nat, beats: nat, waiting: bool, over: set<nat>) {
    && s.beats == beats && over <= s.finished.Keys && (waiting ==> handled < |s.arrived|)
    && match s.phase
       case Testing => s.handled == handled
       case Peeking => s.handled == handled
       case Popping(_, _) => s.handled == handled
       case Recording(_) => s.handled == handled + 1
       case Scanning(kept, _) => HandledOne(s, handled, waiting) && NoneOf(kept, over)
       case Beating => HandledOne(s, handled, waiting) && NoneOf(s.pending, over)
       case Ruined => true
       case _ => false
  }

  ghost predicate HandledOne(s: State, handled: nat, waiting: bool) {
    s.handled == handled + 1 || (!waiting && s.handled == handled)
  }

  lemma OthersDoNotSpin(s: State, e: Event, handled: nat, beats: nat, waiting: bool, over: set<nat>)
    requires Agree(s.registry) && !e.Work? && !e.Spin? && Spinning(s, handled, beats, waiting, over)
    ensures Spinning(Next(s, e), handled, beats, waiting, over)
  {
  }

  lemma ScanningGoesOn(s: State, requestId: uint32, handled: nat, beats: nat, waiting: bool, over: set<nat>)
    requires s.phase.Scanning? && Spinning(s, handled, beats, waiting, over)
    ensures Spinning(Scan(s, s.phase.kept, s.phase.rest, requestId), handled, beats, waiting, over)
  {
  }

  lemma RecordingGoesOn(s: State, handled: nat, beats: nat, waiting: bool, over: set<nat>)
    requires s.phase.Recording? && Spinning(s, handled, beats, waiting, over)
    ensures Spinning(Record(s, s.phase.routed), handled, beats, waiting, over)
  {
  }

  lemma InboundGoesOn(s: State, requestId: uint32, handled: nat, beats: nat, waiting: bool, over: set<nat>)
    requires Agree(s.registry) && InboxInOrder(s) && Spinning(s, handled, beats, waiting, over)
    requires s.phase.Testing? || s.phase.Peeking? || s.phase.Popping?
    ensures Spinning(Next(s, Work(requestId)), handled, beats, waiting, over)
  {
    hide Route, Absorb, RoutedFits;
  }

  /** A step of the spin keeps it under way, or ends it: with one message handled if one was there, one more
      spin counted, and nothing pending whose callback was over when it began. */
  lemma SpinningNext(s: State, e: Event, handled: nat, beats: nat, waiting: bool, over: set<nat>)
    requires Agree(s.registry) && InboxInOrder(s) && Enabled(s, e) && Spinning(s, handled, beats, waiting, over)
    ensures
      var s' := Next(s, e);
      || Spinning(s', handled, beats, waiting, over)
      || (s'.phase == Idle && s'.beats == beats + 1 && HandledOne(s', handled, waiting) && NoneOf(s'.pending, over))
  {
    if e.Work? && s.phase.Scanning? {
      ScanningGoesOn(s, e.requestId, handled, beats, waiting, over);
    } else if e.Work? && s.phase.Recording? {
      RecordingGoesOn(s, handled, beats, waiting, over);
    } else if e.Work? && !s.phase.Beating? {
      InboundGoesOn(s, e.requestId, handled, beats, waiting, over);
    } else if !e.Work? {
      hide Next, InboxInOrder;
      OthersDoNotSpin(s, e, handled, beats, waiting, over);
    }
  }

  /** Events j and k are the entry of one call of spin and its last step. */
  ghost predicate IsOneSpin(period: uint32, es: seq<Event>, j: nat, k: nat) {
    && Legal(period, es) && j < k <= |es| && es[j].Spin? && After(period, es, k).phase == Idle
    && forall n :: j < n < k ==> After(period, es, n).phase != Idle
  }

  lemma {:induction false} SpinningAlong(period: uint32, es: seq<Event>, j: nat, n: nat)
    requires Legal(period, es) && j < n <= |es| && es[j] == Spin(true)
    requires forall i :: j < i < n ==> After(period, es, i).phase != Idle
    ensures
      var s, s' := After(period, es, j), After(period, es, n);
      || Spinning(s', s.handled, s.beats, s.inbox != [], s.finished.Keys)
      || (s'.phase == Idle && s'.beats == s.beats + 1 && HandledOne(s', s.handled, s.inbox != [])
          && NoneOf(s'.pending, s.finished.Keys))
    decreases n
  {
    hide After, Next, Enabled, Legal, Spinning, HandledOne, NoneOf, Invariant;
    var s := After(period, es, j);
    AfterNext(period, es, n - 1);
    InvariantAlways(period, es, n - 1);
    InboxPart(After(period, es, n - 1));
    if j == n - 1 {
      SpinBegins(s);
    } else {
      SpinningAlong(period, es, j, n - 1);
      SpinningNext(After(period, es, n - 1), es[n - 1], s.handled, s.beats, s.inbox != [], s.finished.Keys);
    }
  }

  lemma InboxPart(s: State)
    requires Invariant(s)
    ensures Agree(s.registry) && InboxInOrder(s)
  {
  }

  lemma SpinBegins(s: State)
    requires Agree(s.registry) && InboxInOrder(s)
    ensures Spinning(Next(s, Spin(true)), s.handled, s.beats, s.inbox != [], s.finished.Keys)
  {
  }

  /** One call of spin on a live connection. It handles one message if one was there when it began, and never
      more than one. It counts one spin. Whatever was over when it began is pending no more, whether or
      not there was anything to return, and neither is a request without a callback; and of what was over,
      exactly what left a value within the limit has been returned. What is still running is still pending. */
  lemma SpinDoesItsWork(period: uint32, es: seq<Event>, j: nat, k: nat)
    requires IsOneSpin(period, es, j, k) && es[j] == Spin(true)
    ensures
      var s, s' := After(period, es, j), After(period, es, k);
      && (s.inbox != [] ==> s'.handled == s.handled + 1)
      && s.handled <= s'.handled <= s.handled + 1
      && s'.beats == s.beats + 1
      && (forall p <- s'.pending :: p.future.Some? && p.future.value !in s.finished)
      && (forall token :: token in s.finished ==>
           && token in s'.finished && s'.finished[token] == s.finished[token]
           && (Returned(s'.log, |s'.log|, token) <==>
               s.finished[token].Some? && |s.finished[token].value.arguments| <= FUNCTION_CALL_ARGUMENTS_MAX_LENGTH))
      && (forall token :: token in s'.launched && token !in s'.finished ==> IsPending(s'.pending, token))
  {
    hide After, Legal, Invariant, Returned, IsPending;
    SpinningAlong(period, es, j, k);
    var s, s' := After(period, es, j), After(period, es, k);
    forall token | token in s.finished
      ensures
        && token in s'.finished && s'.finished[token] == s.finished[token]
        && (Returned(s'.log, |s'.log|, token) <==>
            s.finished[token].Some? && |s.finished[token].value.arguments| <= FUNCTION_CALL_ARGUMENTS_MAX_LENGTH)
    {
      ResultsStay(period, es, j, k, token);
      FinishedWasLaunched(period, es, k, token);
      SpinTheorems.CallsAreNeverForgotten(period, es, k, token);
      NotPending(s'.pending, s.finished.Keys, token);
    }
    forall token | token in s'.launched && token !in s'.finished ensures IsPending(s'.pending, token) {
      SpinTheorems.CallsAreNeverForgotten(period, es, k, token);
    }
  }

  lemma NotPending(ps: seq<Pending>, over: set<nat>, token: nat)
    requires NoneOf(ps, over) && token in over
    ensures !IsPending(ps, token)
  {
  }

  lemma {:induction false} ResultsStay(period: uint32, es: seq<Event>, j: nat, k: nat, token: nat)
    requires Legal(period, es) && j <= k <= |es| && token in After(period, es, j).finished
    ensures token in After(period, es, k).finished
    ensures After(period, es, k).finished[token] == After(period, es, j).finished[token]
    decreases k
  {
    hide After, Next, Legal, Enabled;
    if j == k {
    } else {
      ResultsStay(period, es, j, k - 1, token);
      AfterNext(period, es, k - 1);
      HistoryNext(After(period, es, k - 1), es[k - 1]);
      OverOnlyOnce(After(period, es, k - 1), es[k - 1]);
    }
  }

  lemma OverOnlyOnce(s: State, e: Event)
    requires Enabled(s, e)
    ensures e.Complete? ==> e.token !in s.finished
  {
  }

  lemma FinishedWasLaunched(period: uint32, es: seq<Event>, k: nat, token: nat)
    requires Legal(period, es) && k <= |es| && token in After(period, es, k).finished
    ensures token in After(period, es, k).launched
  {
    hide After;
    InvariantAlways(period, es, k);
  }

  /** One call of spin on a dead connection counts one spin and touches nothing else of the spinning side. */
  lemma {:induction false} DeadSpin(period: uint32, es: seq<Event>, j: nat, n: nat)
    requires Legal(period, es) && j < n <= |es| && es[j] == Spin(false)
    requires forall i :: j < i < n ==> After(period, es, i).phase != Idle
    ensures
      var s, s' := After(period, es, j), After(period, es, n);
      && s'.handled == s.handled && s'.pending == s.pending && s'.log == s.log && s'.stored == s.stored
      && s'.launched == s.launched && s'.delivered == s.delivered
      && ((s'.phase == Beating && s'.beats == s.beats) || (s'.phase == Idle && s'.beats == s.beats + 1))
    decreases n
  {
    hide After, Next, Enabled, Legal;
    AfterNext(period, es, n - 1);
    if j == n - 1 {
      DeadSpinBegins(After(period, es, j));
    } else {
      DeadSpin(period, es, j, n - 1);
      DeadSpinNext(After(period, es, n - 1), es[n - 1]);
    }
  }

  lemma DeadSpinBegins(s: State)
    requires Agree(s.registry)
    ensures Next(s, Spin(false)) == s.(phase := Beating)
  {
  }

  lemma DeadSpinNext(s: State, e: Event)
    requires Agree(s.registry) && Enabled(s, e) && s.phase == Beating
    ensures
      var s' := Next(s, e);
      && s'.handled == s.handled && s'.pending == s.pending && s'.log == s.log && s'.stored == s.stored
      && s'.launched == s.launched && s'.delivered == s.delivered
      && (if e.Work? then s'.phase == Idle && s'.beats == s.beats + 1 else s'.phase == Beating && s'.beats == s.beats)
  {
    hide Register;
  }

  // ---------- A spin ends ----------

  /** How many of the events from j on, before k, are steps of spin(). */
  function Works(es: seq<Event>, j: nat, k: nat): nat
    requires j <= k <= |es|
    decreases k
  {
    if j == k then 0 else Works(es, j, k - 1) + (if es[k - 1].Work? then 1 else 0)
  }

  /** The steps that a spin still takes at most. */
  function StepsLeft(s: State): nat {
    match s.phase
    case Testing => |s.pending| + 7
    case Peeking => |s.pending| + 6
    case Popping(_, _) => |s.pending| + 5
    case Recording(_) => |s.pending| + 4
    case Scanning(_, rest) => |rest| + 2
    case Beating => 1
    case _ => 0
  }

  lemma StepsShrink(s: State, e: Event)
    requires Agree(s.registry) && InboxInOrder(s) && Enabled(s, e) && s.phase != Idle
    ensures Next(s, e).phase == Ruined || StepsLeft(Next(s, e)) + (if e.Work? then 1 else 0) <= StepsLeft(s)
  {
    hide Route, Absorb, RoutedFits, Register;
  }

  /** Every call of spin ends: within the number of pending requests and seven of its own steps it is over,
      unless it went past the registry's end. */
  lemma {:induction false} SpinEnds(period: uint32, es: seq<Event>, j: nat, k: nat)
    requires Legal(period, es) && j < k <= |es| && es[j].Spin?
    requires forall n :: j < n <= k ==> After(period, es, n).phase != Idle && After(period, es, n).phase != Ruined
    ensures Works(es, j + 1, k) + StepsLeft(After(period, es, k)) <= |After(period, es, j).pending| + 7
    decreases k
  {
    hide After, Next, Enabled, Legal, StepsLeft, Invariant;
    AfterNext(period, es, k - 1);
    if j == k - 1 {
      StepsAtFirst(After(period, es, j), es[j]);
    } else {
      SpinEnds(period, es, j, k - 1);
      InvariantAlways(period, es, k - 1);
      InboxPart(After(period, es, k - 1));
      StepsShrink(After(period, es, k - 1), es[k - 1]);
    }
  }

  lemma StepsAtFirst(s: State, e: Event)
    requires Agree(s.registry) && e.Spin?
    ensures StepsLeft(Next(s, e)) <= |s.pending| + 7
  {
  }
}
