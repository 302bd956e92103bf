/** The outbound thread, one atomic step at a time, against everything that can happen around it:
    any number of threads pushing, the spinning thread storing responses, the connection coming and
    going.

    Every pushed message gets a serial number, its index in the push log. Serial numbers and logs are
    history: no step reads them to decide anything. */
module OutboundProtocol {
  import opened Prelude
  import opened Messages
  import opened OutboundHandles

  datatype Ticket = Ticket(serial: nat, handle: Handle)

  /** Where the outbound thread stands. */
  datatype Phase =
    | Stopped                    // no thread, or joined
    | Polling                    // about to test the connection
    | Testing                    // about to test whether the queue is empty
    | Peeking                    // about to copy the front of the queue
    | Popping(copy: Ticket)      // about to pop it
    | Deciding(held: Ticket)     // about to look for a response
    | Erasing(held: Ticket)      // about to erase the response found
    | Sending(held: Ticket)      // about to serialize
    | Requeuing(held: Ticket)    // about to push the handle back
    | Crashed                    // front, pop or erase had nothing to work on

  datatype State = State(
    connected: bool,
    queue: seq<Ticket>,
    phase: Phase,
    responses: map<uint32, InboundResponse>,
    // History:
    pushed: seq<Message>,        // every message pushed, in order
    stored: seq<uint32>,         // the id of every response stored
    sent: seq<nat>,              // serials serialized by the outbound thread, in order
    lost: set<nat>,              // those serialized while the connection was down
    retired: seq<nat>,           // serials dropped because a response was there
    consumed: seq<uint32>,       // the ids of the responses erased for them
    expired: seq<nat>,
    greeted: seq<nat>,
    discarded: seq<nat>,
    pops: nat)

  datatype Event =
    | Push(message: Message)
    | Store(response: InboundResponse)
    | Connect                    // by the spinning thread, once the outbound thread is joined
    | Start                      // likewise
    | Disconnect
    | ThreadStep

  const INIT := State(false, [], Stopped, map[], [], [], [], {}, [], [], [], [], [], 0)

  predicate Enabled(s: State, e: Event) {
    match e
    case Connect => s.phase == Stopped
    case Start => s.phase == Stopped
    case ThreadStep => s.phase != Stopped && s.phase != Crashed
    case _ => true
  }

  function Next(s: State, e: Event): State {
    match e
    case Push(m) => s.(queue := s.queue + [Ticket(|s.pushed|, Handle(m, Ready, 0))], pushed := s.pushed + [m])
    case Store(r) => s.(responses := s.responses[r.id := r], stored := s.stored + [r.id])
    case Connect => s.(connected := true)
    case Start => s.(phase := Polling)
    case Disconnect => s.(connected := false)
    case ThreadStep => Advance(s)
  }

  function Advance(s: State): State {
    match s.phase
    case Stopped => s
    case Crashed => s
    case Polling => s.(phase := if s.connected then Testing else Stopped)
    case Testing => s.(phase := if s.queue == [] then Polling else Peeking)
    case Peeking => s.(phase := if s.queue == [] then Crashed else Popping(s.queue[0]))
    case Popping(copy) =>
      if s.queue == [] then s.(phase := Crashed)
      else s.(phase := Deciding(copy), queue := s.queue[1..], pops := s.pops + 1)
    case Deciding(t) => Settle(s, t)
    case Erasing(t) =>
      if !t.handle.message.body.Request? || t.handle.message.body.id !in s.responses then s.(phase := Crashed)
      else
        var id := t.handle.message.body.id;
        s.(phase := Polling, responses := s.responses - {id}, retired := s.retired + [t.serial], consumed := s.consumed + [id])
    case Sending(t) =>
      var s' := s.(sent := s.sent + [t.serial], lost := if s.connected then s.lost else s.lost + {t.serial});
      if t.handle.message.body.Greeting? then s'.(phase := Polling, greeted := s.greeted + [t.serial])
      else s'.(phase := Requeuing(t.(handle := t.handle.(state := Sent))))
    case Requeuing(t) => s.(phase := Polling, queue := s.queue + [t])
  }

  function Settle(s: State, t: Ticket): State {
    match Decide(t.handle, s.responses)
    case Retire => s.(phase := Erasing(t))
    case Transmit => s.(phase := Sending(t))
    case TransmitOnce => s.(phase := Sending(t))
    case Keep(delay) => s.(phase := Requeuing(t.(handle := t.handle.(delay := delay))))
    case Expire => s.(phase := Polling, expired := s.expired + [t.serial])
    case Discard => s.(phase := Polling, discarded := s.discarded + [t.serial])
  }

  /** The state after the first k events of a run. */
  function After(es: seq<Event>, k: nat): State
    requires k <= |es|
  {
    if k == 0 then INIT else Next(After(es, k - 1), es[k - 1])
  }

  /** A run: each event is possible when it happens. */
  ghost predicate Legal(es: seq<Event>) {
    forall k :: 0 <= k < |es| ==> Enabled(After(es, k), es[k])
  }

  // ---------- Views of a state ----------

  function Held(s: State): seq<Ticket> {
    match s.phase
    case Deciding(t) => [t]
    case Erasing(t) => [t]
    case Sending(t) => [t]
    case Requeuing(t) => [t]
    case _ => []
  }

  /** Everything still in the bridge's hands, in the order in which it will be examined. */
  function Line(s: State): seq<Ticket> {
    Held(s) + s.queue
  }

  function Serials(ts: seq<Ticket>): seq<nat> {
    seq(|ts|, i requires 0 <= i < |ts| => ts[i].serial)
  }

  /** The serials of the handles that have not been sent yet. */
  function Unsent(ts: seq<Ticket>): seq<nat> {
    if ts == [] then []
    else Unsent(ts[..|ts| - 1]) + (if ts[|ts| - 1].handle.state == Ready then [ts[|ts| - 1].serial] else [])
  }

  lemma {:induction false} UnsentConcat(a: seq<Ticket>, b: seq<Ticket>)
    ensures Unsent(a + b) == Unsent(a) + Unsent(b)
    decreases |b|
  {
    if b == [] {
      assert a + b == a;
    } else {
      var front := b[..|b| - 1];
      UnsentConcat(a, front);
      assert (a + b)[..|a + b| - 1] == a + front;
    }
  }

  // ---------- The invariant ----------

  /** The thread never reads, pops or erases what is not there; what it pops is what it read. */
  ghost predicate Linearized(s: State) {
    && s.phase != Crashed
    && (s.phase.Peeking? ==> s.queue != [])
    && (s.phase.Popping? ==> s.queue != [] && s.queue[0] == s.phase.copy)
    && (s.phase.Erasing? ==> s.phase.held.handle.message.body.Request? && s.phase.held.handle.message.body.id in s.responses)
    && (s.phase.Sending? ==>
         && s.phase.held.handle.state == Ready
         && (s.phase.held.handle.message.body.Request? || s.phase.held.handle.message.body.Greeting?))
    && (s.phase.Requeuing? ==> s.phase.held.handle.state == Sent)
  }

  /** A ticket carries the message pushed under its serial; its state says whether it was sent, and
      its clock runs only then and stays below the limit. */
  ghost predicate Faithful(t: Ticket, s: State) {
    && t.serial < |s.pushed| && t.handle.message == s.pushed[t.serial]
    && (t.handle.state == Ready ==> t.handle.delay == 0)
    && (t.handle.state == Sent ==>
         t.handle.message.body.Request? && t.serial in s.sent && 0 <= t.handle.delay < DELAY_BEFORE_DROP)
  }

  /** What has been sent, then what waits to be sent. */
  ghost function SendOrder(s: State): seq<nat> {
    s.sent + Unsent(Line(s))
  }

  ghost predicate InPushOrder(w: seq<nat>, limit: nat) {
    StrictlyIncreasing(w) && forall i :: 0 <= i < |w| ==> w[i] < limit
  }

  /** What has been sent followed by what waits to be sent is in push order. */
  ghost predicate Ordered(s: State) {
    InPushOrder(SendOrder(s), |s.pushed|)
  }

  /** Where every message went. */
  ghost function Whereabouts(s: State): multiset<nat> {
    multiset(Serials(Line(s))) + multiset(s.retired) + multiset(s.expired) + multiset(s.greeted) + multiset(s.discarded)
  }

  ghost predicate Conserved(s: State) {
    Whereabouts(s) == Below(|s.pushed|)
  }

  /** The fates are what they say. */
  ghost predicate FatesMeanIt(s: State) {
    && (forall i <- s.expired :: i < |s.pushed| && i in s.sent && s.pushed[i].body.Request?)
    && (forall i <- s.greeted :: i < |s.pushed| && i in s.sent && s.pushed[i].body.Greeting?)
    && (forall i <- s.discarded :: i < |s.pushed| && i !in s.sent && !s.pushed[i].body.Request? && !s.pushed[i].body.Greeting?)
    && (forall i <- s.sent :: i < |s.pushed| && (s.pushed[i].body.Request? || s.pushed[i].body.Greeting?))
    && |s.consumed| == |s.retired|
    && (forall k :: 0 <= k < |s.retired| ==>
         s.retired[k] < |s.pushed| && s.pushed[s.retired[k]].body.Request? && s.pushed[s.retired[k]].body.id == s.consumed[k])
  }

  /** Id by id, the responses used up and the one still stored are among those that were stored. */
  ghost predicate Accounted(s: State) {
    multiset(s.consumed) + multiset(s.responses.Keys) <= multiset(s.stored)
  }

  ghost predicate Invariant(s: State) {
    && Linearized(s)
    && (forall t <- Line(s) :: Faithful(t, s))
    && Ordered(s)
    && Conserved(s)
    && FatesMeanIt(s)
    && Accounted(s)
  }
}
