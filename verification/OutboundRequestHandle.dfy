/** `OutboundRequestHandle`: a queued message with its send state and the clock that runs once it has
    been sent, and the decision the outbound thread takes each time it examines one. */
module OutboundHandles {
  import opened Prelude
  import opened Messages

  const THREAD_SLEEP_MS := 1
  const DELAY_BEFORE_DROP := 10

  datatype SendState = Ready | Sent

  /** The value of a handle. The queue stores handles by value. */
  datatype Handle = Handle(message: Message, state: SendState, delay: int)

  class OutboundRequestHandle {
    var message: Message
    var state: SendState
    var delaySinceSent: int

    function Value(): Handle
      reads this
    {
      Handle(message, state, delaySinceSent)
    }

    constructor (message: Message)
      ensures Value() == Handle(message, Ready, 0)
    {
      this.message, state, delaySinceSent := message, Ready, 0;
    }

    constructor CopyOf(h: Handle)
      ensures Value() == h
    {
      message, state, delaySinceSent := h.message, h.state, h.delay;
    }

    method SetState(newState: SendState)
      modifies this
      ensures Value() == old(Value()).(state := newState)
    {
      state := newState;
    }

    method SetMessage(newMessage: Message)
      modifies this
      ensures Value() == old(Value()).(message := newMessage)
    {
      message := newMessage;
    }

    method BumpDelaySinceSent(bump: int) returns (delay: int)
      modifies this
      ensures Value() == old(Value()).(delay := old(delaySinceSent) + bump)
      ensures delay == delaySinceSent
    {
      delaySinceSent := delaySinceSent + bump;
      return delaySinceSent;
    }
  }

  /** What becomes of a handle that the outbound thread examines. */
  datatype Verdict =
    | Retire                  // answered: forget the request and the response
    | Transmit                // first visit: serialize, then keep it as sent
    | Keep(delay: int)        // still waiting for a response
    | Expire                  // waited long enough
    | TransmitOnce            // a greeting: serialize and forget
    | Discard                 // not a message the outbound thread sends

  function Decide(h: Handle, responses: map<uint32, InboundResponse>): Verdict {
    match h.message.body
    case Request(id, _) =>
      if id in responses then Retire
      else if h.state == Ready then Transmit
      else if h.delay + THREAD_SLEEP_MS >= DELAY_BEFORE_DROP then Expire
      else Keep(h.delay + THREAD_SLEEP_MS)
    case Greeting(_) => TransmitOnce
    case _ => Discard
  }

  /** The outbound side as the outbound thread sees it between two iterations. */
  datatype Outbox = Outbox(queue: seq<Handle>, responses: map<uint32, InboundResponse>, wire: seq<Message>)

  /** One iteration of the outbound thread's loop body that nothing interrupts. */
  function Iterate(o: Outbox): Outbox {
    if o.queue == [] then o
    else
      var h := o.queue[0];
      var rest := o.(queue := o.queue[1..]);
      match Decide(h, o.responses)
      case Retire => rest.(responses := o.responses - {h.message.body.id})
      case Transmit => rest.(queue := rest.queue + [h.(state := Sent)], wire := o.wire + [h.message])
      case Keep(delay) => rest.(queue := rest.queue + [h.(delay := delay)])
      case Expire => rest
      case TransmitOnce => rest.(wire := o.wire + [h.message])
      case Discard => rest
  }

  /** What the outbox becomes when handle h, taken from the front of the queue, is examined, `before` being the
      rest. An answered request goes, whether it was sent or not, and so does its answer and no other. Any
      other request is sent the first time, and then goes at its tenth visit after that. A greeting is sent
      and goes; anything else just goes. */
  predicate Examined(h: Handle, before: Outbox, after: Outbox) {
    match h.message.body
    case Request(id, _) =>
      if id in before.responses then
        after.queue == before.queue && after.wire == before.wire && after.responses == before.responses - {id}
      else
        && after.responses == before.responses
        && after.wire == before.wire + (if h.state == Ready then [h.message] else [])
        && (h.state == Ready ==> after.queue == before.queue + [Handle(h.message, Sent, h.delay)])
        && (h.state == Sent && h.delay < 9 ==> after.queue == before.queue + [Handle(h.message, Sent, h.delay + 1)])
        && (h.state == Sent && h.delay >= 9 ==> after.queue == before.queue)
    case Greeting(_) =>
      after.queue == before.queue && after.responses == before.responses && after.wire == before.wire + [h.message]
    case _ => after == before
  }

  lemma IterateExamines(o: Outbox)
    ensures o.queue == [] ==> Iterate(o) == o
    ensures o.queue != [] ==> Examined(o.queue[0], o.(queue := o.queue[1..]), Iterate(o))
  {
  }

  function IterateTimes(o: Outbox, n: nat): Outbox {
    if n == 0 then o else Iterate(IterateTimes(o, n - 1))
  }

  /** An unanswered request, alone in the queue, after n visits. */
  function Unanswered(m: Message, responses: map<uint32, InboundResponse>, n: nat): Outbox {
    if n == 0 then Outbox([Handle(m, Ready, 0)], responses, [])
    else if n <= DELAY_BEFORE_DROP then Outbox([Handle(m, Sent, n - 1)], responses, [m])
    else Outbox([], responses, [m])
  }

  lemma UnansweredVisit(m: Message, responses: map<uint32, InboundResponse>, n: nat)
    requires m.body.Request? && m.body.id !in responses
    ensures Iterate(Unanswered(m, responses, n)) == Unanswered(m, responses, n + 1)
  {
    var o := Unanswered(m, responses, n);
    if o.queue != [] {
      assert o.queue[1..] == [];
    }
  }

  /** A request that is never answered is serialized at the first visit only, is still there after
      ten, and is gone after eleven. */
  lemma {:induction false} UnansweredRequestLifetime(m: Message, responses: map<uint32, InboundResponse>, n: nat)
    requires m.body.Request? && m.body.id !in responses
    ensures IterateTimes(Outbox([Handle(m, Ready, 0)], responses, []), n) == Unanswered(m, responses, n)
  {
    if n == 0 {
    } else {
      UnansweredRequestLifetime(m, responses, n - 1);
      UnansweredVisit(m, responses, n - 1);
    }
  }
}
