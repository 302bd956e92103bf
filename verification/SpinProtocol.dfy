/** `spin()`, one atomic step at a time, against the inbound thread, the callbacks that run in the
    background, and the user registering things.

    The message handled at position k of the arrival log gives its number k to the callback it launches
    and to its ack and return: these numbers, and the logs, are history. */
module SpinProtocol {
  import opened Prelude
  import opened Messages
  import opened BytesReceiving
  import opened ReceiverProperties
  import opened UserCallbacks
  import opened UserCalls
  import opened MessageHandling

  /** An entry of `m_inboundRequestsQueue`: the number of the message it answers, and what is needed to
      send a return. */
  datatype Pending = Pending(token: nat, future: Option<nat>, context: Option<CallContext>)

  /** What the spinning thread serializes outside the greeting exchange. */
  datatype Output = Ack(token: nat, message: Message) | Return(token: nat, message: Message)

  datatype Phase =
    | Idle                                               // outside spin()
    | Testing                                            // about to test whether a message arrived
    | Peeking                                            // about to copy and handle the first one
    | Popping(copy: Message, routed: Routed)             // about to pop it
    | Recording(routed: Routed)                          // about to act on what handling produced
    | Scanning(kept: seq<Pending>, rest: seq<Pending>)   // in the loop over the pending requests
    | Beating                                            // about to count the keep-alive
    | Ruined                                             // the registry was read past its end
    | Crashed                                            // front or pop of an empty queue

  datatype State = State(
    period: uint32,
    inbox: seq<Message>,
    phase: Phase,
    registry: Registry,
    receiver: Receiver,
    pending: seq<Pending>,
    finished: map<nat, Option<CallbackReturn>>,          // futures that are ready, and their values
    counter: uint32,
    // History:
    arrived: seq<Message>,
    handled: nat,                                        // messages popped
    launched: set<nat>,                                  // callbacks started
    log: seq<Output>,
    stored: seq<InboundResponse>,                        // responses put in the map
    inputs: seq<Input>,                                  // what the receiver of bytes was given
    delivered: seq<Delivery>,
    beats: nat,                                          // spins that counted the keep-alive
    attempts: nat)                                       // keep-alive greetings attempted

  datatype Event =
    | Arrive(message: Message)                           // by the inbound thread
    | Complete(token: nat, result: Option<CallbackReturn>)
    | RegisterAction(name: string, wrapper: Wrapper)
    | OnBytes(valid: bool)
    | Spin(connected: bool)                              // spin() is entered and tests the connection
    | Work(requestId: uint32)                            // the next step of spin()

  function Start(period: uint32): State {
    State(period, [], Idle, EMPTY, Receiver(false, map[]), [], map[], 0, [], 0, {}, [], [], [], [], 0, 0)
  }

  ghost predicate Enabled(s: State, e: Event) {
    match e
    case Complete(token, _) => token in s.launched && token !in s.finished
    case Spin(_) => s.phase == Idle
    case Work(_) => s.phase != Idle && s.phase != Ruined && s.phase != Crashed
    case _ => true
  }

  /** What `sendReturn` serializes for a finished call: nothing without a value or with too many
      arguments; otherwise a call back to where the request came from. */
  function ReturnFor(context: CallContext, requestId: uint32, result: Option<CallbackReturn>): Option<Message> {
    match result
    case None => None
    case Some(value) =>
      if |value.arguments| > FUNCTION_CALL_ARGUMENTS_MAX_LENGTH then None
      else Some(CreateFunctionCallRequest(context.destination, context.source, requestId, context.caller,
                                          value.name, value.arguments))
  }

  /** The keep-alive counter of one spin: its next value, and whether a greeting is attempted. */
  function Beat(counter: uint32, period: uint32): (uint32, bool)
  {
    if period == 0 then (counter, false)
    else if counter >= period then (1, true)
    else (counter + 1, false)
  }

  function Next(s: State, e: Event): State
    requires Agree(s.registry)
  {
    match e
    case Arrive(m) => s.(inbox := s.inbox + [m], arrived := s.arrived + [m])
    case Complete(token, result) => s.(finished := s.finished[token := result])
    case RegisterAction(name, wrapper) => s.(registry := Register(s.registry, name, wrapper))
    case OnBytes(valid) =>
      s.(receiver := s.receiver.(callbackSet := valid), inputs := s.inputs + [SetCallback(valid)])
    case Spin(connected) => s.(phase := if connected then Testing else Beating)
    case Work(requestId) => Advance(s, requestId)
  }

  function Advance(s: State, requestId: uint32): State
    requires Agree(s.registry)
  {
    match s.phase
    case Testing => s.(phase := if s.inbox == [] then Scanning([], s.pending) else Peeking)
    case Peeking => Handle(s)
    case Popping(_, routed) =>
      if s.inbox == [] then s.(phase := Crashed)
      else s.(phase := Recording(routed), inbox := s.inbox[1..], handled := s.handled + 1)
    case Recording(routed) => Record(s, routed)
    case Scanning(kept, rest) => Scan(s, kept, rest, requestId)
    case Beating =>
      var (counter, attempt) := Beat(s.counter, s.period);
      s.(phase := Idle, counter := counter, beats := s.beats + 1, attempts := s.attempts + (if attempt then 1 else 0))
    case _ => s
  }

  function Handle(s: State): State
    requires Agree(s.registry)
  {
    if s.inbox == [] then s.(phase := Crashed)
    else
      var m := s.inbox[0];
      var routed := Route(s.registry, m, s.handled);
      if routed.Broken? then s.(phase := Ruined)
      else
        var outcome := Absorb(s.receiver, m);
        s.(phase := Popping(m, routed),
           receiver := outcome.receiver,
           delivered := s.delivered + outcome.deliveries,
           inputs := s.inputs + InputsIn(m),
           launched := if routed.AsRequest? && routed.handle.future.Some? then s.launched + {s.handled} else s.launched)
  }

  function InputsIn(m: Message): seq<Input> {
    match PacketIn(m)
    case Some(packet) => [Arrives(packet)]
    case None => []
  }

  function Record(s: State, routed: Routed): State {
    match routed
    case AsRequest(h) =>
      var token := if s.handled > 0 then s.handled - 1 else 0;
      var pending := s.pending + [Pending(token, h.future, h.context)];
      s.(pending := pending, log := s.log + [Ack(token, h.response)], phase := Scanning([], pending))
    case AsResponse(r) => s.(stored := s.stored + [r], phase := Scanning([], s.pending))
    case _ => s.(phase := Scanning([], s.pending))
  }

  /** Whether the loop leaves a pending request where it is. */
  predicate StillRuns(future: Option<nat>, finished: map<nat, Option<CallbackReturn>>) {
    future.Some? && future.value !in finished
  }

  /** What the loop sends for a pending request. */
  function DueReturn(future: Option<nat>, context: Option<CallContext>, finished: map<nat, Option<CallbackReturn>>,
                     requestId: uint32): Option<Message>
  {
    if future.Some? && future.value in finished && context.Some? then
      ReturnFor(context.value, requestId, finished[future.value])
    else None
  }

  function ReturnOf(p: Pending, finished: map<nat, Option<CallbackReturn>>, requestId: uint32): seq<Output> {
    match DueReturn(p.future, p.context, finished, requestId)
    case Some(m) => [Return(p.token, m)]
    case None => []
  }

  function Scan(s: State, kept: seq<Pending>, rest: seq<Pending>, requestId: uint32): State {
    if rest == [] then s.(pending := kept, phase := Beating)
    else if StillRuns(rest[0].future, s.finished) then s.(phase := Scanning(kept + [rest[0]], rest[1..]))
    else s.(phase := Scanning(kept, rest[1..]), log := s.log + ReturnOf(rest[0], s.finished, requestId))
  }

  /** The state after the first k events. */
  ghost function After(period: uint32, es: seq<Event>, k: nat): (s: State)
    requires k <= |es|
    ensures Agree(s.registry)
  {
    if k == 0 then Start(period)
    else
      var s := After(period, es, k - 1);
      RegistryStaysInAgreement(s, es[k - 1]);
      Next(s, es[k - 1])
  }

  lemma RegistryStaysInAgreement(s: State, e: Event)
    requires Agree(s.registry)
    ensures Agree(Next(s, e).registry)
  {
    if e.RegisterAction? {
      NamesAreStable(s.registry, [Registration(e.name, e.wrapper)]);
      assert RegisterAll(s.registry, [Registration(e.name, e.wrapper)][..0]) == s.registry;
    }
  }

  ghost predicate Legal(period: uint32, es: seq<Event>) {
    forall k :: 0 <= k < |es| ==> Enabled(After(period, es, k), es[k])
  }
}
