/** `MessageHandler`: decides what an inbound message is for. */
module MessageHandling {
  import opened Prelude
  import opened Messages
  import opened BytesReceiving
  import opened UserCallbacks
  import opened UserCalls

  /** The response a message carries for the outbound side, if any: only generic responses, bare or
      about a user call, and responses to function calls. */
  function AnswerIn(m: Message): Option<InboundResponse> {
    match m.body
    case Response(id, GenericResponse(status, details)) => Some(InboundResponse(id, status, details))
    case Response(id, UserCallResponse(_, _, GenericReply(status, details))) => Some(InboundResponse(id, status, details))
    case Response(id, UserCallResponse(_, _, FunctionCallReply(status, details))) => Some(InboundResponse(id, status, details))
    case _ => None
  }

  function Route(r: Registry, m: Message, token: nat): Routed
    requires Agree(r)
  {
    if IsUserCall(m) then HandleUserCall(r, m, token)
    else match AnswerIn(m)
      case Some(answer) => AsResponse(answer)
      case None => Nothing
  }

  /** What a message does to the receiver of bytes. */
  function Absorb(receiver: Receiver, m: Message): Outcome {
    match PacketIn(m)
    case Some(packet) => ReceivePacket(receiver, packet)
    case None => Outcome(receiver, [])
  }

  /** The agent id in the answer to a greeting. */
  function GreetedBy(m: Message): Option<uint32> {
    if m.body.Greeting? then Some(m.body.agent) else None
  }

  class MessageHandler {
    const userCalls: UserCallRequestHandler
    const hostApi: HiveMindHostApiRequestHandler

    constructor (userCalls: UserCallRequestHandler, hostApi: HiveMindHostApiRequestHandler)
      ensures this.userCalls == userCalls && this.hostApi == hostApi
    {
      this.userCalls, this.hostApi := userCalls, hostApi;
    }

    method HandleMessage(m: Message, token: nat) returns (routed: Routed)
      requires hostApi.Valid() && Agree(userCalls.callbackMap.Value())
      requires (userCalls.callbackMap as object) !in hostApi.Repr
      modifies hostApi.Repr
      ensures hostApi.Valid() && fresh(hostApi.Repr - old(hostApi.Repr))
      ensures routed == old(Route(userCalls.callbackMap.Value(), m, token))
      ensures routed.AsRequest? || routed.Broken? <==> m.body.Request? && m.body.request.UserCallRequest?
      ensures routed.AsResponse? <==>
        && m.body.Response?
        && (|| m.body.response.GenericResponse?
            || (m.body.response.UserCallResponse?
                && (m.body.response.reply.GenericReply? || m.body.response.reply.FunctionCallReply?)))
      ensures routed.AsResponse? ==> Keeps(routed.response, m)
      ensures
        var outcome := Absorb(old(hostApi.Value()), m);
        hostApi.Value() == outcome.receiver && hostApi.delivered == old(hostApi.delivered) + outcome.deliveries
    {
      RoutingPartition(userCalls.callbackMap.Value(), m, token);
      match m.body {
        case Request(id, request) =>
          match request {
            case UserCallRequest(_, _, _) =>
              routed := userCalls.HandleMessage(m, token);
            case HostRequest(api) =>
              hostApi.HandleMessage(api);
              routed := Nothing;
            case OtherRequest =>
              routed := Nothing;
          }
        case Response(id, response) =>
          match response {
            case GenericResponse(status, details) =>
              routed := AsResponse(InboundResponse(id, status, details));
            case UserCallResponse(_, _, reply) =>
              match reply {
                case GenericReply(status, details) =>
                  routed := AsResponse(InboundResponse(id, status, details));
                case FunctionCallReply(status, details) =>
                  routed := AsResponse(InboundResponse(id, status, details));
                case _ =>
                  routed := Nothing;
              }
            case HostApiResponse(_) =>
              routed := Nothing;
            case OtherResponse =>
              routed := Nothing;
          }
        case Greeting(_) =>
          routed := Nothing;
        case OtherBody =>
          routed := Nothing;
      }
    }

    method HandleGreet(m: Message) returns (agent: Option<uint32>)
      ensures agent == GreetedBy(m)
    {
      if m.body.Greeting? {
        return Some(m.body.agent);
      }
      return None;
    }
  }

  /** Routing is a partition by the shape of the message. Exactly the user-call requests become requests to
      acknowledge, or break. Exactly the generic responses, bare or about a user call, and the responses to
      function calls are stored, with the message's id and the response's status and details. Nothing
      else is either; in particular no host-API response, no reply to a list or description request, and no
      packet ever reaches the outbound side. */
  lemma RoutingPartition(r: Registry, m: Message, token: nat)
    requires Agree(r)
    ensures
      var routed := Route(r, m, token);
      && (m.body.Request? && m.body.request.UserCallRequest? <==> routed.AsRequest? || routed.Broken?)
      && (m.body.Response? && m.body.response.GenericResponse? ==>
           routed == AsResponse(InboundResponse(m.body.id, m.body.response.status, m.body.response.details)))
      && (m.body.Response? && m.body.response.UserCallResponse?
          && (m.body.response.reply.GenericReply? || m.body.response.reply.FunctionCallReply?) ==>
           routed == AsResponse(InboundResponse(m.body.id, m.body.response.reply.status, m.body.response.reply.details)))
      && (routed.AsResponse? ==> IsAnswer(m))
      && (m.body.Response? && m.body.response.HostApiResponse? ==> routed == Nothing)
      && (m.body.Request? && m.body.request.HostRequest? ==> routed == Nothing)
  {
    if IsUserCall(m) {
      UserCallsAreAcknowledged(r, m, token, []);
    }
  }

  /** The kinds of response that answer a request. */
  predicate IsAnswer(m: Message) {
    && m.body.Response?
    && (|| m.body.response.GenericResponse?
        || (m.body.response.UserCallResponse?
            && (m.body.response.reply.GenericReply? || m.body.response.reply.FunctionCallReply?)))
  }

  /** What is kept of a response: its id, status and details. */
  predicate Keeps(answer: InboundResponse, m: Message) {
    && m.body.Response? && answer.id == m.body.id
    && match m.body.response
       case GenericResponse(status, details) => answer.status == status && answer.details == details
       case UserCallResponse(_, _, GenericReply(status, details)) => answer.status == status && answer.details == details
       case UserCallResponse(_, _, FunctionCallReply(status, details)) => answer.status == status && answer.details == details
       case _ => false
  }

  lemma AnswersAreKept(m: Message)
    ensures AnswerIn(m).Some? <==> IsAnswer(m)
    ensures forall answer :: AnswerIn(m) == Some(answer) <==> Keeps(answer, m)
  {
  }

  /** The packets the receiver is given are those of the bytes requests, and nothing else touches it. */
  lemma OnlyPacketsAreAbsorbed(receiver: Receiver, m: Message)
    ensures
      if m.body.Request? && m.body.request.HostRequest? && m.body.request.api.Bytes? then
        && PacketIn(m) == Some(m.body.request.api.packet)
        && Absorb(receiver, m) == ReceivePacket(receiver, m.body.request.api.packet)
      else PacketIn(m) == None && Absorb(receiver, m) == Outcome(receiver, [])
  {
  }
}
