/** `UserCallRequestHandler`: answers a user-call request and launches the callback it names. */
module UserCalls {
  import opened Prelude
  import opened Messages
  import opened UserCallbacks

  /** Who a function call came from. The handle's fields for it are only set for function calls. */
  datatype CallContext = CallContext(source: uint32, destination: uint32, caller: Target)

  /** `InboundRequestHandle`: the ack to send, and the future of the callback launched, if one was. */
  datatype InboundRequest = InboundRequest(response: Message, future: Option<nat>, context: Option<CallContext>)

  /** What handling an inbound message produces. */
  datatype Routed =
    | Nothing
    | AsRequest(handle: InboundRequest)
    | AsResponse(response: InboundResponse)
    | Broken                                // the registry was read past its end

  /** The reply to a user call; None when the registry is read past its end. */
  function Reply(r: Registry, call: UserCall): Option<UserCallReply>
    requires Agree(r)
  {
    match call
    case FunctionListLength => Some(FunctionListLengthReply(|r.names| % UINT32_LIMIT))
    case FunctionDescription(index) =>
      (match ManifestAt(r, index)
       case Present(manifest) => Some(FunctionDescriptionReply(r.names[index], manifest))
       case Absent => Some(FunctionDescriptionRefused(BadRequest, "Index out of bounds."))
       case Undefined => None)
    case FunctionCall(name, _) =>
      Some(if name in r.callbacks then FunctionCallReply(Ok, "") else FunctionCallReply(BadRequest, "Unknown function."))
    case OtherUserCall => Some(GenericReply(Unknown, "Unknown UserCallRequest"))
  }

  /** Whether a user call starts a callback. */
  predicate Launches(r: Registry, call: UserCall) {
    call.FunctionCall? && call.name in r.callbacks
  }

  /** The handle for a user call; `token` names the future of the callback, should one be launched. */
  function HandleUserCall(r: Registry, m: Message, token: nat): Routed
    requires Agree(r) && IsUserCall(m)
  {
    var request := m.body.request;
    match Reply(r, request.call)
    case None => Broken
    case Some(reply) =>
      AsRequest(InboundRequest(
        Message(m.destination, m.source, Response(m.body.id, UserCallResponse(Host, request.caller, reply))),
        if Launches(r, request.call) then Some(token) else None,
        if request.call.FunctionCall? then Some(CallContext(m.source, m.destination, request.caller)) else None))
  }

  class UserCallRequestHandler {
    const callbackMap: UserCallbackMap

    constructor (callbackMap: UserCallbackMap)
      ensures this.callbackMap == callbackMap
    {
      this.callbackMap := callbackMap;
    }

    // `token` stands for the shared future that `std::async` would return.
    method HandleMessage(m: Message, token: nat) returns (routed: Routed)
      requires Agree(callbackMap.Value()) && IsUserCall(m)
      ensures routed == HandleUserCall(callbackMap.Value(), m, token)
    {
      var future := None;
      var context := None;
      var reply;
      match m.body.request.call {
        case FunctionListLength =>
          var length := callbackMap.GetLength();
          reply := FunctionListLengthReply(length);
        case FunctionDescription(index) =>
          var described := HandleFunctionDescriptionRequest(index);
          if described.None? {
            return Broken;
          }
          reply := described.value;
        case FunctionCall(name, arguments) =>
          reply, future := HandleFunctionCallRequest(name, token);
          context := Some(CallContext(m.source, m.destination, m.body.request.caller));
        case OtherUserCall =>
          reply := GenericReply(Unknown, "Unknown UserCallRequest");
      }
      var response := Response(m.body.id, UserCallResponse(Host, m.body.request.caller, reply));
      return AsRequest(InboundRequest(Message(m.destination, m.source, response), future, context));
    }

    method HandleFunctionDescriptionRequest(index: uint32) returns (reply: Option<UserCallReply>)
      requires Agree(callbackMap.Value())
      ensures reply == Reply(callbackMap.Value(), FunctionDescription(index))
    {
      var found := callbackMap.GetManifestAt(index);
      match found {
        case Present(manifest) =>
          var name := callbackMap.GetNameAt(index);
          var arguments: Manifest := [];
          var i := 0;
          while i < |manifest|
            invariant 0 <= i <= |manifest|
            invariant arguments == manifest[..i]
          {
            arguments := arguments + [ArgumentDescription(manifest[i].name, manifest[i].argumentType)];
            i := i + 1;
          }
          assert manifest[..|manifest|] == manifest;
          return Some(FunctionDescriptionReply(name.value, arguments));
        case Absent =>
          return Some(FunctionDescriptionRefused(BadRequest, "Index out of bounds."));
        case Undefined =>
          return None;
      }
    }

    method HandleFunctionCallRequest(name: string, token: nat) returns (reply: UserCallReply, future: Option<nat>)
      ensures name in callbackMap.callbacks ==> reply == FunctionCallReply(Ok, "") && future == Some(token)
      ensures name !in callbackMap.callbacks ==> reply == FunctionCallReply(BadRequest, "Unknown function.") && future == None
    {
      var callback := callbackMap.GetCallback(name);
      if callback.Some? {
        return FunctionCallReply(Ok, ""), Some(token);
      }
      return FunctionCallReply(BadRequest, "Unknown function."), None;
    }
  }

  /** The ack of a user call goes back where the request came from: its id, its ends swapped, to the
      module that asked. */
  ghost predicate Acknowledges(ack: Message, m: Message) {
    && IsUserCall(m)
    && ack.source == m.destination && ack.destination == m.source
    && ack.body.Response? && ack.body.id == m.body.id
    && ack.body.response.UserCallResponse?
    && ack.body.response.replier == Host && ack.body.response.requester == m.body.request.caller
  }

  /** Every user call is acknowledged, except the description request for the index just past the end.
      A callback is launched exactly when the ack says Ok, and then its name stays registered whatever
      is registered before the callback is looked up again. */
  lemma UserCallsAreAcknowledged(r: Registry, m: Message, token: nat, later: seq<Registration>)
    requires Agree(r) && IsUserCall(m)
    ensures
      var call := m.body.request.call;
      var routed := HandleUserCall(r, m, token);
      && (routed.Broken? <==> call.FunctionDescription? && call.index == |r.names|)
      && (!routed.Broken? ==> routed.AsRequest? && Acknowledges(routed.handle.response, m))
      && (routed.AsRequest? ==>
           var reply := routed.handle.response.body.response.reply;
           && (routed.handle.future.Some? <==> reply == FunctionCallReply(Ok, ""))
           && (routed.handle.future.Some? ==> routed.handle.future == Some(token) && routed.handle.context.Some?)
           && (routed.handle.future.Some? ==> call.name in RegisterAll(r, later).callbacks))
  {
    NamesAreStable(r, later);
    if m.body.request.call.FunctionDescription? {
      UndefinedExactlyPastTheEnd(r, m.body.request.call.index);
    }
  }

  /** What a remote caller learns by asking, after any registrations: the length is the number of names
      ever registered; each description below it is the next name in order of first registration, with
      its latest manifest; one above it is refused; a call is accepted exactly when its name has been
      registered. */
  lemma {:induction false} RemoteEnumerationIsComplete(rs: seq<Registration>, m: Message, token: nat)
    requires IsUserCall(m) && |RegisterAll(EMPTY, rs).names| < UINT32_LIMIT
    ensures Agree(RegisterAll(EMPTY, rs)) && RegisterAll(EMPTY, rs).names == FirstOccurrences(rs)
    ensures
      var listed := FirstOccurrences(rs);
      var routed := HandleUserCall(RegisterAll(EMPTY, rs), m, token);
      match m.body.request.call
      case FunctionListLength => Replies(routed, FunctionListLengthReply(|listed|))
      case FunctionDescription(i) =>
        && (i < |listed| ==>
             && Latest(rs, listed[i]).Some?
             && Replies(routed, FunctionDescriptionReply(listed[i], Latest(rs, listed[i]).value.manifest)))
        && (i > |listed| ==> Replies(routed, FunctionDescriptionRefused(BadRequest, "Index out of bounds.")))
      case FunctionCall(name, _) =>
        Replies(routed, if Latest(rs, name).Some? then FunctionCallReply(Ok, "")
                        else FunctionCallReply(BadRequest, "Unknown function."))
      case OtherUserCall => Replies(routed, GenericReply(Unknown, "Unknown UserCallRequest"))
  {
    RegistryRefinesRegistrations(rs);
    EnumerationIsComplete(rs);
    var r := RegisterAll(EMPTY, rs);
    match m.body.request.call
    case FunctionDescription(i) =>
      UndefinedExactlyPastTheEnd(r, i);
      if i < |r.names| {
        assert Describes(r, i, r.names[i], Latest(rs, r.names[i]).value.manifest);
      }
    case _ =>
  }

  predicate Replies(routed: Routed, reply: UserCallReply) {
    && routed.AsRequest?
    && routed.handle.response.body.Response? && routed.handle.response.body.response.UserCallResponse?
    && routed.handle.response.body.response.reply == reply
  }
}
