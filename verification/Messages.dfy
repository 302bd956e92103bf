/** The messages exchanged with a HiveMind, with the fields the bridge reads, and the
    constructors of MessageUtils. */
module Messages {
  import opened Prelude

  /** `BytesDTO::PAYLOAD_MAX_SIZE`. Its value belongs to another library; every proof holds for
      any capacity that a `uint8_t` packet size can express. */
  type PacketCapacity = n: int | 0 < n <= 255 witness 200
  const PAYLOAD_MAX_SIZE: PacketCapacity

  /** `FunctionCallRequestDTO::FUNCTION_CALL_ARGUMENTS_MAX_LENGTH`, again any value. */
  const FUNCTION_CALL_ARGUMENTS_MAX_LENGTH: nat

  datatype Target = Unspecified | Buzz | Host
  datatype Status = Ok | BadRequest | Unknown
  datatype ArgumentType = IntArgument | FloatArgument
  datatype ArgumentDescription = ArgumentDescription(name: string, argumentType: ArgumentType)
  datatype Argument = IntValue(i: int) | FloatValue(r: real)

  type Manifest = seq<ArgumentDescription>

  /** A byte array whose length fits the `uint16_t` that travels with it. */
  type Payload = s: seq<byte> | |s| < 0x1_0000 witness []

  /** One packet of a bytes transfer; `data` is the payload up to its declared length. */
  datatype Packet = Packet(id: uint32, number: uint32, last: bool, data: Payload)

  datatype HostApiRequest =
    | Bytes(packet: Packet)
    | GetNeighbor(neighbor: uint16)
    | GetNeighborsList
    | OtherApiRequest

  datatype UserCall =
    | FunctionCall(name: string, arguments: seq<Argument>)
    | FunctionListLength
    | FunctionDescription(index: uint32)
    | OtherUserCall

  datatype RequestBody =
    | UserCallRequest(caller: Target, callee: Target, call: UserCall)
    | HostRequest(api: HostApiRequest)
    | OtherRequest

  datatype UserCallReply =
    | GenericReply(status: Status, details: string)
    | FunctionCallReply(status: Status, details: string)
    | FunctionListLengthReply(length: uint32)
    | FunctionDescriptionReply(name: string, manifest: Manifest)
    | FunctionDescriptionRefused(status: Status, details: string)
    | OtherReply

  datatype ResponseBody =
    | GenericResponse(status: Status, details: string)
    | UserCallResponse(replier: Target, requester: Target, reply: UserCallReply)
    | HostApiResponse(neighbors: seq<uint16>)
    | OtherResponse

  datatype Body =
    | Request(id: uint32, request: RequestBody)
    | Response(id: uint32, response: ResponseBody)
    | Greeting(agent: uint32)
    | OtherBody

  datatype Message = Message(source: uint32, destination: uint32, body: Body)

  /** A message that came back from a user callback, to be wrapped in a function call. */
  datatype CallbackReturn = CallbackReturn(name: string, arguments: seq<Argument>)

  /** `InboundResponseHandle`: what is kept of a response until its request is next examined. */
  datatype InboundResponse = InboundResponse(id: uint32, status: Status, details: string)

  const GREET := Message(0, 0, Greeting(0))

  /** `createBytesMessage`: refuses a payload longer than a packet may carry. */
  function CreateBytesMessage(source: uint32, destination: uint32, requestId: uint32, transfer: uint32,
                              number: uint32, last: bool, data: Payload): Option<Message>
  {
    if |data| > PAYLOAD_MAX_SIZE then None
    else Some(Message(source, destination, Request(requestId, HostRequest(Bytes(Packet(transfer, number, last, data))))))
  }

  /** `createFunctionCallRequest`. */
  function CreateFunctionCallRequest(source: uint32, destination: uint32, requestId: uint32, callee: Target,
                                     name: string, arguments: seq<Argument>): Message
  {
    Message(source, destination, Request(requestId, UserCallRequest(Host, callee, FunctionCall(name, arguments))))
  }

  /** The packet a message carries, if it is a bytes request. */
  function PacketIn(m: Message): Option<Packet> {
    match m.body
    case Request(_, HostRequest(Bytes(p))) => Some(p)
    case _ => None
  }

  predicate IsUserCall(m: Message) {
    m.body.Request? && m.body.request.UserCallRequest?
  }
}
