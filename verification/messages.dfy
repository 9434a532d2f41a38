/**
  Inbound message routing and the initial find-node request of the session.

  Header deserialization is outside this model: its outcome is an input,
  `None` when the header failed to decode, otherwise the header and the
  bytes that follow it. The request handlers are invoked, not executed:
  routing produces the list of handler calls it makes.
 */
module Messages {
  import opened Wrappers
  import opened Errors
  import opened Subnets

  type Id = nat
  type Byte = x: int | 0 <= x < 256

  datatype Version = V1

  datatype MessageType =
    | PingRequest | PingResponse
    | StoreRequest | StoreResponse
    | FindNodeRequest | FindNodeResponse
    | FindValueRequest | FindValueResponse

  datatype Header = Header(version: Version, kind: MessageType, senderId: Id, requestId: Id)

  /** A successfully decoded header and the rest of the datagram. */
  datatype Decoded = Decoded(header: Header, body: seq<Byte>)

  /** The calls `handle_new_message` can make. */
  datatype Call =
    | HandlePing(subnet: Family, sender: Endpoint, header: Header)
    | HandleStore(subnet: Family, sender: Endpoint, header: Header, body: seq<Byte>)
    | HandleFindNode(subnet: Family, sender: Endpoint, header: Header, body: seq<Byte>)
    | HandleFindValue(subnet: Family, sender: Endpoint, header: Header, body: seq<Byte>)
    | DispatchResponse(header: Header, body: seq<Byte>)

  /** The four request types served locally. */
  predicate IsRequest(k: MessageType) {
    k in {PingRequest, StoreRequest, FindNodeRequest, FindValueRequest}
  }

  /** The local handler that serves request type `k`. */
  predicate Serves(c: Call, k: MessageType) {
    || (c.HandlePing? && k == PingRequest)
    || (c.HandleStore? && k == StoreRequest)
    || (c.HandleFindNode? && k == FindNodeRequest)
    || (c.HandleFindValue? && k == FindValueRequest)
  }

  /**
    `handle_new_message`: an undecodable header drops the datagram; each request
    type goes to its own handler; every other type goes to the response
    dispatcher. Exactly one call is made for a decoded header, and it receives
    that header; a request handler also receives the subnet and the sender the
    datagram came from, where its reply goes.
   */
  function HandleNewMessage(subnet: Family, sender: Endpoint, decoded: Option<Decoded>): (calls: seq<Call>)
    ensures decoded.None? ==> calls == []
    ensures decoded.Some? ==> |calls| == 1 && calls[0].header == decoded.value.header
    ensures decoded.Some? && IsRequest(decoded.value.header.kind) ==> Serves(calls[0], decoded.value.header.kind)
    ensures decoded.Some? ==> (calls[0].DispatchResponse? <==> !IsRequest(decoded.value.header.kind))
    ensures decoded.Some? && !calls[0].HandlePing? ==> calls[0].body == decoded.value.body
    ensures decoded.Some? && !calls[0].DispatchResponse? ==> calls[0].subnet == subnet && calls[0].sender == sender
  {
    match decoded
    case None => []
    case Some(Decoded(h, body)) =>
      match h.kind
      case PingRequest => [HandlePing(subnet, sender, h)]
      case StoreRequest => [HandleStore(subnet, sender, h, body)]
      case FindNodeRequest => [HandleFindNode(subnet, sender, h, body)]
      case FindValueRequest => [HandleFindValue(subnet, sender, h, body)]
      case _ => [DispatchResponse(h, body)]
  }

  /** The number of calls in `calls` that go to the response dispatcher. */
  function DispatchCount(calls: seq<Call>): nat {
    if |calls| == 0 then 0
    else (if calls[0].DispatchResponse? then 1 else 0) + DispatchCount(calls[1..])
  }

  /** A decoded response reaches the dispatcher exactly once; anything else never does. */
  lemma DispatchedExactlyOnce(subnet: Family, sender: Endpoint, decoded: Option<Decoded>)
    ensures var n := DispatchCount(HandleNewMessage(subnet, sender, decoded));
      n == if decoded.Some? && !IsRequest(decoded.value.header.kind) then 1 else 0
  {
    var calls := HandleNewMessage(subnet, sender, decoded);
    if decoded.Some? {
      assert calls[1..] == [];
    }
  }

  /** The body of a find-node request: the identifier looked up. */
  datatype FindNodeRequestBody = FindNodeRequestBody(target: Id)

  datatype Message = Message(header: Header, body: FindNodeRequestBody)

  /**
    `generate_initial_request`: a version-1 find-node request from this node,
    tagged with `requestId`, that looks up this node's own identifier.
   */
  function GenerateInitialRequest(myId: Id, requestId: Id): (m: Message)
    ensures m.header.version == V1
    ensures m.header.kind == FindNodeRequest
    ensures m.header.senderId == myId && m.body.target == myId
    ensures m.header.requestId == requestId
  {
    Message(Header(V1, FindNodeRequest, myId, requestId), FindNodeRequestBody(myId))
  }

  /** A peer that decodes the initial request hands it to its find-node handler. */
  lemma InitialRequestReachesFindNode(myId: Id, requestId: Id, subnet: Family, sender: Endpoint, rest: seq<Byte>)
    ensures var m := GenerateInitialRequest(myId, requestId);
      var calls := HandleNewMessage(subnet, sender, Some(Decoded(m.header, rest)));
      |calls| == 1 && calls[0].HandleFindNode? && calls[0].header.requestId == requestId
  {
  }

  /** How long the dispatcher waits for the answer to the initial request, in milliseconds. */
  const InitialContactReceiveTimeout: nat := 1000

  /** A datagram handed to a subnet for sending. */
  datatype Outgoing = Outgoing(subnet: Family, to: Endpoint, message: Message)

  /** A response awaited by the dispatcher, with its timeout in milliseconds. */
  datatype Association = Association(requestId: Id, timeout: nat)

  /** What sending the initial request produces. */
  datatype Sent = Sent(status: ErrorCode, outgoing: Option<Outgoing>, awaited: Option<Association>)

  /**
    `send_initial_request` as written: the address-family check builds an error
    code and discards it, so the request is always associated, always sent and
    always reported successful, even to a peer of the other family.
   */
  function SendInitialRequestAsWritten(to: Endpoint, subnet: Family, myId: Id, requestId: Id): (s: Sent)
    ensures s.status == NoError
    ensures s.outgoing == Some(Outgoing(subnet, to, GenerateInitialRequest(myId, requestId)))
    ensures s.awaited == Some(Association(requestId, InitialContactReceiveTimeout))
  {
    var _ := if FamilyOf(to) != subnet then AddressFamilyNotSupported else NoError;
    Sent(NoError, Some(Outgoing(subnet, to, GenerateInitialRequest(myId, requestId))),
         Some(Association(requestId, InitialContactReceiveTimeout)))
  }

  /** An IPv4 peer tried from the IPv6 subnet is sent the request and reported as success. */
  lemma AsWrittenSendsAcrossFamilies()
    ensures var s := SendInitialRequestAsWritten(V4(0x7f000001, 27980), Ipv6, 1, 2);
      s.status == NoError && s.outgoing.Some? && FamilyOf(s.outgoing.value.to) != s.outgoing.value.subnet
  {
  }

  /**
    `send_initial_request` with the evidently intended early return: a peer of
    the other family is refused with `address_family_not_supported` before
    anything is associated or sent.
   */
  function SendInitialRequest(to: Endpoint, subnet: Family, myId: Id, requestId: Id): (s: Sent)
    ensures s.status == NoError <==> FamilyOf(to) == subnet
    ensures s.status != NoError ==> s.status == AddressFamilyNotSupported
    ensures s.outgoing.Some? <==> s.status == NoError
    ensures s.awaited.Some? <==> s.status == NoError
    ensures s.outgoing.Some? ==> FamilyOf(s.outgoing.value.to) == s.outgoing.value.subnet
  {
    if FamilyOf(to) != subnet then Sent(AddressFamilyNotSupported, None, None)
    else SendInitialRequestAsWritten(to, subnet, myId, requestId)
  }

  /** The corrected send agrees with the written one whenever the families match. */
  lemma SendAgreesOnMatchingFamily(to: Endpoint, subnet: Family, myId: Id, requestId: Id)
    requires FamilyOf(to) == subnet
    ensures SendInitialRequest(to, subnet, myId, requestId) == SendInitialRequestAsWritten(to, subnet, myId, requestId)
  {
  }
}
