/** What a service method hands to callMethod, the casts the services apply
    to its answer, and the call itself. */
module Requests {
  import opened Common
  import opened Sessions
  import opened Clients

  /** The session callMethod receives: none, the service's own, or one passed
      to the service method. */
  datatype SessionUse = NoSession | ServiceSession | GivenSession

  /** One callMethod invocation. */
  datatype Request = Request(methodName: string, params: Params, session: SessionUse)

  /** (bool) of callMethod's answer; an exception propagates. */
  function AsBool(response: Result<Json>): (r: Result<bool>)
    ensures r.Err? <==> response.Err?
    ensures r.Err? ==> r.error == response.error
    ensures r.Ok? ==> (r.value <==> Truthy(response.value))
  {
    match response
    case Err(e) => Err(e)
    case Ok(j) => Ok(Truthy(j))
  }

  /** (int) of callMethod's answer; an exception propagates. */
  function AsInt(response: Result<Json>): (r: Result<int>)
    ensures r.Err? <==> response.Err?
    ensures r.Err? ==> r.error == response.error
    ensures r.Ok? && response.value.Num? ==> r.value == response.value.n
    ensures r.Ok? && response.value.Null? ==> r.value == 0
    ensures r.Ok? ==> r.value == JsonToInt(response.value)
  {
    match response
    case Err(e) => Err(e)
    case Ok(j) => Ok(JsonToInt(j))
  }

  /** The session object the request is sent with. */
  function SessionFor(use: SessionUse, own: Session?, given: Session?): (s: Session?)
    ensures use.NoSession? ==> s == null
    ensures use.ServiceSession? ==> s == own
    ensures use.GivenSession? ==> s == given
  {
    match use
    case NoSession => null
    case ServiceSession => own
    case GivenSession => given
  }

  /** What the transport makes of the prepared parameters of a built request. */
  ghost function SentFor(client: Client, req: Request, own: Session?, given: Session?,
                         transport: Params -> Transport, digest: string -> string): Transport
    reads own, given
  {
    client.Sent(req.methodName, req.params, SessionFor(req.session, own, given), transport, digest)
  }

  /** callMethod's answer to a built request: what the transport makes of the
      prepared parameters, then what callMethod makes of its reply. */
  ghost function Answer(client: Client, req: Request, own: Session?, given: Session?,
                        transport: Params -> Transport, digest: string -> string, decode: string -> Json)
    : Result<Json>
    reads own, given
  {
    CallOutcome(SentFor(client, req, own, given, transport, digest), decode)
  }

  /** The client's state after callMethod sent a request that ended in t: the
      errors are reset and then set as the transport outcome leaves them; a
      parsed response becomes lastResponse, and without one lastResponse is
      what it was. */
  twostate predicate CalledState(client: Client, t: Transport, decode: string -> Json)
    reads client, client.lastResponse
  {
    && client.lastError == ErrorsAfter(t, None, -1).0
    && client.lastErrorCode == ErrorsAfter(t, None, -1).1
    && (Received(t, decode).Ok? ==>
          client.lastResponse != null && fresh(client.lastResponse) && client.lastResponse.Valid() &&
          (client.lastResponse.State(), client.lastResponse.body) == Received(t, decode).value)
    && (Received(t, decode).Err? ==> client.lastResponse == old(client.lastResponse))
  }

  /** The client's callMethod for a built request, with its session. */
  method Perform(client: Client, req: Request, own: Session?, given: Session?,
                 transport: Params -> Transport, digest: string -> string, decode: string -> Json)
    returns (r: Result<Json>)
    requires !EmptyText(req.methodName)
    modifies client`lastError, client`lastErrorCode, client`lastResponse
    ensures r == old(Answer(client, req, own, given, transport, digest, decode))
    ensures CalledState(client, old(SentFor(client, req, own, given, transport, digest)), decode)
  {
    r := client.CallMethod(req.methodName, req.params, SessionFor(req.session, own, given), transport, digest, decode);
  }

  /** A service method whose answer is cast to bool: a refused argument is
      raised before anything is sent, so nothing changes; otherwise the
      answer to the request goes through AsBool. */
  method PerformBool(client: Client, req: Result<Request>, own: Session?, given: Session?,
                     transport: Params -> Transport, digest: string -> string, decode: string -> Json)
    returns (r: Result<bool>)
    requires req.Ok? ==> !EmptyText(req.value.methodName)
    modifies client`lastError, client`lastErrorCode, client`lastResponse
    ensures req.Err? ==> r == Err(req.error) && unchanged(client)
    ensures req.Ok? ==> r == AsBool(old(Answer(client, req.value, own, given, transport, digest, decode)))
    ensures req.Ok? ==> CalledState(client, old(SentFor(client, req.value, own, given, transport, digest)), decode)
  {
    if req.Err? {
      return Err(req.error);
    }
    var answer := Perform(client, req.value, own, given, transport, digest, decode);
    r := AsBool(answer);
  }

  /** A service method whose answer is cast to int: the answer to the
      request goes through AsInt. */
  method PerformInt(client: Client, req: Request, own: Session?, given: Session?,
                    transport: Params -> Transport, digest: string -> string, decode: string -> Json)
    returns (r: Result<int>)
    requires !EmptyText(req.methodName)
    modifies client`lastError, client`lastErrorCode, client`lastResponse
    ensures r == AsInt(old(Answer(client, req, own, given, transport, digest, decode)))
    ensures CalledState(client, old(SentFor(client, req, own, given, transport, digest)), decode)
  {
    var answer := Perform(client, req, own, given, transport, digest, decode);
    r := AsInt(answer);
  }
}
