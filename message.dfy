/** KWICK_Service_Message: argument checks and the requests of the message
    service; every call goes out with the service's session. Numeric
    arguments are Option<int>, None standing for a value is_numeric refuses. */
module MessageService {
  import opened Common
  import opened Sessions
  import opened Requests

  /** getStats(). */
  function GetStats(): (r: Request)
    ensures r.methodName == "message.getStats" && r.params == map[] && r.session == ServiceSession
  {
    Request("message.getStats", map[], ServiceSession)
  }

  /** get(page): a negative page asks for page -1, which is also the default. */
  function Get(page: Option<int> := Some(-1)): (r: Result<Request>)
    ensures r.Err? <==> page.None?
    ensures r.Err? ==> r.error == InvalidArgument("Invalid page number specified")
    ensures r.Ok? ==> r.value.methodName == "message.get" && r.value.session == ServiceSession
    ensures r.Ok? ==> r.value.params.Keys == {"page"}
    ensures r.Ok? && page.value >= 0 ==> r.value.params["page"] == VInt(page.value)
    ensures r.Ok? && page.value < 0 ==> r.value.params["page"] == VInt(-1)
  {
    match page
    case None => Err(InvalidArgument("Invalid page number specified"))
    case Some(p) => Ok(Request("message.get", map["page" := VInt(if p < 0 then -1 else p)], ServiceSession))
  }

  /** get's check of the answer: anything but an array is refused. */
  function GetResult(response: Result<Json>): (r: Result<Json>)
    ensures r.Ok? <==> response.Ok? && IsArray(response.value)
    ensures r.Ok? ==> r.value == response.value
    ensures response.Err? ==> r == response
    ensures response.Ok? && !IsArray(response.value) ==> r == Err(Local("Invalid response received", 1))
  {
    match response
    case Err(e) => Err(e)
    case Ok(j) => if IsArray(j) then Ok(j) else Err(Local("Invalid response received", 1))
  }

  /** The shared checks of receive and delete: partner first, then channel. */
  function PartnerChannel(methodName: string, partner: Option<int>, channel: Option<int>): (r: Result<Request>)
    ensures r.Err? <==> partner.None? || partner.value < 1 || channel.None? || channel.value < 0
    ensures partner.None? || partner.value < 1 ==>
      r == Err(InvalidArgument("Invalid user id for partner specified"))
    ensures partner.Some? && partner.value >= 1 && (channel.None? || channel.value < 0) ==>
      r == Err(InvalidArgument("Invalid channel specified"))
    ensures r.Ok? ==> r.value.methodName == methodName && r.value.session == ServiceSession
    ensures r.Ok? ==> r.value.params.Keys == {"partner_id", "channel"}
    ensures r.Ok? ==>
      r.value.params["partner_id"] == VInt(partner.value) && r.value.params["channel"] == VInt(channel.value)
  {
    if partner.None? || partner.value < 1 then Err(InvalidArgument("Invalid user id for partner specified"))
    else if channel.None? || channel.value < 0 then Err(InvalidArgument("Invalid channel specified"))
    else Ok(Request(methodName, map["partner_id" := VInt(partner.value), "channel" := VInt(channel.value)],
                    ServiceSession))
  }

  /** receive(partner, channel), channel 0 by default. */
  function Receive(partner: Option<int>, channel: Option<int> := Some(0)): (r: Result<Request>)
    ensures r == PartnerChannel("message.receive", partner, channel)
    ensures r.Ok? ==> r.value.methodName == "message.receive"
  {
    PartnerChannel("message.receive", partner, channel)
  }

  /** delete(partner, channel), channel 0 by default; CallDelete casts the
      answer to bool. */
  function Delete(partner: Option<int>, channel: Option<int> := Some(0)): (r: Result<Request>)
    ensures r == PartnerChannel("message.delete", partner, channel)
    ensures r.Ok? ==> r.value.methodName == "message.delete"
  {
    PartnerChannel("message.delete", partner, channel)
  }

  /** send(receipient, text, channel, isAnswer): channel 0 and isAnswer false
      by default; isAnswer is None when it is not a bool. CallSend casts the
      answer to bool. */
  function Send(receipient: Option<int>, text: string, channel: Option<int> := Some(0),
                isAnswer: Option<bool> := Some(false))
    : (r: Result<Request>)
    ensures r.Err? <==>
      receipient.None? || receipient.value < 1 || EmptyText(text) ||
      channel.None? || channel.value < 0 || isAnswer.None?
    ensures r.Err? ==> r.error.InvalidArgument?
    ensures receipient.None? || receipient.value < 1 ==>
      r == Err(InvalidArgument("Invalid user id specified for receipient"))
    ensures receipient.Some? && receipient.value >= 1 && EmptyText(text) ==>
      r == Err(InvalidArgument("Invalid messages text specified"))
    ensures receipient.Some? && receipient.value >= 1 && !EmptyText(text) && (channel.None? || channel.value < 0) ==>
      r == Err(InvalidArgument("Invalid channel number specified"))
    ensures (receipient.Some? && receipient.value >= 1 && !EmptyText(text) && channel.Some? && channel.value >= 0 &&
             isAnswer.None?) ==> r == Err(InvalidArgument("Invalid value specified for isAnswer"))
    ensures r.Ok? ==> r.value.methodName == "message.send" && r.value.session == ServiceSession
    ensures r.Ok? ==> r.value.params.Keys == {"receipient", "message", "channel", "is_answer"}
    ensures r.Ok? ==>
      && r.value.params["receipient"] == VInt(receipient.value)
      && r.value.params["message"] == VStr(text)
      && r.value.params["channel"] == VInt(channel.value)
      && r.value.params["is_answer"] == VBool(isAnswer.value)
  {
    if receipient.None? || receipient.value < 1 then Err(InvalidArgument("Invalid user id specified for receipient"))
    else if EmptyText(text) then Err(InvalidArgument("Invalid messages text specified"))
    else if channel.None? || channel.value < 0 then Err(InvalidArgument("Invalid channel number specified"))
    else if isAnswer.None? then Err(InvalidArgument("Invalid value specified for isAnswer"))
    else Ok(Request("message.send",
                    map["receipient" := VInt(receipient.value), "message" := VStr(text),
                        "channel" := VInt(channel.value), "is_answer" := VBool(isAnswer.value)],
                    ServiceSession))
  }

  /** send as a whole: the checks, the call with the service's session, and
      the (bool) cast of the answer. */
  method CallSend(client: Clients.Client, own: Session, transport: Params -> Clients.Transport, digest: string -> string, decode: string -> Json,
                  receipient: Option<int>, text: string, channel: Option<int> := Some(0),
                  isAnswer: Option<bool> := Some(false))
    returns (r: Result<bool>)
    modifies client`lastError, client`lastErrorCode, client`lastResponse
    ensures Send(receipient, text, channel, isAnswer).Err? ==>
      r == Err(Send(receipient, text, channel, isAnswer).error) && unchanged(client)
    ensures Send(receipient, text, channel, isAnswer).Ok? ==>
      r == AsBool(old(Answer(client, Send(receipient, text, channel, isAnswer).value, own, null,
                             transport, digest, decode)))
    ensures Send(receipient, text, channel, isAnswer).Ok? ==>
      CalledState(client, old(SentFor(client, Send(receipient, text, channel, isAnswer).value, own, null,
                                      transport, digest)), decode)
  {
    r := PerformBool(client, Send(receipient, text, channel, isAnswer), own, null, transport, digest, decode);
  }

  /** delete as a whole: the checks, the call with the service's session, and
      the (bool) cast of the answer. */
  method CallDelete(client: Clients.Client, own: Session, transport: Params -> Clients.Transport, digest: string -> string, decode: string -> Json,
                    partner: Option<int>, channel: Option<int> := Some(0))
    returns (r: Result<bool>)
    modifies client`lastError, client`lastErrorCode, client`lastResponse
    ensures Delete(partner, channel).Err? ==> r == Err(Delete(partner, channel).error) && unchanged(client)
    ensures Delete(partner, channel).Ok? ==>
      r == AsBool(old(Answer(client, Delete(partner, channel).value, own, null, transport, digest, decode)))
    ensures Delete(partner, channel).Ok? ==>
      CalledState(client, old(SentFor(client, Delete(partner, channel).value, own, null, transport, digest)), decode)
  {
    r := PerformBool(client, Delete(partner, channel), own, null, transport, digest, decode);
  }

  /** Without arguments, get asks for page -1; receive, delete and send use
      channel 0, and send is no answer. */
  lemma Defaults(partner: Option<int>, receipient: Option<int>, text: string)
    ensures Get() == Ok(Request("message.get", map["page" := VInt(-1)], ServiceSession))
    ensures Receive(partner) == Receive(partner, Some(0)) && Delete(partner) == Delete(partner, Some(0))
    ensures Send(receipient, text) == Send(receipient, text, Some(0), Some(false))
  {
  }

  /** The page sent never lies below -1, and it is the asked page whenever
      that is -1 or more. */
  lemma GetPageBounds(page: int)
    ensures Get(Some(page)).Ok?
    ensures Get(Some(page)).value.params["page"].VInt?
    ensures Get(Some(page)).value.params["page"].i >= -1
    ensures page >= -1 ==> Get(Some(page)).value.params["page"] == VInt(page)
  {
  }

  /** receive and delete accept exactly the same arguments and send the same
      parameters. */
  lemma ReceiveDeleteAgree(partner: Option<int>, channel: Option<int>)
    ensures Receive(partner, channel).Ok? <==> Delete(partner, channel).Ok?
    ensures Receive(partner, channel).Ok? ==>
      Receive(partner, channel).value.params == Delete(partner, channel).value.params
  {
  }
}
