/** KWICK_Service_Status: reading and setting a user's status, with the
    service's session. */
module StatusService {
  import opened Common
  import opened Sessions
  import opened Requests

  /** get's uid argument: left null (the session's user) or given, None
      standing for a value is_numeric refuses. */
  datatype UidArg = SessionUser | Given(uid: Option<int>)

  /** get(uid, limit): a null uid is the session's userId, read as 0 when the
      session has none; an explicit uid and the limit must be numeric and at
      least 1. By default uid is null and the limit is 1. The session is the
      service's own, the same one Requests.Perform sends as its own session. */
  function Get(session: Session, uid: UidArg := SessionUser, limit: Option<int> := Some(1)): (r: Result<Request>)
    reads session
    ensures r.Err? <==>
      (uid.Given? && (uid.uid.None? || uid.uid.value < 1)) || limit.None? || limit.value < 1
    ensures uid.Given? && (uid.uid.None? || uid.uid.value < 1) ==>
      r == Err(InvalidArgument("Invalid user id specified"))
    ensures !(uid.Given? && (uid.uid.None? || uid.uid.value < 1)) && (limit.None? || limit.value < 1) ==>
      r == Err(InvalidArgument("Invalid limit specified"))
    ensures r.Ok? ==> r.value.methodName == "status.get" && r.value.session == ServiceSession
    ensures r.Ok? ==> r.value.params.Keys == {"uid", "limit"} && r.value.params["limit"] == VInt(limit.value)
    ensures r.Ok? && uid.Given? ==> r.value.params["uid"] == VInt(uid.uid.value)
    ensures r.Ok? && uid.SessionUser? ==> r.value.params["uid"] == VInt(session.userId.GetOr(0))
  {
    if uid.Given? && (uid.uid.None? || uid.uid.value < 1) then Err(InvalidArgument("Invalid user id specified"))
    else if limit.None? || limit.value < 1 then Err(InvalidArgument("Invalid limit specified"))
    else
      var id := match uid case SessionUser => session.userId.GetOr(0) case Given(n) => n.value;
      Ok(Request("status.get", map["uid" := VInt(id), "limit" := VInt(limit.value)], ServiceSession))
  }

  /** set(message, publishExternal): publishExternal is false by default and
      None when it is not a bool. CallSet casts the answer to bool. */
  function Set(message: string, publishExternal: Option<bool> := Some(false)): (r: Result<Request>)
    ensures r.Err? <==> EmptyText(message) || publishExternal.None?
    ensures EmptyText(message) ==> r == Err(InvalidArgument("Invalid message specified"))
    ensures !EmptyText(message) && publishExternal.None? ==>
      r == Err(InvalidArgument("Invalid value for publishExternal specified"))
    ensures r.Ok? ==> r.value.methodName == "status.set" && r.value.session == ServiceSession
    ensures r.Ok? ==>
      r.value.params == map["status" := VStr(message), "publish_external" := VBool(publishExternal.value)]
  {
    if EmptyText(message) then Err(InvalidArgument("Invalid message specified"))
    else if publishExternal.None? then Err(InvalidArgument("Invalid value for publishExternal specified"))
    else Ok(Request("status.set", map["status" := VStr(message), "publish_external" := VBool(publishExternal.value)],
                    ServiceSession))
  }

  /** With a valid session, leaving uid null asks for the session's own user,
      exactly as passing that user's id does. */
  lemma DefaultUidIsSessionUser(session: Session, limit: Option<int>)
    requires session.IsValid()
    ensures Get(session, SessionUser, limit) == Get(session, Given(session.userId), limit)
  {
  }

  /** Without arguments, get asks for the session's user with limit 1, and
      set does not publish externally. */
  lemma Defaults(session: Session, message: string)
    ensures Get(session) == Ok(Request("status.get", map["uid" := VInt(session.userId.GetOr(0)), "limit" := VInt(1)],
                                       ServiceSession))
    ensures Set(message) == Set(message, Some(false))
  {
  }

  /** set as a whole: the checks, the call with the service's session, and
      the (bool) cast of the answer. */
  method CallSet(client: Clients.Client, own: Session, transport: Params -> Clients.Transport, digest: string -> string, decode: string -> Json,
                 message: string, publishExternal: Option<bool> := Some(false))
    returns (r: Result<bool>)
    modifies client`lastError, client`lastErrorCode, client`lastResponse
    ensures Set(message, publishExternal).Err? ==> r == Err(Set(message, publishExternal).error) && unchanged(client)
    ensures Set(message, publishExternal).Ok? ==>
      r == AsBool(old(Answer(client, Set(message, publishExternal).value, own, null, transport, digest, decode)))
    ensures Set(message, publishExternal).Ok? ==>
      CalledState(client, old(SentFor(client, Set(message, publishExternal).value, own, null, transport, digest)), decode)
  {
    r := PerformBool(client, Set(message, publishExternal), own, null, transport, digest, decode);
  }
}
