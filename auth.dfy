/** KWICK_Service_Auth: session checks, tokens, building a session from the
    server's answer, and ending or revoking a session. The service has no
    session of its own: expireSession and revokeAuthorization send the one
    they are given. */
module AuthService {
  import opened Common
  import opened Sessions
  import opened Requests

  /** checkSession(sessionKey): the answer is cast to bool with AsBool. */
  function CheckSession(sessionKey: string): (r: Result<Request>)
    ensures r.Err? <==> EmptyText(sessionKey)
    ensures r.Err? ==> r.error == InvalidArgument("Invalid session key specified")
    ensures r.Ok? ==> r.value == Request("auth.checkSession", map["skey" := VStr(sessionKey)], NoSession)
  {
    if EmptyText(sessionKey) then Err(InvalidArgument("Invalid session key specified"))
    else Ok(Request("auth.checkSession", map["skey" := VStr(sessionKey)], NoSession))
  }

  /** checkSession as a whole: the check, the call without a session, and
      the (bool) cast of the answer. */
  method CallCheckSession(client: Clients.Client, sessionKey: string, transport: Params -> Clients.Transport,
                          digest: string -> string, decode: string -> Json)
    returns (r: Result<bool>)
    modifies client`lastError, client`lastErrorCode, client`lastResponse
    ensures EmptyText(sessionKey) ==> r == Err(InvalidArgument("Invalid session key specified")) && unchanged(client)
    ensures !EmptyText(sessionKey) ==>
      r == AsBool(old(Answer(client, Request("auth.checkSession", map["skey" := VStr(sessionKey)], NoSession),
                             null, null, transport, digest, decode)))
    ensures !EmptyText(sessionKey) ==>
      CalledState(client, old(SentFor(client, CheckSession(sessionKey).value, null, null, transport, digest)), decode)
  {
    r := PerformBool(client, CheckSession(sessionKey), null, null, transport, digest, decode);
  }

  /** createToken(). */
  function CreateToken(): (r: Request)
    ensures r.methodName == "auth.createToken" && r.params == map[] && r.session == NoSession
  {
    Request("auth.createToken", map[], NoSession)
  }

  /** loadSession(sessionKey); the answer goes through SessionFrom. */
  function LoadSession(sessionKey: string): (r: Result<Request>)
    ensures r.Err? <==> EmptyText(sessionKey)
    ensures r.Err? ==> r.error == InvalidArgument("Invalid session key specified")
    ensures r.Ok? ==> r.value == Request("auth.loadSession", map["skey" := VStr(sessionKey)], NoSession)
  {
    if EmptyText(sessionKey) then Err(InvalidArgument("Invalid session key specified"))
    else Ok(Request("auth.loadSession", map["skey" := VStr(sessionKey)], NoSession))
  }

  /** getSession(authToken); the answer goes through SessionFrom. */
  function GetSession(authToken: string): (r: Result<Request>)
    ensures r.Err? <==> EmptyText(authToken)
    ensures r.Err? ==> r.error == InvalidArgument("Invalid token specified")
    ensures r.Ok? ==> r.value == Request("auth.getSession", map["auth_token" := VStr(authToken)], NoSession)
  {
    if EmptyText(authToken) then Err(InvalidArgument("Invalid token specified"))
    else Ok(Request("auth.getSession", map["auth_token" := VStr(authToken)], NoSession))
  }

  /** The answer's four fields pass the session's setters: a non-empty key
      and secret, (int)uid at least 1 and (int)expires at least 0. */
  predicate SessionFields(answer: Json) {
    Truthy(Lookup(answer, "session_key")) && Truthy(Lookup(answer, "secret")) &&
    JsonToInt(Lookup(answer, "uid")) >= 1 && JsonToInt(Lookup(answer, "expires")) >= 0
  }

  /** What loadSession and getSession make of callMethod's answer: no session
      for a non-array, else a new session filled through the four setters,
      whose first refusal is raised. */
  method SessionFrom(response: Result<Json>) returns (r: Result<Session?>)
    ensures r.Err? <==> response.Err? || (IsArray(response.value) && !SessionFields(response.value))
    ensures response.Err? ==> r.error == response.error
    ensures response.Ok? && r.Err? ==> r.error.InvalidArgument?
    ensures r.Ok? ==> (r.value == null <==> !IsArray(response.value))
    ensures r.Ok? && r.value != null ==>
      var answer := response.value;
      && fresh(r.value) && r.value.IsValid()
      && r.value.sessionKey == Some(JsonToText(Lookup(answer, "session_key")))
      && r.value.sessionSecret == Some(JsonToText(Lookup(answer, "secret")))
      && r.value.userId == Some(JsonToInt(Lookup(answer, "uid")))
      && r.value.expires == Some(JsonToInt(Lookup(answer, "expires")))
  {
    if response.Err? {
      return Err(response.error);
    }
    var answer := response.value;
    if !IsArray(answer) {
      return Ok(null);
    }
    var session := new Session();
    var e := Populate(session, Lookup(answer, "session_key"), Lookup(answer, "secret"),
                      Num(JsonToInt(Lookup(answer, "uid"))), Num(JsonToInt(Lookup(answer, "expires"))));
    if e.Some? {
      return Err(e.value);
    }
    r := Ok(session);
  }

  /** expireSession(session, now): an invalid session is refused, then an
      already expired one. */
  function ExpireSession(session: Session, now: int): (r: Result<Request>)
    reads session
    ensures r.Err? <==> !session.IsValid() || session.IsExpired(now)
    ensures !session.IsValid() ==> r == Err(InvalidArgument("Invalid session specified"))
    ensures session.IsValid() && session.IsExpired(now) ==> r == Err(InvalidArgument("The session is already expired"))
    ensures r.Ok? ==> r.value == Request("auth.expireSession", map[], GivenSession)
  {
    if !session.IsValid() then Err(InvalidArgument("Invalid session specified"))
    else if session.IsExpired(now) then Err(InvalidArgument("The session is already expired"))
    else Ok(Request("auth.expireSession", map[], GivenSession))
  }

  /** revokeAuthorization(session): only validity is checked. */
  function RevokeAuthorization(session: Session): (r: Result<Request>)
    reads session
    ensures r.Err? <==> !session.IsValid()
    ensures r.Err? ==> r.error == InvalidArgument("Invalid session specified")
    ensures r.Ok? ==> r.value == Request("auth.revokeAuthorization", map[], GivenSession)
  {
    if !session.IsValid() then Err(InvalidArgument("Invalid session specified"))
    else Ok(Request("auth.revokeAuthorization", map[], GivenSession))
  }

  /** Whatever expireSession accepts, revokeAuthorization accepts too; an
      expired valid session can still be revoked; and a valid session that
      never expires can be expired at any time. */
  lemma ExpireAndRevoke(session: Session, now: int)
    ensures ExpireSession(session, now).Ok? ==> RevokeAuthorization(session).Ok?
    ensures session.IsValid() && session.IsExpired(now) ==>
      ExpireSession(session, now).Err? && RevokeAuthorization(session).Ok?
    ensures session.IsValid() && session.IsInfinite() ==> ExpireSession(session, now).Ok?
  {
    InfiniteNeverExpires(session, now);
  }
}
