/** KWICK_Service_Users: argument checks and the requests of the user
    service. Numeric arguments are Option<int>, None standing for a value
    is_numeric refuses; uid lists are lists of ints. */
module UsersService {
  import opened Common
  import opened Explode
  import opened Sessions
  import opened Requests

  /** getId(username): sent without a session. */
  function GetId(username: string): (r: Result<Request>)
    ensures r.Err? <==> EmptyText(username)
    ensures r.Err? ==> r.error == InvalidArgument("Invalid username specified")
    ensures r.Ok? ==> r.value.methodName == "users.getID" && r.value.session == NoSession
    ensures r.Ok? ==> r.value.params == map["username" := VStr(username)]
  {
    if EmptyText(username) then Err(InvalidArgument("Invalid username specified"))
    else Ok(Request("users.getID", map["username" := VStr(username)], NoSession))
  }

  /** getLoggedInUser(): the answer is int-cast with AsInt. */
  function GetLoggedInUser(): (r: Request)
    ensures r.methodName == "users.getLoggedInUser" && r.params == map[] && r.session == ServiceSession
  {
    Request("users.getLoggedInUser", map[], ServiceSession)
  }

  /** isAppUser(uid): the answer is cast to bool with AsBool. */
  function IsAppUser(uid: Option<int>): (r: Result<Request>)
    ensures r.Err? <==> uid.None? || uid.value < 1
    ensures r.Err? ==> r.error == InvalidArgument("Invalid user id specified")
    ensures r.Ok? ==> r.value.methodName == "users.isAppUser" && r.value.session == ServiceSession
    ensures r.Ok? ==> r.value.params == map["uid" := VInt(uid.value)]
  {
    if uid.None? || uid.value < 1 then Err(InvalidArgument("Invalid user id specified"))
    else Ok(Request("users.isAppUser", map["uid" := VInt(uid.value)], ServiceSession))
  }

  /** getLoggedInUser as a whole: the call with the service's session and
      the (int) cast of the answer. */
  method CallGetLoggedInUser(client: Clients.Client, own: Session, transport: Params -> Clients.Transport, digest: string -> string, decode: string -> Json)
    returns (r: Result<int>)
    modifies client`lastError, client`lastErrorCode, client`lastResponse
    ensures r == AsInt(old(Answer(client, Request("users.getLoggedInUser", map[], ServiceSession),
                                  own, null, transport, digest, decode)))
    ensures CalledState(client, old(SentFor(client, GetLoggedInUser(), own, null, transport, digest)), decode)
  {
    r := PerformInt(client, GetLoggedInUser(), own, null, transport, digest, decode);
  }

  /** isAppUser as a whole: the check, the call with the service's session,
      and the (bool) cast of the answer. */
  method CallIsAppUser(client: Clients.Client, own: Session, uid: Option<int>, transport: Params -> Clients.Transport, digest: string -> string, decode: string -> Json)
    returns (r: Result<bool>)
    modifies client`lastError, client`lastErrorCode, client`lastResponse
    ensures uid.None? || uid.value < 1 ==> r == Err(InvalidArgument("Invalid user id specified")) && unchanged(client)
    ensures uid.Some? && uid.value >= 1 ==>
      r == AsBool(old(Answer(client, Request("users.isAppUser", map["uid" := VInt(uid.value)], ServiceSession),
                             own, null, transport, digest, decode)))
    ensures uid.Some? && uid.value >= 1 ==>
      CalledState(client, old(SentFor(client, IsAppUser(uid).value, own, null, transport, digest)), decode)
  {
    r := PerformBool(client, IsAppUser(uid), own, null, transport, digest, decode);
  }

  /** getVCard's argument: one id (None when not numeric) or an array of ids. */
  datatype Uids = One(id: Option<int>) | Many(ids: seq<int>)

  /** getVCard(uids): an array is sent comma-joined, a single id as an int;
      the call goes out without a session. */
  function GetVCard(uids: Uids): (r: Result<Request>)
    ensures r.Err? <==> uids.One? && (uids.id.None? || uids.id.value < 1)
    ensures r.Err? ==> r.error == InvalidArgument("Invalid user id specified")
    ensures r.Ok? ==> r.value.methodName == "users.getVCard" && r.value.session == NoSession
    ensures r.Ok? ==> r.value.params.Keys == {"uids"}
    ensures r.Ok? && uids.One? ==> r.value.params["uids"] == VInt(uids.id.value)
    ensures r.Ok? && uids.Many? ==> r.value.params["uids"] == VStr(JoinInts(",", uids.ids))
  {
    match uids
    case One(id) =>
      if id.None? || id.value < 1 then Err(InvalidArgument("Invalid user id specified"))
      else Ok(Request("users.getVCard", map["uids" := VInt(id.value)], NoSession))
    case Many(ids) => Ok(Request("users.getVCard", map["uids" := VStr(JoinInts(",", ids))], NoSession))
  }

  /** getInfoBox(). */
  function GetInfoBox(): (r: Request)
    ensures r.methodName == "users.getInfoBox" && r.params == map[] && r.session == ServiceSession
  {
    Request("users.getInfoBox", map[], ServiceSession)
  }

  /** getOnlineState(uids): at least one id, sent comma-joined. */
  function GetOnlineState(uids: seq<int>): (r: Result<Request>)
    ensures r.Err? <==> uids == []
    ensures r.Err? ==> r.error == InvalidArgument("You have to specify at least one user id")
    ensures r.Ok? ==> r.value.methodName == "users.getOnlineState" && r.value.session == ServiceSession
    ensures r.Ok? ==> r.value.params == map["uids" := VStr(JoinInts(",", uids))]
  {
    if |uids| < 1 then Err(InvalidArgument("You have to specify at least one user id"))
    else Ok(Request("users.getOnlineState", map["uids" := VStr(JoinInts(",", uids))], ServiceSession))
  }

  /** The ids reach the server intact: the uids text of getVCard and
      getOnlineState splits at its commas back into the given ids. */
  lemma UidsReadBack(ids: seq<int>)
    requires ids != []
    ensures var text := GetOnlineState(ids).value.params["uids"].s;
      text == GetVCard(Many(ids)).value.params["uids"].s &&
      |Split(",", text)| == |ids| && forall k :: 0 <= k < |ids| ==> StringToInt(Split(",", text)[k]) == ids[k]
  {
    ImplodeRoundTrip(ids);
  }
}
