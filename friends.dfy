/** KWICK_Service_Friends: the friend-list requests, sent with the service's
    session, and get's treatment of remote error 4000 (no profile access). */
module FriendsService {
  import opened Common
  import opened Explode
  import opened Requests

  /** get(uid, flid): each is sent only when numeric and positive; None stands
      for a value is_numeric refuses. By default uid is null (None) and flid
      is 0. */
  function Get(uid: Option<int> := None, flid: Option<int> := Some(0)): (r: Request)
    ensures r.methodName == "friends.get" && r.session == ServiceSession
    ensures "uid" in r.params <==> uid.Some? && uid.value > 0
    ensures "flid" in r.params <==> flid.Some? && flid.value > 0
    ensures "uid" in r.params ==> r.params["uid"] == VInt(uid.value)
    ensures "flid" in r.params ==> r.params["flid"] == VInt(flid.value)
    ensures r.params.Keys <= {"uid", "flid"}
  {
    var p: Params := map[];
    var p := if uid.Some? && uid.value > 0 then p["uid" := VInt(uid.value)] else p;
    var p := if flid.Some? && flid.value > 0 then p["flid" := VInt(flid.value)] else p;
    Request("friends.get", p, ServiceSession)
  }

  /** Without arguments, get sends no parameters. */
  lemma GetDefault()
    ensures Get() == Request("friends.get", map[], ServiceSession)
  {
  }

  const NoProfileAccess := 4000

  /** get's catch block: remote error 4000 gives the empty friend list; any
      other remote error, and every local failure, goes on to the caller. */
  function GetResult(response: Result<Json>): (r: Result<Json>)
    ensures response.Ok? ==> r == response
    ensures response.Err? && response.error.Remote? && response.error.code == NoProfileAccess ==> r == Ok(List([]))
    ensures response.Err? && !(response.error.Remote? && response.error.code == NoProfileAccess) ==> r == response
  {
    match response
    case Ok(_) => response
    case Err(e) => if e.Remote? && e.code == NoProfileAccess then Ok(List([])) else response
  }

  /** getLists(). */
  function GetLists(): (r: Request)
    ensures r.methodName == "friends.getLists" && r.params == map[] && r.session == ServiceSession
  {
    Request("friends.getLists", map[], ServiceSession)
  }

  /** getAppUsers(). */
  function GetAppUsers(): (r: Request)
    ensures r.methodName == "friends.getAppUsers" && r.params == map[] && r.session == ServiceSession
  {
    Request("friends.getAppUsers", map[], ServiceSession)
  }

  /** areFriends(uids): at least one id, sent comma-joined. */
  function AreFriends(uids: seq<int>): (r: Result<Request>)
    ensures r.Err? <==> uids == []
    ensures r.Err? ==> r.error == InvalidArgument("You have to specify at least one user id")
    ensures r.Ok? ==> r.value.methodName == "friends.areFriends" && r.value.session == ServiceSession
    ensures r.Ok? ==> r.value.params == map["uids" := VStr(JoinInts(",", uids))]
  {
    if |uids| < 1 then Err(InvalidArgument("You have to specify at least one user id"))
    else Ok(Request("friends.areFriends", map["uids" := VStr(JoinInts(",", uids))], ServiceSession))
  }

  /** get never fails with a remote error of code 4000, and it fails exactly
      when callMethod fails with any other error. */
  lemma GetResultFails(response: Result<Json>)
    ensures GetResult(response).Err? ==>
      !(GetResult(response).error.Remote? && GetResult(response).error.code == NoProfileAccess)
    ensures GetResult(response).Err? <==>
      response.Err? && !(response.error.Remote? && response.error.code == NoProfileAccess)
  {
  }
}
