/** KWICK_Session: a user session whose four fields are set one at a time
    through validating setters, and the expiry and validity queries. */
module Sessions {
  import opened Common

  /** PHP is_numeric on a decoded value: ints, and strings made of an optional
      sign followed by at least one decimal digit. */
  predicate IsNumeric(v: Json): (numeric: bool)
    ensures v.Num? ==> numeric
    ensures !v.Num? && !v.Str? ==> !numeric
    ensures v.Str? && numeric ==> v.s != [] && '0' <= v.s[|v.s| - 1] <= '9'
  {
    match v
    case Num(_) => true
    case Str(s) =>
      var t := if s != [] && (s[0] == '-' || s[0] == '+') then s[1..] else s;
      t != [] && forall i :: 0 <= i < |t| ==> '0' <= t[i] <= '9'
    case _ => false
  }

  /** The decimal text of every int is numeric, and its (int) cast gives the
      int back. */
  lemma NumericText(i: int)
    ensures IsNumeric(Str(IntToString(i)))
    ensures JsonToInt(Str(IntToString(i))) == i
  {
    StringToIntRoundTrip(i);
    var s := IntToString(i);
    if i < 0 {
      assert s[1..] == NatToString(-i);
    }
  }

  /** The properties reachable through __get and __set; "secret" and
      "sessionSecret" are two names for one field. */
  datatype Property = SessionKey | SessionSecret | UserId | Expires

  function PropertyNamed(name: string): (p: Option<Property>)
    ensures p.None? <==> name !in {"sessionKey", "sessionSecret", "secret", "userId", "expires"}
    ensures name == "secret" || name == "sessionSecret" ==> p == Some(SessionSecret)
    ensures name == "sessionKey" ==> p == Some(SessionKey)
    ensures name == "userId" ==> p == Some(UserId)
    ensures name == "expires" ==> p == Some(Expires)
  {
    if name == "sessionKey" then Some(SessionKey)
    else if name == "sessionSecret" || name == "secret" then Some(SessionSecret)
    else if name == "userId" then Some(UserId)
    else if name == "expires" then Some(Expires)
    else None
  }

  class Session {
    /** Fields are null (None) until their setter succeeds. */
    var sessionKey: Option<string>
    var sessionSecret: Option<string>
    var userId: Option<int>
    var expires: Option<int>

    constructor ()
      ensures sessionKey == None && sessionSecret == None
      ensures userId == None && expires == None
    {
      sessionKey, sessionSecret := None, None;
      userId, expires := None, None;
    }

    /** __set('sessionKey', v): an empty value is refused and nothing changes. */
    method SetSessionKey(v: Json) returns (e: Option<Error>)
      modifies this`sessionKey
      ensures e.Some? <==> !Truthy(v)
      ensures e.Some? ==> e.value.InvalidArgument? && sessionKey == old(sessionKey)
      ensures e.None? ==> sessionKey == Some(JsonToText(v)) && !EmptyOpt(sessionKey)
    {
      if !Truthy(v) {
        return Some(InvalidArgument("Invalid session key specified"));
      }
      sessionKey := Some(JsonToText(v));
      e := None;
    }

    /** __set('sessionSecret', v) and __set('secret', v). */
    method SetSessionSecret(v: Json) returns (e: Option<Error>)
      modifies this`sessionSecret
      ensures e.Some? <==> !Truthy(v)
      ensures e.Some? ==> e.value.InvalidArgument? && sessionSecret == old(sessionSecret)
      ensures e.None? ==> sessionSecret == Some(JsonToText(v)) && !EmptyOpt(sessionSecret)
    {
      if !Truthy(v) {
        return Some(InvalidArgument("Invalid session secret specified"));
      }
      sessionSecret := Some(JsonToText(v));
      e := None;
    }

    /** __set('userId', v): must be numeric and at least 1; stored as an int. */
    method SetUserId(v: Json) returns (e: Option<Error>)
      modifies this`userId
      ensures e.Some? <==> !IsNumeric(v) || JsonToInt(v) < 1
      ensures e.Some? ==> e.value.InvalidArgument? && userId == old(userId)
      ensures e.None? ==> userId == Some(JsonToInt(v)) && userId.value >= 1
    {
      if !IsNumeric(v) || JsonToInt(v) < 1 {
        return Some(InvalidArgument("Invalid user ID specified (not numeric or lighter than 1)"));
      }
      userId := Some(JsonToInt(v));
      e := None;
    }

    /** __set('expires', v): must be numeric and at least 0; stored as an int. */
    method SetExpires(v: Json) returns (e: Option<Error>)
      modifies this`expires
      ensures e.Some? <==> !IsNumeric(v) || JsonToInt(v) < 0
      ensures e.Some? ==> e.value.InvalidArgument? && expires == old(expires)
      ensures e.None? ==> expires == Some(JsonToInt(v)) && expires.value >= 0
    {
      if !IsNumeric(v) || JsonToInt(v) < 0 {
        return Some(InvalidArgument("Invalid expiration timestamp specified (not numeric or lighter than 0)"));
      }
      expires := Some(JsonToInt(v));
      e := None;
    }

    /** __set(name, v): dispatch on the property name; an unknown name is
        refused, and a successful set changes only the named field. */
    method Set(name: string, v: Json) returns (e: Option<Error>)
      modifies this
      ensures PropertyNamed(name).None? ==> e.Some? && e.value.InvalidArgument?
      ensures PropertyNamed(name).None? || e.Some? ==>
        sessionKey == old(sessionKey) && sessionSecret == old(sessionSecret) &&
        userId == old(userId) && expires == old(expires)
      ensures PropertyNamed(name) == Some(SessionKey) ==>
        (e.Some? <==> !Truthy(v)) && (e.None? ==> sessionKey == Some(JsonToText(v))) &&
        sessionSecret == old(sessionSecret) && userId == old(userId) && expires == old(expires)
      ensures PropertyNamed(name) == Some(SessionSecret) ==>
        (e.Some? <==> !Truthy(v)) && (e.None? ==> sessionSecret == Some(JsonToText(v))) &&
        sessionKey == old(sessionKey) && userId == old(userId) && expires == old(expires)
      ensures PropertyNamed(name) == Some(UserId) ==>
        (e.Some? <==> !IsNumeric(v) || JsonToInt(v) < 1) && (e.None? ==> userId == Some(JsonToInt(v))) &&
        sessionKey == old(sessionKey) && sessionSecret == old(sessionSecret) && expires == old(expires)
      ensures PropertyNamed(name) == Some(Expires) ==>
        (e.Some? <==> !IsNumeric(v) || JsonToInt(v) < 0) && (e.None? ==> expires == Some(JsonToInt(v))) &&
        sessionKey == old(sessionKey) && sessionSecret == old(sessionSecret) && userId == old(userId)
    {
      match PropertyNamed(name)
      case None => e := Some(InvalidArgument("Unknown property specified"));
      case Some(SessionKey) => e := SetSessionKey(v);
      case Some(SessionSecret) => e := SetSessionSecret(v);
      case Some(UserId) => e := SetUserId(v);
      case Some(Expires) => e := SetExpires(v);
    }

    /** __get(name): userId and expires are int-cast, so null reads as 0. */
    function Get(name: string): (r: Result<Json>)
      reads this
      ensures r.Err? <==> PropertyNamed(name).None?
      ensures r.Err? ==> r.error.InvalidArgument?
      ensures name == "secret" || name == "sessionSecret" ==>
        r == Ok(if sessionSecret.Some? then Str(sessionSecret.value) else Null)
      ensures name == "sessionKey" ==> r == Ok(if sessionKey.Some? then Str(sessionKey.value) else Null)
      ensures name == "userId" ==> r == Ok(Num(userId.GetOr(0)))
      ensures name == "expires" ==> r == Ok(Num(expires.GetOr(0)))
    {
      match PropertyNamed(name)
      case None => Err(InvalidArgument("Unknown property specified"))
      case Some(SessionKey) => Ok(if sessionKey.Some? then Str(sessionKey.value) else Null)
      case Some(SessionSecret) => Ok(if sessionSecret.Some? then Str(sessionSecret.value) else Null)
      case Some(UserId) => Ok(Num(userId.GetOr(0)))
      case Some(Expires) => Ok(Num(expires.GetOr(0)))
    }

    /** isExpired(): an expiry other than 0 that lies before now. An unset
        expiry is null, which PHP compares with an int as false < (bool)now. */
    predicate IsExpired(now: int): (expired: bool)
      reads this
      ensures expires == Some(0) ==> !expired
      ensures expires.Some? && expires.value != 0 ==> (expired <==> expires.value < now)
      ensures expires.None? ==> (expired <==> now != 0)
    {
      match expires
      case None => now != 0
      case Some(x) => x != 0 && x < now
    }

    /** isInfinite(): the expiry is exactly 0, and such a session never
        expires. */
    predicate IsInfinite(): (infinite: bool)
      reads this
      ensures infinite <==> expires == Some(0)
      ensures infinite ==> forall now :: !IsExpired(now)
    {
      expires == Some(0)
    }

    /** isValid(): non-empty key and secret, a numeric userId above 0 and a
        numeric expiry of 0 or more. */
    predicate IsValid(): (valid: bool)
      reads this
      ensures valid ==> sessionKey.Some? && sessionSecret.Some? && userId.Some? && expires.Some?
      ensures valid ==> !EmptyText(sessionKey.value) && !EmptyText(sessionSecret.value)
      ensures valid ==> userId.value >= 1 && expires.value >= 0
      ensures sessionKey.None? || sessionSecret.None? || userId.None? || expires.None? ==> !valid
    {
      !EmptyOpt(sessionKey) && !EmptyOpt(sessionSecret) &&
      userId.Some? && userId.value > 0 && expires.Some? && expires.value >= 0
    }
  }

  /** An infinite session never expires, whatever the time; a set expiry in
      the past means expired. */
  lemma InfiniteNeverExpires(s: Session, now: int)
    ensures s.IsInfinite() ==> !s.IsExpired(now)
    ensures s.expires.Some? && s.expires.value != 0 && s.expires.value < now ==> s.IsExpired(now)
  {
  }

  /** Setting the four fields one after the other, each successfully, yields a
      valid session. */
  method Populate(s: Session, key: Json, secret: Json, uid: Json, exp: Json) returns (e: Option<Error>)
    modifies s
    ensures e.None? ==> s.IsValid()
    ensures e.None? ==>
      s.sessionKey == Some(JsonToText(key)) && s.sessionSecret == Some(JsonToText(secret)) &&
      s.userId == Some(JsonToInt(uid)) && s.expires == Some(JsonToInt(exp))
    ensures e.Some? ==> e.value.InvalidArgument?
    ensures e.None? <==>
      (Truthy(key) && Truthy(secret) &&
       IsNumeric(uid) && JsonToInt(uid) >= 1 && IsNumeric(exp) && JsonToInt(exp) >= 0)
  {
    e := s.SetSessionKey(key);
    if e.Some? { return; }
    e := s.SetSessionSecret(secret);
    if e.Some? { return; }
    e := s.SetUserId(uid);
    if e.Some? { return; }
    e := s.SetExpires(exp);
  }
}
