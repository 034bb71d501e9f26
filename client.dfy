/** KWICK_Client: request preparation and signing, and callMethod's small
    state machine over lastError, lastErrorCode and lastResponse. The HTTP
    transport, MD5 and json_decode are parameters of the operations that use
    them. */
module Clients {
  import opened Common
  import opened KeyOrder
  import opened Sessions
  import opened Responses

  /** One signed pair: the name, "=", and the value as text. */
  function Pair(name: string, v: Value): string {
    name + "=" + ValueText(v)
  }

  /** The pairs of the listed keys, in the listed order, with sig skipped. */
  function PairsText(m: Params, keys: seq<string>): string
    requires forall k :: k in keys ==> k in m
    decreases |keys|
  {
    if keys == [] then ""
    else (if keys[0] == "sig" then "" else Pair(keys[0], m[keys[0]])) + PairsText(m, keys[1..])
  }

  /** The text generateSignature builds before appending the secret: every
      pair but sig, keys ascending, with no separator between pairs. */
  ghost function Canonical(m: Params): string {
    PairsText(m, Sorted(m.Keys))
  }

  lemma PairsTextCons(m: Params, k: string, keys: seq<string>)
    requires k in m && forall j :: j in keys ==> j in m
    ensures PairsText(m, [k] + keys) == (if k == "sig" then "" else Pair(k, m[k])) + PairsText(m, keys)
  {
    assert ([k] + keys)[1..] == keys;
  }

  lemma {:induction false} PairsTextWithout(m: Params, keys: seq<string>)
    requires forall k :: k in keys ==> k in m
    ensures PairsText(m, keys) == PairsText(m, Without(keys, "sig"))
    decreases |keys|
  {
    if keys != [] {
      PairsTextWithout(m, keys[1..]);
      var w := Without(keys, "sig");
      if keys[0] == "sig" {
        assert w == Without(keys[1..], "sig");
      } else {
        assert w == [keys[0]] + Without(keys[1..], "sig");
        assert w[1..] == Without(keys[1..], "sig");
      }
    }
  }

  lemma {:induction false} PairsTextAgree(m1: Params, m2: Params, keys: seq<string>)
    requires forall k :: k in keys ==> k in m1 && k in m2 && m1[k] == m2[k]
    ensures PairsText(m1, keys) == PairsText(m2, keys)
    decreases |keys|
  {
    if keys != [] {
      PairsTextAgree(m1, m2, keys[1..]);
    }
  }

  /** One turn of generateSignature's loop: the least remaining key's pair
      (none for sig) moves from the rest of the text onto the built prefix. */
  lemma SignStep(m: Params, remaining: set<string>, name: string, prefix: string)
    requires remaining <= m.Keys && IsLeast(name, remaining)
    ensures prefix + PairsText(m, Sorted(remaining)) ==
      (if name == "sig" then prefix else prefix + Pair(name, m[name])) + PairsText(m, Sorted(remaining - {name}))
  {
    SortedLeast(remaining, name);
    PrefixStep(m, name, Sorted(remaining - {name}), prefix);
  }

  lemma PrefixStep(m: Params, k: string, rest: seq<string>, prefix: string)
    requires k in m && forall j :: j in rest ==> j in m
    ensures prefix + PairsText(m, [k] + rest) ==
      (if k == "sig" then prefix else prefix + Pair(k, m[k])) + PairsText(m, rest)
  {
    PairsTextCons(m, k, rest);
  }

  /** The canonical text depends only on the entries other than sig: two maps
      with the same entries apart from sig give the same text. */
  lemma CanonicalOffSig(m1: Params, m2: Params)
    requires forall k :: k != "sig" ==> (k in m1 <==> k in m2)
    requires forall k :: k != "sig" && k in m1 ==> m1[k] == m2[k]
    ensures Canonical(m1) == Canonical(m2)
  {
    var keys := m1.Keys - {"sig"};
    assert keys == m2.Keys - {"sig"};
    PairsTextWithout(m1, Sorted(m1.Keys));
    SortedWithout(m1.Keys, "sig");
    PairsTextWithout(m2, Sorted(m2.Keys));
    SortedWithout(m2.Keys, "sig");
    PairsTextAgree(m1, m2, Sorted(keys));
  }

  /** Any old signature has no effect: setting or dropping sig keeps the text. */
  lemma CanonicalIgnoresSig(m: Params, x: Value)
    ensures Canonical(m["sig" := x]) == Canonical(m)
    ensures Canonical(m - {"sig"}) == Canonical(m)
  {
    CanonicalOffSig(m["sig" := x], m);
    CanonicalOffSig(m - {"sig"}, m);
  }

  /** Whatever order the entries were inserted in, ksort lists them in the one
      ascending order, so the text is that of any ascending listing of the keys. */
  lemma CanonicalAnyOrder(m: Params, keys: seq<string>)
    requires StrictlyAscending(keys)
    requires forall k :: k in keys <==> k in m
    ensures PairsText(m, keys) == Canonical(m)
  {
    SortedUnique(m.Keys, keys);
  }

  /** Two entries other than sig sign as their two pairs, in key order. */
  lemma TwoPairs(m: Params, a: string, va: Value, b: string, vb: Value)
    requires LexLeq(a, b) && a != b && a != "sig" && b != "sig"
    requires m == map[a := va, b := vb]
    ensures Canonical(m) == Pair(a, va) + Pair(b, vb)
  {
    var keys := [a, b];
    assert StrictlyAscending(keys);
    CanonicalAnyOrder(m, keys);
    PairsTextTwo(m, a, b);
  }

  lemma PairsTextTwo(m: Params, a: string, b: string)
    requires a in m && b in m && a != "sig" && b != "sig"
    ensures PairsText(m, [a, b]) == Pair(a, m[a]) + Pair(b, m[b])
  {
    PairsTextCons(m, b, []);
    PairsTextCons(m, a, [b]);
    assert [a, b] == [a] + [b] && [b] == [b] + [];
  }

  /** Two entries sign as "api_key=k" followed by "method=x": key order, "="
      inside each pair, nothing between pairs. */
  lemma CanonicalExample(m: Params, a: string, b: string)
    requires a == "api_key" && b == "method"
    requires m == map[b := VStr("x"), a := VStr("k")]
    ensures Canonical(m) == "api_key=k" + "method=x"
  {
    ExampleKeys(a, b);
    assert m == map[a := VStr("k"), b := VStr("x")];
    TwoPairs(m, a, VStr("k"), b, VStr("x"));
  }

  lemma ExampleKeys(a: string, b: string)
    requires a == "api_key" && b == "method"
    ensures LexLeq(a, b) && a != b && a != "sig" && b != "sig"
    ensures Pair(a, VStr("k")) == "api_key=k" && Pair(b, VStr("x")) == "method=x"
  {
    assert a[0] == 'a' && b[0] == 'm';
  }

  /** The value sent as session_key: the session's key, or null. */
  function SessionKeyValue(key: Option<string>): (v: Value)
    ensures key.Some? ==> v == VStr(key.value)
    ensures key.None? ==> v == VNull
  {
    match key
    case None => VNull
    case Some(k) => VStr(k)
  }

  /** What doPostRequest's cURL call ends in. Crashed carries what the catch
      block records for an exception other than a KWICK one: its text is the
      message PHP writes, the exception's message followed by " in <file>(<line>)",
      and its code is the exception's code. */
  datatype Transport =
    | Delivered(raw: string)
    | NoHandle
    | CurlFailed(error: string, errno: int)
    | Crashed(message: string, code: int)

  /** The raw response doPostRequest returns, or the exception it raises. A
      cURL failure is a KWICK exception and is re-raised; any other exception
      is swallowed and leaves the raw response null. */
  function PostRaw(t: Transport): (r: Result<Option<string>>)
    ensures t.Delivered? <==> r.Ok? && r.value.Some?
    ensures t.Crashed? <==> r == Ok(None)
    ensures r.Err? ==> r.error.Local? && r.error.code == 1
    ensures t.NoHandle? ==> r == Err(Local("Could not initialize cURL", 1))
    ensures t.CurlFailed? ==>
      r == Err(Local("Request failed: " + t.error + " (code " + IntToString(t.errno) + ")", 1))
  {
    match t
    case Delivered(raw) => Ok(Some(raw))
    case NoHandle => Err(Local("Could not initialize cURL", 1))
    case CurlFailed(error, errno) =>
      Err(Local("Request failed: " + error + " (code " + IntToString(errno) + ")", 1))
    case Crashed(_, _) => Ok(None)
  }

  /** lastError and lastErrorCode after doPostRequest, from their values before. */
  function ErrorsAfter(t: Transport, error: Option<string>, code: int): (r: (Option<string>, int))
    ensures t.Delivered? || t.NoHandle? ==> r == (error, code)
    ensures t.CurlFailed? ==> r == (Some(t.error), t.errno)
    ensures t.Crashed? ==> r == (Some(t.message), t.code)
  {
    match t
    case CurlFailed(e, n) => (Some(e), n)
    case Crashed(m, c) => (Some(m), c)
    case _ => (error, code)
  }

  /** The decoded body is a remote error exactly when it is a keyed array
      holding error_code; the error carries (int)error_code and error_msg. */
  function Classified(body: Json): (r: Result<Json>)
    ensures r.Err? <==> HasKey(body, "error_code")
    ensures r.Err? ==>
      r.error == Remote(JsonToText(Lookup(body, "error_msg")), JsonToInt(Lookup(body, "error_code")))
    ensures r.Ok? ==> r.value == body
  {
    if IsArray(body) && HasKey(body, "error_code") then
      Err(Remote(JsonToText(Lookup(body, "error_msg")), JsonToInt(Lookup(body, "error_code"))))
    else Ok(body)
  }

  /** What callMethod yields for a non-empty method, given the transport's
      outcome: the transport error, the parse error, or the classified body. */
  function CallOutcome(t: Transport, decode: string -> Json): Result<Json> {
    match Received(t, decode)
    case Err(e) => Err(e)
    case Ok(parsed) => Classified(parsed.1)
  }

  /** The parsed response callMethod stores as lastResponse, or why there is none. */
  function Received(t: Transport, decode: string -> Json): Result<(Head, Json)> {
    match PostRaw(t)
    case Err(e) => Err(e)
    case Ok(raw) => ParseRaw(raw, decode)
  }

  const DefaultBaseUrl := "http://api.kwick.de/service"

  const NoCurl := InvalidArgument("Required extension php_curl is not available/enabled")

  const InvalidMethod := InvalidArgument("Invalid method specified (null or empty)")

  /** The constructor's configuration checks, in their order. */
  function ConfigError(apiKey: string, secret: string, baseUrl: string): (r: Option<Error>)
    ensures r.None? <==> !EmptyText(apiKey) && !EmptyText(secret) && !EmptyText(baseUrl)
    ensures r.Some? ==> r.value.InvalidArgument?
    ensures EmptyText(apiKey) ==> r == Some(InvalidArgument("Invalid API key specified (null or empty)"))
    ensures !EmptyText(apiKey) && EmptyText(secret) ==>
      r == Some(InvalidArgument("Invalid secret specified (null or empty)"))
    ensures !EmptyText(apiKey) && !EmptyText(secret) && EmptyText(baseUrl) ==>
      r == Some(InvalidArgument("Invalid base URL specified (null or empty)"))
  {
    if EmptyText(apiKey) then Some(InvalidArgument("Invalid API key specified (null or empty)"))
    else if EmptyText(secret) then Some(InvalidArgument("Invalid secret specified (null or empty)"))
    else if EmptyText(baseUrl) then Some(InvalidArgument("Invalid base URL specified (null or empty)"))
    else None
  }

  class Client {
    const apiKey: string
    const secret: string
    const baseUrl: string
    var lastError: Option<string>
    var lastErrorCode: int
    var lastResponse: Response?

    /** The configuration the constructor accepted. */
    ghost predicate Valid() {
      ConfigError(apiKey, secret, baseUrl).None?
    }

    /** The fields of a configuration the checks accept; Create makes the checks. */
    constructor (apiKey: string, secret: string, baseUrl: string)
      requires ConfigError(apiKey, secret, baseUrl).None?
      ensures Valid()
      ensures this.apiKey == apiKey && this.secret == secret && this.baseUrl == baseUrl
      ensures lastError == None && lastErrorCode == -1 && lastResponse == null
    {
      this.apiKey, this.secret, this.baseUrl := apiKey, secret, baseUrl;
      lastError, lastErrorCode := None, -1;
      lastResponse := null;
    }

    /** new KWICK_Client(apiKey, secret, baseUrl), with the public API's URL
        as the default base URL. curlAvailable says whether the cURL
        extension is loaded, which the constructor checks after the
        configuration. */
    static method Create(apiKey: string, secret: string, baseUrl: string := DefaultBaseUrl,
                         curlAvailable: bool := true)
      returns (r: Result<Client>)
      ensures r.Err? <==> ConfigError(apiKey, secret, baseUrl).Some? || !curlAvailable
      ensures ConfigError(apiKey, secret, baseUrl).Some? ==> r == Err(ConfigError(apiKey, secret, baseUrl).value)
      ensures ConfigError(apiKey, secret, baseUrl).None? && !curlAvailable ==> r == Err(NoCurl)
      ensures r.Ok? ==> fresh(r.value) && r.value.Valid()
      ensures r.Ok? ==> r.value.apiKey == apiKey && r.value.secret == secret && r.value.baseUrl == baseUrl
      ensures r.Ok? ==> r.value.lastError == None && r.value.lastErrorCode == -1
    {
      var e := ConfigError(apiKey, secret, baseUrl);
      if e.Some? {
        return Err(e.value);
      }
      if !curlAvailable {
        return Err(NoCurl);
      }
      var c := new Client(apiKey, secret, baseUrl);
      r := Ok(c);
    }

    /** The secret appended to the canonical text: the application's without
        a session, the session's (read as "" when unset) with one. */
    function SigningSecret(session: Session?): (s: string)
      reads session
      ensures session == null ==> s == secret
      ensures session != null ==> s == session.sessionSecret.GetOr("")
    {
      if session == null then secret else session.sessionSecret.GetOr("")
    }

    /** The session_key entry prepareParameters adds: none without a session. */
    function KeyEntry(session: Session?): (v: Option<Value>)
      reads session
      ensures v.None? <==> session == null
      ensures session != null ==> v == Some(SessionKeyValue(session.sessionKey))
    {
      if session == null then None else Some(SessionKeyValue(session.sessionKey))
    }

    /** The caller's parameters with the standard ones written over them, and
        the session_key entry when there is one. */
    function StandardParams(methodName: string, params: Params, key: Option<Value>): Params {
      var p := params["method" := VStr(methodName)]["v" := VStr("2.0")]
                     ["api_key" := VStr(apiKey)]["format" := VStr("JSON")];
      if key.None? then p else p["session_key" := key.value]
    }

    /** What the standard map holds: method, v "2.0", api_key and format
        "JSON", session_key when given, and every other caller entry as it was. */
    lemma StandardContents(methodName: string, params: Params, key: Option<Value>)
      ensures var r := StandardParams(methodName, params, key);
        && r.Keys == params.Keys + {"method", "v", "api_key", "format"} +
                     (if key.Some? then {"session_key"} else {})
        && r["method"] == VStr(methodName) && r["v"] == VStr("2.0")
        && r["api_key"] == VStr(apiKey) && r["format"] == VStr("JSON")
        && (key.Some? ==> r["session_key"] == key.value)
        && (forall k :: k in params && k !in {"method", "v", "api_key", "format", "session_key"} ==>
              r[k] == params[k])
        && (key.None? && "session_key" in params ==> r["session_key"] == params["session_key"])
    {
    }

    /** The map prepareParameters returns. */
    ghost function Prepared(methodName: string, params: Params, session: Session?, digest: string -> string): Params
      reads session
    {
      var p := StandardParams(methodName, params, KeyEntry(session));
      p["sig" := VStr(digest(Canonical(p) + SigningSecret(session)))]
    }

    /** What the transport makes of the prepared parameters. */
    ghost function Sent(methodName: string, params: Params, session: Session?,
                        transport: Params -> Transport, digest: string -> string): Transport
      reads session
    {
      transport(Prepared(methodName, params, session, digest))
    }

    /** resetErrors(). */
    method ResetErrors()
      modifies this`lastError, this`lastErrorCode
      ensures lastError == None && lastErrorCode == -1
    {
      lastError := None;
      lastErrorCode := -1;
    }

    /** generateSignature(params, session): the ksort and the loop over the
        sorted entries are read as taking the least remaining key each time. */
    method GenerateSignature(params: Params, session: Session?, digest: string -> string) returns (sig: string)
      ensures sig == digest(Canonical(params) + SigningSecret(session))
    {
      var paramStr := "";
      var remaining := params.Keys;
      assert paramStr + PairsText(params, Sorted(remaining)) == Canonical(params);
      while remaining != {}
        invariant remaining <= params.Keys
        invariant paramStr + PairsText(params, Sorted(remaining)) == Canonical(params)
        decreases |remaining|
      {
        ghost var least := Least(remaining);
        assert least in remaining && forall j :: j in remaining ==> LexLeq(least, j);
        var name :| name in remaining && forall j :: j in remaining ==> LexLeq(name, j);
        var rest := remaining - {name};
        SignStep(params, remaining, name, paramStr);
        if name != "sig" {
          paramStr := paramStr + Pair(name, params[name]);
        }
        remaining := rest;
      }
      assert Sorted(remaining) == [];
      assert paramStr == Canonical(params);
      if session == null {
        paramStr := paramStr + secret;
      } else {
        paramStr := paramStr + session.sessionSecret.GetOr("");
      }
      sig := digest(paramStr);
    }

    /** prepareParameters(method, params, session). */
    method PrepareParameters(methodName: string, params: Params, session: Session?, digest: string -> string)
      returns (r: Result<Params>)
      ensures r.Err? <==> EmptyText(methodName)
      ensures r.Err? ==> r.error == InvalidMethod
      ensures r.Ok? ==> r.value == Prepared(methodName, params, session, digest)
    {
      if EmptyText(methodName) {
        return Err(InvalidMethod);
      }
      var p := StandardParams(methodName, params, KeyEntry(session));
      var signature := GenerateSignature(p, session, digest);
      r := Ok(p["sig" := VStr(signature)]);
    }

    /** doPostRequest(params), given what the transport does with them. */
    method DoPostRequest(params: Params, transport: Params -> Transport) returns (r: Result<Option<string>>)
      modifies this`lastError, this`lastErrorCode
      ensures r == PostRaw(transport(params))
      ensures (lastError, lastErrorCode) == ErrorsAfter(transport(params), old(lastError), old(lastErrorCode))
    {
      match transport(params) {
        case Delivered(raw) =>
          r := Ok(Some(raw));
        case NoHandle =>
          r := Err(Local("Could not initialize cURL", 1));
        case CurlFailed(error, errno) =>
          lastError := Some(error);
          lastErrorCode := errno;
          r := Err(Local("Request failed: " + error + " (code " + IntToString(errno) + ")", 1));
        case Crashed(message, code) =>
          lastError := Some(message);
          lastErrorCode := code;
          r := Ok(None);
      }
    }

    /** The rest of callMethod once the raw response is in: parse it, keep
        it as lastResponse, and classify its body. */
    method Accept(raw: Option<string>, decode: string -> Json) returns (r: Result<Json>)
      modifies this`lastResponse
      ensures r == (match ParseRaw(raw, decode) case Err(e) => Err(e) case Ok(parsed) => Classified(parsed.1))
      ensures ParseRaw(raw, decode).Ok? ==>
        lastResponse != null && fresh(lastResponse) && lastResponse.Valid() &&
        (lastResponse.State(), lastResponse.body) == ParseRaw(raw, decode).value
      ensures ParseRaw(raw, decode).Err? ==> lastResponse == old(lastResponse)
    {
      var response := Responses.Parse(raw, decode);
      if response.Err? {
        return Err(response.error);
      }
      lastResponse := response.value;
      r := Classified(response.value.body);
    }

    /** The first part of callMethod for a non-empty method: reset the
        errors, prepare the parameters and post them. */
    method Post(methodName: string, params: Params, session: Session?,
                transport: Params -> Transport, digest: string -> string)
      returns (raw: Result<Option<string>>)
      requires !EmptyText(methodName)
      modifies this`lastError, this`lastErrorCode
      ensures raw == PostRaw(old(Sent(methodName, params, session, transport, digest)))
      ensures lastError == ErrorsAfter(old(Sent(methodName, params, session, transport, digest)), None, -1).0
      ensures lastErrorCode == ErrorsAfter(old(Sent(methodName, params, session, transport, digest)), None, -1).1
    {
      ghost var t := Sent(methodName, params, session, transport, digest);
      ResetErrors();
      var prepared := PrepareParameters(methodName, params, session, digest);
      assert transport(prepared.value) == t;
      raw := DoPostRequest(prepared.value, transport);
    }

    /** callMethod(method, params, session). */
    method CallMethod(methodName: string, params: Params, session: Session?,
                      transport: Params -> Transport, digest: string -> string, decode: string -> Json)
      returns (r: Result<Json>)
      modifies this`lastError, this`lastErrorCode, this`lastResponse
      ensures EmptyText(methodName) ==>
        r == Err(InvalidMethod) && lastError == old(lastError) &&
        lastErrorCode == old(lastErrorCode) && lastResponse == old(lastResponse)
      ensures !EmptyText(methodName) ==>
        lastError == ErrorsAfter(old(Sent(methodName, params, session, transport, digest)), None, -1).0
      ensures !EmptyText(methodName) ==>
        lastErrorCode == ErrorsAfter(old(Sent(methodName, params, session, transport, digest)), None, -1).1
      ensures !EmptyText(methodName) ==>
        r == CallOutcome(old(Sent(methodName, params, session, transport, digest)), decode)
      ensures !EmptyText(methodName) && Received(old(Sent(methodName, params, session, transport, digest)), decode).Ok? ==>
        lastResponse != null && fresh(lastResponse) && lastResponse.Valid() &&
        (lastResponse.State(), lastResponse.body) ==
          Received(old(Sent(methodName, params, session, transport, digest)), decode).value
      ensures !EmptyText(methodName) && Received(old(Sent(methodName, params, session, transport, digest)), decode).Err? ==>
        lastResponse == old(lastResponse)
    {
      if EmptyText(methodName) {
        return Err(InvalidMethod);
      }
      ghost var t := Sent(methodName, params, session, transport, digest);
      var raw := Post(methodName, params, session, transport, digest);
      if raw.Err? {
        return Err(raw.error);
      }
      assert Received(t, decode) == ParseRaw(raw.value, decode);
      r := Accept(raw.value, decode);
    }
  }

  /** The prepared map is the standard one with the signature added; sig is
      the only entry it adds or replaces. */
  lemma PreparedContents(c: Client, methodName: string, params: Params, session: Session?, digest: string -> string)
    ensures var s := c.StandardParams(methodName, params, c.KeyEntry(session));
      var p := c.Prepared(methodName, params, session, digest);
      && p.Keys == s.Keys + {"sig"}
      && (forall k :: k in s && k != "sig" ==> p[k] == s[k])
      && p["sig"].VStr?
  {
  }

  /** The sig of a prepared map is the signature of the map itself, so
      signing the prepared map again reproduces it. */
  lemma PreparedSelfSigned(c: Client, methodName: string, params: Params, session: Session?, digest: string -> string)
    ensures var p := c.Prepared(methodName, params, session, digest);
      p["sig"] == VStr(digest(Canonical(p) + c.SigningSecret(session)))
  {
    var s := c.StandardParams(methodName, params, c.KeyEntry(session));
    CanonicalIgnoresSig(s, VStr(digest(Canonical(s) + c.SigningSecret(session))));
  }
}
