# KWICK PHP SDK — a Dafny model

This project models the core of the KWICK PHP SDK. That is the client that signs
and posts calls to the KWICK REST API, the session it signs them with, the
parser for the raw HTTP response (headers, Set-Cookie values, JSON body), and the
five services (`auth`, `friends`, `message`, `status`, `users`) that check their
arguments and turn them into `callMethod` calls.

The model is organised by source file:

| module | file | models |
|---|---|---|
| `Common` | common.dfy | PHP `empty`, truthiness, `(int)` and `(string)` casts, the SDK's exceptions as `Error`, decoded JSON as `Json`, request parameter values |
| `Explode` | explode.dfy | `explode` / `implode` on a delimiter |
| `KeyOrder` | keyorder.dfy | the string order `ksort` sorts by, and the sorted key list of a key set |
| `Sessions` | session.dfy | `KWICK_Session`, a class with four fields set through validating setters |
| `Headers` | header.dfy | `KWICK_Response_Header` |
| `Cookies` | cookie.dfy | `KWICK_Response_Cookie` and its `parse` loop |
| `Responses` | response.dfy | `KWICK_Response`, a class holding headers and cookies, and its `parse` loop |
| `Clients` | client.dfy | `KWICK_Client`: configuration checks, parameter preparation, the signature loop, the post and the error classification |
| `Requests` | requests.dfy | the `callMethod` invocation a service method builds, and the casts applied to its answer |
| `AuthService`, `FriendsService`, `MessageService`, `StatusService`, `UsersService` | auth.dfy … users.dfy | the service classes |

Some parts are passed in as function parameters:

- MD5 is `digest: string -> string`.
- `json_decode` is `decode: string -> Json`.
- The cURL round trip is `transport: Params -> Transport`. A `Transport` is a delivered raw response, a missing handle, a cURL error with its number, or an exception thrown inside the call.
- The current time is a parameter `now`.

Every other part is an ordinary Dafny definition.

A service method is modelled as a function from its arguments to `Result<Request>`. A `Request` is the method name, the parameter map, and which session is sent. `Requests.Perform` runs a `Request` through `Clients.Client.CallMethod`, and `Requests.Answer` is its answer as a function of the client, the sessions and the parameters. `Requests.CalledState` is the client's state after such a call: the errors set from the transport outcome, and the parsed response, when there is one, as a fresh lastResponse. Where a service post-processes the answer, a function over `Result<Json>` does it: `AsBool`, `AsInt`, the friends error-4000 rule, and the message array check. The services that cast their answer also have a method (`CallCheckSession`, `CallIsAppUser`, …) tying the result to the cast of `Answer`. PHP default arguments are Dafny default parameter values with the same defaults.

`Clients.Client.GenerateSignature` builds the signed text step by step, like the source's loop. It keeps an invariant: the text built so far, followed by the text of the remaining keys in `ksort` order, equals `Canonical(params)`. The lemmas about `Canonical` state what the signature depends on:

- the signature does not depend on the order keys were inserted;
- it does not depend on any old `sig` entry;
- a prepared map signs to its own `sig`.

## Model

| member | source | states |
|---|---|---|
| Common.StringToIntRoundTrip | lib/KWICK/Service/Users.php:72-91 | an id rendered as text and cast back with (int) is the same id |
| Common.Truthy | lib/KWICK/Service/Auth.php:34 | PHP truthiness: null, false, 0, "", "0" and the empty array are false, everything else true |
| Common.JsonToInt | lib/KWICK/Client.php:135 | the (int) cast: an int is itself, a string is read as its leading decimal number, every falsy value is 0, and true and a non-empty array are 1 |
| Common.JsonToText | lib/KWICK/Client.php:136-137 | the string conversion: it is empty exactly when the value is falsy, a string is itself, an int's text casts back to the int, and a non-empty array is "Array" |
| Explode.JoinSplit | lib/KWICK/Response.php:163-168 | joining the pieces of explode with the delimiter gives back the original text |
| Explode.SplitJoin | lib/KWICK/Service/Users.php:121-130 | splitting the implode of delimiter-free pieces gives back those pieces |
| Explode.SplitPiecesFree | lib/KWICK/Response/Cookie.php:65 | no piece explode returns contains the delimiter |
| Explode.SplitNoDelimiter | lib/KWICK/Response.php:163-166 | explode yields the single piece s exactly when the delimiter does not occur in s |
| Explode.ImplodeRoundTrip | lib/KWICK/Service/Friends.php:88-97 | a non-empty id list joined with commas splits back into as many pieces, each casting to its id |
| KeyOrder.LexTotal | lib/KWICK/Client.php:191 | any two keys are comparable in ksort's string order |
| KeyOrder.LexAntisymmetric | lib/KWICK/Client.php:191 | keys that compare both ways are equal |
| KeyOrder.LexTransitive | lib/KWICK/Client.php:191 | ksort's string order is transitive |
| KeyOrder.SortedAscending | lib/KWICK/Client.php:191 | the sorted key list is strictly ascending |
| KeyOrder.SortedUnique | lib/KWICK/Client.php:191 | every strictly ascending listing of a key set is the sorted one, so ksort's result depends only on the keys |
| KeyOrder.SortedLeast | lib/KWICK/Client.php:191-197 | the sorted list starts with the least key, followed by the sorted rest |
| KeyOrder.SortedWithout | lib/KWICK/Client.php:192-197 | skipping one key of the sorted list is sorting the set without it |
| Sessions.PropertyNamed | lib/KWICK/Session.php:27-49 | the five property names __get and __set accept, with "secret" and "sessionSecret" naming one field, and no others |
| Sessions.IsNumeric | lib/KWICK/Session.php:77 | ints are numeric, null, bools and arrays are not, and a numeric string is non-empty and ends in a digit |
| Sessions.NumericText | lib/KWICK/Session.php:77-81 | the decimal text of every int is numeric, and its (int) cast gives the int back |
| Sessions.Session.SetSessionKey | lib/KWICK/Session.php:59-66 | an empty value is refused and leaves the key unchanged; otherwise the key becomes the value as text |
| Sessions.Session.SetSessionSecret | lib/KWICK/Session.php:67-75 | an empty value is refused and leaves the secret unchanged; otherwise the secret becomes the value as text |
| Sessions.Session.SetUserId | lib/KWICK/Session.php:76-83 | a non-numeric id or one below 1 is refused and nothing changes; otherwise userId is its (int) cast |
| Sessions.Session.SetExpires | lib/KWICK/Session.php:84-91 | a non-numeric expiry or one below 0 is refused and nothing changes; otherwise expires is its (int) cast |
| Sessions.Session.Set | lib/KWICK/Session.php:57-95 | dispatch by name; an unknown name is refused; a set changes only the named field, and a refused set changes nothing |
| Sessions.Session.Get | lib/KWICK/Session.php:27-49 | an unknown name is refused; key and secret read as text or null; userId and expires read int-cast, 0 when unset |
| Sessions.InfiniteNeverExpires | lib/KWICK/Session.php:102-113 | a session with expires 0 is never expired, and a non-zero expiry before now is expired |
| Sessions.Session.IsExpired | lib/KWICK/Session.php:102-104 | an expiry of 0 is never expired; a set non-zero expiry is expired exactly when it lies before now; an unset expiry counts as expired unless now is 0 |
| Sessions.Session.IsInfinite | lib/KWICK/Session.php:111-113 | infinite exactly when the expiry is 0, and an infinite session is not expired at any time |
| Sessions.Session.IsValid | lib/KWICK/Session.php:120-122 | a valid session has all four fields set, a non-empty key and secret, a user id of at least 1 and an expiry of at least 0; a session with an unset field is not valid |
| Sessions.Populate | lib/KWICK/Service/Auth.php:66-70 | the four setters in a row succeed exactly when key and secret are non-empty, uid is numeric and at least 1, and expires is numeric and at least 0; on success the session is valid and holds those values |
| Headers.MakeHeader | lib/KWICK/Response/Header.php:19-30 | a header is built exactly when name and value are both non-empty, and keeps both; otherwise it fails with the name's error first, then the value's |
| Headers.Header.Property | lib/KWICK/Response/Header.php:38-53 | Name and Value read back the fields; any other property is refused |
| Headers.HeaderRoundTrip | lib/KWICK/Response/Header.php:19-53 | a constructed header reads back exactly its constructor arguments |
| Cookies.Cookie.Property | lib/KWICK/Response/Cookie.php:25-51 | an empty property name is refused; Expires is int-cast (0 when unset); the other four read the field or null; an unknown property reads as null |
| Cookies.SegmentOf | lib/KWICK/Response/Cookie.php:77 | a segment's key is the first piece before "=", and its value is the second piece, present only if there is one |
| Cookies.Parse | lib/KWICK/Response/Cookie.php:59-106 | the loop over the "; " segments computes exactly CookieOf(raw) |
| Cookies.AbsorbAllFails | lib/KWICK/Response/Cookie.php:76-80 | parsing fails, with "Invalid cookie", exactly when some segment has an empty key or an empty or missing value |
| Cookies.AbsorbAllLastWins | lib/KWICK/Response/Cookie.php:82-91 | in an accepted cookie, each of expires, path (unslashed) and domain comes from the last segment with that key, and stays null when no segment has it |
| Cookies.AbsorbAllLastName | lib/KWICK/Response/Cookie.php:92-94 | in an accepted cookie, name and value come from the last segment whose key is not expires, path or domain, and stay null without one |
| Cookies.StripSlashesPlain | lib/KWICK/Response/Cookie.php:86-88 | stripslashes leaves a path without backslashes unchanged |
| Cookies.StripSlashes | lib/KWICK/Response/Cookie.php:87 | stripslashes never lengthens the path |
| Cookies.StripSlashesEscape | lib/KWICK/Response/Cookie.php:87 | a backslash and the next character become that character (NUL for "0"), and a lone trailing backslash disappears |
| Cookies.ExampleCookie | lib/KWICK/Response/Cookie.php:59-106 | "foo=bar; path=/; domain=example.com" parses to name foo, value bar, path /, domain example.com, no expiry |
| Responses.Classify | lib/KWICK/Response.php:175-187 | a line without ": " is the status line; otherwise the line has at least two ": " pieces, a first piece "Set-Cookie" makes a cookie line whose raw text is the second piece, and any other first piece is a header name whose value is the second piece |
| Responses.Response.GetHeader | lib/KWICK/Response.php:64-76 | an empty name is refused; the result is the stored header for a stored name and null otherwise |
| Responses.Response.GetCookie | lib/KWICK/Response.php:102-114 | an empty name is refused; the result is the stored cookie for a stored name and null otherwise |
| Responses.Response.GetHeaderNames | lib/KWICK/Response.php:54-56 | lists every stored header name exactly once |
| Responses.Response.GetCookieNames | lib/KWICK/Response.php:92-94 | lists every stored cookie name exactly once |
| Responses.Response.AddHeader | lib/KWICK/Response.php:45-47 | the header is stored under its name, replacing any earlier one, and nothing else changes |
| Responses.Response.AddCookie | lib/KWICK/Response.php:83-85 | the cookie is stored under its name (null as ""), replacing any earlier one, and nothing else changes |
| Responses.Response.SetStatusLine | lib/KWICK/Response.php:139-141 | only the status line changes |
| Responses.ApplyLineIndexed | lib/KWICK/Response.php:181-187 | storing a header or a cookie keeps every name listed exactly once |
| Responses.ReadLine | lib/KWICK/Response.php:176-189 | one turn of the loop fails exactly when the line is refused; otherwise it applies the line to the response state |
| Responses.Parse | lib/KWICK/Response.php:158-195 | the parse loop fails exactly when ParseRaw fails, with the same error; on success the new response holds ParseRaw's headers, cookies, status and body |
| Responses.FirstRefused | lib/KWICK/Response.php:175-190 | the index of the first refused header line: that line is refused and no earlier one is; none when no line is refused |
| Responses.ApplyLinesFails | lib/KWICK/Response.php:175-190 | reading the header lines fails exactly when some line is refused, and then with the error of the first refused line |
| Responses.ApplyLinesStatus | lib/KWICK/Response.php:178-179 | the stored status line is the last line without ": " |
| Responses.ApplyLinesHeaders | lib/KWICK/Response.php:186-187 | a header name is stored exactly when some line names it, and it holds the value of the last such line |
| Responses.ApplyLinesCookies | lib/KWICK/Response.php:181-183 | a cookie key is stored exactly when some Set-Cookie line yields a cookie with that key, and it holds the last such cookie |
| Responses.ParseRawOutcome | lib/KWICK/Response.php:158-195 | a null or empty response is refused; one without a blank line fails with "no headers"; otherwise parsing fails exactly when a header line is refused, and the body is the decoding of the block after the headers |
| Clients.ConfigError | lib/KWICK/Client.php:52-62 | a configuration is accepted exactly when API key, secret and base URL are all non-empty; the first empty one names the error: API key, then secret, then base URL |
| Clients.Client.Create | lib/KWICK/Client.php:51-74 | construction fails exactly when the configuration is refused, with ConfigError's error, or else when the cURL extension is missing, with the php_curl message; otherwise the client keeps its configuration, is valid, and starts with no error and code -1; the base URL defaults to the public API's |
| Clients.Client.constructor | lib/KWICK/Client.php:68-73 | an accepted configuration is kept as it is, with no error, code -1 and no last response |
| Clients.Client.ResetErrors | lib/KWICK/Client.php:146-149 | the last error becomes null and its code -1 |
| Clients.Client.SigningSecret | lib/KWICK/Client.php:200-205 | the application secret signs without a session; the session's secret signs with one |
| Clients.Client.KeyEntry | lib/KWICK/Client.php:170-172 | a session_key entry exists exactly when a session is given, and then holds that session's key |
| Clients.Client.StandardContents | lib/KWICK/Client.php:165-172 | the caller's map with method, v "2.0", api_key and format "JSON" written over it, and session_key added for a session; every other entry is kept |
| Clients.CanonicalIgnoresSig | lib/KWICK/Client.php:192-197 | the signed text is the same whatever sig entry the map has, or none |
| Clients.CanonicalAnyOrder | lib/KWICK/Client.php:191-197 | any strictly ascending listing of the keys yields the signed text, so insertion order does not matter |
| Clients.CanonicalExample | lib/KWICK/Client.php:191-197 | {method: x, api_key: k} signs as "api_key=k" followed directly by "method=x" |
| Clients.SignStep | lib/KWICK/Client.php:192-197 | one turn of the loop moves the least remaining key's pair (none for sig) from the rest of the text onto the built prefix |
| Clients.Client.GenerateSignature | lib/KWICK/Client.php:187-208 | the signature is the digest of the ascending name=value pairs other than sig, followed by the signing secret |
| Clients.Client.PrepareParameters | lib/KWICK/Client.php:160-178 | an empty method name is refused; otherwise the result is the standard map plus its own signature as sig |
| Clients.PreparedContents | lib/KWICK/Client.php:174-175 | the prepared map is the standard one with sig added; sig is the only entry it adds or replaces |
| Clients.PreparedSelfSigned | lib/KWICK/Client.php:174-175 | re-signing a prepared map reproduces its sig |
| Clients.PostRaw | lib/KWICK/Client.php:217-261 | a delivered response is returned; a missing handle raises "Could not initialize cURL" and a cURL error raises "Request failed: " with the cURL text and number, both local errors with code 1; any other exception leaves the response null |
| Clients.ErrorsAfter | lib/KWICK/Client.php:239-258 | a cURL error records its text and number as the last error; a caught exception records the text Crashed carries, its message followed by " in <file>(<line>)", and its code; otherwise the last error is unchanged |
| Clients.Client.DoPostRequest | lib/KWICK/Client.php:217-261 | the result is PostRaw of the transport's outcome, and the last error is ErrorsAfter |
| Clients.Client.Accept | lib/KWICK/Client.php:128-140 | the result is the parse error or the classified body; a parsed response becomes lastResponse, holding ParseRaw's state, and a failed parse leaves lastResponse as it was |
| Clients.Client.Post | lib/KWICK/Client.php:124-127 | callMethod's first steps: the errors are reset, the prepared map goes to the transport, and the raw response and the last error are those of PostRaw and ErrorsAfter for that outcome |
| Clients.Classified | lib/KWICK/Client.php:134-138 | a body holding error_code is a remote error with error_msg and the int-cast code; any other body is returned as it is |
| Clients.Client.CallMethod | lib/KWICK/Client.php:119-141 | an empty method is refused and nothing changes; otherwise the errors are reset, then set from the transport, the parsed response becomes lastResponse, and the result is CallOutcome |
| Requests.AsBool | lib/KWICK/Service/Auth.php:25-35 | an error passes through; an answer becomes its truthiness |
| Requests.AsInt | lib/KWICK/Service/Users.php:43-45 | an error passes through; an answer becomes its (int) cast, JsonToInt |
| Requests.SessionFor | lib/KWICK/Service/Users.php:26-36 | a request goes out with no session, the service's own, or the one passed in, as it says |
| Requests.Perform | lib/KWICK/Service/Users.php:44 | a service's callMethod call yields callMethod's answer to the request, sent with the session the request names, and leaves the client as CalledState says: errors from the transport outcome, the parsed response as lastResponse |
| Requests.PerformBool | lib/KWICK/Service/Auth.php:25-35 | a refused argument is raised before anything is sent and the client is unchanged; otherwise the answer is cast to bool and the client is left as CalledState says |
| Requests.PerformInt | lib/KWICK/Service/Users.php:43-45 | the answer to the request is cast to int, and the client is left as CalledState says |
| AuthService.CheckSession | lib/KWICK/Service/Auth.php:25-35 | an empty key is refused; otherwise auth.checkSession with skey and no session |
| AuthService.CallCheckSession | lib/KWICK/Service/Auth.php:25-35 | an empty key is refused and nothing is sent; otherwise the answer to auth.checkSession with skey and no session, cast to bool, with the client's errors and lastResponse as CalledState says |
| AuthService.CreateToken | lib/KWICK/Service/Auth.php:43-45 | auth.createToken with no parameters and no session |
| AuthService.LoadSession | lib/KWICK/Service/Auth.php:53-64 | an empty key is refused; otherwise auth.loadSession with skey and no session |
| AuthService.GetSession | lib/KWICK/Service/Auth.php:82-93 | an empty token is refused; otherwise auth.getSession with auth_token and no session |
| AuthService.SessionFrom | lib/KWICK/Service/Auth.php:64-73 | an error passes through; a non-array answer gives no session; otherwise a new session is filled from session_key, secret, uid and expires, failing exactly when a setter refuses |
| AuthService.ExpireSession | lib/KWICK/Service/Auth.php:111-121 | an invalid session is refused, then an already expired one; otherwise auth.expireSession with the given session |
| AuthService.RevokeAuthorization | lib/KWICK/Service/Auth.php:129-135 | an invalid session is refused; otherwise auth.revokeAuthorization with the given session |
| AuthService.ExpireAndRevoke | lib/KWICK/Service/Auth.php:111-135 | whatever can be expired can be revoked; an expired valid session can be revoked but not expired; an infinite valid session can always be expired |
| FriendsService.Get | lib/KWICK/Service/Friends.php:34-46 | uid and flid are sent exactly when numeric and positive, and nothing else is sent |
| FriendsService.GetDefault | lib/KWICK/Service/Friends.php:34 | with the default null uid and flid 0, get sends no parameters |
| FriendsService.GetResult | lib/KWICK/Service/Friends.php:47-55 | remote error 4000 gives the empty list; every other outcome is passed on |
| FriendsService.GetResultFails | lib/KWICK/Service/Friends.php:47-55 | get fails exactly when callMethod fails with an error other than remote 4000, and never with that one |
| FriendsService.GetLists | lib/KWICK/Service/Friends.php:66-69 | friends.getLists with no parameters and the service session |
| FriendsService.GetAppUsers | lib/KWICK/Service/Friends.php:78-80 | friends.getAppUsers with no parameters and the service session |
| FriendsService.AreFriends | lib/KWICK/Service/Friends.php:88-97 | an empty id list is refused; otherwise the ids are sent comma-joined |
| MessageService.GetStats | lib/KWICK/Service/Message.php:29-35 | message.getStats with no parameters and the service session |
| MessageService.Get | lib/KWICK/Service/Message.php:43-55 | a non-numeric page is refused; a negative page is sent as -1, any other as itself |
| MessageService.GetResult | lib/KWICK/Service/Message.php:57-62 | only an array answer is accepted, unchanged; anything else is "Invalid response received" |
| MessageService.GetPageBounds | lib/KWICK/Service/Message.php:43-55 | the page sent is never below -1, and it is the asked page when that is -1 or more |
| MessageService.PartnerChannel | lib/KWICK/Service/Message.php:72-88 | the partner must be numeric and at least 1, then the channel numeric and at least 0; both are sent |
| MessageService.Receive | lib/KWICK/Service/Message.php:72-88 | message.receive with the partner and channel checks |
| MessageService.Delete | lib/KWICK/Service/Message.php:136-152 | message.delete with the partner and channel checks |
| MessageService.ReceiveDeleteAgree | lib/KWICK/Service/Message.php:72-152 | receive and delete accept the same arguments and send the same parameters |
| MessageService.Send | lib/KWICK/Service/Message.php:100-127 | fails exactly when the recipient, text, channel or isAnswer check fails, recipient first; otherwise all four are sent |
| MessageService.CallSend | lib/KWICK/Service/Message.php:100-127 | a refused argument is raised and nothing is sent; otherwise the answer to message.send with the service session, cast to bool, with the client's errors and lastResponse as CalledState says |
| MessageService.CallDelete | lib/KWICK/Service/Message.php:136-152 | a refused argument is raised and nothing is sent; otherwise the answer to message.delete with the service session, cast to bool, with the client's errors and lastResponse as CalledState says |
| MessageService.Defaults | lib/KWICK/Service/Message.php:43-136 | get defaults to page -1, receive and delete to channel 0, send to channel 0 and no answer |
| StatusService.Get | lib/KWICK/Service/Status.php:33-51 | an explicit uid must be numeric and at least 1, then the limit; a null uid sends the session's user id |
| StatusService.DefaultUidIsSessionUser | lib/KWICK/Service/Status.php:33-51 | with a valid session, leaving uid null is the same as passing the session's user id |
| StatusService.Set | lib/KWICK/Service/Status.php:59-74 | an empty message is refused, then a non-bool publishExternal; otherwise both are sent |
| StatusService.CallSet | lib/KWICK/Service/Status.php:59-74 | a refused argument is raised and nothing is sent; otherwise the answer to status.set with the service session, cast to bool, with the client's errors and lastResponse as CalledState says |
| StatusService.Defaults | lib/KWICK/Service/Status.php:33-59 | get with no arguments asks for the session's user with limit 1; set defaults publishExternal to false |
| UsersService.GetId | lib/KWICK/Service/Users.php:26-36 | an empty username is refused; otherwise users.getID with no session |
| UsersService.GetLoggedInUser | lib/KWICK/Service/Users.php:43-45 | users.getLoggedInUser with no parameters and the service session |
| UsersService.CallGetLoggedInUser | lib/KWICK/Service/Users.php:43-45 | the answer to users.getLoggedInUser with the service session, cast to int, with the client's errors and lastResponse as CalledState says |
| UsersService.IsAppUser | lib/KWICK/Service/Users.php:53-63 | a non-numeric uid or one below 1 is refused; otherwise the uid is sent |
| UsersService.CallIsAppUser | lib/KWICK/Service/Users.php:53-63 | a non-numeric uid or one below 1 is refused and nothing is sent; otherwise the answer to users.isAppUser with the uid, cast to bool, with the client's errors and lastResponse as CalledState says |
| UsersService.GetVCard | lib/KWICK/Service/Users.php:72-91 | an array of ids is sent comma-joined; a single id must be numeric and at least 1 and is sent as it is; no session |
| UsersService.GetInfoBox | lib/KWICK/Service/Users.php:111-113 | users.getInfoBox with no parameters and the service session |
| UsersService.GetOnlineState | lib/KWICK/Service/Users.php:121-130 | an empty id list is refused; otherwise the ids are sent comma-joined |
| UsersService.UidsReadBack | lib/KWICK/Service/Users.php:72-130 | the uids text of getVCard and getOnlineState splits back into exactly the given ids |

## Left out

- The cURL session, HTTP and the network. `transport` is a parameter that says what the request ended in. The base URL is kept but not used to build requests.
- MD5 is the parameter `digest`, and `json_decode` is the parameter `decode`. The model does not fix how either one computes its result.
- JSON floats are not modelled. `Num` holds integers only.
- `is_numeric` arguments of the service methods are `Option<int>`, where None is a refused value. Numeric strings such as "12" are therefore not kept apart from the int 12.
- `is_bool` arguments are `Option<bool>` in the same way.
- `Common.JsonToInt`: like `Common.StringToInt` below, it works on unbounded ints and does not saturate at the 64-bit limits.
- `Common.StringToInt`: Dafny ints are unbounded, and so are `Json.Num` and `Value.VInt`. PHP ints are 64-bit, and `(int)` of a digit string beyond the 64-bit range saturates at PHP_INT_MAX (or PHP_INT_MIN). The model agrees with PHP only within the 64-bit range; out-of-range casts, such as `setUserId("99999999999999999999")`, are not modelled, and `Common.StringToIntRoundTrip` holds in PHP only for ints within that range.
- The `(int)` cast of a numeric string reads an optional sign and then decimal digits. Hexadecimal, exponent and leading-space forms are not modelled.
- `ksort`'s default flags compare numeric keys as numbers. The parameter keys the SDK sends are not numeric, so the model compares every key as a string.
- PHP's magic `__get` and `__set` dispatch is modelled as explicit `Get`, `Set` and `Property` members. The client's own `__get` (read-only access to lastError, lastErrorCode and lastResponse) is not modelled; it is the fields themselves.
- Service.php, the base class that only stores the client and the session, is not part of this model. Its fields are the `own` session of `Requests.Perform`.
- Exception.php is folded into `Error`. `InvalidArgument` is InvalidArgumentException, `Local` is a KWICK exception raised by the SDK, and `Remote` is a KWICK exception built from the server's error_code and error_msg.
- The tutorial scripts are not part of this model.
- `time()` is the parameter `now` of `IsExpired` and `ExpireSession`.
- `error_log` output is not modelled.
- The Crashed transport carries, as values, the text PHP records for a caught exception (the exception's message followed by " in <file>(<line>)") and its code. How the message, the file and the line were produced is not modelled.
- Dead code has no counterpart: the check after explode in Response.php:169-171 that can never fire, and the empty if-statement in Cookie.php:60-61.
- `Clients.Client.GenerateSignature`: `ksort` followed by `foreach` is modelled as repeatedly taking the least remaining key, which visits the keys in the same order.
- `Clients.Client.CallMethod`: the ensures state that the new lastError and lastResponse are what the transport and parser determine, but it does not model PHP reference semantics for a lastResponse shared elsewhere.
- `Sessions.IsNumeric`: a numeric string is an optional sign followed by decimal digits. PHP's is_numeric also accepts decimal fractions ("1.5", ".5"), exponents and surrounding whitespace ("5 "), so the model refuses `setUserId("1.5")`, which PHP accepts and stores as 1.
- `UsersService.GetVCard`, `UsersService.GetOnlineState` and `FriendsService.AreFriends`: the id list is a list of ints. The source implodes any array, whatever its elements; lists of other values are not modelled.
- Only the services whose answer is cast (checkSession, getLoggedInUser, isAppUser, send, delete and status.set) have a method that performs the call end to end. The other service methods are their request function followed by `Requests.Perform` and, where there is one, the answer function (`FriendsService.GetResult`, `MessageService.GetResult`, `AuthService.SessionFrom`).
- `Sessions.Session.SetSessionKey`: a value that passes the emptiness check is stored as its text (`JsonToText`). PHP would store the decoded value itself.
- `Sessions.Session.SetSessionSecret`: in the same way, an accepted secret is stored as its text where PHP stores the value itself. The signature is unaffected, because it appends the secret as text; the two differ only when a non-string value is read back through `__get`.
- `Responses.Response.GetHeader`: the source returns a `$null` variable that is never assigned. It reads as null, and the model returns None.
