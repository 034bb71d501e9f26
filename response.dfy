/** KWICK_Response: the raw HTTP response, cut at the first blank line into a
    header block and a body. Each header line is cut at ": "; a line without it
    is the status line, a Set-Cookie line is read as a cookie, any other line
    is a header. Later lines overwrite earlier ones with the same name. */
module Responses {
  import opened Common
  import opened Explode
  import opened Headers
  import opened Cookies

  const Blank := "\r\n\r\n"
  const LineBreak := "\r\n"
  const FieldSep := ": "

  /** What a header line holds, read as parse reads it. */
  datatype LineKind =
    | StatusLine(text: string)
    | CookieLine(raw: string)
    | HeaderLine(name: string, value: string)

  /** The first piece before ": " decides; the value is the second piece only. */
  function Classify(line: string): (k: LineKind)
    ensures Find(line, FieldSep).None? <==> k.StatusLine?
    ensures k.StatusLine? ==> k.text == line
    ensures !k.StatusLine? ==> |Split(FieldSep, line)| >= 2
    ensures k.CookieLine? ==> Split(FieldSep, line)[0] == "Set-Cookie" && k.raw == Split(FieldSep, line)[1]
    ensures k.HeaderLine? ==>
      k.name == Split(FieldSep, line)[0] && k.name != "Set-Cookie" && k.value == Split(FieldSep, line)[1]
  {
    SplitNoDelimiter(FieldSep, line);
    var pieces := Split(FieldSep, line);
    if |pieces| == 1 then StatusLine(pieces[0])
    else if pieces[0] == "Set-Cookie" then CookieLine(pieces[1])
    else HeaderLine(pieces[0], pieces[1])
  }

  /** The state parse builds up: the status line, the headers and cookies
      keyed by name, and the names in first-insertion order (array_keys). */
  datatype Head = Head(
    status: Option<string>,
    headers: map<string, Header>,
    headerNames: seq<string>,
    cookies: map<string, Cookie>,
    cookieNames: seq<string>)

  const EmptyHead := Head(None, map[], [], map[], [])

  /** The names list each key exactly once. */
  ghost predicate Indexed<V>(names: seq<string>, m: map<string, V>) {
    && (forall i, j :: 0 <= i < j < |names| ==> names[i] != names[j])
    && (forall n :: n in m <==> n in names)
  }

  ghost predicate WellIndexed(h: Head) {
    Indexed(h.headerNames, h.headers) && Indexed(h.cookieNames, h.cookies)
  }

  /** Store a header under its name, replacing any header of that name. */
  function WithHeader(h: Head, hd: Header): Head {
    h.(headers := h.headers[hd.name := hd],
       headerNames := if hd.name in h.headers then h.headerNames else h.headerNames + [hd.name])
  }

  /** Store a cookie under its name, replacing any cookie of that name. */
  function WithCookie(h: Head, c: Cookie): Head {
    h.(cookies := h.cookies[c.Key() := c],
       cookieNames := if c.Key() in h.cookies then h.cookieNames else h.cookieNames + [c.Key()])
  }

  /** One pass of the loop body over a header line. */
  function ApplyLine(h: Head, line: string): Result<Head> {
    match Classify(line)
    case StatusLine(text) => Ok(h.(status := Some(text)))
    case CookieLine(raw) =>
      (match CookieOf(raw)
       case Err(e) => Err(e)
       case Ok(c) => Ok(WithCookie(h, c)))
    case HeaderLine(name, value) =>
      (match MakeHeader(name, value)
       case Err(e) => Err(e)
       case Ok(hd) => Ok(WithHeader(h, hd)))
  }

  /** The loop over the header lines; the first failing line fails it all. */
  function ApplyLines(h: Head, lines: seq<string>): Result<Head>
    decreases |lines|
  {
    if lines == [] then Ok(h)
    else
      match ApplyLine(h, lines[0])
      case Err(e) => Err(e)
      case Ok(h1) => ApplyLines(h1, lines[1..])
  }

  /** The line fails to be read: a bad cookie, or a header with an empty name
      or an empty value. Whether it fails does not depend on earlier lines. */
  predicate LineRefused(line: string) {
    match Classify(line)
    case StatusLine(_) => false
    case CookieLine(raw) => CookieOf(raw).Err?
    case HeaderLine(name, value) => MakeHeader(name, value).Err?
  }

  /** The parse of a raw response, as KWICK_Response::parse computes it: a
      null or empty response is refused, one without a blank line has no
      headers, and the body is the JSON decoding of the text between the first
      and the second blank line. */
  function ParseRaw(raw: Option<string>, decode: string -> Json): Result<(Head, Json)> {
    if EmptyOpt(raw) then Err(InvalidArgument("Invalid raw response specified"))
    else
      var mainParts := Split(Blank, raw.value);
      if |mainParts| < 2 then Err(Local("Invalid response: no headers", 1))
      else
        match ApplyLines(EmptyHead, Split(LineBreak, mainParts[0]))
        case Err(e) => Err(e)
        case Ok(h) => Ok((h, decode(mainParts[1])))
  }

  class Response {
    var headers: map<string, Header>
    var headerNames: seq<string>
    var cookies: map<string, Cookie>
    var cookieNames: seq<string>
    var body: Json
    var statusLine: Option<string>

    /** The parse state the fields hold. */
    function State(): Head
      reads this
    {
      Head(statusLine, headers, headerNames, cookies, cookieNames)
    }

    ghost predicate Valid()
      reads this
    {
      WellIndexed(State())
    }

    constructor ()
      ensures State() == EmptyHead && body == Str("")
      ensures Valid()
    {
      headers, headerNames := map[], [];
      cookies, cookieNames := map[], [];
      body := Str("");
      statusLine := None;
    }

    method AddHeader(hd: Header)
      requires Valid()
      modifies this
      ensures Valid()
      ensures State() == WithHeader(old(State()), hd) && body == old(body)
    {
      if hd.name !in headers { headerNames := headerNames + [hd.name]; }
      headers := headers[hd.name := hd];
    }

    method AddCookie(c: Cookie)
      requires Valid()
      modifies this
      ensures Valid()
      ensures State() == WithCookie(old(State()), c) && body == old(body)
    {
      var key := c.Key();
      if key !in cookies { cookieNames := cookieNames + [key]; }
      cookies := cookies[key := c];
    }

    method SetStatusLine(text: string)
      requires Valid()
      modifies this
      ensures Valid()
      ensures State() == old(State()).(status := Some(text)) && body == old(body)
    {
      statusLine := Some(text);
    }

    /** getHeader(name): an empty name is refused; an absent name gives null. */
    function GetHeader(name: string): (r: Result<Option<Header>>)
      reads this
      ensures EmptyText(name) <==> r.Err?
      ensures r.Err? ==> r.error.InvalidArgument?
      ensures r.Ok? ==> (r.value.Some? <==> name in headers)
      ensures r.Ok? && r.value.Some? ==> r.value.value == headers[name]
    {
      if EmptyText(name) then Err(InvalidArgument("Invalid header name specified"))
      else if name in headers then Ok(Some(headers[name]))
      else Ok(None)
    }

    /** getCookie(name): an empty name is refused; an absent name gives null. */
    function GetCookie(name: string): (r: Result<Option<Cookie>>)
      reads this
      ensures EmptyText(name) <==> r.Err?
      ensures r.Err? ==> r.error.InvalidArgument?
      ensures r.Ok? ==> (r.value.Some? <==> name in cookies)
      ensures r.Ok? && r.value.Some? ==> r.value.value == cookies[name]
    {
      if EmptyText(name) then Err(InvalidArgument("Invalid cookie name specified"))
      else if name in cookies then Ok(Some(cookies[name]))
      else Ok(None)
    }

    /** getHeaderNames(): every stored header name exactly once. */
    function GetHeaderNames(): (r: seq<string>)
      reads this
      requires Valid()
      ensures forall i, j :: 0 <= i < j < |r| ==> r[i] != r[j]
      ensures forall n :: n in r <==> n in headers
    {
      headerNames
    }

    /** getCookieNames(): every stored cookie name exactly once. */
    function GetCookieNames(): (r: seq<string>)
      reads this
      requires Valid()
      ensures forall i, j :: 0 <= i < j < |r| ==> r[i] != r[j]
      ensures forall n :: n in r <==> n in cookies
    {
      cookieNames
    }
  }

  /** Adding a header or a cookie keeps each name listed exactly once. */
  lemma ApplyLineIndexed(h: Head, line: string)
    requires WellIndexed(h) && ApplyLine(h, line).Ok?
    ensures WellIndexed(ApplyLine(h, line).value)
  {
  }

  /** The body of parse's loop for one header line. */
  method ReadLine(response: Response, line: string) returns (e: Option<Error>)
    requires response.Valid()
    modifies response
    ensures e.None? <==> ApplyLine(old(response.State()), line).Ok?
    ensures e.None? ==> ApplyLine(old(response.State()), line) == Ok(response.State()) && response.Valid()
    ensures e.Some? ==> ApplyLine(old(response.State()), line) == Err(e.value)
    ensures response.body == old(response.body)
  {
    ghost var before := response.State();
    match Classify(line) {
      case StatusLine(text) =>
        response.SetStatusLine(text);
      case CookieLine(rawCookie) =>
        var cookie := Cookies.Parse(rawCookie);
        if cookie.Err? {
          return Some(cookie.error);
        }
        response.AddCookie(cookie.value);
      case HeaderLine(name, value) =>
        var header := MakeHeader(name, value);
        if header.Err? {
          return Some(header.error);
        }
        response.AddHeader(header.value);
    }
    ApplyLineIndexed(before, line);
    e := None;
  }

  lemma ApplyLinesStep(h: Head, lines: seq<string>)
    requires lines != []
    ensures ApplyLines(h, lines) ==
      match ApplyLine(h, lines[0])
      case Err(e) => Err(e)
      case Ok(h1) => ApplyLines(h1, lines[1..])
  {
  }

  /** KWICK_Response::parse. */
  method Parse(raw: Option<string>, decode: string -> Json) returns (r: Result<Response>)
    ensures r.Err? <==> ParseRaw(raw, decode).Err?
    ensures r.Err? ==> r.error == ParseRaw(raw, decode).error
    ensures r.Ok? ==>
      fresh(r.value) && r.value.Valid() && (r.value.State(), r.value.body) == ParseRaw(raw, decode).value
  {
    if EmptyOpt(raw) {
      return Err(InvalidArgument("Invalid raw response specified"));
    }
    var mainParts := Split(Blank, raw.value);
    if |mainParts| < 2 {
      return Err(Local("Invalid response: no headers", 1));
    }
    var headerLines := Split(LineBreak, mainParts[0]);
    var response := new Response();
    var i := 0;
    while i < |headerLines|
      invariant 0 <= i <= |headerLines|
      invariant fresh(response) && response.Valid()
      invariant ApplyLines(response.State(), headerLines[i..]) == ApplyLines(EmptyHead, headerLines)
    {
      ghost var before := response.State();
      ApplyLinesStep(before, headerLines[i..]);
      assert headerLines[i..][0] == headerLines[i];
      assert headerLines[i..][1..] == headerLines[i + 1..];
      var e := ReadLine(response, headerLines[i]);
      if e.Some? {
        return Err(e.value);
      }
      i := i + 1;
    }
    response.body := decode(mainParts[1]);
    r := Ok(response);
  }

  /** The error a refused line raises; it does not depend on earlier lines. */
  function LineError(line: string): Error
    requires LineRefused(line)
  {
    match Classify(line)
    case CookieLine(raw) => CookieOf(raw).error
    case HeaderLine(name, value) => MakeHeader(name, value).error
  }

  lemma ApplyLineFails(h: Head, line: string)
    ensures ApplyLine(h, line).Err? <==> LineRefused(line)
    ensures ApplyLine(h, line).Err? ==> ApplyLine(h, line).error == LineError(line)
  {
  }

  /** The index of the first refused line, if any. */
  function FirstRefused(lines: seq<string>): (r: Option<nat>)
    ensures r.Some? ==>
      r.value < |lines| && LineRefused(lines[r.value]) &&
      forall j :: 0 <= j < r.value ==> !LineRefused(lines[j])
    ensures r.None? ==> forall j :: 0 <= j < |lines| ==> !LineRefused(lines[j])
    decreases |lines|
  {
    if lines == [] then None
    else if LineRefused(lines[0]) then Some(0)
    else
      var rest := FirstRefused(lines[1..]);
      ShiftRefused(lines);
      match rest
      case None => None
      case Some(k) => Some(k + 1)
  }

  /** Line j of lines[1..] is line j + 1 of lines. */
  lemma ShiftRefused(lines: seq<string>)
    requires lines != []
    ensures forall j :: 1 <= j < |lines| ==> LineRefused(lines[j]) == LineRefused(lines[1..][j - 1])
  {
    forall j | 1 <= j < |lines|
      ensures LineRefused(lines[j]) == LineRefused(lines[1..][j - 1])
    {
      assert lines[j] == lines[1..][j - 1];
    }
  }

  /** Reading the header lines fails exactly when one of them is refused, and
      then with the error of the first refused line. */
  lemma {:induction false} ApplyLinesFails(h: Head, lines: seq<string>)
    ensures ApplyLines(h, lines).Err? <==> FirstRefused(lines).Some?
    ensures ApplyLines(h, lines).Err? ==> ApplyLines(h, lines).error == LineError(lines[FirstRefused(lines).value])
    decreases |lines|
  {
    if lines != [] {
      ApplyLineFails(h, lines[0]);
      if !LineRefused(lines[0]) {
        ApplyLinesFails(ApplyLine(h, lines[0]).value, lines[1..]);
        if FirstRefused(lines[1..]).Some? {
          var k := FirstRefused(lines[1..]).value;
          assert lines[1..][k] == lines[k + 1];
        }
      }
    }
  }

  /** Some line is refused exactly when there is a first refused line. */
  lemma AnyRefusedFirst(lines: seq<string>)
    ensures AnyRefused(lines) <==> FirstRefused(lines).Some?
  {
    if FirstRefused(lines).Some? {
      assert LineRefused(lines[FirstRefused(lines).value]);
    }
  }

  /** Reading one more line at the end. */
  lemma {:induction false} ApplyLinesSnoc(h: Head, lines: seq<string>, line: string)
    ensures ApplyLines(h, lines + [line]) ==
      match ApplyLines(h, lines)
      case Err(e) => Err(e)
      case Ok(h1) => ApplyLine(h1, line)
    decreases |lines|
  {
    if lines == [] {
      assert ([] + [line])[1..] == [];
    } else {
      assert (lines + [line])[0] == lines[0];
      assert (lines + [line])[1..] == lines[1..] + [line];
      if ApplyLine(h, lines[0]).Ok? {
        ApplyLinesSnoc(ApplyLine(h, lines[0]).value, lines[1..], line);
      }
    }
  }

  /** The text of the last status line (a line without ": "), if any. */
  function LastStatus(lines: seq<string>): Option<string>
    decreases |lines|
  {
    if lines == [] then None
    else
      match Classify(lines[|lines| - 1])
      case StatusLine(text) => Some(text)
      case _ => LastStatus(lines[..|lines| - 1])
  }

  /** The value of the last header line named name, if any. */
  function LastHeader(lines: seq<string>, name: string): Option<string>
    decreases |lines|
  {
    if lines == [] then None
    else
      match Classify(lines[|lines| - 1])
      case HeaderLine(n, v) => if n == name then Some(v) else LastHeader(lines[..|lines| - 1], name)
      case _ => LastHeader(lines[..|lines| - 1], name)
  }

  /** The cookie of the last Set-Cookie line whose cookie has key key, if any. */
  function LastCookie(lines: seq<string>, key: string): Option<Cookie>
    decreases |lines|
  {
    if lines == [] then None
    else
      match Classify(lines[|lines| - 1])
      case CookieLine(raw) =>
        if CookieOf(raw).Ok? && CookieOf(raw).value.Key() == key then Some(CookieOf(raw).value)
        else LastCookie(lines[..|lines| - 1], key)
      case _ => LastCookie(lines[..|lines| - 1], key)
  }

  /** The status line kept is the last one read. */
  lemma {:induction false} ApplyLinesStatus(h: Head, lines: seq<string>)
    requires ApplyLines(h, lines).Ok?
    ensures ApplyLines(h, lines).value.status ==
      (if LastStatus(lines).Some? then LastStatus(lines) else h.status)
    decreases |lines|
  {
    if lines != [] {
      var init, line := lines[..|lines| - 1], lines[|lines| - 1];
      assert lines == init + [line];
      ApplyLinesSnoc(h, init, line);
      ApplyLinesStatus(h, init);
    }
  }

  /** A header name is held exactly when some line names it (or it was held
      before), and it holds the value of the last line naming it. */
  lemma {:induction false} ApplyLinesHeaders(h: Head, lines: seq<string>)
    requires ApplyLines(h, lines).Ok?
    ensures forall n :: n in ApplyLines(h, lines).value.headers <==> n in h.headers || LastHeader(lines, n).Some?
    ensures forall n :: LastHeader(lines, n).Some? ==>
      ApplyLines(h, lines).value.headers[n] == Header(n, LastHeader(lines, n).value)
    ensures forall n :: n in h.headers && LastHeader(lines, n).None? ==>
      ApplyLines(h, lines).value.headers[n] == h.headers[n]
    decreases |lines|
  {
    if lines != [] {
      var init, line := lines[..|lines| - 1], lines[|lines| - 1];
      assert lines == init + [line];
      ApplyLinesSnoc(h, init, line);
      ApplyLinesHeaders(h, init);
    }
  }

  /** A cookie key is held exactly when some Set-Cookie line yields a cookie
      with that key (or it was held before), and it holds the last such cookie. */
  lemma {:induction false} ApplyLinesCookies(h: Head, lines: seq<string>)
    requires ApplyLines(h, lines).Ok?
    ensures forall k :: k in ApplyLines(h, lines).value.cookies <==> k in h.cookies || LastCookie(lines, k).Some?
    ensures forall k :: LastCookie(lines, k).Some? ==>
      ApplyLines(h, lines).value.cookies[k] == LastCookie(lines, k).value
    ensures forall k :: k in h.cookies && LastCookie(lines, k).None? ==>
      ApplyLines(h, lines).value.cookies[k] == h.cookies[k]
    decreases |lines|
  {
    if lines != [] {
      var init, line := lines[..|lines| - 1], lines[|lines| - 1];
      assert lines == init + [line];
      ApplyLinesSnoc(h, init, line);
      ApplyLinesCookies(h, init);
    }
  }

  /** Some header line is refused. */
  predicate AnyRefused(lines: seq<string>) {
    exists k :: 0 <= k < |lines| && LineRefused(lines[k])
  }

  /** The text before the first blank line. */
  function HeaderBlock(text: string): string {
    match Find(text, Blank)
    case None => text
    case Some(i) => text[..i]
  }

  /** The text between the first and the second blank line (or the end). */
  function BodyText(text: string): string {
    match Find(text, Blank)
    case None => ""
    case Some(i) =>
      var rest := text[i + |Blank|..];
      match Find(rest, Blank)
      case None => rest
      case Some(j) => rest[..j]
  }

  /** The outcome of parse: a null or empty response is refused; one without a
      blank line has no headers; otherwise it fails exactly when a header line
      is refused, and the body is the decoding of the first block after the
      headers. */
  lemma ParseRawOutcome(raw: Option<string>, decode: string -> Json)
    ensures EmptyOpt(raw) ==> ParseRaw(raw, decode) == Err(InvalidArgument("Invalid raw response specified"))
    ensures !EmptyOpt(raw) && Find(raw.value, Blank).None? ==>
      ParseRaw(raw, decode) == Err(Local("Invalid response: no headers", 1))
    ensures !EmptyOpt(raw) && Find(raw.value, Blank).Some? ==>
      (ParseRaw(raw, decode).Err? <==> AnyRefused(Split(LineBreak, HeaderBlock(raw.value))))
    ensures !EmptyOpt(raw) && Find(raw.value, Blank).Some? && ParseRaw(raw, decode).Ok? ==>
      ParseRaw(raw, decode).value ==
        (ApplyLines(EmptyHead, Split(LineBreak, HeaderBlock(raw.value))).value, decode(BodyText(raw.value)))
  {
    if !EmptyOpt(raw) {
      var text := raw.value;
      SplitNoDelimiter(Blank, text);
      if Find(text, Blank).Some? {
        MainParts(text);
        var lines := Split(LineBreak, HeaderBlock(text));
        ApplyLinesFails(EmptyHead, lines);
        AnyRefusedFirst(lines);
        var mainParts := Split(Blank, text);
        assert mainParts[0] == HeaderBlock(text) && mainParts[1] == BodyText(text);
        assert ParseRaw(raw, decode).Err? <==> ApplyLines(EmptyHead, lines).Err?;
        assert ParseRaw(raw, decode).Ok? ==>
          ParseRaw(raw, decode).value == (ApplyLines(EmptyHead, lines).value, decode(BodyText(text)));
      }
    }
  }

  /** With a blank line, explode's first two pieces are the header block and
      the body text. */
  lemma MainParts(text: string)
    requires Find(text, Blank).Some?
    ensures |Split(Blank, text)| >= 2
    ensures Split(Blank, text)[0] == HeaderBlock(text) && Split(Blank, text)[1] == BodyText(text)
  {
    SplitFirstTwo(Blank, text);
  }
}
