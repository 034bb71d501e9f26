/** KWICK_Response_Cookie: the reading of one Set-Cookie value. The value is
    cut at every "; ", each segment at "=" keeping the first two pieces; the
    keys expires, path and domain are attributes (matched exactly), any other
    key names the cookie. */
module Cookies {
  import opened Common
  import opened Explode

  datatype Cookie = Cookie(
    name: Option<string>,
    value: Option<string>,
    expires: Option<string>,
    path: Option<string>,
    domain: Option<string>)
  {
    /** The key under which the response stores the cookie: a null name
        becomes the array key "". */
    function Key(): string {
      name.GetOr("")
    }

    /** __get(property): an empty property name is refused; Expires is
        int-cast (0 when absent); an unknown property reads as null. */
    function Property(property: string): (r: Result<Json>)
      ensures EmptyText(property) ==> r.Err? && r.error.InvalidArgument?
      ensures property == "Name" ==> r == Ok(if name.Some? then Str(name.value) else Null)
      ensures property == "Value" ==> r == Ok(if value.Some? then Str(value.value) else Null)
      ensures property == "Expires" ==> r == Ok(Num(if expires.Some? then StringToInt(expires.value) else 0))
      ensures property == "Path" ==> r == Ok(if path.Some? then Str(path.value) else Null)
      ensures property == "Domain" ==> r == Ok(if domain.Some? then Str(domain.value) else Null)
      ensures !EmptyText(property) && property !in {"Name", "Value", "Expires", "Path", "Domain"} ==> r == Ok(Null)
    {
      if EmptyText(property) then Err(InvalidArgument(""))
      else if property == "Name" then Ok(Text(name))
      else if property == "Value" then Ok(Text(value))
      else if property == "Expires" then Ok(Num(if expires.Some? then StringToInt(expires.value) else 0))
      else if property == "Path" then Ok(Text(path))
      else if property == "Domain" then Ok(Text(domain))
      else Ok(Null)
    }
  }

  function Text(s: Option<string>): Json {
    if s.Some? then Str(s.value) else Null
  }

  const NoCookie := Cookie(None, None, None, None, None)

  /** PHP stripslashes: a backslash quotes the next character ("\0" is NUL),
      and a trailing lone backslash is dropped. */
  function StripSlashes(s: string): (r: string)
    ensures |r| <= |s|
    decreases |s|
  {
    if s == [] then []
    else if s[0] != '\\' then [s[0]] + StripSlashes(s[1..])
    else if |s| == 1 then []
    else [if s[1] == '0' then 0 as char else s[1]] + StripSlashes(s[2..])
  }

  /** A backslash and the character after it become that character alone
      (NUL for "0"), and a lone backslash disappears. */
  lemma StripSlashesEscape(c: char)
    ensures StripSlashes(['\\', c]) == [if c == '0' then 0 as char else c]
    ensures StripSlashes(['\\']) == []
  {
  }

  /** Text without backslashes is left as it is. */
  lemma {:induction false} StripSlashesPlain(s: string)
    requires forall i :: 0 <= i < |s| ==> s[i] != '\\'
    ensures StripSlashes(s) == s
    decreases |s|
  {
    if s != [] {
      StripSlashesPlain(s[1..]);
      assert s == [s[0]] + s[1..];
    }
  }

  /** One "; "-separated part of the cookie, cut at "=" into a key and a
      value; a part without "=" has a null value. */
  datatype Segment = Segment(key: string, value: Option<string>)

  function SegmentOf(part: string): (g: Segment)
    ensures g.key == Split("=", part)[0]
    ensures g.value.Some? <==> |Split("=", part)| >= 2
    ensures g.value.Some? ==> g.value.value == Split("=", part)[1]
  {
    var pieces := Split("=", part);
    Segment(pieces[0], if |pieces| >= 2 then Some(pieces[1]) else None)
  }

  /** A segment whose key or value is empty (or null) is refused. */
  predicate Refused(g: Segment) {
    EmptyText(g.key) || EmptyOpt(g.value)
  }

  /** The switch on the key, applied to an accepted segment. */
  function Absorb(c: Cookie, g: Segment): Cookie
    requires !Refused(g)
  {
    var v := g.value.value;
    if g.key == "expires" then c.(expires := Some(v))
    else if g.key == "path" then c.(path := Some(StripSlashes(v)))
    else if g.key == "domain" then c.(domain := Some(v))
    else c.(name := Some(g.key), value := Some(v))
  }

  const InvalidCookie := Local("Invalid cookie", 1)

  /** The segments read from left to right; the first refused one fails. */
  function AbsorbAll(c: Cookie, parts: seq<string>): Result<Cookie>
    decreases |parts|
  {
    if parts == [] then Ok(c)
    else
      var g := SegmentOf(parts[0]);
      if Refused(g) then Err(InvalidCookie) else AbsorbAll(Absorb(c, g), parts[1..])
  }

  /** What KWICK_Response_Cookie::parse computes from a Set-Cookie value. */
  function CookieOf(raw: string): Result<Cookie> {
    AbsorbAll(NoCookie, Split("; ", raw))
  }

  /** KWICK_Response_Cookie::parse. The dead check that explode yields no
      piece, and the empty if-statement before it, do nothing. */
  method Parse(raw: string) returns (r: Result<Cookie>)
    ensures r == CookieOf(raw)
  {
    var parts := Split("; ", raw);
    var cookieName, cookieValue, cookiePath, cookieDomain, cookieExpires :=
      None, None, None, None, None;
    var i := 0;
    while i < |parts|
      invariant 0 <= i <= |parts|
      invariant AbsorbAll(Cookie(cookieName, cookieValue, cookieExpires, cookiePath, cookieDomain), parts[i..])
             == CookieOf(raw)
    {
      assert parts[i..][1..] == parts[i + 1..];
      var g := SegmentOf(parts[i]);
      if Refused(g) {
        return Err(InvalidCookie);
      }
      var value := g.value.value;
      if g.key == "expires" {
        cookieExpires := Some(value);
      } else if g.key == "path" {
        cookiePath := Some(StripSlashes(value));
      } else if g.key == "domain" {
        cookieDomain := Some(value);
      } else {
        cookieName := Some(g.key);
        cookieValue := Some(value);
      }
      i := i + 1;
    }
    r := Ok(Cookie(cookieName, cookieValue, cookieExpires, cookiePath, cookieDomain));
  }

  /** The value of the last segment whose key is exactly key, if any. */
  function LastWithKey(parts: seq<string>, key: string): (r: Option<string>)
    decreases |parts|
  {
    if parts == [] then None
    else
      var last := SegmentOf(parts[|parts| - 1]);
      if last.key == key then last.value else LastWithKey(parts[..|parts| - 1], key)
  }

  predicate Reserved(key: string) {
    key == "expires" || key == "path" || key == "domain"
  }

  /** The last segment whose key is not an attribute name, if any. */
  function LastOther(parts: seq<string>): (r: Option<Segment>)
    ensures r.Some? ==> !Reserved(r.value.key)
    decreases |parts|
  {
    if parts == [] then None
    else
      var last := SegmentOf(parts[|parts| - 1]);
      if !Reserved(last.key) then Some(last) else LastOther(parts[..|parts| - 1])
  }

  /** Reading the segments fails exactly when one of them has an empty key or
      an empty (or missing) value. */
  lemma {:induction false} AbsorbAllFails(c: Cookie, parts: seq<string>)
    ensures AbsorbAll(c, parts).Err? <==> exists k :: 0 <= k < |parts| && Refused(SegmentOf(parts[k]))
    ensures AbsorbAll(c, parts).Err? ==> AbsorbAll(c, parts).error == InvalidCookie
    decreases |parts|
  {
    if parts != [] {
      var g := SegmentOf(parts[0]);
      if !Refused(g) {
        AbsorbAllFails(Absorb(c, g), parts[1..]);
        if exists k :: 0 <= k < |parts| && Refused(SegmentOf(parts[k])) {
          var k :| 0 <= k < |parts| && Refused(SegmentOf(parts[k]));
          assert parts[1..][k - 1] == parts[k];
        }
        forall k | 0 <= k < |parts| - 1 ensures parts[1..][k] == parts[k + 1] { }
      }
    }
  }

  /** Reading one more segment at the end. */
  lemma {:induction false} AbsorbAllSnoc(c: Cookie, parts: seq<string>, part: string)
    ensures AbsorbAll(c, parts + [part]) ==
      match AbsorbAll(c, parts)
      case Err(e) => Err(e)
      case Ok(d) => if Refused(SegmentOf(part)) then Err(InvalidCookie) else Ok(Absorb(d, SegmentOf(part)))
    decreases |parts|
  {
    if parts == [] {
      assert ([] + [part])[1..] == [];
    } else {
      var g := SegmentOf(parts[0]);
      assert (parts + [part])[0] == parts[0];
      assert (parts + [part])[1..] == parts[1..] + [part];
      if !Refused(g) {
        AbsorbAllSnoc(Absorb(c, g), parts[1..], part);
      }
    }
  }

  /** An accepted reading of a non-empty list is the accepted reading of all
      but the last segment, followed by the last one. */
  lemma AbsorbAllStep(c: Cookie, parts: seq<string>)
    requires parts != [] && AbsorbAll(c, parts).Ok?
    ensures AbsorbAll(c, parts[..|parts| - 1]).Ok? && !Refused(SegmentOf(parts[|parts| - 1]))
    ensures AbsorbAll(c, parts).value ==
      Absorb(AbsorbAll(c, parts[..|parts| - 1]).value, SegmentOf(parts[|parts| - 1]))
  {
    var init, part := parts[..|parts| - 1], parts[|parts| - 1];
    assert parts == init + [part];
    AbsorbAllSnoc(c, init, part);
  }

  /** An accepted reading takes each attribute from the last segment that
      sets it; what no segment sets keeps its earlier value. */
  lemma {:induction false} AbsorbAllLastWins(c: Cookie, parts: seq<string>)
    requires AbsorbAll(c, parts).Ok?
    ensures var r := AbsorbAll(c, parts).value;
      && r.expires == (if LastWithKey(parts, "expires").Some? then LastWithKey(parts, "expires") else c.expires)
      && r.domain == (if LastWithKey(parts, "domain").Some? then LastWithKey(parts, "domain") else c.domain)
      && r.path == (if LastWithKey(parts, "path").Some?
                    then Some(StripSlashes(LastWithKey(parts, "path").value)) else c.path)
    decreases |parts|
  {
    if parts != [] {
      var init := parts[..|parts| - 1];
      var part := parts[|parts| - 1];
      AbsorbAllStep(c, parts);
      AbsorbAllLastWins(c, init);
      var g := SegmentOf(part);
      var d := AbsorbAll(c, init).value;
      var r := AbsorbAll(c, parts).value;
      assert r == Absorb(d, g);
      if g.key == "expires" {
        assert r.expires == g.value && r.path == d.path && r.domain == d.domain;
      } else if g.key == "path" {
        assert r.path == Some(StripSlashes(g.value.value)) && r.expires == d.expires && r.domain == d.domain;
      } else if g.key == "domain" {
        assert r.domain == g.value && r.expires == d.expires && r.path == d.path;
      } else {
        assert r.expires == d.expires && r.path == d.path && r.domain == d.domain;
      }
    }
  }

  /** An accepted reading takes the name and value from the last segment
      whose key is not an attribute; without one they keep their earlier
      values. */
  lemma {:induction false} AbsorbAllLastName(c: Cookie, parts: seq<string>)
    requires AbsorbAll(c, parts).Ok?
    ensures var r := AbsorbAll(c, parts).value;
      && (LastOther(parts).Some? ==>
            r.name == Some(LastOther(parts).value.key) && r.value == LastOther(parts).value.value)
      && (LastOther(parts).None? ==> r.name == c.name && r.value == c.value)
    decreases |parts|
  {
    if parts != [] {
      var init := parts[..|parts| - 1];
      var part := parts[|parts| - 1];
      AbsorbAllStep(c, parts);
      AbsorbAllLastName(c, init);
    }
  }

  /** The worked example: name foo, value bar, path /, domain example.com and
      no expiry. */
  lemma ExampleCookie(raw: string)
    requires raw == "foo=bar; path=/; domain=example.com"
    ensures CookieOf(raw) == Ok(Cookie(Some("foo"), Some("bar"), None, Some("/"), Some("example.com")))
  {
    ExampleLayout(raw);
    ExampleSegments();
    StripSlashesPlain("/");
    ThreeSegments(raw, "foo", "bar", "path", "/", "domain", "example.com");
  }

  lemma ExampleLayout(raw: string)
    requires raw == "foo=bar; path=/; domain=example.com"
    ensures raw == "foo" + "=" + "bar" + "; " + ("path" + "=" + "/" + "; " + ("domain" + "=" + "example.com"))
  {
  }

  lemma ExampleSegments()
    ensures Plain("foo") && Plain("bar") && Plain("path") && Plain("/") && Plain("domain") && Plain("example.com")
    ensures !Refused(Segment("foo", Some("bar"))) && !Refused(Segment("path", Some("/")))
    ensures !Refused(Segment("domain", Some("example.com")))
  {
  }

  /** Free of '=' and of ';'. */
  predicate Plain(s: string) {
    forall j :: 0 <= j < |s| ==> s[j] != '=' && s[j] != ';'
  }

  lemma ThreeSegments(raw: string, k0: string, v0: string, k1: string, v1: string, k2: string, v2: string)
    requires Plain(k0) && Plain(v0) && Plain(k1) && Plain(v1) && Plain(k2) && Plain(v2)
    requires !Refused(Segment(k0, Some(v0))) && !Refused(Segment(k1, Some(v1))) && !Refused(Segment(k2, Some(v2)))
    requires raw == k0 + "=" + v0 + "; " + (k1 + "=" + v1 + "; " + (k2 + "=" + v2))
    ensures
      CookieOf(raw) ==
        Ok(Absorb(Absorb(Absorb(NoCookie, Segment(k0, Some(v0))), Segment(k1, Some(v1))), Segment(k2, Some(v2))))
  {
    var p0, p1, p2 := k0 + "=" + v0, k1 + "=" + v1, k2 + "=" + v2;
    PlainJoin(k0, v0); PlainJoin(k1, v1); PlainJoin(k2, v2);
    var tail := p1 + "; " + p2;
    SplitTwo("; ", p1, p2);
    SplitThree("; ", p0, tail, p1, p2);
    SegmentExample(k0, v0);
    SegmentExample(k1, v1);
    SegmentExample(k2, v2);
    AbsorbThree(NoCookie, p0, p1, p2, Segment(k0, Some(v0)), Segment(k1, Some(v1)), Segment(k2, Some(v2)));
  }

  lemma AbsorbThree(c: Cookie, p0: string, p1: string, p2: string, g0: Segment, g1: Segment, g2: Segment)
    requires SegmentOf(p0) == g0 && SegmentOf(p1) == g1 && SegmentOf(p2) == g2
    requires !Refused(g0) && !Refused(g1) && !Refused(g2)
    ensures AbsorbAll(c, [p0, p1, p2]) == Ok(Absorb(Absorb(Absorb(c, g0), g1), g2))
  {
    var parts := [p0, p1, p2];
    var c1 := Absorb(c, g0);
    var c2 := Absorb(c1, g1);
    assert [p2][1..] == [];
    assert AbsorbAll(c2, [p2]) == Ok(Absorb(c2, g2));
    assert [p1, p2][1..] == [p2];
    assert AbsorbAll(c1, [p1, p2]) == AbsorbAll(c2, [p2]);
    assert parts[1..] == [p1, p2];
    assert AbsorbAll(c, parts) == AbsorbAll(c1, [p1, p2]);
  }

  lemma PlainJoin(k: string, v: string)
    requires Plain(k) && Plain(v)
    ensures forall j :: 0 <= j < |k + "=" + v| ==> (k + "=" + v)[j] != ';'
  {
  }

  lemma SplitTwo(d: string, b: string, c: string)
    requires |d| > 0
    requires forall j :: 0 <= j < |b| ==> b[j] != d[0]
    requires forall j :: 0 <= j < |c| ==> c[j] != d[0]
    ensures Split(d, b + d + c) == [b, c]
  {
    SplitCons(d, b, c);
    FindNone(c, d);
    SplitNoDelimiter(d, c);
  }

  lemma SplitThree(d: string, a: string, bc: string, b: string, c: string)
    requires |d| > 0
    requires forall j :: 0 <= j < |a| ==> a[j] != d[0]
    requires Split(d, bc) == [b, c]
    ensures Split(d, a + d + bc) == [a, b, c]
  {
    SplitCons(d, a, bc);
  }

  /** key=value with no further '=' is read as that key and value. */
  lemma SegmentExample(key: string, value: string)
    requires Plain(key) && Plain(value)
    ensures SegmentOf(key + "=" + value) == Segment(key, Some(value))
  {
    SplitCons("=", key, value);
    FindNone(value, "=");
  }

}
