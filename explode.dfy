/** PHP's explode and implode on strings: explode(d, s) cuts s at every
    occurrence of the delimiter d, scanning left to right. */
module Explode {
  import opened Common

  /** The delimiter d occurs in s starting at index i. */
  predicate OccursAt(s: string, d: string, i: nat) {
    i + |d| <= |s| && s[i..i + |d|] == d
  }

  /** The first occurrence of d in s at or after index i. */
  function FindFrom(s: string, d: string, i: nat): (r: Option<nat>)
    requires |d| > 0
    ensures r.Some? ==> i <= r.value && OccursAt(s, d, r.value)
    ensures r.Some? ==> forall j: nat :: i <= j < r.value ==> !OccursAt(s, d, j)
    ensures r.None? ==> forall j: nat :: i <= j ==> !OccursAt(s, d, j)
    decreases |s| - i
  {
    if i + |d| > |s| then None
    else if s[i..i + |d|] == d then Some(i)
    else FindFrom(s, d, i + 1)
  }

  /** The first occurrence of d in s. */
  function Find(s: string, d: string): (r: Option<nat>)
    requires |d| > 0
    ensures r.Some? ==> OccursAt(s, d, r.value) && forall j: nat :: j < r.value ==> !OccursAt(s, d, j)
    ensures r.None? <==> forall j: nat :: !OccursAt(s, d, j)
  {
    FindFrom(s, d, 0)
  }

  /** An occurrence with none before it is the first one. */
  lemma FindIs(s: string, d: string, i: nat)
    requires |d| > 0 && OccursAt(s, d, i)
    requires forall j: nat :: j < i ==> s[j] != d[0]
    ensures Find(s, d) == Some(i)
  {
    forall j: nat | j < i ensures !OccursAt(s, d, j) {
      if j + |d| <= |s| { assert s[j..j + |d|][0] == s[j]; }
    }
  }

  /** A string that never contains the delimiter's first character has no
      occurrence of it. */
  lemma FindNone(s: string, d: string)
    requires |d| > 0
    requires forall j :: 0 <= j < |s| ==> s[j] != d[0]
    ensures Find(s, d).None?
  {
    forall j: nat | true ensures !OccursAt(s, d, j) {
      if j + |d| <= |s| { assert s[j..j + |d|][0] == s[j]; }
    }
  }

  /** Cutting at a first occurrence: a piece without the delimiter's first
      character, the delimiter, then the rest. */
  lemma SplitCons(d: string, a: string, rest: string)
    requires |d| > 0
    requires forall j :: 0 <= j < |a| ==> a[j] != d[0]
    ensures Split(d, a + d + rest) == [a] + Split(d, rest)
  {
    var s := a + d + rest;
    assert s[|a|..|a| + |d|] == d;
    FindIs(s, d, |a|);
    assert s[..|a|] == a && s[|a| + |d|..] == rest;
  }

  /** explode(d, s): the pieces between consecutive leftmost occurrences of d. */
  function Split(d: string, s: string): (r: seq<string>)
    requires |d| > 0
    ensures |r| >= 1
    decreases |s|
  {
    match Find(s, d)
    case None => [s]
    case Some(i) => [s[..i]] + Split(d, s[i + |d|..])
  }

  /** implode(d, parts). */
  function Join(d: string, parts: seq<string>): string
    decreases |parts|
  {
    if parts == [] then ""
    else if |parts| == 1 then parts[0]
    else parts[0] + d + Join(d, parts[1..])
  }

  /** Joining the pieces again with the delimiter gives back the string. */
  lemma {:induction false} JoinSplit(d: string, s: string)
    requires |d| > 0
    ensures Join(d, Split(d, s)) == s
    decreases |s|
  {
    var f := Find(s, d);
    if f.Some? {
      var i := f.value;
      var rest := s[i + |d|..];
      JoinSplit(d, rest);
      SplitStep(d, s, i);
      assert s[..i] + d + rest == s by {
        assert s[i..i + |d|] == d;
        assert s == s[..i] + s[i..i + |d|] + rest;
      }
    }
  }

  lemma SplitStep(d: string, s: string, i: nat)
    requires |d| > 0 && Find(s, d) == Some(i)
    ensures Join(d, Split(d, s)) == s[..i] + d + Join(d, Split(d, s[i + |d|..]))
  {
    var parts := Split(d, s);
    var tail := Split(d, s[i + |d|..]);
    assert parts == [s[..i]] + tail;
    assert |parts| >= 2 && parts[0] == s[..i] && parts[1..] == tail;
    assert Join(d, parts) == parts[0] + d + Join(d, parts[1..]);
  }

  /** No piece contains the delimiter. */
  lemma {:induction false} SplitPiecesFree(d: string, s: string)
    requires |d| > 0
    ensures forall k :: 0 <= k < |Split(d, s)| ==> Find(Split(d, s)[k], d).None?
    decreases |s|
  {
    match Find(s, d)
    case None =>
    case Some(i) =>
      var head := s[..i];
      forall j: nat ensures !OccursAt(head, d, j) {
        if j + |d| <= |head| {
          assert j < i && !OccursAt(s, d, j);
          assert head[j..j + |d|] == s[j..j + |d|];
        }
      }
      SplitPiecesFree(d, s[i + |d|..]);
      var parts := Split(d, s);
      assert parts == [head] + Split(d, s[i + |d|..]);
      forall k | 0 <= k < |parts| ensures Find(parts[k], d).None? {
        if k > 0 { assert parts[k] == Split(d, s[i + |d|..])[k - 1]; }
      }
  }

  /** Without an occurrence of d there is exactly one piece, the whole string. */
  lemma SplitNoDelimiter(d: string, s: string)
    requires |d| > 0
    ensures Find(s, d).None? <==> Split(d, s) == [s]
  {
    if Find(s, d).Some? {
      var i := Find(s, d).value;
      var parts := Split(d, s);
      assert |parts| >= 2;
    }
  }

  /** The first piece is the text before the first occurrence; the second, when
      there is one, is the text between the first and the second occurrence. */
  lemma SplitFirstTwo(d: string, s: string)
    requires |d| > 0
    ensures Find(s, d).Some? ==>
      var i := Find(s, d).value;
      var rest := s[i + |d|..];
      |Split(d, s)| >= 2 && Split(d, s)[0] == s[..i] &&
      Split(d, s)[1] == (match Find(rest, d) case None => rest case Some(j) => rest[..j])
  {
    if Find(s, d).Some? {
      var i := Find(s, d).value;
      var rest := s[i + |d|..];
      assert Split(d, s) == [s[..i]] + Split(d, rest);
    }
  }

  /** implode(',', uids) for a list of integer user ids. */
  function JoinInts(sep: string, xs: seq<int>): (r: string)
    ensures xs == [] ==> r == ""
    ensures |xs| == 1 ==> r == IntToString(xs[0])
  {
    Join(sep, seq(|xs|, k requires 0 <= k < |xs| => IntToString(xs[k])))
  }

  /** Splitting the joined pieces gives the pieces back, when no piece holds
      the delimiter's first character. */
  lemma {:induction false} SplitJoin(d: string, parts: seq<string>)
    requires |d| > 0 && parts != []
    requires forall k, j :: 0 <= k < |parts| && 0 <= j < |parts[k]| ==> parts[k][j] != d[0]
    ensures Split(d, Join(d, parts)) == parts
    decreases |parts|
  {
    var p0 := parts[0];
    assert forall j :: 0 <= j < |p0| ==> p0[j] != d[0] by {
      forall j | 0 <= j < |p0| ensures p0[j] != d[0] { assert parts[0][j] == p0[j]; }
    }
    if |parts| == 1 {
      FindNone(p0, d);
      SplitNoDelimiter(d, p0);
      assert parts == [p0];
    } else {
      var rest := parts[1..];
      forall k, j | 0 <= k < |rest| && 0 <= j < |rest[k]| ensures rest[k][j] != d[0] {
        assert rest[k] == parts[k + 1];
      }
      SplitJoin(d, rest);
      SplitCons(d, p0, Join(d, rest));
      assert parts == [p0] + rest;
    }
  }

  /** The decimal text of an integer holds no comma. */
  lemma IntTextNoComma(i: int)
    ensures forall j :: 0 <= j < |IntToString(i)| ==> IntToString(i)[j] != ','
  {
    if i < 0 {
      var t := NatToString(-i);
      forall j | 0 <= j < |IntToString(i)| ensures IntToString(i)[j] != ',' {
        if j > 0 { assert IntToString(i)[j] == t[j - 1]; }
      }
    }
  }

  /** implode(',', uids) can be read back: splitting at the commas and
      int-casting each piece yields the ids again. */
  lemma ImplodeRoundTrip(xs: seq<int>)
    requires xs != []
    ensures var pieces := Split(",", JoinInts(",", xs));
      |pieces| == |xs| && forall k :: 0 <= k < |xs| ==> StringToInt(pieces[k]) == xs[k]
  {
    var texts := seq(|xs|, k requires 0 <= k < |xs| => IntToString(xs[k]));
    forall k, j | 0 <= k < |texts| && 0 <= j < |texts[k]| ensures texts[k][j] != ","[0] {
      IntTextNoComma(xs[k]);
    }
    SplitJoin(",", texts);
    forall k | 0 <= k < |xs| ensures StringToInt(texts[k]) == xs[k] {
      StringToIntRoundTrip(xs[k]);
    }
  }
}
