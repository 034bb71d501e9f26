/** The key order ksort applies to non-numeric string keys (byte-wise, as
    strcmp compares), and the ascending enumeration of a finite key set. */
module KeyOrder {

  /** a sorts before b or equals it: a is a prefix of b, or a is smaller at
      the first position where they differ. */
  predicate LexLeq(a: string, b: string)
    decreases |a|
  {
    a == [] || (b != [] && (a[0] < b[0] || (a[0] == b[0] && LexLeq(a[1..], b[1..]))))
  }

  lemma {:induction false} LexTotal(a: string, b: string)
    ensures LexLeq(a, b) || LexLeq(b, a)
    decreases |a|
  {
    if a != [] && b != [] && a[0] == b[0] { LexTotal(a[1..], b[1..]); }
  }

  lemma {:induction false} LexReflexive(a: string)
    ensures LexLeq(a, a)
    decreases |a|
  {
    if a != [] { LexReflexive(a[1..]); }
  }

  lemma {:induction false} LexAntisymmetric(a: string, b: string)
    requires LexLeq(a, b) && LexLeq(b, a)
    ensures a == b
    decreases |a|
  {
    if a != [] {
      LexAntisymmetric(a[1..], b[1..]);
      assert a == [a[0]] + a[1..] && b == [b[0]] + b[1..];
    }
  }

  lemma {:induction false} LexTransitive(a: string, b: string, c: string)
    requires LexLeq(a, b) && LexLeq(b, c)
    ensures LexLeq(a, c)
    decreases |a|
  {
    if a != [] && a[0] == b[0] && b[0] == c[0] {
      LexTransitive(a[1..], b[1..], c[1..]);
    }
  }

  /** k is a least element of ks. */
  ghost predicate IsLeast(k: string, ks: set<string>) {
    k in ks && forall j :: j in ks ==> LexLeq(k, j)
  }

  lemma {:induction false} LeastExists(ks: set<string>)
    requires ks != {}
    ensures exists k :: IsLeast(k, ks)
    decreases ks
  {
    var x :| x in ks;
    var rest := ks - {x};
    if rest == {} {
      assert ks == {x};
      LexReflexive(x);
      assert IsLeast(x, ks);
    } else {
      LeastExists(rest);
      var m :| IsLeast(m, rest);
      LexTotal(x, m);
      if LexLeq(x, m) {
        forall j | j in ks ensures LexLeq(x, j) {
          if j != x { LexTransitive(x, m, j); } else { LexReflexive(x); }
        }
        assert IsLeast(x, ks);
      } else {
        assert IsLeast(m, ks);
      }
    }
  }

  lemma LeastUnique(a: string, b: string, ks: set<string>)
    requires IsLeast(a, ks) && IsLeast(b, ks)
    ensures a == b
  {
    LexAntisymmetric(a, b);
  }

  /** The least key of a non-empty key set. */
  ghost function Least(ks: set<string>): (k: string)
    requires ks != {}
    ensures IsLeast(k, ks)
  {
    LeastExists(ks);
    var k :| IsLeast(k, ks); k
  }

  /** The keys of ks in ascending order, as ksort leaves them. */
  ghost function Sorted(ks: set<string>): (r: seq<string>)
    ensures |r| == |ks|
    ensures forall k :: k in r <==> k in ks
    decreases ks
  {
    if ks == {} then [] else
      var k := Least(ks);
      [k] + Sorted(ks - {k})
  }

  /** Each element sorts strictly before every later one. */
  ghost predicate StrictlyAscending(r: seq<string>) {
    forall i, j :: 0 <= i < j < |r| ==> LexLeq(r[i], r[j]) && r[i] != r[j]
  }

  /** The enumeration is strictly ascending, so each key of the set appears
      exactly once and in ksort's order. */
  lemma {:induction false} SortedAscending(ks: set<string>)
    ensures StrictlyAscending(Sorted(ks))
    decreases ks
  {
    if ks != {} {
      var k := Least(ks);
      var rest := ks - {k};
      SortedAscending(rest);
      var tail := Sorted(rest);
      assert Sorted(ks) == [k] + tail;
      forall j | 0 <= j < |tail| ensures LexLeq(k, tail[j]) && k != tail[j] {
        assert tail[j] in rest;
      }
      HeadAscending(k, tail);
    }
  }

  lemma HeadAscending(k: string, tail: seq<string>)
    requires StrictlyAscending(tail)
    requires forall j :: 0 <= j < |tail| ==> LexLeq(k, tail[j]) && k != tail[j]
    ensures StrictlyAscending([k] + tail)
  {
    var r := [k] + tail;
    forall i, j | 0 <= i < j < |r| ensures LexLeq(r[i], r[j]) && r[i] != r[j] {
      if i == 0 {
        assert r[j] == tail[j - 1];
      } else {
        assert r[i] == tail[i - 1] && r[j] == tail[j - 1];
      }
    }
  }

  /** s with every occurrence of x dropped. */
  function Without(s: seq<string>, x: string): (r: seq<string>)
    ensures forall k :: k in r <==> k in s && k != x
    decreases |s|
  {
    if s == [] then [] else (if s[0] == x then [] else [s[0]]) + Without(s[1..], x)
  }

  lemma {:induction false} WithoutAscending(s: seq<string>, x: string)
    requires StrictlyAscending(s)
    ensures StrictlyAscending(Without(s, x))
    decreases |s|
  {
    if s != [] {
      var tail := s[1..];
      assert StrictlyAscending(tail) by {
        forall i, j | 0 <= i < j < |tail| ensures LexLeq(tail[i], tail[j]) && tail[i] != tail[j] {
          assert tail[i] == s[i + 1] && tail[j] == s[j + 1];
        }
      }
      WithoutAscending(tail, x);
      if s[0] != x {
        var rest := Without(tail, x);
        forall j | 0 <= j < |rest| ensures LexLeq(s[0], rest[j]) && s[0] != rest[j] {
          assert rest[j] in rest;
          var m :| 0 <= m < |tail| && tail[m] == rest[j];
          assert tail[m] == s[m + 1];
        }
        HeadAscending(s[0], rest);
      }
    }
  }

  /** There is only one strictly ascending arrangement of a set of keys. */
  lemma {:induction false} AscendingUnique(a: seq<string>, b: seq<string>)
    requires StrictlyAscending(a) && StrictlyAscending(b)
    requires forall k :: k in a <==> k in b
    ensures a == b
    decreases |a|
  {
    SameKeysNonEmpty(a, b);
    if a != [] {
      assert a[0] in b;
      var i :| 0 <= i < |b| && b[i] == a[0];
      assert b[0] in a;
      var j :| 0 <= j < |a| && a[j] == b[0];
      if i == 0 { LexReflexive(a[0]); } else { assert LexLeq(b[0], b[i]); }
      if j == 0 { LexReflexive(b[0]); } else { assert LexLeq(a[0], a[j]); }
      LexAntisymmetric(a[0], b[0]);
      var ta, tb := a[1..], b[1..];
      assert StrictlyAscending(ta) by {
        forall p, q | 0 <= p < q < |ta| ensures LexLeq(ta[p], ta[q]) && ta[p] != ta[q] {
          assert ta[p] == a[p + 1] && ta[q] == a[q + 1];
        }
      }
      assert StrictlyAscending(tb) by {
        forall p, q | 0 <= p < q < |tb| ensures LexLeq(tb[p], tb[q]) && tb[p] != tb[q] {
          assert tb[p] == b[p + 1] && tb[q] == b[q + 1];
        }
      }
      forall k ensures k in ta <==> k in tb {
        if k in ta {
          var p :| 0 <= p < |ta| && ta[p] == k;
          assert a[p + 1] == k && a[0] != k;
          assert k in a;
          var q :| 0 <= q < |b| && b[q] == k;
          assert q != 0;
          assert tb[q - 1] == k;
        }
        if k in tb {
          var p :| 0 <= p < |tb| && tb[p] == k;
          assert b[p + 1] == k && b[0] != k;
          assert k in b;
          var q :| 0 <= q < |a| && a[q] == k;
          assert q != 0;
          assert ta[q - 1] == k;
        }
      }
      AscendingUnique(ta, tb);
      assert a == [a[0]] + ta && b == [b[0]] + tb;
    }
  }

  lemma SameKeysNonEmpty(a: seq<string>, b: seq<string>)
    requires forall k :: k in a <==> k in b
    ensures a == [] <==> b == []
  {
    if a != [] { assert a[0] in b; }
    if b != [] { assert b[0] in a; }
  }

  /** ksort's result depends only on the set of keys: any strictly ascending
      listing of ks is the enumeration Sorted(ks). */
  lemma SortedUnique(ks: set<string>, r: seq<string>)
    requires StrictlyAscending(r) && forall k :: k in r <==> k in ks
    ensures r == Sorted(ks)
  {
    SortedAscending(ks);
    AscendingUnique(r, Sorted(ks));
  }

  /** Skipping one key of the enumeration gives the enumeration of the rest. */
  lemma SortedWithout(ks: set<string>, x: string)
    ensures Without(Sorted(ks), x) == Sorted(ks - {x})
  {
    SortedAscending(ks);
    WithoutAscending(Sorted(ks), x);
    SortedUnique(ks - {x}, Without(Sorted(ks), x));
  }

  /** The enumeration starts with the least key. */
  lemma SortedLeast(ks: set<string>, k: string)
    requires IsLeast(k, ks)
    ensures Sorted(ks) == [k] + Sorted(ks - {k})
  {
    LeastUnique(k, Least(ks), ks);
  }
}
