/**
  Listing helpers for the repositories: a table (a finite set of rows)
  becomes a sequence with every row exactly once, ordered by an integer
  key the way an SQL `ORDER BY` orders it. Ties are left in whatever order
  the helper produces, as SQL leaves them unspecified.
 */
module Sorting {

  /** Non-decreasing by `key`. A descending order is an ascending one by the negated key. */
  predicate SortedBy<T>(s: seq<T>, key: T -> int) {
    forall i, j :: 0 <= i < j < |s| ==> key(s[i]) <= key(s[j])
  }

  function InsertBy<T>(x: T, s: seq<T>, key: T -> int): (r: seq<T>)
    requires SortedBy(s, key)
    ensures SortedBy(r, key)
    ensures multiset(r) == multiset(s) + multiset{x}
    decreases |s|
  {
    if |s| == 0 then [x]
    else if key(x) <= key(s[0]) then [x] + s
    else
      var rest := InsertBy(x, s[1..], key);
      assert s == [s[0]] + s[1..];
      forall e | e in rest
        ensures key(s[0]) <= key(e)
      {
        assert e in multiset(rest);
        if e != x {
          assert e in multiset(s[1..]);
        }
      }
      SortedCons(s[0], rest, key);
      [s[0]] + rest
  }

  lemma SortedCons<T>(h: T, t: seq<T>, key: T -> int)
    requires SortedBy(t, key)
    requires forall e :: e in t ==> key(h) <= key(e)
    ensures SortedBy([h] + t, key)
  {
    var s := [h] + t;
    forall i, j | 0 <= i < j < |s|
      ensures key(s[i]) <= key(s[j])
    {
      assert s[j] == t[j - 1];
      if i > 0 {
        assert s[i] == t[i - 1];
      }
    }
  }

  function SortBy<T>(s: seq<T>, key: T -> int): (r: seq<T>)
    ensures SortedBy(r, key)
    ensures multiset(r) == multiset(s)
    decreases |s|
  {
    if |s| == 0 then []
    else
      assert s == [s[0]] + s[1..];
      InsertBy(s[0], SortBy(s[1..], key), key)
  }

  /** Every element of `s` exactly once, in an unspecified order. */
  method Enumerate<T>(s: set<T>) returns (r: seq<T>)
    ensures |r| == |s|
    ensures forall x :: x in r <==> x in s
  {
    r := [];
    var rest := s;
    while rest != {}
      invariant rest <= s
      invariant forall x :: x in r <==> x in s - rest
      invariant |r| == |s - rest|
      decreases |rest|
    {
      var x :| x in rest;
      assert s - (rest - {x}) == (s - rest) + {x};
      r := r + [x];
      rest := rest - {x};
    }
  }

  /** The rows of `s`, each exactly once, ordered by `key`. */
  method OrderBy<T>(s: set<T>, key: T -> int) returns (r: seq<T>)
    ensures |r| == |s|
    ensures forall x :: x in r <==> x in s
    ensures SortedBy(r, key)
  {
    var xs := Enumerate(s);
    r := SortBy(xs, key);
    assert |multiset(r)| == |multiset(xs)|;
    assert forall x :: x in r <==> x in multiset(xs);
  }

  /** A sequence as long as the set it enumerates repeats nothing. */
  lemma DistinctInOrder<T>(s: set<T>, r: seq<T>, i: int, j: int)
    requires |r| == |s| && forall x :: x in r <==> x in s
    requires 0 <= i < j < |r|
    ensures r[i] != r[j]
  {
    if r[i] == r[j] {
      var shorter := r[..j] + r[j + 1..];
      assert forall x :: x in r ==> x in shorter by {
        forall x | x in r ensures x in shorter {
          var n :| 0 <= n < |r| && r[n] == x;
          if n < j {
            assert shorter[n] == x;
          } else if n == j {
            assert shorter[i] == x;
          } else {
            assert shorter[n - 1] == x;
          }
        }
      }
      SetWithinSeq(s, shorter);
    }
  }

  /** A set whose elements all occur in a sequence has at most as many elements. */
  lemma {:induction false} SetWithinSeq<T>(s: set<T>, r: seq<T>)
    requires forall x :: x in s ==> x in r
    ensures |s| <= |r|
    decreases |r|
  {
    if |r| == 0 {
      assert s == {};
    } else {
      var rest := s - {r[0]};
      forall x | x in rest ensures x in r[1..] {
        var n :| 0 <= n < |r| && r[n] == x;
        assert n != 0;
        assert r[1..][n - 1] == x;
      }
      SetWithinSeq(rest, r[1..]);
    }
  }
}
