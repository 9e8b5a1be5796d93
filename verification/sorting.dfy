/**
 A stable sort of a sequence by a real-valued key, the behaviour
 `java.util.Collections.sort` guarantees for a comparator that orders by that
 key: the result is ordered by the key, is a permutation of the input, and
 elements with equal keys keep their relative order.
 */
module Sorting {

  /** Non-decreasing in `key`. */
  ghost predicate SortedBy<T>(s: seq<T>, key: T -> real)
  {
    forall i, j :: 0 <= i < j < |s| ==> key(s[i]) <= key(s[j])
  }

  /** No two elements of `s` agree on `f`. */
  ghost predicate DistinctBy<T, U>(s: seq<T>, f: T -> U)
  {
    forall i, j :: 0 <= i < j < |s| ==> f(s[i]) != f(s[j])
  }

  /** The elements of `s` whose key is `v`, in their order in `s`. */
  function WithKey<T>(s: seq<T>, key: T -> real, v: real): seq<T>
  {
    if |s| == 0 then []
    else (if key(s[0]) == v then [s[0]] else []) + WithKey(s[1..], key, v)
  }

  /** Places `x` in front of the first element whose key is not below its own. */
  function InsertBy<T>(x: T, s: seq<T>, key: T -> real): (r: seq<T>)
    requires SortedBy(s, key)
    ensures |r| == |s| + 1
    ensures multiset(r) == multiset(s) + multiset{x}
    ensures SortedBy(r, key)
  {
    if |s| == 0 then [x]
    else if key(x) <= key(s[0]) then [x] + s
    else
      var t := InsertBy(x, s[1..], key);
      InsertByBounded(s[0], t, x, s[1..], key);
      assert s == [s[0]] + s[1..];
      [s[0]] + t
  }

  /** Putting `y` in front of a sorted `t` whose elements are not below it keeps the order. */
  lemma InsertByBounded<T>(y: T, t: seq<T>, x: T, s: seq<T>, key: T -> real)
    requires SortedBy(t, key) && SortedBy([y] + s, key)
    requires multiset(t) == multiset(s) + multiset{x}
    requires key(y) <= key(x)
    ensures SortedBy([y] + t, key)
  {
    forall i | 0 <= i < |t|
      ensures key(y) <= key(t[i])
    {
      assert t[i] in multiset(t);
      if t[i] != x {
        assert t[i] in multiset(s);
        var j :| 0 <= j < |s| && s[j] == t[i];
        assert ([y] + s)[0] == y && ([y] + s)[j + 1] == t[i];
        assert key(([y] + s)[0]) <= key(([y] + s)[j + 1]);
      }
    }
  }

  /** Insertion sort: each element goes in front of the equal-keyed elements after it. */
  function SortBy<T>(s: seq<T>, key: T -> real): (r: seq<T>)
    ensures SortedBy(r, key)
    ensures multiset(r) == multiset(s)
    ensures |r| == |s|
  {
    if |s| == 0 then []
    else
      assert s == [s[0]] + s[1..];
      InsertBy(s[0], SortBy(s[1..], key), key)
  }

  /** Sorting keeps exactly the elements it was given. */
  lemma SortByMembers<T>(s: seq<T>, key: T -> real, y: T)
    ensures y in SortBy(s, key) <==> y in s
  {
    assert y in SortBy(s, key) <==> y in multiset(SortBy(s, key));
    assert y in s <==> y in multiset(s);
  }

  /** Every element of the sorted list is an element of the input. */
  lemma SortByElementsFrom<T>(s: seq<T>, key: T -> real)
    ensures forall i :: 0 <= i < |SortBy(s, key)| ==> SortBy(s, key)[i] in s
  {
    var r := SortBy(s, key);
    forall i | 0 <= i < |r|
      ensures r[i] in s
    {
      SortByMembers(s, key, r[i]);
    }
  }

  lemma WithKeyCons<T>(y: T, t: seq<T>, key: T -> real, v: real)
    ensures WithKey([y] + t, key, v) == (if key(y) == v then [y] else []) + WithKey(t, key, v)
  {
    assert ([y] + t)[1..] == t;
  }

  lemma {:induction false} InsertByWithKey<T>(x: T, s: seq<T>, key: T -> real, v: real)
    requires SortedBy(s, key)
    ensures WithKey(InsertBy(x, s, key), key, v)
            == (if key(x) == v then [x] else []) + WithKey(s, key, v)
  {
    if |s| == 0 {
      WithKeyCons(x, [], key, v);
      assert [x] + [] == [x];
    } else if key(x) <= key(s[0]) {
      WithKeyCons(x, s, key, v);
    } else {
      var t := InsertBy(x, s[1..], key);
      assert InsertBy(x, s, key) == [s[0]] + t;
      InsertByWithKey(x, s[1..], key, v);
      WithKeyCons(s[0], t, key, v);
      WithKeyCons(s[0], s[1..], key, v);
      assert [s[0]] + s[1..] == s;
    }
  }

  /** The sort is stable: the elements sharing any one key keep their order. */
  lemma {:induction false} SortByStable<T>(s: seq<T>, key: T -> real, v: real)
    ensures WithKey(SortBy(s, key), key, v) == WithKey(s, key, v)
  {
    if |s| > 0 {
      SortByStable(s[1..], key, v);
      InsertByWithKey(s[0], SortBy(s[1..], key), key, v);
    }
  }

  /** Sorting a sequence that is already in key order leaves it as it is. */
  lemma {:induction false} SortBySorted<T>(s: seq<T>, key: T -> real)
    requires SortedBy(s, key)
    ensures SortBy(s, key) == s
  {
    if |s| > 0 {
      assert SortedBy(s[1..], key);
      SortBySorted(s[1..], key);
      assert s == [s[0]] + s[1..];
    }
  }

  /** When every key is the same the sort changes nothing. */
  lemma SortByConstantKey<T>(s: seq<T>, key: T -> real)
    requires forall i :: 0 <= i < |s| ==> key(s[i]) == key(s[0])
    ensures SortBy(s, key) == s
  {
    SortBySorted(s, key);
  }

  /** An element that disagrees with every element of `s` can go in front. */
  lemma ConsDistinct<T, U>(x: T, s: seq<T>, f: T -> U)
    requires DistinctBy(s, f)
    requires forall i :: 0 <= i < |s| ==> f(s[i]) != f(x)
    ensures DistinctBy([x] + s, f)
  {
    var r := [x] + s;
    forall i, j | 0 <= i < j < |r|
      ensures f(r[i]) != f(r[j])
    {
      assert r[j] == s[j - 1];
      if i > 0 {
        assert r[i] == s[i - 1];
      }
    }
  }

  lemma {:induction false} InsertByDistinct<T, U>(x: T, s: seq<T>, key: T -> real, f: T -> U)
    requires SortedBy(s, key) && DistinctBy(s, f)
    requires forall i :: 0 <= i < |s| ==> f(s[i]) != f(x)
    ensures DistinctBy(InsertBy(x, s, key), f)
  {
    if |s| == 0 {
    } else if key(x) <= key(s[0]) {
      ConsDistinct(x, s, f);
    } else {
      var t := InsertBy(x, s[1..], key);
      InsertByDistinct(x, s[1..], key, f);
      forall i | 0 <= i < |t|
        ensures f(s[0]) != f(t[i])
      {
        assert t[i] in multiset(t);
        if t[i] != x {
          assert t[i] in multiset(s[1..]);
          var j :| 0 <= j < |s[1..]| && s[1..][j] == t[i];
          assert s[j + 1] == t[i];
        }
      }
      ConsDistinct(s[0], t, f);
      assert InsertBy(x, s, key) == [s[0]] + t;
    }
  }

  /** Sorting keeps elements that disagree on `f` disagreeing: it only moves them. */
  lemma {:induction false} SortByDistinct<T, U>(s: seq<T>, key: T -> real, f: T -> U)
    requires DistinctBy(s, f)
    ensures DistinctBy(SortBy(s, key), f)
  {
    if |s| > 0 {
      var t := SortBy(s[1..], key);
      assert DistinctBy(s[1..], f) by {
        forall i, j | 0 <= i < j < |s[1..]|
          ensures f(s[1..][i]) != f(s[1..][j])
        {
          assert s[1..][i] == s[i + 1] && s[1..][j] == s[j + 1];
        }
      }
      SortByDistinct(s[1..], key, f);
      forall i | 0 <= i < |t|
        ensures f(t[i]) != f(s[0])
      {
        SortByMembers(s[1..], key, t[i]);
        var j :| 0 <= j < |s[1..]| && s[1..][j] == t[i];
        assert s[j + 1] == t[i];
      }
      InsertByDistinct(s[0], t, key, f);
    }
  }
}
