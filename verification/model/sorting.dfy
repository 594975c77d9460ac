/** Ordering by a numeric key, newest first, as the `$sort: { createdAt: -1 }`
    stages do.  The sort is stable: elements with equal keys keep their store
    order (the database itself promises no particular order for ties). */
module Sorting {

  predicate SortedDesc<T>(s: seq<T>, key: T -> int) {
    forall i, j :: 0 <= i < j < |s| ==> key(s[i]) >= key(s[j])
  }

  /** Insert `x` after every element whose key is at least `key(x)`. */
  function InsertDesc<T(==)>(x: T, s: seq<T>, key: T -> int): (r: seq<T>)
    requires SortedDesc(s, key)
    ensures SortedDesc(r, key)
    ensures multiset(r) == multiset(s) + multiset{x}
    ensures |r| == |s| + 1
  {
    if |s| == 0 then [x]
    else if key(s[0]) >= key(x) then
      var rest := InsertDesc(x, s[1..], key);
      BelowHead(x, s, key, rest);
      ConsSorted(s[0], rest, key);
      assert s == [s[0]] + s[1..];
      [s[0]] + rest
    else
      ConsSorted(x, s, key);
      [x] + s
  }

  /** Inserting `x`, which is not above the head, into the tail of a sorted
      list keeps every element at or below the head. */
  lemma BelowHead<T>(x: T, s: seq<T>, key: T -> int, rest: seq<T>)
    requires SortedDesc(s, key) && |s| > 0 && key(s[0]) >= key(x)
    requires multiset(rest) == multiset(s[1..]) + multiset{x}
    ensures forall k :: 0 <= k < |rest| ==> key(rest[k]) <= key(s[0])
  {
    forall k | 0 <= k < |rest|
      ensures key(rest[k]) <= key(s[0])
    {
      var y := rest[k];
      assert y in multiset(rest);
      if y != x {
        assert y in multiset(s[1..]);
        var j :| 0 <= j < |s[1..]| && s[1..][j] == y;
        assert s[j + 1] == y;
      }
    }
  }

  lemma ConsSorted<T>(h: T, s: seq<T>, key: T -> int)
    requires SortedDesc(s, key)
    requires forall k :: 0 <= k < |s| ==> key(s[k]) <= key(h)
    ensures SortedDesc([h] + s, key)
  {
    var r := [h] + s;
    forall i, j | 0 <= i < j < |r|
      ensures key(r[i]) >= key(r[j])
    {
      assert r[j] == s[j - 1];
      if i > 0 {
        assert r[i] == s[i - 1];
      }
    }
  }

  /** Stable insertion sort, newest (largest key) first. */
  function SortDesc<T(==)>(s: seq<T>, key: T -> int): (r: seq<T>)
    ensures SortedDesc(r, key)
    ensures multiset(r) == multiset(s)
    ensures |r| == |s|
  {
    if |s| == 0 then []
    else
      assert s == s[..|s| - 1] + [s[|s| - 1]];
      InsertDesc(s[|s| - 1], SortDesc(s[..|s| - 1], key), key)
  }

  /** A single element is already in order. */
  lemma SortSingleton<T>(s: seq<T>, key: T -> int)
    requires |s| == 1
    ensures SortDesc(s, key) == s
  {
    var r := SortDesc(s, key);
    assert r[0] in multiset(s);
  }

  /** The first element of a newest-first ordering has the largest key. */
  lemma HeadIsMax<T>(s: seq<T>, key: T -> int)
    requires |s| > 0
    ensures var r := SortDesc(s, key);
            r[0] in s && forall x :: x in s ==> key(r[0]) >= key(x)
  {
    var r := SortDesc(s, key);
    assert r[0] in multiset(r);
    forall x | x in s
      ensures key(r[0]) >= key(x)
    {
      assert x in multiset(s);
      assert x in r;
      var j :| 0 <= j < |r| && r[j] == x;
    }
  }
}
