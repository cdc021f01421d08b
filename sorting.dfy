/** The store's `_sort=<field>&_order=asc|desc` and `Array.prototype.sort`
    with a numeric comparator: a stable insertion sort on an integer key. */
module Sorting {
  import opened Common

  /** `a` may come before `b` in the requested direction. */
  predicate InOrder(a: int, b: int, desc: bool)
  {
    if desc then a >= b else a <= b
  }

  ghost predicate SortedBy<T>(s: seq<T>, key: T -> int, desc: bool)
  {
    forall i, j :: 0 <= i < j < |s| ==> InOrder(key(s[i]), key(s[j]), desc)
  }

  /** Puts `x` in front of the first element it may precede, so that `x` stays
      ahead of the elements with an equal key (stability). */
  function Insert<T>(x: T, s: seq<T>, key: T -> int, desc: bool): (r: seq<T>)
    requires SortedBy(s, key, desc)
    ensures SortedBy(r, key, desc)
    ensures multiset(r) == multiset(s) + multiset{x}
    ensures |r| == |s| + 1
  {
    if s == [] then [x]
    else if InOrder(key(x), key(s[0]), desc) then
      LeadsAll(x, s, key, desc);
      ConsSorted(x, s, key, desc);
      [x] + s
    else
      var rest := Insert(x, s[1..], key, desc);
      assert s == [s[0]] + s[1..];
      HeadLeadsRest(x, s, rest, key, desc);
      ConsSorted(s[0], rest, key, desc);
      [s[0]] + rest
  }

  /** An element that may precede every element of a sorted sequence may be
      put in front of it. */
  lemma ConsSorted<T>(h: T, s: seq<T>, key: T -> int, desc: bool)
    requires SortedBy(s, key, desc)
    requires forall k :: 0 <= k < |s| ==> InOrder(key(h), key(s[k]), desc)
    ensures SortedBy([h] + s, key, desc)
  {
    var r := [h] + s;
    forall i, j | 0 <= i < j < |r| ensures InOrder(key(r[i]), key(r[j]), desc) {
      assert r[j] == s[j - 1];
      if i > 0 {
        assert r[i] == s[i - 1];
      }
    }
  }

  /** An element that may precede the head of a sorted sequence may precede
      all of it. */
  lemma LeadsAll<T>(x: T, s: seq<T>, key: T -> int, desc: bool)
    requires SortedBy(s, key, desc) && s != [] && InOrder(key(x), key(s[0]), desc)
    ensures forall k :: 0 <= k < |s| ==> InOrder(key(x), key(s[k]), desc)
  {
    forall k | 0 < k < |s| ensures InOrder(key(s[0]), key(s[k]), desc) {
    }
  }

  /** When `x` goes behind the head, the head precedes everything `x` is
      inserted among. */
  lemma HeadLeadsRest<T>(x: T, s: seq<T>, rest: seq<T>, key: T -> int, desc: bool)
    requires SortedBy(s, key, desc) && s != [] && !InOrder(key(x), key(s[0]), desc)
    requires multiset(rest) == multiset(s[1..]) + multiset{x}
    ensures forall k :: 0 <= k < |rest| ==> InOrder(key(s[0]), key(rest[k]), desc)
  {
    forall k | 0 <= k < |rest| ensures InOrder(key(s[0]), key(rest[k]), desc) {
      assert rest[k] in multiset(rest);
      if rest[k] != x {
        assert rest[k] in multiset(s[1..]);
        var j :| 0 <= j < |s[1..]| && s[1..][j] == rest[k];
        assert s[j + 1] == rest[k];
      }
    }
  }

  /** The elements of `s` ordered by `key`, ascending or descending. */
  function SortBy<T>(s: seq<T>, key: T -> int, desc: bool): (r: seq<T>)
    ensures SortedBy(r, key, desc)
    ensures multiset(r) == multiset(s)
    ensures |r| == |s|
  {
    if s == [] then []
    else
      assert s == [s[0]] + s[1..];
      Insert(s[0], SortBy(s[1..], key, desc), key, desc)
  }

  /** Sorting neither adds nor drops an element. */
  lemma SortByMembers<T>(s: seq<T>, key: T -> int, desc: bool)
    ensures forall x :: x in SortBy(s, key, desc) <==> x in s
  {
    var r := SortBy(s, key, desc);
    forall x ensures x in r <==> x in s {
      assert x in r <==> x in multiset(r);
      assert x in s <==> x in multiset(s);
    }
  }

  /** Filtering a sorted sequence keeps it sorted. */
  lemma {:induction false} FilterSorted<T(!new)>(s: seq<T>, p: T -> bool, key: T -> int, desc: bool)
    requires SortedBy(s, key, desc)
    ensures SortedBy(Filter(s, p), key, desc)
  {
    if s != [] {
      FilterSorted(s[1..], p, key, desc);
      var rest := Filter(s[1..], p);
      forall k | 0 <= k < |rest| ensures InOrder(key(s[0]), key(rest[k]), desc) {
        assert rest[k] in s[1..];
      }
    }
  }

  /** A sorted sequence cut in two: everything kept ranks at least as high as
      everything left out (the `.slice(0, n)` of a sorted list). */
  lemma PrefixDominates<T>(s: seq<T>, key: T -> int, desc: bool, n: nat, i: int, j: int)
    requires SortedBy(s, key, desc)
    requires n <= |s| && 0 <= i < n <= j < |s|
    ensures InOrder(key(s[i]), key(s[j]), desc)
  {
  }
}
