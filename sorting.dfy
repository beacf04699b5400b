/** A stable sort by an integer key. JavaScript's `Array.prototype.sort` is stable (ECMAScript 2019);
    a comparator `(a, b) => key(a) - key(b)` sorts ascending by `key`. */
module Sorting {

  /** Ascending by `key`. */
  ghost predicate SortedBy<T>(s: seq<T>, key: T -> int) {
    forall i, j :: 0 <= i < j < |s| ==> key(s[i]) <= key(s[j])
  }

  /** The elements of `s` whose key is `k`, in their order in `s`. */
  function WithKey<T>(s: seq<T>, key: T -> int, k: int): (r: seq<T>)
    ensures |r| <= |s|
  {
    if s == [] then []
    else (if key(s[0]) == k then [s[0]] else []) + WithKey(s[1..], key, k)
  }

  /** Puts `x` in front of the first element of `t` whose key is at least `key(x)`. */
  function Insert<T>(x: T, t: seq<T>, key: T -> int): (r: seq<T>)
    ensures multiset(r) == multiset(t) + multiset{x}
    ensures |r| == |t| + 1
    ensures forall y :: y in r ==> y == x || y in t
  {
    if t == [] then [x]
    else if key(x) <= key(t[0]) then [x] + t
    else
      assert t == [t[0]] + t[1..];
      [t[0]] + Insert(x, t[1..], key)
  }

  /** Insertion sort: each element is inserted in front of the equal keys that came after it. */
  function SortBy<T>(s: seq<T>, key: T -> int): (r: seq<T>)
    ensures multiset(r) == multiset(s)
    ensures |r| == |s|
  {
    if s == [] then []
    else
      assert s == [s[0]] + s[1..];
      Insert(s[0], SortBy(s[1..], key), key)
  }

  /** A bound below every element of `t` and below `key(x)` stays below every element after inserting `x`. */
  lemma InsertBound<T>(x: T, t: seq<T>, key: T -> int, b: int)
    requires b <= key(x) && forall y :: y in t ==> b <= key(y)
    ensures forall y :: y in Insert(x, t, key) ==> b <= key(y)
  {
  }

  /** Putting an element no greater than every element in front of a sorted sequence keeps it sorted. */
  lemma ConsSorted<T>(h: T, r: seq<T>, key: T -> int)
    requires SortedBy(r, key) && forall y :: y in r ==> key(h) <= key(y)
    ensures SortedBy([h] + r, key)
  {
    forall i, j | 0 <= i < j < |[h] + r| ensures key(([h] + r)[i]) <= key(([h] + r)[j]) {
      assert ([h] + r)[j] == r[j - 1];
      assert r[j - 1] in r;
      if i > 0 {
        assert ([h] + r)[i] == r[i - 1];
      }
    }
  }

  /** The head of a sorted sequence is no greater than any element of its tail. */
  lemma HeadBound<T>(t: seq<T>, key: T -> int)
    requires t != [] && SortedBy(t, key)
    ensures SortedBy(t[1..], key)
    ensures forall y :: y in t[1..] ==> key(t[0]) <= key(y)
  {
    forall y | y in t[1..] ensures key(t[0]) <= key(y) {
      var m :| 0 <= m < |t[1..]| && t[1..][m] == y;
      assert t[m + 1] == y;
    }
  }

  lemma {:induction false} InsertSorted<T>(x: T, t: seq<T>, key: T -> int)
    requires SortedBy(t, key)
    ensures SortedBy(Insert(x, t, key), key)
  {
    if t == [] {
      assert Insert(x, t, key) == [x];
    } else if key(x) <= key(t[0]) {
      assert Insert(x, t, key) == [x] + t;
      assert forall i :: 0 <= i < |[x] + t| ==> ([x] + t)[i] == if i == 0 then x else t[i - 1];
    } else {
      HeadBound(t, key);
      InsertSorted(x, t[1..], key);
      InsertBound(x, t[1..], key, key(t[0]));
      assert Insert(x, t, key) == [t[0]] + Insert(x, t[1..], key);
      ConsSorted(t[0], Insert(x, t[1..], key), key);
    }
  }

  /** The result of `SortBy` is sorted by `key`. */
  lemma {:induction false} SortBySorted<T>(s: seq<T>, key: T -> int)
    ensures SortedBy(SortBy(s, key), key)
  {
    if s != [] {
      SortBySorted(s[1..], key);
      InsertSorted(s[0], SortBy(s[1..], key), key);
    }
  }

  lemma WithKeyCons<T>(x: T, t: seq<T>, key: T -> int, k: int)
    ensures WithKey([x] + t, key, k) == (if key(x) == k then [x] else []) + WithKey(t, key, k)
  {
    assert ([x] + t)[0] == x && ([x] + t)[1..] == t;
  }

  lemma {:induction false} WithKeyInsert<T>(x: T, t: seq<T>, key: T -> int, k: int)
    requires SortedBy(t, key)
    ensures WithKey(Insert(x, t, key), key, k) == (if key(x) == k then [x] else []) + WithKey(t, key, k)
  {
    if t == [] {
      WithKeyCons(x, t, key, k);
    } else if key(x) <= key(t[0]) {
      WithKeyCons(x, t, key, k);
    } else {
      assert SortedBy(t[1..], key);
      WithKeyInsert(x, t[1..], key, k);
      WithKeyCons(t[0], Insert(x, t[1..], key), key, k);
      WithKeyCons(t[0], t[1..], key, k);
      assert [t[0]] + t[1..] == t;
    }
  }

  /** Stability: among the elements with any one key, the sort keeps their original order. */
  lemma {:induction false} SortByStable<T>(s: seq<T>, key: T -> int, k: int)
    ensures WithKey(SortBy(s, key), key, k) == WithKey(s, key, k)
  {
    if s != [] {
      SortByStable(s[1..], key, k);
      SortBySorted(s[1..], key);
      WithKeyInsert(s[0], SortBy(s[1..], key), key, k);
    }
  }

  /** A sequence that is already sorted is left as it is. */
  lemma {:induction false} SortBySortedIdentity<T>(s: seq<T>, key: T -> int)
    requires SortedBy(s, key)
    ensures SortBy(s, key) == s
  {
    if s != [] {
      var t := s[1..];
      assert SortedBy(t, key);
      SortBySortedIdentity(t, key);
      assert SortBy(s, key) == Insert(s[0], t, key);
      if t == [] {
        assert s == [s[0]];
      } else {
        assert key(s[0]) <= key(t[0]);
        assert Insert(s[0], t, key) == [s[0]] + t;
        assert s == [s[0]] + t;
      }
    }
  }
}
