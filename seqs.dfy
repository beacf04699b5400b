/** `Array.prototype.filter` and the order facts that go with it. */
module Seqs {

  /** The elements of `s` that satisfy `p`, in their order. */
  function Filter<T(==)>(s: seq<T>, p: T -> bool): (r: seq<T>)
    ensures |r| <= |s|
    ensures forall i :: 0 <= i < |r| ==> p(r[i]) && r[i] in s
    ensures forall i :: 0 <= i < |s| && p(s[i]) ==> s[i] in r
  {
    if s == [] then [] else (if p(s[0]) then [s[0]] else []) + Filter(s[1..], p)
  }

  /** `r` is `s` with some elements left out, the rest kept in order. */
  predicate SubsequenceOf<T(==)>(r: seq<T>, s: seq<T>)
    decreases |s|
  {
    if r == [] then true
    else if s == [] then false
    else if r[0] == s[0] then SubsequenceOf(r[1..], s[1..])
    else SubsequenceOf(r, s[1..])
  }

  lemma {:induction false} FilterSubsequence<T>(s: seq<T>, p: T -> bool)
    ensures SubsequenceOf(Filter(s, p), s)
  {
    if s != [] {
      FilterSubsequence(s[1..], p);
      var rest := Filter(s[1..], p);
      assert Filter(s, p) == (if p(s[0]) then [s[0]] else []) + rest;
      if p(s[0]) {
        assert ([s[0]] + rest)[1..] == rest;
      } else {
        assert Filter(s, p) == rest;
        SubsequenceSkip(rest, s);
      }
    }
  }

  /** `r` stays a subsequence when `s` gains an element in front. */
  lemma SubsequenceSkip<T>(r: seq<T>, s: seq<T>)
    requires s != [] && SubsequenceOf(r, s[1..])
    ensures SubsequenceOf(r, s)
    decreases |s|, 0
  {
    if r != [] && r[0] == s[0] {
      SubsequenceTail(r, s[1..]);
    }
  }

  /** A subsequence with its head removed is still a subsequence. */
  lemma {:induction false} SubsequenceTail<T>(r: seq<T>, s: seq<T>)
    requires r != [] && SubsequenceOf(r, s)
    ensures SubsequenceOf(r[1..], s)
    decreases |s|, 1
  {
    assert s != [];
    if r[0] != s[0] {
      SubsequenceTail(r, s[1..]);
    }
    if r[1..] != [] {
      SubsequenceSkip(r[1..], s);
    }
  }

  /** The keys never increase along `s`. */
  ghost predicate Descending<T>(s: seq<T>, key: T -> int) {
    forall i, j :: 0 <= i < j < |s| ==> key(s[i]) >= key(s[j])
  }

  /** The tail of a descending sequence is descending, and its head is at least every later key. */
  lemma HeadAtLeast<T>(s: seq<T>, key: T -> int)
    requires s != [] && Descending(s, key)
    ensures Descending(s[1..], key)
    ensures forall y :: y in s[1..] ==> key(s[0]) >= key(y)
  {
    forall y | y in s[1..] ensures key(s[0]) >= key(y) {
      var k :| 0 <= k < |s[1..]| && s[1..][k] == y;
      assert s[k + 1] == y;
    }
  }

  /** An element at least every key of a descending sequence can go in front of it. */
  lemma ConsDescending<T>(h: T, r: seq<T>, key: T -> int)
    requires Descending(r, key) && forall y :: y in r ==> key(h) >= key(y)
    ensures Descending([h] + r, key)
  {
    forall i, j | 0 <= i < j < |[h] + r| ensures key(([h] + r)[i]) >= key(([h] + r)[j]) {
      assert ([h] + r)[j] == r[j - 1];
      assert r[j - 1] in r;
      if i > 0 {
        assert ([h] + r)[i] == r[i - 1];
      }
    }
  }

  /** Filtering keeps a descending order. */
  lemma {:induction false} FilterDescending<T>(s: seq<T>, p: T -> bool, key: T -> int)
    requires Descending(s, key)
    ensures Descending(Filter(s, p), key)
  {
    if s != [] {
      HeadAtLeast(s, key);
      FilterDescending(s[1..], p, key);
      var rest := Filter(s[1..], p);
      assert Filter(s, p) == (if p(s[0]) then [s[0]] else []) + rest;
      if p(s[0]) {
        forall y | y in rest ensures key(s[0]) >= key(y) {
          var k :| 0 <= k < |rest| && rest[k] == y;
          assert y in s[1..];
        }
        ConsDescending(s[0], rest, key);
      } else {
        assert Filter(s, p) == rest;
      }
    }
  }

  /** An element passes one of two complementary filters, so together they hold every element once. */
  lemma {:induction false} FilterPartition<T>(s: seq<T>, p: T -> bool, q: T -> bool)
    requires forall x :: q(x) == !p(x)
    ensures multiset(Filter(s, p)) + multiset(Filter(s, q)) == multiset(s)
    ensures |Filter(s, p)| + |Filter(s, q)| == |s|
  {
    if s != [] {
      FilterPartition(s[1..], p, q);
      assert s == [s[0]] + s[1..];
    }
  }
}
