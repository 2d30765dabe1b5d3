/** The two array combinators the task engine is built from: JavaScript's
    `Array.prototype.filter` and `Array.prototype.map`, over immutable
    sequences, with the facts the store and the query engine rely on. */
module Seqs {

  /** Keeps, in their original order, the elements that satisfy `p`. */
  function Filter<T(!new)>(p: T -> bool, s: seq<T>): (r: seq<T>)
    ensures |r| <= |s|
    ensures forall x :: x in r <==> x in s && p(x)
  {
    if s == [] then []
    else if p(s[0]) then [s[0]] + Filter(p, s[1..])
    else Filter(p, s[1..])
  }

  /** Applies `f` to every element, keeping length and positions. */
  function Map<T, U>(f: T -> U, s: seq<T>): (r: seq<U>)
    ensures |r| == |s|
    ensures forall i :: 0 <= i < |s| ==> r[i] == f(s[i])
  {
    if s == [] then [] else [f(s[0])] + Map(f, s[1..])
  }

  /** `r` can be obtained from `s` by deleting elements, without reordering. */
  ghost predicate IsSubsequence<T>(r: seq<T>, s: seq<T>)
    decreases |s|
  {
    if r == [] then true
    else if s == [] then false
    else if r[0] == s[0] then IsSubsequence(r[1..], s[1..])
    else IsSubsequence(r, s[1..])
  }

  /** Filtering never reorders: its result is a subsequence of its input. */
  lemma {:induction false} FilterIsSubsequence<T(!new)>(p: T -> bool, s: seq<T>)
    ensures IsSubsequence(Filter(p, s), s)
  {
    if s != [] {
      FilterIsSubsequence(p, s[1..]);
      var rest := Filter(p, s[1..]);
      if p(s[0]) {
        assert Filter(p, s) == [s[0]] + rest;
        assert ([s[0]] + rest)[1..] == rest;
      } else {
        SubsequenceOfTail(rest, s);
      }
    }
  }

  /** A subsequence of `s[1..]` is a subsequence of `s`. */
  lemma {:induction false} SubsequenceOfTail<T>(r: seq<T>, s: seq<T>)
    requires s != []
    requires IsSubsequence(r, s[1..])
    ensures IsSubsequence(r, s)
    decreases |s|, 1
  {
    if r != [] && r[0] == s[0] {
      // r[1..] is a subsequence of s[1..] because r is one
      SubsequenceDropHead(r, s[1..]);
    }
  }

  /** Dropping the first element of a non-empty subsequence keeps it one. */
  lemma {:induction false} SubsequenceDropHead<T>(r: seq<T>, s: seq<T>)
    requires r != []
    requires IsSubsequence(r, s)
    ensures IsSubsequence(r[1..], s)
    decreases |s|, 2
  {
    if r[0] == s[0] {
      if s[1..] != [] {
        SubsequenceOfTail(r[1..], s);
      } else {
        assert r[1..] == [];
      }
    } else {
      SubsequenceDropHead(r, s[1..]);
      SubsequenceOfTail(r[1..], s);
    }
  }

  /** Filtering a concatenation filters each part and keeps them in order. */
  lemma {:induction false} FilterConcat<T(!new)>(p: T -> bool, a: seq<T>, b: seq<T>)
    ensures Filter(p, a + b) == Filter(p, a) + Filter(p, b)
  {
    if a == [] {
      assert a + b == b;
    } else {
      assert (a + b)[0] == a[0];
      assert (a + b)[1..] == a[1..] + b;
      FilterConcat(p, a[1..], b);
    }
  }

  /** Filtering keeps every copy of a passing element and no copy of any other. */
  lemma {:induction false} FilterMultiplicity<T(!new)>(p: T -> bool, s: seq<T>)
    ensures forall x :: multiset(Filter(p, s))[x] == if p(x) then multiset(s)[x] else 0
  {
    if s != [] {
      FilterMultiplicity(p, s[1..]);
      var rest := Filter(p, s[1..]);
      assert multiset(s) == multiset{s[0]} + multiset(s[1..]) by {
        assert s == [s[0]] + s[1..];
      }
      if p(s[0]) {
        assert multiset(Filter(p, s)) == multiset{s[0]} + multiset(rest) by {
          assert Filter(p, s) == [s[0]] + rest;
        }
      }
    }
  }

  /** When every element passes, filtering changes nothing. */
  lemma {:induction false} FilterKeepsAll<T(!new)>(p: T -> bool, s: seq<T>)
    requires forall i :: 0 <= i < |s| ==> p(s[i])
    ensures Filter(p, s) == s
  {
    if s != [] {
      FilterKeepsAll(p, s[1..]);
      assert [s[0]] + s[1..] == s;
    }
  }
}
