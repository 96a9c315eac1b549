/**
  `Array.prototype.sort` with a comparator, as ECMAScript 2019 and later
  specify it: the result is a permutation of the input ordered by the
  comparator, and elements the comparator calls equal keep their input
  order (the sort is stable).  The model is a stable insertion sort.

  A comparator returns a negative number, zero or a positive number; the
  sort only needs `cmp(a, b) <= 0`, "a may precede b", to be a total
  preorder, which is what a consistent comparator provides.
 */
module Sorting {

  ghost predicate IsTotalPreorder<T(!new)>(cmp: (T, T) -> int) {
    && (forall a, b :: cmp(a, b) <= 0 || cmp(b, a) <= 0)
    && (forall a, b, c :: cmp(a, b) <= 0 && cmp(b, c) <= 0 ==> cmp(a, c) <= 0)
  }

  ghost predicate SortedBy<T>(xs: seq<T>, cmp: (T, T) -> int) {
    forall i, j :: 0 <= i < j < |xs| ==> cmp(xs[i], xs[j]) <= 0
  }

  /** Puts `x` in front of the first element it may precede. */
  function Insert<T>(x: T, s: seq<T>, cmp: (T, T) -> int): (r: seq<T>)
    ensures multiset(r) == multiset(s) + multiset{x}
    ensures |r| == |s| + 1
  {
    if |s| == 0 then [x]
    else if cmp(x, s[0]) <= 0 then [x] + s
    else
      assert s == [s[0]] + s[1..];
      [s[0]] + Insert(x, s[1..], cmp)
  }

  /** A lower bound of the list and of the inserted element bounds the
      result too. */
  lemma {:induction false} InsertLowerBound<T>(y: T, x: T, s: seq<T>, cmp: (T, T) -> int)
    requires cmp(y, x) <= 0
    requires forall k :: 0 <= k < |s| ==> cmp(y, s[k]) <= 0
    ensures forall k :: 0 <= k < |Insert(x, s, cmp)| ==> cmp(y, Insert(x, s, cmp)[k]) <= 0
  {
    if |s| > 0 && cmp(x, s[0]) > 0 {
      InsertLowerBound(y, x, s[1..], cmp);
    }
  }

  lemma {:induction false} InsertSorted<T(!new)>(x: T, s: seq<T>, cmp: (T, T) -> int)
    requires IsTotalPreorder(cmp)
    requires SortedBy(s, cmp)
    ensures SortedBy(Insert(x, s, cmp), cmp)
  {
    if |s| > 0 && cmp(x, s[0]) > 0 {
      var tail := Insert(x, s[1..], cmp);
      InsertSorted(x, s[1..], cmp);
      assert forall k :: 0 <= k < |s[1..]| ==> cmp(s[0], s[1..][k]) <= 0 by {
        forall k | 0 <= k < |s[1..]| ensures cmp(s[0], s[1..][k]) <= 0 {
          assert s[1..][k] == s[k + 1];
        }
      }
      InsertLowerBound(s[0], x, s[1..], cmp);
      assert Insert(x, s, cmp) == [s[0]] + tail;
    }
  }

  /** `[...xs].sort(cmp)`: a sorted permutation of `xs`. */
  function Sort<T(!new)>(xs: seq<T>, cmp: (T, T) -> int): (r: seq<T>)
    requires IsTotalPreorder(cmp)
    ensures multiset(r) == multiset(xs)
    ensures SortedBy(r, cmp)
  {
    if |xs| == 0 then []
    else
      var rest := Sort(xs[1..], cmp);
      InsertSorted(xs[0], rest, cmp);
      assert xs == [xs[0]] + xs[1..];
      Insert(xs[0], rest, cmp)
  }

  /** One step of the sort: the head is inserted into the sorted tail. */
  lemma SortUnfold<T(!new)>(xs: seq<T>, cmp: (T, T) -> int)
    requires IsTotalPreorder(cmp)
    requires |xs| > 0
    ensures Sort(xs, cmp) == Insert(xs[0], Sort(xs[1..], cmp), cmp)
  {
  }

  /** Stability, in the form the sources rely on: a list that is already
      in order is returned unchanged, elements comparing equal included. */
  lemma {:induction false} SortKeepsSortedInput<T(!new)>(xs: seq<T>, cmp: (T, T) -> int)
    requires IsTotalPreorder(cmp)
    requires SortedBy(xs, cmp)
    ensures Sort(xs, cmp) == xs
  {
    if |xs| > 0 {
      SortKeepsSortedInput(xs[1..], cmp);
      assert xs == [xs[0]] + xs[1..];
    }
  }

  /** Sorting twice is sorting once. */
  lemma SortIdempotent<T(!new)>(xs: seq<T>, cmp: (T, T) -> int)
    requires IsTotalPreorder(cmp)
    ensures Sort(Sort(xs, cmp), cmp) == Sort(xs, cmp)
  {
    SortKeepsSortedInput(Sort(xs, cmp), cmp);
  }
}
