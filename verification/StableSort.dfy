/**
  Stability of the insertion sort in `Sorting`, stated with `Filter`:
  the members of a class of elements that compare equal among themselves
  leave the sort in the order they came in.
 */
module StableSort {
  import opened Seqs
  import opened Sorting

  /** Inserting into a list does not reorder a class of elements that all
      compare equal: the inserted element, if it is in the class, goes in
      front of every member of the class already there. */
  lemma {:induction false} FilterInsert<T(!new)>(x: T, s: seq<T>, cmp: (T, T) -> int, p: T -> bool)
    requires forall a, b :: p(a) && p(b) ==> cmp(a, b) <= 0
    ensures Filter(Insert(x, s, cmp), p) == if p(x) then [x] + Filter(s, p) else Filter(s, p)
  {
    var r := Insert(x, s, cmp);
    if |s| == 0 {
      FilterUnfold(r, p);
      assert r[1..] == [];
    } else if cmp(x, s[0]) <= 0 {
      FilterUnfold(r, p);
      assert r[1..] == s;
    } else {
      var tail := Insert(x, s[1..], cmp);
      FilterInsert(x, s[1..], cmp, p);
      assert r[1..] == tail;
      FilterUnfold(r, p);
      FilterUnfold(s, p);
    }
  }

  /** Stability: the elements of any class that compare equal among
      themselves come out of the sort in their input order. */
  lemma {:induction false} SortIsStable<T(!new)>(xs: seq<T>, cmp: (T, T) -> int, p: T -> bool)
    requires IsTotalPreorder(cmp)
    requires forall a, b :: p(a) && p(b) ==> cmp(a, b) <= 0
    ensures Filter(Sort(xs, cmp), p) == Filter(xs, p)
  {
    if |xs| > 0 {
      SortIsStable(xs[1..], cmp, p);
      FilterInsert(xs[0], Sort(xs[1..], cmp), cmp, p);
      FilterUnfold(xs, p);
    }
  }
}
