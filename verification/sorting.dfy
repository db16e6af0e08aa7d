/**
  Ascending order on series of parsed values: the specification of the
  in-place sort that `column_median` applies to its values
  (`values.sort_by(|a, b| a.partial_cmp(b).unwrap())`, src/utils.rs:79).
  Reals are totally ordered, so the comparison never fails.
*/
module Sorting {

  /** Every element is at most every later element. */
  predicate Sorted(s: seq<real>) {
    forall i, j :: 0 <= i < j < |s| ==> s[i] <= s[j]
  }

  /** `x` placed into the sorted sequence `t` before the first element not below it. */
  function Insert(x: real, t: seq<real>): (u: seq<real>)
    ensures multiset(u) == multiset(t) + multiset{x}
  {
    if t == [] then [x]
    else if x <= t[0] then [x] + t
    else
      assert t == [t[0]] + t[1..];
      [t[0]] + Insert(x, t[1..])
  }

  /** Inserting a value no smaller than `lo` into values no smaller than `lo` keeps them all at least `lo`. */
  lemma {:induction false} InsertAbove(x: real, t: seq<real>, lo: real)
    requires lo <= x
    requires forall k :: 0 <= k < |t| ==> lo <= t[k]
    ensures forall k :: 0 <= k < |Insert(x, t)| ==> lo <= Insert(x, t)[k]
  {
    if t != [] && x > t[0] {
      InsertAbove(x, t[1..], lo);
    }
  }

  /** Inserting into a sorted sequence keeps it sorted. */
  lemma {:induction false} InsertSorted(x: real, t: seq<real>)
    requires Sorted(t)
    ensures Sorted(Insert(x, t))
  {
    if t != [] && x > t[0] {
      InsertSorted(x, t[1..]);
      InsertAbove(x, t[1..], t[0]);
    }
  }

  /** The ascending arrangement of `s`. */
  function SortSeq(s: seq<real>): (t: seq<real>)
    ensures Sorted(t)
    ensures multiset(t) == multiset(s)
  {
    if s == [] then []
    else
      assert s == s[..|s| - 1] + [s[|s| - 1]];
      var sorted := SortSeq(s[..|s| - 1]);
      InsertSorted(s[|s| - 1], sorted);
      Insert(s[|s| - 1], sorted)
  }

  /** The first element of a non-empty sorted sequence is at most every element of it. */
  lemma SortedHeadLeast(t: seq<real>, x: real)
    requires Sorted(t) && x in multiset(t)
    ensures |t| > 0 && t[0] <= x
  {
    var k :| 0 <= k < |t| && t[k] == x;
  }

  /** Removing the first element of a sequence removes one copy of it from its elements. */
  lemma TailElements(s: seq<real>)
    requires |s| > 0
    ensures multiset(s[1..]) == multiset(s) - multiset{s[0]}
  {
    assert s == [s[0]] + s[1..];
  }

  /** Dropping the first element keeps a sequence sorted. */
  lemma SortedTail(s: seq<real>)
    requires Sorted(s) && |s| > 0
    ensures Sorted(s[1..])
  {
  }

  /** Two sorted sequences with the same elements are equal: sorting has one answer. */
  lemma {:induction false} SortedUnique(a: seq<real>, b: seq<real>)
    requires Sorted(a) && Sorted(b)
    requires multiset(a) == multiset(b)
    ensures a == b
    decreases |a|
  {
    if a == [] {
      assert |b| == |multiset(b)| == 0;
    } else {
      assert a[0] in multiset(b);
      SortedHeadLeast(b, a[0]);
      assert b[0] in multiset(a);
      SortedHeadLeast(a, b[0]);
      TailElements(a);
      TailElements(b);
      SortedTail(a);
      SortedTail(b);
      SortedUnique(a[1..], b[1..]);
      assert a[0] == b[0];
      assert a == [a[0]] + a[1..];
      assert b == [b[0]] + b[1..];
    }
  }

  /** The sorted arrangement of a sequence depends only on its elements, not their order. */
  lemma SortSeqPermutation(s: seq<real>, t: seq<real>)
    requires multiset(s) == multiset(t)
    ensures SortSeq(s) == SortSeq(t)
  {
    SortedUnique(SortSeq(s), SortSeq(t));
  }

  /** Exchanges the neighbouring elements `a[j - 1]` and `a[j]`. */
  method SwapDown(a: array<real>, j: nat)
    requires 0 < j < a.Length
    modifies a
    ensures a[j - 1] == old(a[j]) && a[j] == old(a[j - 1])
    ensures forall k :: 0 <= k < a.Length && k != j - 1 && k != j ==> a[k] == old(a[k])
    ensures multiset(a[..]) == old(multiset(a[..]))
  {
    a[j - 1], a[j] := a[j], a[j - 1];
  }

  /**
    One step of insertion sort: with `a[..i]` ascending, moves `a[i]` left
    past every larger element so that `a[..i + 1]` is ascending.
  */
  method InsertLast(a: array<real>, i: nat)
    requires i < a.Length && Sorted(a[..i])
    modifies a
    ensures Sorted(a[..i + 1])
    ensures a[i + 1..] == old(a[i + 1..])
    ensures multiset(a[..]) == old(multiset(a[..]))
  {
    var j := i;
    while j > 0 && a[j - 1] > a[j]
      invariant 0 <= j <= i
      invariant forall p, q :: 0 <= p < q <= i && p != j && q != j ==> a[p] <= a[q]
      invariant forall p, q :: 0 <= p < j < q <= i ==> a[p] <= a[q]
      invariant forall q :: j < q <= i ==> a[j] <= a[q]
      invariant a[i + 1..] == old(a[i + 1..])
      invariant multiset(a[..]) == old(multiset(a[..]))
    {
      SwapDown(a, j);
      j := j - 1;
    }
  }

  /** Insertion sort in place: the array ends up as the ascending arrangement of its old contents. */
  method SortInPlace(a: array<real>)
    modifies a
    ensures a[..] == SortSeq(old(a[..]))
  {
    var i := 0;
    while i < a.Length
      invariant 0 <= i <= a.Length
      invariant Sorted(a[..i])
      invariant multiset(a[..]) == old(multiset(a[..]))
    {
      InsertLast(a, i);
      i := i + 1;
    }
    assert a[..a.Length] == a[..];
    SortedUnique(a[..], SortSeq(old(a[..])));
  }
}
