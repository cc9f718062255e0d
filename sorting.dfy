/**
 * In-place sorting of an array under a strict weak order, standing for Go's
 * sort.Slice and sort.Strings. Go promises a sorted permutation, and so does
 * this insertion sort.
 */
module Sorting {

  /** `less` is irreflexive and asymmetric, and its complement ("not less") is transitive. */
  ghost predicate StrictWeakOrder<T(!new)>(less: (T, T) -> bool)
  {
    && (forall x, y :: less(x, y) ==> !less(y, x))
    && (forall x, y, z :: !less(y, x) && !less(z, y) ==> !less(z, x))
  }

  /** No later element is less than an earlier one. */
  ghost predicate SortedBy<T>(s: seq<T>, less: (T, T) -> bool)
  {
    forall i, j :: 0 <= i < j < |s| ==> !less(s[j], s[i])
  }

  method SortInPlace<T(!new)>(a: array<T>, less: (T, T) -> bool)
    requires StrictWeakOrder(less)
    modifies a
    ensures SortedBy(a[..], less)
    ensures multiset(a[..]) == multiset(old(a[..]))
  {
    var i := 0;
    while i < a.Length
      invariant 0 <= i <= a.Length
      invariant SortedBy(a[..i], less)
      invariant multiset(a[..]) == multiset(old(a[..]))
    {
      InsertLast(a, i, less);
      i := i + 1;
    }
    assert a[..] == a[..a.Length];
  }

  /** Moves a[i] left until a[..i+1] is sorted, given that a[..i] is. */
  method InsertLast<T(!new)>(a: array<T>, i: nat, less: (T, T) -> bool)
    requires StrictWeakOrder(less)
    requires i < a.Length
    requires SortedBy(a[..i], less)
    modifies a
    ensures SortedBy(a[..i + 1], less)
    ensures multiset(a[..]) == multiset(old(a[..]))
  {
    var j := i;
    while j > 0 && less(a[j], a[j - 1])
      invariant 0 <= j <= i
      invariant forall k, m :: 0 <= k < m < j ==> !less(a[m], a[k])
      invariant forall k, m :: j <= k < m <= i ==> !less(a[m], a[k])
      invariant forall k, m :: 0 <= k < j < m <= i ==> !less(a[m], a[k])
      invariant multiset(a[..]) == multiset(old(a[..]))
    {
      a[j - 1], a[j] := a[j], a[j - 1];
      j := j - 1;
    }
  }
}
