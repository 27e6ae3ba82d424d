/** sort.Slice by a descending key: in place, and not stable. */
module Sorting {

  ghost predicate SortedDescending<T>(s: seq<T>, key: T -> real) {
    forall i, j :: 0 <= i < j < |s| ==> key(s[i]) >= key(s[j])
  }

  /** All that may be relied on of sort.Slice: some arrangement in descending order. */
  ghost predicate IsSortedVersion<T>(s: seq<T>, sorted: seq<T>, key: T -> real) {
    multiset(sorted) == multiset(s) && SortedDescending(sorted, key)
  }

  ghost predicate SortedExceptAt<T>(s: seq<T>, n: nat, j: nat, key: T -> real)
    requires n <= |s|
  {
    forall p, q :: 0 <= p < q < n && q != j ==> key(s[p]) >= key(s[q])
  }

  method SwapWithPrevious<T>(a: array<T>, j: nat)
    requires 0 < j < a.Length
    modifies a
    ensures a[..] == old(a[..])[j - 1 := old(a[j])][j := old(a[j - 1])]
    ensures multiset(a[..]) == multiset(old(a[..]))
  {
    a[j - 1], a[j] := a[j], a[j - 1];
  }

  lemma SwapKeepsSorted<T>(s: seq<T>, n: nat, j: nat, key: T -> real)
    requires 0 < j < n <= |s| && SortedExceptAt(s, n, j, key) && key(s[j - 1]) < key(s[j])
    ensures SortedExceptAt(s[j - 1 := s[j]][j := s[j - 1]], n, j - 1, key)
  {
  }

  method SortSlice<T>(a: array<T>, key: T -> real)
    modifies a
    ensures IsSortedVersion(old(a[..]), a[..], key)
  {
    for i := 0 to a.Length
      invariant multiset(a[..]) == multiset(old(a[..]))
      invariant SortedExceptAt(a[..], i, i, key)
    {
      var j := i;
      while j > 0 && key(a[j - 1]) < key(a[j])
        invariant 0 <= j <= i
        invariant multiset(a[..]) == multiset(old(a[..]))
        invariant SortedExceptAt(a[..], i + 1, j, key)
      {
        SwapKeepsSorted(a[..], i + 1, j, key);
        SwapWithPrevious(a, j);
        j := j - 1;
      }
    }
  }
}
