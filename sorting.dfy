/** `LicenseHashInfos` as a `sort.Interface` (main.go:35-48) and the
    `sort.Sort` call on it (main.go:223): the infos are ordered in place by
    license name using only `Less` and `Swap`. Go's sort is not stable and
    the code breaks no ties, so the order of infos with equal names is not
    promised. */
module Sorting {
  import opened Strings
  import opened Deps

  /** `Less` (main.go:41-43): Go's `<` on the license names. It is a strict
      order, as `sort.Interface` demands: never between equal names, and
      never both ways. */
  predicate Less(a: array<LicenseHashInfo>, i: int, j: int): (b: bool)
    requires 0 <= i < a.Length && 0 <= j < a.Length
    reads a
    ensures b ==> a[i].licenseName != a[j].licenseName
    ensures b ==> !LexLess(a[j].licenseName, a[i].licenseName)
  {
    var x, y := a[i].licenseName, a[j].licenseName;
    LexLessIrreflexive(x);
    if LexLess(x, y) then LexLessAsymmetric(x, y); true else false
  }

  /** `Swap` (main.go:45-48): exchanges two entries and touches no other. */
  method Swap(a: array<LicenseHashInfo>, i: int, j: int)
    requires 0 <= i < a.Length && 0 <= j < a.Length
    modifies a
    ensures a[i] == old(a[j]) && a[j] == old(a[i])
    ensures forall k :: 0 <= k < a.Length && k != i && k != j ==> a[k] == old(a[k])
    ensures multiset(a[..]) == old(multiset(a[..]))
  {
    a[i], a[j] := a[j], a[i];
  }

  /** License names never decrease along `s`. */
  ghost predicate SortedByName(s: seq<LicenseHashInfo>)
  {
    forall p, q :: 0 <= p < q < |s| ==> LexLeq(s[p].licenseName, s[q].licenseName)
  }

  /** `sort.Sort(licenseHashInfos)`: afterwards the array holds the same
      infos, ordered by license name. */
  method SortInfos(a: array<LicenseHashInfo>)
    modifies a
    ensures SortedByName(a[..])
    ensures multiset(a[..]) == old(multiset(a[..]))
  {
    for i := 0 to a.Length
      invariant forall p, q :: 0 <= p < q < i ==> LexLeq(a[p].licenseName, a[q].licenseName)
      invariant forall p, q :: 0 <= p < i <= q < a.Length ==>
        LexLeq(a[p].licenseName, a[q].licenseName)
      invariant multiset(a[..]) == old(multiset(a[..]))
    {
      var m := SmallestFrom(a, i);
      Swap(a, i, m);
    }
  }

  /** The position of a smallest name at or after `i`, found with `Less`. */
  method SmallestFrom(a: array<LicenseHashInfo>, i: nat) returns (m: nat)
    requires i < a.Length
    ensures i <= m < a.Length
    ensures forall k :: i <= k < a.Length ==> LexLeq(a[m].licenseName, a[k].licenseName)
  {
    m := i;
    LexLessIrreflexive(a[i].licenseName);
    for j := i + 1 to a.Length
      invariant i <= m < j
      invariant forall k :: i <= k < j ==> LexLeq(a[m].licenseName, a[k].licenseName)
    {
      if Less(a, j, m) {
        forall k | i <= k < j
          ensures LexLeq(a[j].licenseName, a[k].licenseName)
        {
          LexLessAsymmetric(a[j].licenseName, a[m].licenseName);
          LexLeqTransitive(a[j].licenseName, a[m].licenseName, a[k].licenseName);
        }
        LexLessIrreflexive(a[j].licenseName);
        m := j;
      }
    }
  }
}
