/**
 * `byLength`, the `sort.Interface` over the ticker slice, and the call
 * `sort.Sort(sort.Reverse(byLength(tickers)))`.
 */
module ByLength {
  import opened Ascii

  /** `byLength.Len`: the number of tickers. */
  function Len(s: seq<Bytes>): nat { |s| }

  /** `byLength.Less`: compares the byte lengths of two tickers and nothing else. */
  predicate Less(s: seq<Bytes>, i: nat, j: nat)
    requires i < |s| && j < |s|
  {
    |s[i]| < |s[j]|
  }

  /** `sort.Reverse` exchanges the arguments of `Less`. */
  predicate ReverseLess(s: seq<Bytes>, i: nat, j: nat)
    requires i < |s| && j < |s|
  {
    Less(s, j, i)
  }

  /** Sorted for the reversed interface: lengths never grow. */
  predicate NonIncreasing(s: seq<Bytes>) {
    forall i, j :: 0 <= i < j < |s| ==> |s[i]| >= |s[j]|
  }

  /**
   * `Less` is a strict weak ordering, as `sort.Sort` requires of it:
   * irreflexive, transitive, and with transitive incomparability.
   */
  lemma LessIsStrictWeakOrder(s: seq<Bytes>)
    ensures forall i :: 0 <= i < |s| ==> !Less(s, i, i)
    ensures forall i, j, k | 0 <= i < |s| && 0 <= j < |s| && 0 <= k < |s| ::
              (Less(s, i, j) && Less(s, j, k)) ==> Less(s, i, k)
    ensures forall i, j, k | 0 <= i < |s| && 0 <= j < |s| && 0 <= k < |s| ::
              (!Less(s, i, j) && !Less(s, j, i) && !Less(s, j, k) && !Less(s, k, j)) ==>
              !Less(s, i, k) && !Less(s, k, i)
  {
  }

  /** `byLength.Swap`: exchanges positions `i` and `j` and leaves the rest alone. */
  method Swap(a: array<Bytes>, i: nat, j: nat)
    requires i < a.Length && j < a.Length
    modifies a
    ensures a[i] == old(a[j]) && a[j] == old(a[i])
    ensures forall k :: 0 <= k < a.Length && k != i && k != j ==> a[k] == old(a[k])
    ensures multiset(a[..]) == multiset(old(a[..]))
  {
    a[i], a[j] := a[j], a[i];
  }

  /**
   * `sort.Sort(sort.Reverse(byLength(a)))`, as an insertion sort that uses
   * the interface only: `Len`, the reversed `Less`, and `Swap`. Go's
   * algorithm is not stable and neither is this contract: equal lengths
   * may come out in any order.
   */
  method SortReverse(a: array<Bytes>)
    modifies a
    ensures NonIncreasing(a[..])
    ensures multiset(a[..]) == multiset(old(a[..]))
  {
    var n := Len(a[..]);
    var i := 0;
    while i < n
      invariant 0 <= i <= n == a.Length
      invariant forall k, l :: 0 <= k < l < i ==> |a[k]| >= |a[l]|
      invariant multiset(a[..]) == multiset(old(a[..]))
    {
      var j := i;
      while 0 < j && ReverseLess(a[..], j, j - 1)
        invariant 0 <= j <= i
        invariant forall k, l :: 0 <= k < l <= i && k != j && l != j ==> |a[k]| >= |a[l]|
        invariant forall l :: j < l <= i ==> |a[j]| > |a[l]|
        invariant multiset(a[..]) == multiset(old(a[..]))
      {
        Swap(a, j, j - 1);
        j := j - 1;
      }
      i := i + 1;
    }
  }
}
