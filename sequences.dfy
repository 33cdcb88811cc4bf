/** Facts about sequences shared by the three stores. */
module Sequences {

  /** `a` is obtained from `b` by deleting some elements, keeping the order of the rest. */
  ghost predicate IsSubsequence<T>(a: seq<T>, b: seq<T>)
    decreases |b|
  {
    a == [] || (b != [] && ((a[0] == b[0] && IsSubsequence(a[1..], b[1..])) || IsSubsequence(a, b[1..])))
  }

  /** Removing the element at index `k`. */
  function RemoveAt<T>(s: seq<T>, k: nat): (r: seq<T>)
    requires k < |s|
    ensures |r| == |s| - 1
    ensures forall j :: 0 <= j < k ==> r[j] == s[j]
    ensures forall j :: k <= j < |r| ==> r[j] == s[j + 1]
  {
    s[..k] + s[k + 1..]
  }

  /** Putting at most one value `m` (above `lo`) in front of increasing values in (m, hi]
      gives increasing values in (lo, hi]. */
  lemma IncreasingConcat(head: seq<int>, rest: seq<int>, lo: int, m: int, hi: int)
    requires lo <= m <= hi && |head| <= 1 && (head != [] ==> lo < head[0] == m)
    requires forall i, j :: 0 <= i < j < |rest| ==> rest[i] < rest[j]
    requires forall i :: 0 <= i < |rest| ==> m < rest[i] <= hi
    ensures forall i, j :: 0 <= i < j < |head + rest| ==> (head + rest)[i] < (head + rest)[j]
    ensures forall i :: 0 <= i < |head + rest| ==> lo < (head + rest)[i] <= hi
  {
  }
}
