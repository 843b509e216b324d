/** A value or none, searching a table of flags, and counting the members of finite sets. */
module Collections {
  datatype Option<T> = None | Some(value: T)

  /** The first index from `i` on whose flag is not set, or the size of the table. */
  function FirstFree(taken: seq<bool>, i: nat): (j: nat)
    requires i <= |taken|
    ensures i <= j <= |taken| && (j < |taken| ==> !taken[j]) && forall k :: i <= k < j ==> taken[k]
    decreases |taken| - i
  {
    if i == |taken| || !taken[i] then i else FirstFree(taken, i + 1)
  }

  lemma SubsetCount(a: set<int>, b: set<int>)
    requires a <= b
    ensures |a| <= |b| && (|a| == |b| ==> a == b)
  {
    assert b == a + (b - a);
  }
}
