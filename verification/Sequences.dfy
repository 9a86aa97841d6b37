/** Orders on sequences of numbers, and what it means to filter a sequence. */
module Sequences {
  predicate Increasing(s: seq<nat>) {
    forall i, j :: 0 <= i < j < |s| ==> s[i] < s[j]
  }

  /** r lists the elements of xs at the places idx, in the order of xs and once each. */
  predicate Picks<T(==)>(r: seq<T>, xs: seq<T>, idx: seq<nat>) {
    && |r| == |idx| && Increasing(idx)
    && forall i :: 0 <= i < |idx| ==> idx[i] < |xs| && r[i] == xs[idx[i]]
  }

  /** xs without its k-th element. */
  function Without<T>(xs: seq<T>, k: nat): (r: seq<T>)
    requires k < |xs|
    ensures |r| == |xs| - 1
  {
    xs[..k] + xs[k + 1..]
  }

  lemma WithoutLast<T>(xs: seq<T>, k: nat)
    requires k < |xs|
    ensures k + 1 == |xs| ==> Without(xs, k) == xs[..|xs| - 1]
    ensures k + 1 < |xs| ==> |Without(xs, k)| > 0
    ensures k + 1 < |xs| ==> var w := Without(xs, k);
                             w[|w| - 1] == xs[|xs| - 1] && w[..|w| - 1] == Without(xs[..|xs| - 1], k)
  {
  }
}
