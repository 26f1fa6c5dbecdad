/** Sums of sequences of numbers, for counting arguments over a set of threads. */
module Sums {

  function Sum(xs: seq<nat>): nat {
    if xs == [] then 0 else Sum(xs[..|xs| - 1]) + xs[|xs| - 1]
  }

  /** Replacing one element changes the sum by the difference. */
  lemma {:induction false} SumUpdate(xs: seq<nat>, i: nat, x: nat)
    requires i < |xs|
    ensures Sum(xs[i := x]) + xs[i] == Sum(xs) + x
    decreases |xs|
  {
    var n := |xs| - 1;
    if i < n {
      SumUpdate(xs[..n], i, x);
      assert xs[i := x][..n] == xs[..n][i := x];
    } else {
      assert xs[i := x][..n] == xs[..n];
    }
  }

  /** If no element grows by more than `k`, the sum grows by at most `k` per element. */
  lemma {:induction false} SumGrowth(xs: seq<nat>, ys: seq<nat>, k: nat)
    requires |xs| == |ys|
    requires forall i :: 0 <= i < |xs| ==> ys[i] <= xs[i] + k
    ensures Sum(ys) <= Sum(xs) + k * |xs|
    decreases |xs|
  {
    if xs != [] {
      SumGrowth(xs[..|xs| - 1], ys[..|ys| - 1], k);
      assert k * |xs| == k * (|xs| - 1) + k;
    }
  }

  /** If every element is at most `k`, so is the average. */
  lemma {:induction false} SumAtMost(xs: seq<nat>, k: nat)
    requires forall i :: 0 <= i < |xs| ==> xs[i] <= k
    ensures Sum(xs) <= k * |xs|
    decreases |xs|
  {
    if xs != [] {
      SumAtMost(xs[..|xs| - 1], k);
      assert k * |xs| == k * (|xs| - 1) + k;
    }
  }

  lemma {:induction false} SumMonotone(xs: seq<nat>, ys: seq<nat>)
    requires |xs| == |ys|
    requires forall i :: 0 <= i < |xs| ==> xs[i] <= ys[i]
    ensures Sum(xs) <= Sum(ys)
    decreases |xs|
  {
    if xs != [] {
      SumMonotone(xs[..|xs| - 1], ys[..|ys| - 1]);
    }
  }

  /** A sum of zeros and ones counts the ones. */
  lemma {:induction false} SumCounts(xs: seq<nat>)
    requires forall i :: 0 <= i < |xs| ==> xs[i] <= 1
    ensures Sum(xs) == |set i | 0 <= i < |xs| && xs[i] == 1|
    decreases |xs|
  {
    if xs != [] {
      var n := |xs| - 1;
      SumCounts(xs[..n]);
      var ones := set i | 0 <= i < n && xs[..n][i] == 1;
      var all := set i | 0 <= i < |xs| && xs[i] == 1;
      assert all == if xs[n] == 1 then ones + {n} else ones;
    }
  }
}
