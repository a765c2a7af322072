/**
 * Weighted samples, their exact nearest-rank percentile, and what any bucketed
 * summary of them can say about it. Both histograms of the analysis package are
 * instances: one keys its buckets by half percents, the other by powers of 1.02.
 */
module Ranks {
  import opened Numbers

  /** A value that counts for n 20-second samples. */
  datatype Sample = Sample(v: real, n: nat)

  ghost function Total(s: seq<Sample>): nat {
    if s == [] then 0 else Total(s[..|s| - 1]) + s[|s| - 1].n
  }

  /** Weight of the samples at or below x. */
  ghost function WeightTo(s: seq<Sample>, x: real): nat {
    if s == [] then 0
    else WeightTo(s[..|s| - 1], x) + if s[|s| - 1].v <= x then s[|s| - 1].n else 0
  }

  /** Weight of the samples strictly below x. */
  ghost function WeightBelow(s: seq<Sample>, x: real): nat {
    if s == [] then 0
    else WeightBelow(s[..|s| - 1], x) + if s[|s| - 1].v < x then s[|s| - 1].n else 0
  }

  /** The rank a percentile asks for. */
  function Target(total: nat, p: real): int {
    Ceil(total as real * p / 100.0)
  }

  /** x is the value at the given rank when the samples are laid out in order, each repeated by its weight. */
  ghost predicate NearestRank(s: seq<Sample>, rank: int, x: real) {
    WeightBelow(s, x) < rank <= WeightTo(s, x)
  }

  /** In so many words: less than p percent of the weight lies below x, and at least p percent at or below it. */
  lemma NearestRankIsPercentile(s: seq<Sample>, p: real, x: real)
    ensures NearestRank(s, Target(Total(s), p), x) <==>
      WeightBelow(s, x) as real * 100.0 < Total(s) as real * p <= WeightTo(s, x) as real * 100.0
  {
    CeilLeast(Total(s) as real * p / 100.0, WeightBelow(s, x));
    CeilLeast(Total(s) as real * p / 100.0, WeightTo(s, x));
  }

  function Weighted(v: real, n: nat): real {
    v * n as real
  }

  /** The sum of all values, each counted by its weight. */
  ghost function WeightedSum(s: seq<Sample>): real {
    if s == [] then 0.0 else WeightedSum(s[..|s| - 1]) + Weighted(s[|s| - 1].v, s[|s| - 1].n)
  }

  lemma WeightedSnoc(s: seq<Sample>, x: Sample)
    ensures WeightedSum([]) == 0.0
    ensures WeightedSum(s + [x]) == WeightedSum(s) + Weighted(x.v, x.n)
  {
    assert (s + [x])[..|s|] == s;
  }

  ghost predicate NonNegative(s: seq<Sample>) {
    forall i :: 0 <= i < |s| ==> s[i].v >= 0.0
  }

  lemma {:induction false} TargetInRange(total: nat, p: real)
    requires total > 0 && 0.0 < p <= 100.0
    ensures 1 <= Target(total, p) <= total
  {
    var t := total as real;
    assert t * p > 0.0;
    assert t * p <= t * 100.0;
    CeilLeast(t * p / 100.0, 0);
    CeilLeast(t * p / 100.0, total);
  }

  lemma {:induction false} WeightMonotone(s: seq<Sample>, x: real, y: real)
    requires x <= y
    ensures WeightBelow(s, x) <= WeightTo(s, x) <= WeightTo(s, y) <= Total(s)
    ensures WeightBelow(s, x) <= WeightBelow(s, y)
    ensures x < y ==> WeightTo(s, x) <= WeightBelow(s, y)
  {
    if s != [] {
      WeightMonotone(s[..|s| - 1], x, y);
    }
  }

  /** There is at most one value at a rank ... */
  lemma {:induction false} NearestRankUnique(s: seq<Sample>, rank: int, x: real, y: real)
    requires NearestRank(s, rank, x) && NearestRank(s, rank, y)
    ensures x == y
  {
    if x < y {
      WeightMonotone(s, x, y);
    } else if y < x {
      WeightMonotone(s, y, x);
    }
  }

  /** ... it is the value of one of the samples ... */
  lemma {:induction false} NearestRankIsSample(s: seq<Sample>, rank: int, x: real) returns (i: nat)
    requires NearestRank(s, rank, x)
    ensures i < |s| && s[i].v == x && s[i].n > 0
  {
    var last := |s| - 1;
    if s[last].v == x && s[last].n > 0 {
      i := last;
    } else {
      i := NearestRankIsSample(s[..last], WeightTo(s[..last], x), x);
    }
  }

  /** ... and every rank from 1 to the total weight has one. */
  lemma {:induction false} NearestRankExists(s: seq<Sample>, rank: int) returns (x: real)
    requires 1 <= rank <= Total(s)
    ensures NearestRank(s, rank, x)
  {
    x := Largest(s);
    while WeightBelow(s, x) >= rank
      invariant WeightTo(s, x) >= rank
      decreases WeightBelow(s, x)
    {
      var y := LargestBelow(s, x);
      x := y;
    }
  }

  lemma {:induction false} Largest(s: seq<Sample>) returns (x: real)
    requires Total(s) > 0
    ensures WeightTo(s, x) == Total(s)
  {
    var init, last := s[..|s| - 1], s[|s| - 1];
    if Total(init) == 0 {
      x := last.v;
      WeightMonotone(init, x, x);
    } else {
      var y := Largest(init);
      x := MaxReal(y, last.v);
      WeightMonotone(init, y, x);
    }
  }

  lemma {:induction false} LargestBelow(s: seq<Sample>, x: real) returns (y: real)
    requires WeightBelow(s, x) > 0
    ensures y < x
    ensures WeightTo(s, y) == WeightBelow(s, x) && WeightBelow(s, y) < WeightBelow(s, x)
  {
    var init, last := s[..|s| - 1], s[|s| - 1];
    if WeightBelow(init, x) == 0 {
      y := last.v;
      WeightMonotone(init, y, x);
    } else {
      var z := LargestBelow(init, x);
      if last.v < x && last.n > 0 && z < last.v {
        y := last.v;
        WeightMonotone(init, z, y);
        WeightMonotone(init, y, x);
      } else {
        y := z;
      }
    }
  }

  // ---------------------------------------------------------------- buckets

  /** Weight of the samples a key function sends to bucket k. */
  ghost function KeyWeight(s: seq<Sample>, key: real -> nat, k: nat): nat {
    if s == [] then 0
    else KeyWeight(s[..|s| - 1], key, k) + if key(s[|s| - 1].v) == k then s[|s| - 1].n else 0
  }

  ghost function KeyWeightTo(s: seq<Sample>, key: real -> nat, k: nat): nat {
    if s == [] then 0
    else KeyWeightTo(s[..|s| - 1], key, k) + if key(s[|s| - 1].v) <= k then s[|s| - 1].n else 0
  }

  /** Running total of bucket counts 0 to k - 1. */
  function Cumulative(c: nat -> nat, k: nat): nat {
    if k == 0 then 0 else Cumulative(c, k - 1) + c(k - 1)
  }

  ghost predicate Monotone(key: real -> nat) {
    forall a, b :: 0.0 <= a <= b ==> key(a) <= key(b)
  }

  lemma {:induction false} KeyWeightSplit(s: seq<Sample>, key: real -> nat, k: nat)
    ensures KeyWeightTo(s, key, k) == KeyWeight(s, key, k) + if k == 0 then 0 else KeyWeightTo(s, key, k - 1)
  {
    if s != [] {
      KeyWeightSplit(s[..|s| - 1], key, k);
    }
  }

  /** Counts that never exceed the true bucket weights accumulate to no more than the true weight. */
  lemma {:induction false} CumulativeAtMost(s: seq<Sample>, key: real -> nat, c: nat -> nat, k: nat)
    requires forall j :: 0 <= j <= k ==> c(j) <= KeyWeight(s, key, j)
    ensures Cumulative(c, k + 1) <= KeyWeightTo(s, key, k)
    ensures (forall j :: 0 <= j <= k ==> c(j) == KeyWeight(s, key, j)) ==> Cumulative(c, k + 1) == KeyWeightTo(s, key, k)
  {
    KeyWeightSplit(s, key, k);
    if k > 0 {
      CumulativeAtMost(s, key, c, k - 1);
    }
  }

  lemma {:induction false} KeyAgainstValue(s: seq<Sample>, key: real -> nat, k: nat, x: real)
    requires Monotone(key) && NonNegative(s) && x >= 0.0
    ensures key(x) > k ==> KeyWeightTo(s, key, k) <= WeightBelow(s, x)
    ensures key(x) <= k ==> WeightTo(s, x) <= KeyWeightTo(s, key, k)
  {
    if s != [] {
      KeyAgainstValue(s[..|s| - 1], key, k, x);
    }
  }

  /**
   * Where a bucket scan may stop. If the counts up to bucket k reach the rank,
   * the exact value lies in bucket k or lower, even when counts saturated; if the
   * counts below bucket k are exact and do not reach it, it lies in k or higher.
   */
  lemma ScanStopsAtRank(s: seq<Sample>, key: real -> nat, c: nat -> nat, rank: int, x: real, k: nat)
    requires Monotone(key) && NonNegative(s)
    requires NearestRank(s, rank, x)
    requires forall j :: 0 <= j <= k ==> c(j) <= KeyWeight(s, key, j)
    ensures x >= 0.0
    ensures Cumulative(c, k + 1) >= rank ==> key(x) <= k
    ensures Cumulative(c, k) < rank && (forall j :: 0 <= j < k ==> c(j) == KeyWeight(s, key, j)) ==> key(x) >= k
  {
    var i := NearestRankIsSample(s, rank, x);
    CumulativeAtMost(s, key, c, k);
    KeyAgainstValue(s, key, k, x);
    if k > 0 {
      CumulativeAtMost(s, key, c, k - 1);
      KeyAgainstValue(s, key, k - 1, x);
    }
  }
}
