/**
 * The fixed histogram of percentage metrics (internal/analysis/stats.go): 201
 * half-percent buckets whose counters saturate, however long an analysis runs.
 */
module Histograms {
  import opened Numbers
  import opened Ranks

  const HIST_BUCKETS := 200
  const MAX_UINT32 := 0xFFFF_FFFF

  type uint32 = n: nat | n <= MAX_UINT32

  /** Adds to a bucket counter, saturating instead of wrapping. */
  function AddCount(c: uint32, n: nat): (r: uint32)
    ensures r as int == Min(c + n, MAX_UINT32)
  {
    if n > MAX_UINT32 then MAX_UINT32
    else
      var sum := c + n;
      if sum > MAX_UINT32 then MAX_UINT32 else sum
  }

  // ------------------------------------------------------------ abstract state

  datatype HistState = HistState(b: seq<uint32>, n: nat, max: real, sum: real) {
    ghost predicate Valid() {
      |b| == HIST_BUCKETS + 1 && 0.0 <= max <= 100.0
    }
  }

  function EmptyHist(): (h: HistState)
    ensures h.Valid()
  {
    HistState(seq(HIST_BUCKETS + 1, i => 0), 0, 0.0, 0.0)
  }

  /** The bucket of a clamped value: truncation of twice the percentage. */
  function Bucket(v: real): nat {
    if v < 0.0 then 0 else (v * 2.0).Floor
  }

  function Added(h: HistState, v: real, n: nat): (r: HistState)
    requires h.Valid()
    ensures r.Valid()
  {
    if v < 0.0 || n == 0 then h
    else
      var w := MinReal(v, 100.0);
      var i := Bucket(w);
      HistState(h.b[i := AddCount(h.b[i], n)], h.n + n, MaxReal(h.max, w), h.sum + w * n as real)
  }

  function Count(b: seq<uint32>): nat -> nat {
    (k: nat) => if k < |b| then b[k] else 0
  }

  /** The first bucket at which the running total reaches the rank, or |b|. */
  function FirstAt(b: seq<uint32>, rank: int, from: nat): (k: nat)
    requires from <= |b|
    requires from > 0 ==> Cumulative(Count(b), from) < rank
    ensures from <= k <= |b|
    ensures k < |b| ==> Cumulative(Count(b), k + 1) >= rank
    ensures k > 0 ==> Cumulative(Count(b), k) < rank
    decreases |b| - from
  {
    if from == |b| then from
    else if Cumulative(Count(b), from + 1) >= rank then from
    else FirstAt(b, rank, from + 1)
  }

  function PctOf(h: HistState, p: real): real
    requires h.Valid()
  {
    if h.n == 0 then 0.0
    else
      var k := FirstAt(h.b, Target(h.n, p), 0);
      if k < |h.b| then MinReal((k + 1) as real / 2.0, h.max) else 100.0
  }

  // ---------------------------------------------------------------- the object

  class Hist {
    const b: array<uint32>
    var n: nat
    var max: real
    var sum: real

    ghost predicate Valid()
      reads this, b
    {
      State().Valid()
    }

    function State(): HistState
      reads this, b
    {
      HistState(b[..], n, max, sum)
    }

    constructor ()
      ensures Valid() && fresh(b) && State() == EmptyHist()
    {
      b := new uint32[HIST_BUCKETS + 1](i => 0);
      n, max, sum := 0, 0.0, 0.0;
      new;
      assert b[..] == EmptyHist().b;
    }

    method AddN(v: real, n: nat)
      requires Valid()
      modifies this, b
      ensures Valid() && State() == Added(old(State()), v, n)
    {
      if v < 0.0 || n == 0 {
        return;
      }
      var w := MinReal(v, 100.0);
      var i := (w * 2.0).Floor;
      b[i] := AddCount(b[i], n);
      this.n := this.n + n;
      sum := sum + w * n as real;
      max := MaxReal(max, w);
    }

    method Pct(p: real) returns (r: real)
      requires Valid()
      ensures r == PctOf(State(), p)
    {
      if n == 0 {
        return 0.0;
      }
      var target := Target(n, p);
      var acc := 0;
      for i := 0 to b.Length
        invariant acc == Cumulative(Count(b[..]), i)
        invariant i > 0 ==> acc < target
        invariant FirstAt(b[..], target, i) == FirstAt(b[..], target, 0)
      {
        acc := acc + b[i];
        if acc >= target {
          return MinReal((i + 1) as real / 2.0, max);
        }
      }
      return 100.0;
    }
  }

  // ------------------------------------------ what the histogram remembers of a stream

  /** The state after a stream of AddN calls. */
  ghost function Fold(s: seq<Sample>): (h: HistState)
    ensures h.Valid()
  {
    if s == [] then EmptyHist()
    else Added(Fold(s[..|s| - 1]), s[|s| - 1].v, s[|s| - 1].n)
  }

  /** The samples a histogram counts: non-negative, of positive weight, clamped to 100%. */
  ghost function Counted(s: seq<Sample>): (c: seq<Sample>)
    ensures NonNegative(c)
  {
    if s == [] then []
    else
      var last := s[|s| - 1];
      if last.v < 0.0 || last.n == 0 then Counted(s[..|s| - 1])
      else Counted(s[..|s| - 1]) + [Sample(MinReal(last.v, 100.0), last.n)]
  }

  lemma FoldSnoc(s: seq<Sample>, v: real, n: nat)
    ensures Fold(s + [Sample(v, n)]) == Added(Fold(s), v, n)
  {
    assert (s + [Sample(v, n)])[..|s|] == s;
  }

  ghost predicate Unsaturated(h: HistState) {
    forall k :: 0 <= k < |h.b| ==> h.b[k] < MAX_UINT32
  }

  lemma BucketMonotone()
    ensures Monotone(Bucket)
  {
  }

  /** One AddN moves one counter, by the weight added. */
  lemma AddedCount(h: HistState, v: real, n: nat, k: nat)
    requires h.Valid() && v >= 0.0 && n != 0 && k <= HIST_BUCKETS
    ensures Added(h, v, n).n == h.n + n
    ensures Added(h, v, n).b[k] as int == if Bucket(MinReal(v, 100.0)) == k then Min(h.b[k] + n, MAX_UINT32) else h.b[k]
  {
  }

  lemma CountedSnoc(c: seq<Sample>, x: Sample, k: nat)
    ensures KeyWeight(c + [x], Bucket, k) == KeyWeight(c, Bucket, k) + if Bucket(x.v) == k then x.n else 0
    ensures Total(c + [x]) == Total(c) + x.n
  {
    assert (c + [x])[..|c|] == c;
  }

  /** The counters as a function of the full sample multiset: exact weights, capped. */
  lemma {:induction false} FoldCounts(s: seq<Sample>)
    ensures Fold(s).n == Total(Counted(s))
    ensures forall k :: 0 <= k <= HIST_BUCKETS ==>
      Fold(s).b[k] as int == Min(KeyWeight(Counted(s), Bucket, k), MAX_UINT32)
  {
    hide Added, Bucket, MinReal;
    if s != [] {
      var init, last := s[..|s| - 1], s[|s| - 1];
      FoldCounts(init);
      var c := Counted(init);
      if last.v >= 0.0 && last.n != 0 {
        var x := Sample(MinReal(last.v, 100.0), last.n);
        AddedCount(Fold(init), last.v, last.n, 0);
        CountedSnoc(c, x, 0);
        forall k | 0 <= k <= HIST_BUCKETS
          ensures Fold(s).b[k] as int == Min(KeyWeight(Counted(s), Bucket, k), MAX_UINT32)
        {
          AddedCount(Fold(init), last.v, last.n, k);
          CountedSnoc(c, x, k);
        }
      } else {
        AddedNothing(Fold(init), last.v, last.n);
      }
    }
  }

  lemma AddedNothing(h: HistState, v: real, n: nat)
    requires h.Valid() && (v < 0.0 || n == 0)
    ensures Added(h, v, n) == h
  {
  }

  /** Max is the largest counted sample. */
  lemma {:induction false} FoldMax(s: seq<Sample>)
    ensures forall i :: 0 <= i < |Counted(s)| ==> Counted(s)[i].v <= Fold(s).max
    ensures if Counted(s) == [] then Fold(s).max == 0.0
            else exists i :: 0 <= i < |Counted(s)| && Counted(s)[i].v == Fold(s).max
  {
    if s != [] {
      var init, last := s[..|s| - 1], s[|s| - 1];
      FoldMax(init);
      if last.v >= 0.0 && last.n != 0 {
        var c := Counted(init);
        assert Counted(s)[|c|].v == MinReal(last.v, 100.0);
        if c != [] {
          var i :| 0 <= i < |c| && c[i].v == Fold(init).max;
          assert Counted(s)[i].v == Fold(init).max;
        }
      }
    }
  }

  lemma AddedSum(h: HistState, v: real, n: nat)
    requires h.Valid()
    ensures Added(h, v, n).sum == h.sum + if v >= 0.0 && n > 0 then Weighted(MinReal(v, 100.0), n) else 0.0
  {
  }

  lemma NothingSummed()
    ensures EmptyHist().sum == 0.0
  {
  }

  /** The running sum is the weighted sum of the counted samples. */
  lemma {:induction false} FoldSum(s: seq<Sample>)
    ensures Fold(s).sum == WeightedSum(Counted(s))
  {
    WeightedSnoc([], Sample(0.0, 0));
    hide WeightedSum, Weighted, Added, MinReal, EmptyHist;
    NothingSummed();
    if s != [] {
      var init, last := s[..|s| - 1], s[|s| - 1];
      FoldSum(init);
      AddedSum(Fold(init), last.v, last.n);
      WeightedSnoc(Counted(init), Sample(MinReal(last.v, 100.0), last.n));
    }
  }

  /** x is the exact nearest-rank percentile p of the samples a histogram counted. */
  ghost predicate ExactPct(s: seq<Sample>, p: real, x: real) {
    NearestRank(Counted(s), Target(Total(Counted(s)), p), x)
  }

  lemma ExactPctInRange(s: seq<Sample>, p: real, x: real)
    requires ExactPct(s, p, x)
    ensures 0.0 <= x <= Fold(s).max
    ensures 0 < Target(Fold(s).n, p) <= Fold(s).n
  {
    var c := Counted(s);
    FoldCounts(s);
    FoldMax(s);
    var i := NearestRankIsSample(c, Target(Total(c), p), x);
    WeightMonotone(c, x, x);
  }

  /** A percentile is never under-reported, even when bucket counters saturated. */
  lemma PctNotBelow(s: seq<Sample>, p: real, x: real)
    requires ExactPct(s, p, x)
    ensures x <= PctOf(Fold(s), p) <= 100.0
  {
    hide Fold, Counted, KeyWeight, Cumulative, WeightTo, WeightBelow, Target, Monotone, FirstAt;
    var h, c := Fold(s), Counted(s);
    FoldCounts(s);
    ExactPctInRange(s, p, x);
    var rank := Target(h.n, p);
    var k := FirstAt(h.b, rank, 0);
    if k < |h.b| {
      BucketMonotone();
      ScanStopsAtRank(c, Bucket, Count(h.b), rank, x, k);
    }
  }

  /** Without saturation it is at most half a percent above the exact value, and never above the largest sample. */
  lemma PctNotAbove(s: seq<Sample>, p: real, x: real)
    requires ExactPct(s, p, x) && Unsaturated(Fold(s))
    ensures PctOf(Fold(s), p) <= MinReal(x + 0.5, Fold(s).max)
  {
    var h, c := Fold(s), Counted(s);
    FoldCounts(s);
    ExactPctInRange(s, p, x);
    var rank := Target(h.n, p);
    var k := FirstAt(h.b, rank, 0);
    BucketMonotone();
    if k < |h.b| {
      ScanStopsAtRank(c, Bucket, Count(h.b), rank, x, k);
    } else {
      LastBucketTakesAll(s, p, x);
    }
  }

  lemma LastBucketTakesAll(s: seq<Sample>, p: real, x: real)
    requires ExactPct(s, p, x) && Unsaturated(Fold(s))
    ensures FirstAt(Fold(s).b, Target(Fold(s).n, p), 0) <= HIST_BUCKETS
  {
    var h, c := Fold(s), Counted(s);
    FoldCounts(s);
    ExactPctInRange(s, p, x);
    BucketMonotone();
    KeyAgainstValue(c, Bucket, HIST_BUCKETS, x);
    CumulativeAtMost(c, Bucket, Count(h.b), HIST_BUCKETS);
  }

  /** Every stream with a counted sample has an exact percentile to compare with. */
  lemma PctHasExactValue(s: seq<Sample>, p: real) returns (x: real)
    requires 0.0 < p <= 100.0 && Fold(s).n > 0
    ensures ExactPct(s, p, x)
  {
    FoldCounts(s);
    TargetInRange(Fold(s).n, p);
    x := NearestRankExists(Counted(s), Target(Fold(s).n, p));
  }

  lemma {:induction false} AllCounted(s: seq<Sample>, v: real)
    requires 0.0 <= v <= 100.0 && forall i :: 0 <= i < |s| ==> s[i] == Sample(v, 1)
    ensures Counted(s) == s && Total(s) == |s|
  {
    if s != [] {
      AllCounted(s[..|s| - 1], v);
    }
  }

  /** Of equal values, every percentile is that value. */
  lemma PercentileOfEqual(s: seq<Sample>, v: real, p: real)
    requires 0 < |s| < MAX_UINT32 && 0.0 <= v <= 100.0 && 0.0 < p <= 100.0
    requires forall i :: 0 <= i < |s| ==> s[i] == Sample(v, 1)
    ensures PctOf(Fold(s), p) == v && ExactPct(s, p, v)
  {
    hide PctOf, Fold, Counted, Total, Target, KeyWeight, NearestRank, Unsaturated;
    AllCounted(s, v);
    FoldCounts(s);
    FoldMax(s);
    var x := PctHasExactValue(s, p);
    var i := NearestRankIsSample(s, Target(Total(s), p), x);
    PctNotBelow(s, p, x);
    Light(s);
    PctNotAbove(s, p, x);
  }

  lemma Light(s: seq<Sample>)
    requires Total(Counted(s)) < MAX_UINT32
    ensures Unsaturated(Fold(s))
  {
    FoldCounts(s);
    forall k | 0 <= k < |Fold(s).b|
      ensures Fold(s).b[k] < MAX_UINT32
    {
      KeyWeightAtMost(Counted(s), Bucket, k);
    }
  }

  lemma {:induction false} KeyWeightAtMost(s: seq<Sample>, key: real -> nat, k: nat)
    ensures KeyWeight(s, key, k) <= Total(s)
  {
    if s != [] {
      KeyWeightAtMost(s[..|s| - 1], key, k);
    }
  }

  // ----------------------------------------------------- order and weights do not matter

  lemma AddedCommutes(h: HistState, a: Sample, b: Sample)
    requires h.Valid()
    ensures Added(Added(h, a.v, a.n), b.v, b.n) == Added(Added(h, b.v, b.n), a.v, a.n)
  {
    var ab, ba := Added(Added(h, a.v, a.n), b.v, b.n), Added(Added(h, b.v, b.n), a.v, a.n);
    assert forall k :: 0 <= k < |h.b| ==> ab.b[k] == ba.b[k];
  }

  /** Taking one sample out of the stream and adding it last leaves the same state. */
  lemma {:induction false} MoveToEnd(s: seq<Sample>, i: nat)
    requires i < |s|
    ensures Fold(s) == Added(Fold(s[..i] + s[i + 1..]), s[i].v, s[i].n)
  {
    var init, last, rest := s[..|s| - 1], s[|s| - 1], s[..i] + s[i + 1..];
    assert s == init + [last];
    FoldSnoc(init, last.v, last.n);
    if i == |s| - 1 {
      assert rest == init;
    } else {
      var shorter := init[..i] + init[i + 1..];
      assert rest == shorter + [last];
      FoldSnoc(shorter, last.v, last.n);
      hide Fold, Added;
      MoveToEnd(init, i);
      AddedCommutes(Fold(shorter), s[i], last);
    }
  }

  lemma WithoutOne(s: seq<Sample>, i: nat)
    requires i < |s|
    ensures multiset(s[..i] + s[i + 1..]) == multiset(s) - multiset{s[i]}
  {
    assert s == s[..i] + ([s[i]] + s[i + 1..]);
    assert multiset(s) == multiset(s[..i]) + multiset([s[i]] + s[i + 1..]);
  }

  /** The state depends only on which samples arrived, not on their order. */
  lemma {:induction false} OrderIrrelevant(s: seq<Sample>, t: seq<Sample>)
    requires multiset(s) == multiset(t)
    ensures Fold(s) == Fold(t)
  {
    if s == [] {
      assert |multiset(t)| == |t|;
    } else {
      var last := s[|s| - 1];
      assert last in multiset(t);
      var i :| 0 <= i < |t| && t[i] == last;
      WithoutOne(s, |s| - 1);
      WithoutOne(t, i);
      OrderIrrelevant(s[..|s| - 1] + s[|s|..], t[..i] + t[i + 1..]);
      MoveToEnd(s, |s| - 1);
      MoveToEnd(t, i);
    }
  }

  /** AddN(v, n) is n single samples. */
  lemma {:induction false} WeightIsRepetition(s: seq<Sample>, v: real, n: nat)
    ensures Fold(s + [Sample(v, n)]) == Fold(s + seq(n, i => Sample(v, 1)))
  {
    assert (s + [Sample(v, n)])[..|s|] == s;
    if n == 0 {
      assert s + seq(n, i => Sample(v, 1)) == s;
    } else {
      var many := s + seq(n, i => Sample(v, 1));
      assert many[..|many| - 1] == s + seq(n - 1, i => Sample(v, 1));
      WeightIsRepetition(s, v, n - 1);
      assert (s + [Sample(v, n - 1)])[..|s|] == s;
      AddedAccumulates(Fold(s), v, n - 1);
    }
  }

  lemma AddedAccumulates(h: HistState, v: real, n: nat)
    requires h.Valid()
    ensures Added(Added(h, v, n), v, 1) == Added(h, v, n + 1)
  {
    if v >= 0.0 {
      var l, r := Added(Added(h, v, n), v, 1), Added(h, v, n + 1);
      var w := MinReal(v, 100.0);
      assert w * n as real + w == w * (n + 1) as real;
      assert forall k :: 0 <= k < |h.b| ==> l.b[k] == r.b[k];
    }
  }
}
