/**
 * The logarithmic histogram of rates (internal/analysis/io.go): a sparse map of
 * saturating counters, one bucket for every 2% step of 1 + v.
 */
module LogHistograms {
  import opened Numbers
  import opened Ranks
  import opened Histograms

  const STEP := 1.02

  type uint16 = n: nat | n <= MAX_UINT16

  /** base to the power k. */
  function Pow(base: real, k: nat): real {
    if k == 0 then 1.0 else Pow(base, k - 1) * base
  }

  lemma {:induction false} PowIncreases(base: real, j: nat, k: nat)
    requires base >= 1.0 && j <= k
    ensures 1.0 <= Pow(base, j) <= Pow(base, k)
    ensures base > 1.0 && j < k ==> Pow(base, j) < Pow(base, k)
    decreases k
  {
    if j < k {
      PowIncreases(base, j, k - 1);
      var p := Pow(base, k - 1);
      assert p * base >= p;
      if base > 1.0 {
        assert p * base > p;
      }
    } else if j > 0 {
      PowIncreases(base, j - 1, j - 1);
      var p := Pow(base, j - 1);
      assert p * base >= p;
    }
  }

  /**
   * The bucket of a rate: log(1 + v) / log(1.02) truncated and capped at 65535,
   * found as the last k whose power of 1.02 does not exceed 1 + v.
   */
  function LogBucket(v: real): (k: nat)
    ensures k <= MAX_UINT16
    ensures v >= 0.0 ==> Pow(STEP, k) <= 1.0 + v
    ensures k < MAX_UINT16 ==> 1.0 + v < Pow(STEP, k + 1)
  {
    LogBucketFrom(v, 0)
  }

  function LogBucketFrom(v: real, k: nat): (r: nat)
    requires k <= MAX_UINT16
    requires v >= 0.0 ==> Pow(STEP, k) <= 1.0 + v
    ensures r <= MAX_UINT16
    ensures v >= 0.0 ==> Pow(STEP, r) <= 1.0 + v
    ensures r < MAX_UINT16 ==> 1.0 + v < Pow(STEP, r + 1)
    decreases v, MAX_UINT16 - k
  {
    if k == MAX_UINT16 || 1.0 + v < Pow(STEP, k + 1) then k else LogBucketFrom(v, k + 1)
  }

  lemma LogBucketMonotone(a: real, b: real)
    requires 0.0 <= a <= b
    ensures LogBucket(a) <= LogBucket(b)
  {
    var j, k := LogBucket(a), LogBucket(b);
    if k < j {
      PowIncreases(STEP, k + 1, j);
    }
  }

  // --------------------------------------------------------- float64 never reaches the cap

  /** Two to this power is just above the largest float64. */
  const FLOAT_EXPONENT := 1024

  lemma {:induction false} PowProduct(base: real, j: nat, k: nat)
    ensures Pow(base, j + k) == Pow(base, j) * Pow(base, k)
  {
    if k > 0 {
      PowProduct(base, j, k - 1);
    }
  }

  /** 1.02 doubles within 36 steps. */
  lemma DoublesIn36()
    ensures 2.0 <= Pow(STEP, 36)
  {
    PowProduct(STEP, 1, 1);
    PowProduct(STEP, 2, 2);
    PowProduct(STEP, 4, 4);
    PowProduct(STEP, 8, 8);
    PowProduct(STEP, 16, 16);
    PowProduct(STEP, 32, 4);
    var p4, p8, p16, p32 := Pow(STEP, 4), Pow(STEP, 8), Pow(STEP, 16), Pow(STEP, 32);
    assert p4 >= 1.08;
    assert p8 >= 1.08 * 1.08;
    assert p16 >= 1.36 by { assert p8 >= 1.1664; assert p8 * p8 >= 1.1664 * p8 >= 1.1664 * 1.1664; }
    assert p32 >= 1.86 by { assert p16 * p16 >= 1.36 * p16 >= 1.36 * 1.36 - 0.02; }
    assert p32 * p4 >= 1.86 * p4;
  }

  lemma MulMonotone(a: real, b: real, c: real, d: real)
    requires 0.0 <= a <= b && 0.0 <= c <= d
    ensures 0.0 <= a * c <= b * d
  {
    assert a * c <= a * d <= b * d;
  }

  lemma {:induction false} TwosBelowSteps(k: nat)
    ensures Pow(2.0, k) <= Pow(STEP, 36 * k)
  {
    if k > 0 {
      TwosBelowSteps(k - 1);
      DoublesIn36();
      PowProduct(STEP, 36 * (k - 1), 36);
      PowIncreases(2.0, 0, k - 1);
      MulMonotone(Pow(2.0, k - 1), Pow(STEP, 36 * (k - 1)), 2.0, Pow(STEP, 36));
    }
  }

  /** A float64 lands far below bucket 65535, so the uint16 k + 1 of Pct cannot wrap to 0. */
  lemma FloatStaysBelowCap(v: real, e: nat)
    requires 0.0 <= v < Pow(2.0, e) && e <= FLOAT_EXPONENT
    ensures LogBucket(v) < MAX_UINT16
  {
    TwosBelowSteps(e + 1);
    PowIncreases(2.0, 0, e);
    PowIncreases(STEP, 36 * (e + 1), MAX_UINT16);
  }

  // ------------------------------------------------------------ abstract state

  datatype LogState = LogState(b: map<uint16, uint32>, n: nat, max: real, sum: real)

  const EMPTY_LOG := LogState(map[], 0, 0.0, 0.0)

  function LogCount(b: map<uint16, uint32>): nat -> nat {
    (k: nat) => if k <= MAX_UINT16 && k in b then b[k] else 0
  }

  function LogAdded(h: LogState, v: real, n: nat): LogState {
    if v < 0.0 || n == 0 then h
    else
      var k := LogBucket(v);
      LogState(h.b[k := AddCount(LogCount(h.b)(k), n)], h.n + n, MaxReal(h.max, v), h.sum + v * n as real)
  }

  /** The first key at which the running total reaches the rank, or 65536. */
  function FirstKey(b: map<uint16, uint32>, rank: int, from: nat): (k: nat)
    requires from <= MAX_UINT16 + 1
    ensures from <= k <= MAX_UINT16 + 1
    ensures k <= MAX_UINT16 ==> k in b && Cumulative(LogCount(b), k + 1) >= rank
    ensures forall j: uint16 :: from <= j < k && j in b ==> Cumulative(LogCount(b), j + 1) < rank
    decreases b, MAX_UINT16 + 1 - from
  {
    if from > MAX_UINT16 then from
    else if from in b && Cumulative(LogCount(b), from + 1) >= rank then from
    else FirstKey(b, rank, from + 1)
  }

  /** The upper edge of bucket k, in the uint16 arithmetic of Pct: past the last bucket it wraps to 0. */
  function UpperEdge(k: nat): real {
    Pow(STEP, if k == MAX_UINT16 then 0 else k + 1) - 1.0
  }

  function LogPctOf(h: LogState, p: real): real {
    if h.n == 0 then 0.0
    else
      var k := FirstKey(h.b, Target(h.n, p), 0);
      if k <= MAX_UINT16 then MinReal(UpperEdge(k), h.max) else h.max
  }

  lemma {:induction false} SkipAbsentKeys(b: map<uint16, uint32>, rank: int, from: nat, to: nat)
    requires from <= to <= MAX_UINT16 + 1
    requires forall j: uint16 :: from <= j < to ==> j !in b
    ensures Cumulative(LogCount(b), from) == Cumulative(LogCount(b), to)
    ensures FirstKey(b, rank, from) == FirstKey(b, rank, to)
    decreases b, to - from
  {
    if from < to {
      SkipAbsentKeys(b, rank, from, to - 1);
      SkipOneKey(b, rank, to - 1);
    }
  }

  lemma SkipOneKey(b: map<uint16, uint32>, rank: int, j: uint16)
    requires j !in b
    ensures Cumulative(LogCount(b), j + 1) == Cumulative(LogCount(b), j)
    ensures FirstKey(b, rank, j) == FirstKey(b, rank, j + 1)
  {
    assert LogCount(b)(j) == 0;
  }

  /** One step of the scan: the keys between two buckets are absent, and bucket k is not enough. */
  lemma PassBucket(b: map<uint16, uint32>, rank: int, next: nat, k: uint16)
    requires next <= k
    requires forall j: uint16 :: next <= j < k ==> j !in b
    ensures Cumulative(LogCount(b), k + 1) == Cumulative(LogCount(b), next) + LogCount(b)(k)
    ensures k in b && Cumulative(LogCount(b), k + 1) >= rank ==> FirstKey(b, rank, next) == k
    ensures Cumulative(LogCount(b), k + 1) < rank ==> FirstKey(b, rank, next) == FirstKey(b, rank, k + 1)
  {
    SkipAbsentKeys(b, rank, next, k);
  }

  lemma BelowUpperEdge(x: real, k: nat)
    requires x >= 0.0 && LogBucket(x) <= k < MAX_UINT16
    ensures x <= UpperEdge(k)
  {
    PowIncreases(STEP, LogBucket(x) + 1, k + 1);
  }

  lemma EdgeNearValue(x: real, k: nat)
    requires x >= 0.0 && k <= LogBucket(x) && k < MAX_UINT16
    ensures UpperEdge(k) <= STEP * x + 0.02
  {
    var kx := LogBucket(x);
    PowIncreases(STEP, k, kx);
    assert Pow(STEP, k + 1) == Pow(STEP, k) * STEP;
  }

  // ---------------------------------------------------------------- the object

  ghost predicate Ascending(ks: seq<uint16>) {
    forall i, j :: 0 <= i < j < |ks| ==> ks[i] < ks[j]
  }

  function Insert(ks: seq<uint16>, k: uint16): (r: seq<uint16>)
    requires Ascending(ks) && k !in ks
    ensures Ascending(r) && forall x :: x in r <==> x in ks || x == k
  {
    if ks == [] || k < ks[0] then [k] + ks
    else
      var rest := Insert(ks[1..], k);
      assert forall j :: 0 <= j < |rest| ==> rest[j] in ks[1..] || rest[j] == k;
      [ks[0]] + rest
  }

  method SortedKeys(b: map<uint16, uint32>) returns (ks: seq<uint16>)
    ensures Ascending(ks) && forall k :: k in ks <==> k in b
  {
    ks := [];
    var rest := b.Keys;
    while rest != {}
      invariant Ascending(ks) && rest <= b.Keys
      invariant forall k :: k in ks <==> k in b.Keys - rest
    {
      var k :| k in rest;
      ks, rest := Insert(ks, k), rest - {k};
    }
  }

  class LogHist {
    var b: map<uint16, uint32>
    var n: nat
    var max: real
    var sum: real

    function State(): LogState
      reads this
    {
      LogState(b, n, max, sum)
    }

    constructor ()
      ensures State() == EMPTY_LOG
    {
      b, n, max, sum := map[], 0, 0.0, 0.0;
    }

    method AddN(v: real, n: nat)
      modifies this
      ensures State() == LogAdded(old(State()), v, n)
    {
      if v < 0.0 || n == 0 {
        return;
      }
      var k := LogBucket(v);
      b := b[k := AddCount(if k in b then b[k] else 0, n)];
      this.n := this.n + n;
      sum := sum + v * n as real;
      max := MaxReal(max, v);
    }

    method Pct(p: real) returns (r: real)
      ensures r == LogPctOf(State(), p)
    {
      if n == 0 {
        return 0.0;
      }
      var keys := SortedKeys(b);
      var target := Target(n, p);
      var acc := 0;
      for i := 0 to |keys|
        invariant acc == Cumulative(LogCount(b), After(keys, i))
        invariant FirstKey(b, target, After(keys, i)) == FirstKey(b, target, 0)
      {
        var k := keys[i];
        AbsentBetween(keys, i);
        PassBucket(b, target, After(keys, i), k);
        acc := acc + b[k];
        if acc >= target {
          return MinReal(UpperEdge(k), max);
        }
      }
      AbsentBetween(keys, |keys|);
      SkipAbsentKeys(b, target, After(keys, |keys|), MAX_UINT16 + 1);
      return max;
    }
  }

  /** The first bucket not yet visited when i sorted keys are done. */
  ghost function After(keys: seq<uint16>, i: nat): nat
    requires i <= |keys|
  {
    if i == 0 then 0 else (keys[i - 1] as nat) + 1
  }

  lemma AbsentBetween(keys: seq<uint16>, i: nat)
    requires Ascending(keys) && i <= |keys|
    ensures i < |keys| ==> After(keys, i) <= keys[i]
    ensures forall j: uint16 :: After(keys, i) <= j && (i < |keys| ==> j < keys[i]) ==> j !in keys
  {
  }

  // ------------------------------------------ what the histogram remembers of a stream

  ghost function LogFold(s: seq<Sample>): LogState {
    if s == [] then EMPTY_LOG
    else LogAdded(LogFold(s[..|s| - 1]), s[|s| - 1].v, s[|s| - 1].n)
  }

  /** The samples a histogram counts: non-negative and of positive weight. */
  ghost function LogCounted(s: seq<Sample>): (c: seq<Sample>)
    ensures NonNegative(c)
  {
    if s == [] then []
    else if s[|s| - 1].v < 0.0 || s[|s| - 1].n == 0 then LogCounted(s[..|s| - 1])
    else LogCounted(s[..|s| - 1]) + [s[|s| - 1]]
  }

  /** One AddN moves one counter, by the weight added. */
  lemma LogAddedCount(h: LogState, v: real, n: nat, k: uint16)
    requires v >= 0.0 && n != 0
    ensures LogCount(LogAdded(h, v, n).b)(k)
      == if LogBucket(v) == k then Min(LogCount(h.b)(k) + n, MAX_UINT32) else LogCount(h.b)(k)
  {
    hide LogBucket;
  }

  lemma {:induction false} LogFoldCount(s: seq<Sample>, k: uint16)
    ensures LogCount(LogFold(s).b)(k) == Min(KeyWeight(LogCounted(s), LogBucket, k), MAX_UINT32)
  {
    hide LogBucket, LogAdded, LogCount;
    if s == [] {
      NothingCounted(k);
    } else {
      var init, last := s[..|s| - 1], s[|s| - 1];
      LogFoldCount(init, k);
      if last.v >= 0.0 && last.n != 0 {
        var c := LogCounted(init);
        assert (c + [last])[..|c|] == c;
        LogAddedCount(LogFold(init), last.v, last.n, k);
      } else {
        LogAddedNothing(LogFold(init), last.v, last.n);
      }
    }
  }

  lemma NothingCounted(k: nat)
    ensures LogCount(EMPTY_LOG.b)(k) == 0
  {
  }

  lemma LogAddedNothing(h: LogState, v: real, n: nat)
    requires v < 0.0 || n == 0
    ensures LogAdded(h, v, n) == h
  {
    hide LogBucket;
  }

  lemma {:induction false} LogFoldTotal(s: seq<Sample>)
    ensures LogFold(s).n == Total(LogCounted(s))
  {
    hide LogBucket, LogCount, AddCount;
    if s != [] {
      var init, last := s[..|s| - 1], s[|s| - 1];
      LogFoldTotal(init);
      assert (LogCounted(init) + [last])[..|LogCounted(init)|] == LogCounted(init);
    }
  }

  lemma LogFoldCounts(s: seq<Sample>)
    ensures LogFold(s).n == Total(LogCounted(s))
    ensures forall k: uint16 :: LogCount(LogFold(s).b)(k) == Min(KeyWeight(LogCounted(s), LogBucket, k), MAX_UINT32)
  {
    hide LogBucket, LogCount, LogAdded;
    LogFoldTotal(s);
    forall k: uint16
      ensures LogCount(LogFold(s).b)(k) == Min(KeyWeight(LogCounted(s), LogBucket, k), MAX_UINT32)
    {
      LogFoldCount(s, k);
    }
  }

  /** The running sum is the weighted sum of the counted samples. */
  lemma {:induction false} LogFoldSum(s: seq<Sample>)
    ensures LogFold(s).sum == WeightedSum(LogCounted(s))
  {
    WeightedSnoc([], Sample(0.0, 0));
    hide LogBucket, LogCount, AddCount, WeightedSum;
    if s != [] {
      var init, last := s[..|s| - 1], s[|s| - 1];
      LogFoldSum(init);
      WeightedSnoc(LogCounted(init), last);
    }
  }

  /** Max is the largest counted rate, 0 without any. */
  lemma {:induction false} LogFoldMax(s: seq<Sample>)
    ensures forall i :: 0 <= i < |LogCounted(s)| ==> LogCounted(s)[i].v <= LogFold(s).max
    ensures if LogCounted(s) == [] then LogFold(s).max == 0.0
            else exists i :: 0 <= i < |LogCounted(s)| && LogCounted(s)[i].v == LogFold(s).max
  {
    hide LogBucket, LogCount, AddCount;
    if s != [] {
      var init, last := s[..|s| - 1], s[|s| - 1];
      LogFoldMax(init);
      if last.v >= 0.0 && last.n != 0 {
        var c := LogCounted(init);
        assert LogCounted(s)[|c|] == last;
        if c != [] {
          var i :| 0 <= i < |c| && c[i].v == LogFold(init).max;
          assert LogCounted(s)[i].v == LogFold(init).max;
        }
      }
    }
  }

  ghost predicate ExactLogPct(s: seq<Sample>, p: real, x: real) {
    NearestRank(LogCounted(s), Target(Total(LogCounted(s)), p), x)
  }

  ghost predicate LogUnsaturated(h: LogState) {
    forall k :: k in h.b ==> h.b[k] < MAX_UINT32
  }

  /** All values stay below two to the power e; every float64 does with e = 1024. */
  ghost predicate Floats(s: seq<Sample>, e: nat) {
    e <= FLOAT_EXPONENT && forall i :: 0 <= i < |s| ==> s[i].v < Pow(2.0, e)
  }

  lemma LogBucketsMonotone()
    ensures Monotone(LogBucket)
  {
    forall a, b | 0.0 <= a <= b
      ensures LogBucket(a) <= LogBucket(b)
    {
      LogBucketMonotone(a, b);
    }
  }

  /** Every counted sample has its key in the map, below the cap. */
  lemma {:induction false} KeysOfFloats(s: seq<Sample>, e: nat)
    requires Floats(s, e)
    ensures forall k :: k in LogFold(s).b ==> k < MAX_UINT16
    ensures forall i :: 0 <= i < |LogCounted(s)| ==> LogBucket(LogCounted(s)[i].v) in LogFold(s).b
  {
    if s != [] {
      KeysOfFloats(s[..|s| - 1], e);
      if s[|s| - 1].v >= 0.0 {
        FloatStaysBelowCap(s[|s| - 1].v, e);
      }
    }
  }

  /** A rate percentile is never under-reported, and never above the largest sample. */
  lemma LogPctNotBelow(s: seq<Sample>, p: real, x: real, e: nat)
    requires Floats(s, e) && ExactLogPct(s, p, x)
    ensures x <= LogPctOf(LogFold(s), p) <= LogFold(s).max
  {
    var h, c := LogFold(s), LogCounted(s);
    LogFoldCounts(s);
    LogFoldMax(s);
    KeysOfFloats(s, e);
    var rank := Target(h.n, p);
    var i := NearestRankIsSample(c, rank, x);
    WeightMonotone(c, x, x);
    LogBucketsMonotone();
    var k := FirstKey(h.b, rank, 0);
    if k <= MAX_UINT16 {
      ScanStopsAtRank(c, LogBucket, LogCount(h.b), rank, x, k);
      BelowUpperEdge(x, k);
    }
  }

  /** Without saturation the relative error is one bucket: 2% of 1 + x. */
  lemma LogPctNotAbove(s: seq<Sample>, p: real, x: real, e: nat)
    requires Floats(s, e) && ExactLogPct(s, p, x) && LogUnsaturated(LogFold(s))
    ensures LogPctOf(LogFold(s), p) <= STEP * x + 0.02
  {
    var h, c := LogFold(s), LogCounted(s);
    LogFoldCounts(s);
    KeysOfFloats(s, e);
    var rank := Target(h.n, p);
    var i := NearestRankIsSample(c, rank, x);
    WeightMonotone(c, x, x);
    LogBucketsMonotone();
    var kx := LogBucket(x);
    CumulativeAtMost(c, LogBucket, LogCount(h.b), kx);
    KeyAgainstValue(c, LogBucket, kx, x);
    var k := FirstKey(h.b, rank, 0);
    assert k <= kx;
    EdgeNearValue(x, k);
  }

  lemma LogPctHasExactValue(s: seq<Sample>, p: real) returns (x: real)
    requires 0.0 < p <= 100.0 && LogFold(s).n > 0
    ensures ExactLogPct(s, p, x)
  {
    LogFoldCounts(s);
    TargetInRange(LogFold(s).n, p);
    x := NearestRankExists(LogCounted(s), Target(LogFold(s).n, p));
  }

  /** Two samples can be folded in either order, as ranging over a Go map requires. */
  lemma LogAddedCommutes(h: LogState, a: Sample, b: Sample)
    ensures LogAdded(LogAdded(h, a.v, a.n), b.v, b.n) == LogAdded(LogAdded(h, b.v, b.n), a.v, a.n)
  {
    if a.v >= 0.0 && a.n != 0 && b.v >= 0.0 && b.n != 0 {
      var ab, ba := LogAdded(LogAdded(h, a.v, a.n), b.v, b.n), LogAdded(LogAdded(h, b.v, b.n), a.v, a.n);
      assert ab.b.Keys == ba.b.Keys;
      assert forall k :: k in ab.b ==> ab.b[k] == ba.b[k];
    }
  }
}
