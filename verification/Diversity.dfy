/**
 * How far the diversity factor can go (peaks, internal/analysis/peaks.go): the
 * exact condition, on slot counts alone, under which the combined peak of a
 * cluster covers the peaks of its VMs.
 */
module Diversity {
  import opened Numbers
  import opened Ranks
  import opened RealProducts
  import opened DemandSlots
  import opened Peaks

  // ------------------------------------------------- counting values at or above a level

  function AtLeast(v: seq<real>, y: real): (n: nat)
    ensures n <= |v|
  {
    if v == [] then 0 else AtLeast(v[..|v| - 1], y) + if v[|v| - 1] >= y then 1 else 0
  }

  lemma {:induction false} AtLeastIsRest(v: seq<real>, y: real)
    ensures AtLeast(v, y) == |v| - WeightBelow(Units(v), y)
  {
    if v != [] {
      AtLeastIsRest(v[..|v| - 1], y);
      UnitsSnoc(v[..|v| - 1], v[|v| - 1], y);
      assert v[..|v| - 1] + [v[|v| - 1]] == v;
    }
  }

  lemma AtLeastSnoc(v: seq<real>, x: real, y: real)
    ensures AtLeast(v + [x], y) == AtLeast(v, y) + if x >= y then 1 else 0
  {
    assert (v + [x])[..|v|] == v;
  }

  /** How many of n values lie above the rank a percentile asks for. */
  function Above(n: nat, p: real): int {
    n - Target(n, p)
  }

  /** A percentile reaches a level exactly when more values do than lie above its rank. */
  lemma PercentileReaches(v: seq<real>, p: real, y: real)
    requires v != [] && 0.0 < p <= 100.0
    ensures Percentile(v, p) >= y <==> AtLeast(v, y) > Above(|v|, p)
  {
    PercentileIsNearestRank(v, p);
    AtLeastIsRest(v, y);
    var x := Percentile(v, p);
    hide Percentile, Target, AtLeast;
    if x >= y {
      WeightMonotone(Units(v), y, x);
    } else {
      WeightMonotone(Units(v), x, y);
    }
  }

  // --------------------------------------------------------------- counting slots

  /** Slots with data among the first m. */
  function Filled(slots: seq<nat>, m: nat): (n: nat)
    ensures n <= m
  {
    if m == 0 then 0 else Filled(slots, m - 1) + if m - 1 < |slots| && slots[m - 1] != 0 then 1 else 0
  }

  predicate AnyFilled(all: seq<seq<nat>>, i: nat) {
    exists l :: 0 <= l < |all| && i < |all[l]| && all[l][i] != 0
  }

  /** Slots with data of any VM, among the first m. */
  function FilledByAny(all: seq<seq<nat>>, m: nat): (n: nat)
    ensures n <= m
  {
    if m == 0 then 0 else FilledByAny(all, m - 1) + if AnyFilled(all, m - 1) then 1 else 0
  }

  function Longest(all: seq<seq<nat>>): nat {
    if all == [] then 0 else Max(Longest(all[..|all| - 1]), |all[|all| - 1]|)
  }

  /** A VM's slots with data, and the slots with data of any VM. */
  function DataSlots(slots: seq<nat>): nat {
    Filled(slots, |slots|)
  }

  function UnionSlots(all: seq<seq<nat>>): nat {
    FilledByAny(all, Longest(all))
  }

  /** The series have data in exactly these slots. */
  ghost predicate HasSlots(loads: seq<DemandSeries>, all: seq<seq<nat>>) {
    && |loads| == |all|
    && forall l :: 0 <= l < |all| ==> loads[l].slots == all[l]
  }

  lemma {:induction false} ValuesAreFilled(s: DemandSeries, m: nat)
    requires s.Valid()
    ensures |Values(s, m)| == Filled(s.slots, m)
  {
    if m > 0 {
      ValuesAreFilled(s, m - 1);
    }
  }

  lemma {:induction false} SeenIsAnyFilled(loads: seq<DemandSeries>, all: seq<seq<nat>>, i: nat)
    requires ValidSeries(loads) && HasSlots(loads, all)
    ensures SeenAt(loads, i) <==> AnyFilled(all, i)
  {
    if loads != [] {
      var init := all[..|all| - 1];
      SeenIsAnyFilled(loads[..|loads| - 1], init, i);
      if AnyFilled(all, i) {
        var l :| 0 <= l < |all| && i < |all[l]| && all[l][i] != 0;
        assert l < |init| ==> init[l] == all[l];
      }
      if AnyFilled(init, i) {
        var l :| 0 <= l < |init| && i < |init[l]| && init[l][i] != 0;
        assert all[l] == init[l];
      }
    }
  }

  lemma {:induction false} SumsAreFilled(loads: seq<DemandSeries>, all: seq<seq<nat>>, m: nat)
    requires ValidSeries(loads) && HasSlots(loads, all)
    ensures |Sums(loads, m)| == FilledByAny(all, m)
  {
    if m > 0 {
      SumsAreFilled(loads, all, m - 1);
      SeenIsAnyFilled(loads, all, m - 1);
    }
  }

  lemma {:induction false} WidthIsLongest(loads: seq<DemandSeries>, all: seq<seq<nat>>)
    requires ValidSeries(loads) && HasSlots(loads, all)
    ensures Width(loads) == Longest(all)
  {
    if loads != [] {
      WidthIsLongest(loads[..|loads| - 1], all[..|all| - 1]);
    }
  }

  // ------------------------------------------------------- when the diversity is bounded

  /**
   * No VM leaves fewer of its own slots above its percentile than the cluster
   * leaves above the combined one. It depends on slot counts alone.
   */
  ghost predicate EnoughAbove(all: seq<seq<nat>>, p: real) {
    forall l :: 0 <= l < |all| && DataSlots(all[l]) > 0 ==>
      Above(DataSlots(all[l]), p) >= Above(UnionSlots(all), p)
  }

  ghost predicate Bounded(loads: seq<DemandSeries>, p: real)
    requires ValidSeries(loads)
  {
    PeakOf(loads, p).Some? ==> PeakOf(loads, p).value.diversity <= |loads| as real
  }

  /** Whatever non-negative demand fills these slots, the diversity factor is at most the number of VMs. */
  ghost predicate AlwaysBounded(all: seq<seq<nat>>, p: real) {
    forall loads :: HasSlots(loads, all) && ValidSeries(loads) && NonNegativeDemand(loads) ==> Bounded(loads, p)
  }

  lemma SumsSnoc(loads: seq<DemandSeries>, m: nat, y: real)
    requires ValidSeries(loads) && m > 0
    ensures AtLeast(Sums(loads, m), y)
      == AtLeast(Sums(loads, m - 1), y) + if SeenAt(loads, m - 1) && TotalAt(loads, m - 1) >= y then 1 else 0
  {
    hide AtLeast, TotalAt, SeenAt;
    var i := m - 1;
    AtLeastSnoc(Sums(loads, i), TotalAt(loads, i), y);
    assert Sums(loads, i) + [] == Sums(loads, i);
  }

  lemma ValuesSnoc(s: DemandSeries, m: nat, y: real)
    requires s.Valid() && m > 0
    ensures AtLeast(Values(s, m), y) == AtLeast(Values(s, m - 1), y) + if Present(s, m - 1) && s.demand[m - 1] >= y then 1 else 0
  {
    hide AtLeast;
    var i := m - 1;
    if Present(s, i) {
      AtLeastSnoc(Values(s, i), s.demand[i], y);
    } else {
      assert Values(s, i) + [] == Values(s, i);
    }
  }

  lemma TotalReaches(loads: seq<DemandSeries>, l: nat, i: nat, y: real)
    requires ValidSeries(loads) && NonNegativeDemand(loads) && l < |loads|
    ensures Present(loads[l], i) && loads[l].demand[i] >= y ==> SeenAt(loads, i) && TotalAt(loads, i) >= y
  {
    TotalAtLeastEach(loads, l, i);
  }

  /** At every level the sums count at least as many slots as any VM. */
  lemma {:induction false} SumsReachEach(loads: seq<DemandSeries>, l: nat, m: nat, y: real)
    requires ValidSeries(loads) && NonNegativeDemand(loads) && l < |loads|
    ensures AtLeast(Sums(loads, m), y) >= AtLeast(Values(loads[l], m), y)
  {
    assert loads[l].Valid();
    assert m == 0 ==> Sums(loads, m) == [] == Values(loads[l], m);
    hide *;
    if m > 0 {
      SumsReachEach(loads, l, m - 1, y);
      TotalReaches(loads, l, m - 1, y);
      SumsSnoc(loads, m, y);
      ValuesSnoc(loads[l], m, y);
    }
  }

  lemma CountsOf(loads: seq<DemandSeries>, all: seq<seq<nat>>, l: nat)
    requires ValidSeries(loads) && HasSlots(loads, all) && l < |loads|
    ensures |Values(loads[l], |loads[l].demand|)| == DataSlots(all[l])
    ensures Values(loads[l], |loads[l].demand|) == Values(loads[l], Width(loads))
    ensures |Sums(loads, Width(loads))| == UnionSlots(all)
    ensures DataSlots(all[l]) > 0 ==> UnionSlots(all) > 0
  {
    ValuesAreFilled(loads[l], |loads[l].demand|);
    WithinWidth(loads, l);
    ValuesSettle(loads[l], Width(loads));
    WidthIsLongest(loads, all);
    SumsAreFilled(loads, all, Width(loads));
    FilledInUnion(all, l, Width(loads));
    ValuesAreFilled(loads[l], Width(loads));
  }

  lemma {:induction false} FilledInUnion(all: seq<seq<nat>>, l: nat, m: nat)
    requires l < |all|
    ensures Filled(all[l], m) <= FilledByAny(all, m)
  {
    if m > 0 {
      FilledInUnion(all, l, m - 1);
    }
  }

  /** With enough slots above, the combined peak covers a VM's own peak. */
  lemma CombinedCoversEach(loads: seq<DemandSeries>, all: seq<seq<nat>>, p: real, l: nat)
    requires ValidSeries(loads) && NonNegativeDemand(loads) && HasSlots(loads, all) && 0.0 < p <= 100.0
    requires EnoughAbove(all, p) && l < |loads| && DataSlots(all[l]) > 0
    ensures OwnPeak(loads[l], p) <= CombinedPeak(loads, p)
  {
    hide Percentile, Above, DataSlots, UnionSlots, Values, Sums, Width, AtLeast, NonNegativeDemand;
    CountsOf(loads, all, l);
    var own, sums, y := Values(loads[l], Width(loads)), Sums(loads, Width(loads)), OwnPeak(loads[l], p);
    PercentileReaches(own, p, y);
    SumsReachEach(loads, l, Width(loads), y);
    PercentileReaches(sums, p, y);
  }

  lemma NoDataNoPeak(loads: seq<DemandSeries>, all: seq<seq<nat>>, p: real, l: nat)
    requires ValidSeries(loads) && HasSlots(loads, all) && l < |loads| && DataSlots(all[l]) == 0
    ensures OwnPeak(loads[l], p) == 0.0
  {
    ValuesAreFilled(loads[l], |loads[l].demand|);
  }

  lemma {:induction false} SumPeaksBounded(loads: seq<DemandSeries>, p: real, c: real)
    requires ValidSeries(loads)
    requires forall l :: 0 <= l < |loads| ==> OwnPeak(loads[l], p) <= c
    ensures SumPeaks(loads, p) <= |loads| as real * c
  {
    hide OwnPeak;
    if loads != [] {
      var init := loads[..|loads| - 1];
      SumPeaksBounded(init, p, c);
      var k := |init| as real;
      assert (k + 1.0) * c == k * c + c;
    }
  }

  /** Enough slots above bound the diversity factor by the number of VMs ... */
  lemma EnoughAboveSuffices(loads: seq<DemandSeries>, all: seq<seq<nat>>, p: real)
    requires ValidSeries(loads) && NonNegativeDemand(loads) && HasSlots(loads, all) && 0.0 < p <= 100.0
    requires EnoughAbove(all, p)
    ensures Bounded(loads, p)
  {
    hide OwnPeak, CombinedPeak, SumPeaks, EnoughAbove, DataSlots, NonNegativeDemand;
    if PeakOf(loads, p).Some? {
      var c := CombinedPeak(loads, p);
      forall l | 0 <= l < |loads|
        ensures OwnPeak(loads[l], p) <= c
      {
        if DataSlots(all[l]) > 0 {
          CombinedCoversEach(loads, all, p, l);
        } else {
          NoDataNoPeak(loads, all, p, l);
        }
      }
      SumPeaksBounded(loads, p, c);
      QuotientAtMost(SumPeaks(loads, p), c, |loads| as real);
    }
  }

  lemma QuotientAtMost(a: real, b: real, k: real)
    requires b > 0.0 && a <= k * b
    ensures a / b <= k
  {
    var q := a / b;
    assert q * b == a;
    assert Times(q - k, b) == a - k * b;
    if q > k {
      ProductPositive(q - k, b);
    }
  }

  // ----------------------------------------------------- ... and nothing less does

  /** Demand 1 in every slot, but k in the first n slots with data. */
  function Spiked(slots: seq<nat>, n: nat, k: real): (s: DemandSeries)
    ensures s.Valid() && s.slots == slots
  {
    DemandSeries(seq(|slots|, i requires 0 <= i < |slots| => if slots[i] != 0 && Filled(slots, i) < n then k else 1.0), slots)
  }

  /** Demand 1 for every VM, and the spikes on one of them. */
  function SpikedLoads(all: seq<seq<nat>>, l: nat, n: nat, k: real): (loads: seq<DemandSeries>)
    ensures ValidSeries(loads) && HasSlots(loads, all)
  {
    seq(|all|, j requires 0 <= j < |all| => Spiked(all[j], if j == l then n else 0, k))
  }

  lemma SpikedAt(slots: seq<nat>, n: nat, k: real, i: nat)
    requires k > 1.0
    ensures Present(Spiked(slots, n, k), i) <==> i < |slots| && slots[i] != 0
    ensures Present(Spiked(slots, n, k), i) ==> (Spiked(slots, n, k).demand[i] >= k <==> Filled(slots, i) < n)
    ensures Filled(slots, i + 1) == Filled(slots, i) + if i < |slots| && slots[i] != 0 then 1 else 0
  {
  }

  lemma SpikesStep(slots: seq<nat>, n: nat, k: real, m: nat)
    requires k > 1.0 && m > 0
    ensures var here := m - 1 < |slots| && slots[m - 1] != 0;
      && Filled(slots, m) == Filled(slots, m - 1) + (if here then 1 else 0)
      && AtLeast(Values(Spiked(slots, n, k), m), k)
         == AtLeast(Values(Spiked(slots, n, k), m - 1), k) + (if here && Filled(slots, m - 1) < n then 1 else 0)
  {
    SpikedAt(slots, n, k, m - 1);
    var s := Spiked(slots, n, k);
    hide Values, AtLeast, Spiked, Filled, Present;
    ValuesSnoc(s, m, k);
  }

  lemma {:induction false} SpikesCounted(slots: seq<nat>, n: nat, k: real, m: nat)
    requires k > 1.0
    ensures AtLeast(Values(Spiked(slots, n, k), m), k) == Min(n, Filled(slots, m))
  {
    assert m == 0 ==> Values(Spiked(slots, n, k), m) == [] && Filled(slots, m) == 0;
    hide Values, AtLeast, Spiked, Filled;
    if m == 0 {
      NoneAtLeast(k);
    } else {
      SpikesCounted(slots, n, k, m - 1);
      SpikesStep(slots, n, k, m);
    }
  }

  lemma NoneAtLeast(y: real)
    ensures AtLeast([], y) == 0
  {
  }

  /** At most one per VM, where the spikes are not, and at least one where any VM has data. */
  lemma {:induction false} SpikedTotal(loads: seq<DemandSeries>, i: nat, l: nat)
    requires ValidSeries(loads)
    requires forall j :: 0 <= j < |loads| && Present(loads[j], i) ==> loads[j].demand[i] >= 1.0
    ensures TotalAt(loads, i) >= 0.0 && (SeenAt(loads, i) ==> TotalAt(loads, i) >= 1.0)
    ensures (forall j :: 0 <= j < |loads| && Present(loads[j], i) ==> loads[j].demand[i] == 1.0) ==>
      TotalAt(loads, i) <= |loads| as real
  {
    if loads != [] {
      var init := loads[..|loads| - 1];
      assert forall j :: 0 <= j < |init| ==> init[j] == loads[j];
      SpikedTotal(init, i, l);
    }
  }

  /** In one slot: only a spike lifts the sum above the number of VMs. */
  lemma SpikedSlot(all: seq<seq<nat>>, l: nat, n: nat, k: real, i: nat)
    requires l < |all| && k > 1.0
    ensures var loads := SpikedLoads(all, l, n, k);
      && (SeenAt(loads, i) ==> TotalAt(loads, i) >= 1.0)
      && (TotalAt(loads, i) > |all| as real ==> Present(loads[l], i) && loads[l].demand[i] >= k)
  {
    var loads := SpikedLoads(all, l, n, k);
    SpikedTotal(loads, i, l);
    if !(Present(loads[l], i) && loads[l].demand[i] >= k) {
      assert forall j :: 0 <= j < |loads| && Present(loads[j], i) ==> loads[j].demand[i] == 1.0;
    }
  }

  /** Sums reach y only where the demand of VM l reaches k. */
  ghost predicate OnlyWhere(loads: seq<DemandSeries>, l: nat, k: real, y: real)
    requires ValidSeries(loads) && l < |loads|
  {
    forall i: nat :: TotalAt(loads, i) >= y ==> Present(loads[l], i) && loads[l].demand[i] >= k
  }

  lemma OnlyWhereAt(loads: seq<DemandSeries>, l: nat, k: real, y: real, i: nat)
    requires ValidSeries(loads) && l < |loads| && OnlyWhere(loads, l, k, y)
    ensures TotalAt(loads, i) >= y ==> Present(loads[l], i) && loads[l].demand[i] >= k
  {
  }

  lemma {:induction false} SumsOnlyWhere(loads: seq<DemandSeries>, l: nat, m: nat, k: real, y: real)
    requires ValidSeries(loads) && l < |loads| && OnlyWhere(loads, l, k, y)
    ensures AtLeast(Sums(loads, m), y) <= AtLeast(Values(loads[l], m), k)
  {
    assert loads[l].Valid();
    assert m == 0 ==> Sums(loads, m) == [] == Values(loads[l], m);
    hide *;
    if m == 0 {
      NoneAtLeast(y);
      NoneAtLeast(k);
    } else {
      SumsOnlyWhere(loads, l, m - 1, k, y);
      SumsSnoc(loads, m, y);
      ValuesSnoc(loads[l], m, k);
      OnlyWhereAt(loads, l, k, y, m - 1);
    }
  }

  lemma {:induction false} SumsAtLeastOne(loads: seq<DemandSeries>, m: nat)
    requires ValidSeries(loads)
    requires forall i: nat :: SeenAt(loads, i) ==> TotalAt(loads, i) >= 1.0
    ensures forall x :: x in Sums(loads, m) ==> x >= 1.0
  {
    if m > 0 {
      SumsAtLeastOne(loads, m - 1);
    }
  }

  /** Sums above the number of VMs occur only where the spikes are. */
  lemma SpikedSums(all: seq<seq<nat>>, l: nat, n: nat, k: real, m: nat, y: real)
    requires l < |all| && k > 1.0 && y > |all| as real
    ensures var loads := SpikedLoads(all, l, n, k);
      && AtLeast(Sums(loads, m), y) <= AtLeast(Values(loads[l], m), k)
      && forall x :: x in Sums(loads, m) ==> x >= 1.0
  {
    var loads := SpikedLoads(all, l, n, k);
    hide SpikedLoads, TotalAt, SeenAt, AtLeast, Sums, Values;
    forall i: nat
      ensures SeenAt(loads, i) ==> TotalAt(loads, i) >= 1.0
      ensures TotalAt(loads, i) >= y ==> Present(loads[l], i) && loads[l].demand[i] >= k
    {
      SpikedSlot(all, l, n, k, i);
    }
    SumsOnlyWhere(loads, l, m, k, y);
    SumsAtLeastOne(loads, m);
  }

  lemma {:induction false} SumPeaksAtLeast(loads: seq<DemandSeries>, p: real, l: nat)
    requires ValidSeries(loads) && NonNegativeDemand(loads) && l < |loads| && 0.0 < p <= 100.0
    ensures SumPeaks(loads, p) >= OwnPeak(loads[l], p)
    ensures SumPeaks(loads, p) >= 0.0
  {
    hide OwnPeak;
    var init, last := loads[..|loads| - 1], |loads| - 1;
    OwnPeakNonNegative(loads[last], p);
    assert forall j :: 0 <= j < |init| ==> init[j] == loads[j];
    if init != [] {
      SumPeaksAtLeast(init, p, if l < last then l else 0);
    } else {
      assert SumPeaks(init, p) == 0.0;
    }
  }

  lemma OwnPeakNonNegative(s: DemandSeries, p: real)
    requires s.Valid() && 0.0 < p <= 100.0
    requires forall i :: 0 <= i < |s.demand| ==> s.demand[i] >= 0.0
    ensures OwnPeak(s, p) >= 0.0
  {
    var v := Values(s, |s.demand|);
    if v != [] {
      ValuesNonNegative(s, |s.demand|);
      PercentileIsNearestRank(v, p);
    }
  }

  lemma {:induction false} ValuesNonNegative(s: DemandSeries, m: nat)
    requires s.Valid()
    requires forall i :: 0 <= i < |s.demand| ==> s.demand[i] >= 0.0
    ensures forall x :: x in Values(s, m) ==> x >= 0.0
  {
    if m > 0 {
      ValuesNonNegative(s, m - 1);
    }
  }

  /** The peaks of the spiked loads: the VM's own peak is a spike, the combined one is not. */
  lemma SpikedPeaks(all: seq<seq<nat>>, p: real, l: nat, k: real)
    requires l < |all| && DataSlots(all[l]) > 0 && 0.0 < p <= 100.0 && k > 1.0
    requires Above(DataSlots(all[l]), p) < Above(UnionSlots(all), p)
    ensures var n := Above(DataSlots(all[l]), p) + 1;
      && n >= 1
      && var loads := SpikedLoads(all, l, n, k);
         OwnPeak(loads[l], p) >= k && 1.0 <= CombinedPeak(loads, p) <= |all| as real
  {
    TargetInRange(DataSlots(all[l]), p);
    var n := Above(DataSlots(all[l]), p) + 1;
    var loads := SpikedLoads(all, l, n, k);
    CountsOf(loads, all, l);
    SpikesCounted(all[l], n, k, |all[l]|);
    SpikesCounted(all[l], n, k, Width(loads));
    var sums, c := Sums(loads, Width(loads)), CombinedPeak(loads, p);
    SpikedSums(all, l, n, k, Width(loads), (|all| + 1) as real);
    hide Percentile, Above, DataSlots, UnionSlots, Sums, Width, AtLeast, Values, Filled, Target, SpikedLoads;
    PercentileReaches(Values(loads[l], |loads[l].demand|), p, k);
    PercentileIsNearestRank(sums, p);
    if c > |all| as real {
      SpikedSums(all, l, n, k, Width(loads), c);
      PercentileReaches(sums, p, c);
    }
  }

  lemma LargeSpike(n: nat, c: real, sum: real)
    requires 1.0 <= c <= n as real && sum >= Times(n as real, n as real) + 1.0
    ensures sum / c > n as real
  {
    TimesMonotone(n as real, n as real, c, n as real);
    if sum / c <= n as real {
      QuotientReaches(sum, c, n as real);
    }
  }

  lemma QuotientReaches(a: real, b: real, k: real)
    requires b > 0.0 && a / b <= k
    ensures a <= Times(k, b)
  {
    ProductNonNegative(k - a / b, b);
    assert Times(k - a / b, b) == Times(k, b) - a;
  }

  lemma EnoughAboveNeeded(all: seq<seq<nat>>, p: real, l: nat) returns (loads: seq<DemandSeries>)
    requires l < |all| && DataSlots(all[l]) > 0 && 0.0 < p <= 100.0
    requires Above(DataSlots(all[l]), p) < Above(UnionSlots(all), p)
    ensures HasSlots(loads, all) && ValidSeries(loads) && NonNegativeDemand(loads)
    ensures PeakOf(loads, p).Some? && PeakOf(loads, p).value.diversity > |loads| as real
  {
    var count := |all| as real;
    var k := Times(count, count) + 1.0;
    TimesMonotone(1.0, count, 1.0, count);
    SpikedPeaks(all, p, l, k);
    loads := SpikedLoads(all, l, Above(DataSlots(all[l]), p) + 1, k);
    hide OwnPeak, CombinedPeak, SumPeaks, Above, DataSlots, UnionSlots, Times;
    SumPeaksAtLeast(loads, p, l);
    LargeSpike(|all|, CombinedPeak(loads, p), SumPeaks(loads, p));
  }

  /**
   * The exact condition: whatever the demand in these slots, the diversity factor
   * is at most the number of VMs if and only if every VM with data leaves at least
   * as many of its slots above its percentile as the cluster does above its own.
   */
  lemma DiversityBoundedIff(all: seq<seq<nat>>, p: real)
    requires 0.0 < p <= 100.0
    ensures AlwaysBounded(all, p) <==> EnoughAbove(all, p)
  {
    hide Above, DataSlots, UnionSlots, PeakOf, NonNegativeDemand, ValidSeries, HasSlots;
    if EnoughAbove(all, p) {
      forall loads | HasSlots(loads, all) && ValidSeries(loads) && NonNegativeDemand(loads)
        ensures Bounded(loads, p)
      {
        EnoughAboveSuffices(loads, all, p);
      }
    } else {
      var l :| 0 <= l < |all| && DataSlots(all[l]) > 0 && Above(DataSlots(all[l]), p) < Above(UnionSlots(all), p);
      var loads := EnoughAboveNeeded(all, p, l);
      SameCount(loads, all);
      assert !Bounded(loads, p);
    }
  }

  lemma SameCount(loads: seq<DemandSeries>, all: seq<seq<nat>>)
    requires HasSlots(loads, all)
    ensures |loads| == |all|
  {
  }

  /** All VMs have data in the same slots. */
  ghost predicate SameSlots(all: seq<seq<nat>>) {
    forall j, l, i: nat :: 0 <= j < |all| && 0 <= l < |all| && i < |all[j]| && all[j][i] != 0 ==>
      i < |all[l]| && all[l][i] != 0
  }

  lemma {:induction false} SameSlotsCount(all: seq<seq<nat>>, l: nat, m: nat)
    requires SameSlots(all) && l < |all|
    ensures Filled(all[l], m) == FilledByAny(all, m)
  {
    if m > 0 {
      SameSlotsCount(all, l, m - 1);
    }
  }

  lemma {:induction false} FilledSettles(slots: seq<nat>, m: nat)
    requires |slots| <= m
    ensures Filled(slots, m) == DataSlots(slots)
  {
    if |slots| < m {
      FilledSettles(slots, m - 1);
    }
  }

  lemma {:induction false} WithinLongest(all: seq<seq<nat>>, l: nat)
    requires l < |all|
    ensures |all[l]| <= Longest(all)
  {
    if l < |all| - 1 {
      WithinLongest(all[..|all| - 1], l);
    }
  }

  /** Measured in the same slots, the VMs always satisfy it. */
  lemma SameSlotsEnough(all: seq<seq<nat>>, p: real)
    requires SameSlots(all)
    ensures EnoughAbove(all, p)
  {
    forall l | 0 <= l < |all|
      ensures DataSlots(all[l]) == UnionSlots(all)
    {
      WithinLongest(all, l);
      FilledSettles(all[l], Longest(all));
      SameSlotsCount(all, l, Longest(all));
    }
  }

  /** With data in the same slots the diversity factor is at most the number of VMs. */
  lemma DiversityAtMostCount(loads: seq<DemandSeries>, all: seq<seq<nat>>, p: real)
    requires ValidSeries(loads) && NonNegativeDemand(loads) && HasSlots(loads, all) && 0.0 < p <= 100.0
    requires SameSlots(all)
    ensures Bounded(loads, p)
  {
    SameSlotsEnough(all, p);
    EnoughAboveSuffices(loads, all, p);
  }

  // ------------------------------------------------------- a diversity factor of 101

  function Ones(n: nat): (v: seq<real>)
    ensures |v| == n
  {
    if n == 0 then [] else Ones(n - 1) + [1.0]
  }

  /** One VM that was on for an hour, with 100 in its two slots of 90 samples, another with a steady 1 in the n slots after it. */
  function OnePeak(): (s: DemandSeries)
    ensures s.Valid()
  {
    DemandSeries([100.0, 100.0], [90, 90])
  }

  function Steady(n: nat): (s: DemandSeries)
    ensures s.Valid() && |s.demand| == n + 2
  {
    DemandSeries([0.0, 0.0] + Ones(n), [0, 0] + seq(n, i => 90))
  }

  /** The two VMs, with as many samples as their slots hold. */
  function Apart(n: nat): (vms: seq<Vm>)
    ensures AllValid(vms)
  {
    [Vm(true, Some(Stats(180, OnePeak()))), Vm(true, Some(Stats(90 * n, Steady(n))))]
  }

  lemma {:induction false} OnesCounted(v: seq<real>, n: nat, y: real)
    ensures AtLeast(v + Ones(n), y) == AtLeast(v, y) + if 1.0 >= y then n else 0
  {
    assert if n == 0 then v + Ones(n) == v else v + Ones(n) == (v + Ones(n - 1)) + [1.0];
    hide Ones, AtLeast;
    if n > 0 {
      OnesCounted(v, n - 1, y);
      AtLeastSnoc(v + Ones(n - 1), 1.0, y);
    }
  }

  lemma {:induction false} OnesAt(n: nat, i: nat)
    requires i < n
    ensures Ones(n)[i] == 1.0
  {
    if i < n - 1 {
      OnesAt(n - 1, i);
    }
  }

  lemma SteadyAt(n: nat, i: nat)
    requires i <= n + 1
    ensures Present(Steady(n), i) <==> i > 1
    ensures i > 1 ==> Steady(n).demand[i] == 1.0
    ensures Present(OnePeak(), i) <==> i <= 1
    ensures var both := [OnePeak(), Steady(n)];
      SeenAt(both, i) && TotalAt(both, i) == if i <= 1 then 100.0 else 1.0
  {
    if i > 1 {
      OnesAt(n, i - 2);
    }
    PairTotals(OnePeak(), Steady(n), i);
    hide Ones, SeenAt, TotalAt;
  }

  lemma {:induction false} SteadyValues(n: nat, m: nat)
    requires 2 <= m <= n + 2
    ensures Values(Steady(n), m) == Ones(m - 2)
    ensures Values(OnePeak(), m) == [100.0, 100.0]
    ensures Sums([OnePeak(), Steady(n)], m) == [100.0, 100.0] + Ones(m - 2)
  {
    if m == 2 {
      FirstSlots(n);
    } else {
      SteadyAt(n, m - 1);
      hide Steady, OnePeak, SeenAt, TotalAt, Present;
      SteadyValues(n, m - 1);
      assert ([100.0, 100.0] + Ones(m - 3)) + [1.0] == [100.0, 100.0] + Ones(m - 2);
    }
  }

  lemma FirstSlots(n: nat)
    ensures Values(Steady(n), 2) == []
    ensures Values(OnePeak(), 2) == [100.0, 100.0] == Sums([OnePeak(), Steady(n)], 2)
  {
    var a, b := OnePeak(), Steady(n);
    SteadyAt(n, 0);
    SteadyAt(n, 1);
    assert a.demand[0] == a.demand[1] == 100.0;
    hide Steady, OnePeak, SeenAt, TotalAt, Present;
    assert Values(b, 0) == [] && Values(a, 0) == [] && Sums([a, b], 0) == [];
    assert Values(b, 1) == [] && Values(a, 1) == [100.0] && Sums([a, b], 1) == [100.0];
  }

  /** Where the percentile leaves two slots of the cluster above it, it misses the peak. */
  lemma ApartPeaks(n: nat, p: real)
    requires n > 0 && 0.0 < p <= 100.0 && Above(n + 2, p) >= 2
    ensures OwnPeak(OnePeak(), p) == 100.0 && OwnPeak(Steady(n), p) == 1.0
    ensures CombinedPeak([OnePeak(), Steady(n)], p) == 1.0
  {
    PairPeaks(OnePeak(), Steady(n), p);
    SteadyValues(n, 2);
    SteadyValues(n, n + 2);
    hide Percentile, Above, Values, Sums, Width, Ones, OnePeak, Steady;
    OnesApart(n, p);
  }

  lemma OnesApart(n: nat, p: real)
    requires n > 0 && 0.0 < p <= 100.0 && Above(n + 2, p) >= 2
    ensures Percentile([100.0, 100.0], p) == 100.0
    ensures Percentile(Ones(n), p) == 1.0 == Percentile([100.0, 100.0] + Ones(n), p)
  {
    PercentileOfHundreds(p);
    PercentileOfOnes(n, p);
    hide Percentile, Ones, Above;
    PercentileOf([100.0, 100.0] + Ones(n), [100.0, 100.0], n, p);
  }

  lemma PercentileOfOnes(n: nat, p: real)
    requires n > 0 && 0.0 < p <= 100.0
    ensures Percentile(Ones(n), p) == 1.0
  {
    TargetInRange(n, p);
    hide Percentile, Target, Ones;
    assert [] + Ones(n) == Ones(n);
    PercentileOf(Ones(n), [], n, p);
  }

  lemma PercentileOfHundreds(p: real)
    requires 0.0 < p <= 100.0
    ensures Percentile([100.0, 100.0], p) == 100.0
  {
    PercentileIsNearestRank([100.0, 100.0], p);
    hide Percentile;
  }

  lemma RankAt95()
    ensures Above(42, 95.0) == 2
  {
    CeilLeast(42.0 * 95.0 / 100.0, 39);
    CeilLeast(42.0 * 95.0 / 100.0, 40);
  }

  /** Of ones, and no more larger values than lie above the rank, the percentile is a one. */
  lemma PercentileOf(v: seq<real>, head: seq<real>, n: nat, p: real)
    requires v == head + Ones(n) && n > 0 && 0.0 < p <= 100.0
    requires Above(|v|, p) >= |head| && forall i :: 0 <= i < |head| ==> head[i] >= 1.0
    ensures Percentile(v, p) == 1.0
  {
    hide Percentile, Target;
    PercentileReaches(v, p, 1.0);
    OnesCounted(head, n, 1.0);
    AllReach(head, 1.0);
    TargetInRange(|v|, p);
    var x := Percentile(v, p);
    if x > 1.0 {
      PercentileReaches(v, p, x);
      OnesCounted(head, n, x);
    }
  }

  lemma {:induction false} AllReach(v: seq<real>, y: real)
    requires forall i :: 0 <= i < |v| ==> v[i] >= y
    ensures AtLeast(v, y) == |v|
  {
    if v != [] {
      AllReach(v[..|v| - 1], y);
    }
  }

  lemma PairTotals(a: DemandSeries, b: DemandSeries, i: nat)
    requires a.Valid() && b.Valid()
    ensures SeenAt([a, b], i) <==> Present(a, i) || Present(b, i)
    ensures TotalAt([a, b], i) == (if Present(a, i) then a.demand[i] else 0.0) + (if Present(b, i) then b.demand[i] else 0.0)
  {
    assert [a, b][..1] == [a] && [a][..0] == [];
    assert TotalAt([a], i) == if Present(a, i) then a.demand[i] else 0.0;
    assert SeenAt([a], i) == Present(a, i);
  }

  lemma PairPeaks(a: DemandSeries, b: DemandSeries, p: real)
    requires a.Valid() && b.Valid()
    ensures SumPeaks([a, b], p) == OwnPeak(a, p) + OwnPeak(b, p)
    ensures Width([a, b]) == Max(|a.demand|, |b.demand|)
  {
    assert [a, b][..1] == [a] && [a][..0] == [];
    assert SumPeaks([a], p) == OwnPeak(a, p);
    assert Width([a]) == |a.demand|;
  }

  lemma ApartCount(n: nat)
    requires n >= 2
    ensures forall i :: 0 <= i < |Apart(n)| ==> Counts(Apart(n)[i])
    ensures Loads(Apart(n)) == [OnePeak(), Steady(n)]
  {
    var vms := Apart(n);
    assert vms[..1] == [vms[0]] && [vms[0]][..0] == [];
    assert (90 * n) as real * 20.0 / 3600.0 >= 1.0;
    hide OnePeak, Steady;
    assert Loads(vms[..1]) == [OnePeak()];
  }

  /**
   * Two VMs with an hour of samples or more that were never measured at the same
   * time: at the 95th percentile, that of two of the profiles, the steady one hides
   * the peak of the other, and the diversity factor is 101.
   */
  lemma DiversityOf101()
    ensures forall i :: 0 <= i < |Apart(40)| ==> Counts(Apart(40)[i])
    ensures PeakOf(Loads(Apart(40)), 95.0) == Some(Peak(101.0, 1.0, 101.0))
  {
    RankAt95();
    ApartCount(40);
    ApartAnyCount(40, 95.0);
  }

  lemma ApartAnyCount(n: nat, p: real)
    requires n > 0 && 0.0 < p <= 100.0 && Above(n + 2, p) >= 2
    ensures PeakOf([OnePeak(), Steady(n)], p) == Some(Peak(101.0, 1.0, 101.0))
  {
    hide OwnPeak, CombinedPeak, SumPeaks, Above;
    ApartPeaks(n, p);
    PairPeaks(OnePeak(), Steady(n), p);
  }
}
