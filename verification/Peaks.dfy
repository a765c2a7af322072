/**
 * Peak-aware sizing (peaks and percentile, internal/analysis/peaks.go): the
 * combined peak of a cluster against the sum of its VMs' own peaks.
 */
module Peaks {
  import opened Numbers
  import opened Ranks
  import opened RealProducts
  import opened DemandSlots

  // ---------------------------------------------------------------- percentile

  ghost predicate Sorted(s: seq<real>) {
    forall i, j :: 0 <= i < j < |s| ==> s[i] <= s[j]
  }

  function InsertSorted(s: seq<real>, x: real): (r: seq<real>)
    requires Sorted(s)
    ensures Sorted(r) && |r| == |s| + 1
    ensures forall y :: y in r <==> y in s || y == x
  {
    if s == [] || s[|s| - 1] <= x then s + [x]
    else
      var init := InsertSorted(s[..|s| - 1], x);
      assert forall i :: 0 <= i < |init| ==> init[i] in s[..|s| - 1] || init[i] == x;
      init + [s[|s| - 1]]
  }

  /** slices.Sort on a clone. */
  function SortedClone(v: seq<real>): (r: seq<real>)
    ensures Sorted(r) && |r| == |v|
    ensures forall y :: y in r <==> y in v
  {
    if v == [] then [] else
      assert forall y :: y in v <==> y in v[..|v| - 1] || y == v[|v| - 1];
      InsertSorted(SortedClone(v[..|v| - 1]), v[|v| - 1])
  }

  function Percentile(v: seq<real>, p: real): real {
    if |v| == 0 then 0.0
    else
      var s := SortedClone(v);
      var i := Target(|v|, p) - 1;
      s[Max(0, Min(i, |v| - 1))]
  }

  /** Every value counts once. */
  ghost function Units(v: seq<real>): (s: seq<Sample>)
    ensures |s| == |v|
  {
    if v == [] then [] else Units(v[..|v| - 1]) + [Sample(v[|v| - 1], 1)]
  }

  lemma UnitsSnoc(v: seq<real>, x: real, y: real)
    ensures WeightTo(Units(v + [x]), y) == WeightTo(Units(v), y) + if x <= y then 1 else 0
    ensures WeightBelow(Units(v + [x]), y) == WeightBelow(Units(v), y) + if x < y then 1 else 0
  {
    assert (v + [x])[..|v|] == v;
    assert Units(v + [x])[..|v|] == Units(v);
  }

  lemma {:induction false} InsertCounts(s: seq<real>, x: real, y: real)
    requires Sorted(s)
    ensures WeightTo(Units(InsertSorted(s, x)), y) == WeightTo(Units(s), y) + if x <= y then 1 else 0
    ensures WeightBelow(Units(InsertSorted(s, x)), y) == WeightBelow(Units(s), y) + if x < y then 1 else 0
  {
    if s == [] || s[|s| - 1] <= x {
      UnitsSnoc(s, x, y);
    } else {
      var init, last := s[..|s| - 1], s[|s| - 1];
      InsertCounts(init, x, y);
      assert InsertSorted(s, x) == InsertSorted(init, x) + [last];
      assert init + [last] == s;
      hide *;
      UnitsSnoc(InsertSorted(init, x), last, y);
      UnitsSnoc(init, last, y);
    }
  }

  /** Sorting changes no rank. */
  lemma {:induction false} SortCounts(v: seq<real>, y: real)
    ensures WeightTo(Units(SortedClone(v)), y) == WeightTo(Units(v), y)
    ensures WeightBelow(Units(SortedClone(v)), y) == WeightBelow(Units(v), y)
  {
    if v != [] {
      var init, last := v[..|v| - 1], v[|v| - 1];
      SortCounts(init, y);
      InsertCounts(SortedClone(init), last, y);
      UnitsSnoc(init, last, y);
      assert init + [last] == v;
    }
  }

  lemma {:induction false} SortedRank(s: seq<real>, i: nat)
    requires Sorted(s) && i < |s|
    ensures WeightBelow(Units(s), s[i]) <= i < WeightTo(Units(s), s[i])
  {
    var init, last := s[..|s| - 1], s[|s| - 1];
    UnitsSnoc(init, last, s[i]);
    assert init + [last] == s;
    if i < |init| {
      SortedRank(init, i);
    } else {
      TotalUnits(init);
      WeightMonotone(Units(init), last, last);
      AllAtMost(init, last);
    }
  }

  lemma {:induction false} TotalUnits(v: seq<real>)
    ensures Total(Units(v)) == |v|
  {
    if v != [] {
      TotalUnits(v[..|v| - 1]);
      assert Units(v)[..|v| - 1] == Units(v[..|v| - 1]);
    }
  }

  lemma {:induction false} AllAtMost(v: seq<real>, x: real)
    requires forall i :: 0 <= i < |v| ==> v[i] <= x
    ensures WeightTo(Units(v), x) == |v|
  {
    if v != [] {
      AllAtMost(v[..|v| - 1], x);
      assert Units(v)[..|v| - 1] == Units(v[..|v| - 1]);
    }
  }

  /** The result is the exact nearest-rank percentile, and one of the values. */
  lemma PercentileIsNearestRank(v: seq<real>, p: real)
    requires v != [] && 0.0 < p <= 100.0
    ensures NearestRank(Units(v), Target(|v|, p), Percentile(v, p))
    ensures Percentile(v, p) in v
  {
    var s, x := SortedClone(v), Percentile(v, p);
    var i := PercentilePicks(v, p);
    hide Percentile, SortedClone, Target;
    SortedRank(s, i);
    SortCounts(v, x);
    assert s[i] in s;
  }

  lemma PercentilePicks(v: seq<real>, p: real) returns (i: nat)
    requires v != [] && 0.0 < p <= 100.0
    ensures i < |SortedClone(v)| == |v| && i + 1 == Target(|v|, p) && Percentile(v, p) == SortedClone(v)[i]
  {
    TargetInRange(|v|, p);
    i := Target(|v|, p) - 1;
  }

  /** Raising values pointwise never lowers a percentile. */
  lemma PercentileMonotone(u: seq<real>, v: seq<real>, p: real)
    requires |u| == |v| && 0.0 < p <= 100.0
    requires forall i :: 0 <= i < |u| ==> u[i] <= v[i]
    ensures Percentile(u, p) <= Percentile(v, p)
  {
    if u != [] {
      PercentileIsNearestRank(u, p);
      PercentileIsNearestRank(v, p);
      var x, y := Percentile(u, p), Percentile(v, p);
      if y < x {
        WeightMonotone(Units(u), y, x);
        WeightDominates(u, v, y);
        assert false;
      }
    }
  }

  lemma {:induction false} WeightDominates(u: seq<real>, v: seq<real>, y: real)
    requires |u| == |v|
    requires forall i :: 0 <= i < |u| ==> u[i] <= v[i]
    ensures WeightTo(Units(v), y) <= WeightTo(Units(u), y)
  {
    if u != [] {
      WeightDominates(u[..|u| - 1], v[..|v| - 1], y);
      assert Units(u)[..|u| - 1] == Units(u[..|u| - 1]) && Units(v)[..|v| - 1] == Units(v[..|v| - 1]);
    }
  }

  // ------------------------------------------------------------------- peaks

  datatype Stats = Stats(samples: nat, series: DemandSeries)

  datatype Vm = Vm(powerOn: bool, stats: Option<Stats>)

  datatype Peak = Peak(sumPeak: real, combined: real, diversity: real)

  /** VMs with an hour of samples, powered on, with demand slots. */
  predicate Counts(vm: Vm) {
    vm.stats.Some? && vm.stats.value.samples as real * 20.0 / 3600.0 >= 1.0
    && vm.powerOn && |vm.stats.value.series.demand| > 0
  }

  ghost predicate AllValid(vms: seq<Vm>) {
    forall i :: 0 <= i < |vms| ==> vms[i].stats.Some? ==> vms[i].stats.value.series.Valid()
  }

  ghost predicate ValidSeries(loads: seq<DemandSeries>) {
    forall i :: 0 <= i < |loads| ==> loads[i].Valid()
  }

  /** The series of the VMs that count. */
  function Loads(vms: seq<Vm>): (loads: seq<DemandSeries>)
    requires AllValid(vms)
    ensures ValidSeries(loads)
  {
    if vms == [] then []
    else
      var vm := vms[|vms| - 1];
      if Counts(vm) then Loads(vms[..|vms| - 1]) + [vm.stats.value.series] else Loads(vms[..|vms| - 1])
  }

  predicate Present(s: DemandSeries, i: nat)
    requires s.Valid()
  {
    i < |s.demand| && s.slots[i] != 0
  }

  /** The values of the slots with data, among the first m. */
  function Values(s: DemandSeries, m: nat): seq<real>
    requires s.Valid()
  {
    if m == 0 then [] else Values(s, m - 1) + if Present(s, m - 1) then [s.demand[m - 1]] else []
  }

  function TotalAt(loads: seq<DemandSeries>, i: nat): real
    requires ValidSeries(loads)
  {
    if loads == [] then 0.0
    else
      var s := loads[|loads| - 1];
      TotalAt(loads[..|loads| - 1], i) + if Present(s, i) then s.demand[i] else 0.0
  }

  function SeenAt(loads: seq<DemandSeries>, i: nat): bool
    requires ValidSeries(loads)
  {
    loads != [] && (SeenAt(loads[..|loads| - 1], i) || Present(loads[|loads| - 1], i))
  }

  /** The summed demand of the slots any VM has data for, among the first m. */
  function Sums(loads: seq<DemandSeries>, m: nat): seq<real>
    requires ValidSeries(loads)
  {
    if m == 0 then [] else Sums(loads, m - 1) + if SeenAt(loads, m - 1) then [TotalAt(loads, m - 1)] else []
  }

  function Width(loads: seq<DemandSeries>): nat {
    if loads == [] then 0 else Max(Width(loads[..|loads| - 1]), |loads[|loads| - 1].demand|)
  }

  function OwnPeak(s: DemandSeries, p: real): real
    requires s.Valid()
  {
    Percentile(Values(s, |s.demand|), p)
  }

  function SumPeaks(loads: seq<DemandSeries>, p: real): real
    requires ValidSeries(loads)
  {
    if loads == [] then 0.0 else SumPeaks(loads[..|loads| - 1], p) + OwnPeak(loads[|loads| - 1], p)
  }

  function CombinedPeak(loads: seq<DemandSeries>, p: real): real
    requires ValidSeries(loads)
  {
    Percentile(Sums(loads, Width(loads)), p)
  }

  function PeakOf(loads: seq<DemandSeries>, p: real): Option<Peak>
    requires ValidSeries(loads)
  {
    var combined := CombinedPeak(loads, p);
    if combined <= 0.0 then None
    else Some(Peak(SumPeaks(loads, p), combined, SumPeaks(loads, p) / combined))
  }

  /** total and seen hold the sums of a prefix of the loads, as far as they reach. */
  ghost predicate Holds(total: seq<real>, seen: seq<bool>, loads: seq<DemandSeries>)
    requires ValidSeries(loads)
  {
    && |total| == |seen|
    && forall i: nat ::
      && TotalAt(loads, i) == (if i < |total| then total[i] else 0.0)
      && SeenAt(loads, i) == (i < |seen| && seen[i])
  }

  /** The loop over the VMs. */
  method SumLoads(vms: seq<Vm>, p: real) returns (total: seq<real>, seen: seq<bool>, sumPeak: real)
    requires AllValid(vms)
    ensures Holds(total, seen, Loads(vms)) && sumPeak == SumPeaks(Loads(vms), p)
  {
    hide Counts, Percentile, Holds, Loads, SumPeaks, OwnPeak, Values;
    total, seen, sumPeak := [], [], 0.0;
    NothingHeld(p);
    for v := 0 to |vms|
      invariant ValidSeries(Loads(vms[..v]))
      invariant Holds(total, seen, Loads(vms[..v]))
      invariant sumPeak == SumPeaks(Loads(vms[..v]), p)
    {
      OneMoreVm(vms, v, p);
      var vm := vms[v];
      if !Counts(vm) {
        continue;
      }
      var vals;
      vals, total, seen := AddLoad(vm.stats.value.series, total, seen, Loads(vms[..v]));
      sumPeak := sumPeak + Percentile(vals, p);
    }
    assert vms[..|vms|] == vms;
  }

  /** What the next VM adds, if it counts. */
  lemma OneMoreVm(vms: seq<Vm>, v: nat, p: real)
    requires AllValid(vms) && v < |vms|
    ensures AllValid(vms[..v]) && AllValid(vms[..v + 1])
    ensures var vm, loads, more := vms[v], Loads(vms[..v]), Loads(vms[..v + 1]);
      if Counts(vm) then
        && vm.stats.Some? && vm.stats.value.series.Valid()
        && var s := vm.stats.value.series;
           more == loads + [s] && SumPeaks(more, p) == SumPeaks(loads, p) + Percentile(Values(s, |s.demand|), p)
      else more == loads
  {
    hide Percentile, Values;
    var loads := Loads(vms[..v]);
    assert vms[..v + 1][..v] == vms[..v];
    if Counts(vms[v]) {
      var s := vms[v].stats.value.series;
      assert (loads + [s])[..|loads|] == loads;
    }
  }

  lemma NothingHeld(p: real)
    ensures Holds([], [], Loads([])) && SumPeaks(Loads([]), p) == 0.0
  {
  }

  /** The sums of the slots seen. */
  method SumsSeen(total: seq<real>, seen: seq<bool>, ghost loads: seq<DemandSeries>) returns (sums: seq<real>)
    requires ValidSeries(loads) && Holds(total, seen, loads)
    ensures sums == Sums(loads, Width(loads))
  {
    hide Width, TotalAt, SeenAt;
    sums := [];
    for i := 0 to |total|
      invariant sums == Sums(loads, i)
    {
      if seen[i] {
        sums := sums + [total[i]];
      }
    }
    SumsSettle(loads, |total|);
  }

  /** The VMs at these positions are the ones that count: an hour of 20-second samples or more, powered on, with slots. */
  ghost predicate Counting(vms: seq<Vm>, at: seq<nat>) {
    && (forall k :: 0 <= k < |at| ==> at[k] < |vms|)
    && (forall j, k :: 0 <= j < k < |at| ==> at[j] < at[k])
    && forall i: nat :: i in at <==>
      && i < |vms| && vms[i].powerOn && vms[i].stats.Some?
      && vms[i].stats.value.samples >= 180 && vms[i].stats.value.series.demand != []
  }

  ghost function SeriesAt(vms: seq<Vm>, at: seq<nat>): (loads: seq<DemandSeries>)
    requires AllValid(vms) && Counting(vms, at)
    ensures ValidSeries(loads)
  {
    CountingHasStats(vms, at);
    seq(|at|, k requires 0 <= k < |at| => vms[at[k]].stats.value.series)
  }

  lemma CountingHasStats(vms: seq<Vm>, at: seq<nat>)
    requires AllValid(vms) && Counting(vms, at)
    ensures forall k :: 0 <= k < |at| ==> at[k] < |vms| && vms[at[k]].stats.Some? && vms[at[k]].stats.value.series.Valid()
  {
    assert forall k :: 0 <= k < |at| ==> at[k] in at;
  }

  lemma {:induction false} LoadsCount(vms: seq<Vm>) returns (at: seq<nat>)
    requires AllValid(vms)
    ensures Counting(vms, at) && Loads(vms) == SeriesAt(vms, at)
  {
    if vms == [] {
      at := [];
    } else {
      var init, vm := vms[..|vms| - 1], vms[|vms| - 1];
      assert AllValid(init);
      at := LoadsCount(init);
      CountingHasStats(init, at);
      assert forall k :: 0 <= k < |at| ==> at[k] in at;
      if Counts(vm) {
        at := at + [|init|];
      }
      assert Counting(vms, at);
    }
  }

  /**
   * The peak of the VMs that count: the sum of their own percentiles, the percentile
   * of their sum, and how many times the one is the other.
   */
  method ComputePeak(vms: seq<Vm>, p: real) returns (peak: Option<Peak>, ghost at: seq<nat>)
    requires AllValid(vms)
    ensures peak == PeakOf(Loads(vms), p)
    ensures Counting(vms, at)
    ensures var loads := SeriesAt(vms, at);
      if CombinedPeak(loads, p) <= 0.0 then peak.None?
      else
        && peak.Some? && peak.value.combined == CombinedPeak(loads, p) && peak.value.sumPeak == SumPeaks(loads, p)
        && Times(peak.value.diversity, peak.value.combined) == peak.value.sumPeak
  {
    at := LoadsCount(vms);
    hide Holds, Percentile, Sums, SumPeaks, Loads, Width, SeriesAt, Counting;
    var total, seen, sumPeak := SumLoads(vms, p);
    var sums := SumsSeen(total, seen, Loads(vms));
    var combined := Percentile(sums, p);
    if combined <= 0.0 {
      return None, at;
    }
    QuotientTimes(sumPeak, combined);
    return Some(Peak(sumPeak, combined, sumPeak / combined)), at;
  }

  /** A VM's values are the demands of its slots with data, in order. */
  lemma {:induction false} ValuesOfSlots(s: DemandSeries, m: nat) returns (at: seq<nat>)
    requires s.Valid()
    ensures forall j, k :: 0 <= j < k < |at| ==> at[j] < at[k]
    ensures forall i: nat :: i in at <==> i < m && i < |s.demand| && s.slots[i] > 0
    ensures |Values(s, m)| == |at|
    ensures forall k :: 0 <= k < |at| ==> at[k] < |s.demand| && Values(s, m)[k] == s.demand[at[k]]
  {
    if m == 0 {
      at := [];
    } else {
      at := ValuesOfSlots(s, m - 1);
      assert forall k :: 0 <= k < |at| ==> at[k] in at;
      if m - 1 < |s.demand| && s.slots[m - 1] > 0 {
        at := at + [m - 1];
      }
    }
  }

  /** The demand of all VMs in a slot is summed over those with data there. */
  lemma {:induction false} SeenIfAny(loads: seq<DemandSeries>, i: nat)
    requires ValidSeries(loads)
    ensures SeenAt(loads, i) <==> exists l :: 0 <= l < |loads| && i < |loads[l].demand| && loads[l].slots[i] > 0
  {
    if loads != [] {
      SeenIfAny(loads[..|loads| - 1], i);
    }
  }

  /** The values of a cluster are those sums in the slots any VM has data for, in order. */
  lemma {:induction false} SumsOfSlots(loads: seq<DemandSeries>, m: nat) returns (at: seq<nat>)
    requires ValidSeries(loads)
    ensures forall j, k :: 0 <= j < k < |at| ==> at[j] < at[k]
    ensures forall i: nat :: i in at <==> i < m && SeenAt(loads, i)
    ensures |Sums(loads, m)| == |at|
    ensures forall k :: 0 <= k < |at| ==> Sums(loads, m)[k] == TotalAt(loads, at[k])
  {
    hide SeenAt, TotalAt;
    if m == 0 {
      at := [];
    } else {
      at := SumsOfSlots(loads, m - 1);
      assert forall k :: 0 <= k < |at| ==> at[k] in at;
      if SeenAt(loads, m - 1) {
        at := at + [m - 1];
      }
    }
  }

  /** total and seen hold the sums of loads and the first m slots of s. */
  ghost predicate Partly(total: seq<real>, seen: seq<bool>, loads: seq<DemandSeries>, s: DemandSeries, m: nat)
    requires ValidSeries(loads) && s.Valid()
  {
    && |total| == |seen|
    && forall i: nat ::
      && TotalAt(loads, i) + (if i < m && Present(s, i) then s.demand[i] else 0.0) == (if i < |total| then total[i] else 0.0)
      && (SeenAt(loads, i) || (i < m && Present(s, i))) == (i < |seen| && seen[i])
  }

  /** The inner loop over the slots of one VM. */
  method AddLoad(s: DemandSeries, total0: seq<real>, seen0: seq<bool>, ghost loads: seq<DemandSeries>)
    returns (vals: seq<real>, total: seq<real>, seen: seq<bool>)
    requires s.Valid() && ValidSeries(loads) && Holds(total0, seen0, loads)
    ensures vals == Values(s, |s.demand|)
    ensures Holds(total, seen, loads + [s])
  {
    total, seen, vals := total0, seen0, [];
    for i := 0 to |s.demand|
      invariant vals == Values(s, i)
      invariant Partly(total, seen, loads, s, i)
    {
      if s.slots[i] == 0 {
        continue;
      }
      var d := s.demand[i];
      vals := vals + [d];
      while |total| <= i
        invariant Partly(total, seen, loads, s, i)
      {
        total, seen := total + [0.0], seen + [false];
      }
      total, seen := total[i := total[i] + d], seen[i := true];
    }
    assert (loads + [s])[..|loads|] == loads;
  }

  lemma {:induction false} SumsSettle(loads: seq<DemandSeries>, m: nat)
    requires ValidSeries(loads)
    requires forall i: nat :: SeenAt(loads, i) ==> i < m
    ensures Sums(loads, m) == Sums(loads, Width(loads))
  {
    SeenWithinWidth(loads);
    SumsUnseen(loads, Width(loads), m);
    SumsUnseen(loads, m, Width(loads));
  }

  lemma {:induction false} SeenWithinWidth(loads: seq<DemandSeries>)
    requires ValidSeries(loads)
    ensures forall i: nat :: SeenAt(loads, i) ==> i < Width(loads)
  {
    if loads != [] {
      SeenWithinWidth(loads[..|loads| - 1]);
    }
  }

  lemma {:induction false} SumsUnseen(loads: seq<DemandSeries>, m: nat, n: nat)
    requires ValidSeries(loads)
    requires forall i: nat :: m <= i < n ==> !SeenAt(loads, i)
    ensures m <= n ==> Sums(loads, m) == Sums(loads, n)
    decreases n
  {
    if m < n {
      SumsUnseen(loads, m, n - 1);
    }
  }

  // ------------------------------------------------------------- main results

  ghost predicate NonNegativeDemand(loads: seq<DemandSeries>) {
    forall l, i :: 0 <= l < |loads| && 0 <= i < |loads[l].demand| ==> loads[l].demand[i] >= 0.0
  }

  function MaxOf(v: seq<real>): real {
    if v == [] then 0.0 else MaxReal(MaxOf(v[..|v| - 1]), v[|v| - 1])
  }

  function SumMaxima(loads: seq<DemandSeries>): real
    requires ValidSeries(loads)
  {
    if loads == [] then 0.0
    else SumMaxima(loads[..|loads| - 1]) + MaxOf(Values(loads[|loads| - 1], |loads[|loads| - 1].demand|))
  }

  lemma {:induction false} ValueAtMostMax(s: seq<real>, i: nat)
    requires i < |s|
    ensures s[i] <= MaxOf(s)
  {
    if i < |s| - 1 {
      ValueAtMostMax(s[..|s| - 1], i);
    }
  }

  lemma {:induction false} MaxNonNegative(s: seq<real>)
    ensures MaxOf(s) >= 0.0
  {
    if s != [] {
      MaxNonNegative(s[..|s| - 1]);
    }
  }

  lemma {:induction false} PresentIsValue(s: DemandSeries, i: nat, m: nat)
    requires s.Valid() && Present(s, i) && i < m
    ensures s.demand[i] in Values(s, m)
  {
    if i < m - 1 {
      PresentIsValue(s, i, m - 1);
    }
  }

  lemma {:induction false} TotalAtMostMaxima(loads: seq<DemandSeries>, i: nat)
    requires ValidSeries(loads)
    ensures TotalAt(loads, i) <= SumMaxima(loads)
  {
    if loads != [] {
      var s := loads[|loads| - 1];
      var vals := Values(s, |s.demand|);
      TotalAtMostMaxima(loads[..|loads| - 1], i);
      MaxNonNegative(vals);
      if Present(s, i) {
        PresentIsValue(s, i, |s.demand|);
        var k :| 0 <= k < |vals| && vals[k] == s.demand[i];
        ValueAtMostMax(vals, k);
      }
    }
  }

  lemma {:induction false} SumsAtMostMaxima(loads: seq<DemandSeries>, m: nat)
    requires ValidSeries(loads)
    ensures forall k :: 0 <= k < |Sums(loads, m)| ==> Sums(loads, m)[k] <= SumMaxima(loads)
  {
    if m > 0 {
      SumsAtMostMaxima(loads, m - 1);
      TotalAtMostMaxima(loads, m - 1);
    }
  }

  lemma {:induction false} SumMaximaNonNegative(loads: seq<DemandSeries>)
    requires ValidSeries(loads)
    ensures SumMaxima(loads) >= 0.0
  {
    if loads != [] {
      SumMaximaNonNegative(loads[..|loads| - 1]);
      MaxNonNegative(Values(loads[|loads| - 1], |loads[|loads| - 1].demand|));
    }
  }

  /** A cluster never needs more than the sum of its VMs' maxima. */
  lemma CombinedAtMostMaxima(loads: seq<DemandSeries>, p: real)
    requires ValidSeries(loads) && 0.0 < p <= 100.0
    ensures CombinedPeak(loads, p) <= SumMaxima(loads)
  {
    var sums := Sums(loads, Width(loads));
    SumMaximaNonNegative(loads);
    if sums != [] {
      SumsAtMostMaxima(loads, Width(loads));
      PercentileIsNearestRank(sums, p);
    }
  }

  lemma {:induction false} TotalAtLeastEach(loads: seq<DemandSeries>, l: nat, i: nat)
    requires ValidSeries(loads) && NonNegativeDemand(loads) && l < |loads|
    ensures TotalAt(loads, i) >= 0.0
    ensures Present(loads[l], i) ==> SeenAt(loads, i) && TotalAt(loads, i) >= loads[l].demand[i]
  {
    if |loads| > 1 {
      TotalAtLeastEach(loads[..|loads| - 1], if l < |loads| - 1 then l else 0, i);
    }
  }

  lemma {:induction false} ValuesSettle(s: DemandSeries, m: nat)
    requires s.Valid() && |s.demand| <= m
    ensures Values(s, m) == Values(s, |s.demand|)
  {
    if |s.demand| < m {
      ValuesSettle(s, m - 1);
    }
  }

  lemma {:induction false} WithinWidth(loads: seq<DemandSeries>, l: nat)
    requires l < |loads|
    ensures |loads[l].demand| <= Width(loads)
  {
    if l < |loads| - 1 {
      WithinWidth(loads[..|loads| - 1], l);
    }
  }
}
