/**
 * A host that reports later than the others of its cluster: every percentile of the
 * cluster then comes out too low (Store.AddHosts, internal/analysis/stats.go).
 */
module LaterHost {
  import Ranks
  import opened Histograms
  import opened VcSeries
  import opened MapSums
  import opened HostSamples
  import opened HostCalls
  import opened HostStore
  import opened Tallies
  import opened KeyStreams
  import opened HostStreams

  /** A host with a sample of 100 MHz at time t. */
  function BusyHost(ref: string, t: int): Series {
    Series(ref, 20, [t], map[CPU_MHZ := [100.0]], map[])
  }

  /** The CPU histogram of a cluster. */
  ghost function CpuOf(st: Stored, cl: string): HistState {
    ClusterEntry(st.clusters, cl).cpu
  }

  lemma BusyDemand(ref: string, t: int, last: int, cl: string)
    requires t > last
    ensures DemandTo(BusyHost(ref, t), last, 1, cl, Moment(Key(cl, t))).c == 100.0
    ensures KeysTo(BusyHost(ref, t), last, 1, cl) == {Key(cl, t)}
  {
    var s := BusyHost(ref, t);
    assert DemandAt(s, 0).c == 100.0 by {
      assert Instances(s) == {};
      EmptyLoad(s, 0);
    }
    hide DemandAt, BusyHost;
    assert s.ts == [t];
    assert DemandTo(s, last, 0, cl, Moment(Key(cl, t))) == NONE;
  }

  lemma BusySeen(seen: map<string, int>, ref: string, t: int)
    requires t > Last(seen, ref)
    ensures AllSeen(seen, [BusyHost(ref, t)]) == seen[ref := t]
  {
    var s := BusyHost(ref, t);
    assert [s][..0] == [];
    assert SeenTo(seen, s, Last(seen, ref), 0) == seen;
  }

  lemma KeysOfOne(seen: map<string, int>, s: Series, hostCluster: map<string, string>)
    ensures Keys(seen, [s], hostCluster) == KeysTo(s, Last(seen, s.ref), |s.ts|, ClusterOf(hostCluster, s.ref))
  {
    hide KeysTo;
    assert [s][..0] == [];
  }

  /** What a call records for a cluster of 200 MHz at its one timestamp. */
  lemma CallBrings(seen: map<string, int>, call: Call, k: Key, mhz: real)
    requires Keys(seen, call.series, call.hostCluster) == {k} && Demand(seen, call.series, call.hostCluster, Moment(k)).c == mhz
    requires CapacityOf(call.capacity, k.name).mhz == 200.0 && CallWeight(call.series) == 1
    ensures NewKeys(CpuPercent, seen, call) == {k} && SumOfCall(CpuPercent, seen, call)(k) == Ranks.Sample(mhz / 200.0 * 100.0, 1)
  {
    hide Keys, Demand, NewKeys, CapacityOf, CallWeight;
    forall j
      ensures j in NewKeys(CpuPercent, seen, call) <==> j in Keys(seen, call.series, call.hostCluster)
    {
      NewKeysAre(CpuPercent, seen, call, j);
    }
  }

  /** What it brings to a cluster of 200 MHz: its timestamp, and half of the capacity. */
  lemma BusyHostBrings(seen: map<string, int>, ref: string, t: int, cl: string, hostCluster: map<string, string>,
                       capacity: map<string, Capacity>)
    requires ClusterOf(hostCluster, ref) == cl && CapacityOf(capacity, cl).mhz == 200.0 && t > Last(seen, ref)
    ensures var call := Call([BusyHost(ref, t)], hostCluster, capacity);
      && NewKeys(CpuPercent, seen, call) == {Key(cl, t)} && Keys(seen, call.series, hostCluster) == {Key(cl, t)}
      && Demand(seen, call.series, hostCluster, Moment(Key(cl, t))).c == 100.0
      && SumOfCall(CpuPercent, seen, call)(Key(cl, t)) == Ranks.Sample(50.0, 1)
  {
    var s, k := BusyHost(ref, t), Key(cl, t);
    OneSeries(seen, s, hostCluster, Total, Moment(k));
    KeysOfOne(seen, s, hostCluster);
    BusyDemand(ref, t, Last(seen, ref), cl);
    assert CallWeight([s]) == 1;
    hide *;
    CallBrings(seen, Call([s], hostCluster, capacity), k, 100.0);
  }

  lemma BothBring(a: string, b: string, t: int, cl: string, hostCluster: map<string, string>, capacity: map<string, Capacity>)
    requires a != b && t > 0 && ClusterOf(hostCluster, a) == cl == ClusterOf(hostCluster, b) && CapacityOf(capacity, cl).mhz == 200.0
    ensures var call := Call([BusyHost(a, t)] + [BusyHost(b, t)], hostCluster, capacity);
      && NewKeys(CpuPercent, map[], call) == {Key(cl, t)}
      && SumOfCall(CpuPercent, map[], call)(Key(cl, t)) == Ranks.Sample(100.0, 1)
  {
    var all := [BusyHost(a, t)] + [BusyHost(b, t)];
    assert CallWeight(all) == 1;
    BusySeen(map[], a, t);
    BusyHostBrings(map[], a, t, cl, hostCluster, capacity);
    BusyHostBrings(map[a := t], b, t, cl, hostCluster, capacity);
    hide BusyHost, CapacityOf, ClusterOf, Keys, Demand, AllSeen, CallWeight;
    CallsAddUp(map[], [BusyHost(a, t)], [BusyHost(b, t)], hostCluster, Total, Moment(Key(cl, t)));
    assert Demand(map[], all, hostCluster, Moment(Key(cl, t))).c == 200.0;
    assert Keys(map[], all, hostCluster) == {Key(cl, t)};
    hide *;
    CallBrings(map[], Call(all, hostCluster, capacity), Key(cl, t), 200.0);
  }

  /** A call that brings one timestamp records its value. */
  lemma RecordsOne(m: Stored, seen: map<string, int>, call: Call, to: Stored,
                   k: Key, v: real, before: seq<Ranks.Sample>)
    requires AllClustersValid(m.clusters) && CpuOf(m, k.name) == Fold(before)
    requires CallLeaves(m, seen, call, to) && CapacityOf(call.capacity, k.name).mhz > 0.0
    requires NewKeys(CpuPercent, seen, call) == {k} && SumOfCall(CpuPercent, seen, call)(k) == Ranks.Sample(v, 1)
    ensures AllClustersValid(to.clusters) && CpuOf(to, k.name) == Fold(before + [Ranks.Sample(v, 1)])
  {
    var x := Ranks.Sample(v, 1);
    TallyIs(before);
    TallyIs(before + [x]);
    assert CpuPercent.At(m, k.name) == Percents(CpuOf(m, k.name)) && CpuPercent.At(to, k.name) == Percents(CpuOf(to, k.name));
    assert CpuPercent.Empty() == NoPercents() && CpuPercent.Measurable(CapacityOf(call.capacity, k.name));
    hide *;
    hide Metric.At, Metric.Empty, Metric.Measurable;
    var order := CallRecordsSums(CpuPercent, m, seen, call, to, k.name, before);
    OnOne(k);
    OneInOrder(order, k);
    OneOfStream(SumOfCall(CpuPercent, seen, call), k);
  }

  lemma OnOne(k: Key)
    ensures On({k}, k.name) == {k}
  {
  }

  lemma OneInOrder(order: seq<Key>, k: Key)
    requires Each(order, {k})
    ensures order == [k]
  {
    EachCount(order, {k});
  }

  lemma OneOfStream(f: Key -> Ranks.Sample, k: Key)
    ensures Stream(f, [k]) == [f(k)]
  {
  }

  /** What the two calls record. */
  lemma HalvesRecorded(one: Call, two: Call, split: Stored, k: Key)
    requires RunLeaves(NOTHING_STORED, map[], [one, two], split)
    requires CapacityOf(one.capacity, k.name).mhz > 0.0 && CapacityOf(two.capacity, k.name).mhz > 0.0
    requires NewKeys(CpuPercent, map[], one) == {k} && SumOfCall(CpuPercent, map[], one)(k) == Ranks.Sample(50.0, 1)
    requires var seen := AllSeen(map[], one.series);
      NewKeys(CpuPercent, seen, two) == {k} && SumOfCall(CpuPercent, seen, two)(k) == Ranks.Sample(50.0, 1)
    ensures CpuOf(split, k.name) == Fold([Ranks.Sample(50.0, 1), Ranks.Sample(50.0, 1)])
  {
    hide NewKeys, SumOfCall, CallLeaves, AllSeen, CapacityOf;
    assert [one, two][..1] == [one] && [one][..0] == [];
    var mid := LastCall(NOTHING_STORED, map[], [one, two], split);
    var start := LastCall(NOTHING_STORED, map[], [one], mid);
    assert start == NOTHING_STORED && SeenAfter(map[], []) == map[] && SeenAfter(map[], [one]) == AllSeen(map[], one.series);
    EmptyCluster(k.name);
    hide *;
    var x := Ranks.Sample(50.0, 1);
    RecordsOne(NOTHING_STORED, map[], one, mid, k, 50.0, []);
    RecordsOne(mid, AllSeen(map[], one.series), two, split, k, 50.0, [] + [x]);
    assert [] + [x] + [x] == [x, x];
  }

  lemma BothBringHalves(a: string, b: string, t: int, cl: string, hostCluster: map<string, string>, capacity: map<string, Capacity>)
    requires a != b && t > 0 && ClusterOf(hostCluster, a) == cl == ClusterOf(hostCluster, b) && CapacityOf(capacity, cl).mhz == 200.0
    ensures var one, two := Call([BusyHost(a, t)], hostCluster, capacity), Call([BusyHost(b, t)], hostCluster, capacity);
      var seen := AllSeen(map[], one.series);
      && NewKeys(CpuPercent, map[], one) == {Key(cl, t)} == NewKeys(CpuPercent, seen, two)
      && SumOfCall(CpuPercent, map[], one)(Key(cl, t)) == Ranks.Sample(50.0, 1) == SumOfCall(CpuPercent, seen, two)(Key(cl, t))
  {
    BusySeen(map[], a, t);
    assert t > Last(map[a := t], b);
    hide *;
    NeverSeen(a);
    BusyHostBrings(map[], a, t, cl, hostCluster, capacity);
    BusyHostBrings(map[a := t], b, t, cl, hostCluster, capacity);
  }

  lemma HalfAndFull(half: Ranks.Sample, full: Ranks.Sample, p: real)
    requires half == Ranks.Sample(50.0, 1) && full == Ranks.Sample(100.0, 1) && 0.0 < p <= 100.0
    ensures PctOf(Fold([half, half]), p) == 50.0 && PctOf(Fold([full]), p) == 100.0 && ExactPct([full], p, 100.0)
  {
    PercentileOfEqual([half, half], 50.0, p);
    PercentileOfEqual([full], 100.0, p);
  }

  lemma EmptyCluster(cl: string)
    ensures AllClustersValid(NOTHING_STORED.clusters) && CpuOf(NOTHING_STORED, cl) == Fold([])
  {
  }

  /** When the second host arrives in a later call, every percentile of the cluster is that of one host alone. */
  lemma SplitReadsHalf(one: Call, two: Call, a: string, b: string, t: int, cl: string, split: Stored, p: real)
    requires one == Call([BusyHost(a, t)], one.hostCluster, one.capacity) && two == Call([BusyHost(b, t)], one.hostCluster, one.capacity)
    requires a != b && t > 0 && ClusterOf(one.hostCluster, a) == cl == ClusterOf(one.hostCluster, b)
    requires CapacityOf(one.capacity, cl).mhz == 200.0 && 0.0 < p <= 100.0
    requires RunLeaves(NOTHING_STORED, map[], [one, two], split)
    ensures CpuOf(split, cl) == Fold([Ranks.Sample(50.0, 1), Ranks.Sample(50.0, 1)])
    ensures CpuOf(split, cl).Valid() && PctOf(CpuOf(split, cl), p) == 50.0
  {
    hide *;
    HalfAndFull(Ranks.Sample(50.0, 1), Ranks.Sample(100.0, 1), p);
    BothBringHalves(a, b, t, cl, one.hostCluster, one.capacity);
    HalvesRecorded(one, two, split, Key(cl, t));
  }

  /**
   * Two hosts, each with half of the cluster's capacity in use at one time. When the
   * second arrives in a later call, no sample is lost, but every percentile of the
   * cluster reads 50% where all the hosts asked for 100%.
   */
  lemma LaterHostHalvesDemand(a: string, b: string, t: int, cl: string, hostCluster: map<string, string>,
                              capacity: map<string, Capacity>, split: Stored, whole: Stored, p: real)
    requires a != b && t > 0 && ClusterOf(hostCluster, a) == cl == ClusterOf(hostCluster, b) && CapacityOf(capacity, cl).mhz == 200.0
    requires 0.0 < p <= 100.0
    requires var one, two := Call([BusyHost(a, t)], hostCluster, capacity), Call([BusyHost(b, t)], hostCluster, capacity);
      && RunLeaves(NOTHING_STORED, map[], [one, two], split)
      && CallLeaves(NOTHING_STORED, map[], Call(one.series + two.series, hostCluster, capacity), whole)
    ensures CpuOf(split, cl) == Fold([Ranks.Sample(50.0, 1), Ranks.Sample(50.0, 1)])
    ensures CpuOf(whole, cl) == Fold([Ranks.Sample(100.0, 1)]) && ExactPct([Ranks.Sample(100.0, 1)], p, 100.0)
    ensures PctOf(CpuOf(split, cl), p) == 50.0 && PctOf(CpuOf(whole, cl), p) == 100.0
  {
    var one, two := Call([BusyHost(a, t)], hostCluster, capacity), Call([BusyHost(b, t)], hostCluster, capacity);
    var half, full := Ranks.Sample(50.0, 1), Ranks.Sample(100.0, 1);
    hide *;
    SplitReadsHalf(one, two, a, b, t, cl, split, p);
    HalfAndFull(half, full, p);
    BothBring(a, b, t, cl, hostCluster, capacity);
    EmptyCluster(cl);
    RecordsOne(NOTHING_STORED, map[], Call(one.series + two.series, hostCluster, capacity), whole, Key(cl, t), 100.0, []);
    assert [] + [full] == [full];
  }
}
