/**
 * Recording the sums of host samples in clusters and datastores (the last loops of
 * Store.AddHosts, internal/analysis/stats.go; IOStats.add, internal/analysis/io.go).
 */
module HostStore {
  import Ranks
  import opened Histograms
  import opened LogHistograms
  import opened VcSeries
  import opened VmStore
  import opened MapSums
  import opened HostSamples

  // ------------------------------------------------------- one datastore, stored

  datatype IoStats = IoStats(
    iops: LogState, kbps: LogState, latency: LogState,
    read: StatState, write: StatState, readKB: StatState, writeKB: StatState, sizeKB: real, sizeOps: real)
  {
    function Sum(): Vec {
      Vec(read.sum, write.sum, readKB.sum, writeKB.sum)
    }

    /** Operations are reads and writes, throughput is both directions. */
    ghost predicate Valid() {
      iops.sum == read.sum + write.sum && kbps.sum == readKB.sum + writeKB.sum
    }
  }

  const NO_IO_STATS := IoStats(EMPTY_LOG, EMPTY_LOG, EMPTY_LOG, NO_STAT, NO_STAT, NO_STAT, NO_STAT, 0.0, 0.0)

  function IoRecorded(d: IoStats, a: IoSample, n: nat): IoStats {
    IoStats(
      if a.ops then LogAdded(d.iops, a.r + a.w, n) else d.iops,
      if a.kb then LogAdded(d.kbps, a.rkb + a.wkb, n) else d.kbps,
      if a.latIO > 0.0 then LogAdded(d.latency, a.latW / a.latIO, n) else d.latency,
      if a.ops then StatAdded(d.read, a.r, n) else d.read, if a.ops then StatAdded(d.write, a.w, n) else d.write,
      if a.kb then StatAdded(d.readKB, a.rkb, n) else d.readKB, if a.kb then StatAdded(d.writeKB, a.wkb, n) else d.writeKB,
      if a.ops && a.kb then d.sizeKB + (a.rkb + a.wkb) * n as real else d.sizeKB,
      if a.ops && a.kb then d.sizeOps + (a.r + a.w) * n as real else d.sizeOps)
  }

  /** A non-negative value raises a running sum by value times weight. */
  lemma SumOfAdded(h: LogState, s: StatState, v: real, n: nat)
    requires v >= 0.0
    ensures LogAdded(h, v, n).sum == h.sum + v * n as real
    ensures StatAdded(s, v, n).sum == s.sum + v * n as real
  {
    hide LogBucket, LogCount, AddCount;
  }

  /** Recording two values beside their sum keeps the sum in step. */
  lemma PairRecorded(h: LogState, s: StatState, u: StatState, x: real, y: real, n: nat, given: bool)
    requires x >= 0.0 && y >= 0.0 && (!given ==> x == 0.0 && y == 0.0)
    ensures
      var h', s', u' := if given then LogAdded(h, x + y, n) else h, if given then StatAdded(s, x, n) else s, if given then StatAdded(u, y, n) else u;
      && s'.sum == s.sum + x * n as real && u'.sum == u.sum + y * n as real
      && h'.sum - h.sum == (s'.sum - s.sum) + (u'.sum - u.sum)
  {
    hide LogAdded, StatAdded;
    SumOfAdded(h, s, x, n);
    SumOfAdded(h, u, y, n);
    SumOfAdded(h, u, x + y, n);
    assert (x + y) * n as real == x * n as real + y * n as real;
  }

  lemma IoRecordedSum(d: IoStats, a: IoSample, n: nat)
    requires a.Valid() && d.Valid()
    ensures IoRecorded(d, a, n).Valid()
    ensures IoRecorded(d, a, n).Sum() == d.Sum().Plus(a.Sum().Times(n))
  {
    hide LogAdded, StatAdded;
    PairRecorded(d.iops, d.read, d.write, a.r, a.w, n, a.ops);
    PairRecorded(d.kbps, d.readKB, d.writeKB, a.rkb, a.wkb, n, a.kb);
  }

  // ------------------------------------------------------------ one cluster, stored

  datatype Capacity = Capacity(mhz: real, memB: real)

  datatype ClusterStats = ClusterStats(
    cpu: HistState, mem: HistState, cpuMhz: StatState, memB: StatState, net: LogState, iops: LogState, kbps: LogState)
  {
    function Sum(): Vec {
      Vec(iops.sum, kbps.sum, cpuMhz.sum, memB.sum)
    }

    ghost predicate Valid() {
      cpu.Valid() && mem.Valid()
    }
  }

  function NewCluster(): (c: ClusterStats)
    ensures c.Valid() && c.Sum() == NONE
  {
    ClusterStats(EmptyHist(), EmptyHist(), NO_STAT, NO_STAT, EMPTY_LOG, EMPTY_LOG, EMPTY_LOG)
  }

  function ClusterRecorded(cs: ClusterStats, b: Bucket, c: Capacity, n: nat): (r: ClusterStats)
    requires cs.Valid()
    ensures r.Valid()
  {
    ClusterStats(
      if c.mhz > 0.0 then Added(cs.cpu, b.cpu / c.mhz * 100.0, n) else cs.cpu,
      if c.memB > 0.0 then Added(cs.mem, b.mem / c.memB * 100.0, n) else cs.mem,
      StatAdded(cs.cpuMhz, b.cpu, n), StatAdded(cs.memB, b.mem, n),
      if b.hasNet then LogAdded(cs.net, b.net, n) else cs.net,
      if b.hasIO then LogAdded(cs.iops, b.iops, n) else cs.iops,
      if b.hasKB then LogAdded(cs.kbps, b.kbps, n) else cs.kbps)
  }

  lemma ClusterRecordedSum(cs: ClusterStats, b: Bucket, c: Capacity, n: nat)
    requires cs.Valid() && b.Valid()
    ensures ClusterRecorded(cs, b, c, n).Sum() == cs.Sum().Plus(b.Sum().Times(n))
  {
    hide LogAdded, StatAdded, Added;
    SumOfAdded(cs.iops, cs.cpuMhz, b.cpu, n);
    SumOfAdded(cs.iops, cs.memB, b.mem, n);
    SumOfAdded(cs.iops, cs.memB, b.iops, n);
    SumOfAdded(cs.kbps, cs.memB, b.kbps, n);
  }

  ghost function IoStored(v: IoView): (string, IoStats) -> Vec {
    (n: string, d: IoStats) => if v.Covers(Key(n, 0)) then d.Sum() else NONE
  }

  ghost function ClusterStored(v: ClusterView): (string, ClusterStats) -> Vec {
    (n: string, c: ClusterStats) => if v.Covers(Key(n, 0)) then c.Sum() else NONE
  }

  function CallWeight(series: seq<Series>): nat {
    if series == [] then 1 else Weight(series[0].interval)
  }

  // ----------------------------------------------------------------------- the store

  ghost predicate AllStored(m: map<string, IoStats>) {
    forall n :: n in m ==> m[n].Valid()
  }

  ghost predicate AllClustersValid(m: map<string, ClusterStats>) {
    forall n :: n in m ==> m[n].Valid()
  }

  function IoEntry(m: map<string, IoStats>, n: string): (d: IoStats)
    ensures AllStored(m) ==> d.Valid()
    ensures n !in m ==> d.Sum() == NONE
  {
    if n in m then m[n] else NO_IO_STATS
  }

  function ClusterEntry(m: map<string, ClusterStats>, n: string): (c: ClusterStats)
    ensures AllClustersValid(m) ==> c.Valid()
    ensures n !in m ==> c.Sum() == NONE
  {
    if n in m then m[n] else NewCluster()
  }

  /** The stored datastores after one summed sample; one that reported nothing is skipped. */
  function IoAfter(m: map<string, IoStats>, k: Key, a: IoSample, n: nat): map<string, IoStats> {
    if a.Ok() then m[k.name := IoRecorded(IoEntry(m, k.name), a, n)] else m
  }

  lemma IoLasts(v: IoView, k: Key)
    requires v.Lasting()
    ensures v.Covers(k) == v.Covers(Key(k.name, 0))
  {
  }

  lemma ClusterLasts(v: ClusterView, k: Key)
    requires v.Lasting()
    ensures v.Covers(k) == v.Covers(Key(k.name, 0))
  {
  }

  /** A datastore's entry after recording one summed sample, and what it adds up to. */
  lemma EntryRecorded(m: map<string, IoStats>, n: string, a: IoSample, w: nat, v: IoView)
    requires AllStored(m) && a.Valid()
    ensures IoRecorded(IoEntry(m, n), a, w).Valid()
    ensures
      IoStored(v)(n, IoRecorded(IoEntry(m, n), a, w))
      == (if n in m then IoStored(v)(n, m[n]) else NONE).Plus(If(v.Covers(Key(n, 0)), a.Sum()).Times(w))
  {
    hide IoRecorded, AllStored, IoStats.Valid, IoSample.Valid, IoSample.Sum, Vec.Plus, Vec.Times, IoView.Covers;
    assert n in m ==> IoEntry(m, n) == m[n];
    IoRecordedSum(IoEntry(m, n), a, w);
    TimesPlus(NONE, NONE, w);
    PlusLaws(NONE, NONE, NONE);
  }

  /** Recording one summed sample moves its load from the gathered samples to the store. */
  lemma IoMoves(m: map<string, IoStats>, rest: IoAt, k: Key, n: nat, v: IoView)
    requires AllStored(m) && AllIoValid(rest) && k in rest && v.Lasting()
    ensures AllStored(IoAfter(m, k, rest[k], n))
    ensures
      SumOver(IoAfter(m, k, rest[k], n), IoStored(v)).Plus(SumOver(rest - {k}, IoPart(v)).Times(n))
      == SumOver(m, IoStored(v)).Plus(SumOver(rest, IoPart(v)).Times(n))
  {
    hide IoView.Lasting, IoRecorded, IoEntry, Vec.Plus, Vec.Times, IoView.Covers, IoStats.Valid, IoStored;
    var a := rest[k];
    var x := If(v.Covers(k), a.Sum());
    IoLasts(v, k);
    var left := SumOver(rest - {k}, IoPart(v));
    EntryRecorded(m, k.name, a, n, v);
    assert !a.Ok() ==> x == NONE;
    SumRemove(rest, IoPart(v), k);
    TimesPlus(x, left, n);
    TimesPlus(NONE, NONE, n);
    PlusLaws(left, NONE, NONE);
    PlusLaws(NONE, left, NONE);
    SumRaise(m, IoStored(v), k.name, IoRecorded(IoEntry(m, k.name), a, n), x.Times(n));
    PlusLaws(SumOver(m, IoStored(v)), x.Times(n), left.Times(n));
  }

  lemma DemandMoves(m: map<string, ClusterStats>, rest: BucketAt, k: Key, c: Capacity, n: nat, v: ClusterView)
    requires AllClustersValid(m) && AllBucketsValid(rest) && k in rest && v.Lasting()
    ensures AllClustersValid(m[k.name := ClusterRecorded(ClusterEntry(m, k.name), rest[k], c, n)])
    ensures
      var to := m[k.name := ClusterRecorded(ClusterEntry(m, k.name), rest[k], c, n)];
      SumOver(to, ClusterStored(v)).Plus(SumOver(rest - {k}, ClusterPart(v)).Times(n))
      == SumOver(m, ClusterStored(v)).Plus(SumOver(rest, ClusterPart(v)).Times(n))
  {
    hide ClusterView.Lasting, ClusterRecorded, Vec.Plus, Vec.Times, ClusterView.Covers;
    var b := rest[k];
    var cs := ClusterEntry(m, k.name);
    ClusterRecordedSum(cs, b, c, n);
    var x := If(v.Covers(k), b.Sum());
    ClusterLasts(v, k);
    var left := SumOver(rest - {k}, ClusterPart(v));
    SumRemove(rest, ClusterPart(v), k);
    TimesPlus(x, left, n);
    TimesPlus(NONE, NONE, n);
    PlusLaws(NONE, NONE, NONE);
    SumRaise(m, ClusterStored(v), k.name, ClusterRecorded(cs, b, c, n), x.Times(n));
    PlusLaws(SumOver(m, ClusterStored(v)), x.Times(n), left.Times(n));
  }

  /** What the store held and what was gathered is what it holds now and what is left to record. */
  ghost predicate IoMoved(from: map<string, IoStats>, to: map<string, IoStats>, samples: IoAt, rest: IoAt, n: nat) {
    && AllStored(to) && AllIoValid(rest)
    && forall v: IoView :: v.Lasting() ==>
      SumOver(to, IoStored(v)).Plus(SumOver(rest, IoPart(v)).Times(n))
      == SumOver(from, IoStored(v)).Plus(SumOver(samples, IoPart(v)).Times(n))
  }

  ghost predicate Moved(from: map<string, ClusterStats>, to: map<string, ClusterStats>, buckets: BucketAt, rest: BucketAt, n: nat) {
    && AllClustersValid(to) && AllBucketsValid(rest)
    && forall v: ClusterView :: v.Lasting() ==>
      SumOver(to, ClusterStored(v)).Plus(SumOver(rest, ClusterPart(v)).Times(n))
      == SumOver(from, ClusterStored(v)).Plus(SumOver(buckets, ClusterPart(v)).Times(n))
  }

  lemma IoUnmoved(m: map<string, IoStats>, samples: IoAt, n: nat)
    requires AllStored(m) && AllIoValid(samples)
    ensures IoMoved(m, m, samples, samples, n)
  {
  }

  lemma Unmoved(m: map<string, ClusterStats>, buckets: BucketAt, n: nat)
    requires AllClustersValid(m) && AllBucketsValid(buckets)
    ensures Moved(m, m, buckets, buckets, n)
  {
  }

  lemma IoMovesEveryView(m: map<string, IoStats>, rest: IoAt, k: Key, n: nat)
    requires AllStored(m) && AllIoValid(rest) && k in rest
    ensures AllStored(IoAfter(m, k, rest[k], n)) && AllIoValid(rest - {k})
    ensures forall v: IoView :: v.Lasting() ==>
      SumOver(IoAfter(m, k, rest[k], n), IoStored(v)).Plus(SumOver(rest - {k}, IoPart(v)).Times(n))
      == SumOver(m, IoStored(v)).Plus(SumOver(rest, IoPart(v)).Times(n))
  {
    assert Total.Lasting();
    hide IoAfter, AllStored, SumOver, IoStored, IoPart, IoView.Lasting, Vec.Plus, Vec.Times;
    IoMoves(m, rest, k, n, Total);
    forall v: IoView | v.Lasting()
      ensures SumOver(IoAfter(m, k, rest[k], n), IoStored(v)).Plus(SumOver(rest - {k}, IoPart(v)).Times(n))
           == SumOver(m, IoStored(v)).Plus(SumOver(rest, IoPart(v)).Times(n))
    {
      IoMoves(m, rest, k, n, v);
    }
  }

  lemma IoMovedOne(from: map<string, IoStats>, m: map<string, IoStats>, samples: IoAt, rest: IoAt, n: nat, k: Key)
    requires IoMoved(from, m, samples, rest, n) && k in rest
    ensures IoMoved(from, IoAfter(m, k, rest[k], n), samples, rest - {k}, n)
  {
    hide IoAfter, AllStored, AllIoValid, SumOver, IoStored, IoPart, IoView.Lasting, Vec.Plus, Vec.Times;
    IoMovesEveryView(m, rest, k, n);
  }

  /** The clusters after one bucket. */
  function ClusterAfter(m: map<string, ClusterStats>, k: Key, b: Bucket, c: Capacity, n: nat): map<string, ClusterStats>
    requires AllClustersValid(m)
  {
    m[k.name := ClusterRecorded(ClusterEntry(m, k.name), b, c, n)]
  }

  lemma DemandMovesEveryView(m: map<string, ClusterStats>, rest: BucketAt, k: Key, c: Capacity, n: nat)
    requires AllClustersValid(m) && AllBucketsValid(rest) && k in rest
    ensures AllClustersValid(ClusterAfter(m, k, rest[k], c, n)) && AllBucketsValid(rest - {k})
    ensures forall v: ClusterView :: v.Lasting() ==>
      SumOver(ClusterAfter(m, k, rest[k], c, n), ClusterStored(v)).Plus(SumOver(rest - {k}, ClusterPart(v)).Times(n))
      == SumOver(m, ClusterStored(v)).Plus(SumOver(rest, ClusterPart(v)).Times(n))
  {
    assert AllClusters.Lasting();
    hide ClusterRecorded, ClusterEntry, AllClustersValid, SumOver, ClusterStored, ClusterPart, ClusterView.Lasting, Vec.Plus, Vec.Times;
    DemandMoves(m, rest, k, c, n, AllClusters);
    forall v: ClusterView | v.Lasting()
      ensures SumOver(ClusterAfter(m, k, rest[k], c, n), ClusterStored(v)).Plus(SumOver(rest - {k}, ClusterPart(v)).Times(n))
           == SumOver(m, ClusterStored(v)).Plus(SumOver(rest, ClusterPart(v)).Times(n))
    {
      DemandMoves(m, rest, k, c, n, v);
    }
  }

  lemma MovedOne(from: map<string, ClusterStats>, m: map<string, ClusterStats>, buckets: BucketAt, rest: BucketAt,
                 c: Capacity, n: nat, k: Key)
    requires AllClustersValid(m) && Moved(from, m, buckets, rest, n) && k in rest
    ensures Moved(from, ClusterAfter(m, k, rest[k], c, n), buckets, rest - {k}, n)
  {
    hide ClusterAfter, AllClustersValid, AllBucketsValid, SumOver, ClusterStored, ClusterPart, ClusterView.Lasting, Vec.Plus, Vec.Times;
    DemandMovesEveryView(m, rest, k, c, n);
  }

  lemma IoMovedAll(from: map<string, IoStats>, m: map<string, IoStats>, samples: IoAt, n: nat)
    requires IoMoved(from, m, samples, map[], n)
    ensures AllStored(m)
    ensures forall v: IoView :: v.Lasting() ==>
      SumOver(m, IoStored(v)) == SumOver(from, IoStored(v)).Plus(SumOver(samples, IoPart(v)).Times(n))
  {
    hide Vec.Plus, IoStored, IoPart, IoView.Lasting;
    var none: IoAt := map[];
    forall v: IoView | v.Lasting()
      ensures SumOver(m, IoStored(v)) == SumOver(from, IoStored(v)).Plus(SumOver(samples, IoPart(v)).Times(n))
    {
      assert SumOver(none, IoPart(v)) == NONE;
      TimesPlus(NONE, NONE, n);
      PlusLaws(SumOver(m, IoStored(v)), NONE, NONE);
    }
  }

  lemma MovedAll(from: map<string, ClusterStats>, m: map<string, ClusterStats>, buckets: BucketAt, n: nat)
    requires Moved(from, m, buckets, map[], n)
    ensures AllClustersValid(m)
    ensures forall v: ClusterView :: v.Lasting() ==>
      SumOver(m, ClusterStored(v)) == SumOver(from, ClusterStored(v)).Plus(SumOver(buckets, ClusterPart(v)).Times(n))
  {
    hide Vec.Plus, ClusterStored, ClusterPart, ClusterView.Lasting;
    var none: BucketAt := map[];
    forall v: ClusterView | v.Lasting()
      ensures SumOver(m, ClusterStored(v)) == SumOver(from, ClusterStored(v)).Plus(SumOver(buckets, ClusterPart(v)).Times(n))
    {
      assert SumOver(none, ClusterPart(v)) == NONE;
      TimesPlus(NONE, NONE, n);
      PlusLaws(SumOver(m, ClusterStored(v)), NONE, NONE);
    }
  }

  // ------------------------------------------------------------------------ calls

  /** The arguments of one call of AddHosts. */
  datatype Call = Call(series: seq<Series>, hostCluster: map<string, string>, capacity: map<string, Capacity>)

  ghost function SeenAfter(seen: map<string, int>, calls: seq<Call>): map<string, int> {
    if calls == [] then seen else AllSeen(SeenAfter(seen, calls[..|calls| - 1]), calls[|calls| - 1].series)
  }

  /** The clusters and datastores a store holds. */
  datatype Stored = Stored(clusters: map<string, ClusterStats>, io: map<string, IoStats>) {
    ghost predicate Valid() {
      AllClustersValid(clusters) && AllStored(io)
    }
  }

  const NOTHING_STORED := Stored(map[], map[])

  /** What a call may leave: every bucket and every summed sample recorded once, in some order. */
  ghost predicate CallLeaves(m: Stored, seen: map<string, int>, call: Call, to: Stored) {
    exists g: Gathered, order: seq<Key>, ioOrder: seq<Key> ::
      && IsGathered(g, seen, call.series, call.hostCluster)
      && Each(order, g.sum.Keys) && Each(ioOrder, g.io.Keys)
      && to == AllRecorded(m, g, call, order, ioOrder)
  }

  ghost function AllRecorded(m: Stored, g: Gathered, call: Call, order: seq<Key>, ioOrder: seq<Key>): Stored {
    var w := CallWeight(call.series);
    Stored(FoldSteps(m.clusters, ClusterStep(g.sum, call.capacity, w), order), FoldSteps(m.io, IoStep(g.io, w), ioOrder))
  }

  lemma LeavesAllRecorded(m: Stored, seen: map<string, int>, call: Call, g: Gathered, order: seq<Key>, ioOrder: seq<Key>)
    requires IsGathered(g, seen, call.series, call.hostCluster) && Each(order, g.sum.Keys) && Each(ioOrder, g.io.Keys)
    ensures CallLeaves(m, seen, call, AllRecorded(m, g, call, order, ioOrder))
  {
  }

  /** ... and what a run of calls may leave. */
  ghost predicate RunLeaves(m: Stored, seen: map<string, int>, calls: seq<Call>, to: Stored) {
    if calls == [] then to == m
    else
      var init := calls[..|calls| - 1];
      exists mid :: RunLeaves(m, seen, init, mid) && CallLeaves(mid, SeenAfter(seen, init), calls[|calls| - 1], to)
  }

  class HostStore {
    var clusters: map<string, ClusterStats>
    var io: map<string, IoStats>
    var hostLast: map<string, int>

    function State(): Stored
      reads this
    {
      Stored(clusters, io)
    }

    /** The stored load of a datastore, of the total, or of all datastores together. */
    ghost function StorageOn(v: IoView): Vec
      reads `io
    {
      SumOver(io, IoStored(v))
    }

    /** The stored demand of a cluster, or of all clusters together. */
    ghost function DemandIn(v: ClusterView): Vec
      reads `clusters
    {
      SumOver(clusters, ClusterStored(v))
    }

    /** Datastores add up to the total, and clusters to the same operations and throughput. */
    ghost predicate Conserved()
      reads this
    {
      && StorageOn(AllDatastores) == StorageOn(Total)
      && DemandIn(AllClusters).a == StorageOn(Total).a + StorageOn(Total).b
      && DemandIn(AllClusters).b == StorageOn(Total).c + StorageOn(Total).d
    }

    ghost predicate Valid()
      reads this
    {
      AllStored(io) && AllClustersValid(clusters) && Conserved()
    }

    constructor ()
      ensures Valid() && clusters == map[] && io == map[] && hostLast == map[]
    {
      clusters, io, hostLast := map[], map[], map[];
    }

    /** The body of the loop over summed storage samples. */
    method RecordSample(k: Key, a: IoSample, n: nat)
      modifies this`io
      ensures io == IoAfter(old(io), k, a, n)
    {
      if !a.Ok() {
        return;
      }
      io := io[k.name := IoRecorded(IoEntry(io, k.name), a, n)];
    }

    /** Records the summed storage samples that reported anything. */
    method RecordIo(samples: IoAt, n: nat) returns (ghost order: seq<Key>)
      requires AllStored(io) && AllIoValid(samples)
      modifies this`io
      ensures AllStored(io)
      ensures Each(order, samples.Keys) && io == FoldSteps(old(io), IoStep(samples, n), order)
      ensures forall v: IoView :: v.Lasting() ==>
        StorageOn(v) == old(StorageOn(v)).Plus(SumOver(samples, IoPart(v)).Times(n))
    {
      hide IoAfter, IoStep, IoMoved, Remain, Each;
      var rest := samples;
      order := [];
      AllRemain(samples);
      IoUnmoved(io, samples, n);
      while rest != map[]
        invariant Remain(rest, samples, order)
        invariant io == FoldSteps(old(io), IoStep(samples, n), order)
        invariant IoMoved(old(io), io, samples, rest, n)
        decreases |rest|
      {
        var k :| k in rest;
        IoMovedOne(old(io), io, samples, rest, n, k);
        OneLess(rest, samples, order, k);
        FoldOne(old(io), IoStep(samples, n), order, k);
        IoStepIs(samples, n, io, k);
        RecordSample(k, rest[k], n);
        rest, order := rest - {k}, order + [k];
      }
      NoneRemain(samples, order);
      IoMovedAll(old(io), io, samples, n);
    }

    /** Records the buckets of each cluster, against its capacity. */
    method RecordDemand(buckets: BucketAt, capacity: map<string, Capacity>, n: nat) returns (ghost order: seq<Key>)
      requires AllClustersValid(clusters) && AllBucketsValid(buckets)
      modifies this`clusters
      ensures AllClustersValid(clusters)
      ensures Each(order, buckets.Keys) && clusters == FoldSteps(old(clusters), ClusterStep(buckets, capacity, n), order)
      ensures forall v: ClusterView :: v.Lasting() ==>
        DemandIn(v) == old(DemandIn(v)).Plus(SumOver(buckets, ClusterPart(v)).Times(n))
    {
      hide ClusterRecorded, ClusterEntry, ClusterStep, Moved, Remain, Each;
      var rest := buckets;
      order := [];
      AllRemain(buckets);
      Unmoved(clusters, buckets, n);
      while rest != map[]
        invariant AllClustersValid(clusters) && Remain(rest, buckets, order)
        invariant clusters == FoldSteps(old(clusters), ClusterStep(buckets, capacity, n), order)
        invariant Moved(old(clusters), clusters, buckets, rest, n)
        decreases |rest|
      {
        var k :| k in rest;
        var c := CapacityOf(capacity, k.name);
        MovedOne(old(clusters), clusters, buckets, rest, c, n, k);
        OneLess(rest, buckets, order, k);
        FoldOne(old(clusters), ClusterStep(buckets, capacity, n), order, k);
        ClusterStepIs(buckets, capacity, n, clusters, k);
        clusters := clusters[k.name := ClusterRecorded(ClusterEntry(clusters, k.name), rest[k], c, n)];
        rest, order := rest - {k}, order + [k];
      }
      NoneRemain(buckets, order);
      MovedAll(old(clusters), clusters, buckets, n);
    }

    /**
     * Sums the accepted samples per timestamp, then records every sum once. The
     * ghost results are those sums and the orders in which the maps were ranged over.
     */
    method AddHosts(series: seq<Series>, hostCluster: map<string, string>, capacity: map<string, Capacity>)
      returns (ghost g: Gathered, ghost ioOrder: seq<Key>, ghost order: seq<Key>)
      requires Valid() && InstancesNamed(series)
      modifies this
      ensures Valid() && hostLast == AllSeen(old(hostLast), series)
      ensures IsGathered(g, old(hostLast), series, hostCluster)
      ensures Each(ioOrder, g.io.Keys) && io == FoldSteps(old(io), IoStep(g.io, CallWeight(series)), ioOrder)
      ensures Each(order, g.sum.Keys) && clusters == FoldSteps(old(clusters), ClusterStep(g.sum, capacity, CallWeight(series)), order)
      ensures CallLeaves(old(State()), old(hostLast), Call(series, hostCluster, capacity), State())
      ensures forall v: IoView :: v.Lasting() ==>
        StorageOn(v) == old(StorageOn(v)).Plus(Storage(old(hostLast), series, v).Times(CallWeight(series)))
      ensures forall v: ClusterView :: v.Lasting() ==>
        DemandIn(v) == old(DemandIn(v)).Plus(Demand(old(hostLast), series, hostCluster, v).Times(CallWeight(series)))
      ensures NothingNew(old(hostLast), series) ==>
        clusters == old(clusters) && io == old(io) && hostLast == old(hostLast)
    {
      hide Vec.Plus, AllStored, AllClustersValid, AllIoValid, AllBucketsValid, StorageOn, DemandIn, Storage, Demand, AllSeen;
      hide CallLeaves, IsGathered, NothingNew, InstancesNamed, CallWeight, SumOver, IoPart, ClusterPart, IoStep, ClusterStep, FoldSteps, Each;
      var w := CallWeight(series);
      ghost var seen := hostLast;
      ghost var ioBefore, before := io, clusters;
      var gathered, now := Gather(series, hostCluster, hostLast);
      g := gathered;
      GatheredIs(g, seen, series, hostCluster);
      hostLast := now;
      ioOrder := RecordIo(gathered.io, w);
      order := RecordDemand(gathered.sum, capacity, w);
      assert forall v: IoView :: v.Lasting() ==> StorageOn(v) == old(StorageOn(v)).Plus(Storage(seen, series, v).Times(w));
      assert forall v: ClusterView :: v.Lasting() ==>
        DemandIn(v) == old(DemandIn(v)).Plus(Demand(seen, series, hostCluster, v).Times(w));
      ThreeSumsAgree(seen, series, hostCluster);
      StayConserved(old(StorageOn(Total)), old(DemandIn(AllClusters)),
                    Storage(seen, series, Total), Demand(seen, series, hostCluster, AllClusters), w);
      NothingFolded(ioBefore, before, g, capacity, w, ioOrder, order);
      LeavesAllRecorded(Stored(before, ioBefore), seen, Call(series, hostCluster, capacity), g, order, ioOrder);
    }
  }

  // ------------------------------------------------------------ the order of a Go map

  /** Every key once. */
  ghost predicate Each(order: seq<Key>, keys: set<Key>) {
    && (forall i, j :: 0 <= i < j < |order| ==> order[i] != order[j])
    && (forall k :: k in order <==> k in keys)
  }

  /** What of a map is left when the keys in order are done. */
  ghost predicate Remain<V(!new)>(rest: map<Key, V>, m: map<Key, V>, order: seq<Key>) {
    && Each(order, m.Keys - rest.Keys)
    && (forall k :: k in rest ==> k in m && rest[k] == m[k])
  }

  lemma OneLess<V(!new)>(rest: map<Key, V>, m: map<Key, V>, order: seq<Key>, k: Key)
    requires Remain(rest, m, order) && k in rest
    ensures Remain(rest - {k}, m, order + [k]) && k in m && rest[k] == m[k]
  {
  }

  lemma AllRemain<V(!new)>(m: map<Key, V>)
    ensures Remain(m, m, [])
  {
  }

  lemma NoneRemain<V(!new)>(m: map<Key, V>, order: seq<Key>)
    requires Remain(map[], m, order)
    ensures Each(order, m.Keys)
  {
    var none: map<Key, V> := map[];
    assert m.Keys - none.Keys == m.Keys;
  }

  function CapacityOf(capacity: map<string, Capacity>, n: string): Capacity {
    if n in capacity then capacity[n] else Capacity(0.0, 0.0)
  }

  /** The steps of a loop over keys, in an order. */
  ghost function FoldSteps<S(!new)>(s: S, step: (S, Key) -> S, order: seq<Key>): S {
    if order == [] then s else step(FoldSteps(s, step, order[..|order| - 1]), order[|order| - 1])
  }

  lemma FoldOne<S(!new)>(s: S, step: (S, Key) -> S, order: seq<Key>, k: Key)
    ensures FoldSteps(s, step, order + [k]) == step(FoldSteps(s, step, order), k)
  {
    assert (order + [k])[..|order|] == order;
  }

  ghost predicate Commutes<S(!new)>(step: (S, Key) -> S) {
    forall s: S, j: Key, k: Key :: step(step(s, j), k) == step(step(s, k), j)
  }

  lemma {:induction false} StepLast<S(!new)>(s: S, step: (S, Key) -> S, order: seq<Key>, i: nat)
    requires Commutes(step) && i < |order|
    ensures FoldSteps(s, step, order) == step(FoldSteps(s, step, order[..i] + order[i + 1..]), order[i])
  {
    var init, last := order[..|order| - 1], order[|order| - 1];
    if i == |order| - 1 {
      assert order[..i] + order[i + 1..] == init;
    } else {
      StepLast(s, step, init, i);
      var rest := order[..i] + order[i + 1..];
      assert rest[..|rest| - 1] == init[..i] + init[i + 1..];
    }
  }

  /** Commuting steps lead to the same state whatever order a map is ranged over in. */
  lemma {:induction false} AnyOrder<S(!new)>(s: S, step: (S, Key) -> S, one: seq<Key>, two: seq<Key>, keys: set<Key>)
    requires Commutes(step) && Each(one, keys) && Each(two, keys)
    ensures FoldSteps(s, step, one) == FoldSteps(s, step, two)
    decreases |one|
  {
    hide Commutes;
    if one == [] {
      if two != [] {
        EachOfSome(two, keys);
      }
    } else {
      var init, k := one[..|one| - 1], one[|one| - 1];
      assert k in keys;
      var i :| 0 <= i < |two| && two[i] == k;
      var rest := two[..i] + two[i + 1..];
      EachButOne(one, keys, |one| - 1);
      assert one[..|one| - 1] + one[|one|..] == init;
      EachButOne(two, keys, i);
      AnyOrder(s, step, init, rest, keys - {k});
      StepLast(s, step, two, i);
    }
  }

  lemma EachButOne(order: seq<Key>, keys: set<Key>, i: nat)
    requires Each(order, keys) && i < |order|
    ensures Each(order[..i] + order[i + 1..], keys - {order[i]})
  {
    var rest := order[..i] + order[i + 1..];
    assert forall j :: 0 <= j < |rest| ==> rest[j] == order[if j < i then j else j + 1];
    forall k
      ensures k in rest <==> k in keys - {order[i]}
    {
      if k in keys && k != order[i] {
        var j :| 0 <= j < |order| && order[j] == k;
        assert rest[if j < i then j else j - 1] == k;
      }
    }
  }

  /** One bucket recorded. */
  ghost function ClusterStep(buckets: BucketAt, capacity: map<string, Capacity>, n: nat)
    : (map<string, ClusterStats>, Key) -> map<string, ClusterStats>
  {
    (m: map<string, ClusterStats>, k: Key) =>
      if k !in buckets || !AllClustersValid(m) then m
      else ClusterAfter(m, k, buckets[k], CapacityOf(capacity, k.name), n)
  }

  /** One summed storage sample recorded. */
  ghost function IoStep(samples: IoAt, n: nat): (map<string, IoStats>, Key) -> map<string, IoStats> {
    (m: map<string, IoStats>, k: Key) => if k !in samples then m else IoAfter(m, k, samples[k], n)
  }

  lemma ClusterStepIs(buckets: BucketAt, capacity: map<string, Capacity>, n: nat, m: map<string, ClusterStats>, k: Key)
    requires k in buckets && AllClustersValid(m)
    ensures ClusterStep(buckets, capacity, n)(m, k)
      == ClusterAfter(m, k, buckets[k], CapacityOf(capacity, k.name), n)
  {
    hide ClusterRecorded;
  }

  lemma IoStepIs(samples: IoAt, n: nat, m: map<string, IoStats>, k: Key)
    requires k in samples
    ensures IoStep(samples, n)(m, k) == IoAfter(m, k, samples[k], n)
  {
    hide IoAfter;
  }

  lemma StatAddedCommutes(s: StatState, v: real, w: real, n: nat)
    ensures StatAdded(StatAdded(s, v, n), w, n) == StatAdded(StatAdded(s, w, n), v, n)
  {
  }

  lemma ClusterRecordedCommutes(cs: ClusterStats, a: Bucket, b: Bucket, c: Capacity, n: nat)
    requires cs.Valid()
    ensures ClusterRecorded(ClusterRecorded(cs, a, c, n), b, c, n) == ClusterRecorded(ClusterRecorded(cs, b, c, n), a, c, n)
  {
    hide Added, StatAdded, LogAdded;
    if c.mhz > 0.0 {
      AddedCommutes(cs.cpu, Ranks.Sample(a.cpu / c.mhz * 100.0, n), Ranks.Sample(b.cpu / c.mhz * 100.0, n));
    }
    if c.memB > 0.0 {
      AddedCommutes(cs.mem, Ranks.Sample(a.mem / c.memB * 100.0, n), Ranks.Sample(b.mem / c.memB * 100.0, n));
    }
    StatAddedCommutes(cs.cpuMhz, a.cpu, b.cpu, n);
    StatAddedCommutes(cs.memB, a.mem, b.mem, n);
    LogAddedCommutes(cs.net, Ranks.Sample(a.net, n), Ranks.Sample(b.net, n));
    LogAddedCommutes(cs.iops, Ranks.Sample(a.iops, n), Ranks.Sample(b.iops, n));
    LogAddedCommutes(cs.kbps, Ranks.Sample(a.kbps, n), Ranks.Sample(b.kbps, n));
  }

  lemma IoRecordedCommutes(d: IoStats, a: IoSample, b: IoSample, n: nat)
    ensures IoRecorded(IoRecorded(d, a, n), b, n) == IoRecorded(IoRecorded(d, b, n), a, n)
  {
    hide StatAdded, LogAdded;
    LogAddedCommutes(d.iops, Ranks.Sample(a.r + a.w, n), Ranks.Sample(b.r + b.w, n));
    LogAddedCommutes(d.kbps, Ranks.Sample(a.rkb + a.wkb, n), Ranks.Sample(b.rkb + b.wkb, n));
    if a.latIO > 0.0 && b.latIO > 0.0 {
      LogAddedCommutes(d.latency, Ranks.Sample(a.latW / a.latIO, n), Ranks.Sample(b.latW / b.latIO, n));
    }
    StatAddedCommutes(d.read, a.r, b.r, n);
    StatAddedCommutes(d.write, a.w, b.w, n);
    StatAddedCommutes(d.readKB, a.rkb, b.rkb, n);
    StatAddedCommutes(d.writeKB, a.wkb, b.wkb, n);
  }

  lemma ClusterStepsCommuteAt(buckets: BucketAt, capacity: map<string, Capacity>, n: nat, m: map<string, ClusterStats>, j: Key, k: Key)
    requires j in buckets && k in buckets && AllClustersValid(m)
    ensures var step := ClusterStep(buckets, capacity, n); step(step(m, j), k) == step(step(m, k), j)
  {
    var c, d := CapacityOf(capacity, j.name), CapacityOf(capacity, k.name);
    AfterCommutes(m, j, buckets[j], c, k, buckets[k], d, n);
    hide ClusterAfter;
    ClusterStepIs(buckets, capacity, n, m, j);
    ClusterStepIs(buckets, capacity, n, m, k);
    ClusterStepIs(buckets, capacity, n, ClusterAfter(m, j, buckets[j], c, n), k);
    ClusterStepIs(buckets, capacity, n, ClusterAfter(m, k, buckets[k], d, n), j);
    hide ClusterStep;
  }

  lemma AfterCommutes(m: map<string, ClusterStats>, j: Key, a: Bucket, c: Capacity, k: Key, b: Bucket, d: Capacity, n: nat)
    requires AllClustersValid(m) && (j.name == k.name ==> c == d)
    ensures AllClustersValid(ClusterAfter(m, j, a, c, n)) && AllClustersValid(ClusterAfter(m, k, b, d, n))
    ensures ClusterAfter(ClusterAfter(m, j, a, c, n), k, b, d, n) == ClusterAfter(ClusterAfter(m, k, b, d, n), j, a, c, n)
  {
    hide ClusterRecorded, NewCluster, ClusterStats.Valid;
    if j.name == k.name {
      ClusterRecordedCommutes(ClusterEntry(m, k.name), a, b, c, n);
    }
  }

  /** The clusters do not depend on the order in which the buckets are recorded ... */
  lemma ClusterStepsCommute(buckets: BucketAt, capacity: map<string, Capacity>, n: nat)
    ensures Commutes(ClusterStep(buckets, capacity, n))
  {
    hide ClusterRecorded;
    var step := ClusterStep(buckets, capacity, n);
    forall m: map<string, ClusterStats>, j: Key, k: Key
      ensures step(step(m, j), k) == step(step(m, k), j)
    {
      if j in buckets && k in buckets && AllClustersValid(m) {
        ClusterStepsCommuteAt(buckets, capacity, n, m, j, k);
      }
    }
  }

  lemma IoStepsCommuteAt(samples: IoAt, n: nat, m: map<string, IoStats>, j: Key, k: Key)
    requires j in samples && k in samples
    ensures var step := IoStep(samples, n); step(step(m, j), k) == step(step(m, k), j)
  {
    hide IoRecorded, IoStep;
    var step := IoStep(samples, n);
    IoStepIs(samples, n, m, j);
    IoStepIs(samples, n, m, k);
    IoStepIs(samples, n, step(m, j), k);
    IoStepIs(samples, n, step(m, k), j);
    IoRecordedCommutes(IoEntry(m, k.name), samples[j], samples[k], n);
  }

  /** ... nor do the datastores on the order of the summed samples. */
  lemma IoStepsCommute(samples: IoAt, n: nat)
    ensures Commutes(IoStep(samples, n))
  {
    hide IoAfter;
    var step := IoStep(samples, n);
    forall m: map<string, IoStats>, j: Key, k: Key
      ensures step(step(m, j), k) == step(step(m, k), j)
    {
      if j in samples && k in samples {
        IoStepsCommuteAt(samples, n, m, j, k);
      }
    }
  }

  lemma NothingFolded(io: map<string, IoStats>, m: map<string, ClusterStats>, g: Gathered,
                      capacity: map<string, Capacity>, n: nat, ioOrder: seq<Key>, order: seq<Key>)
    requires AllClustersValid(m) && Each(ioOrder, g.io.Keys) && Each(order, g.sum.Keys)
    ensures g == NOTHING ==>
      FoldSteps(m, ClusterStep(g.sum, capacity, n), order) == m && FoldSteps(io, IoStep(g.io, n), ioOrder) == io
  {
    if order != [] {
      EachOfSome(order, g.sum.Keys);
    }
    if ioOrder != [] {
      EachOfSome(ioOrder, g.io.Keys);
    }
  }

  lemma EachOfSome(order: seq<Key>, keys: set<Key>)
    requires Each(order, keys) && order != []
    ensures keys != {}
  {
    assert order[0] in keys;
  }
}
