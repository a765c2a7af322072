/**
 * What clusters and datastores hold after a run of calls of Store.AddHosts
 * (internal/analysis/stats.go, internal/analysis/io.go). Each call records its own sum
 * per timestamp, so a timestamp whose hosts arrive in two calls is recorded as two parts.
 */
module HostStreams {
  import Ranks
  import opened Histograms
  import opened LogHistograms
  import opened VcSeries
  import opened VmStore
  import opened MapSums
  import opened HostSamples
  import opened HostCalls
  import opened HostStore
  import opened Tallies
  import opened KeyStreams

  // ---------------------------------------------------------------------- metrics

  /** What is kept of a cluster, and of a datastore or of all of them under the name "". */
  datatype Metric =
    | CpuPercent | MemPercent | CpuMhz | MemBytes | Network | ClusterOps | ClusterKb
    | Ops | Kb | Latency | Reads | Writes | ReadKb | WriteKb | SizeKb | SizeOps
  {
    predicate OfCluster() {
      this in {CpuPercent, MemPercent, CpuMhz, MemBytes, Network, ClusterOps, ClusterKb}
    }

    /** A sum is recorded when what it is about was reported; processor and memory always are. */
    predicate Kept(v: Vec) {
      match this
      case CpuPercent | MemPercent | CpuMhz | MemBytes => true
      case Network => v.r
      case ClusterOps | Ops | Reads | Writes => v.p
      case ClusterKb | Kb | ReadKb | WriteKb => v.q
      case Latency => v.f > 0.0
      case SizeKb | SizeOps => v.p && v.q
    }

    /** Percentages need a capacity. */
    predicate Measurable(c: Capacity) {
      (CpuPercent? ==> c.mhz > 0.0) && (MemPercent? ==> c.memB > 0.0)
    }

    function Value(c: Capacity, v: Vec): real {
      match this
      case CpuPercent => if c.mhz > 0.0 then v.c / c.mhz * 100.0 else 0.0
      case MemPercent => if c.memB > 0.0 then v.d / c.memB * 100.0 else 0.0
      case CpuMhz => v.c
      case MemBytes => v.d
      case Network => v.e
      case ClusterOps | Reads => v.a
      case ClusterKb | Writes => v.b
      case Ops | SizeOps => v.a + v.b
      case Kb | SizeKb => v.c + v.d
      case ReadKb => v.c
      case WriteKb => v.d
      case Latency => if v.f > 0.0 then v.e / v.f else 0.0
    }

    /** Parts of a sum that come in several calls add up to it. The sizes need both counters in one call. */
    predicate Additive() {
      !SizeKb? && !SizeOps?
    }

    function Empty(): (t: Tally)
      ensures t.Valid()
    {
      match this
      case CpuPercent | MemPercent => NoPercents()
      case Network | ClusterOps | ClusterKb | Ops | Kb | Latency => NO_RATES
      case SizeKb | SizeOps => NO_AMOUNT
      case _ => NO_SUMS
    }

    /** The summary a store holds under a name. */
    function At(st: Stored, name: string): Tally {
      if OfCluster() then InCluster(ClusterEntry(st.clusters, name)) else InDatastore(IoEntry(st.io, name))
    }

    function InCluster(c: ClusterStats): Tally {
      match this
      case CpuPercent => Percents(c.cpu)
      case MemPercent => Percents(c.mem)
      case CpuMhz => Sums(c.cpuMhz)
      case MemBytes => Sums(c.memB)
      case Network => Rates(c.net)
      case ClusterOps => Rates(c.iops)
      case _ => Rates(c.kbps)
    }

    function InDatastore(d: IoStats): Tally {
      match this
      case Ops => Rates(d.iops)
      case Kb => Rates(d.kbps)
      case Latency => Rates(d.latency)
      case Reads => Sums(d.read)
      case Writes => Sums(d.write)
      case ReadKb => Sums(d.readKB)
      case WriteKb => Sums(d.writeKB)
      case SizeKb => Amount(d.sizeKB)
      case _ => Amount(d.sizeOps)
    }
  }

  /** What was not reported counts as nothing, and latency is of operations. */
  ghost predicate Sound(metric: Metric, v: Vec) {
    && v.f >= 0.0 && (v.f == 0.0 && !metric.OfCluster() ==> v.e == 0.0)
    && if metric.OfCluster() then (!v.p ==> v.a == 0.0) && (!v.q ==> v.b == 0.0) && (!v.r ==> v.e == 0.0)
       else (!v.p ==> v.a == 0.0 && v.b == 0.0) && (!v.q ==> v.c == 0.0 && v.d == 0.0)
  }

  /** A part that is not kept adds nothing. */
  lemma QuietAddsNothing(metric: Metric, c: Capacity, v: Vec, w: Vec)
    requires metric.Additive() && Sound(metric, v) && Sound(metric, w) && (w == NONE || !metric.Kept(w))
    ensures metric.Value(c, v.Plus(w)) == metric.Value(c, v)
  {
    if w == NONE {
      PlusLaws(v, NONE, NONE);
      assert v.Plus(w) == v;
    } else {
      var u := v.Plus(w);
      assert metric.Latency? ==> u.e == v.e && u.f == v.f;
      hide Vec.Plus;
    }
  }

  lemma KeptEither(metric: Metric, v: Vec, w: Vec)
    requires metric.Additive() && Sound(metric, v) && Sound(metric, w)
    ensures Sound(metric, v.Plus(w))
    ensures metric.Kept(v.Plus(w)) <==> metric.Kept(v) || metric.Kept(w)
  {
    SoundPlus(metric, v, w);
    assert v.f >= 0.0 && w.f >= 0.0;
    hide Sound, Metric.OfCluster;
  }

  lemma SoundPlus(metric: Metric, v: Vec, w: Vec)
    requires Sound(metric, v) && Sound(metric, w)
    ensures Sound(metric, v.Plus(w))
  {
    hide Metric.OfCluster;
  }

  // ------------------------------------------------------------- the sums of one call

  /** The names and times that a call may have a summed storage sample of. */
  ghost function IoKeys(all: seq<Series>): set<Key> {
    set s, i, n | s in all && 0 <= i < |s.ts| && n in Instances(s) + {""} :: Key(n, s.ts[i])
  }

  /** What the accepted samples of a call add up to at one time. */
  ghost function SumAt(metric: Metric, seen: map<string, int>, call: Call, k: Key): Vec {
    if metric.OfCluster() then Demand(seen, call.series, call.hostCluster, Moment(k))
    else Storage(seen, call.series, IoMoment(k))
  }

  /** The names and times that a call records a value for. */
  ghost function NewKeys(metric: Metric, seen: map<string, int>, call: Call): set<Key> {
    set k | k in (if metric.OfCluster() then Keys(seen, call.series, call.hostCluster) else IoKeys(call.series))
      && metric.Kept(SumAt(metric, seen, call, k))
  }

  lemma {:induction false} SoundOver(s: Series, i: nat, names: set<string>)
    ensures Sound(Ops, LoadOver(s, i, names))
  {
    hide Given, Vec.Plus;
    if names == {} {
      EmptyLoad(s, i);
    } else {
      var n :| n in names;
      SoundOver(s, i, names - {n});
      LoadOverOneMore(s, i, names - {n}, n);
      assert names - {n} + {n} == names;
      GivenSound(s, n, i);
      KeptEither(Ops, LoadOver(s, i, names - {n}), Given(s, n, i));
    }
  }

  lemma GivenSound(s: Series, n: string, i: nat)
    ensures Sound(Ops, Given(s, n, i))
  {
    hide Report;
  }

  lemma NothingSound(metric: Metric)
    ensures Sound(metric, NONE)
  {
  }

  lemma ShareSound(s: Series, i: nat, v: IoView)
    requires i < |s.ts|
    ensures Sound(Ops, ShareAt(s, i, v))
  {
    SoundOver(s, i, Instances(s));
    GivenSound(s, if v.Datastore? then v.name else if v.IoMoment? then v.key.name else "", i);
    hide LoadOver, Given, Instances;
  }

  lemma DemandAtSound(s: Series, i: nat)
    ensures Sound(ClusterOps, DemandAt(s, i))
  {
    SoundOver(s, i, Instances(s));
    hide LoadOver, Instances, ValueAt;
  }

  lemma {:induction false} SeriesSound(s: Series, last: int, m: nat, v: IoView, cl: string, u: ClusterView)
    requires m <= |s.ts|
    ensures Sound(Ops, StorageTo(s, last, m, v)) && Sound(ClusterOps, DemandTo(s, last, m, cl, u))
  {
    hide ShareAt, DemandAt, Vec.Plus;
    if m > 0 {
      SeriesSound(s, last, m - 1, v, cl, u);
      ShareSound(s, m - 1, v);
      DemandAtSound(s, m - 1);
      hide Sound;
      NothingSound(Ops);
      NothingSound(ClusterOps);
      KeptEither(Ops, StorageTo(s, last, m - 1, v), If(s.ts[m - 1] > last, ShareAt(s, m - 1, v)));
      KeptEither(ClusterOps, DemandTo(s, last, m - 1, cl, u),
                 If(s.ts[m - 1] > last && u.Covers(Key(cl, s.ts[m - 1])), DemandAt(s, m - 1)));
    }
  }

  lemma {:induction false} CallSound(seen: map<string, int>, all: seq<Series>, hostCluster: map<string, string>, v: IoView, u: ClusterView)
    ensures Sound(Ops, Storage(seen, all, v)) && Sound(ClusterOps, Demand(seen, all, hostCluster, u))
  {
    hide StorageTo, DemandTo, AllSeen, Vec.Plus;
    if all != [] {
      var s, init := all[|all| - 1], all[..|all| - 1];
      var last, cl := Last(AllSeen(seen, init), s.ref), ClusterOf(hostCluster, s.ref);
      CallSound(seen, init, hostCluster, v, u);
      SeriesSound(s, last, |s.ts|, v, cl, u);
      KeptEither(Ops, Storage(seen, init, v), StorageTo(s, last, |s.ts|, v));
      KeptEither(ClusterOps, Demand(seen, init, hostCluster, u), DemandTo(s, last, |s.ts|, cl, u));
    }
  }

  lemma SumSound(metric: Metric, seen: map<string, int>, call: Call, k: Key)
    ensures Sound(metric, SumAt(metric, seen, call, k))
  {
    CallSound(seen, call.series, call.hostCluster, IoMoment(k), Moment(k));
    hide Storage, Demand;
  }

  lemma ShareNeedsKey(s: Series, i: nat, k: Key)
    requires i < |s.ts| && (k.t != s.ts[i] || k.name !in Instances(s) + {""})
    ensures ShareAt(s, i, IoMoment(k)) == NONE
  {
  }

  lemma {:induction false} StorageToNeedsKey(s: Series, last: int, m: nat, k: Key)
    requires m <= |s.ts| && forall i :: 0 <= i < m ==> k.t != s.ts[i] || k.name !in Instances(s) + {""}
    ensures StorageTo(s, last, m, IoMoment(k)) == NONE
  {
    hide ShareAt, Instances;
    if m > 0 {
      StorageToNeedsKey(s, last, m - 1, k);
      ShareNeedsKey(s, m - 1, k);
    }
  }

  lemma {:induction false} StorageNeedsKey(seen: map<string, int>, all: seq<Series>, k: Key)
    requires k !in IoKeys(all)
    ensures Storage(seen, all, IoMoment(k)) == NONE
  {
    hide StorageTo, AllSeen, Instances;
    if all != [] {
      var s, init := all[|all| - 1], all[..|all| - 1];
      assert s in all && forall x :: x in init ==> x in all;
      assert k !in IoKeys(init);
      StorageNeedsKey(seen, init, k);
      forall i | 0 <= i < |s.ts|
        ensures k.t != s.ts[i] || k.name !in Instances(s) + {""}
      {
        var x := s.ts[i];
        assert k.name in Instances(s) + {""} ==> Key(k.name, x) in IoKeys(all);
      }
      StorageToNeedsKey(s, Last(AllSeen(seen, init), s.ref), |s.ts|, k);
    }
  }

  /** Where a call records nothing, it has nothing to record. */
  lemma QuietNeedsKey(metric: Metric, seen: map<string, int>, call: Call, k: Key)
    requires k !in NewKeys(metric, seen, call)
    ensures SumAt(metric, seen, call, k) == NONE || !metric.Kept(SumAt(metric, seen, call, k))
  {
    hide Keys, IoKeys, Storage, Demand;
    if metric.OfCluster() {
      if k !in Keys(seen, call.series, call.hostCluster) {
        DemandNeedsKey(seen, call.series, call.hostCluster, k);
      }
    } else if k !in IoKeys(call.series) {
      StorageNeedsKey(seen, call.series, k);
    }
  }

  // ------------------------------------------------------------- what one call records

  ghost function Gathered'(metric: Metric, g: Gathered): set<Key> {
    if metric.OfCluster() then g.sum.Keys else g.io.Keys
  }

  ghost function GatheredSum(metric: Metric, g: Gathered, k: Key): Vec {
    if metric.OfCluster() then if k in g.sum then g.sum[k].Sum() else NONE
    else if k in g.io then g.io[k].Sum() else NONE
  }

  /** The keys of one name that a call records a value for. */
  ghost function Recording(metric: Metric, g: Gathered, name: string): set<Key> {
    set k | k in Gathered'(metric, g) && k.name == name && metric.Kept(GatheredSum(metric, g, k))
  }

  /** The values it records. */
  ghost function Gave(metric: Metric, g: Gathered, c: Capacity, n: nat): Key -> Ranks.Sample {
    (k: Key) => Ranks.Sample(metric.Value(c, GatheredSum(metric, g, k)), n)
  }

  lemma GatheredSumIs(metric: Metric, g: Gathered, seen: map<string, int>, call: Call, k: Key)
    requires IsGathered(g, seen, call.series, call.hostCluster)
    ensures GatheredSum(metric, g, k) == SumAt(metric, seen, call, k)
  {
    hide IsGathered, Keys, Storage, Demand;
    if metric.OfCluster() {
      BucketsAreSums(g, seen, call.series, call.hostCluster, k);
      if k !in g.sum {
        DemandNeedsKey(seen, call.series, call.hostCluster, k);
      }
    } else {
      IoSamplesAreSums(g, seen, call.series, call.hostCluster, k);
    }
  }

  lemma RecordingIs(metric: Metric, g: Gathered, seen: map<string, int>, call: Call, name: string)
    requires IsGathered(g, seen, call.series, call.hostCluster)
    ensures Recording(metric, g, name) == On(NewKeys(metric, seen, call), name)
  {
    hide IsGathered, Keys, Storage, Demand, IoKeys;
    forall k
      ensures k in Recording(metric, g, name) <==> k in On(NewKeys(metric, seen, call), name)
    {
      GatheredSumIs(metric, g, seen, call, k);
      if metric.OfCluster() {
        BucketsAreSums(g, seen, call.series, call.hostCluster, k);
      } else if k !in IoKeys(call.series) {
        StorageNeedsKey(seen, call.series, k);
      }
    }
  }

  /** A bucket recorded is one value for every metric of its cluster that is kept. */
  lemma ClusterTally(metric: Metric, cs: ClusterStats, b: Bucket, c: Capacity, n: nat)
    requires metric.OfCluster() && cs.Valid() && metric.Measurable(c)
    ensures metric.InCluster(cs).Valid()
    ensures metric.InCluster(ClusterRecorded(cs, b, c, n))
      == if metric.Kept(b.Sum()) then Tallied(metric.InCluster(cs), metric.Value(c, b.Sum()), n) else metric.InCluster(cs)
  {
    hide Added, StatAdded, LogAdded;
  }

  /** A summed sample recorded is one value for every metric of its datastore that is kept. */
  lemma DatastoreTally(metric: Metric, d: IoStats, a: IoSample, c: Capacity, n: nat)
    requires !metric.OfCluster() && a.Valid()
    ensures metric.InDatastore(d).Valid()
    ensures metric.InDatastore(IoRecorded(d, a, n))
      == if metric.Kept(a.Sum()) then Tallied(metric.InDatastore(d), metric.Value(c, a.Sum()), n) else metric.InDatastore(d)
    ensures metric.Kept(a.Sum()) ==> a.Ok()
  {
    hide StatAdded, LogAdded;
  }

  /** One bucket is one value for its cluster, if it is kept. */
  lemma BucketRecords(metric: Metric, st: Stored, g: Gathered, capacity: map<string, Capacity>, n: nat, k: Key, name: string)
    requires metric.OfCluster() && AllClustersValid(st.clusters)
    requires metric.Measurable(CapacityOf(capacity, name))
    ensures
      var to := st.(clusters := ClusterStep(g.sum, capacity, n)(st.clusters, k));
      && AllClustersValid(to.clusters) && metric.At(st, name).Valid()
      && metric.At(to, name) == if k in Recording(metric, g, name)
         then Tallied(metric.At(st, name), metric.Value(CapacityOf(capacity, name), GatheredSum(metric, g, k)), n) else metric.At(st, name)
  {
    hide ClusterRecorded, Tallied, Metric.Value, Metric.InCluster, Metric.Kept, Metric.Measurable, NewCluster, Tally.Valid;
    var cs := ClusterEntry(st.clusters, name);
    ClusterTally(metric, cs, if k in g.sum then g.sum[k] else NO_BUCKET, CapacityOf(capacity, name), n);
  }

  /** One summed storage sample is one value for its datastore, if it is kept. */
  lemma SampleRecords(metric: Metric, st: Stored, g: Gathered, c: Capacity, n: nat, k: Key, name: string)
    requires !metric.OfCluster() && AllIoValid(g.io)
    ensures
      var to := st.(io := IoStep(g.io, n)(st.io, k));
      && metric.At(st, name).Valid()
      && metric.At(to, name) == if k in Recording(metric, g, name)
         then Tallied(metric.At(st, name), metric.Value(c, GatheredSum(metric, g, k)), n) else metric.At(st, name)
  {
    var a := if k in g.io then g.io[k] else NO_IO;
    assert a.Valid();
    assert k in Recording(metric, g, name) <==> k in g.io && k.name == name && metric.Kept(a.Sum());
    assert k in g.io ==> GatheredSum(metric, g, k) == a.Sum();
    EntryAfter(st.io, k, a, n, name);
    hide *;
    hide Metric.Value, Metric.InDatastore, Metric.Kept, IoSample.Valid, IoSample.Ok, IoSample.Sum, Tally.Valid;
    StepOrNot(g.io, n, st.io, k);
    DatastoreTally(metric, IoEntry(st.io, name), a, c, n);
  }

  lemma StepOrNot(samples: IoAt, n: nat, m: map<string, IoStats>, k: Key)
    ensures IoStep(samples, n)(m, k) == if k in samples then IoAfter(m, k, samples[k], n) else m
  {
    hide IoAfter;
  }

  lemma EntryAfter(m: map<string, IoStats>, k: Key, a: IoSample, n: nat, name: string)
    ensures IoEntry(IoAfter(m, k, a, n), name) == if a.Ok() && k.name == name then IoRecorded(IoEntry(m, name), a, n) else IoEntry(m, name)
  {
    hide IoRecorded;
  }

  lemma OneMoreValue(empty: Tally, before: seq<Ranks.Sample>, f: Key -> Ranks.Sample, order: seq<Key>, k: Key)
    requires empty.Valid()
    ensures TallyFold(empty, before + Stream(f, order + [k])) == Tallied(TallyFold(empty, before + Stream(f, order)), f(k).v, f(k).n)
  {
    StreamConcat(f, order, [k]);
    assert Stream(f, [k]) == [f(k)];
    TallySnoc(empty, before + Stream(f, order), f(k));
    assert before + (Stream(f, order) + [f(k)]) == (before + Stream(f, order)) + [f(k)];
  }

  /** One key more: the summary stays that of the values so far. */
  lemma OneMoreKey(metric: Metric, before: seq<Ranks.Sample>, g: Gathered, c: Capacity, n: nat, name: string, init: seq<Key>, k: Key,
                   was: Tally, now: Tally)
    requires was == TallyFold(metric.Empty(), before + Stream(Gave(metric, g, c, n), Among(init, Recording(metric, g, name))))
    requires was.Valid()
    requires now == if k in Recording(metric, g, name) then Tallied(was, metric.Value(c, GatheredSum(metric, g, k)), n) else was
    ensures now == TallyFold(metric.Empty(), before + Stream(Gave(metric, g, c, n), Among(init + [k], Recording(metric, g, name))))
  {
    var keys, f := Recording(metric, g, name), Gave(metric, g, c, n);
    assert (init + [k])[..|init|] == init;
    hide Recording, Stream, TallyFold, Tallied, Metric.Value, GatheredSum;
    OneMoreValue(metric.Empty(), before, f, Among(init, keys), k);
    assert Among(init, keys) + [] == Among(init, keys);
  }

  /** What the loop over the buckets records for a cluster. */
  lemma {:induction false} BucketsRecord(metric: Metric, st: Stored, g: Gathered, capacity: map<string, Capacity>, n: nat,
                                         order: seq<Key>, name: string, before: seq<Ranks.Sample>)
    requires metric.OfCluster() && AllClustersValid(st.clusters) && metric.Measurable(CapacityOf(capacity, name))
    requires metric.At(st, name) == TallyFold(metric.Empty(), before)
    ensures
      var to, c := st.(clusters := FoldSteps(st.clusters, ClusterStep(g.sum, capacity, n), order)), CapacityOf(capacity, name);
      && AllClustersValid(to.clusters)
      && metric.At(to, name)
         == TallyFold(metric.Empty(), before + Stream(Gave(metric, g, c, n), Among(order, Recording(metric, g, name))))
    decreases |order|
  {
    var c, step := CapacityOf(capacity, name), ClusterStep(g.sum, capacity, n);
    assert before + [] == before;
    hide Recording, TallyFold, Gave, CapacityOf, ClusterStep, AllClustersValid, Metric.At, Metric.Empty, Metric.Measurable, Metric.OfCluster;
    if order != [] {
      var init, k := order[..|order| - 1], order[|order| - 1];
      assert order == init + [k];
      BucketsRecord(metric, st, g, capacity, n, init, name, before);
      var mid := st.(clusters := FoldSteps(st.clusters, step, init));
      BucketRecords(metric, mid, g, capacity, n, k, name);
      var to := st.(clusters := FoldSteps(st.clusters, step, order));
      OneMoreKey(metric, before, g, c, n, name, init, k, metric.At(mid, name), metric.At(to, name));
    }
  }

  /** What is kept under a name is the summary of the values of an order. */
  ghost predicate Holds(metric: Metric, to: Stored, g: Gathered, c: Capacity, n: nat, order: seq<Key>, name: string,
                        before: seq<Ranks.Sample>) {
    metric.At(to, name) == TallyFold(metric.Empty(), before + Stream(Gave(metric, g, c, n), Among(order, Recording(metric, g, name))))
  }

  lemma SampleHolds(metric: Metric, mid: Stored, g: Gathered, c: Capacity, n: nat, init: seq<Key>, k: Key, name: string,
                    before: seq<Ranks.Sample>)
    requires !metric.OfCluster() && AllIoValid(g.io) && Holds(metric, mid, g, c, n, init, name, before)
    ensures Holds(metric, mid.(io := IoStep(g.io, n)(mid.io, k)), g, c, n, init + [k], name, before)
  {
    hide IoStep, TallyFold, Gave, Recording, Among, Stream, GatheredSum, AllIoValid;
    hide Metric.At, Metric.Empty, Metric.OfCluster, Metric.Value;
    SampleRecords(metric, mid, g, c, n, k, name);
    var to := mid.(io := IoStep(g.io, n)(mid.io, k));
    OneMoreKey(metric, before, g, c, n, name, init, k, metric.At(mid, name), metric.At(to, name));
  }

  /** What the loop over the summed samples records for a datastore. */
  lemma {:induction false} SamplesRecord(metric: Metric, st: Stored, g: Gathered, c: Capacity, n: nat,
                                         order: seq<Key>, name: string, before: seq<Ranks.Sample>)
    requires !metric.OfCluster() && AllIoValid(g.io)
    requires metric.At(st, name) == TallyFold(metric.Empty(), before)
    ensures Holds(metric, st.(io := FoldSteps(st.io, IoStep(g.io, n), order)), g, c, n, order, name, before)
    decreases |order|
  {
    hide Holds, IoStep, AllIoValid, TallyFold, Metric.At, Metric.Empty, Metric.OfCluster;
    if order == [] {
      NoSamples(metric, st, g, c, n, name, before);
    } else {
      var init, k := order[..|order| - 1], order[|order| - 1];
      assert order == init + [k];
      SamplesRecord(metric, st, g, c, n, init, name, before);
      SampleHolds(metric, st.(io := FoldSteps(st.io, IoStep(g.io, n), init)), g, c, n, init, k, name, before);
    }
  }

  lemma NoSamples(metric: Metric, st: Stored, g: Gathered, c: Capacity, n: nat, name: string, before: seq<Ranks.Sample>)
    requires metric.At(st, name) == TallyFold(metric.Empty(), before)
    ensures Holds(metric, st, g, c, n, [], name, before)
  {
    hide Gave, Recording, TallyFold, Metric.At, Metric.Empty, Stream, Among;
    NoValues(Gave(metric, g, c, n), Recording(metric, g, name));
    assert before + [] == before;
  }

  lemma NoValues(value: Key -> Ranks.Sample, keys: set<Key>)
    ensures Stream(value, Among([], keys)) == []
  {
  }

  /** The value that one call records for a timestamp: what the hosts of that call add up to. */
  ghost function SumOfCall(metric: Metric, seen: map<string, int>, call: Call): Key -> Ranks.Sample {
    (k: Key) => Ranks.Sample(metric.Value(CapacityOf(call.capacity, k.name), SumAt(metric, seen, call, k)), CallWeight(call.series))
  }

  lemma AtDepends(metric: Metric, a: Stored, b: Stored, name: string)
    requires if metric.OfCluster() then a.clusters == b.clusters else a.io == b.io
    ensures metric.At(a, name) == metric.At(b, name)
  {
  }

  lemma AllRecords(metric: Metric, m: Stored, g: Gathered, call: Call, order: seq<Key>, ioOrder: seq<Key>, name: string,
                   before: seq<Ranks.Sample>)
    requires AllClustersValid(m.clusters) && g.Valid() && metric.At(m, name) == TallyFold(metric.Empty(), before)
    requires metric.Measurable(CapacityOf(call.capacity, name))
    ensures
      var to, c := AllRecorded(m, g, call, order, ioOrder), CapacityOf(call.capacity, name);
      var keys := Among(if metric.OfCluster() then order else ioOrder, Recording(metric, g, name));
      AllClustersValid(to.clusters)
      && metric.At(to, name) == TallyFold(metric.Empty(), before + Stream(Gave(metric, g, c, CallWeight(call.series)), keys))
  {
    var w, c := CallWeight(call.series), CapacityOf(call.capacity, name);
    var to := AllRecorded(m, g, call, order, ioOrder);
    ClustersStayValid(m, g, call, order, name);
    hide Recording, TallyFold, Gave, CapacityOf, FoldSteps, ClusterStep, IoStep, Metric.At, Metric.Empty, Metric.Measurable, Metric.OfCluster;
    if metric.OfCluster() {
      BucketsRecord(metric, m, g, call.capacity, w, order, name, before);
      AtDepends(metric, to, m.(clusters := to.clusters), name);
    } else {
      SamplesRecord(metric, m, g, c, w, ioOrder, name, before);
      AtDepends(metric, to, m.(io := to.io), name);
    }
  }

  /** Recording keeps clusters valid. */
  lemma {:induction false} ClustersStayValid(m: Stored, g: Gathered, call: Call, order: seq<Key>, name: string)
    requires AllClustersValid(m.clusters)
    ensures AllClustersValid(FoldSteps(m.clusters, ClusterStep(g.sum, call.capacity, CallWeight(call.series)), order))
    decreases |order|
  {
    hide ClusterRecorded, ClusterEntry, CapacityOf;
    if order != [] {
      ClustersStayValid(m, g, call, order[..|order| - 1], name);
    }
  }

  lemma ValueNonNegative(metric: Metric, c: Capacity, v: Vec)
    requires metric.Measurable(c) && v.a >= 0.0 && v.b >= 0.0 && v.c >= 0.0 && v.d >= 0.0 && v.e >= 0.0
    ensures metric.Value(c, v) >= 0.0
  {
    match metric
    case CpuPercent => QuotientNonNegative(v.c, c.mhz);
    case MemPercent => QuotientNonNegative(v.d, c.memB);
    case Latency => if v.f > 0.0 { QuotientNonNegative(v.e, v.f); }
    case _ =>
  }

  lemma QuotientNonNegative(a: real, b: real)
    requires a >= 0.0 && b > 0.0
    ensures a / b >= 0.0
  {
  }

  lemma GaveNonNegative(metric: Metric, g: Gathered, c: Capacity, n: nat, order: seq<Key>)
    requires g.Valid() && metric.Measurable(c)
    ensures Ranks.NonNegative(Stream(Gave(metric, g, c, n), order))
  {
    var f := Gave(metric, g, c, n);
    hide GatheredSum, Metric.Value;
    forall k
      ensures f(k).v >= 0.0
    {
      GatheredNonNegative(metric, g, k);
      ValueNonNegative(metric, c, GatheredSum(metric, g, k));
    }
  }

  lemma GatheredNonNegative(metric: Metric, g: Gathered, k: Key)
    requires g.Valid()
    ensures var v := GatheredSum(metric, g, k); v.a >= 0.0 && v.b >= 0.0 && v.c >= 0.0 && v.d >= 0.0 && v.e >= 0.0
  {
    if metric.OfCluster() {
      assert k in g.sum ==> g.sum[k].Valid();
    } else {
      assert k in g.io ==> g.io[k].Valid();
    }
  }

  /**
   * One call adds to what is kept under a name one value per timestamp that it has
   * something to record for: what the hosts of that call add up to.
   */
  lemma CallRecordsSums(metric: Metric, m: Stored, seen: map<string, int>, call: Call, to: Stored, name: string,
                        before: seq<Ranks.Sample>) returns (order: seq<Key>)
    requires AllClustersValid(m.clusters) && metric.At(m, name) == TallyFold(metric.Empty(), before)
    requires CallLeaves(m, seen, call, to) && metric.Measurable(CapacityOf(call.capacity, name))
    ensures AllClustersValid(to.clusters) && Each(order, On(NewKeys(metric, seen, call), name))
    ensures Ranks.NonNegative(Stream(SumOfCall(metric, seen, call), order))
    ensures metric.At(to, name) == TallyFold(metric.Empty(), before + Stream(SumOfCall(metric, seen, call), order))
  {
    hide *;
    hide Metric.At, Metric.Empty, Metric.OfCluster, Metric.Measurable, Metric.Value, Metric.Kept, Gathered.Valid;
    var g, bucketOrder, ioOrder := LeftBy(m, seen, call, to);
    var keys, c, n := Recording(metric, g, name), CapacityOf(call.capacity, name), CallWeight(call.series);
    var all := OrderOf(metric, g, bucketOrder, ioOrder);
    GatheredIs(g, seen, call.series, call.hostCluster);
    order := Among(all, keys);
    AllRecords(metric, m, g, call, bucketOrder, ioOrder, name, before);
    AmongEach(all, Gathered'(metric, g), keys);
    RecordingWithin(metric, g, name);
    RecordingIs(metric, g, seen, call, name);
    GaveNonNegative(metric, g, c, n, order);
    GaveIsSum(metric, g, seen, call, name, order);
  }

  lemma LeftBy(m: Stored, seen: map<string, int>, call: Call, to: Stored) returns (g: Gathered, order: seq<Key>, ioOrder: seq<Key>)
    requires CallLeaves(m, seen, call, to)
    ensures IsGathered(g, seen, call.series, call.hostCluster)
    ensures Each(order, g.sum.Keys) && Each(ioOrder, g.io.Keys) && to == AllRecorded(m, g, call, order, ioOrder)
  {
    hide IsGathered, AllRecorded, Each;
    g, order, ioOrder :|
      && IsGathered(g, seen, call.series, call.hostCluster)
      && Each(order, g.sum.Keys) && Each(ioOrder, g.io.Keys)
      && to == AllRecorded(m, g, call, order, ioOrder);
  }

  /** The order that matters for a metric. */
  lemma OrderOf(metric: Metric, g: Gathered, order: seq<Key>, ioOrder: seq<Key>) returns (all: seq<Key>)
    requires Each(order, g.sum.Keys) && Each(ioOrder, g.io.Keys)
    ensures all == (if metric.OfCluster() then order else ioOrder) && Each(all, Gathered'(metric, g))
  {
    all := if metric.OfCluster() then order else ioOrder;
  }

  lemma RecordingWithin(metric: Metric, g: Gathered, name: string)
    ensures Gathered'(metric, g) * Recording(metric, g, name) == Recording(metric, g, name)
  {
  }

  lemma GaveIsSum(metric: Metric, g: Gathered, seen: map<string, int>, call: Call, name: string, order: seq<Key>)
    requires IsGathered(g, seen, call.series, call.hostCluster) && Each(order, On(NewKeys(metric, seen, call), name))
    ensures Stream(Gave(metric, g, CapacityOf(call.capacity, name), CallWeight(call.series)), order)
         == Stream(SumOfCall(metric, seen, call), order)
  {
    var f, h := Gave(metric, g, CapacityOf(call.capacity, name), CallWeight(call.series)), SumOfCall(metric, seen, call);
    assert forall k :: k in order ==> k.name == name;
    hide Each, NewKeys, GatheredSum, SumAt, IsGathered, Metric.Value, CapacityOf, CallWeight, Stream, On;
    forall k | k in order
      ensures f(k) == h(k)
    {
      GatheredSumIs(metric, g, seen, call, k);
    }
    StreamSame(f, h, order);
  }

  // ------------------------------------------------------------------- runs of calls

  ghost function KeysAt(metric: Metric, seen: map<string, int>, calls: seq<Call>, i: nat): set<Key>
    requires i < |calls|
  {
    NewKeys(metric, SeenAfter(seen, calls[..i]), calls[i])
  }

  /** The timestamps of one name over a run. */
  ghost function KeysOver(metric: Metric, seen: map<string, int>, calls: seq<Call>, name: string): set<Key> {
    if calls == [] then {}
    else
      var init := calls[..|calls| - 1];
      KeysOver(metric, seen, init, name) + On(NewKeys(metric, SeenAfter(seen, init), calls[|calls| - 1]), name)
  }

  /** What the samples of all hosts at one time add up to, whichever calls they came in. */
  ghost function RunSum(metric: Metric, seen: map<string, int>, calls: seq<Call>, k: Key): Vec {
    if calls == [] then NONE
    else
      var init, call := calls[..|calls| - 1], calls[|calls| - 1];
      RunSum(metric, seen, init, k).Plus(SumAt(metric, SeenAfter(seen, init), call, k))
  }

  /** The first call with something to record for a name and time; its capacity and weight are taken. */
  ghost function FirstCall(metric: Metric, seen: map<string, int>, calls: seq<Call>, k: Key): Call
    requires calls != []
  {
    var init := calls[..|calls| - 1];
    if k in KeysOver(metric, seen, init, k.name) then FirstCall(metric, seen, init, k) else calls[|calls| - 1]
  }

  /** One value per timestamp: all hosts over the whole run. */
  ghost function SumOverRun(metric: Metric, seen: map<string, int>, calls: seq<Call>): Key -> Ranks.Sample {
    (k: Key) =>
      if calls == [] then Ranks.Sample(0.0, 0)
      else
        var call := FirstCall(metric, seen, calls, k);
        Ranks.Sample(metric.Value(CapacityOf(call.capacity, k.name), RunSum(metric, seen, calls, k)), CallWeight(call.series))
  }

  /** A percentage is kept of a cluster that has capacity in every call. */
  ghost predicate HasCapacity(metric: Metric, calls: seq<Call>, name: string) {
    forall i :: 0 <= i < |calls| ==> metric.Measurable(CapacityOf(calls[i].capacity, name))
  }

  /** No timestamp has something to record in two calls. */
  ghost predicate EachInOneCall(metric: Metric, seen: map<string, int>, calls: seq<Call>, name: string) {
    forall i, j, k :: 0 <= i < j < |calls| && k in KeysAt(metric, seen, calls, i) && k in KeysAt(metric, seen, calls, j) ==> k.name != name
  }

  lemma {:induction false} KeysOverMembers(metric: Metric, seen: map<string, int>, calls: seq<Call>, name: string, k: Key)
    ensures k in KeysOver(metric, seen, calls, name) <==> k.name == name && exists i :: 0 <= i < |calls| && k in KeysAt(metric, seen, calls, i)
  {
    hide NewKeys, SeenAfter, KeysAt;
    if calls != [] {
      KeysOverMembers(metric, seen, calls[..|calls| - 1], name, k);
      KeysOfInit(metric, seen, calls);
    }
  }

  lemma KeysOfInit(metric: Metric, seen: map<string, int>, calls: seq<Call>)
    requires calls != []
    ensures var init := calls[..|calls| - 1];
      && (forall i :: 0 <= i < |init| ==> KeysAt(metric, seen, calls, i) == KeysAt(metric, seen, init, i))
      && KeysAt(metric, seen, calls, |init|) == NewKeys(metric, SeenAfter(seen, init), calls[|init|])
  {
    hide NewKeys, SeenAfter;
    var init := calls[..|calls| - 1];
    assert forall i :: 0 <= i < |init| ==> init[..i] == calls[..i];
  }

  lemma BroughtBefore(metric: Metric, seen: map<string, int>, calls: seq<Call>, name: string, k: Key)
    requires calls != [] && EachInOneCall(metric, seen, calls, name) && k in KeysOver(metric, seen, calls[..|calls| - 1], name)
    ensures k !in KeysAt(metric, seen, calls, |calls| - 1)
  {
    hide KeysAt, KeysOver;
    KeysOfInit(metric, seen, calls);
    KeysOverMembers(metric, seen, calls[..|calls| - 1], name, k);
    var i :| 0 <= i < |calls| - 1 && k in KeysAt(metric, seen, calls[..|calls| - 1], i);
    assert k in KeysAt(metric, seen, calls, i);
  }

  lemma BroughtOnce(metric: Metric, seen: map<string, int>, calls: seq<Call>, name: string, i: nat, j: nat, k: Key)
    requires calls != [] && i < j < |calls| && k in KeysAt(metric, seen, calls, i) && k in KeysAt(metric, seen, calls, j)
    requires var init := calls[..|calls| - 1];
      EachInOneCall(metric, seen, init, name) && KeysOver(metric, seen, init, name) !! On(KeysAt(metric, seen, calls, |init|), name)
    ensures k.name != name
  {
    hide KeysAt, KeysOver;
    var init := calls[..|calls| - 1];
    var last := KeysAt(metric, seen, calls, |init|);
    assert k in On(last, name) <==> k in last && k.name == name;
    KeysOfInit(metric, seen, calls);
    KeysOverMembers(metric, seen, init, name, k);
    assert k in KeysAt(metric, seen, init, i);
  }

  /** One more call keeps every timestamp in one call if it brings none that was there before. */
  lemma OneCallMore(metric: Metric, seen: map<string, int>, calls: seq<Call>, name: string)
    requires calls != []
    ensures var init := calls[..|calls| - 1];
      EachInOneCall(metric, seen, calls, name) <==>
        EachInOneCall(metric, seen, init, name) && KeysOver(metric, seen, init, name) !! On(NewKeys(metric, SeenAfter(seen, init), calls[|calls| - 1]), name)
  {
    hide KeysAt, KeysOver, NewKeys, SeenAfter;
    var init := calls[..|calls| - 1];
    KeysOfInit(metric, seen, calls);
    var apart := KeysOver(metric, seen, init, name) !! On(KeysAt(metric, seen, calls, |init|), name);
    if EachInOneCall(metric, seen, calls, name) {
      forall i, j, k | 0 <= i < j < |init| && k in KeysAt(metric, seen, init, i) && k in KeysAt(metric, seen, init, j)
        ensures k.name != name
      {
        assert k in KeysAt(metric, seen, calls, i) && k in KeysAt(metric, seen, calls, j);
      }
      forall k | k in KeysOver(metric, seen, init, name)
        ensures k !in On(KeysAt(metric, seen, calls, |init|), name)
      {
        BroughtBefore(metric, seen, calls, name, k);
      }
    } else if EachInOneCall(metric, seen, init, name) && apart {
      forall i, j, k | 0 <= i < j < |calls| && k in KeysAt(metric, seen, calls, i) && k in KeysAt(metric, seen, calls, j)
        ensures k.name != name
      {
        BroughtOnce(metric, seen, calls, name, i, j, k);
      }
    }
  }

  /** Nothing to record. */
  ghost predicate Quiet(metric: Metric, v: Vec) {
    v == NONE || !metric.Kept(v)
  }

  lemma QuietPlus(metric: Metric, v: Vec, w: Vec)
    requires metric.Additive() && Sound(metric, v) && Sound(metric, w) && Quiet(metric, v) && Quiet(metric, w)
    ensures Quiet(metric, v.Plus(w))
  {
    PlusLaws(v, NONE, NONE);
    PlusLaws(v, w, NONE);
    PlusLaws(w, NONE, NONE);
    hide Vec.Plus, Metric.Kept, Metric.Additive, Sound;
    KeptEither(metric, v, w);
  }

  lemma {:induction false} RunSound(metric: Metric, seen: map<string, int>, calls: seq<Call>, k: Key)
    requires metric.Additive()
    ensures Sound(metric, RunSum(metric, seen, calls, k))
    ensures k !in KeysOver(metric, seen, calls, k.name) ==> Quiet(metric, RunSum(metric, seen, calls, k))
  {
    hide SumAt, NewKeys, Vec.Plus, Sound, Metric.Kept, Metric.Additive;
    if calls == [] {
      NothingSound(metric);
    } else {
      var init, call := calls[..|calls| - 1], calls[|calls| - 1];
      var mid := SeenAfter(seen, init);
      var v, w := RunSum(metric, seen, init, k), SumAt(metric, mid, call, k);
      RunSound(metric, seen, init, k);
      SumSound(metric, mid, call, k);
      KeptEither(metric, v, w);
      if k !in KeysOver(metric, seen, calls, k.name) {
        QuietNeedsKey(metric, mid, call, k);
        QuietPlus(metric, v, w);
      }
    }
  }

  lemma NoCallsNoKeys(metric: Metric, seen: map<string, int>, name: string)
    ensures KeysOver(metric, seen, [], name) == {}
  {
  }

  /** What one more call makes of the value of a timestamp. */
  lemma SumGrows(metric: Metric, seen: map<string, int>, calls: seq<Call>, k: Key)
    requires calls != [] && metric.Additive()
    ensures
      var init, call := calls[..|calls| - 1], calls[|calls| - 1];
      var mid := SeenAfter(seen, init);
      var was, now := SumOverRun(metric, seen, init)(k), SumOverRun(metric, seen, calls)(k);
      if k in KeysOver(metric, seen, init, k.name) then now.n == was.n && (k !in NewKeys(metric, mid, call) ==> now == was)
      else now == SumOfCall(metric, mid, call)(k)
  {
    hide SumAt, NewKeys, Metric.Value, Metric.Kept, Metric.Additive, Sound, Vec.Plus, CallWeight, CapacityOf;
    var init, call := calls[..|calls| - 1], calls[|calls| - 1];
    var mid := SeenAfter(seen, init);
    var v, w := RunSum(metric, seen, init, k), SumAt(metric, mid, call, k);
    RunSound(metric, seen, init, k);
    SumSound(metric, mid, call, k);
    var c := CapacityOf(FirstCall(metric, seen, calls, k).capacity, k.name);
    if k in KeysOver(metric, seen, init, k.name) {
      NoCallsNoKeys(metric, seen, k.name);
      if k !in NewKeys(metric, mid, call) {
        QuietNeedsKey(metric, mid, call, k);
        QuietAddsNothing(metric, c, v, w);
      }
    } else {
      PlusLaws(v, w, NONE);
      QuietAddsNothing(metric, c, w, v);
    }
  }

  // --------------------------------------------------------- what a run records

  lemma KeysNamed(metric: Metric, seen: map<string, int>, calls: seq<Call>, name: string)
    ensures forall k :: k in KeysOver(metric, seen, calls, name) ==> k.name == name
  {
    hide KeysOver, KeysAt;
    forall k
      ensures k in KeysOver(metric, seen, calls, name) ==> k.name == name
    {
      KeysOverMembers(metric, seen, calls, name, k);
    }
  }

  lemma SumsGrow(metric: Metric, seen: map<string, int>, calls: seq<Call>, name: string)
    requires metric.Additive() && calls != []
    ensures
      var init, call := calls[..|calls| - 1], calls[|calls| - 1];
      var mid := SeenAfter(seen, init);
      Grows(SumOverRun(metric, seen, init), SumOverRun(metric, seen, calls), SumOfCall(metric, mid, call),
            KeysOver(metric, seen, init, name), On(NewKeys(metric, mid, call), name))
  {
    var init, call := calls[..|calls| - 1], calls[|calls| - 1];
    var mid := SeenAfter(seen, init);
    var was, here := KeysOver(metric, seen, init, name), On(NewKeys(metric, mid, call), name);
    var f0, f, h := SumOverRun(metric, seen, init), SumOverRun(metric, seen, calls), SumOfCall(metric, mid, call);
    hide *;
    hide Metric.Additive;
    forall k: Key
      ensures k in was ==> f(k).n == f0(k).n && (k !in here ==> f(k) == f0(k))
      ensures k in here && k !in was ==> f(k) == h(k)
    {
      SumGrowsAt(metric, seen, calls, name, k);
    }
    GrowsIs(f0, f, h, was, here);
  }

  lemma SumGrowsAt(metric: Metric, seen: map<string, int>, calls: seq<Call>, name: string, k: Key)
    requires metric.Additive() && calls != []
    ensures
      var init, call := calls[..|calls| - 1], calls[|calls| - 1];
      var mid := SeenAfter(seen, init);
      var was, here := KeysOver(metric, seen, init, name), On(NewKeys(metric, mid, call), name);
      var f0, f, h := SumOverRun(metric, seen, init), SumOverRun(metric, seen, calls), SumOfCall(metric, mid, call);
      && (k in was ==> f(k).n == f0(k).n && (k !in here ==> f(k) == f0(k)))
      && (k in here && k !in was ==> f(k) == h(k))
  {
    var init, call := calls[..|calls| - 1], calls[|calls| - 1];
    var brought := NewKeys(metric, SeenAfter(seen, init), call);
    assert k in On(brought, name) <==> k in brought && k.name == name;
    hide *;
    hide Metric.Additive;
    KeysNamed(metric, seen, init, name);
    SumGrows(metric, seen, calls, k);
  }

  lemma KeysGrow(metric: Metric, seen: map<string, int>, calls: seq<Call>, name: string)
    requires calls != []
    ensures var init, call := calls[..|calls| - 1], calls[|calls| - 1];
      var mid := SeenAfter(seen, init);
      var was, here := KeysOver(metric, seen, init, name), On(NewKeys(metric, mid, call), name);
      was + (here - was) == KeysOver(metric, seen, calls, name) && forall k :: SumOfCall(metric, mid, call)(k).n >= 1
  {
    hide NewKeys, On, SumAt, Metric.Value;
  }

  /** One more call: each of its timestamps is a new value, or, if there was one already, a value too many. */
  lemma OneMoreCall(metric: Metric, seen: map<string, int>, calls: seq<Call>, name: string,
                    recorded: seq<Ranks.Sample>, done: seq<Key>, here: seq<Key>) returns (order: seq<Key>)
    requires metric.Additive() && calls != []
    requires var init := calls[..|calls| - 1];
      && Each(done, KeysOver(metric, seen, init, name))
      && Recorded(recorded, Stream(SumOverRun(metric, seen, init), done), EachInOneCall(metric, seen, init, name))
    requires var mid, call := SeenAfter(seen, calls[..|calls| - 1]), calls[|calls| - 1];
      && Each(here, On(NewKeys(metric, mid, call), name)) && Ranks.NonNegative(Stream(SumOfCall(metric, mid, call), here))
    ensures var mid, call := SeenAfter(seen, calls[..|calls| - 1]), calls[|calls| - 1];
      && Each(order, KeysOver(metric, seen, calls, name))
      && Recorded(recorded + Stream(SumOfCall(metric, mid, call), here), Stream(SumOverRun(metric, seen, calls), order),
                  EachInOneCall(metric, seen, calls, name))
  {
    var init, call := calls[..|calls| - 1], calls[|calls| - 1];
    var mid := SeenAfter(seen, init);
    hide *;
    hide Metric.Additive;
    KeysGrow(metric, seen, calls, name);
    SumsGrow(metric, seen, calls, name);
    OneCallMore(metric, seen, calls, name);
    order := MoreRecorded(recorded, SumOverRun(metric, seen, init), SumOverRun(metric, seen, calls), SumOfCall(metric, mid, call),
                          KeysOver(metric, seen, init, name), On(NewKeys(metric, mid, call), name), done, here,
                          EachInOneCall(metric, seen, init, name));
  }

  /** One more call after those that left `mid`. */
  lemma CallMore(metric: Metric, mid: Stored, seen: map<string, int>, calls: seq<Call>, to: Stored,
                 name: string, before: seq<Ranks.Sample>, old': seq<Ranks.Sample>, done: seq<Key>)
    returns (recorded: seq<Ranks.Sample>, order: seq<Key>)
    requires metric.Additive() && calls != [] && AllClustersValid(mid.clusters) && metric.At(mid, name) == TallyFold(metric.Empty(), before + old')
    requires var init, call := calls[..|calls| - 1], calls[|calls| - 1];
      && CallLeaves(mid, SeenAfter(seen, init), call, to) && metric.Measurable(CapacityOf(call.capacity, name))
      && Each(done, KeysOver(metric, seen, init, name))
      && Recorded(old', Stream(SumOverRun(metric, seen, init), done), EachInOneCall(metric, seen, init, name))
    ensures AllClustersValid(to.clusters) && metric.At(to, name) == TallyFold(metric.Empty(), before + recorded)
    ensures Each(order, KeysOver(metric, seen, calls, name))
    ensures Recorded(recorded, Stream(SumOverRun(metric, seen, calls), order), EachInOneCall(metric, seen, calls, name))
  {
    hide *;
    hide Metric.At, Metric.Empty, Metric.OfCluster, Metric.Measurable, Metric.Value, Metric.Kept, Metric.Additive;
    var init, call := calls[..|calls| - 1], calls[|calls| - 1];
    var now := SeenAfter(seen, init);
    var here := CallRecordsSums(metric, mid, now, call, to, name, before + old');
    var added := Stream(SumOfCall(metric, now, call), here);
    order := OneMoreCall(metric, seen, calls, name, old', done, here);
    recorded := old' + added;
    assert before + recorded == (before + old') + added;
  }

  /** What a run has made of the summary of `before`: that of the recorded values too, set beside the sums of its keys. */
  ghost predicate RunRecorded(metric: Metric, seen: map<string, int>, calls: seq<Call>, to: Stored, name: string,
                              before: seq<Ranks.Sample>, recorded: seq<Ranks.Sample>, order: seq<Key>)
  {
    && AllClustersValid(to.clusters) && metric.At(to, name) == TallyFold(metric.Empty(), before + recorded)
    && Each(order, KeysOver(metric, seen, calls, name))
    && Recorded(recorded, Stream(SumOverRun(metric, seen, calls), order), EachInOneCall(metric, seen, calls, name))
  }

  lemma NoCalls(metric: Metric, m: Stored, seen: map<string, int>, name: string, before: seq<Ranks.Sample>)
    requires AllClustersValid(m.clusters) && metric.At(m, name) == TallyFold(metric.Empty(), before)
    ensures RunRecorded(metric, seen, [], m, name, before, [], [])
  {
    hide AllClustersValid, TallyFold, Each, KeysOver, Recorded, Stream, EachInOneCall, SumOverRun, Metric.At, Metric.Empty;
    NothingRecorded(metric, seen, name);
    assert before + [] == before;
  }

  lemma RunThenCall(metric: Metric, mid: Stored, seen: map<string, int>, calls: seq<Call>, to: Stored,
                    name: string, before: seq<Ranks.Sample>, old': seq<Ranks.Sample>, done: seq<Key>)
    returns (recorded: seq<Ranks.Sample>, order: seq<Key>)
    requires metric.Additive() && calls != [] && RunRecorded(metric, seen, calls[..|calls| - 1], mid, name, before, old', done)
    requires var call := calls[|calls| - 1];
      CallLeaves(mid, SeenAfter(seen, calls[..|calls| - 1]), call, to) && metric.Measurable(CapacityOf(call.capacity, name))
    ensures RunRecorded(metric, seen, calls, to, name, before, recorded, order)
  {
    hide AllClustersValid, TallyFold, Each, KeysOver, Recorded, Stream, EachInOneCall, SumOverRun, CallLeaves, SeenAfter,
         CapacityOf, Metric.At, Metric.Empty, Metric.Measurable, Metric.Additive;
    recorded, order := CallMore(metric, mid, seen, calls, to, name, before, old', done);
  }

  /** What a run records for a cluster, and the keys it compares with. */
  lemma {:induction false} RunRecords(metric: Metric, m: Stored, seen: map<string, int>, calls: seq<Call>, to: Stored,
                                      name: string, before: seq<Ranks.Sample>)
    returns (recorded: seq<Ranks.Sample>, order: seq<Key>)
    requires metric.Additive() && AllClustersValid(m.clusters) && metric.At(m, name) == TallyFold(metric.Empty(), before)
    requires RunLeaves(m, seen, calls, to) && HasCapacity(metric, calls, name)
    ensures RunRecorded(metric, seen, calls, to, name, before, recorded, order)
  {
    assert calls == [] ==> to == m;
    CapacityOfCalls(metric, calls, name);
    hide *;
    hide Metric.At, Metric.Empty, Metric.OfCluster, Metric.Measurable, Metric.Value, Metric.Kept, Metric.Additive;
    if calls == [] {
      recorded, order := [], [];
      NoCalls(metric, m, seen, name, before);
    } else {
      var mid := LastCall(m, seen, calls, to);
      var old', done := RunRecords(metric, m, seen, calls[..|calls| - 1], mid, name, before);
      recorded, order := RunThenCall(metric, mid, seen, calls, to, name, before, old', done);
    }
  }

  lemma RecordedKeys(metric: Metric, seen: map<string, int>, calls: seq<Call>, to: Stored, name: string,
                     before: seq<Ranks.Sample>, recorded: seq<Ranks.Sample>, order: seq<Key>)
    requires RunRecorded(metric, seen, calls, to, name, before, recorded, order)
    ensures Each(order, KeysOver(metric, seen, calls, name))
  {
    hide AllClustersValid, TallyFold, Each, KeysOver, Recorded, Stream, EachInOneCall, SumOverRun, Metric.At, Metric.Empty;
  }

  lemma CapacityOfCalls(metric: Metric, calls: seq<Call>, name: string)
    requires HasCapacity(metric, calls, name)
    ensures calls != [] ==>
      metric.Measurable(CapacityOf(calls[|calls| - 1].capacity, name)) && HasCapacity(metric, calls[..|calls| - 1], name)
  {
  }

  lemma LastCall(m: Stored, seen: map<string, int>, calls: seq<Call>, to: Stored)
    returns (mid: Stored)
    requires RunLeaves(m, seen, calls, to) && calls != []
    ensures var init := calls[..|calls| - 1];
      RunLeaves(m, seen, init, mid) && CallLeaves(mid, SeenAfter(seen, init), calls[|calls| - 1], to)
  {
    hide CallLeaves, SeenAfter;
    var init := calls[..|calls| - 1];
    mid :| RunLeaves(m, seen, init, mid) && CallLeaves(mid, SeenAfter(seen, init), calls[|calls| - 1], to);
  }

  /** An empty store holds the summaries of nothing. */
  lemma NothingHeld(metric: Metric, name: string)
    ensures AllClustersValid(NOTHING_STORED.clusters) && metric.At(NOTHING_STORED, name) == TallyFold(metric.Empty(), [])
  {
    hide ClusterEntry, IoEntry, EmptyHist, Metric.InCluster, Metric.InDatastore, Metric.Empty, NewCluster;
    NoEntries(name);
    EmptyCluster(metric);
    EmptyDatastore(metric);
  }

  lemma EmptyCluster(metric: Metric)
    ensures metric.OfCluster() ==> metric.InCluster(NewCluster()) == metric.Empty()
  {
    hide EmptyHist;
  }

  lemma EmptyDatastore(metric: Metric)
    ensures !metric.OfCluster() ==> metric.InDatastore(NO_IO_STATS) == metric.Empty()
  {
    hide EmptyHist;
  }

  lemma NoEntries(name: string)
    ensures ClusterEntry(map[], name) == NewCluster() && IoEntry(map[], name) == NO_IO_STATS
  {
  }

  lemma NothingRecorded(metric: Metric, seen: map<string, int>, name: string)
    ensures Each([], KeysOver(metric, seen, [], name)) && EachInOneCall(metric, seen, [], name)
    ensures Recorded([], Stream(SumOverRun(metric, seen, []), []), true)
  {
    assert Stream(SumOverRun(metric, seen, []), []) == [];
  }

  /**
   * Over any run of calls, what is kept of a cluster or a datastore is the summary of
   * one value per timestamp, all hosts over the whole run, if and only if every
   * timestamp has what there is to record in one call.
   */
  lemma SumsIff(metric: Metric, m: Stored, seen: map<string, int>, calls: seq<Call>, to: Stored,
                name: string, before: seq<Ranks.Sample>, order: seq<Key>)
    requires metric.Additive() && AllClustersValid(m.clusters) && metric.At(m, name) == TallyFold(metric.Empty(), before)
    requires RunLeaves(m, seen, calls, to) && HasCapacity(metric, calls, name)
    requires Each(order, KeysOver(metric, seen, calls, name))
    ensures AllClustersValid(to.clusters)
    ensures metric.At(to, name) == TallyFold(metric.Empty(), before + Stream(SumOverRun(metric, seen, calls), order))
      <==> EachInOneCall(metric, seen, calls, name)
  {
    var recorded, some := RunRecords(metric, m, seen, calls, to, name, before);
    assert RunRecorded(metric, seen, calls, to, name, before, recorded, some);
    hide *;
    hide Metric.At, Metric.Empty, Metric.OfCluster, Metric.Additive;
    var once, f := EachInOneCall(metric, seen, calls, name), SumOverRun(metric, seen, calls);
    StreamAnyOrder(f, some, order, KeysOver(metric, seen, calls, name));
    AdditiveCounts(metric);
    SameOrMore(metric.Empty(), before, recorded, Stream(f, some), Stream(f, order), once);
  }

  lemma AdditiveCounts(metric: Metric)
    ensures metric.Additive() ==> !metric.Empty().Amount?
  {
  }

  /** Recorded values make the same summary as the sums they are compared with, or one of more values. */
  lemma SameOrMore(empty: Tally, before: seq<Ranks.Sample>, recorded: seq<Ranks.Sample>, some: seq<Ranks.Sample>,
                   sums: seq<Ranks.Sample>, once: bool)
    requires empty.Valid() && !empty.Amount? && Recorded(recorded, some, once) && multiset(some) == multiset(sums)
    ensures TallyFold(empty, before + recorded) == TallyFold(empty, before + sums) <==> once
  {
    hide TallyFold, Ranks.Total, Tally.Valid;
    TotalAnyOrder(some, sums);
    if once {
      TallyAnyOrder(empty, before + recorded, before + sums);
    } else {
      TallyNumber(empty, before, recorded);
      TallyNumber(empty, before, sums);
    }
  }

  /** In particular a run from an empty store. */
  lemma SumsFromNothing(metric: Metric, calls: seq<Call>, to: Stored, name: string, order: seq<Key>)
    requires metric.Additive() && RunLeaves(NOTHING_STORED, map[], calls, to) && HasCapacity(metric, calls, name)
    requires Each(order, KeysOver(metric, map[], calls, name))
    ensures metric.At(to, name) == TallyFold(metric.Empty(), Stream(SumOverRun(metric, map[], calls), order))
      <==> EachInOneCall(metric, map[], calls, name)
  {
    hide *;
    hide Metric.At, Metric.Empty, Metric.Additive;
    NothingHeld(metric, name);
    SumsIff(metric, NOTHING_STORED, map[], calls, to, name, [], order);
    var sums := Stream(SumOverRun(metric, map[], calls), order);
    assert [] + sums == sums;
  }

  /** ... so the rates of a datastore, of all of them, or of a cluster are never under-reported: sums of all hosts, per timestamp. */
  lemma RatesNotBelow(metric: Metric, calls: seq<Call>, to: Stored, name: string, order: seq<Key>, p: real, x: real, e: nat)
    requires metric in {Ops, Kb, Latency, ClusterOps, ClusterKb, Network}
    requires RunLeaves(NOTHING_STORED, map[], calls, to) && EachInOneCall(metric, map[], calls, name)
    requires Each(order, KeysOver(metric, map[], calls, name))
    requires var sums := Stream(SumOverRun(metric, map[], calls), order); Floats(sums, e) && ExactLogPct(sums, p, x)
    ensures var sums := Stream(SumOverRun(metric, map[], calls), order);
      && metric.At(to, name) == Rates(LogFold(sums))
      && x <= LogPctOf(metric.At(to, name).l, p) <= LogFold(sums).max
  {
    var sums := Stream(SumOverRun(metric, map[], calls), order);
    TallyIs(sums);
    assert metric.Empty() == NO_RATES && metric.Additive() && HasCapacity(metric, calls, name);
    hide *;
    hide Metric.At, Metric.Empty, Metric.Additive;
    SumsFromNothing(metric, calls, to, name, order);
    LogPctNotBelow(sums, p, x, e);
  }

  // ------------------------------------------------------ a run against a single call

  /** All series of a run. */
  ghost function Joined(calls: seq<Call>): seq<Series> {
    if calls == [] then [] else Joined(calls[..|calls| - 1]) + calls[|calls| - 1].series
  }

  /** The calls of a run differ in their series only. */
  ghost predicate Alike(calls: seq<Call>, hostCluster: map<string, string>, capacity: map<string, Capacity>, n: nat) {
    forall i :: 0 <= i < |calls| ==>
      calls[i].hostCluster == hostCluster && calls[i].capacity == capacity && CallWeight(calls[i].series) == n
  }

  lemma {:induction false} JoinedWeight(calls: seq<Call>, hostCluster: map<string, string>, capacity: map<string, Capacity>, n: nat)
    requires Alike(calls, hostCluster, capacity, n) && calls != []
    ensures CallWeight(Joined(calls)) == n
  {
    var init, last := calls[..|calls| - 1], calls[|calls| - 1];
    if init == [] {
      assert Joined(calls) == last.series;
    } else {
      JoinedWeight(init, hostCluster, capacity, n);
    }
  }

  /** A call records for a name and time what it keeps there. */
  lemma NewKeysAre(metric: Metric, seen: map<string, int>, call: Call, k: Key)
    ensures k in NewKeys(metric, seen, call) <==>
      metric.Kept(SumAt(metric, seen, call, k)) && (metric.OfCluster() ==> k in Keys(seen, call.series, call.hostCluster))
  {
    hide Keys, IoKeys, Storage, Demand;
    if !metric.OfCluster() && k !in IoKeys(call.series) {
      StorageNeedsKey(seen, call.series, k);
    }
  }

  lemma KeyOfEither(metric: Metric, seen: map<string, int>, one: Call, two: Call, k: Key)
    requires metric.Additive() && one.hostCluster == two.hostCluster
    ensures
      var mid, both := AllSeen(seen, one.series), Call(one.series + two.series, one.hostCluster, one.capacity);
      && SumAt(metric, seen, both, k) == SumAt(metric, seen, one, k).Plus(SumAt(metric, mid, two, k))
      && (k in NewKeys(metric, seen, both) <==> k in NewKeys(metric, seen, one) || k in NewKeys(metric, mid, two))
  {
    var mid, both := AllSeen(seen, one.series), Call(one.series + two.series, one.hostCluster, one.capacity);
    CallsAddUp(seen, one.series, two.series, one.hostCluster, IoMoment(k), Moment(k));
    hide AllSeen, Keys, Demand, Storage, Vec.Plus, NewKeys;
    SumSound(metric, seen, one, k);
    SumSound(metric, mid, two, k);
    KeptEither(metric, SumAt(metric, seen, one, k), SumAt(metric, mid, two, k));
    NewKeysAre(metric, seen, one, k);
    NewKeysAre(metric, mid, two, k);
    NewKeysAre(metric, seen, both, k);
    if metric.OfCluster() {
      if k !in Keys(seen, one.series, one.hostCluster) {
        DemandNeedsKey(seen, one.series, one.hostCluster, k);
      }
      if k !in Keys(mid, two.series, two.hostCluster) {
        DemandNeedsKey(mid, two.series, two.hostCluster, k);
      }
    }
  }

  lemma {:induction false} JoinedIs(metric: Metric, seen: map<string, int>, calls: seq<Call>, hostCluster: map<string, string>,
                                    capacity: map<string, Capacity>, n: nat, k: Key)
    requires metric.Additive() && Alike(calls, hostCluster, capacity, n)
    ensures SeenAfter(seen, calls) == AllSeen(seen, Joined(calls))
    ensures var all := Call(Joined(calls), hostCluster, capacity);
      && (k in KeysOver(metric, seen, calls, k.name) <==> k in NewKeys(metric, seen, all))
      && RunSum(metric, seen, calls, k) == SumAt(metric, seen, all, k)
  {
    if calls == [] {
      NothingJoined(metric, seen, hostCluster, capacity, k);
    } else {
      var init, call := calls[..|calls| - 1], calls[|calls| - 1];
      JoinedIs(metric, seen, init, hostCluster, capacity, n, k);
      hide AllSeen, SumAt, NewKeys, Vec.Plus, Metric.Additive;
      KeyOfEither(metric, seen, Call(Joined(init), hostCluster, capacity), call, k);
      SeenTwice(seen, Joined(init), call.series);
    }
  }

  lemma SeenTwice(seen: map<string, int>, one: seq<Series>, two: seq<Series>)
    ensures AllSeen(seen, one + two) == AllSeen(AllSeen(seen, one), two)
  {
    CallsAddUp(seen, one, two, map[], Total, AllClusters);
  }

  lemma NothingJoined(metric: Metric, seen: map<string, int>, hostCluster: map<string, string>, capacity: map<string, Capacity>, k: Key)
    ensures var all := Call([], hostCluster, capacity);
      k !in NewKeys(metric, seen, all) && SumAt(metric, seen, all, k) == NONE
  {
    NewKeysAre(metric, seen, Call([], hostCluster, capacity), k);
  }

  lemma {:induction false} FirstAlike(metric: Metric, seen: map<string, int>, calls: seq<Call>, hostCluster: map<string, string>,
                                      capacity: map<string, Capacity>, n: nat, k: Key)
    requires Alike(calls, hostCluster, capacity, n) && calls != []
    ensures FirstCall(metric, seen, calls, k).capacity == capacity && CallWeight(FirstCall(metric, seen, calls, k).series) == n
  {
    var init := calls[..|calls| - 1];
    hide KeysOver;
    if k in KeysOver(metric, seen, init, k.name) {
      assert init != [] by {
        assert KeysOver(metric, seen, [], k.name) == {} by {
          NoCallsNoKeys(metric, seen, k.name);
        }
      }
      FirstAlike(metric, seen, init, hostCluster, capacity, n, k);
    }
  }

  /** Every timestamp has the value that one call with all series would give it. */
  lemma JoinedSum(metric: Metric, seen: map<string, int>, calls: seq<Call>, hostCluster: map<string, string>,
                  capacity: map<string, Capacity>, n: nat, k: Key)
    requires metric.Additive() && Alike(calls, hostCluster, capacity, n) && calls != []
    ensures var all := [Call(Joined(calls), hostCluster, capacity)];
      && (k in KeysOver(metric, seen, calls, k.name) <==> k in KeysOver(metric, seen, all, k.name))
      && SumOverRun(metric, seen, calls)(k) == SumOverRun(metric, seen, all)(k)
  {
    var all := [Call(Joined(calls), hostCluster, capacity)];
    JoinedWeight(calls, hostCluster, capacity, n);
    assert Alike(all, hostCluster, capacity, n);
    hide *;
    hide Metric.Additive, Metric.Value, Metric.Kept, Metric.OfCluster;
    JoinedIs(metric, seen, calls, hostCluster, capacity, n, k);
    OneCallOnly(metric, seen, all[0], k);
    SumOfAlike(metric, seen, calls, hostCluster, capacity, n, k);
    SumOfAlike(metric, seen, all, hostCluster, capacity, n, k);
  }

  lemma SumOfAlike(metric: Metric, seen: map<string, int>, calls: seq<Call>, hostCluster: map<string, string>,
                   capacity: map<string, Capacity>, n: nat, k: Key)
    requires Alike(calls, hostCluster, capacity, n) && calls != []
    ensures SumOverRun(metric, seen, calls)(k)
      == Ranks.Sample(metric.Value(CapacityOf(capacity, k.name), RunSum(metric, seen, calls, k)), n)
  {
    hide FirstCall, RunSum, Metric.Value, CapacityOf, CallWeight;
    FirstAlike(metric, seen, calls, hostCluster, capacity, n, k);
  }

  lemma OneCallOnly(metric: Metric, seen: map<string, int>, call: Call, k: Key)
    ensures k in KeysOver(metric, seen, [call], k.name) <==> k in NewKeys(metric, seen, call)
    ensures RunSum(metric, seen, [call], k) == SumAt(metric, seen, call, k)
  {
    hide SumAt, NewKeys;
    assert [call][..0] == [];
    NoCallsNoKeys(metric, seen, k.name);
    PlusLaws(NONE, SumAt(metric, seen, call, k), NONE);
    PlusLaws(SumAt(metric, seen, call, k), NONE, NONE);
  }

  /** Calls of equal weight leave what one call with all their series does, exactly when no timestamp is in two of them. */
  lemma SplitCallsIff(metric: Metric, m: Stored, seen: map<string, int>, calls: seq<Call>, hostCluster: map<string, string>,
                      capacity: map<string, Capacity>, n: nat, split: Stored, whole: Stored,
                      name: string, before: seq<Ranks.Sample>)
    requires metric.Additive() && AllClustersValid(m.clusters) && metric.At(m, name) == TallyFold(metric.Empty(), before)
    requires calls != [] && Alike(calls, hostCluster, capacity, n) && metric.Measurable(CapacityOf(capacity, name))
    requires RunLeaves(m, seen, calls, split) && CallLeaves(m, seen, Call(Joined(calls), hostCluster, capacity), whole)
    ensures metric.At(split, name) == metric.At(whole, name) <==> EachInOneCall(metric, seen, calls, name)
  {
    hide *;
    hide Metric.At, Metric.Empty, Metric.OfCluster, Metric.Measurable, Metric.Value, Metric.Kept, Metric.Additive;
    AlikeCapacity(metric, calls, hostCluster, capacity, n, name);
    var recorded, order := RunRecords(metric, m, seen, calls, split, name, before);
    RecordedKeys(metric, seen, calls, split, name, before, recorded, order);
    JoinedStream(metric, seen, calls, hostCluster, capacity, n, name, order);
    SumsIff(metric, m, seen, calls, split, name, before, order);
    WholeSums(metric, m, seen, Call(Joined(calls), hostCluster, capacity), whole, name, before, order);
  }

  /** One call records one value per timestamp. */
  lemma WholeSums(metric: Metric, m: Stored, seen: map<string, int>, call: Call, whole: Stored, name: string,
                  before: seq<Ranks.Sample>, order: seq<Key>)
    requires metric.Additive() && AllClustersValid(m.clusters) && metric.At(m, name) == TallyFold(metric.Empty(), before)
    requires CallLeaves(m, seen, call, whole) && metric.Measurable(CapacityOf(call.capacity, name))
    requires Each(order, KeysOver(metric, seen, [call], name))
    ensures metric.At(whole, name) == TallyFold(metric.Empty(), before + Stream(SumOverRun(metric, seen, [call]), order))
  {
    assert HasCapacity(metric, [call], name);
    hide *;
    hide Metric.At, Metric.Empty, Metric.OfCluster, Metric.Measurable, Metric.Value, Metric.Kept, Metric.Additive;
    WholeIsRun(metric, m, seen, call, whole, name);
    SumsIff(metric, m, seen, [call], whole, name, before, order);
  }

  lemma JoinedStream(metric: Metric, seen: map<string, int>, calls: seq<Call>, hostCluster: map<string, string>, capacity: map<string, Capacity>,
                     n: nat, name: string, order: seq<Key>)
    requires metric.Additive() && Alike(calls, hostCluster, capacity, n) && calls != []
    ensures var all := [Call(Joined(calls), hostCluster, capacity)];
      && KeysOver(metric, seen, calls, name) == KeysOver(metric, seen, all, name)
      && Stream(SumOverRun(metric, seen, calls), order) == Stream(SumOverRun(metric, seen, all), order)
  {
    hide *;
    var all := [Call(Joined(calls), hostCluster, capacity)];
    forall k: Key
      ensures k in KeysOver(metric, seen, calls, k.name) <==> k in KeysOver(metric, seen, all, k.name)
      ensures SumOverRun(metric, seen, calls)(k) == SumOverRun(metric, seen, all)(k)
    {
      JoinedSum(metric, seen, calls, hostCluster, capacity, n, k);
    }
    SameKeys(metric, seen, calls, all, name);
    StreamSame(SumOverRun(metric, seen, calls), SumOverRun(metric, seen, all), order);
  }

  lemma AlikeCapacity(metric: Metric, calls: seq<Call>, hostCluster: map<string, string>, capacity: map<string, Capacity>, n: nat, name: string)
    requires Alike(calls, hostCluster, capacity, n) && metric.Measurable(CapacityOf(capacity, name))
    ensures HasCapacity(metric, calls, name)
  {
  }

  /** One call is a run, with every timestamp in one call. */
  lemma WholeIsRun(metric: Metric, m: Stored, seen: map<string, int>, call: Call, to: Stored, name: string)
    requires CallLeaves(m, seen, call, to)
    ensures RunLeaves(m, seen, [call], to) && EachInOneCall(metric, seen, [call], name)
  {
    hide CallLeaves;
    assert [call][..0] == [] && SeenAfter(seen, []) == seen;
    assert RunLeaves(m, seen, [], m);
  }

  lemma SameKeys(metric: Metric, seen: map<string, int>, a: seq<Call>, b: seq<Call>, name: string)
    requires forall k: Key :: k in KeysOver(metric, seen, a, k.name) <==> k in KeysOver(metric, seen, b, k.name)
    ensures KeysOver(metric, seen, a, name) == KeysOver(metric, seen, b, name)
  {
    forall k
      ensures k in KeysOver(metric, seen, a, name) <==> k in KeysOver(metric, seen, b, name)
    {
      KeysOverMembers(metric, seen, a, name, k);
      KeysOverMembers(metric, seen, b, name, k);
    }
  }
}
