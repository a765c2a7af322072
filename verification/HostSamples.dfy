/**
 * Summing host samples that share a timestamp (the first loops of Store.AddHosts,
 * internal/analysis/stats.go; ioSample.add, internal/analysis/io.go): per cluster,
 * per datastore and over all datastores, three sums that must agree.
 */
module HostSamples {
  import opened Numbers
  import opened VcSeries
  import opened MapSums

  // --------------------------------------------------------- one summed sample

  datatype IoSample = IoSample(
    r: real, w: real, rkb: real, wkb: real, latW: real, latIO: real, ops: bool, kb: bool)
  {
    predicate Ok() {
      ops || kb
    }

    function Sum(): Vec {
      Vec(r, w, rkb, wkb, latW, latIO, ops, kb)
    }

    /** What was not reported counts as nothing. */
    ghost predicate Valid() {
      && r >= 0.0 && w >= 0.0 && rkb >= 0.0 && wkb >= 0.0 && latW >= 0.0 && latIO >= 0.0
      && (!ops ==> r == 0.0 && w == 0.0 && latIO == 0.0) && (!kb ==> rkb == 0.0 && wkb == 0.0)
      && (latIO == 0.0 ==> latW == 0.0)
    }
  }

  const NO_IO := IoSample(0.0, 0.0, 0.0, 0.0, 0.0, 0.0, false, false)

  /** A counter of one datastore at sample i, or -1. */
  function Report(s: Series, counter: string, inst: string, i: nat): real {
    var m := InstancesOf(s, counter);
    if inst in m && i < |m[inst]| && m[inst][i] >= 0.0 then m[inst][i] else -1.0
  }

  function Positive(x: real): (r: real)
    ensures r >= 0.0 && (x < 0.0 ==> r == 0.0)
  {
    MaxReal(x, 0.0)
  }

  /** A reported latency counts for the operations that had it, if there were any. */
  function TimedOps(latency: real, ops: real): (r: real)
    ensures r >= 0.0 && (ops < 0.0 ==> r == 0.0)
  {
    if latency >= 0.0 && ops > 0.0 then ops else 0.0
  }

  /** ... weighted by their number. */
  function TimedSum(latency: real, ops: real): (r: real)
    ensures r >= 0.0 && (TimedOps(latency, ops) == 0.0 ==> r == 0.0)
  {
    if latency >= 0.0 && ops > 0.0 then latency * ops else 0.0
  }

  /** What one datastore contributes at sample i. */
  function Given(s: Series, inst: string, i: nat): Vec {
    var r, w := Report(s, READ_IOPS, inst, i), Report(s, WRITE_IOPS, inst, i);
    var rkb, wkb := Report(s, READ_KBPS, inst, i), Report(s, WRITE_KBPS, inst, i);
    var rl, wl := Report(s, READ_LAT, inst, i), Report(s, WRITE_LAT, inst, i);
    Vec(Positive(r), Positive(w), Positive(rkb), Positive(wkb),
        TimedSum(rl, r) + TimedSum(wl, w), TimedOps(rl, r) + TimedOps(wl, w),
        r >= 0.0 || w >= 0.0, rkb >= 0.0 || wkb >= 0.0)
  }

  /** A counter of a datastore at sample i is reported, with this value. */
  ghost predicate Says(s: Series, counter: string, inst: string, i: nat, v: real) {
    counter in s.inst && inst in s.inst[counter] && i < |s.inst[counter][inst]| && s.inst[counter][inst][i] == v >= 0.0
  }

  ghost predicate Silent(s: Series, counter: string, inst: string, i: nat) {
    forall v :: !Says(s, counter, inst, i, v)
  }

  /** Counter by counter: a reported value is added, an unreported one adds nothing and flags nothing. */
  lemma GivenIs(s: Series, inst: string, i: nat)
    ensures var g := Given(s, inst, i);
      && (if Silent(s, "datastore.numberReadAveraged.average", inst, i) then g.a == 0.0 else Says(s, "datastore.numberReadAveraged.average", inst, i, g.a))
      && (if Silent(s, "datastore.numberWriteAveraged.average", inst, i) then g.b == 0.0 else Says(s, "datastore.numberWriteAveraged.average", inst, i, g.b))
      && (if Silent(s, "datastore.read.average", inst, i) then g.c == 0.0 else Says(s, "datastore.read.average", inst, i, g.c))
      && (if Silent(s, "datastore.write.average", inst, i) then g.d == 0.0 else Says(s, "datastore.write.average", inst, i, g.d))
      && (g.p <==> !Silent(s, "datastore.numberReadAveraged.average", inst, i) || !Silent(s, "datastore.numberWriteAveraged.average", inst, i))
      && (g.q <==> !Silent(s, "datastore.read.average", inst, i) || !Silent(s, "datastore.write.average", inst, i))
      && !g.r
  {
    ReportIs(s, READ_IOPS, inst, i);
    ReportIs(s, WRITE_IOPS, inst, i);
    ReportIs(s, READ_KBPS, inst, i);
    ReportIs(s, WRITE_KBPS, inst, i);
    hide Report, Says, Silent;
  }

  /** ... and latency is weighted by the operations of its direction. */
  lemma GivenLatency(s: Series, inst: string, i: nat, rl: real, wl: real)
    requires Says(s, "datastore.totalReadLatency.average", inst, i, rl) && Says(s, "datastore.totalWriteLatency.average", inst, i, wl)
    ensures var g := Given(s, inst, i); g.e == rl * g.a + wl * g.b && g.f == g.a + g.b
  {
    ReportIs(s, READ_LAT, inst, i);
    ReportIs(s, WRITE_LAT, inst, i);
    assert Report(s, READ_LAT, inst, i) == rl && Report(s, WRITE_LAT, inst, i) == wl;
    assert rl * 0.0 == 0.0 && wl * 0.0 == 0.0;
    hide Report, Says;
  }

  lemma ReportIs(s: Series, counter: string, inst: string, i: nat)
    ensures if Silent(s, counter, inst, i) then Report(s, counter, inst, i) == -1.0
            else Says(s, counter, inst, i, Report(s, counter, inst, i)) && Report(s, counter, inst, i) >= 0.0
  {
    var v := Report(s, counter, inst, i);
    assert v >= 0.0 <==> Says(s, counter, inst, i, v);
    assert forall u :: Says(s, counter, inst, i, u) ==> u == v;
  }

  function IoAdded(a: IoSample, s: Series, inst: string, i: nat): (b: IoSample)
    ensures a.Valid() ==> b.Valid()
    ensures b.Sum() == a.Sum().Plus(Given(s, inst, i))
  {
    hide Report, TimedSum, TimedOps, Positive;
    var r, w := Report(s, READ_IOPS, inst, i), Report(s, WRITE_IOPS, inst, i);
    var rkb, wkb := Report(s, READ_KBPS, inst, i), Report(s, WRITE_KBPS, inst, i);
    var rl, wl := Report(s, READ_LAT, inst, i), Report(s, WRITE_LAT, inst, i);
    IoSample(
      a.r + Positive(r), a.w + Positive(w), a.rkb + Positive(rkb), a.wkb + Positive(wkb),
      a.latW + (TimedSum(rl, r) + TimedSum(wl, w)), a.latIO + (TimedOps(rl, r) + TimedOps(wl, w)),
      a.ops || r >= 0.0 || w >= 0.0, a.kb || rkb >= 0.0 || wkb >= 0.0)
  }

  // --------------------------------------------------- one cluster, at one timestamp

  datatype Bucket = Bucket(
    cpu: real, mem: real, net: real, iops: real, kbps: real, hasNet: bool, hasIO: bool, hasKB: bool)
  {
    function Sum(): Vec {
      Vec(iops, kbps, cpu, mem, net, 0.0, hasIO, hasKB, hasNet)
    }

    ghost predicate Valid() {
      && cpu >= 0.0 && mem >= 0.0 && net >= 0.0 && iops >= 0.0 && kbps >= 0.0
      && (!hasIO ==> iops == 0.0) && (!hasKB ==> kbps == 0.0) && (!hasNet ==> net == 0.0)
    }
  }

  const NO_BUCKET := Bucket(0.0, 0.0, 0.0, 0.0, 0.0, false, false, false)

  /** One host's sample, its processor, memory and network readings given, added to a bucket. */
  function BucketAdded(b: Bucket, cpu: real, mem: real, net: real, host: IoSample): (r: Bucket) {
    Bucket(
      if cpu >= 0.0 then b.cpu + cpu else b.cpu, if mem >= 0.0 then b.mem + mem * 1024.0 else b.mem,
      if net >= 0.0 then b.net + net else b.net,
      if host.ops then b.iops + (host.r + host.w) else b.iops, if host.kb then b.kbps + (host.rkb + host.wkb) else b.kbps,
      b.hasNet || net >= 0.0, b.hasIO || host.ops, b.hasKB || host.kb)
  }

  lemma BucketAddedSum(b: Bucket, cpu: real, mem: real, net: real, host: IoSample)
    requires b.Valid() && host.Valid()
    ensures BucketAdded(b, cpu, mem, net, host).Valid()
    ensures BucketAdded(b, cpu, mem, net, host).Sum() == b.Sum().Plus(DemandOf(host.Sum(), cpu, mem, net))
  {
  }

  /** Operations, KB, MHz, bytes and network asked of a cluster. */
  function DemandOf(load: Vec, cpu: real, mem: real, net: real): Vec {
    Vec(load.a + load.b, load.c + load.d, Positive(cpu), Positive(mem) * 1024.0, Positive(net), 0.0, load.p, load.q, net >= 0.0)
  }

  // ------------------------------------------------------------------------ views

  /** A cluster or datastore at one timestamp; the name "" stands for all datastores. */
  datatype Key = Key(name: string, t: int)

  /** What a sum is asked of: a datastore, the total, all datastores together, or one name at one time. */
  datatype IoView = Datastore(name: string) | Total | AllDatastores | IoMoment(key: Key) {
    predicate Covers(k: Key) {
      match this
      case Datastore(x) => k.name == x && k.name != ""
      case Total => k.name == ""
      case AllDatastores => k.name != ""
      case IoMoment(key) => k == key
    }

    /** The view exists in the store too, which keeps no times. */
    predicate Lasting() {
      !IoMoment?
    }
  }

  datatype ClusterView = Cluster(name: string) | AllClusters | Moment(key: Key) {
    predicate Covers(k: Key) {
      this == AllClusters || this == Cluster(k.name) || this == Moment(k)
    }

    predicate Lasting() {
      !Moment?
    }
  }

  ghost function IoPart(v: IoView): (Key, IoSample) -> Vec {
    (k: Key, a: IoSample) => if v.Covers(k) then a.Sum() else NONE
  }

  ghost function ClusterPart(v: ClusterView): (Key, Bucket) -> Vec {
    (k: Key, b: Bucket) => if v.Covers(k) then b.Sum() else NONE
  }

  function If(c: bool, v: Vec): Vec {
    if c then v else NONE
  }

  // --------------------------------------------- what the accepted samples amount to

  function Instances(s: Series): set<string> {
    set c, n | c in s.inst && n in s.inst[c] :: n
  }

  ghost function GivenBy(s: Series, i: nat): (string, bool) -> Vec {
    (n: string, b: bool) => Given(s, n, i)
  }

  /** The storage load of a host at sample i over some of its datastores. */
  ghost function LoadOver(s: Series, i: nat, names: set<string>): Vec {
    SumOver(map n | n in names :: true, GivenBy(s, i))
  }

  lemma LoadOverOneMore(s: Series, i: nat, names: set<string>, n: string)
    requires n !in names
    ensures LoadOver(s, i, names + {n}) == LoadOver(s, i, names).Plus(Given(s, n, i))
  {
    hide Given, Vec.Plus;
    var m := map x | x in names :: true;
    PlusLaws(NONE, Given(s, n, i), NONE);
    PlusLaws(Given(s, n, i), NONE, NONE);
    SumRaise(m, GivenBy(s, i), n, true, Given(s, n, i));
    assert m[n := true] == map x | x in names + {n} :: true;
  }

  ghost function Share(s: Series, i: nat, v: IoView, names: set<string>): Vec
    requires i < |s.ts|
  {
    match v
    case Datastore(n) => If(n in names && n != "", Given(s, n, i))
    case Total => LoadOver(s, i, names)
    case AllDatastores => LoadOver(s, i, names)
    case IoMoment(k) =>
      if k.name == "" then If(k.t == s.ts[i], LoadOver(s, i, names))
      else If(k.t == s.ts[i] && k.name in names, Given(s, k.name, i))
  }

  ghost function ShareAt(s: Series, i: nat, v: IoView): Vec
    requires i < |s.ts|
  {
    Share(s, i, v, Instances(s))
  }

  /** What sample i of a host asks of its cluster: operations, KB, MHz, bytes and network. */
  ghost function DemandAt(s: Series, i: nat): Vec {
    DemandOf(LoadOver(s, i, Instances(s)), ValueAt(s, CPU_MHZ, i), ValueAt(s, MEM_CONSUMED, i), ValueAt(s, NET_USAGE, i))
  }

  /** Sample i of a counter is reported, with this value. */
  ghost predicate Tells(s: Series, counter: string, i: nat, v: real) {
    counter in s.values && i < |s.values[counter]| && s.values[counter][i] == v >= 0.0
  }

  ghost predicate Untold(s: Series, counter: string, i: nat) {
    forall v :: !Tells(s, counter, i, v)
  }

  /** Reads and writes of all its datastores, and its own processor, memory (in KB) and network, as far as reported. */
  lemma DemandIs(s: Series, i: nat)
    ensures var d, load := DemandAt(s, i), LoadOver(s, i, Instances(s));
      && d.a == load.a + load.b && d.b == load.c + load.d && d.p == load.p && d.q == load.q
      && (if Untold(s, "cpu.usagemhz.average", i) then d.c == 0.0 else Tells(s, "cpu.usagemhz.average", i, d.c))
      && (if Untold(s, "mem.consumed.average", i) then d.d == 0.0 else Tells(s, "mem.consumed.average", i, d.d / 1024.0))
      && (if Untold(s, "net.usage.average", i) then d.e == 0.0 else Tells(s, "net.usage.average", i, d.e))
      && (d.r <==> !Untold(s, "net.usage.average", i))
  {
    TellsValue(s, CPU_MHZ, i);
    TellsValue(s, MEM_CONSUMED, i);
    TellsValue(s, NET_USAGE, i);
    hide ValueAt, Tells, Untold, LoadOver, Instances;
  }

  lemma TellsValue(s: Series, counter: string, i: nat)
    ensures if Untold(s, counter, i) then ValueAt(s, counter, i) < 0.0
            else ValueAt(s, counter, i) >= 0.0 && Tells(s, counter, i, ValueAt(s, counter, i))
  {
    assert forall v :: Tells(s, counter, i, v) ==> v == ValueAt(s, counter, i);
    assert ValueAt(s, counter, i) >= 0.0 ==> Tells(s, counter, i, ValueAt(s, counter, i));
  }

  function Last(seen: map<string, int>, ref: string): int {
    if ref in seen then seen[ref] else 0
  }

  /** Sums over the first m samples newer than last. */
  ghost function StorageTo(s: Series, last: int, m: nat, v: IoView): Vec
    requires m <= |s.ts|
  {
    if m == 0 then NONE
    else StorageTo(s, last, m - 1, v).Plus(If(s.ts[m - 1] > last, ShareAt(s, m - 1, v)))
  }

  ghost function DemandTo(s: Series, last: int, m: nat, cl: string, v: ClusterView): Vec
    requires m <= |s.ts|
  {
    if m == 0 then NONE
    else
      DemandTo(s, last, m - 1, cl, v).Plus(If(s.ts[m - 1] > last && v.Covers(Key(cl, s.ts[m - 1])), DemandAt(s, m - 1)))
  }

  /** The timestamps at which a host newly contributes to its cluster. */
  ghost function KeysTo(s: Series, last: int, m: nat, cl: string): set<Key>
    requires m <= |s.ts|
  {
    set i | 0 <= i < m && s.ts[i] > last :: Key(cl, s.ts[i])
  }

  ghost function SeenTo(seen: map<string, int>, s: Series, last: int, m: nat): map<string, int>
    requires m <= |s.ts|
  {
    if m == 0 then seen
    else
      var before := SeenTo(seen, s, last, m - 1);
      if s.ts[m - 1] > last then before[s.ref := s.ts[m - 1]] else before
  }

  ghost function Seen(seen: map<string, int>, s: Series): map<string, int> {
    SeenTo(seen, s, Last(seen, s.ref), |s.ts|)
  }

  ghost function AllSeen(seen: map<string, int>, all: seq<Series>): map<string, int> {
    if all == [] then seen else Seen(AllSeen(seen, all[..|all| - 1]), all[|all| - 1])
  }

  /** The storage load of every accepted sample of a call. */
  ghost function Storage(seen: map<string, int>, all: seq<Series>, v: IoView): Vec {
    if all == [] then NONE
    else
      var s, init := all[|all| - 1], all[..|all| - 1];
      Storage(seen, init, v).Plus(StorageTo(s, Last(AllSeen(seen, init), s.ref), |s.ts|, v))
  }

  function ClusterOf(hostCluster: map<string, string>, ref: string): string {
    if ref in hostCluster then hostCluster[ref] else ""
  }

  /** The cluster demand of every accepted sample of a call. */
  ghost function Demand(seen: map<string, int>, all: seq<Series>, hostCluster: map<string, string>, v: ClusterView): Vec {
    if all == [] then NONE
    else
      var s, init := all[|all| - 1], all[..|all| - 1];
      Demand(seen, init, hostCluster, v).Plus(
        DemandTo(s, Last(AllSeen(seen, init), s.ref), |s.ts|, ClusterOf(hostCluster, s.ref), v))
  }

  /** The clusters and times that have an accepted sample. */
  ghost function Keys(seen: map<string, int>, all: seq<Series>, hostCluster: map<string, string>): set<Key> {
    if all == [] then {}
    else
      var s, init := all[|all| - 1], all[..|all| - 1];
      Keys(seen, init, hostCluster) + KeysTo(s, Last(AllSeen(seen, init), s.ref), |s.ts|, ClusterOf(hostCluster, s.ref))
  }

  // --------------------------------------------------------- gathering the samples

  type IoAt = map<Key, IoSample>
  type BucketAt = map<Key, Bucket>

  ghost predicate AllIoValid(io: IoAt) {
    forall k :: k in io ==> io[k].Valid()
  }

  ghost predicate AllBucketsValid(sum: BucketAt) {
    forall k :: k in sum ==> sum[k].Valid()
  }

  /** Every view of the storage samples grew by the amount given for it. */
  ghost predicate IoGrew(from: IoAt, to: IoAt, delta: IoView -> Vec) {
    forall v: IoView :: SumOver(to, IoPart(v)) == SumOver(from, IoPart(v)).Plus(delta(v))
  }

  ghost predicate DemandGrew(from: BucketAt, to: BucketAt, delta: ClusterView -> Vec) {
    forall v: ClusterView :: SumOver(to, ClusterPart(v)) == SumOver(from, ClusterPart(v)).Plus(delta(v))
  }

  lemma IoGrewTwice(from: IoAt, mid: IoAt, to: IoAt, delta: IoView -> Vec, more: IoView -> Vec, both: IoView -> Vec)
    requires IoGrew(from, mid, delta) && IoGrew(mid, to, more)
    requires forall v: IoView :: both(v) == delta(v).Plus(more(v))
    ensures IoGrew(from, to, both)
  {
    hide Vec.Plus, IoPart;
    forall v: IoView
      ensures SumOver(to, IoPart(v)) == SumOver(from, IoPart(v)).Plus(both(v))
    {
      PlusLaws(SumOver(from, IoPart(v)), delta(v), more(v));
    }
  }

  lemma DemandGrewTwice(from: BucketAt, mid: BucketAt, to: BucketAt,
                        delta: ClusterView -> Vec, more: ClusterView -> Vec, both: ClusterView -> Vec)
    requires DemandGrew(from, mid, delta) && DemandGrew(mid, to, more)
    requires forall v: ClusterView :: both(v) == delta(v).Plus(more(v))
    ensures DemandGrew(from, to, both)
  {
    hide Vec.Plus, ClusterPart;
    forall v: ClusterView
      ensures SumOver(to, ClusterPart(v)) == SumOver(from, ClusterPart(v)).Plus(both(v))
    {
      PlusLaws(SumOver(from, ClusterPart(v)), delta(v), more(v));
    }
  }

  /** An amount counted by the views that cover a key. */
  ghost function Under(k: Key, x: Vec): IoView -> Vec {
    (v: IoView) => If(v.Covers(k), x)
  }

  /** Adds one datastore's report to the sample kept under a key, created when missing. */
  method AddIoAt(io: IoAt, k: Key, s: Series, inst: string, i: nat) returns (r: IoAt)
    requires AllIoValid(io)
    ensures AllIoValid(r) && IoGrew(io, r, Under(k, Given(s, inst, i)))
  {
    hide Given, Vec.Plus, IoAdded, IoView.Covers;
    var a := if k in io then io[k] else NO_IO;
    assert NO_IO.Valid() && NO_IO.Sum() == NONE;
    var b := IoAdded(a, s, inst, i);
    r := io[k := b];
    forall v: IoView
      ensures SumOver(r, IoPart(v)) == SumOver(io, IoPart(v)).Plus(If(v.Covers(k), Given(s, inst, i)))
    {
      PlusLaws(NONE, NONE, NONE);
      SumRaise(io, IoPart(v), k, b, If(v.Covers(k), Given(s, inst, i)));
    }
  }

  /** The share of the datastores in a set, as a function of the view. */
  ghost function Shares(s: Series, i: nat, names: set<string>): IoView -> Vec
    requires i < |s.ts|
  {
    (v: IoView) => Share(s, i, v, names)
  }

  lemma ShareOneMore(s: Series, i: nat, v: IoView, names: set<string>, n: string)
    requires i < |s.ts| && n !in names && n != ""
    ensures Share(s, i, v, names + {n})
      == Share(s, i, v, names).Plus(If(v.Covers(Key(n, s.ts[i])) || v.Covers(Key("", s.ts[i])), Given(s, n, i)))
  {
    hide Given, LoadOver, Vec.Plus;
    LoadOverOneMore(s, i, names, n);
    PlusLaws(NONE, NONE, NONE);
    PlusLaws(LoadOver(s, i, names), NONE, NONE);
    PlusLaws(NONE, Given(s, n, i), NONE);
    PlusLaws(Given(s, n, i), NONE, NONE);
    var m := match v case Datastore(x) => x case IoMoment(k) => k.name case _ => n;
    PlusLaws(Given(s, m, i), NONE, NONE);
  }

  /** One datastore's report is added under its own name and under the total. */
  method AddInstance(io: IoAt, s: Series, inst: string, i: nat, ghost done: set<string>) returns (r: IoAt)
    requires AllIoValid(io) && inst != "" && inst !in done && i < |s.ts|
    ensures AllIoValid(r)
    ensures forall base: IoAt :: IoGrew(base, io, Shares(s, i, done)) ==> IoGrew(base, r, Shares(s, i, done + {inst}))
  {
    hide IoGrew, Given, Vec.Plus;
    var own, total := Key(inst, s.ts[i]), Key("", s.ts[i]);
    var mid := AddIoAt(io, own, s, inst, i);
    r := AddIoAt(mid, total, s, inst, i);
    ghost var x := Given(s, inst, i);
    ghost var given := (v: IoView) => If(v.Covers(own) || v.Covers(total), x);
    PlusLaws(x, NONE, NONE);
    PlusLaws(NONE, x, NONE);
    PlusLaws(NONE, NONE, NONE);
    IoGrewTwice(io, mid, r, Under(own, x), Under(total, x), given);
    hide IoView.Covers, Share;
    forall v: IoView
      ensures Share(s, i, v, done + {inst}) == Share(s, i, v, done).Plus(given(v))
    {
      ShareOneMore(s, i, v, done, inst);
    }
    forall base: IoAt | IoGrew(base, io, Shares(s, i, done))
      ensures IoGrew(base, r, Shares(s, i, done + {inst}))
    {
      IoGrewTwice(base, io, r, Shares(s, i, done), given, Shares(s, i, done + {inst}));
    }
  }

  lemma NothingGrew(io: IoAt, delta: IoView -> Vec)
    requires forall v: IoView :: delta(v) == NONE
    ensures IoGrew(io, io, delta)
  {
  }

  lemma NoDemandGrew(sum: BucketAt, delta: ClusterView -> Vec)
    requires forall v: ClusterView :: delta(v) == NONE
    ensures DemandGrew(sum, sum, delta)
  {
  }

  /** The loop over a host's datastores at one sample: its own sum, and the shared ones. */
  method AddHostIo(io: IoAt, s: Series, i: nat) returns (r: IoAt, host: IoSample)
    requires AllIoValid(io) && "" !in Instances(s) && i < |s.ts|
    ensures AllIoValid(r) && IoGrew(io, r, Shares(s, i, Instances(s)))
    ensures host.Valid() && host.Sum() == LoadOver(s, i, Instances(s))
  {
    hide IoGrew, IoAdded, Given, Instances, LoadOver, Vec.Plus;
    r, host := io, NO_IO;
    var rest := Instances(s);
    ghost var done: set<string> := {};
    assert LoadOver(s, i, {}) == NONE by {
      EmptyLoad(s, i);
    }
    NothingGrew(io, Shares(s, i, {}));
    while rest != {}
      invariant done !! rest && done + rest == Instances(s)
      invariant AllIoValid(r) && IoGrew(io, r, Shares(s, i, done))
      invariant host.Valid() && host.Sum() == LoadOver(s, i, done)
    {
      var inst :| inst in rest;
      host := IoAdded(host, s, inst, i);
      r := AddInstance(r, s, inst, i, done);
      LoadOverOneMore(s, i, done, inst);
      rest, done := rest - {inst}, done + {inst};
    }
    assert done == Instances(s);
  }

  lemma EmptyLoad(s: Series, i: nat)
    ensures LoadOver(s, i, {}) == NONE
  {
    var none: set<string> := {};
    assert (map n | n in none :: true) == map[];
  }

  /** An amount counted by the cluster views that cover a key. */
  ghost function UnderCluster(k: Key, x: Vec): ClusterView -> Vec {
    (v: ClusterView) => If(v.Covers(k), x)
  }

  /** Adds one host's sample to the bucket of its cluster and time, created when missing. */
  method AddToBucket(sum: BucketAt, k: Key, s: Series, i: nat, host: IoSample) returns (r: BucketAt)
    requires AllBucketsValid(sum)
    requires host.Valid() && host.Sum() == LoadOver(s, i, Instances(s))
    ensures AllBucketsValid(r) && DemandGrew(sum, r, UnderCluster(k, DemandAt(s, i))) && r.Keys == sum.Keys + {k}
  {
    hide Vec.Plus, BucketAdded, ClusterView.Covers, LoadOver, Instances, ValueAt, DemandOf;
    var b := if k in sum then sum[k] else NO_BUCKET;
    assert NO_BUCKET.Valid() && NO_BUCKET.Sum() == NONE;
    var cpu, mem, net := ValueAt(s, CPU_MHZ, i), ValueAt(s, MEM_CONSUMED, i), ValueAt(s, NET_USAGE, i);
    BucketAddedSum(b, cpu, mem, net, host);
    var c := BucketAdded(b, cpu, mem, net, host);
    r := sum[k := c];
    forall v: ClusterView
      ensures SumOver(r, ClusterPart(v)) == SumOver(sum, ClusterPart(v)).Plus(If(v.Covers(k), DemandAt(s, i)))
    {
      PlusLaws(NONE, NONE, NONE);
      SumRaise(sum, ClusterPart(v), k, c, If(v.Covers(k), DemandAt(s, i)));
    }
  }

  ghost function StorageOf(s: Series, last: int, m: nat): IoView -> Vec
    requires m <= |s.ts|
  {
    (v: IoView) => StorageTo(s, last, m, v)
  }

  ghost function DemandOn(cl: string, s: Series, last: int, m: nat): ClusterView -> Vec
    requires m <= |s.ts|
  {
    (v: ClusterView) => DemandTo(s, last, m, cl, v)
  }

  /** Storage samples and cluster buckets gathered by one call. */
  datatype Gathered = Gathered(sum: BucketAt, io: IoAt) {
    ghost predicate Valid() {
      AllBucketsValid(sum) && AllIoValid(io)
    }

    ghost predicate GrewFrom(g: Gathered, d: IoView -> Vec, e: ClusterView -> Vec, keys: set<Key>) {
      IoGrew(g.io, io, d) && DemandGrew(g.sum, sum, e) && sum.Keys == g.sum.Keys + keys
    }
  }

  lemma GrewFurther(g: Gathered, mid: Gathered, to: Gathered, cl: string, s: Series, last: int, m: nat)
    requires m < |s.ts| && mid.GrewFrom(g, StorageOf(s, last, m), DemandOn(cl, s, last, m), KeysTo(s, last, m, cl))
    requires if s.ts[m] > last
             then to.GrewFrom(mid, Shares(s, m, Instances(s)), UnderCluster(Key(cl, s.ts[m]), DemandAt(s, m)), {Key(cl, s.ts[m])})
             else to == mid
    ensures to.GrewFrom(g, StorageOf(s, last, m + 1), DemandOn(cl, s, last, m + 1), KeysTo(s, last, m + 1, cl))
  {
    hide IoGrew, DemandGrew, Vec.Plus, Share, DemandAt, ClusterView.Covers;
    var k := Key(cl, s.ts[m]);
    var ioMore := (v: IoView) => If(s.ts[m] > last, ShareAt(s, m, v));
    var more := (v: ClusterView) => If(s.ts[m] > last && v.Covers(k), DemandAt(s, m));
    PlusLaws(NONE, NONE, NONE);
    if s.ts[m] > last {
      IoGrewSame(mid.io, to.io, Shares(s, m, Instances(s)), ioMore);
      DemandGrewSame(mid.sum, to.sum, UnderCluster(k, DemandAt(s, m)), more);
      assert KeysTo(s, last, m + 1, cl) == KeysTo(s, last, m, cl) + {k};
    } else {
      NothingGrew(mid.io, ioMore);
      NoDemandGrew(mid.sum, more);
      assert KeysTo(s, last, m + 1, cl) == KeysTo(s, last, m, cl);
    }
    IoGrewTwice(g.io, mid.io, to.io, StorageOf(s, last, m), ioMore, StorageOf(s, last, m + 1));
    DemandGrewTwice(g.sum, mid.sum, to.sum, DemandOn(cl, s, last, m), more, DemandOn(cl, s, last, m + 1));
  }

  lemma IoGrewSame(from: IoAt, to: IoAt, d: IoView -> Vec, e: IoView -> Vec)
    requires IoGrew(from, to, d) && forall v: IoView :: d(v) == e(v)
    ensures IoGrew(from, to, e)
  {
  }

  lemma DemandGrewSame(from: BucketAt, to: BucketAt, d: ClusterView -> Vec, e: ClusterView -> Vec)
    requires DemandGrew(from, to, d) && forall v: ClusterView :: d(v) == e(v)
    ensures DemandGrew(from, to, e)
  {
  }

  /** No sample of the call is newer than what its host was seen at. */
  ghost predicate NothingNew(seen: map<string, int>, all: seq<Series>) {
    forall j, i :: 0 <= j < |all| && 0 <= i < |all[j].ts| ==> all[j].ts[i] <= Last(seen, all[j].ref)
  }

  /** The loop over one host's samples. */
  method GatherSeries(g: Gathered, s: Series, cl: string, seen: map<string, int>)
    returns (r: Gathered, now: map<string, int>)
    requires g.Valid() && "" !in Instances(s)
    ensures r.Valid() && now == Seen(seen, s)
    ensures var last := Last(seen, s.ref);
      r.GrewFrom(g, StorageOf(s, last, |s.ts|), DemandOn(cl, s, last, |s.ts|), KeysTo(s, last, |s.ts|, cl))
    ensures NothingNew(seen, [s]) ==> r == g && now == seen
  {
    hide IoGrew, DemandGrew, Instances, LoadOver, AllIoValid, AllBucketsValid, Gathered.GrewFrom;
    r, now := g, seen;
    var last := Last(seen, s.ref);
    GrewNot(g, cl, s, last);
    for i := 0 to |s.ts|
      invariant r.Valid() && now == SeenTo(seen, s, last, i)
      invariant r.GrewFrom(g, StorageOf(s, last, i), DemandOn(cl, s, last, i), KeysTo(s, last, i, cl))
      invariant NothingNew(seen, [s]) ==> r == g && now == seen
    {
      assert NothingNew(seen, [s]) ==> [s][0].ts[i] <= last;
      ghost var mid := r;
      if s.ts[i] > last {
        r := GatherSample(r, s, cl, i);
        now := now[s.ref := s.ts[i]];
      }
      GrewFurther(g, mid, r, cl, s, last, i);
    }
  }

  /** The body of that loop for an accepted sample. */
  method GatherSample(g: Gathered, s: Series, cl: string, i: nat) returns (r: Gathered)
    requires g.Valid() && "" !in Instances(s) && i < |s.ts|
    ensures r.Valid()
    ensures var k := Key(cl, s.ts[i]);
      r.GrewFrom(g, Shares(s, i, Instances(s)), UnderCluster(k, DemandAt(s, i)), {k})
  {
    hide IoGrew, DemandGrew, Instances, LoadOver, AllIoValid, AllBucketsValid;
    var io, host := AddHostIo(g.io, s, i);
    var sum := AddToBucket(g.sum, Key(cl, s.ts[i]), s, i, host);
    r := Gathered(sum, io);
  }

  lemma GrewNot(g: Gathered, cl: string, s: Series, last: int)
    ensures g.GrewFrom(g, StorageOf(s, last, 0), DemandOn(cl, s, last, 0), KeysTo(s, last, 0, cl))
  {
    hide IoGrew, DemandGrew;
    NothingGrew(g.io, StorageOf(s, last, 0));
    NoDemandGrew(g.sum, DemandOn(cl, s, last, 0));
  }

  const NOTHING := Gathered(map[], map[])

  ghost function StorageBy(seen: map<string, int>, all: seq<Series>): IoView -> Vec {
    (v: IoView) => Storage(seen, all, v)
  }

  ghost function DemandBy(seen: map<string, int>, all: seq<Series>, hostCluster: map<string, string>): ClusterView -> Vec {
    (v: ClusterView) => Demand(seen, all, hostCluster, v)
  }

  /** What a call gathers from its series. */
  ghost predicate IsGathered(g: Gathered, seen: map<string, int>, all: seq<Series>, hostCluster: map<string, string>) {
    g.Valid() && g.GrewFrom(NOTHING, StorageBy(seen, all), DemandBy(seen, all, hostCluster), Keys(seen, all, hostCluster))
  }

  lemma OneMoreSeries(mid: Gathered, to: Gathered, seen: map<string, int>, init: seq<Series>, s: Series,
                      hostCluster: map<string, string>)
    requires IsGathered(mid, seen, init, hostCluster) && to.Valid()
    requires var last, cl := Last(AllSeen(seen, init), s.ref), ClusterOf(hostCluster, s.ref);
             to.GrewFrom(mid, StorageOf(s, last, |s.ts|), DemandOn(cl, s, last, |s.ts|), KeysTo(s, last, |s.ts|, cl))
    ensures IsGathered(to, seen, init + [s], hostCluster)
    ensures AllSeen(seen, init + [s]) == Seen(AllSeen(seen, init), s)
  {
    hide IoGrew, DemandGrew, Vec.Plus, StorageTo, DemandTo, KeysTo, Seen, ClusterOf;
    var last := Last(AllSeen(seen, init), s.ref);
    assert (init + [s])[..|init|] == init;
    IoGrewTwice(NOTHING.io, mid.io, to.io, StorageBy(seen, init), StorageOf(s, last, |s.ts|), StorageBy(seen, init + [s]));
    DemandGrewTwice(NOTHING.sum, mid.sum, to.sum, DemandBy(seen, init, hostCluster),
                    DemandOn(ClusterOf(hostCluster, s.ref), s, last, |s.ts|), DemandBy(seen, init + [s], hostCluster));
  }

  ghost predicate InstancesNamed(all: seq<Series>) {
    forall s :: s in all ==> "" !in Instances(s)
  }

  /** The loop over the series of a call. */
  method Gather(all: seq<Series>, hostCluster: map<string, string>, seen: map<string, int>)
    returns (g: Gathered, now: map<string, int>)
    requires InstancesNamed(all)
    ensures IsGathered(g, seen, all, hostCluster) && now == AllSeen(seen, all)
    ensures NothingNew(seen, all) ==> g == NOTHING && now == seen
  {
    hide Instances, Seen, IsGathered, Gathered.GrewFrom, ClusterOf, StorageOf, DemandOn, KeysTo, Last;
    g, now := NOTHING, seen;
    NothingFrom(seen, hostCluster);
    for n := 0 to |all|
      invariant g.Valid() && IsGathered(g, seen, all[..n], hostCluster) && now == AllSeen(seen, all[..n])
      invariant NothingNew(seen, all) ==> g == NOTHING && now == seen
    {
      var s := all[n];
      ghost var mid := g;
      assert NothingNew(seen, all) ==> NothingNew(seen, [s]);
      g, now := GatherSeries(g, s, ClusterOf(hostCluster, s.ref), now);
      OneMoreSeries(mid, g, seen, all[..n], s, hostCluster);
      assert all[..n] + [s] == all[..n + 1];
    }
    assert all[..|all|] == all;
  }

  lemma NothingFrom(seen: map<string, int>, hostCluster: map<string, string>)
    ensures IsGathered(NOTHING, seen, [], hostCluster)
  {
    hide IoGrew, DemandGrew;
    NothingGrew(NOTHING.io, StorageBy(seen, []));
    NoDemandGrew(NOTHING.sum, DemandBy(seen, [], hostCluster));
  }

  lemma GatheredIs(g: Gathered, seen: map<string, int>, all: seq<Series>, hostCluster: map<string, string>)
    requires IsGathered(g, seen, all, hostCluster)
    ensures g.Valid() && g.sum.Keys == Keys(seen, all, hostCluster)
    ensures forall v: IoView :: SumOver(g.io, IoPart(v)) == Storage(seen, all, v)
    ensures forall v: ClusterView :: SumOver(g.sum, ClusterPart(v)) == Demand(seen, all, hostCluster, v)
  {
    hide Vec.Plus, Storage, Demand, Keys;
    forall v: IoView
      ensures SumOver(g.io, IoPart(v)) == Storage(seen, all, v)
    {
      PlusLaws(NONE, Storage(seen, all, v), NONE);
      PlusLaws(Storage(seen, all, v), NONE, NONE);
    }
    forall v: ClusterView
      ensures SumOver(g.sum, ClusterPart(v)) == Demand(seen, all, hostCluster, v)
    {
      PlusLaws(NONE, Demand(seen, all, hostCluster, v), NONE);
      PlusLaws(Demand(seen, all, hostCluster, v), NONE, NONE);
    }
  }

  // ------------------------------------------------------------- one sum per timestamp

  /** There is a bucket for exactly the clusters and times with an accepted sample, and it sums exactly those samples. */
  lemma BucketsAreSums(g: Gathered, seen: map<string, int>, all: seq<Series>, hostCluster: map<string, string>, k: Key)
    requires IsGathered(g, seen, all, hostCluster)
    ensures k in g.sum <==> k in Keys(seen, all, hostCluster)
    ensures k in g.sum ==> g.sum[k].Sum() == Demand(seen, all, hostCluster, Moment(k))
  {
    hide SumOver, Demand, Keys, IsGathered, Vec.Plus;
    GatheredIs(g, seen, all, hostCluster);
    SumOnly(g.sum, ClusterPart(Moment(k)), k);
  }

  /** Without an accepted sample at that time, nothing is asked of a cluster. */
  lemma {:induction false} DemandNeedsKey(seen: map<string, int>, all: seq<Series>, hostCluster: map<string, string>, k: Key)
    requires k !in Keys(seen, all, hostCluster)
    ensures Demand(seen, all, hostCluster, Moment(k)) == NONE
  {
    hide DemandTo, AllSeen;
    if all != [] {
      var s, init := all[|all| - 1], all[..|all| - 1];
      DemandNeedsKey(seen, init, hostCluster, k);
      SeriesNeedsKey(s, Last(AllSeen(seen, init), s.ref), |s.ts|, ClusterOf(hostCluster, s.ref), k);
    }
  }

  lemma {:induction false} SeriesNeedsKey(s: Series, last: int, m: nat, cl: string, k: Key)
    requires m <= |s.ts| && k !in KeysTo(s, last, m, cl)
    ensures DemandTo(s, last, m, cl, Moment(k)) == NONE
  {
    hide DemandAt;
    if m > 0 {
      assert s.ts[m - 1] > last ==> Key(cl, s.ts[m - 1]) in KeysTo(s, last, m, cl);
      SeriesNeedsKey(s, last, m - 1, cl, k);
    }
  }

  /** The timestamps of a call lie where its samples do. */
  lemma {:induction false} KeysWithin(seen: map<string, int>, all: seq<Series>, hostCluster: map<string, string>, from: int, to: int)
    requires forall i, x :: 0 <= i < |all| && 0 <= x < |all[i].ts| ==> from < all[i].ts[x] <= to
    ensures forall k :: k in Keys(seen, all, hostCluster) ==> from < k.t <= to
  {
    if all != [] {
      KeysWithin(seen, all[..|all| - 1], hostCluster, from, to);
    }
  }

  /** The summed storage sample of a datastore and time, or of all of them, is the sum over the hosts. */
  lemma IoSamplesAreSums(g: Gathered, seen: map<string, int>, all: seq<Series>, hostCluster: map<string, string>, k: Key)
    requires IsGathered(g, seen, all, hostCluster)
    ensures (if k in g.io then g.io[k].Sum() else NONE) == Storage(seen, all, IoMoment(k))
  {
    hide SumOver, Storage, IsGathered, Vec.Plus;
    GatheredIs(g, seen, all, hostCluster);
    SumOnly(g.io, IoPart(IoMoment(k)), k);
  }

  // ------------------------------------------------------------------ the three sums

  ghost predicate Agree(total: Vec, demand: Vec) {
    demand.a == total.a + total.b && demand.b == total.c + total.d
  }

  lemma StayConserved(total: Vec, demand: Vec, more: Vec, moreDemand: Vec, n: nat)
    requires Agree(total, demand) && Agree(more, moreDemand)
    ensures Agree(total.Plus(more.Times(n)), demand.Plus(moreDemand.Times(n)))
  {
    var w := n as real;
    assert (more.a + more.b) * w == more.a * w + more.b * w;
    assert (more.c + more.d) * w == more.c * w + more.d * w;
  }

  lemma {:induction false} SeriesSumsAgree(s: Series, last: int, m: nat, cl: string)
    requires m <= |s.ts|
    ensures StorageTo(s, last, m, AllDatastores) == StorageTo(s, last, m, Total)
    ensures Agree(StorageTo(s, last, m, Total), DemandTo(s, last, m, cl, AllClusters))
  {
    hide LoadOver, ValueAt;
    if m > 0 {
      SeriesSumsAgree(s, last, m - 1, cl);
    }
  }

  /** Whatever the samples: datastores, total and clusters receive the same operations and throughput. */
  lemma {:induction false} ThreeSumsAgree(seen: map<string, int>, all: seq<Series>, hostCluster: map<string, string>)
    ensures Storage(seen, all, AllDatastores) == Storage(seen, all, Total)
    ensures Agree(Storage(seen, all, Total), Demand(seen, all, hostCluster, AllClusters))
  {
    hide StorageTo, DemandTo, AllSeen;
    if all != [] {
      var s, init := all[|all| - 1], all[..|all| - 1];
      ThreeSumsAgree(seen, init, hostCluster);
      SeriesSumsAgree(s, Last(AllSeen(seen, init), s.ref), |s.ts|, ClusterOf(hostCluster, s.ref));
    }
  }
}
