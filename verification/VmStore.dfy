/**
 * Per-VM statistics and how samples are folded into them
 * (VMStats and Store.AddVM, internal/analysis/stats.go).
 */
module VmStore {
  import opened Numbers
  import opened Histograms
  import opened DemandSlots
  import opened VcSeries

  // --------------------------------------------------------------- plain sums

  datatype StatState = StatState(n: nat, sum: real, max: real)

  const NO_STAT := StatState(0, 0.0, 0.0)

  function StatAdded(s: StatState, v: real, n: nat): StatState {
    if v < 0.0 || n == 0 then s
    else StatState(s.n + n, s.sum + v * n as real, MaxReal(s.max, v))
  }

  class Stat {
    var n: nat
    var sum: real
    var max: real

    function State(): StatState
      reads this
    {
      StatState(n, sum, max)
    }

    constructor ()
      ensures State() == NO_STAT
    {
      n, sum, max := 0, 0.0, 0.0;
    }

    method AddN(v: real, n: nat)
      modifies this
      ensures State() == StatAdded(old(State()), v, n)
    {
      if v < 0.0 || n == 0 {
        return;
      }
      this.n := this.n + n;
      sum := sum + v * n as real;
      max := MaxReal(max, v);
    }
  }

  /** The eight sums of a VM, all distinct. */
  method NewStats() returns (s: seq<Stat>)
    ensures |s| == 8
    ensures forall i :: 0 <= i < |s| ==> fresh(s[i]) && s[i].State() == NO_STAT
    ensures forall i, j :: 0 <= i < j < |s| ==> s[i] != s[j]
  {
    s := [];
    while |s| < 8
      invariant |s| <= 8
      invariant forall i :: 0 <= i < |s| ==> fresh(s[i]) && s[i].State() == NO_STAT
      invariant forall i, j :: 0 <= i < j < |s| ==> s[i] != s[j]
    {
      var stat := new Stat();
      s := s + [stat];
    }
  }

  // ------------------------------------------------------------ one VM, abstractly

  /** How many 20-second samples an interval stands for. */
  function Weight(interval: int): (w: nat)
    ensures w >= 1
    ensures interval <= 20 ==> w == 1
    ensures interval > 20 ==> 20 * w <= interval < 20 * (w + 1)
  {
    if interval <= 20 then 1 else interval / 20
  }

  datatype VmState = VmState(
    cpu: HistState, mem: HistState,
    ready: StatState, coStop: StatState, cpuMhz: StatState, consumed: StatState,
    disk: StatState, net: StatState, readIops: StatState, writeIops: StatState,
    first: int, last: int, samples: nat, demand: DemandSeries)
  {
    ghost predicate Valid() {
      cpu.Valid() && mem.Valid() && demand.Valid()
    }
  }

  function NewVm(): (v: VmState)
    ensures v.Valid()
  {
    VmState(EmptyHist(), EmptyHist(), NO_STAT, NO_STAT, NO_STAT, NO_STAT, NO_STAT, NO_STAT, NO_STAT, NO_STAT,
            0, 0, 0, NO_DEMAND)
  }

  /** Everything AddVM reads of one sample. */
  datatype Sample' = Sample'(
    ts: int, interval: int,
    cpu: real, mem: real, ready: real, coStop: real, cpuMhz: real, consumed: real,
    disk: real, net: real, readIops: real, writeIops: real)

  ghost function SampleAt(s: Series, i: nat): Sample'
    requires i < |s.ts|
  {
    Sample'(s.ts[i], s.interval,
            ValueAt(s, CPU_USAGE, i), ValueAt(s, MEM_USAGE, i), ValueAt(s, CPU_READY, i), ValueAt(s, CPU_COSTOP, i),
            ValueAt(s, CPU_MHZ, i), ValueAt(s, MEM_CONSUMED, i), ValueAt(s, DISK_USAGE, i), ValueAt(s, NET_USAGE, i),
            SumAt(s, READ_IOPS, i), SumAt(s, WRITE_IOPS, i))
  }

  /** Milliseconds summed over the interval as a percentage per vCPU; unknown stays unknown. */
  function PerVcpu(ms: real, interval: int, vcpu: int): real {
    if ms >= 0.0 && vcpu > 0 then ms / (Max(interval, 20) as real * 1000.0 * vcpu as real) * 100.0 else -1.0
  }

  /** The effect of one accepted sample. */
  function Recorded'(v: VmState, x: Sample', vcpu: int, anchor: int): (r: VmState)
    requires v.Valid()
    ensures r.Valid()
  {
    var w := Weight(x.interval);
    VmState(
      Added(v.cpu, x.cpu, w), Added(v.mem, x.mem, w),
      StatAdded(v.ready, PerVcpu(x.ready, x.interval, vcpu), w), StatAdded(v.coStop, PerVcpu(x.coStop, x.interval, vcpu), w),
      StatAdded(v.cpuMhz, x.cpuMhz, w), StatAdded(v.consumed, x.consumed, w),
      StatAdded(v.disk, x.disk, w), StatAdded(v.net, x.net, w),
      StatAdded(v.readIops, x.readIops, w), StatAdded(v.writeIops, x.writeIops, w),
      if v.first == 0 then x.ts - Span(x.interval) else v.first, x.ts, v.samples + w,
      AddDemand(v.demand, anchor, Reading(x.ts, x.interval, x.cpuMhz)))
  }

  /** A sample no newer than the last one seen is ignored. */
  function Offered(v: VmState, x: Sample', vcpu: int, anchor: int): (r: VmState)
    requires v.Valid()
    ensures r.Valid()
  {
    if x.ts <= v.last then v else Recorded'(v, x, vcpu, anchor)
  }

  ghost function SamplesTo(s: Series, m: nat): (xs: seq<Sample'>)
    requires m <= |s.ts|
    ensures |xs| == m && forall i :: 0 <= i < m ==> xs[i] == SampleAt(s, i)
  {
    if m == 0 then [] else SamplesTo(s, m - 1) + [SampleAt(s, m - 1)]
  }

  ghost function SamplesOf(s: Series): seq<Sample'> {
    SamplesTo(s, |s.ts|)
  }

  ghost function OfferAll(v: VmState, xs: seq<Sample'>, vcpu: int, anchor: int): (r: VmState)
    requires v.Valid()
    ensures r.Valid()
  {
    if xs == [] then v else Offered(OfferAll(v, xs[..|xs| - 1], vcpu, anchor), xs[|xs| - 1], vcpu, anchor)
  }

  // ------------------------------------------------------------- one VM, as stored

  class VmStats {
    ghost const Repr: set<object>
    const cpu: Hist
    const mem: Hist
    const ready: Stat
    const coStop: Stat
    const cpuMhz: Stat
    const consumed: Stat
    const disk: Stat
    const net: Stat
    const readIops: Stat
    const writeIops: Stat
    var first: int
    var last: int
    var samples: nat
    var demand: seq<real>
    var slots: seq<nat>

    ghost predicate Valid()
      reads Repr
      ensures Valid() ==> this in Repr
    {
      && Repr == {this, cpu, cpu.b, mem, mem.b, ready, coStop, cpuMhz, consumed, disk, net, readIops, writeIops}
      && cpu.Valid() && mem.Valid() && |demand| == |slots|
      && cpu != mem && cpu.b != mem.b
      && ready !in {coStop, cpuMhz, consumed, disk, net, readIops, writeIops}
      && coStop !in {cpuMhz, consumed, disk, net, readIops, writeIops}
      && cpuMhz !in {consumed, disk, net, readIops, writeIops}
      && consumed !in {disk, net, readIops, writeIops}
      && disk !in {net, readIops, writeIops}
      && net !in {readIops, writeIops}
      && readIops != writeIops
    }

    ghost function State(): (v: VmState)
      requires Valid()
      reads Repr
      ensures v.Valid()
    {
      VmState(cpu.State(), mem.State(), ready.State(), coStop.State(), cpuMhz.State(), consumed.State(),
              disk.State(), net.State(), readIops.State(), writeIops.State(),
              first, last, samples, DemandSeries(demand, slots))
    }

    constructor ()
      ensures Valid() && State() == NewVm()
      ensures fresh(Repr)
    {
      var c := new Hist();
      var m := new Hist();
      var s := NewStats();
      cpu, mem := c, m;
      ready, coStop, cpuMhz, consumed := s[0], s[1], s[2], s[3];
      disk, net, readIops, writeIops := s[4], s[5], s[6], s[7];
      first, last, samples, demand, slots := 0, 0, 0, [], [];
      Repr := {this, c, c.b, m, m.b, s[0], s[1], s[2], s[3], s[4], s[5], s[6], s[7]};
    }

    method SetSlot(anchor: int, t: int, mhz: real)
      requires |demand| == |slots|
      modifies this`demand, this`slots
      ensures |demand| == |slots|
      ensures DemandSeries(demand, slots) == DemandSlots.SetSlot(old(DemandSeries(demand, slots)), anchor, t, mhz)
    {
      if t < anchor || (t - anchor) / SLOT_LENGTH >= MAX_SLOTS {
        return;
      }
      var i := (t - anchor) / SLOT_LENGTH;
      ghost var before := DemandSeries(demand, slots);
      while |demand| <= i
        invariant |demand| == |slots| && Grown(DemandSeries(demand, slots), i) == Grown(before, i)
        decreases i + 1 - |demand|
      {
        demand := demand + [0.0];
        slots := slots + [0];
      }
      assert DemandSeries(demand, slots) == Grown(before, i);
      var n := slots[i];
      demand := demand[i := Mean(demand[i], n, mhz)];
      if slots[i] < MAX_UINT16 {
        slots := slots[i := slots[i] + 1];
      }
    }

    method AddDemand(anchor: int, ts: int, mhz: real, interval: int)
      requires |demand| == |slots|
      modifies this`demand, this`slots
      ensures |demand| == |slots|
      ensures DemandSeries(demand, slots)
        == DemandSlots.AddDemand(old(DemandSeries(demand, slots)), anchor, Reading(ts, interval, mhz))
    {
      if mhz < 0.0 || anchor == 0 {
        return;
      }
      var span := Span(interval);
      if span <= SLOT_LENGTH {
        SetSlot(anchor, ts - span / 2, mhz);
        return;
      }
      var t := Truncate(ts - span);
      ghost var before := DemandSeries(demand, slots);
      while t < ts
        invariant |demand| == |slots|
        invariant Fill(DemandSeries(demand, slots), anchor, t, ts, mhz) == Fill(before, anchor, Truncate(ts - span), ts, mhz)
        decreases ts - t
      {
        SetSlot(anchor, t, mhz);
        t := t + SLOT_LENGTH;
      }
    }

    method RecordUsage(s: Series, i: nat, w: nat)
      requires Valid()
      modifies cpu, cpu.b, mem, mem.b
      ensures cpu.State() == Added(old(cpu.State()), ValueAt(s, CPU_USAGE, i), w)
      ensures mem.State() == Added(old(mem.State()), ValueAt(s, MEM_USAGE, i), w)
      ensures Valid()
    {
      cpu.AddN(ValueAt(s, CPU_USAGE, i), w);
      mem.AddN(ValueAt(s, MEM_USAGE, i), w);
    }

    method RecordCpu(s: Series, i: nat, w: nat, vcpu: int)
      requires Valid()
      modifies ready, coStop, cpuMhz, consumed
      ensures ready.State() == StatAdded(old(ready.State()), PerVcpu(ValueAt(s, CPU_READY, i), s.interval, vcpu), w)
      ensures coStop.State() == StatAdded(old(coStop.State()), PerVcpu(ValueAt(s, CPU_COSTOP, i), s.interval, vcpu), w)
      ensures cpuMhz.State() == StatAdded(old(cpuMhz.State()), ValueAt(s, CPU_MHZ, i), w)
      ensures consumed.State() == StatAdded(old(consumed.State()), ValueAt(s, MEM_CONSUMED, i), w)
    {
      var secs := Max(s.interval, 20);
      var r := ValueAt(s, CPU_READY, i);
      if r >= 0.0 && vcpu > 0 {
        ready.AddN(r / (secs as real * 1000.0 * vcpu as real) * 100.0, w);
      }
      var c := ValueAt(s, CPU_COSTOP, i);
      if c >= 0.0 && vcpu > 0 {
        coStop.AddN(c / (secs as real * 1000.0 * vcpu as real) * 100.0, w);
      }
      cpuMhz.AddN(ValueAt(s, CPU_MHZ, i), w);
      consumed.AddN(ValueAt(s, MEM_CONSUMED, i), w);
    }

    method RecordIo(s: Series, i: nat, w: nat)
      requires Valid()
      modifies disk, net, readIops, writeIops
      ensures disk.State() == StatAdded(old(disk.State()), ValueAt(s, DISK_USAGE, i), w)
      ensures net.State() == StatAdded(old(net.State()), ValueAt(s, NET_USAGE, i), w)
      ensures readIops.State() == StatAdded(old(readIops.State()), SumAt(s, READ_IOPS, i), w)
      ensures writeIops.State() == StatAdded(old(writeIops.State()), SumAt(s, WRITE_IOPS, i), w)
    {
      disk.AddN(ValueAt(s, DISK_USAGE, i), w);
      net.AddN(ValueAt(s, NET_USAGE, i), w);
      var rd := Sum(s, READ_IOPS, i);
      readIops.AddN(rd, w);
      var wr := Sum(s, WRITE_IOPS, i);
      writeIops.AddN(wr, w);
    }

    /** The body of the AddVM loop for one sample. */
    method Offer(s: Series, i: nat, vcpu: int, anchor: int)
      requires Valid() && i < |s.ts|
      modifies Repr
      ensures Valid() && State() == Offered(old(State()), SampleAt(s, i), vcpu, anchor)
    {
      hide Added, StatAdded, DemandSlots.AddDemand, PerVcpu, Weight, ValueAt, SumAt;
      var ts := s.ts[i];
      if ts <= last {
        return;
      }
      var w, secs := Weight(s.interval), Max(s.interval, 20);
      RecordUsage(s, i, w);
      RecordCpu(s, i, w, vcpu);
      RecordIo(s, i, w);
      AddDemand(anchor, ts, ValueAt(s, CPU_MHZ, i), s.interval);
      if first == 0 {
        first := ts - secs * SECOND;
      }
      last := ts;
      samples := samples + w;
    }

    /** The AddVM loop over the samples of a series. */
    method OfferSeries(s: Series, vcpu: int, anchor: int)
      requires Valid()
      modifies Repr
      ensures Valid() && State() == OfferAll(old(State()), SamplesOf(s), vcpu, anchor)
    {
      hide Valid, State, Offered, SampleAt;
      for i := 0 to |s.ts|
        invariant Valid() && State() == OfferAll(old(State()), SamplesTo(s, i), vcpu, anchor)
      {
        assert SamplesTo(s, i + 1)[..i] == SamplesTo(s, i);
        Offer(s, i, vcpu, anchor);
      }
    }
  }

  // -------------------------------------------------------------------- the store

  class Store {
    var vms: map<string, VmStats>
    const anchor: int

    ghost predicate Valid()
      reads this, Footprint()
    {
      && (forall k :: k in vms ==> this !in vms[k].Repr && vms[k].Valid())
      && (forall j, k :: j in vms && k in vms && j != k ==> vms[j].Repr !! vms[k].Repr)
    }

    /** Every object behind the map. */
    ghost function Footprint(): set<object>
      reads this
    {
      set k, o | k in vms && o in vms[k].Repr :: o
    }

    /** What the store knows about a VM; a VM never seen is like a new one. */
    ghost function Vm(ref: string): (v: VmState)
      requires Valid()
      ensures v.Valid()
      reads this, Footprint()
    {
      if ref in vms then vms[ref].State() else NewVm()
    }

    /** Slots are kept from the half hour that anchor lies in. */
    constructor (at: int)
      ensures Valid() && Footprint() == {} && anchor == Truncate(at)
      ensures forall ref :: Vm(ref) == NewVm()
    {
      vms := map[];
      anchor := Truncate(at);
    }

    /** The entry of a VM, created on first sight. */
    method Entry(ref: string) returns (vs: VmStats)
      requires Valid()
      modifies this
      ensures Valid() && vms.Keys == old(vms.Keys) + {ref} && vms[ref] == vs
      ensures ref in old(vms) ==> vms == old(vms)
      ensures ref !in old(vms) ==> fresh(vs.Repr)
      ensures forall k :: k in old(vms) ==> vms[k] == old(vms[k])
      ensures vs.State() == old(Vm(ref))
    {
      hide VmStats.Valid, VmStats.State;
      if ref !in vms {
        vs := new VmStats();
        vms := vms[ref := vs];
      }
      vs := vms[ref];
    }

    method AddVM(s: Series, vcpu: int)
      requires Valid()
      modifies this, Footprint()
      ensures Valid() && vms.Keys == old(vms.Keys) + {s.ref}
      ensures fresh(Footprint() - old(Footprint()))
      ensures Vm(s.ref) == OfferAll(old(Vm(s.ref)), SamplesOf(s), vcpu, anchor)
      ensures forall k :: k != s.ref ==> Vm(k) == old(Vm(k))
    {
      hide VmStats.Valid, VmStats.State, OfferAll;
      var vs := Entry(s.ref);
      vs.OfferSeries(s, vcpu, anchor);
    }
  }
}
