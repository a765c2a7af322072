/**
 * Recommendations (rightsize and sizeCluster, internal/analysis/recommend.go)
 * against the samples they are made from.
 */
module Rightsizing {
  import opened Numbers
  import opened Ranks
  import opened Histograms
  import opened RealProducts
  import opened NodeSizing
  import VmStore
  import Ingest
  import VmStreams
  import HostSamples
  import HostStore
  import KeyStreams
  import Tallies
  import HostStreams
  import LaterHost

  datatype Profile = Profile(
    percentile: real, cpuTarget: real, memHeadroom: real, minMemRatio: real, hostCpu: real, hostMem: real)
  {
    predicate Valid() {
      && 0.0 < percentile <= 100.0 && cpuTarget > 0.0 && memHeadroom >= 0.0 && minMemRatio >= 0.0
      && hostCpu > 0.0 && hostMem > 0.0
    }
  }

  const PROFILES := [
    Profile(99.0, 0.6, 1.4, 0.5, 0.6, 0.8),
    Profile(95.0, 0.7, 1.25, 0.35, 0.7, 0.85),
    Profile(95.0, 0.8, 1.1, 0.25, 0.8, 0.9)]

  lemma ProfilesAreValid()
    ensures forall i :: 0 <= i < |PROFILES| ==> PROFILES[i].Valid()
  {
  }

  // ---------------------------------------------------------------------- a VM

  /** vCPU that carry a percentage of today's vCPU at the target. */
  function VcpuFor(vcpu: nat, pct: real, target: real): int
    requires target > 0.0
  {
    Ceil(vcpu as real * pct / 100.0 / target)
  }

  function RecommendVcpu(vcpu: nat, cpu: HistState, p: Profile): int
    requires cpu.Valid() && p.Valid()
  {
    var need := Max(1, VcpuFor(vcpu, PctOf(cpu, p.percentile), p.cpuTarget));
    if PctOf(cpu, 99.0) >= 90.0 && vcpu < 64 then Max(vcpu + 1, VcpuFor(vcpu, PctOf(cpu, 99.0), p.cpuTarget))
    else if need < vcpu then need
    else vcpu
  }

  function RoundGiB(mb: real): int {
    Ceil(mb / 1024.0) * 1024
  }

  function Floor(windows: bool): real {
    if windows then 2048.0 else 1024.0
  }

  /** Active memory with headroom, but no less than either floor, in whole GiB. */
  function NeedMem(memMB: nat, windows: bool, pct: real, p: Profile): int {
    var active := Times(pct / 100.0, memMB as real);
    RoundGiB(MaxReal(MaxReal(Times(active, p.memHeadroom), Floor(windows)), Times(memMB as real, p.minMemRatio)))
  }

  function RecommendMem(memMB: nat, windows: bool, mem: HistState, p: Profile): int
    requires mem.Valid() && p.Valid()
  {
    var need := NeedMem(memMB, windows, PctOf(mem, p.percentile), p);
    if PctOf(mem, 95.0) >= 90.0 then RoundGiB(memMB as real * 1.25)
    else if need <= memMB - 1024 then need
    else memMB
  }

  /** k vCPU carry a percentage of today's vCPU at the target. */
  ghost predicate VcpuCarry(vcpu: nat, pct: real, target: real, k: int) {
    Times(vcpu as real, pct) / 100.0 <= Times(k as real, target)
  }

  /**
   * When a VM grows, shrinks or stays: from a p99 of 90% on it gets the fewest vCPU
   * that carry the p99, but one more at least; otherwise the fewest that carry the
   * percentile of the profile, but no more than it has and one at least.
   */
  lemma VcpuIsLeast(vcpu: nat, cpu: HistState, p: Profile, k: int)
    requires cpu.Valid() && p.Valid()
    ensures var rec := RecommendVcpu(vcpu, cpu, p);
      rec <= k <==>
        if PctOf(cpu, 99.0) >= 90.0 && vcpu < 64 then k >= vcpu + 1 && VcpuCarry(vcpu, PctOf(cpu, 99.0), p.cpuTarget, k)
        else k >= vcpu || (k >= 1 && VcpuCarry(vcpu, PctOf(cpu, p.percentile), p.cpuTarget, k))
  {
    hide PctOf, Times;
    VcpuForCovers(vcpu, PctOf(cpu, 99.0), p.cpuTarget, k);
    VcpuForCovers(vcpu, PctOf(cpu, p.percentile), p.cpuTarget, k);
    hide VcpuFor;
  }

  /** mb is rounded up to whole GiB. */
  ghost predicate IsWholeGiB(mb: int, least: real) {
    mb % 1024 == 0 && least <= mb as real < least + 1024.0
  }

  /**
   * Memory grows by a quarter from an active p95 of 90% on; otherwise it shrinks to
   * active memory with headroom and both floors, if that saves a GiB; or it stays.
   */
  lemma MemIsDecided(memMB: nat, windows: bool, mem: HistState, p: Profile)
    requires mem.Valid() && p.Valid()
    ensures
      var rec, floor := RecommendMem(memMB, windows, mem, p), if windows then 2048.0 else 1024.0;
      var active := Times(Times(PctOf(mem, p.percentile) / 100.0, memMB as real), p.memHeadroom);
      var needed := MaxReal(MaxReal(active, floor), Times(memMB as real, p.minMemRatio));
      if PctOf(mem, 95.0) >= 90.0 then IsWholeGiB(rec, Times(memMB as real, 1.25))
      else exists need: int :: IsWholeGiB(need, needed) && rec == if need <= memMB - 1024 then need else memMB
  {
    hide PctOf;
    var floor := if windows then 2048.0 else 1024.0;
    var active := Times(Times(PctOf(mem, p.percentile) / 100.0, memMB as real), p.memHeadroom);
    var needed := MaxReal(MaxReal(active, floor), Times(memMB as real, p.minMemRatio));
    RoundGiBCovers(memMB as real * 1.25);
    RoundGiBCovers(needed);
    assert NeedMem(memMB, windows, PctOf(mem, p.percentile), p) == RoundGiB(needed);
    hide RoundGiB, NeedMem, Times;
    assert IsWholeGiB(RoundGiB(needed), needed);
  }

  lemma VcpuForCovers(vcpu: nat, pct: real, target: real, k: int)
    requires target > 0.0
    ensures VcpuFor(vcpu, pct, target) <= k <==> Times(vcpu as real, pct) / 100.0 <= Times(k as real, target)
    ensures VcpuFor(vcpu, pct, target) as real < Times(vcpu as real, pct) / 100.0 / target + 1.0
  {
    CeilLeast(vcpu as real * pct / 100.0 / target, k);
    DivideCovers(vcpu as real * pct / 100.0, target, k as real);
  }

  /**
   * Shrinking is safe: the exact sample percentile fits the recommended vCPU at
   * the target, even if histogram counters saturated.
   */
  lemma ShrunkVcpuCarriesSamples(vcpu: nat, s: seq<Sample>, p: Profile, x: real)
    requires p.Valid() && ExactPct(s, p.percentile, x)
    requires RecommendVcpu(vcpu, Fold(s), p) < vcpu
    ensures RecommendVcpu(vcpu, Fold(s), p) >= 1
    ensures Times(vcpu as real, x) / 100.0 <= Times(RecommendVcpu(vcpu, Fold(s), p) as real, p.cpuTarget)
  {
    var pct, rec := PctOf(Fold(s), p.percentile), RecommendVcpu(vcpu, Fold(s), p);
    PctNotBelow(s, p.percentile, x);
    VcpuForCovers(vcpu, pct, p.cpuTarget, rec);
    ExactPctInRange(s, p.percentile, x);
    hide RecommendVcpu, PctOf, Fold;
    TimesMonotone(vcpu as real, vcpu as real, x, pct);
  }

  /** ... and not wasteful: above one vCPU, it exceeds the exact need by less than one vCPU and one histogram bucket. */
  lemma ShrunkVcpuIsTight(vcpu: nat, s: seq<Sample>, p: Profile, x: real)
    requires p.Valid() && ExactPct(s, p.percentile, x) && Unsaturated(Fold(s))
    requires 1 < RecommendVcpu(vcpu, Fold(s), p) < vcpu
    ensures RecommendVcpu(vcpu, Fold(s), p) as real < Times(vcpu as real, x + 0.5) / 100.0 / p.cpuTarget + 1.0
  {
    var pct := PctOf(Fold(s), p.percentile);
    ShrunkIsNeed(vcpu, Fold(s), p);
    hide RecommendVcpu, PctOf, Fold, ExactPct, Unsaturated, VcpuFor, Times;
    PctNotAbove(s, p.percentile, x);
    PctNotBelow(s, p.percentile, x);
    ExactPctInRange(s, p.percentile, x);
    VcpuForCovers(vcpu, pct, p.cpuTarget, 0);
    TightAt(vcpu as real, pct, x + 0.5, p.cpuTarget);
  }

  lemma ShrunkIsNeed(vcpu: nat, cpu: HistState, p: Profile)
    requires cpu.Valid() && p.Valid() && 1 < RecommendVcpu(vcpu, cpu, p) < vcpu
    ensures RecommendVcpu(vcpu, cpu, p) == VcpuFor(vcpu, PctOf(cpu, p.percentile), p.cpuTarget)
  {
    hide PctOf, VcpuFor;
  }

  lemma TightAt(vcpu: real, a: real, b: real, target: real)
    requires vcpu >= 0.0 && 0.0 <= a <= b && target > 0.0
    ensures Times(vcpu, a) / 100.0 / target <= Times(vcpu, b) / 100.0 / target
  {
    TimesMonotone(vcpu, vcpu, a, b);
    hide Times;
    DivideMonotone(Times(vcpu, a) / 100.0, Times(vcpu, b) / 100.0, target);
  }

  lemma DivideMonotone(a: real, b: real, k: real)
    requires a <= b && k > 0.0
    ensures a / k <= b / k
  {
    DivideCovers(a, k, b / k);
    assert Times(b / k, k) == b;
  }

  /** A VM only grows when its histogram says p99 is at 90% or more, then by at least one vCPU and enough for the exact p99. */
  lemma GrownVcpuCarriesPeak(vcpu: nat, s: seq<Sample>, p: Profile, x: real)
    requires p.Valid() && ExactPct(s, 99.0, x)
    requires RecommendVcpu(vcpu, Fold(s), p) > vcpu
    ensures PctOf(Fold(s), 99.0) >= 90.0 && vcpu < 64
    ensures Times(vcpu as real, x) / 100.0 <= Times(RecommendVcpu(vcpu, Fold(s), p) as real, p.cpuTarget)
  {
    var pct, rec := PctOf(Fold(s), 99.0), RecommendVcpu(vcpu, Fold(s), p);
    PctNotBelow(s, 99.0, x);
    VcpuForCovers(vcpu, pct, p.cpuTarget, rec);
    ExactPctInRange(s, 99.0, x);
    hide RecommendVcpu, PctOf, Fold;
    TimesMonotone(vcpu as real, vcpu as real, x, pct);
  }

  lemma RoundGiBCovers(mb: real)
    ensures RoundGiB(mb) % 1024 == 0
    ensures mb <= RoundGiB(mb) as real < mb + 1024.0
  {
    var c := Ceil(mb / 1024.0);
    assert RoundGiB(mb) as real == c as real * 1024.0;
  }

  lemma NeedMemCovers(memMB: nat, windows: bool, pct: real, p: Profile)
    ensures var need := NeedMem(memMB, windows, pct, p);
      && need % 1024 == 0
      && need as real >= Times(Times(pct / 100.0, memMB as real), p.memHeadroom)
      && need as real >= Floor(windows)
      && need as real >= Times(memMB as real, p.minMemRatio)
  {
    hide Times, Floor, RoundGiB;
    var room := Times(Times(pct / 100.0, memMB as real), p.memHeadroom);
    RoundGiBCovers(MaxReal(MaxReal(room, Floor(windows)), Times(memMB as real, p.minMemRatio)));
  }

  /** Shrunk memory is a whole number of GiB, covers exact active memory with headroom and both floors, and saves at least one. */
  lemma ShrunkMemCoversActive(memMB: nat, windows: bool, s: seq<Sample>, p: Profile, x: real)
    requires p.Valid() && ExactPct(s, p.percentile, x)
    requires RecommendMem(memMB, windows, Fold(s), p) < memMB
    ensures var rec := RecommendMem(memMB, windows, Fold(s), p);
      && rec % 1024 == 0 && rec <= memMB - 1024
      && rec as real >= Times(Times(x / 100.0, memMB as real), p.memHeadroom)
      && rec as real >= Floor(windows)
      && rec as real >= Times(memMB as real, p.minMemRatio)
  {
    hide PctOf, Fold, NeedMem, Floor, RoundGiB, Times;
    var pct := PctOf(Fold(s), p.percentile);
    PctNotBelow(s, p.percentile, x);
    ExactPctInRange(s, p.percentile, x);
    RoundGiBCovers(memMB as real * 1.25);
    NeedMemCovers(memMB, windows, pct, p);
    TimesMonotone(x / 100.0, pct / 100.0, memMB as real, memMB as real);
    TimesMonotone(Times(x / 100.0, memMB as real), Times(pct / 100.0, memMB as real), p.memHeadroom, p.memHeadroom);
  }

  /** End to end: what is recommended for a VM of the store carries the samples the store accepted. */
  lemma ShrunkVmCarriesStream(vcpu: nat, memMB: nat, windows: bool, p: Profile, anchor: int,
                              xs: seq<VmStore.Sample'>, cpu: real, mem: real)
    requires p.Valid()
    requires var accepted := Ingest.Accepted(xs, 0);
      ExactPct(VmStreams.CpuOf(accepted), p.percentile, cpu) && ExactPct(VmStreams.MemOf(accepted), p.percentile, mem)
    ensures
      var v := VmStore.OfferAll(VmStore.NewVm(), xs, vcpu, anchor);
      && (RecommendVcpu(vcpu, v.cpu, p) < vcpu ==>
        Times(vcpu as real, cpu) / 100.0 <= Times(RecommendVcpu(vcpu, v.cpu, p) as real, p.cpuTarget))
      && (RecommendMem(memMB, windows, v.mem, p) < memMB ==>
        RecommendMem(memMB, windows, v.mem, p) as real >= Times(Times(mem / 100.0, memMB as real), p.memHeadroom))
  {
    hide RecommendVcpu, RecommendMem, Times, Fold;
    var accepted := Ingest.Accepted(xs, 0);
    VmStreams.StatisticsOfStream(xs, vcpu, anchor);
    var v := VmStore.OfferAll(VmStore.NewVm(), xs, vcpu, anchor);
    if RecommendVcpu(vcpu, v.cpu, p) < vcpu {
      ShrunkVcpuCarriesSamples(vcpu, VmStreams.CpuOf(accepted), p, cpu);
    }
    if RecommendMem(memMB, windows, v.mem, p) < memMB {
      ShrunkMemCoversActive(memMB, windows, VmStreams.MemOf(accepted), p, mem);
    }
  }

  // ------------------------------------------------------------------- a cluster

  /** What sizeCluster reads. */
  datatype Load = Load(
    standalone: bool, hosts: nat, cores: nat, capMhz: real, capMemB: real, recMemMB: nat, cpu: Option<HistState>)
  {
    ghost predicate Valid() {
      capMhz > 0.0 && capMemB > 0.0 && (cpu.Some? ==> cpu.value.Valid())
    }
  }

  /** What it writes. */
  datatype Hosts = Hosts(
    needMhz: real, needMemB: real, needCores: int, forCpu: int, forMem: int, needed: int, spare: int)

  const NO_HOSTS := Hosts(0.0, 0.0, 0, 0, 0, 0, 0)

  lemma PerHostPositive(l: Load)
    requires l.Valid() && l.hosts > 0
    ensures l.capMhz / l.hosts as real > 0.0 && l.capMemB / l.hosts as real > 0.0
  {
  }

  function CoresFor(l: Load, needMhz: real): int
    requires l.capMhz > 0.0 && l.cores > 0
  {
    var core := l.capMhz / l.cores as real;
    Ceil(needMhz / core)
  }

  function DemandMhz(l: Load, p: Profile): real
    requires l.cpu.Some? ==> l.cpu.value.Valid()
  {
    (if l.cpu.Some? then PctOf(l.cpu.value, p.percentile) else 0.0) / 100.0 * l.capMhz
  }

  function DemandMem(l: Load): real {
    l.recMemMB as real * MIB as real * MEM_OVERHEAD
  }

  function HostsFor(l: Load, p: Profile): Hosts
    requires l.Valid() && p.Valid() && l.hosts > 0
  {
    var needMhz, needMemB := DemandMhz(l, p) / p.hostCpu, DemandMem(l) / p.hostMem;
    var forCpu, forMem := ForCpu(l, needMhz), ForMem(l, needMemB);
    var running := Max(1, Max(forCpu, forMem));
    Hosts(needMhz, needMemB, if l.cores > 0 then CoresFor(l, needMhz) else 0, forCpu, forMem,
          if l.standalone then running else Max(2, running + 1), if l.standalone then 0 else 1)
  }

  function ForCpu(l: Load, needMhz: real): int
    requires l.Valid() && l.hosts > 0
  {
    PerHostPositive(l);
    Ceil(needMhz / (l.capMhz / l.hosts as real))
  }

  function ForMem(l: Load, needMemB: real): int
    requires l.Valid() && l.hosts > 0
  {
    PerHostPositive(l);
    Ceil(needMemB / (l.capMemB / l.hosts as real))
  }

  /** CPU at the percentile and memory with overhead, at the host targets, and the fewest cores and hosts that provide them. */
  ghost predicate Needs(l: Load, p: Profile, h: Hosts)
    requires l.Valid() && p.Valid()
  {
    var pct := if l.cpu.Some? then PctOf(l.cpu.value, p.percentile) else 0.0;
    && Times(h.needMhz, p.hostCpu) == Times(pct / 100.0, l.capMhz)
    && Times(h.needMemB, p.hostMem) == l.recMemMB as real * 1048576.0 * 1.05
    && IsLeast(h.forCpu, h.needMhz, l.capMhz, l.hosts)
    && IsLeast(h.forMem, h.needMemB, l.capMemB, l.hosts)
    && (if l.cores == 0 then h.needCores == 0 else IsLeast(h.needCores, h.needMhz, l.capMhz, l.cores))
  }

  /** k of n equal parts of cap are just enough for x. */
  ghost predicate IsLeast(k: int, x: real, cap: real, n: nat) {
    Times((k - 1) as real, cap) < Times(x, n as real) <= Times(k as real, cap)
  }

  lemma CoversShare(x: real, cap: real, n: nat, k: int)
    requires cap > 0.0 && n > 0
    ensures cap / n as real > 0.0
    ensures Ceil(x / (cap / n as real)) <= k <==> Times(x, n as real) <= Times(k as real, cap)
  {
    var share := cap / n as real;
    CeilLeast(x / share, k);
    DivideCovers(x, share, k as real);
    assert Times(Times(k as real, share), n as real) == Times(k as real, cap);
    var gap := Times(k as real, share) - x;
    assert Times(gap, n as real) == Times(k as real, cap) - Times(x, n as real);
    if gap >= 0.0 {
      ProductNonNegative(gap, n as real);
    } else {
      ProductPositive(-gap, n as real);
      assert Times(-gap, n as real) == -Times(gap, n as real);
    }
  }

  lemma ShareIsLeast(x: real, cap: real, n: nat)
    requires cap > 0.0 && n > 0
    ensures cap / n as real > 0.0 && IsLeast(Ceil(x / (cap / n as real)), x, cap, n)
  {
    var k := Ceil(x / (cap / n as real));
    CoversShare(x, cap, n, k);
    CoversShare(x, cap, n, k - 1);
  }

  lemma NeedsAre(l: Load, p: Profile)
    requires l.Valid() && p.Valid()
    ensures l.hosts > 0 ==> Needs(l, p, HostsFor(l, p))
  {
    if l.hosts > 0 {
      DemandsAre(l, p);
      hide PctOf, Times, IsLeast, Ceil, DemandMhz, DemandMem;
      PerHostPositive(l);
      var h := HostsFor(l, p);
      ShareIsLeast(h.needMhz, l.capMhz, l.hosts);
      ShareIsLeast(h.needMemB, l.capMemB, l.hosts);
      if l.cores > 0 {
        ShareIsLeast(h.needMhz, l.capMhz, l.cores);
      }
    }
  }

  lemma DemandsAre(l: Load, p: Profile)
    requires l.Valid() && p.Valid()
    ensures Times(DemandMhz(l, p) / p.hostCpu, p.hostCpu)
      == Times((if l.cpu.Some? then PctOf(l.cpu.value, p.percentile) else 0.0) / 100.0, l.capMhz)
    ensures Times(DemandMem(l) / p.hostMem, p.hostMem) == l.recMemMB as real * 1048576.0 * 1.05
  {
    QuotientTimes(DemandMhz(l, p), p.hostCpu);
    QuotientTimes(DemandMem(l), p.hostMem);
    hide PctOf;
  }

  class ClusterResult {
    const load: Load
    var hosts: Hosts

    constructor (load: Load)
      ensures this.load == load && hosts == NO_HOSTS
    {
      this.load := load;
      hosts := NO_HOSTS;
    }

    method SizeCluster(p: Profile)
      requires load.Valid() && p.Valid() && hosts == NO_HOSTS
      modifies this
      ensures hosts == if load.hosts == 0 then NO_HOSTS else HostsFor(load, p)
      ensures load.hosts > 0 ==>
        && hosts.spare == (if load.standalone then 0 else 1)
        && hosts.needed == hosts.spare + Max(1, Max(hosts.forCpu, hosts.forMem))
        && (!load.standalone ==> hosts.needed >= 2)
        && Needs(load, p, hosts)
    {
      NeedsAre(load, p);
      hide PctOf, ForCpu, ForMem, CoresFor, DemandMhz, DemandMem;
      if load.hosts == 0 {
        return;
      }
      hosts := hosts.(needMhz := DemandMhz(load, p) / p.hostCpu);
      hosts := hosts.(needMemB := DemandMem(load) / p.hostMem);
      if load.cores > 0 {
        hosts := hosts.(needCores := CoresFor(load, hosts.needMhz));
      }
      hosts := hosts.(forCpu := ForCpu(load, hosts.needMhz));
      hosts := hosts.(forMem := ForMem(load, hosts.needMemB));
      hosts := hosts.(needed := Max(1, Max(hosts.forCpu, hosts.forMem)));
      if !load.standalone {
        hosts := hosts.(spare := 1);
        hosts := hosts.(needed := Max(2, hosts.needed + hosts.spare));
      }
    }
  }

  /** k hosts carry the load at the host targets. */
  ghost predicate Carry(l: Load, p: Profile, demandMhz: real, k: int)
    requires l.hosts > 0
  {
    && demandMhz <= Times(Times(k as real, l.capMhz / l.hosts as real), p.hostCpu)
    && DemandMem(l) <= Times(Times(k as real, l.capMemB / l.hosts as real), p.hostMem)
  }

  lemma CarryIff(l: Load, p: Profile, k: int)
    requires l.Valid() && p.Valid() && l.hosts > 0
    ensures Carry(l, p, DemandMhz(l, p), k) <==> HostsFor(l, p).forCpu <= k && HostsFor(l, p).forMem <= k
  {
    PerHostPositive(l);
    var h, mhz, mem := HostsFor(l, p), l.capMhz / l.hosts as real, l.capMemB / l.hosts as real;
    CeilLeast(h.needMhz / mhz, k);
    CeilLeast(h.needMemB / mem, k);
    DivideCovers(h.needMhz, mhz, k as real);
    DivideCovers(h.needMemB, mem, k as real);
    DivideCovers(DemandMhz(l, p), p.hostCpu, Times(k as real, mhz));
    DivideCovers(DemandMem(l), p.hostMem, Times(k as real, mem));
  }

  /** With the HA spare out, the hosts still carry CPU and memory at the targets, and no smaller number would. */
  lemma HostsAreEnoughAndMinimal(l: Load, p: Profile)
    requires l.Valid() && p.Valid() && l.hosts > 0
    ensures var h := HostsFor(l, p);
      && h.needed - h.spare >= 1
      && Carry(l, p, DemandMhz(l, p), h.needed - h.spare)
      && (forall k :: 1 <= k < h.needed - h.spare ==> !Carry(l, p, DemandMhz(l, p), k))
  {
    forall k
      ensures Carry(l, p, DemandMhz(l, p), k) <==> HostsFor(l, p).forCpu <= k && HostsFor(l, p).forMem <= k
    {
      CarryIff(l, p, k);
    }
  }

  lemma DemandIsTimes(l: Load, p: Profile)
    requires l.cpu.Some? && l.cpu.value.Valid()
    ensures DemandMhz(l, p) == Times(PctOf(l.cpu.value, p.percentile) / 100.0, l.capMhz)
  {
  }

  /** The exact percentile of whatever a cluster's histogram recorded is carried too. */
  lemma HostsCarrySamples(l: Load, p: Profile, s: seq<Sample>, x: real)
    requires l.Valid() && p.Valid() && l.hosts > 0
    requires l.cpu == Some(Fold(s)) && ExactPct(s, p.percentile, x)
    ensures var h := HostsFor(l, p);
      Carry(l, p, Times(x / 100.0, l.capMhz), h.needed - h.spare)
  {
    hide PctOf, Fold, HostsFor, Times, DemandMem;
    HostsAreEnoughAndMinimal(l, p);
    PctNotBelow(s, p.percentile, x);
    ExactPctInRange(s, p.percentile, x);
    DemandIsTimes(l, p);
    TimesMonotone(x / 100.0, PctOf(Fold(s), p.percentile) / 100.0, l.capMhz, l.capMhz);
  }

  /**
   * End to end, over any run of calls in which every timestamp of the cluster has its
   * samples in one call: the hosts carry the exact percentile of the demand of all its hosts.
   */
  lemma HostsCarryDemand(l: Load, p: Profile, calls: seq<HostStore.Call>, st: HostStore.Stored,
                         cl: string, order: seq<HostSamples.Key>, x: real)
    requires l.Valid() && p.Valid() && l.hosts > 0
    requires HostStore.RunLeaves(HostStore.NOTHING_STORED, map[], calls, st) && l.cpu == Some(HostStore.ClusterEntry(st.clusters, cl).cpu)
    requires HostStreams.HasCapacity(CPU, calls, cl) && HostStreams.EachInOneCall(CPU, map[], calls, cl)
    requires HostStore.Each(order, HostStreams.KeysOver(CPU, map[], calls, cl))
    requires ExactPct(KeyStreams.Stream(HostStreams.SumOverRun(CPU, map[], calls), order), p.percentile, x)
    ensures var h := HostsFor(l, p);
      Carry(l, p, Times(x / 100.0, l.capMhz), h.needed - h.spare)
  {
    var sums := KeyStreams.Stream(HostStreams.SumOverRun(CPU, map[], calls), order);
    Tallies.TallyIs(sums);
    assert CPU.At(st, cl) == Tallies.Percents(l.cpu.value) && CPU.Empty() == Tallies.NoPercents() && CPU.Additive();
    hide *;
    hide HostStreams.Metric.At, HostStreams.Metric.Empty, HostStreams.Metric.Additive;
    HostStreams.SumsFromNothing(CPU, calls, st, cl, order);
    HostsCarrySamples(l, p, sums, x);
  }

  const CPU: HostStreams.Metric := HostStreams.CpuPercent

  /**
   * Otherwise they may not: when one of two hosts arrives in a later call, every
   * profile takes the two of them for enough, and they cannot carry what they carried
   * at that time with the target kept.
   */
  lemma LaterHostTooFewHosts(l: Load, p: Profile, a: string, b: string, t: int, cl: string, hostCluster: map<string, string>,
                             capacity: map<string, HostStore.Capacity>, st: HostStore.Stored)
    requires p in PROFILES && l == Load(false, 2, 0, 200.0, 1.0, 0, Some(LaterHost.CpuOf(st, cl)))
    requires a != b && t > 0 && HostSamples.ClusterOf(hostCluster, a) == cl == HostSamples.ClusterOf(hostCluster, b)
    requires HostStore.CapacityOf(capacity, cl).mhz == 200.0
    requires var one := HostStore.Call([LaterHost.BusyHost(a, t)], hostCluster, capacity);
      var two := HostStore.Call([LaterHost.BusyHost(b, t)], hostCluster, capacity);
      HostStore.RunLeaves(HostStore.NOTHING_STORED, map[], [one, two], st)
    ensures l.Valid() && p.Valid()
    ensures HostsFor(l, p).needed - HostsFor(l, p).spare == 2 && !Carry(l, p, 200.0, 2)
  {
    ProfilesAreValid();
    var one := HostStore.Call([LaterHost.BusyHost(a, t)], hostCluster, capacity);
    var two := HostStore.Call([LaterHost.BusyHost(b, t)], hostCluster, capacity);
    LaterHost.SplitReadsHalf(one, two, a, b, t, cl, st, p.percentile);
    hide PctOf;
    TwoHosts(l, p);
  }

  lemma TwoHosts(l: Load, p: Profile)
    requires p in PROFILES && l.cpu.Some? && l.cpu.value.Valid() && PctOf(l.cpu.value, p.percentile) == 50.0
    requires l == Load(false, 2, 0, 200.0, 1.0, 0, l.cpu)
    ensures l.Valid() && p.Valid()
    ensures HostsFor(l, p).needed - HostsFor(l, p).spare == 2 && !Carry(l, p, 200.0, 2)
  {
    ProfilesAreValid();
    hide PctOf;
    assert DemandMhz(l, p) == 100.0 && DemandMem(l) == 0.0;
  }
}
