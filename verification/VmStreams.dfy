/**
 * What a VM's statistics say about the samples it was given: its histograms and
 * demand slots are those of the stream of accepted samples (Store.AddVM,
 * internal/analysis/stats.go), so the bounds on them hold for every VM.
 */
module VmStreams {
  import opened Numbers
  import opened RealProducts
  import opened Histograms
  import opened VcSeries
  import opened DemandSlots
  import opened VmStore
  import opened Ingest
  import opened Tallies
  import Ranks

  // ------------------------------------------------------------ one VM's stream

  /** One reading of every sample of a stream, each with the weight of its interval. */
  ghost function Of(read: Sample' -> real, xs: seq<Sample'>): seq<Ranks.Sample> {
    if xs == [] then []
    else Of(read, xs[..|xs| - 1]) + [Ranks.Sample(read(xs[|xs| - 1]), Weight(xs[|xs| - 1].interval))]
  }

  ghost function CpuOf(xs: seq<Sample'>): seq<Ranks.Sample> {
    Of((x: Sample') => x.cpu, xs)
  }

  ghost function MemOf(xs: seq<Sample'>): seq<Ranks.Sample> {
    Of((x: Sample') => x.mem, xs)
  }

  ghost function ReadingsOf(xs: seq<Sample'>): seq<Reading> {
    if xs == [] then []
    else ReadingsOf(xs[..|xs| - 1]) + [Reading(xs[|xs| - 1].ts, xs[|xs| - 1].interval, xs[|xs| - 1].cpuMhz)]
  }

  lemma FoldDemandSnoc(xs: seq<Reading>, x: Reading, anchor: int)
    ensures FoldDemand(xs + [x], anchor) == DemandSlots.AddDemand(FoldDemand(xs, anchor), anchor, x)
  {
    assert (xs + [x])[..|xs|] == xs;
  }

  /** Ready and co-stop: milliseconds of the interval, in percent of all vCPU; unknown without vCPU. */
  ghost function ReadyShare(vcpu: int): Sample' -> real {
    (x: Sample') => PerVcpu(x.ready, x.interval, vcpu)
  }

  ghost function CoStopShare(vcpu: int): Sample' -> real {
    (x: Sample') => PerVcpu(x.coStop, x.interval, vcpu)
  }

  lemma ShareIs(ms: real, interval: int, vcpu: int)
    ensures var seconds := if interval >= 20 then interval else 20;
      if ms >= 0.0 && vcpu > 0 then Times(PerVcpu(ms, interval, vcpu) / 100.0, seconds as real * 1000.0 * vcpu as real) == ms
      else PerVcpu(ms, interval, vcpu) < 0.0
  {
    if ms >= 0.0 && vcpu > 0 {
      var all := Max(interval, 20) as real * 1000.0 * vcpu as real;
      assert all > 0.0;
      assert Times(ms / all, all) == ms;
    }
  }

  /** The histograms and slots are those of the stream. */
  ghost predicate Histograms'(v: VmState, xs: seq<Sample'>, anchor: int) {
    v.cpu == Fold(CpuOf(xs)) && v.mem == Fold(MemOf(xs)) && v.demand == FoldDemand(ReadingsOf(xs), anchor)
  }

  /** So are the eight plain sums. */
  ghost predicate Sums(v: VmState, xs: seq<Sample'>, vcpu: int) {
    && v.ready == StatFold(Of(ReadyShare(vcpu), xs)) && v.coStop == StatFold(Of(CoStopShare(vcpu), xs))
    && v.cpuMhz == StatFold(Of((x: Sample') => x.cpuMhz, xs)) && v.consumed == StatFold(Of((x: Sample') => x.consumed, xs))
    && v.disk == StatFold(Of((x: Sample') => x.disk, xs)) && v.net == StatFold(Of((x: Sample') => x.net, xs))
    && v.readIops == StatFold(Of((x: Sample') => x.readIops, xs)) && v.writeIops == StatFold(Of((x: Sample') => x.writeIops, xs))
  }

  /** One pass leaves the histograms and slots of the stream. */
  lemma {:induction false} CountAllFolds(xs: seq<Sample'>, vcpu: int, anchor: int)
    ensures Histograms'(CountAll(NewVm(), xs, vcpu, anchor), xs, anchor)
  {
    hide Added, StatAdded, DemandSlots.AddDemand, Fold, FoldDemand;
    if xs == [] {
      NothingFolded(anchor);
    } else {
      var init, x := xs[..|xs| - 1], xs[|xs| - 1];
      CountAllFolds(init, vcpu, anchor);
      FoldSnoc(CpuOf(init), x.cpu, Weight(x.interval));
      FoldSnoc(MemOf(init), x.mem, Weight(x.interval));
      FoldDemandSnoc(ReadingsOf(init), Reading(x.ts, x.interval, x.cpuMhz), anchor);
    }
  }

  lemma NothingFolded(anchor: int)
    ensures Fold([]) == EmptyHist() && FoldDemand([], anchor) == NO_DEMAND && StatFold([]) == NO_STAT
  {
  }

  lemma OfSnoc(read: Sample' -> real, xs: seq<Sample'>)
    requires xs != []
    ensures var init, x := xs[..|xs| - 1], xs[|xs| - 1];
      StatFold(Of(read, xs)) == StatAdded(StatFold(Of(read, init)), read(x), Weight(x.interval))
  {
    StatFoldSnoc(Of(read, xs[..|xs| - 1]), read(xs[|xs| - 1]), Weight(xs[|xs| - 1].interval));
  }

  lemma NoSums(vcpu: int, anchor: int)
    ensures Sums(CountAll(NewVm(), [], vcpu, anchor), [], vcpu)
  {
    assert forall read: Sample' -> real :: Of(read, []) == [];
  }

  /** ... and its sums. */
  lemma {:induction false} CountAllSums(xs: seq<Sample'>, vcpu: int, anchor: int)
    ensures Sums(CountAll(NewVm(), xs, vcpu, anchor), xs, vcpu)
  {
    hide Added, StatAdded, DemandSlots.AddDemand, StatFold, Of, PerVcpu, Weight;
    if xs == [] {
      NoSums(vcpu, anchor);
    } else {
      CountAllSums(xs[..|xs| - 1], vcpu, anchor);
      OfSnoc(ReadyShare(vcpu), xs);
      OfSnoc(CoStopShare(vcpu), xs);
      OfSnoc((x: Sample') => x.cpuMhz, xs);
      OfSnoc((x: Sample') => x.consumed, xs);
      OfSnoc((x: Sample') => x.disk, xs);
      OfSnoc((x: Sample') => x.net, xs);
      OfSnoc((x: Sample') => x.readIops, xs);
      OfSnoc((x: Sample') => x.writeIops, xs);
    }
  }

  /** Whatever a VM was offered, its statistics are those of the accepted samples. */
  lemma StatisticsOfStream(xs: seq<Sample'>, vcpu: int, anchor: int)
    ensures var v, accepted := OfferAll(NewVm(), xs, vcpu, anchor), Accepted(xs, 0);
      && v.cpu == Fold(CpuOf(accepted)) && v.mem == Fold(MemOf(accepted))
      && v.demand == FoldDemand(ReadingsOf(accepted), anchor) && v.samples == TotalWeight(accepted)
      && Sums(v, accepted, vcpu)
  {
    hide Sums;
    OfferIsCountAccepted(NewVm(), xs, vcpu, anchor);
    CountAllFolds(Accepted(xs, 0), vcpu, anchor);
    CountAllSums(Accepted(xs, 0), vcpu, anchor);
    CountAllTotals(NewVm(), Accepted(xs, 0), vcpu, anchor);
  }

  /** First is where the first accepted sample begins. */
  lemma {:induction false} FirstIsStart(xs: seq<Sample'>, vcpu: int, anchor: int)
    requires xs != [] && xs[0].ts - Span(xs[0].interval) != 0
    ensures CountAll(NewVm(), xs, vcpu, anchor).first
      == xs[0].ts - (if xs[0].interval >= 20 then xs[0].interval else 20) * 1_000_000_000
  {
    hide Added, StatAdded, DemandSlots.AddDemand;
    if |xs| > 1 {
      FirstIsStart(xs[..|xs| - 1], vcpu, anchor);
    } else {
      assert xs[..0] == [];
    }
  }

  /** Which counters a sample is made of. */
  lemma SampleReadsCounters(s: Series, i: nat)
    requires i < |s.ts|
    ensures var x := SampleAt(s, i);
      && x.ts == s.ts[i] && x.interval == s.interval
      && Reads(s, i, "cpu.usage.average", x.cpu) && Reads(s, i, "mem.usage.average", x.mem)
      && Reads(s, i, "cpu.ready.summation", x.ready) && Reads(s, i, "cpu.costop.summation", x.coStop)
      && Reads(s, i, "cpu.usagemhz.average", x.cpuMhz) && Reads(s, i, "mem.consumed.average", x.consumed)
      && Reads(s, i, "disk.usage.average", x.disk) && Reads(s, i, "net.usage.average", x.net)
      && x.readIops == SumAt(s, "datastore.numberReadAveraged.average", i)
      && x.writeIops == SumAt(s, "datastore.numberWriteAveraged.average", i)
  {
  }

  /** The value of a counter at sample i, -1 when it has none. */
  ghost predicate Reads(s: Series, i: nat, counter: string, v: real) {
    if counter in s.values && i < |s.values[counter]| then v == s.values[counter][i] else v == -1.0
  }

  // ------------------------------------------- a long sample against short ones

  /** Two samples that differ in their times only. */
  ghost predicate SameValues(x: Sample', y: Sample') {
    && x.cpu == y.cpu && x.mem == y.mem && x.cpuMhz == y.cpuMhz && x.consumed == y.consumed && x.disk == y.disk
    && x.net == y.net && x.readIops == y.readIops && x.writeIops == y.writeIops
  }

  /** Both have the same histograms, sums and sample count; ready and co-stop are per second, so they differ. */
  ghost predicate SameStatistics(v: VmState, w: VmState) {
    && v.cpu == w.cpu && v.mem == w.mem && v.cpuMhz == w.cpuMhz && v.consumed == w.consumed && v.disk == w.disk
    && v.net == w.net && v.readIops == w.readIops && v.writeIops == w.writeIops && v.samples == w.samples
  }

  lemma StatAccumulates(s: StatState, v: real, n: nat)
    ensures StatAdded(StatAdded(s, v, n), v, 1) == StatAdded(s, v, n + 1)
  {
    assert v * n as real + v == v * (n + 1) as real;
  }

  /** What v becomes when the values of x count n times. */
  ghost predicate CountedTimes(v: VmState, x: Sample', n: nat, w: VmState)
    requires v.Valid()
  {
    && w.cpu == Added(v.cpu, x.cpu, n) && w.mem == Added(v.mem, x.mem, n)
    && w.cpuMhz == StatAdded(v.cpuMhz, x.cpuMhz, n) && w.consumed == StatAdded(v.consumed, x.consumed, n)
    && w.disk == StatAdded(v.disk, x.disk, n) && w.net == StatAdded(v.net, x.net, n)
    && w.readIops == StatAdded(v.readIops, x.readIops, n) && w.writeIops == StatAdded(v.writeIops, x.writeIops, n)
    && w.samples == v.samples + n
  }

  lemma OneMoreTime(v: VmState, x: Sample', y: Sample', n: nat, w: VmState, vcpu: int, anchor: int)
    requires v.Valid() && w.Valid() && CountedTimes(v, x, n, w) && SameValues(x, y) && y.interval == 20
    ensures CountedTimes(v, x, n + 1, Recorded'(w, y, vcpu, anchor))
  {
    hide Added, StatAdded, DemandSlots.AddDemand, PerVcpu;
    AddedAccumulates(v.cpu, x.cpu, n);
    AddedAccumulates(v.mem, x.mem, n);
    StatAccumulates(v.cpuMhz, x.cpuMhz, n);
    StatAccumulates(v.consumed, x.consumed, n);
    StatAccumulates(v.disk, x.disk, n);
    StatAccumulates(v.net, x.net, n);
    StatAccumulates(v.readIops, x.readIops, n);
    StatAccumulates(v.writeIops, x.writeIops, n);
  }

  lemma {:induction false} ShortOnesCount(v: VmState, x: Sample', xs: seq<Sample'>, vcpu: int, anchor: int)
    requires v.Valid() && forall y :: y in xs ==> SameValues(x, y) && y.interval == 20
    ensures CountedTimes(v, x, |xs|, CountAll(v, xs, vcpu, anchor))
  {
    hide CountedTimes, SameValues, Recorded';
    if xs == [] {
      NoTimes(v, x);
    } else {
      var init, y := xs[..|xs| - 1], xs[|xs| - 1];
      assert y in xs;
      ShortOnesCount(v, x, init, vcpu, anchor);
      OneMoreTime(v, x, y, |init|, CountAll(v, init, vcpu, anchor), vcpu, anchor);
    }
  }

  lemma NoTimes(v: VmState, x: Sample')
    requires v.Valid()
    ensures CountedTimes(v, x, 0, v)
  {
  }

  /** A sample of 20 k seconds counts like k samples of 20 seconds with its values. */
  lemma LongSampleIsMany(v: VmState, x: Sample', xs: seq<Sample'>, vcpu: int, anchor: int)
    requires v.Valid() && xs != [] && x.interval == 20 * |xs| && x.ts > v.last
    requires StrictlyAscending(xs)
    requires forall y :: y in xs ==> y.ts > v.last && SameValues(x, y) && y.interval == 20
    ensures SameStatistics(OfferAll(v, [x], vcpu, anchor), OfferAll(v, xs, vcpu, anchor))
  {
    OfferIsCountAccepted(v, xs, vcpu, anchor);
    AscendingAccepts(xs, v.last);
    AllNewer(xs, v.last);
    ShortOnesCount(v, x, xs, vcpu, anchor);
    LongOneCounts(v, x, |xs|, vcpu, anchor);
    hide *;
    SameCounts(v, x, |xs|, OfferAll(v, [x], vcpu, anchor), OfferAll(v, xs, vcpu, anchor));
  }

  lemma LongOneCounts(v: VmState, x: Sample', k: nat, vcpu: int, anchor: int)
    requires v.Valid() && k > 0 && x.interval == 20 * k && x.ts > v.last
    ensures CountedTimes(v, x, k, OfferAll(v, [x], vcpu, anchor))
  {
    hide Added, StatAdded, DemandSlots.AddDemand, PerVcpu;
    assert [x][..0] == [];
  }

  lemma SameCounts(v: VmState, x: Sample', n: nat, a: VmState, b: VmState)
    requires v.Valid() && CountedTimes(v, x, n, a) && CountedTimes(v, x, n, b)
    ensures SameStatistics(a, b)
  {
    hide Added, StatAdded;
  }

  /** The percentiles of a VM are never below the exact ones of its accepted samples, and never above 100%. */
  lemma VmPercentilesNotBelow(xs: seq<Sample'>, vcpu: int, anchor: int, p: real, cpu: real, mem: real)
    requires ExactPct(CpuOf(Accepted(xs, 0)), p, cpu) && ExactPct(MemOf(Accepted(xs, 0)), p, mem)
    ensures var v := OfferAll(NewVm(), xs, vcpu, anchor);
      cpu <= PctOf(v.cpu, p) <= 100.0 && mem <= PctOf(v.mem, p) <= 100.0
  {
    StatisticsOfStream(xs, vcpu, anchor);
    PctNotBelow(CpuOf(Accepted(xs, 0)), p, cpu);
    PctNotBelow(MemOf(Accepted(xs, 0)), p, mem);
  }

  /** Each demand slot of a VM is the mean of the accepted readings that cover it, until its counter saturates. */
  lemma VmSlotIsMean(xs: seq<Sample'>, vcpu: int, anchor: int, i: nat)
    requires anchor != 0 && anchor % SLOT_LENGTH == 0
    ensures
      var v := OfferAll(NewVm(), xs, vcpu, anchor);
      var slot, values := At(v.demand, i), Recorded(ReadingsOf(Accepted(xs, 0)), anchor, i);
      && ValidDemand(v.demand) && slot.n == Min(|values|, MAX_UINT16)
      && (|values| <= MAX_UINT16 + 1 ==> Times(slot.mean, |values| as real) == SumOf(values))
  {
    StatisticsOfStream(xs, vcpu, anchor);
    SlotIsMean(ReadingsOf(Accepted(xs, 0)), anchor, i);
  }
}
