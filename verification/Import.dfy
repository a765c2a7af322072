/**
 * Importing vCenter's history: trimming every answer to its window
 * (trim, internal/vc/perf.go) and feeding the windows oldest first
 * (importHistory, internal/engine/source.go).
 */
module HistoryImport {
  import opened Numbers
  import opened VcSeries
  import opened VmStore
  import opened HistoryPlanning
  import opened Ingest

  // --------------------------------------------------------------------- trim

  /** Every counter has one value per sample, as convert builds them. */
  ghost predicate WellShaped(s: Series) {
    && (forall c :: c in s.values ==> |s.values[c]| == |s.ts|)
    && (forall c, inst :: c in s.inst && inst in s.inst[c] ==> |s.inst[c][inst]| == |s.ts|)
  }

  /** A zero bound is no bound. */
  predicate Keep(w: Window, t: int) {
    (w.start == 0 || t > w.start) && (w.end == 0 || t <= w.end)
  }

  function KeptTo(ts: seq<int>, w: Window, m: nat): (idx: seq<nat>)
    requires m <= |ts|
    ensures |idx| <= m && forall k :: 0 <= k < |idx| ==> idx[k] < m
    ensures |idx| == m ==> forall k :: 0 <= k < m ==> idx[k] == k
  {
    if m == 0 then []
    else KeptTo(ts, w, m - 1) + if Keep(w, ts[m - 1]) then [m - 1] else []
  }

  function Pick<T>(v: seq<T>, idx: seq<nat>): (r: seq<T>)
    requires forall k :: 0 <= k < |idx| ==> idx[k] < |v|
    ensures |r| == |idx| && forall k :: 0 <= k < |r| ==> r[k] == v[idx[k]]
  {
    seq(|idx|, k requires 0 <= k < |idx| => v[idx[k]])
  }

  function TrimOf(s: Series, w: Window): Series
    requires WellShaped(s)
  {
    var idx := KeptTo(s.ts, w, |s.ts|);
    if |idx| == |s.ts| then s
    else
      Series(s.ref, s.interval, Pick(s.ts, idx),
             map c | c in s.values :: Pick(s.values[c], idx),
             map c | c in s.inst :: map inst | inst in s.inst[c] :: Pick(s.inst[c][inst], idx))
  }

  method Trim(s: Series, w: Window) returns (r: Series)
    requires WellShaped(s)
    ensures r == TrimOf(s, w)
  {
    var idx := [];
    for i := 0 to |s.ts|
      invariant idx == KeptTo(s.ts, w, i)
    {
      if Keep(w, s.ts[i]) {
        idx := idx + [i];
      }
    }
    if |idx| == |s.ts| {
      return s;
    }
    var values := map c | c in s.values :: Pick(s.values[c], idx);
    var inst := map c | c in s.inst :: map inst | inst in s.inst[c] :: Pick(s.inst[c][inst], idx);
    r := Series(s.ref, s.interval, Pick(s.ts, idx), values, inst);
  }

  lemma PickedReported(m: ByInstance, p: ByInstance, idx: seq<nat>, k: nat)
    requires k < |idx| && p.Keys == m.Keys
    requires forall inst :: inst in m ==> (forall j :: 0 <= j < |idx| ==> idx[j] < |m[inst]|) && p[inst] == Pick(m[inst], idx)
    ensures Reported(p, k) == Reported(m, idx[k])
  {
  }

  lemma TrimCounter(s: Series, w: Window, c: string, k: nat)
    requires WellShaped(s) && k < |TrimOf(s, w).ts|
    ensures |KeptTo(s.ts, w, |s.ts|)| == |TrimOf(s, w).ts|
    ensures ValueAt(TrimOf(s, w), c, k) == ValueAt(s, c, KeptTo(s.ts, w, |s.ts|)[k])
    ensures SumAt(TrimOf(s, w), c, k) == SumAt(s, c, KeptTo(s.ts, w, |s.ts|)[k])
  {
    var idx, r := KeptTo(s.ts, w, |s.ts|), TrimOf(s, w);
    if |idx| < |s.ts| {
      PickedReported(InstancesOf(s, c), InstancesOf(r, c), idx, k);
    }
  }

  lemma TrimTime(s: Series, w: Window, k: nat)
    requires WellShaped(s) && k < |TrimOf(s, w).ts|
    ensures |KeptTo(s.ts, w, |s.ts|)| == |TrimOf(s, w).ts|
    ensures TrimOf(s, w).ts[k] == s.ts[KeptTo(s.ts, w, |s.ts|)[k]] && TrimOf(s, w).interval == s.interval
  {
  }

  /** Sample k of the trimmed series is sample idx[k] of the original, counter by counter. */
  lemma TrimSampleAt(s: Series, w: Window, k: nat)
    requires WellShaped(s) && k < |TrimOf(s, w).ts|
    ensures |KeptTo(s.ts, w, |s.ts|)| == |TrimOf(s, w).ts|
    ensures SampleAt(TrimOf(s, w), k) == SampleAt(s, KeptTo(s.ts, w, |s.ts|)[k])
  {
    hide TrimOf, KeptTo, ValueAt, SumAt, WellShaped;
    TrimTime(s, w, k);
    TrimCounter(s, w, CPU_USAGE, k);
    TrimCounter(s, w, MEM_USAGE, k);
    TrimCounter(s, w, CPU_READY, k);
    TrimCounter(s, w, CPU_COSTOP, k);
    TrimCounter(s, w, CPU_MHZ, k);
    TrimCounter(s, w, MEM_CONSUMED, k);
    TrimCounter(s, w, DISK_USAGE, k);
    TrimCounter(s, w, NET_USAGE, k);
    TrimCounter(s, w, READ_IOPS, k);
    TrimCounter(s, w, WRITE_IOPS, k);
  }

  lemma SampleTime(s: Series, i: nat)
    requires i < |s.ts|
    ensures SampleAt(s, i).ts == s.ts[i] && SampleAt(s, i).interval == s.interval
  {
  }

  /** b holds the elements of xs at the indices idx. */
  ghost predicate IsPick<T>(b: seq<T>, xs: seq<T>, idx: seq<nat>) {
    |b| == |idx| && forall k :: 0 <= k < |idx| ==> idx[k] < |xs| && b[k] == xs[idx[k]]
  }

  lemma IsPickSnoc<T>(b: seq<T>, xs: seq<T>, idx: seq<nat>, x: T)
    requires IsPick(b, xs, idx)
    ensures IsPick(b, xs + [x], idx) && IsPick(b + [x], xs + [x], idx + [|xs|])
  {
  }

  lemma {:induction false} KeptAreBetween(s: Series, w: Window, m: nat)
    requires w.start != 0 && w.end != 0 && m <= |s.ts|
    ensures IsPick(Between(SamplesTo(s, m), w.start, w.end), SamplesTo(s, m), KeptTo(s.ts, w, m))
  {
    hide SampleAt, IsPick;
    if m == 0 {
      NothingPicked();
    } else {
      KeptAreBetween(s, w, m - 1);
      var xs, x := KeptStep(s, w, m);
      var b, idx := Between(xs, w.start, w.end), KeptTo(s.ts, w, m - 1);
      hide KeptTo, SamplesTo, Between;
      IsPickSnoc(b, xs, idx, x);
    }
  }

  /** One more sample, on both sides. */
  lemma KeptStep(s: Series, w: Window, m: nat) returns (xs: seq<Sample'>, x: Sample')
    requires w.start != 0 && w.end != 0 && 0 < m <= |s.ts|
    ensures xs == SamplesTo(s, m - 1) && |xs| == m - 1 && SamplesTo(s, m) == xs + [x]
    ensures var b, idx := Between(xs, w.start, w.end), KeptTo(s.ts, w, m - 1);
      || (Between(xs + [x], w.start, w.end) == b + [x] && KeptTo(s.ts, w, m) == idx + [m - 1])
      || (Between(xs + [x], w.start, w.end) == b && KeptTo(s.ts, w, m) == idx)
  {
    hide SampleAt;
    xs, x := SamplesTo(s, m - 1), SampleAt(s, m - 1);
    SampleTime(s, m - 1);
    BetweenSnoc(xs, x, w.start, w.end);
    hide Between, SamplesTo;
    if !(w.start < x.ts <= w.end) {
      assert Between(xs, w.start, w.end) + [] == Between(xs, w.start, w.end);
      assert KeptTo(s.ts, w, m - 1) + [] == KeptTo(s.ts, w, m - 1);
    }
  }

  lemma NothingPicked()
    ensures IsPick<Sample'>([], [], [])
  {
  }

  lemma SameElements<T>(a: seq<T>, b: seq<T>)
    requires |a| == |b| && forall k :: 0 <= k < |a| ==> a[k] == b[k]
    ensures a == b
  {
  }

  /** Sample k of the trimmed series is sample k of the window. */
  lemma TrimmedSample(s: Series, w: Window, k: nat)
    requires WellShaped(s) && w.start != 0 && w.end != 0 && k < |TrimOf(s, w).ts|
    ensures k < |Between(SamplesOf(s), w.start, w.end)|
    ensures SampleAt(TrimOf(s, w), k) == Between(SamplesOf(s), w.start, w.end)[k]
  {
    KeptAreBetween(s, w, |s.ts|);
    TrimSampleAt(s, w, k);
    hide TrimOf, KeptTo, SampleAt, WellShaped, Between;
  }

  /** Trimming keeps exactly the samples of the window (start, end]. */
  lemma TrimIsBetween(s: Series, w: Window)
    requires WellShaped(s) && w.start != 0 && w.end != 0
    ensures SamplesOf(TrimOf(s, w)) == Between(SamplesOf(s), w.start, w.end)
  {
    TrimLength(s, w);
    KeptAreBetween(s, w, |s.ts|);
    hide TrimOf, KeptTo, SampleAt, SamplesTo, WellShaped, Between;
    forall k | 0 <= k < |TrimOf(s, w).ts|
      ensures SamplesOf(TrimOf(s, w))[k] == Between(SamplesOf(s), w.start, w.end)[k]
    {
      TrimmedSample(s, w, k);
    }
    SameElements(SamplesOf(TrimOf(s, w)), Between(SamplesOf(s), w.start, w.end));
  }

  lemma TrimLength(s: Series, w: Window)
    requires WellShaped(s)
    ensures |TrimOf(s, w).ts| == |KeptTo(s.ts, w, |s.ts|)| == |SamplesOf(TrimOf(s, w))|
    ensures forall i :: 0 <= i < |s.ts| ==> SamplesOf(s)[i] == SampleAt(s, i)
    ensures forall k :: 0 <= k < |TrimOf(s, w).ts| ==> SamplesOf(TrimOf(s, w))[k] == SampleAt(TrimOf(s, w), k)
  {
  }

  /** A converted series: one value per counter and sample, as ConvertSorts shows. */
  type Shaped = s: Series | WellShaped(s) witness Series("", 0, [], map[], map[])

  function TrimAll(series: seq<Shaped>, w: Window): seq<Series> {
    if series == [] then [] else TrimAll(series[..|series| - 1], w) + [TrimOf(series[|series| - 1], w)]
  }

  /** The loops that trim a whole answer. */
  method TrimEach(series: seq<Shaped>, w: Window) returns (out: seq<Series>)
    ensures out == TrimAll(series, w)
  {
    hide WellShaped, TrimOf;
    out := [];
    for i := 0 to |series|
      invariant out == TrimAll(series[..i], w)
    {
      assert series[..i + 1][..i] == series[..i];
      var s := Trim(series[i], w);
      out := out + [s];
    }
    assert series[..|series|] == series;
  }

  // ------------------------------------------------------------------- import

  type Answer = Option<seq<Series>>

  ghost predicate AllWellShaped(answers: seq<Answer>) {
    forall k, i :: 0 <= k < |answers| && answers[k].Some? && 0 <= i < |answers[k].value| ==> WellShaped(answers[k].value[i])
  }

  /** A missing entry of a Go map reads as 0. */
  function VcpuOf(vcpu: map<string, int>, ref: string): int {
    if ref in vcpu then vcpu[ref] else 0
  }

  /** What the first n series of one answer offer to a VM. */
  ghost function OfferedIn(series: seq<Series>, w: Window, ref: string, n: nat): seq<Sample'>
    requires n <= |series|
    requires forall i :: 0 <= i < |series| ==> WellShaped(series[i])
  {
    if n == 0 then []
    else OfferedIn(series, w, ref, n - 1) + if series[n - 1].ref == ref then SamplesOf(TrimOf(series[n - 1], w)) else []
  }

  /** What the windows from the oldest up to window k offer to a VM. */
  ghost function Stream(plan: seq<Window>, answers: seq<Answer>, ref: string, k: nat): seq<Sample'>
    requires |plan| == |answers| && k <= |plan| && AllWellShaped(answers)
    requires forall i :: k <= i < |answers| ==> answers[i].Some?
    decreases |plan| - k
  {
    if k == |plan| then []
    else Stream(plan, answers, ref, k + 1) + OfferedIn(answers[k].value, plan[k], ref, |answers[k].value|)
  }

  /** Every VM of the store is what its stream makes of a new one. */
  ghost predicate Holds(st: Store, vcpu: map<string, int>, stream: string -> seq<Sample'>)
    requires st.Valid()
    reads st, st.Footprint()
  {
    forall ref :: st.Vm(ref) == OfferAll(NewVm(), stream(ref), VcpuOf(vcpu, ref), st.anchor)
  }

  ghost function StreamTo(plan: seq<Window>, answers: seq<Answer>, k: nat): string -> seq<Sample'>
    requires |plan| == |answers| && k <= |plan| && AllWellShaped(answers)
    requires forall i :: k <= i < |answers| ==> answers[i].Some?
  {
    ref => Stream(plan, answers, ref, k)
  }

  ghost function Plus(before: string -> seq<Sample'>, series: seq<Series>, w: Window, n: nat): string -> seq<Sample'>
    requires n <= |series|
    requires forall i :: 0 <= i < |series| ==> WellShaped(series[i])
  {
    ref => before(ref) + OfferedIn(series, w, ref, n)
  }

  lemma WindowDone(st: Store, plan: seq<Window>, answers: seq<Answer>, vcpu: map<string, int>, k: nat)
    requires st.Valid()
    requires |plan| == |answers| && k < |plan| && AllWellShaped(answers)
    requires forall i :: k <= i < |answers| ==> answers[i].Some?
    requires Holds(st, vcpu, Plus(StreamTo(plan, answers, k + 1), answers[k].value, plan[k], |answers[k].value|))
    ensures Holds(st, vcpu, StreamTo(plan, answers, k))
  {
    hide OfferAll, Store.Valid, Store.Vm, OfferedIn;
    var all := Plus(StreamTo(plan, answers, k + 1), answers[k].value, plan[k], |answers[k].value|);
    forall ref
      ensures st.Vm(ref) == OfferAll(NewVm(), StreamTo(plan, answers, k)(ref), VcpuOf(vcpu, ref), st.anchor)
    {
      assert all(ref) == StreamTo(plan, answers, k)(ref);
    }
  }

  /** One window: every series trimmed and added. */
  method ImportWindow(st: Store, series: seq<Series>, w: Window, vcpu: map<string, int>,
                      ghost before: string -> seq<Sample'>)
    requires st.Valid()
    requires forall i :: 0 <= i < |series| ==> WellShaped(series[i])
    requires Holds(st, vcpu, before)
    modifies st, st.Footprint()
    ensures st.Valid() && fresh(st.Footprint() - old(st.Footprint()))
    ensures Holds(st, vcpu, Plus(before, series, w, |series|))
  {
    hide Holds, Plus, With, OfferAll, TrimOf, Store.Vm, Store.Valid, WellShaped, SamplesOf;
    NothingAdded(st, vcpu, before, series, w);
    for i := 0 to |series|
      invariant st.Valid() && fresh(st.Footprint() - old(st.Footprint()))
      invariant Holds(st, vcpu, Plus(before, series, w, i))
    {
      ImportNext(st, series, w, vcpu, before, i);
    }
  }

  /** The body of that loop. */
  method ImportNext(st: Store, series: seq<Series>, w: Window, vcpu: map<string, int>,
                    ghost before: string -> seq<Sample'>, i: nat)
    requires st.Valid() && i < |series|
    requires forall j :: 0 <= j < |series| ==> WellShaped(series[j])
    requires Holds(st, vcpu, Plus(before, series, w, i))
    modifies st, st.Footprint()
    ensures st.Valid() && fresh(st.Footprint() - old(st.Footprint()))
    ensures Holds(st, vcpu, Plus(before, series, w, i + 1))
  {
    hide Holds, Plus, With, OfferAll, TrimOf, Store.Vm, Store.Valid, WellShaped, SamplesOf;
    var s := Trim(series[i], w);
    ImportSeries(st, s, vcpu, Plus(before, series, w, i));
    SeriesDone(st, vcpu, before, series, w, i);
  }

  ghost function With(was: string -> seq<Sample'>, s: Series): string -> seq<Sample'> {
    ref => if s.ref == ref then was(ref) + SamplesOf(s) else was(ref)
  }

  method ImportSeries(st: Store, s: Series, vcpu: map<string, int>, ghost was: string -> seq<Sample'>)
    requires st.Valid() && Holds(st, vcpu, was)
    modifies st, st.Footprint()
    ensures st.Valid() && fresh(st.Footprint() - old(st.Footprint()))
    ensures Holds(st, vcpu, With(was, s))
  {
    hide OfferAll, Store.Vm, SamplesOf;
    st.AddVM(s, VcpuOf(vcpu, s.ref));
    forall ref
      ensures st.Vm(ref) == OfferAll(NewVm(), With(was, s)(ref), VcpuOf(vcpu, ref), st.anchor)
    {
      OfferConcat(NewVm(), was(ref), SamplesOf(s), VcpuOf(vcpu, ref), st.anchor);
    }
  }

  lemma SeriesDone(st: Store, vcpu: map<string, int>, before: string -> seq<Sample'>, series: seq<Series>, w: Window, i: nat)
    requires st.Valid() && i < |series|
    requires forall j :: 0 <= j < |series| ==> WellShaped(series[j])
    requires Holds(st, vcpu, With(Plus(before, series, w, i), TrimOf(series[i], w)))
    ensures Holds(st, vcpu, Plus(before, series, w, i + 1))
  {
    hide OfferAll, Store.Valid, Store.Vm, SamplesOf;
    forall ref
      ensures st.Vm(ref) == OfferAll(NewVm(), Plus(before, series, w, i + 1)(ref), VcpuOf(vcpu, ref), st.anchor)
    {
      OneMore(before, series, w, i, ref);
    }
  }

  lemma NothingAdded(st: Store, vcpu: map<string, int>, before: string -> seq<Sample'>, series: seq<Series>, w: Window)
    requires st.Valid() && Holds(st, vcpu, before)
    requires forall i :: 0 <= i < |series| ==> WellShaped(series[i])
    ensures Holds(st, vcpu, Plus(before, series, w, 0))
  {
    hide OfferAll, Store.Valid, Store.Vm;
    forall ref
      ensures st.Vm(ref) == OfferAll(NewVm(), Plus(before, series, w, 0)(ref), VcpuOf(vcpu, ref), st.anchor)
    {
      assert Plus(before, series, w, 0)(ref) == before(ref);
    }
  }

  lemma OneMore(before: string -> seq<Sample'>, series: seq<Series>, w: Window, i: nat, ref: string)
    requires i < |series|
    requires forall j :: 0 <= j < |series| ==> WellShaped(series[j])
    ensures Plus(before, series, w, i + 1)(ref) == With(Plus(before, series, w, i), TrimOf(series[i], w))(ref)
  {
    hide SamplesOf;
    var more := if series[i].ref == ref then SamplesOf(TrimOf(series[i], w)) else [];
    assert before(ref) + (OfferedIn(series, w, ref, i) + more) == (before(ref) + OfferedIn(series, w, ref, i)) + more;
  }

  // ------------------------------------------------------------- main results

  /** The server answers window k with at most one series of the VM, in strictly ascending order. */
  ghost predicate OneSeries(series: seq<Series>, ref: string) {
    && (forall i, j :: 0 <= i < j < |series| && series[i].ref == ref ==> series[j].ref != ref)
    && (forall i :: 0 <= i < |series| && series[i].ref == ref ==> StrictlyAscending(SamplesOf(series[i])))
  }

  /** The raw samples of a VM among the first n series, before trimming. */
  ghost function RawSamples(series: seq<Series>, ref: string, n: nat): seq<Sample'>
    requires n <= |series|
  {
    if n == 0 then []
    else if series[n - 1].ref == ref then SamplesOf(series[n - 1])
    else RawSamples(series, ref, n - 1)
  }

  lemma {:induction false} OfferedIsBetween(series: seq<Series>, w: Window, ref: string, n: nat)
    requires n <= |series| && OneSeries(series, ref)
    requires forall i :: 0 <= i < |series| ==> WellShaped(series[i])
    requires w.start != 0 && w.end != 0
    ensures OfferedIn(series, w, ref, n) == Between(RawSamples(series, ref, n), w.start, w.end)
    ensures StrictlyAscending(RawSamples(series, ref, n))
    ensures (forall i :: 0 <= i < n ==> series[i].ref != ref) ==> RawSamples(series, ref, n) == []
  {
    hide TrimOf, SamplesOf, WellShaped;
    if n > 0 {
      OfferedIsBetween(series, w, ref, n - 1);
      if series[n - 1].ref == ref {
        TrimIsBetween(series[n - 1], w);
      }
    }
  }

  /** The stream of a tiling plan ascends through time, window by window. */
  lemma {:induction false} StreamAscends(plan: seq<Window>, answers: seq<Answer>, ref: string, k: nat, now: int, until: int)
    requires |plan| == |answers| && k <= |plan| && AllWellShaped(answers)
    requires forall i :: k <= i < |plan| ==> answers[i].Some? && OneSeries(answers[i].value, ref)
    requires Tiles(plan, now, until) && 0 < until <= now
    ensures StrictlyAscending(Stream(plan, answers, ref, k))
    ensures forall x :: x in Stream(plan, answers, ref, k) ==> until < x.ts <= (if k == 0 then now else plan[k - 1].start)
    decreases |plan| - k
  {
    hide OfferedIn, TrimOf, WellShaped;
    if k == |plan| {
      return;
    }
    StreamAscends(plan, answers, ref, k + 1, now, until);
    StartsAfter(plan, now, until, k);
    var series, w := answers[k].value, plan[k];
    OfferedIsBetween(series, w, ref, |series|);
    BetweenMembers(RawSamples(series, ref, |series|), w.start, w.end);
    var old', new' := Stream(plan, answers, ref, k + 1), OfferedIn(series, w, ref, |series|);
    JoinAscending(old', new', w.start);
  }

  lemma {:induction false} StartsAfter(plan: seq<Window>, now: int, until: int, k: nat)
    requires Tiles(plan, now, until) && 0 < until <= now && k < |plan|
    ensures until <= plan[k].start < plan[k].end
    ensures plan[k].end == if k == 0 then now else plan[k - 1].start
    decreases |plan| - k
  {
    if k < |plan| - 1 {
      StartsAfter(plan, now, until, k + 1);
    }
  }

  lemma JoinAscending(xs: seq<Sample'>, ys: seq<Sample'>, t: int)
    requires StrictlyAscending(xs) && StrictlyAscending(ys)
    requires forall x :: x in xs ==> x.ts <= t
    requires forall y :: y in ys ==> y.ts > t
    ensures StrictlyAscending(xs + ys)
  {
    forall i, j | 0 <= i < j < |xs + ys|
      ensures (xs + ys)[i].ts < (xs + ys)[j].ts
    {
      if i < |xs| <= j {
        assert xs[i] in xs && ys[j - |xs|] in ys;
      }
    }
  }

  /**
   * Exactly-once import: over the windows of a history plan, no in-window sample
   * is refused by the "newer than Last" test and none is counted twice, so the
   * statistics are one pass over the stream and Samples is the sum of its weights.
   */
  lemma ImportIsExactlyOnce(ivs: seq<Interval>, now: int, back: int, answers: seq<Answer>, ref: string, vcpu: int, anchor: int)
    requires 0 < now - back <= now
    requires |PlanOf(ivs, now, back)| == |answers| && AllWellShaped(answers)
    requires forall k :: 0 <= k < |answers| ==> answers[k].Some? && OneSeries(answers[k].value, ref)
    ensures var xs := Stream(PlanOf(ivs, now, back), answers, ref, 0);
      && Accepted(xs, 0) == xs && StrictlyAscending(xs)
      && OfferAll(NewVm(), xs, vcpu, anchor) == CountAll(NewVm(), xs, vcpu, anchor)
      && OfferAll(NewVm(), xs, vcpu, anchor).samples == TotalWeight(xs)
  {
    var plan, until := PlanOf(ivs, now, back), PlanTo(ivs, now, now - back, |ivs|).cursor;
    PlanTiles(ivs, now, back);
    if plan != [] {
      WindowsWithin(ivs, now, back, |plan| - 1);
    }
    assert 0 < until <= now;
    StreamAscends(plan, answers, ref, 0, now, until);
    var xs := Stream(plan, answers, ref, 0);
    AscendingAccepts(xs, 0);
    AllNewer(xs, 0);
    OfferIsCountAccepted(NewVm(), xs, vcpu, anchor);
    CountAllTotals(NewVm(), xs, vcpu, anchor);
  }

  /** The server returned x among the VM's samples of window i, and x lies in that window. */
  ghost predicate InWindow(plan: seq<Window>, answers: seq<Answer>, ref: string, i: nat, x: Sample')
    requires i < |plan| == |answers| && answers[i].Some?
  {
    Contains(plan[i], x.ts) && x in RawSamples(answers[i].value, ref, |answers[i].value|)
  }

  /** ... and a raw sample is in the stream exactly when it lies in the window it was read for. */
  lemma {:induction false} StreamHoldsEveryWindow(plan: seq<Window>, answers: seq<Answer>, ref: string, k: nat, x: Sample')
    requires |plan| == |answers| && k <= |plan| && AllWellShaped(answers)
    requires forall i :: k <= i < |plan| ==> answers[i].Some? && OneSeries(answers[i].value, ref)
    requires forall i :: k <= i < |plan| ==> plan[i].start != 0 && plan[i].end != 0
    ensures x in Stream(plan, answers, ref, k) <==> exists i :: k <= i < |plan| && InWindow(plan, answers, ref, i, x)
    decreases |plan| - k
  {
    hide OfferedIn, InWindow, OneSeries, WellShaped;
    if k < |plan| {
      StreamHoldsEveryWindow(plan, answers, ref, k + 1, x);
      WindowHolds(plan, answers, ref, k, x);
      assert x in Stream(plan, answers, ref, k) <==>
        x in Stream(plan, answers, ref, k + 1) || InWindow(plan, answers, ref, k, x);
    }
  }

  lemma WindowHolds(plan: seq<Window>, answers: seq<Answer>, ref: string, k: nat, x: Sample')
    requires k < |plan| == |answers| && AllWellShaped(answers)
    requires answers[k].Some? && OneSeries(answers[k].value, ref)
    requires plan[k].start != 0 && plan[k].end != 0
    ensures x in OfferedIn(answers[k].value, plan[k], ref, |answers[k].value|) <==> InWindow(plan, answers, ref, k, x)
  {
    hide OfferedIn, TrimOf, WellShaped, RawSamples;
    var series, w := answers[k].value, plan[k];
    OfferedIsBetween(series, w, ref, |series|);
    BetweenMembers(RawSamples(series, ref, |series|), w.start, w.end);
  }
}
