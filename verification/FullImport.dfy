/**
 * The whole import of vCenter's history (importHistory, internal/engine/source.go):
 * the windows of the plan, oldest first, VMs and hosts.
 */
module FullImport {
  import opened Numbers
  import opened DemandSlots
  import opened VcSeries
  import opened VmStore
  import opened HistoryPlanning
  import opened HistoryImport
  import opened MapSums
  import opened HostSamples
  import opened HostCalls
  import Hosts = HostStore
  import HostStreams
  import KeyStreams
  import Tallies

  /** The host series vCenter returned for each window, or its refusal. */
  type HostAnswer = Option<seq<Shaped>>

  /** No counter names the empty instance, as conversion guarantees. */
  ghost predicate AllNamed(answers: seq<HostAnswer>) {
    forall k :: 0 <= k < |answers| && answers[k].Some? ==> InstancesNamed(answers[k].value)
  }

  // ------------------------------------------------------- what the hosts are offered

  ghost function HostSeen(plan: seq<Window>, answers: seq<HostAnswer>, k: nat): map<string, int>
    requires |plan| == |answers| && k <= |plan| && forall i :: k <= i < |answers| ==> answers[i].Some?
    decreases |plan| - k
  {
    if k == |plan| then map[] else AllSeen(HostSeen(plan, answers, k + 1), TrimAll(answers[k].value, plan[k]))
  }

  /** The weighted storage load of the windows from the oldest up to window k. */
  ghost function HostStorage(plan: seq<Window>, answers: seq<HostAnswer>, v: IoView, k: nat): Vec
    requires |plan| == |answers| && k <= |plan| && forall i :: k <= i < |answers| ==> answers[i].Some?
    decreases |plan| - k
  {
    if k == |plan| then NONE
    else
      var series := TrimAll(answers[k].value, plan[k]);
      HostStorage(plan, answers, v, k + 1).Plus(
        Storage(HostSeen(plan, answers, k + 1), series, v).Times(Hosts.CallWeight(series)))
  }

  ghost function HostDemand(plan: seq<Window>, answers: seq<HostAnswer>, hostCluster: map<string, string>, v: ClusterView, k: nat): Vec
    requires |plan| == |answers| && k <= |plan| && forall i :: k <= i < |answers| ==> answers[i].Some?
    decreases |plan| - k
  {
    if k == |plan| then NONE
    else
      var series := TrimAll(answers[k].value, plan[k]);
      HostDemand(plan, answers, hostCluster, v, k + 1).Plus(
        Demand(HostSeen(plan, answers, k + 1), series, hostCluster, v).Times(Hosts.CallWeight(series)))
  }

  /** The calls of AddHosts for the windows from the oldest up to window k. */
  ghost function WindowCalls(plan: seq<Window>, answers: seq<HostAnswer>, hostCluster: map<string, string>,
                             capacity: map<string, Hosts.Capacity>, k: nat): seq<Hosts.Call>
    requires |plan| == |answers| && k <= |plan| && forall i :: k <= i < |answers| ==> answers[i].Some?
    decreases |plan| - k
  {
    if k == |plan| then []
    else
      WindowCalls(plan, answers, hostCluster, capacity, k + 1)
      + [Hosts.Call(TrimAll(answers[k].value, plan[k]), hostCluster, capacity)]
  }

  lemma {:induction false} CallsSee(plan: seq<Window>, answers: seq<HostAnswer>, hostCluster: map<string, string>,
                                    capacity: map<string, Hosts.Capacity>, k: nat)
    requires |plan| == |answers| && k <= |plan| && forall i :: k <= i < |answers| ==> answers[i].Some?
    ensures Hosts.SeenAfter(map[], WindowCalls(plan, answers, hostCluster, capacity, k)) == HostSeen(plan, answers, k)
    decreases |plan| - k
  {
    hide TrimAll, AllSeen;
    if k < |plan| {
      CallsSee(plan, answers, hostCluster, capacity, k + 1);
      var before, call := WindowCalls(plan, answers, hostCluster, capacity, k + 1), Hosts.Call(TrimAll(answers[k].value, plan[k]), hostCluster, capacity);
      assert (before + [call])[..|before|] == before;
    }
  }

  /** The host store is what the windows from the oldest up to window k make of an empty one. */
  ghost predicate HostsHold(st: Hosts.HostStore, plan: seq<Window>, answers: seq<HostAnswer>,
                            hostCluster: map<string, string>, capacity: map<string, Hosts.Capacity>, k: nat)
    requires |plan| == |answers| && k <= |plan| && forall i :: k <= i < |answers| ==> answers[i].Some?
    reads st
  {
    && Hosts.RunLeaves(Hosts.NOTHING_STORED, map[], WindowCalls(plan, answers, hostCluster, capacity, k), st.State())
    && st.hostLast == HostSeen(plan, answers, k)
    && (forall v: IoView :: v.Lasting() ==> st.StorageOn(v) == HostStorage(plan, answers, v, k))
    && (forall v: ClusterView :: v.Lasting() ==> st.DemandIn(v) == HostDemand(plan, answers, hostCluster, v, k))
  }

  lemma TrimNames(s: Series, w: Window)
    requires WellShaped(s)
    ensures Instances(TrimOf(s, w)) == Instances(s)
  {
    var t := TrimOf(s, w);
    assert t.inst.Keys == s.inst.Keys;
    assert forall c :: c in s.inst ==> t.inst[c].Keys == s.inst[c].Keys;
  }

  lemma {:induction false} TrimAllNames(series: seq<Shaped>, w: Window)
    requires InstancesNamed(series)
    ensures InstancesNamed(TrimAll(series, w)) && |TrimAll(series, w)| == |series|
    ensures forall i :: 0 <= i < |series| ==> TrimAll(series, w)[i] == TrimOf(series[i], w)
  {
    hide Instances, TrimOf, WellShaped;
    if series != [] {
      assert forall s :: s in series[..|series| - 1] ==> s in series;
      TrimAllNames(series[..|series| - 1], w);
      assert series[|series| - 1] in series;
      TrimNames(series[|series| - 1], w);
    }
  }

  // ------------------------------------------------------------------------ the import

  datatype History = History(vms: Store, hosts: Hosts.HostStore)

  lemma OneCallMore(mid: Hosts.Stored, calls: seq<Hosts.Call>, call: Hosts.Call, to: Hosts.Stored)
    requires Hosts.RunLeaves(Hosts.NOTHING_STORED, map[], calls, mid) && Hosts.CallLeaves(mid, Hosts.SeenAfter(map[], calls), call, to)
    ensures Hosts.RunLeaves(Hosts.NOTHING_STORED, map[], calls + [call], to)
  {
    hide Hosts.CallLeaves, Hosts.SeenAfter;
    assert (calls + [call])[..|calls|] == calls;
  }

  /** The host half of a window. */
  method ImportHosts(st: Hosts.HostStore, plan: seq<Window>, answers: seq<HostAnswer>, hostCluster: map<string, string>,
                     capacity: map<string, Hosts.Capacity>, k: nat)
    requires |plan| == |answers| && k < |plan| && AllNamed(answers)
    requires forall i :: k <= i < |answers| ==> answers[i].Some?
    requires st.Valid() && HostsHold(st, plan, answers, hostCluster, capacity, k + 1)
    modifies st
    ensures st.Valid() && HostsHold(st, plan, answers, hostCluster, capacity, k)
  {
    hide Hosts.HostStore.Valid, Hosts.HostStore.StorageOn, Hosts.HostStore.DemandIn, Storage, Demand, AllSeen, Vec.Plus, Vec.Times;
    hide InstancesNamed, IoView.Lasting, ClusterView.Lasting, IsGathered, WellShaped, TrimAll, Hosts.CallWeight;
    hide Hosts.CallLeaves, Hosts.RunLeaves, Hosts.SeenAfter, Hosts.ClusterStep, Hosts.IoStep, Hosts.FoldSteps, Hosts.Each;
    TrimAllNames(answers[k].value, plan[k]);
    var series := TrimEach(answers[k].value, plan[k]);
    ghost var before := st.State();
    ghost var g, ioOrder, order := st.AddHosts(series, hostCluster, capacity);
    CallsSee(plan, answers, hostCluster, capacity, k + 1);
    OneCallMore(before, WindowCalls(plan, answers, hostCluster, capacity, k + 1), Hosts.Call(series, hostCluster, capacity), st.State());
  }

  /**
   * Nothing is kept when vCenter refuses any window; otherwise both stores hold
   * what all windows, oldest first, make of empty ones.
   */
  method ImportHistory(plan: seq<Window>, answers: seq<Answer>, hostAnswers: seq<HostAnswer>, vcpu: map<string, int>,
                       hostCluster: map<string, string>, capacity: map<string, Hosts.Capacity>) returns (hist: Option<History>)
    requires |plan| == |answers| == |hostAnswers| && AllWellShaped(answers) && AllNamed(hostAnswers)
    ensures hist.None? <==> plan == [] || exists k :: 0 <= k < |plan| && (answers[k].None? || hostAnswers[k].None?)
    ensures hist.Some? ==>
      && fresh(hist.value.vms) && hist.value.vms.Valid()
      && hist.value.vms.anchor == Truncate(plan[|plan| - 1].start)
      && Holds(hist.value.vms, vcpu, StreamTo(plan, answers, 0))
    ensures hist.Some? ==>
      && fresh(hist.value.hosts) && hist.value.hosts.Valid()
      && HostsHold(hist.value.hosts, plan, hostAnswers, hostCluster, capacity, 0)
  {
    hide OfferAll, Store.Vm, WellShaped, Hosts.HostStore.Valid, HostsHold, HostSeen, HostStorage, HostDemand, Holds, Store.Valid;
    if plan == [] {
      return None;
    }
    var st := new Store(plan[|plan| - 1].start);
    var hosts := new Hosts.HostStore();
    var k := |plan|;
    NothingImported(st, hosts, plan, answers, hostAnswers, vcpu, hostCluster, capacity);
    while k > 0
      invariant 0 <= k <= |plan|
      invariant forall i :: k <= i < |plan| ==> answers[i].Some? && hostAnswers[i].Some?
      invariant fresh(st) && fresh(st.Footprint()) && st.Valid() && st.anchor == Truncate(plan[|plan| - 1].start)
      invariant fresh(hosts) && hosts !in st.Footprint() && hosts.Valid()
      invariant Holds(st, vcpu, StreamTo(plan, answers, k))
      invariant HostsHold(hosts, plan, hostAnswers, hostCluster, capacity, k)
    {
      k := k - 1;
      if answers[k].None? {
        return None;
      }
      ghost var before := StreamTo(plan, answers, k + 1);
      ImportWindow(st, answers[k].value, plan[k], vcpu, before);
      WindowDone(st, plan, answers, vcpu, k);
      if hostAnswers[k].None? {
        return None;
      }
      ImportHosts(hosts, plan, hostAnswers, hostCluster, capacity, k);
    }
    return Some(History(st, hosts));
  }

  lemma NothingImported(st: Store, hosts: Hosts.HostStore, plan: seq<Window>, answers: seq<Answer>, hostAnswers: seq<HostAnswer>,
                        vcpu: map<string, int>, hostCluster: map<string, string>, capacity: map<string, Hosts.Capacity>)
    requires |plan| == |answers| == |hostAnswers| && AllWellShaped(answers)
    requires st.Valid() && forall ref :: st.Vm(ref) == NewVm()
    requires hosts.clusters == map[] && hosts.io == map[] && hosts.hostLast == map[]
    ensures Holds(st, vcpu, StreamTo(plan, answers, |plan|))
    ensures HostsHold(hosts, plan, hostAnswers, hostCluster, capacity, |plan|)
  {
    hide Store.Valid, Store.Vm;
  }

  // ------------------------------------------------------------------- exactly once

  /** Every host at most once in an answer, oldest sample first and no timestamp twice. */
  ghost predicate OncePerHost(series: seq<Shaped>) {
    && (forall i, j :: 0 <= i < j < |series| ==> series[i].ref != series[j].ref)
    && (forall i :: 0 <= i < |series| ==> forall x, y :: 0 <= x < y < |series[i].ts| ==> series[i].ts[x] < series[i].ts[y])
  }

  /** What all samples of a window amount to, none left out. */
  ghost function EveryStorage(series: seq<Series>, v: IoView): Vec {
    if series == [] then NONE
    else
      var s := series[|series| - 1];
      EveryStorage(series[..|series| - 1], v).Plus(StorageTo(s, 0, |s.ts|, v))
  }

  ghost function EveryDemand(series: seq<Series>, hostCluster: map<string, string>, v: ClusterView): Vec {
    if series == [] then NONE
    else
      var s := series[|series| - 1];
      EveryDemand(series[..|series| - 1], hostCluster, v).Plus(DemandTo(s, 0, |s.ts|, ClusterOf(hostCluster, s.ref), v))
  }

  /** All samples of a call lie in (from, to]. */
  ghost predicate AllWithin(series: seq<Series>, from: int, to: int) {
    forall i, x :: 0 <= i < |series| && 0 <= x < |series[i].ts| ==> from < series[i].ts[x] <= to
  }

  /** Samples all newer than two times are accepted after either. */
  lemma {:induction false} AllAccepted(s: Series, a: int, b: int, m: nat, v: IoView, cl: string, u: ClusterView)
    requires m <= |s.ts| && forall x :: 0 <= x < |s.ts| ==> s.ts[x] > a && s.ts[x] > b
    ensures StorageTo(s, a, m, v) == StorageTo(s, b, m, v) && DemandTo(s, a, m, cl, u) == DemandTo(s, b, m, cl, u)
  {
    hide ShareAt, DemandAt, Vec.Plus;
    if m > 0 {
      AllAccepted(s, a, b, m - 1, v, cl, u);
    }
  }

  lemma {:induction false} SeenToWithin(seen: map<string, int>, s: Series, last: int, m: nat, to: int)
    requires m <= |s.ts| && (forall r :: Last(seen, r) <= to) && forall x :: 0 <= x < |s.ts| ==> s.ts[x] <= to
    ensures forall r :: Last(SeenTo(seen, s, last, m), r) <= to
    ensures forall r :: r != s.ref ==> Last(SeenTo(seen, s, last, m), r) == Last(seen, r)
  {
    if m > 0 {
      SeenToWithin(seen, s, last, m - 1, to);
      var before := SeenTo(seen, s, last, m - 1);
      forall r
        ensures Last(SeenTo(seen, s, last, m), r) <= to
      {
        assert Last(before, r) <= to;
      }
    }
  }

  /** One call: hosts seen before its samples accept all of them, and are then seen within it. */
  lemma {:induction false} CallAcceptsAll(seen: map<string, int>, series: seq<Series>, from: int, to: int,
                                          hostCluster: map<string, string>, v: IoView, u: ClusterView)
    requires DistinctHosts(series) && AllWithin(series, from, to) && 0 <= from <= to
    requires forall r :: Last(seen, r) <= from
    ensures Storage(seen, series, v) == EveryStorage(series, v)
    ensures Demand(seen, series, hostCluster, u) == EveryDemand(series, hostCluster, u)
    ensures forall r :: Last(AllSeen(seen, series), r) <= to
    ensures forall r :: (forall i :: 0 <= i < |series| ==> series[i].ref != r) ==> Last(AllSeen(seen, series), r) == Last(seen, r)
  {
    hide Vec.Plus, StorageTo, DemandTo, SeenTo;
    if series != [] {
      var init, s := series[..|series| - 1], series[|series| - 1];
      assert forall i :: 0 <= i < |init| ==> init[i] == series[i];
      CallAcceptsAll(seen, init, from, to, hostCluster, v, u);
      var before := AllSeen(seen, init);
      assert Last(before, s.ref) == Last(seen, s.ref);
      AllAccepted(s, Last(before, s.ref), 0, |s.ts|, v, ClusterOf(hostCluster, s.ref), u);
      SeenToWithin(before, s, Last(before, s.ref), |s.ts|, to);
    }
  }

  lemma TrimmedWithin(s: Series, w: Window, x: nat)
    requires WellShaped(s) && w.start != 0 && w.end != 0 && x < |TrimOf(s, w).ts|
    ensures w.start < TrimOf(s, w).ts[x] <= w.end
  {
    KeptAreKept(s.ts, w, |s.ts|);
  }

  lemma {:induction false} KeptAreKept(ts: seq<int>, w: Window, m: nat)
    requires m <= |ts|
    ensures forall k :: 0 <= k < |KeptTo(ts, w, m)| ==> Keep(w, ts[KeptTo(ts, w, m)[k]])
    ensures |KeptTo(ts, w, m)| == m ==> forall k :: 0 <= k < m ==> Keep(w, ts[k])
  {
    if m > 0 {
      KeptAreKept(ts, w, m - 1);
    }
  }

  lemma {:induction false} TrimAllIs(series: seq<Shaped>, w: Window)
    ensures |TrimAll(series, w)| == |series|
    ensures forall i :: 0 <= i < |series| ==> TrimAll(series, w)[i] == TrimOf(series[i], w)
  {
    hide TrimOf, WellShaped;
    if series != [] {
      TrimAllIs(series[..|series| - 1], w);
    }
  }

  lemma WindowIsCall(series: seq<Shaped>, w: Window)
    requires OncePerHost(series) && w.start != 0 && w.end != 0
    ensures DistinctHosts(TrimAll(series, w)) && AllWithin(TrimAll(series, w), w.start, w.end)
  {
    hide WellShaped, TrimOf;
    TrimAllIs(series, w);
    forall i | 0 <= i < |series|
      ensures TrimOf(series[i], w).ref == series[i].ref
    {
      TrimKeepsRef(series[i], w);
    }
    hide TrimAll;
    WindowWithin(series, w);
  }

  lemma TrimKeepsRef(s: Series, w: Window)
    requires WellShaped(s)
    ensures TrimOf(s, w).ref == s.ref
  {
  }

  /** Before window k no host has been seen later than where it starts. */
  lemma {:induction false} SeenBeforeWindow(plan: seq<Window>, answers: seq<HostAnswer>, k: nat, now: int, until: int)
    requires |plan| == |answers| && k <= |plan| && Tiles(plan, now, until) && 0 < until <= now
    requires forall i :: k <= i < |plan| ==> answers[i].Some? && OncePerHost(answers[i].value)
    ensures forall r :: Last(HostSeen(plan, answers, k), r) <= (if k == |plan| then 0 else plan[k].end)
    decreases |plan| - k
  {
    hide OncePerHost, AllSeen, TrimAll, WellShaped, DistinctHosts, AllWithin;
    if k < |plan| {
      SeenBeforeWindow(plan, answers, k + 1, now, until);
      StartsAfter(plan, now, until, k);
      if k + 1 < |plan| {
        StartsAfter(plan, now, until, k + 1);
      }
      WindowIsCall(answers[k].value, plan[k]);
      CallAcceptsAll(HostSeen(plan, answers, k + 1), TrimAll(answers[k].value, plan[k]), plan[k].start, plan[k].end, map[], Total, AllClusters);
    }
  }

  /**
   * Over the windows of any plan every in-window host sample is accepted exactly
   * once: what a window adds is what all its samples amount to.
   */
  lemma HostsExactlyOnce(ivs: seq<Interval>, now: int, back: int, answers: seq<HostAnswer>, hostCluster: map<string, string>,
                         k: nat, v: IoView, u: ClusterView)
    requires 0 < now - back <= now
    requires var plan := PlanOf(ivs, now, back); |plan| == |answers| && k < |plan|
    requires forall i :: 0 <= i < |answers| ==> answers[i].Some? && OncePerHost(answers[i].value)
    ensures
      var plan := PlanOf(ivs, now, back);
      var seen, series := HostSeen(plan, answers, k + 1), TrimAll(answers[k].value, plan[k]);
      && Storage(seen, series, v) == EveryStorage(series, v)
      && Demand(seen, series, hostCluster, u) == EveryDemand(series, hostCluster, u)
  {
    hide OncePerHost, AllSeen, TrimAll, WellShaped, DistinctHosts, AllWithin, HostSeen, Storage, Demand, EveryStorage, EveryDemand;
    var plan, until := PlanOf(ivs, now, back), PlanTo(ivs, now, now - back, |ivs|).cursor;
    PlanTiles(ivs, now, back);
    WindowsWithin(ivs, now, back, |plan| - 1);
    WindowsWithin(ivs, now, back, k);
    hide PlanOf, PlanTo;
    SeenBeforeWindow(plan, answers, k + 1, now, until);
    StartsAfter(plan, now, until, k);
    if k + 1 < |plan| {
      StartsAfter(plan, now, until, k + 1);
    }
    WindowIsCall(answers[k].value, plan[k]);
    CallAcceptsAll(HostSeen(plan, answers, k + 1), TrimAll(answers[k].value, plan[k]), plan[k].start, plan[k].end, hostCluster, v, u);
  }

  // ------------------------------------------------------ one value per timestamp

  lemma WindowWithin(series: seq<Shaped>, w: Window)
    requires w.start != 0 && w.end != 0
    ensures AllWithin(TrimAll(series, w), w.start, w.end)
  {
    hide WellShaped, TrimOf;
    TrimAllIs(series, w);
    forall i, x | 0 <= i < |series| && 0 <= x < |TrimOf(series[i], w).ts|
      ensures w.start < TrimOf(series[i], w).ts[x] <= w.end
    {
      TrimmedWithin(series[i], w, x);
    }
  }

  /** What a call records something for lies where its samples do. */
  lemma NewKeysWithin(metric: HostStreams.Metric, seen: map<string, int>, call: Hosts.Call, from: int, to: int)
    requires AllWithin(call.series, from, to)
    ensures forall key :: key in HostStreams.NewKeys(metric, seen, call) ==> from < key.t <= to
  {
    hide HostStreams.SumAt, Keys, Instances;
    KeysWithin(seen, call.series, call.hostCluster, from, to);
    forall key | key in HostStreams.IoKeys(call.series)
      ensures from < key.t <= to
    {
      var s, i, n :| s in call.series && 0 <= i < |s.ts| && n in Instances(s) + {""} && key == Key(n, s.ts[i]);
      var x :| 0 <= x < |call.series| && call.series[x] == s;
    }
  }

  /** Windows share no timestamp, so each has its host samples in one call. */
  lemma {:induction false} WindowsApart(metric: HostStreams.Metric, plan: seq<Window>, answers: seq<HostAnswer>, hostCluster: map<string, string>,
                                        capacity: map<string, Hosts.Capacity>, k: nat, now: int, until: int, name: string)
    requires |plan| == |answers| && k <= |plan| && Tiles(plan, now, until) && 0 < until <= now
    requires forall i :: k <= i < |answers| ==> answers[i].Some?
    ensures var calls := WindowCalls(plan, answers, hostCluster, capacity, k);
      && HostStreams.EachInOneCall(metric, map[], calls, name)
      && forall key :: key in HostStreams.KeysOver(metric, map[], calls, name) ==> key.t <= if k == |plan| then until else plan[k].end
    decreases |plan| - k
  {
    assert k == |plan| ==> WindowCalls(plan, answers, hostCluster, capacity, k) == [];
    hide TrimAll, WellShaped, HostStreams.NewKeys, HostStreams.KeysOver, HostStreams.EachInOneCall, AllSeen, Hosts.SeenAfter, Tiles;
    if k == |plan| {
      HostStreams.NoCallsNoKeys(metric, map[], name);
      HostStreams.NothingRecorded(metric, map[], name);
    } else {
      WindowsApart(metric, plan, answers, hostCluster, capacity, k + 1, now, until, name);
      var before, series := WindowCalls(plan, answers, hostCluster, capacity, k + 1), TrimAll(answers[k].value, plan[k]);
      var call := Hosts.Call(series, hostCluster, capacity);
      assert before + [call] == WindowCalls(plan, answers, hostCluster, capacity, k);
      StartsAfter(plan, now, until, k);
      if k + 1 < |plan| {
        StartsAfter(plan, now, until, k + 1);
      }
      WindowWithin(answers[k].value, plan[k]);
      NewKeysWithin(metric, Hosts.SeenAfter(map[], before), call, plan[k].start, plan[k].end);
      CallApart(metric, before, call, name, plan[k].start, plan[k].end);
    }
  }

  /** A call after all others shares no timestamp with them. */
  lemma CallApart(metric: HostStreams.Metric, before: seq<Hosts.Call>, call: Hosts.Call, name: string, from: int, to: int)
    requires HostStreams.EachInOneCall(metric, map[], before, name) && from <= to
    requires forall key :: key in HostStreams.KeysOver(metric, map[], before, name) ==> key.t <= from
    requires forall key :: key in HostStreams.NewKeys(metric, Hosts.SeenAfter(map[], before), call) ==> from < key.t <= to
    ensures HostStreams.EachInOneCall(metric, map[], before + [call], name)
    ensures forall key :: key in HostStreams.KeysOver(metric, map[], before + [call], name) ==> key.t <= to
  {
    hide HostStreams.NewKeys, HostStreams.EachInOneCall, Hosts.SeenAfter;
    assert (before + [call])[..|before|] == before;
    HostStreams.OneCallMore(metric, map[], before + [call], name);
  }

  /**
   * After an import, what is kept of a cluster or a datastore is the summary of one
   * value per timestamp, all hosts together, whatever windows the plan has.
   */
  lemma ImportRecordsSums(metric: HostStreams.Metric, ivs: seq<Interval>, now: int, back: int, answers: seq<HostAnswer>,
                          hostCluster: map<string, string>, capacity: map<string, Hosts.Capacity>, st: Hosts.Stored, name: string,
                          order: seq<Key>)
    requires 0 < now - back <= now && |PlanOf(ivs, now, back)| == |answers| > 0
    requires forall i :: 0 <= i < |answers| ==> answers[i].Some?
    requires metric.Additive() && metric.Measurable(Hosts.CapacityOf(capacity, name))
    requires var calls := WindowCalls(PlanOf(ivs, now, back), answers, hostCluster, capacity, 0);
      Hosts.RunLeaves(Hosts.NOTHING_STORED, map[], calls, st) && Hosts.Each(order, HostStreams.KeysOver(metric, map[], calls, name))
    ensures
      var calls := WindowCalls(PlanOf(ivs, now, back), answers, hostCluster, capacity, 0);
      metric.At(st, name) == Tallies.TallyFold(metric.Empty(), KeyStreams.Stream(HostStreams.SumOverRun(metric, map[], calls), order))
  {
    var plan, until := PlanOf(ivs, now, back), PlanTo(ivs, now, now - back, |ivs|).cursor;
    var calls := WindowCalls(plan, answers, hostCluster, capacity, 0);
    hide *;
    hide HostStreams.Metric.At, HostStreams.Metric.Empty, HostStreams.Metric.Measurable, HostStreams.Metric.Additive;
    PlanTiles(ivs, now, back);
    WindowsWithin(ivs, now, back, |plan| - 1);
    UntilIs(plan, now, until);
    CallsHaveCapacity(metric, plan, answers, hostCluster, capacity, 0, name);
    WindowsApart(metric, plan, answers, hostCluster, capacity, 0, now, until, name);
    HostStreams.SumsFromNothing(metric, calls, st, name, order);
  }

  lemma UntilIs(plan: seq<Window>, now: int, until: int)
    requires Tiles(plan, now, until) && plan != []
    ensures until == plan[|plan| - 1].start
  {
  }

  lemma {:induction false} CallsHaveCapacity(metric: HostStreams.Metric, plan: seq<Window>, answers: seq<HostAnswer>,
                                             hostCluster: map<string, string>, capacity: map<string, Hosts.Capacity>, k: nat, name: string)
    requires |plan| == |answers| && k <= |plan| && forall i :: k <= i < |answers| ==> answers[i].Some?
    requires metric.Measurable(Hosts.CapacityOf(capacity, name))
    ensures HostStreams.HasCapacity(metric, WindowCalls(plan, answers, hostCluster, capacity, k), name)
    decreases |plan| - k
  {
    hide TrimAll, WellShaped;
    if k < |plan| {
      CallsHaveCapacity(metric, plan, answers, hostCluster, capacity, k + 1, name);
    }
  }
}
