/**
 * Repeating, joining and dividing calls of Store.AddHosts (internal/analysis/stats.go):
 * which samples a host's "newer than HostLast" test lets in.
 */
module HostCalls {
  import opened Numbers
  import opened VcSeries
  import opened MapSums
  import opened HostSamples

  // ---------------------------------------------------- repeated and divided calls

  /** Oldest first, as converted series are; timestamps may repeat. */
  ghost predicate InOrder(s: Series) {
    forall i, j :: 0 <= i < j < |s.ts| ==> s.ts[i] <= s.ts[j]
  }

  ghost predicate AllInOrder(all: seq<Series>) {
    forall s :: s in all ==> InOrder(s)
  }

  /** Oldest first, the time a host was seen at is its newest sample, or stays. */
  lemma {:induction false} SeenIsNewest(seen: map<string, int>, s: Series, m: nat)
    requires InOrder(s) && m <= |s.ts|
    ensures
      var last := Last(seen, s.ref);
      Last(SeenTo(seen, s, last, m), s.ref) == (if m > 0 && s.ts[m - 1] > last then s.ts[m - 1] else last)
    ensures forall r :: r != s.ref ==> Last(SeenTo(seen, s, Last(seen, s.ref), m), r) == Last(seen, r)
  {
    if m > 0 {
      SeenIsNewest(seen, s, m - 1);
    }
  }

  /** The time a host was seen at never goes back, and covers every sample of a finished call. */
  lemma {:induction false} SeenCovers(seen: map<string, int>, all: seq<Series>)
    requires AllInOrder(all)
    ensures forall r :: Last(seen, r) <= Last(AllSeen(seen, all), r)
    ensures NothingNew(AllSeen(seen, all), all)
  {
    if all != [] {
      var s, init := all[|all| - 1], all[..|all| - 1];
      SeenCovers(seen, init);
      var before, after := AllSeen(seen, init), AllSeen(seen, all);
      SeenIsNewest(before, s, |s.ts|);
      forall j, i | 0 <= j < |all| && 0 <= i < |all[j].ts|
        ensures all[j].ts[i] <= Last(after, all[j].ref)
      {
        if j < |init| {
          assert init[j].ts[i] <= Last(before, init[j].ref);
        }
      }
    }
  }

  /** Offering an earlier call again, whatever came in between, finds nothing new. */
  lemma EarlierCallReplayed(seen: map<string, int>, all: seq<Series>, later: seq<Series>)
    requires AllInOrder(all) && AllInOrder(later)
    ensures NothingNew(AllSeen(AllSeen(seen, all), later), all)
  {
    SeenCovers(seen, all);
    SeenCovers(AllSeen(seen, all), later);
  }

  /** One call with two lists of series receives what two calls receive. */
  lemma {:induction false} CallsAddUp(seen: map<string, int>, one: seq<Series>, two: seq<Series>,
                                      hostCluster: map<string, string>, v: IoView, c: ClusterView)
    ensures AllSeen(seen, one + two) == AllSeen(AllSeen(seen, one), two)
    ensures Storage(seen, one + two, v) == Storage(seen, one, v).Plus(Storage(AllSeen(seen, one), two, v))
    ensures Demand(seen, one + two, hostCluster, c)
      == Demand(seen, one, hostCluster, c).Plus(Demand(AllSeen(seen, one), two, hostCluster, c))
    ensures Keys(seen, one + two, hostCluster) == Keys(seen, one, hostCluster) + Keys(AllSeen(seen, one), two, hostCluster)
  {
    hide Vec.Plus, StorageTo, DemandTo, KeysTo, Seen, ClusterOf;
    if two == [] {
      assert one + two == one;
      PlusLaws(Storage(seen, one, v), NONE, NONE);
      PlusLaws(Demand(seen, one, hostCluster, c), NONE, NONE);
    } else {
      var s, init := two[|two| - 1], two[..|two| - 1];
      CallsAddUp(seen, one, init, hostCluster, v, c);
      assert (one + two)[..|one + two| - 1] == one + init;
      var mid := AllSeen(seen, one);
      var last := Last(AllSeen(mid, init), s.ref);
      PlusLaws(Storage(seen, one, v), Storage(mid, init, v), StorageTo(s, last, |s.ts|, v));
      PlusLaws(Demand(seen, one, hostCluster, c), Demand(mid, init, hostCluster, c),
               DemandTo(s, last, |s.ts|, ClusterOf(hostCluster, s.ref), c));
    }
  }

  /** No two samples with one timestamp fall on both sides of sample j. */
  ghost predicate Divides(s: Series, j: nat)
    requires j <= |s.ts|
  {
    0 < j < |s.ts| ==> s.ts[j - 1] < s.ts[j]
  }

  function Slice(x: seq<real>, from: nat, to: nat): seq<real>
    requires from <= to
  {
    x[Min(from, |x|)..Min(to, |x|)]
  }

  /** The samples from..to of a series, with every counter cut to them. */
  function Cut(s: Series, from: nat, to: nat): Series
    requires from <= to <= |s.ts|
  {
    Series(s.ref, s.interval, s.ts[from..to], map c | c in s.values :: Slice(s.values[c], from, to),
           map c | c in s.inst :: map n | n in s.inst[c] :: Slice(s.inst[c][n], from, to))
  }

  lemma CutInstances(s: Series, from: nat, to: nat)
    requires from <= to <= |s.ts|
    ensures Instances(Cut(s, from, to)) == Instances(s)
  {
    var c := Cut(s, from, to);
    forall n
      ensures n in Instances(c) <==> n in Instances(s)
    {
      assert forall k :: k in s.inst ==> c.inst[k].Keys == s.inst[k].Keys;
    }
  }

  lemma CutReports(s: Series, from: nat, to: nat, i: nat)
    requires from <= to <= |s.ts| && i < to - from
    ensures forall c :: ValueAt(Cut(s, from, to), c, i) == ValueAt(s, c, from + i)
    ensures forall c, n :: Report(Cut(s, from, to), c, n, i) == Report(s, c, n, from + i)
  {
  }

  lemma CutGiven(s: Series, from: nat, to: nat, i: nat, n: string)
    requires from <= to <= |s.ts| && i < to - from
    ensures Given(Cut(s, from, to), n, i) == Given(s, n, from + i)
  {
    CutReports(s, from, to, i);
    hide Report, Cut, Positive;
  }

  lemma CutLoad(s: Series, from: nat, to: nat, i: nat, names: set<string>)
    requires from <= to <= |s.ts| && i < to - from
    ensures LoadOver(Cut(s, from, to), i, names) == LoadOver(s, from + i, names)
  {
    var c := Cut(s, from, to);
    hide Given, SumOver, Cut;
    var m := map n | n in names :: true;
    forall n | n in m
      ensures GivenBy(c, i)(n, m[n]) == GivenBy(s, from + i)(n, m[n])
    {
      CutGiven(s, from, to, i, n);
    }
    SumSame(m, GivenBy(c, i), GivenBy(s, from + i));
  }

  /** A sample keeps its meaning when its series is cut. */
  lemma CutSamples(s: Series, from: nat, to: nat, i: nat, v: IoView)
    requires from <= to <= |s.ts| && i < to - from
    ensures ShareAt(Cut(s, from, to), i, v) == ShareAt(s, from + i, v)
    ensures DemandAt(Cut(s, from, to), i) == DemandAt(s, from + i)
  {
    assert Cut(s, from, to).ts[i] == s.ts[from + i];
    CutInstances(s, from, to);
    CutLoad(s, from, to, i, Instances(s));
    CutReports(s, from, to, i);
    hide ValueAt, Report, Instances, Given, LoadOver, Cut, DemandOf;
    var name := match v case Datastore(n) => n case IoMoment(k) => k.name case _ => "";
    CutGiven(s, from, to, i, name);
  }

  /** Sums of a piece of a series that starts at sample from. */
  lemma {:induction false} CutSums(s: Series, from: nat, to: nat, m: nat, last: int, now: int, v: IoView, cl: string, u: ClusterView)
    requires InOrder(s) && from + m <= to <= |s.ts| && Divides(s, from)
    requires if from > 0 && s.ts[from - 1] > last then now == s.ts[from - 1] else now == last
    ensures StorageTo(s, last, from + m, v) == StorageTo(s, last, from, v).Plus(StorageTo(Cut(s, from, to), now, m, v))
    ensures DemandTo(s, last, from + m, cl, u)
      == DemandTo(s, last, from, cl, u).Plus(DemandTo(Cut(s, from, to), now, m, cl, u))
  {
    hide Vec.Plus, ShareAt, DemandAt, ClusterView.Covers;
    var c := Cut(s, from, to);
    PlusLaws(StorageTo(s, last, from, v), NONE, NONE);
    PlusLaws(DemandTo(s, last, from, cl, u), NONE, NONE);
    if m > 0 {
      CutSums(s, from, to, m - 1, last, now, v, cl, u);
      CutSamples(s, from, to, m - 1, v);
      var x := If(c.ts[m - 1] > now, ShareAt(c, m - 1, v));
      var y := If(c.ts[m - 1] > now && u.Covers(Key(cl, c.ts[m - 1])), DemandAt(c, m - 1));
      assert c.ts[m - 1] > now <==> s.ts[from + m - 1] > last;
      PlusLaws(StorageTo(s, last, from, v), StorageTo(c, now, m - 1, v), x);
      PlusLaws(DemandTo(s, last, from, cl, u), DemandTo(c, now, m - 1, cl, u), y);
    }
  }

  /** Where a host is seen at after the first piece, and after both. */
  lemma SplitSeen(seen: map<string, int>, s: Series, j: nat)
    requires InOrder(s) && j <= |s.ts| && Divides(s, j)
    ensures
      var last, mid := Last(seen, s.ref), Seen(seen, Cut(s, 0, j));
      && Last(mid, s.ref) == (if j > 0 && s.ts[j - 1] > last then s.ts[j - 1] else last)
      && forall r :: Last(Seen(seen, s), r) == Last(Seen(mid, Cut(s, j, |s.ts|)), r)
  {
    hide Last, SeenTo;
    var one, two := Cut(s, 0, j), Cut(s, j, |s.ts|);
    SeenIsNewest(seen, s, |s.ts|);
    SeenIsNewest(seen, one, j);
    SeenIsNewest(Seen(seen, one), two, |s.ts| - j);
  }

  lemma SplitSums(seen: map<string, int>, s: Series, j: nat, v: IoView, cl: string, u: ClusterView)
    requires InOrder(s) && j <= |s.ts| && Divides(s, j)
    ensures
      var one, two := Cut(s, 0, j), Cut(s, j, |s.ts|);
      var last, now := Last(seen, s.ref), Last(Seen(seen, one), s.ref);
      && StorageTo(s, last, |s.ts|, v) == StorageTo(one, last, j, v).Plus(StorageTo(two, now, |s.ts| - j, v))
      && DemandTo(s, last, |s.ts|, cl, u) == DemandTo(one, last, j, cl, u).Plus(DemandTo(two, now, |s.ts| - j, cl, u))
  {
    hide Vec.Plus, Last, StorageTo, DemandTo, Seen;
    var last := Last(seen, s.ref);
    var one := Cut(s, 0, j);
    SplitSeen(seen, s, j);
    CutSums(s, 0, j, j, last, last, v, cl, u);
    CutSums(s, j, |s.ts|, |s.ts| - j, last, Last(Seen(seen, one), s.ref), v, cl, u);
    NoSums(s, last, v, cl, u);
    PlusLaws(NONE, StorageTo(one, last, j, v), NONE);
    PlusLaws(StorageTo(one, last, j, v), NONE, NONE);
    PlusLaws(NONE, DemandTo(one, last, j, cl, u), NONE);
    PlusLaws(DemandTo(one, last, j, cl, u), NONE, NONE);
  }

  lemma NoSums(s: Series, last: int, v: IoView, cl: string, u: ClusterView)
    ensures StorageTo(s, last, 0, v) == NONE == DemandTo(s, last, 0, cl, u)
  {
  }

  /** How many of the first m samples are newer than last. */
  function AcceptedTo(s: Series, last: int, m: nat): nat
    requires m <= |s.ts|
  {
    if m == 0 then 0 else AcceptedTo(s, last, m - 1) + if s.ts[m - 1] > last then 1 else 0
  }

  /** The second piece accepts what the whole series does, but for samples as old as the newest of the first. */
  lemma {:induction false} CutAccepts(s: Series, j: nat, m: nat, last: int, now: int)
    requires InOrder(s) && j + m <= |s.ts|
    requires now == if j > 0 && s.ts[j - 1] > last then s.ts[j - 1] else last
    ensures var whole, split := AcceptedTo(s, last, j + m), AcceptedTo(s, last, j) + AcceptedTo(Cut(s, j, |s.ts|), now, m);
      && split <= whole
      && (m > 0 && s.ts[j] > last ==> (split == whole <==> s.ts[j] > now))
      && (m > 0 && s.ts[j] <= last ==> split == whole)
  {
    if m > 0 {
      CutAccepts(s, j, m - 1, last, now);
    }
  }

  lemma {:induction false} FirstPieceAccepts(s: Series, j: nat, m: nat, last: int)
    requires m <= j <= |s.ts|
    ensures AcceptedTo(Cut(s, 0, j), last, m) == AcceptedTo(s, last, m)
  {
    if m > 0 {
      FirstPieceAccepts(s, j, m - 1, last);
    }
  }

  lemma FirstPieceSeen(seen: map<string, int>, s: Series, j: nat)
    requires InOrder(s) && j <= |s.ts|
    ensures var last := Last(seen, s.ref);
      Last(Seen(seen, Cut(s, 0, j)), s.ref) == if j > 0 && s.ts[j - 1] > last then s.ts[j - 1] else last
  {
    hide Last, SeenTo;
    SeenIsNewest(seen, Cut(s, 0, j), j);
  }

  lemma SplitAccepts(s: Series, j: nat, last: int, now: int)
    requires InOrder(s) && j <= |s.ts|
    requires now == if j > 0 && s.ts[j - 1] > last then s.ts[j - 1] else last
    ensures AcceptedTo(s, last, |s.ts|)
      == AcceptedTo(Cut(s, 0, j), last, j) + AcceptedTo(Cut(s, j, |s.ts|), now, |s.ts| - j)
      <==> Divides(s, j) || s.ts[j] <= last
  {
    assert 0 < j < |s.ts| ==> s.ts[j - 1] <= s.ts[j];
    var m := |s.ts| - j;
    FirstPieceAccepts(s, j, j, last);
    CutAccepts(s, j, m, last, now);
    hide AcceptedTo, InOrder;
    assert j + m == |s.ts|;
  }

  /** Exactly where a host's samples may be divided: not between two new samples with one timestamp. */
  lemma SplitKeepsAllIff(seen: map<string, int>, s: Series, j: nat)
    requires InOrder(s) && j <= |s.ts|
    ensures
      var last, one, two := Last(seen, s.ref), Cut(s, 0, j), Cut(s, j, |s.ts|);
      var now := Last(Seen(seen, one), s.ref);
      AcceptedTo(s, last, |s.ts|) == AcceptedTo(one, last, j) + AcceptedTo(two, now, |s.ts| - j)
      <==> Divides(s, j) || s.ts[j] <= last
  {
    hide AcceptedTo, Seen, Last, InOrder, Divides;
    FirstPieceSeen(seen, s, j);
    SplitAccepts(s, j, Last(seen, s.ref), Last(Seen(seen, Cut(s, 0, j)), s.ref));
  }

  /** A host with two samples of 100 MHz at one time, as conversion leaves what a server sent twice. */
  function TwiceAt(ref: string, t: int): Series {
    Series(ref, 20, [t, t], map[CPU_MHZ := [100.0, 100.0]], map[])
  }

  lemma {:induction false} TwiceDemand(s: Series, last: int, m: nat, cl: string, t: int)
    requires m <= |s.ts| <= 2 && s.inst == map[] && last < t
    requires forall i :: 0 <= i < |s.ts| ==> s.ts[i] == t && ValueAt(s, CPU_MHZ, i) == 100.0
    ensures DemandTo(s, last, m, cl, Moment(Key(cl, t))).c == 100.0 * m as real && AcceptedTo(s, last, m) == m
  {
    if m > 0 {
      TwiceDemand(s, last, m - 1, cl, t);
      assert DemandAt(s, m - 1).c == 100.0 by {
        assert Instances(s) == {};
        EmptyLoad(s, m - 1);
      }
      hide DemandAt, ValueAt;
    }
  }

  /** Divided between those two, the second is refused, and half of the demand is never recorded. */
  lemma RepeatedStampLosesSample(seen: map<string, int>, ref: string, t: int, hostCluster: map<string, string>,
                                 s: Series, one: Series, two: Series, k: Key)
    requires Last(seen, ref) < t && k == Key(ClusterOf(hostCluster, ref), t)
    requires s == TwiceAt(ref, t) && one == Cut(s, 0, 1) && two == Cut(s, 1, 2)
    ensures
      var last, mid := Last(seen, ref), AllSeen(seen, [one]);
      && InOrder(s) && |s.ts| == 2 && |one.ts| == |two.ts| == 1
      && AcceptedTo(s, last, 2) == 2 && AcceptedTo(one, last, 1) == 1 && AcceptedTo(two, Last(mid, ref), 1) == 0
      && Demand(seen, [s], hostCluster, Moment(k)).c == 200.0
      && Demand(seen, [one], hostCluster, Moment(k)).c == 100.0
      && Demand(mid, [two], hostCluster, Moment(k)) == NONE
  {
    var last, mid := Last(seen, ref), AllSeen(seen, [one]);
    hide *;
    PiecesOfTwice(ref, t);
    SeenOne(seen, one, t);
    OneSeries(seen, s, hostCluster, Total, Moment(k));
    OneSeries(seen, one, hostCluster, Total, Moment(k));
    OneSeries(mid, two, hostCluster, Total, Moment(k));
    TwiceDemand(s, last, 2, k.name, t);
    TwiceDemand(one, last, 1, k.name, t);
    RefusedDemand(two, k.name, t);
  }

  lemma SeenOne(seen: map<string, int>, s: Series, t: int)
    requires s.ts == [t] && Last(seen, s.ref) < t
    ensures Last(AllSeen(seen, [s]), s.ref) == t
  {
    assert [s][..0] == [];
    assert SeenTo(seen, s, Last(seen, s.ref), 0) == seen;
  }

  lemma PiecesOfTwice(ref: string, t: int)
    ensures
      var s := TwiceAt(ref, t);
      var one, two := Cut(s, 0, 1), Cut(s, 1, 2);
      && InOrder(s) && s.ts == [t, t] && one.ts == two.ts == [t] && s.ref == one.ref == two.ref == ref
      && s.inst == one.inst == two.inst == map[]
      && ValueAt(s, CPU_MHZ, 0) == ValueAt(s, CPU_MHZ, 1) == ValueAt(one, CPU_MHZ, 0) == 100.0
  {
    CutReports(TwiceAt(ref, t), 0, 1, 0);
  }

  lemma RefusedDemand(s: Series, cl: string, t: int)
    requires s.ts == [t]
    ensures DemandTo(s, t, 1, cl, Moment(Key(cl, t))) == NONE && AcceptedTo(s, t, 1) == 0
  {
    hide DemandAt, ClusterView.Covers;
    PlusLaws(NONE, NONE, NONE);
    assert DemandTo(s, t, 0, cl, Moment(Key(cl, t))) == NONE && AcceptedTo(s, t, 0) == 0;
  }

  /** A host's samples may be divided between two calls at any point between two timestamps. */
  lemma SplitAnywhere(seen: map<string, int>, s: Series, j: nat, hostCluster: map<string, string>, v: IoView, u: ClusterView)
    requires InOrder(s) && j <= |s.ts| && Divides(s, j)
    ensures
      var one, two := [Cut(s, 0, j)], [Cut(s, j, |s.ts|)];
      var mid := AllSeen(seen, one);
      && Storage(seen, [s], v) == Storage(seen, one, v).Plus(Storage(mid, two, v))
      && Demand(seen, [s], hostCluster, u) == Demand(seen, one, hostCluster, u).Plus(Demand(mid, two, hostCluster, u))
      && forall r :: Last(AllSeen(seen, [s]), r) == Last(AllSeen(mid, two), r)
  {
    hide Vec.Plus, StorageTo, DemandTo, Storage, Demand, AllSeen, Seen, Last, ClusterOf;
    var one, two := Cut(s, 0, j), Cut(s, j, |s.ts|);
    OneSeries(seen, s, hostCluster, v, u);
    OneSeries(seen, one, hostCluster, v, u);
    OneSeries(Seen(seen, one), two, hostCluster, v, u);
    SplitSums(seen, s, j, v, ClusterOf(hostCluster, s.ref), u);
    SplitSeen(seen, s, j);
  }

  lemma OneSeries(seen: map<string, int>, s: Series, hostCluster: map<string, string>, v: IoView, u: ClusterView)
    ensures AllSeen(seen, [s]) == Seen(seen, s)
    ensures Storage(seen, [s], v) == StorageTo(s, Last(seen, s.ref), |s.ts|, v)
    ensures Demand(seen, [s], hostCluster, u) == DemandTo(s, Last(seen, s.ref), |s.ts|, ClusterOf(hostCluster, s.ref), u)
  {
    hide StorageTo, DemandTo, Seen;
    assert [s][..0] == [];
    PlusLaws(NONE, StorageTo(s, Last(seen, s.ref), |s.ts|, v), NONE);
    PlusLaws(NONE, DemandTo(s, Last(seen, s.ref), |s.ts|, ClusterOf(hostCluster, s.ref), u), NONE);
  }

  // ------------------------------------------------------------ one series per host

  ghost predicate DistinctHosts(series: seq<Series>) {
    forall i, j :: 0 <= i < j < |series| ==> series[i].ref != series[j].ref
  }

  /** The sums of a call, host by host. */
  ghost function StorageEach(seen: map<string, int>, all: seq<Series>, v: IoView): Vec {
    if all == [] then NONE
    else
      var s := all[|all| - 1];
      StorageEach(seen, all[..|all| - 1], v).Plus(StorageTo(s, Last(seen, s.ref), |s.ts|, v))
  }

  ghost function DemandEach(seen: map<string, int>, all: seq<Series>, hostCluster: map<string, string>, u: ClusterView): Vec {
    if all == [] then NONE
    else
      var s := all[|all| - 1];
      DemandEach(seen, all[..|all| - 1], hostCluster, u).Plus(
        DemandTo(s, Last(seen, s.ref), |s.ts|, ClusterOf(hostCluster, s.ref), u))
  }

  lemma NeverSeen(ref: string)
    ensures Last(map[], ref) == 0
  {
  }

  lemma {:induction false} SeenElsewhere(seen: map<string, int>, s: Series, last: int, m: nat, r: string)
    requires m <= |s.ts| && r != s.ref
    ensures Last(SeenTo(seen, s, last, m), r) == Last(seen, r)
  {
    if m > 0 {
      SeenElsewhere(seen, s, last, m - 1, r);
    }
  }

  lemma {:induction false} SeenAlike(a: map<string, int>, b: map<string, int>, s: Series, last: int, m: nat)
    requires m <= |s.ts| && Last(a, s.ref) == Last(b, s.ref)
    ensures Last(SeenTo(a, s, last, m), s.ref) == Last(SeenTo(b, s, last, m), s.ref)
  {
    if m > 0 {
      SeenAlike(a, b, s, last, m - 1);
    }
  }

  /** With one series per host, each is measured against what its host was seen at before the call. */
  lemma {:induction false} HostByHost(seen: map<string, int>, all: seq<Series>, hostCluster: map<string, string>, v: IoView, u: ClusterView)
    requires DistinctHosts(all)
    ensures Storage(seen, all, v) == StorageEach(seen, all, v)
    ensures Demand(seen, all, hostCluster, u) == DemandEach(seen, all, hostCluster, u)
    ensures forall j :: 0 <= j < |all| ==> Last(AllSeen(seen, all), all[j].ref) == Last(Seen(seen, all[j]), all[j].ref)
    ensures forall r :: (forall j :: 0 <= j < |all| ==> all[j].ref != r) ==> Last(AllSeen(seen, all), r) == Last(seen, r)
  {
    hide Vec.Plus, StorageTo, DemandTo, SeenTo, Last, ClusterOf;
    if all != [] {
      var init, s := all[..|all| - 1], all[|all| - 1];
      assert forall j :: 0 <= j < |init| ==> init[j] == all[j];
      HostByHost(seen, init, hostCluster, v, u);
      var before := AllSeen(seen, init);
      assert Last(before, s.ref) == Last(seen, s.ref);
      SeenAlike(before, seen, s, Last(seen, s.ref), |s.ts|);
      forall r | r != s.ref
        ensures Last(Seen(before, s), r) == Last(before, r)
      {
        SeenElsewhere(before, s, Last(before, s.ref), |s.ts|, r);
      }
    }
  }

  /** The first and the second pieces of several series, each divided at its own sample. */
  ghost predicate Points(all: seq<Series>, at: seq<nat>) {
    |at| == |all| && forall j :: 0 <= j < |all| ==> at[j] <= |all[j].ts|
  }

  ghost function Firsts(all: seq<Series>, at: seq<nat>): seq<Series>
    requires Points(all, at)
  {
    seq(|all|, j requires 0 <= j < |all| => Cut(all[j], 0, at[j]))
  }

  ghost function Seconds(all: seq<Series>, at: seq<nat>): seq<Series>
    requires Points(all, at)
  {
    seq(|all|, j requires 0 <= j < |all| => Cut(all[j], at[j], |all[j].ts|))
  }

  /** The sums of the pieces add up, host by host. */
  lemma {:induction false} PiecesAddUp(seen: map<string, int>, mid: map<string, int>, all: seq<Series>, at: seq<nat>,
                                       hostCluster: map<string, string>, v: IoView, u: ClusterView)
    requires Points(all, at) && AllInOrder(all) && forall j :: 0 <= j < |all| ==> Divides(all[j], at[j])
    requires forall j :: 0 <= j < |all| ==> Last(mid, all[j].ref) == Last(Seen(seen, Cut(all[j], 0, at[j])), all[j].ref)
    ensures StorageEach(seen, all, v) == StorageEach(seen, Firsts(all, at), v).Plus(StorageEach(mid, Seconds(all, at), v))
    ensures DemandEach(seen, all, hostCluster, u)
      == DemandEach(seen, Firsts(all, at), hostCluster, u).Plus(DemandEach(mid, Seconds(all, at), hostCluster, u))
  {
    hide StorageEach, DemandEach, Seen, Last, InOrder, Divides, Firsts, Seconds, Cut, Vec.Plus;
    if all == [] {
      NoPieces(all, at, seen, mid, hostCluster, v, u);
    } else {
      assert all[|all| - 1] in all && forall x :: x in all[..|all| - 1] ==> x in all;
      PiecesAddUp(seen, mid, all[..|all| - 1], at[..|all| - 1], hostCluster, v, u);
      PiecesMore(seen, mid, all, at, hostCluster, v, u);
    }
  }

  lemma PiecesMore(seen: map<string, int>, mid: map<string, int>, all: seq<Series>, at: seq<nat>,
                   hostCluster: map<string, string>, v: IoView, u: ClusterView)
    requires Points(all, at) && all != [] && Points(all[..|all| - 1], at[..|all| - 1])
    requires var s, j := all[|all| - 1], at[|all| - 1];
      InOrder(s) && Divides(s, j) && Last(mid, s.ref) == Last(Seen(seen, Cut(s, 0, j)), s.ref)
    requires var init, some := all[..|all| - 1], at[..|all| - 1];
      && StorageEach(seen, init, v) == StorageEach(seen, Firsts(init, some), v).Plus(StorageEach(mid, Seconds(init, some), v))
      && DemandEach(seen, init, hostCluster, u)
         == DemandEach(seen, Firsts(init, some), hostCluster, u).Plus(DemandEach(mid, Seconds(init, some), hostCluster, u))
    ensures StorageEach(seen, all, v) == StorageEach(seen, Firsts(all, at), v).Plus(StorageEach(mid, Seconds(all, at), v))
    ensures DemandEach(seen, all, hostCluster, u)
      == DemandEach(seen, Firsts(all, at), hostCluster, u).Plus(DemandEach(mid, Seconds(all, at), hostCluster, u))
  {
    assert |at| == |all| && at[|all| - 1] <= |all[|all| - 1].ts|;
    hide *;
    hide Vec.Plus;
    var init, some, s, j := all[..|all| - 1], at[..|all| - 1], all[|all| - 1], at[|all| - 1];
    PiecesSnoc(all, at);
    PiecesOfHost(seen, mid, s, j, hostCluster, v, u, StorageEach(seen, Firsts(init, some), v), StorageEach(mid, Seconds(init, some), v),
                 DemandEach(seen, Firsts(init, some), hostCluster, u), DemandEach(mid, Seconds(init, some), hostCluster, u));
    EachSnoc(seen, all, hostCluster, v, u);
    EachSnoc(seen, Firsts(all, at), hostCluster, v, u);
    EachSnoc(mid, Seconds(all, at), hostCluster, v, u);
  }

  lemma EachSnoc(seen: map<string, int>, all: seq<Series>, hostCluster: map<string, string>, v: IoView, u: ClusterView)
    requires all != []
    ensures var init, s := all[..|all| - 1], all[|all| - 1];
      && StorageEach(seen, all, v) == StorageEach(seen, init, v).Plus(StorageTo(s, Last(seen, s.ref), |s.ts|, v))
      && DemandEach(seen, all, hostCluster, u)
         == DemandEach(seen, init, hostCluster, u).Plus(DemandTo(s, Last(seen, s.ref), |s.ts|, ClusterOf(hostCluster, s.ref), u))
  {
  }

  lemma NoPieces(all: seq<Series>, at: seq<nat>, seen: map<string, int>, mid: map<string, int>, hostCluster: map<string, string>,
                 v: IoView, u: ClusterView)
    requires Points(all, at)
    ensures all == [] ==>
      && StorageEach(seen, all, v) == StorageEach(seen, Firsts(all, at), v).Plus(StorageEach(mid, Seconds(all, at), v))
      && DemandEach(seen, all, hostCluster, u)
         == DemandEach(seen, Firsts(all, at), hostCluster, u).Plus(DemandEach(mid, Seconds(all, at), hostCluster, u))
  {
    PlusLaws(NONE, NONE, NONE);
    if all == [] {
      assert Firsts(all, at) == [] == Seconds(all, at);
    }
  }

  lemma PiecesSnoc(all: seq<Series>, at: seq<nat>)
    requires Points(all, at) && all != []
    ensures var init, some, s, j := all[..|all| - 1], at[..|all| - 1], all[|all| - 1], at[|all| - 1];
      && Points(init, some)
      && Firsts(all, at) == Firsts(init, some) + [Cut(s, 0, j)] && Seconds(all, at) == Seconds(init, some) + [Cut(s, j, |s.ts|)]
      && Cut(s, 0, j).ref == s.ref == Cut(s, j, |s.ts|).ref && |Cut(s, 0, j).ts| == j && |Cut(s, j, |s.ts|).ts| == |s.ts| - j
      && Firsts(all, at)[..|all| - 1] == Firsts(init, some) && Seconds(all, at)[..|all| - 1] == Seconds(init, some)
  {
  }

  /** One more host: what both pieces of it add. */
  lemma PiecesOfHost(seen: map<string, int>, mid: map<string, int>, s: Series, j: nat, hostCluster: map<string, string>,
                     v: IoView, u: ClusterView, a: Vec, b: Vec, c: Vec, d: Vec)
    requires InOrder(s) && j <= |s.ts| && Divides(s, j) && Last(mid, s.ref) == Last(Seen(seen, Cut(s, 0, j)), s.ref)
    ensures var one, two, cl := Cut(s, 0, j), Cut(s, j, |s.ts|), ClusterOf(hostCluster, s.ref);
      var last, now := Last(seen, s.ref), Last(mid, s.ref);
      && a.Plus(b).Plus(StorageTo(s, last, |s.ts|, v))
         == a.Plus(StorageTo(one, last, |one.ts|, v)).Plus(b.Plus(StorageTo(two, now, |two.ts|, v)))
      && c.Plus(d).Plus(DemandTo(s, last, |s.ts|, cl, u))
         == c.Plus(DemandTo(one, last, |one.ts|, cl, u)).Plus(d.Plus(DemandTo(two, now, |two.ts|, cl, u)))
  {
    hide Vec.Plus, StorageTo, DemandTo, Seen, Last, ClusterOf, InOrder, Divides;
    var one, two, cl := Cut(s, 0, j), Cut(s, j, |s.ts|), ClusterOf(hostCluster, s.ref);
    var last, now := Last(seen, s.ref), Last(mid, s.ref);
    SplitSums(seen, s, j, v, cl, u);
    Rearrange(a, b, StorageTo(one, last, j, v), StorageTo(two, now, |s.ts| - j, v));
    Rearrange(c, d, DemandTo(one, last, j, cl, u), DemandTo(two, now, |s.ts| - j, cl, u));
  }

  lemma Rearrange(a: Vec, b: Vec, c: Vec, d: Vec)
    ensures a.Plus(b).Plus(c.Plus(d)) == a.Plus(c).Plus(b.Plus(d))
  {
  }

  /** The samples of many hosts may be divided between two calls, each host's at its own point between two timestamps. */
  lemma SplitEachAnywhere(seen: map<string, int>, all: seq<Series>, at: seq<nat>, hostCluster: map<string, string>, v: IoView, u: ClusterView)
    requires DistinctHosts(all) && AllInOrder(all) && Points(all, at)
    requires forall j :: 0 <= j < |all| ==> Divides(all[j], at[j])
    ensures
      var one, two := Firsts(all, at), Seconds(all, at);
      var mid := AllSeen(seen, one);
      && Storage(seen, all, v) == Storage(seen, one, v).Plus(Storage(mid, two, v))
      && Demand(seen, all, hostCluster, u) == Demand(seen, one, hostCluster, u).Plus(Demand(mid, two, hostCluster, u))
      && forall r :: Last(AllSeen(seen, all), r) == Last(AllSeen(mid, two), r)
  {
    hide Vec.Plus, Storage, Demand, StorageEach, DemandEach, AllSeen, Seen, Last, InOrder, Divides;
    var one, two := Firsts(all, at), Seconds(all, at);
    var mid := AllSeen(seen, one);
    HostByHost(seen, all, hostCluster, v, u);
    HostByHost(seen, one, hostCluster, v, u);
    HostByHost(mid, two, hostCluster, v, u);
    forall j | 0 <= j < |all|
      ensures Last(mid, all[j].ref) == Last(Seen(seen, Cut(all[j], 0, at[j])), all[j].ref)
    {
      assert one[j].ref == all[j].ref;
    }
    PiecesAddUp(seen, mid, all, at, hostCluster, v, u);
    forall r
      ensures Last(AllSeen(seen, all), r) == Last(AllSeen(mid, two), r)
    {
      if j :| 0 <= j < |all| && all[j].ref == r {
        assert two[j].ref == r;
        SplitHostSeen(seen, mid, all[j], at[j]);
      } else {
        assert forall j :: 0 <= j < |all| ==> one[j].ref != r && two[j].ref != r;
      }
    }
  }

  lemma SplitHostSeen(seen: map<string, int>, mid: map<string, int>, s: Series, j: nat)
    requires InOrder(s) && j <= |s.ts| && Divides(s, j)
    requires Last(mid, s.ref) == Last(Seen(seen, Cut(s, 0, j)), s.ref)
    ensures Last(Seen(seen, s), s.ref) == Last(Seen(mid, Cut(s, j, |s.ts|)), s.ref)
  {
    hide SeenTo, Last;
    SplitSeen(seen, s, j);
    SeenAlike(mid, Seen(seen, Cut(s, 0, j)), Cut(s, j, |s.ts|), Last(mid, s.ref), |s.ts| - j);
  }
}
