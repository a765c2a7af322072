/**
 * Which host samples a run of polls lets into clusters and datastores (poll,
 * internal/engine/source.go; Store.AddHosts, internal/analysis/stats.go). Where a
 * poll starts is decided by the VMs alone, so a host that lags may lose samples.
 */
module HostPolls {
  import opened Numbers
  import opened DemandSlots
  import opened VcSeries
  import opened VmStore
  import opened Ingest
  import opened MapSums
  import opened HostSamples
  import opened HostCalls

  // --------------------------------------------------------------- what a poll returns

  function TickAt(t: int): Sample' {
    Sample'(t, 20, 0.0, 0.0, 0.0, 0.0, 0.0, 0.0, 0.0, 0.0, 0.0, 0.0)
  }

  /** The timestamps of a host's samples, as samples of weight one. */
  ghost function Ticks(s: Series): (xs: seq<Sample'>)
    ensures |xs| == |s.ts| && forall i :: 0 <= i < |xs| ==> xs[i] == TickAt(s.ts[i])
  {
    seq(|s.ts|, i requires 0 <= i < |s.ts| => TickAt(s.ts[i]))
  }

  /** How many samples are as old as t or older. */
  ghost function UpTo(xs: seq<Sample'>, t: int): (n: nat)
    ensures n <= |xs|
  {
    if xs == [] then 0 else UpTo(xs[..|xs| - 1], t) + if xs[|xs| - 1].ts <= t then 1 else 0
  }

  lemma {:induction false} UpToMonotone(xs: seq<Sample'>, t: int, u: int)
    requires t <= u
    ensures UpTo(xs, t) <= UpTo(xs, u)
  {
    if xs != [] {
      UpToMonotone(xs[..|xs| - 1], t, u);
    }
  }

  lemma {:induction false} AllUpTo(xs: seq<Sample'>, t: int)
    requires forall i :: 0 <= i < |xs| ==> xs[i].ts <= t
    ensures UpTo(xs, t) == |xs|
  {
    if xs != [] {
      AllUpTo(xs[..|xs| - 1], t);
    }
  }

  /** The samples between two times are the ones between two places. */
  lemma {:induction false} BetweenIsPiece(xs: seq<Sample'>, start: int, end: int)
    requires StrictlyAscending(xs) && start <= end
    ensures UpTo(xs, start) <= UpTo(xs, end) && Between(xs, start, end) == xs[UpTo(xs, start)..UpTo(xs, end)]
  {
    if xs == [] {
      assert Between(xs, start, end) == [] == xs[0..0];
    } else {
      var init, x := xs[..|xs| - 1], xs[|xs| - 1];
      assert StrictlyAscending(init) && forall i :: 0 <= i < |init| ==> init[i].ts < x.ts;
      BetweenIsPiece(init, start, end);
      BetweenMore(init, x, start, end);
      assert xs == init + [x];
    }
  }

  lemma BetweenMore(init: seq<Sample'>, x: Sample', start: int, end: int)
    requires (forall i :: 0 <= i < |init| ==> init[i].ts < x.ts) && start <= end
    requires UpTo(init, start) <= UpTo(init, end) && Between(init, start, end) == init[UpTo(init, start)..UpTo(init, end)]
    ensures var xs := init + [x];
      UpTo(xs, start) <= UpTo(xs, end) && Between(xs, start, end) == xs[UpTo(xs, start)..UpTo(xs, end)]
  {
    UpToSnoc(init, x, start);
    UpToSnoc(init, x, end);
    BetweenSnoc(init, x, start, end);
    hide UpTo, Between;
    if x.ts <= end {
      AllUpTo(init, end);
    }
    if x.ts <= start {
      AllUpTo(init, start);
    }
    PieceSnoc(init, x, UpTo(init, start), UpTo(init, end));
  }

  lemma UpToSnoc(init: seq<Sample'>, x: Sample', t: int)
    ensures UpTo(init + [x], t) == UpTo(init, t) + if x.ts <= t then 1 else 0
  {
    assert (init + [x])[..|init|] == init;
  }

  lemma PieceSnoc(init: seq<Sample'>, x: Sample', a: nat, b: nat)
    requires a <= b <= |init|
    ensures (init + [x])[a..b] == init[a..b] && (init + [x])[a..|init| + 1] == init[a..] + [x]
    ensures (init + [x])[|init| + 1..|init| + 1] == []
  {
  }

  /** The place of a sample. */
  lemma {:induction false} PlaceOf(xs: seq<Sample'>, i: nat)
    requires StrictlyAscending(xs) && i < |xs|
    ensures UpTo(xs, xs[i].ts) == i + 1
  {
    var init := xs[..|xs| - 1];
    if i < |init| {
      PlaceOf(init, i);
    } else {
      AllUpTo(init, xs[i].ts);
    }
  }

  /** What a poll returns of a host: a piece of the samples the server holds. */
  ghost function ReadOf(s: Series, p: Poll): Series {
    FromWithin(Ticks(s), p);
    UpToMonotone(Ticks(s), From(Ticks(s), p), p.until);
    Cut(s, UpTo(Ticks(s), From(Ticks(s), p)), UpTo(Ticks(s), p.until))
  }

  /** ... namely the ones that any poll reads. */
  lemma ReadOfReads(s: Series, p: Poll)
    requires StrictlyAscending(Ticks(s))
    ensures Ticks(ReadOf(s, p)) == Read(Ticks(s), p) == Between(Ticks(s), From(Ticks(s), p), p.until)
    ensures ReadOf(s, p).ref == s.ref
  {
    hide From, Read, Between, StrictlyAscending, UpTo;
    FromWithin(Ticks(s), p);
    ReadIsBetween(Ticks(s), p);
    BetweenIsPiece(Ticks(s), From(Ticks(s), p), p.until);
  }

  // ----------------------------------------------------------- what samples amount to

  /** What is summed over host samples: storage, cluster demand, or their number. */
  datatype View = Io(io: IoView) | Clusters(cluster: ClusterView) | Number

  /** The amount of the samples of a series newer than last, among the first m. */
  ghost function AmountTo(view: View, s: Series, last: int, m: nat, cl: string): Vec
    requires m <= |s.ts|
  {
    match view
    case Io(v) => StorageTo(s, last, m, v)
    case Clusters(u) => DemandTo(s, last, m, cl, u)
    case Number => Vec(AcceptedTo(s, last, m) as real, 0.0, 0.0, 0.0)
  }

  /** The amount of sample i. */
  ghost function AmountAt(view: View, s: Series, i: nat, cl: string): Vec
    requires i < |s.ts|
  {
    match view
    case Io(v) => ShareAt(s, i, v)
    case Clusters(u) => If(u.Covers(Key(cl, s.ts[i])), DemandAt(s, i))
    case Number => Vec(1.0, 0.0, 0.0, 0.0)
  }

  /** The amount of the samples of a host at given times. */
  ghost function AmountOf(view: View, s: Series, xs: seq<Sample'>, cl: string): Vec {
    if xs == [] then NONE
    else
      var i := UpTo(Ticks(s), xs[|xs| - 1].ts);
      AmountOf(view, s, xs[..|xs| - 1], cl).Plus(if i > 0 then AmountAt(view, s, i - 1, cl) else NONE)
  }

  lemma {:induction false} AmountConcat(view: View, s: Series, a: seq<Sample'>, b: seq<Sample'>, cl: string)
    ensures AmountOf(view, s, a + b, cl) == AmountOf(view, s, a, cl).Plus(AmountOf(view, s, b, cl))
  {
    hide Vec.Plus, AmountAt, UpTo;
    if b == [] {
      assert a + b == a;
      PlusLaws(AmountOf(view, s, a, cl), NONE, NONE);
    } else {
      var init := b[..|b| - 1];
      assert (a + b)[..|a + b| - 1] == a + init;
      AmountConcat(view, s, a, init, cl);
      var i := UpTo(Ticks(s), b[|b| - 1].ts);
      PlusLaws(AmountOf(view, s, a, cl), AmountOf(view, s, init, cl), if i > 0 then AmountAt(view, s, i - 1, cl) else NONE);
    }
  }

  lemma AmountSnoc(view: View, s: Series, last: int, m: nat, cl: string)
    requires m < |s.ts|
    ensures AmountTo(view, s, last, 0, cl) == NONE
    ensures AmountTo(view, s, last, m + 1, cl)
      == if s.ts[m] > last then AmountTo(view, s, last, m, cl).Plus(AmountAt(view, s, m, cl)) else AmountTo(view, s, last, m, cl)
  {
    hide ShareAt, DemandAt;
    PlusLaws(AmountTo(view, s, last, m, cl), NONE, NONE);
  }

  /** The first m samples of a piece, as far as they are newer than last. */
  ghost function Fresh(c: Series, last: int, m: nat): seq<Sample'>
    requires m <= |c.ts|
  {
    NewerThan(Ticks(c)[..m], last)
  }

  lemma FreshSnoc(c: Series, last: int, m: nat)
    requires m < |c.ts|
    ensures Fresh(c, last, 0) == []
    ensures Fresh(c, last, m + 1) == Fresh(c, last, m) + if c.ts[m] > last then [TickAt(c.ts[m])] else []
  {
    var xs := Ticks(c);
    assert xs[..m + 1][..m] == xs[..m] && xs[..m + 1][m] == TickAt(c.ts[m]);
  }

  /** A piece of a host's samples adds the amounts of those that are fresh. */
  lemma {:induction false} PieceAmounts(view: View, s: Series, a: nat, b: nat, last: int, m: nat, cl: string)
    requires StrictlyAscending(Ticks(s)) && a <= b <= |s.ts| && m <= b - a
    ensures AmountTo(view, Cut(s, a, b), last, m, cl) == AmountOf(view, s, Fresh(Cut(s, a, b), last, m), cl)
  {
    var c := Cut(s, a, b);
    CutLength(s, a, b);
    hide *;
    if m == 0 {
      NoAmounts(view, s, c, last, cl);
    } else {
      PieceAmounts(view, s, a, b, last, m - 1, cl);
      PieceMore(view, s, a, b, last, m - 1, cl);
    }
  }

  lemma PieceMore(view: View, s: Series, a: nat, b: nat, last: int, i: nat, cl: string)
    requires StrictlyAscending(Ticks(s)) && a <= b <= |s.ts| && i < b - a == |Cut(s, a, b).ts|
    requires AmountTo(view, Cut(s, a, b), last, i, cl) == AmountOf(view, s, Fresh(Cut(s, a, b), last, i), cl)
    ensures AmountTo(view, Cut(s, a, b), last, i + 1, cl) == AmountOf(view, s, Fresh(Cut(s, a, b), last, i + 1), cl)
  {
    hide *;
    PieceSample(view, s, a, b, i, cl);
    OneMoreAmount(view, s, Cut(s, a, b), last, i, cl);
  }

  lemma CutLength(s: Series, a: nat, b: nat)
    requires a <= b <= |s.ts|
    ensures |Cut(s, a, b).ts| == b - a
  {
  }

  lemma OneMoreAmount(view: View, s: Series, c: Series, last: int, m: nat, cl: string)
    requires m < |c.ts| && UpTo(Ticks(s), c.ts[m]) > 0
    requires AmountAt(view, c, m, cl) == AmountAt(view, s, UpTo(Ticks(s), c.ts[m]) - 1, cl)
    requires AmountTo(view, c, last, m, cl) == AmountOf(view, s, Fresh(c, last, m), cl)
    ensures AmountTo(view, c, last, m + 1, cl) == AmountOf(view, s, Fresh(c, last, m + 1), cl)
  {
    var x := TickAt(c.ts[m]);
    assert x.ts == c.ts[m];
    hide *;
    hide Vec.Plus;
    AmountSnoc(view, c, last, m, cl);
    FreshSnoc(c, last, m);
    var f := Fresh(c, last, m);
    if x.ts > last {
      AmountOfSnoc(view, s, f, x, cl);
    } else {
      assert f + [] == f;
    }
  }

  lemma AmountOfSnoc(view: View, s: Series, f: seq<Sample'>, x: Sample', cl: string)
    requires UpTo(Ticks(s), x.ts) > 0
    ensures AmountOf(view, s, f + [x], cl) == AmountOf(view, s, f, cl).Plus(AmountAt(view, s, UpTo(Ticks(s), x.ts) - 1, cl))
  {
    hide AmountAt, UpTo, Vec.Plus;
    assert (f + [x])[..|f|] == f;
  }

  lemma NoAmounts(view: View, s: Series, c: Series, last: int, cl: string)
    ensures AmountTo(view, c, last, 0, cl) == NONE == AmountOf(view, s, Fresh(c, last, 0), cl)
  {
  }

  lemma PieceSample(view: View, s: Series, a: nat, b: nat, i: nat, cl: string)
    requires StrictlyAscending(Ticks(s)) && a <= b <= |s.ts| && i < b - a
    ensures Cut(s, a, b).ts[i] == s.ts[a + i] && UpTo(Ticks(s), s.ts[a + i]) == a + i + 1 && |Cut(s, a, b).ts| == b - a
    ensures AmountAt(view, Cut(s, a, b), i, cl) == AmountAt(view, s, a + i, cl)
  {
    PlaceOf(Ticks(s), a + i);
    CutSamples(s, a, b, i, if view.Io? then view.io else IoView.Total);
    hide ShareAt, DemandAt;
  }

  /** What one poll adds for a host, and where the host is then seen at. */
  lemma PollAmounts(view: View, s: Series, p: Poll, seen: map<string, int>, cl: string)
    requires StrictlyAscending(Ticks(s))
    ensures
      var c, last := ReadOf(s, p), Last(seen, s.ref);
      var fresh' := Between(Ticks(s), Max(From(Ticks(s), p), last), p.until);
      && AmountTo(view, c, last, |c.ts|, cl) == AmountOf(view, s, fresh', cl)
      && Last(Seen(seen, c), s.ref) == LastOf(fresh', last)
  {
    hide *;
    var c, last := ReadOf(s, p), Last(seen, s.ref);
    var a, b := ReadIsCut(s, p);
    ReadOfReads(s, p);
    ReadFresh(s, p, last);
    PieceAmounts(view, s, a, b, last, |c.ts|, cl);
    SeenIsFresh(seen, c);
  }

  lemma SeenIsFresh(seen: map<string, int>, c: Series)
    requires forall i, j :: 0 <= i < j < |c.ts| ==> c.ts[i] < c.ts[j]
    ensures var last := Last(seen, c.ref); Last(Seen(seen, c), c.ref) == LastOf(Fresh(c, last, |c.ts|), last)
  {
    hide Last, Fresh, LastOf, SeenTo;
    FreshNewest(seen, c, |c.ts|);
  }

  lemma ReadIsCut(s: Series, p: Poll) returns (a: nat, b: nat)
    ensures a <= b <= |s.ts| && ReadOf(s, p) == Cut(s, a, b) && |ReadOf(s, p).ts| == b - a
  {
    a, b := UpTo(Ticks(s), From(Ticks(s), p)), UpTo(Ticks(s), p.until);
    FromWithin(Ticks(s), p);
    UpToMonotone(Ticks(s), From(Ticks(s), p), p.until);
  }

  lemma ReadFresh(s: Series, p: Poll, last: int)
    requires StrictlyAscending(Ticks(s))
    ensures var c := ReadOf(s, p);
      && Fresh(c, last, |c.ts|) == Between(Ticks(s), Max(From(Ticks(s), p), last), p.until)
      && forall i, j :: 0 <= i < j < |c.ts| ==> c.ts[i] < c.ts[j]
  {
    hide From, Between, UpTo, Cut, Read, ReadOf;
    var c, from := ReadOf(s, p), From(Ticks(s), p);
    ReadOfReads(s, p);
    assert Ticks(c)[..|c.ts|] == Ticks(c);
    NewerOfBetween(Ticks(s), from, p.until, last);
    BetweenMembers(Ticks(s), from, p.until);
    assert forall i, j :: 0 <= i < j < |c.ts| ==> Ticks(c)[i].ts < Ticks(c)[j].ts;
  }

  lemma {:induction false} FreshNewest(seen: map<string, int>, c: Series, m: nat)
    requires m <= |c.ts| && forall i, j :: 0 <= i < j < |c.ts| ==> c.ts[i] < c.ts[j]
    ensures var last := Last(seen, c.ref); Last(SeenTo(seen, c, last, m), c.ref) == LastOf(Fresh(c, last, m), last)
  {
    if m > 0 {
      FreshNewest(seen, c, m - 1);
      FreshSnoc(c, Last(seen, c.ref), m - 1);
      hide Fresh;
    }
  }

  // ------------------------------------------------------------------- runs of polls

  /** Rounds of polls: in each, every host is read once. */
  ghost predicate Rounds(hosts: seq<Series>, polls: seq<seq<Poll>>, n: nat) {
    |polls| == |hosts| && forall j :: 0 <= j < |polls| ==> |polls[j]| >= n
  }

  /** The series that round i offers. */
  ghost function Offered(hosts: seq<Series>, polls: seq<seq<Poll>>, i: nat): (all: seq<Series>)
    requires Rounds(hosts, polls, i + 1)
    ensures |all| == |hosts| && forall j :: 0 <= j < |all| ==> all[j] == ReadOf(hosts[j], polls[j][i])
  {
    seq(|hosts|, j requires 0 <= j < |hosts| => ReadOf(hosts[j], polls[j][i]))
  }

  ghost function SeenBy(seen: map<string, int>, hosts: seq<Series>, polls: seq<seq<Poll>>, n: nat): map<string, int>
    requires Rounds(hosts, polls, n)
  {
    if n == 0 then seen else AllSeen(SeenBy(seen, hosts, polls, n - 1), Offered(hosts, polls, n - 1))
  }

  /** What a call amounts to; for the number of samples, host by host. */
  ghost function AmountOn(view: View, seen: map<string, int>, all: seq<Series>, hostCluster: map<string, string>): Vec {
    match view
    case Io(v) => Storage(seen, all, v)
    case Clusters(u) => Demand(seen, all, hostCluster, u)
    case Number => AmountEach(Number, seen, all, |all|, hostCluster)
  }

  /** The amounts of the first h series, each against what its host was seen at before the call. */
  ghost function AmountEach(view: View, seen: map<string, int>, all: seq<Series>, h: nat, hostCluster: map<string, string>): Vec
    requires h <= |all|
  {
    if h == 0 then NONE
    else
      var s := all[h - 1];
      AmountEach(view, seen, all, h - 1, hostCluster).Plus(
        AmountTo(view, s, Last(seen, s.ref), |s.ts|, ClusterOf(hostCluster, s.ref)))
  }

  /** What n rounds amount to. */
  ghost function AmountBy(view: View, seen: map<string, int>, hosts: seq<Series>, polls: seq<seq<Poll>>, n: nat,
                          hostCluster: map<string, string>): Vec
    requires Rounds(hosts, polls, n)
  {
    if n == 0 then NONE
    else
      AmountBy(view, seen, hosts, polls, n - 1, hostCluster).Plus(
        AmountOn(view, SeenBy(seen, hosts, polls, n - 1), Offered(hosts, polls, n - 1), hostCluster))
  }

  lemma {:induction false} EachIs(seen: map<string, int>, all: seq<Series>, h: nat, hostCluster: map<string, string>, v: IoView, u: ClusterView)
    requires h <= |all|
    ensures AmountEach(Io(v), seen, all, h, hostCluster) == StorageEach(seen, all[..h], v)
    ensures AmountEach(Clusters(u), seen, all, h, hostCluster) == DemandEach(seen, all[..h], hostCluster, u)
  {
    hide Vec.Plus, StorageTo, DemandTo;
    if h > 0 {
      EachIs(seen, all, h - 1, hostCluster, v, u);
      assert all[..h][..h - 1] == all[..h - 1];
    }
  }

  /** The samples of the first h hosts that n rounds accept. */
  ghost function CountedEach(view: View, seen: map<string, int>, hosts: seq<Series>, polls: seq<seq<Poll>>, n: nat, h: nat,
                             hostCluster: map<string, string>): Vec
    requires Rounds(hosts, polls, n) && h <= |hosts|
  {
    if h == 0 then NONE
    else
      var s := hosts[h - 1];
      CountedEach(view, seen, hosts, polls, n, h - 1, hostCluster).Plus(
        AmountOf(view, s, CountedBy(Last(seen, s.ref), Ticks(s), polls[h - 1][..n]), ClusterOf(hostCluster, s.ref)))
  }

  ghost predicate AllAscend(hosts: seq<Series>) {
    forall j :: 0 <= j < |hosts| ==> StrictlyAscending(Ticks(hosts[j]))
  }

  /** Host by host, a round adds what its poll adds. */
  lemma {:induction false} RoundAdds(view: View, seen: map<string, int>, mid: map<string, int>, hosts: seq<Series>,
                                     polls: seq<seq<Poll>>, n: nat, h: nat, hostCluster: map<string, string>)
    requires Rounds(hosts, polls, n + 1) && h <= |hosts| && AllAscend(hosts)
    requires forall j :: 0 <= j < |hosts| ==>
      Last(mid, hosts[j].ref) == LastBy(Last(seen, hosts[j].ref), Ticks(hosts[j]), polls[j][..n])
    ensures CountedEach(view, seen, hosts, polls, n + 1, h, hostCluster)
      == CountedEach(view, seen, hosts, polls, n, h, hostCluster).Plus(AmountEach(view, mid, Offered(hosts, polls, n), h, hostCluster))
  {
    hide Vec.Plus, AmountTo, AmountOf, CountedBy, LastBy, Last, ReadOf, ClusterOf;
    PlusLaws(NONE, NONE, NONE);
    if h > 0 {
      RoundAdds(view, seen, mid, hosts, polls, n, h - 1, hostCluster);
      var s, p := hosts[h - 1], polls[h - 1];
      RoundOfHost(view, seen, mid, s, p, n, ClusterOf(hostCluster, s.ref));
      var c := ReadOf(s, p[n]);
      Rearrange(CountedEach(view, seen, hosts, polls, n, h - 1, hostCluster),
                AmountEach(view, mid, Offered(hosts, polls, n), h - 1, hostCluster),
                AmountOf(view, s, CountedBy(Last(seen, s.ref), Ticks(s), p[..n]), ClusterOf(hostCluster, s.ref)),
                AmountTo(view, c, Last(mid, s.ref), |c.ts|, ClusterOf(hostCluster, s.ref)));
    }
  }

  lemma RoundOfHost(view: View, seen: map<string, int>, mid: map<string, int>, s: Series, polls: seq<Poll>, n: nat, cl: string)
    requires StrictlyAscending(Ticks(s)) && n < |polls|
    requires Last(mid, s.ref) == LastBy(Last(seen, s.ref), Ticks(s), polls[..n])
    ensures
      var c, last := ReadOf(s, polls[n]), Last(seen, s.ref);
      && c.ref == s.ref
      && AmountOf(view, s, CountedBy(last, Ticks(s), polls[..n + 1]), cl)
         == AmountOf(view, s, CountedBy(last, Ticks(s), polls[..n]), cl).Plus(AmountTo(view, c, Last(mid, s.ref), |c.ts|, cl))
      && Last(Seen(mid, c), s.ref) == LastBy(last, Ticks(s), polls[..n + 1])
  {
    hide *;
    var last, p := Last(seen, s.ref), polls[n];
    ReadOfReads(s, p);
    PollAmounts(view, s, p, mid, cl);
    CountsMore(last, Ticks(s), polls, n);
    AmountConcat(view, s, CountedBy(last, Ticks(s), polls[..n]), Between(Ticks(s), Max(From(Ticks(s), p), Last(mid, s.ref)), p.until), cl);
  }

  lemma CountsMore(last: int, xs: seq<Sample'>, polls: seq<Poll>, n: nat)
    requires n < |polls|
    ensures
      var before := LastBy(last, xs, polls[..n]);
      var more := Between(xs, Max(From(xs, polls[n]), before), polls[n].until);
      && CountedBy(last, xs, polls[..n + 1]) == CountedBy(last, xs, polls[..n]) + more
      && LastBy(last, xs, polls[..n + 1]) == LastOf(more, before)
  {
    assert polls[..n + 1] == polls[..n] + [polls[n]];
    hide From, Between, CountedBy;
    OnePollMore(last, xs, polls[..n], polls[n]);
  }

  /** n rounds have added exactly the samples they accept, and know the newest of each host. */
  ghost predicate RoundsAre(view: View, seen: map<string, int>, hosts: seq<Series>, polls: seq<seq<Poll>>, n: nat,
                            hostCluster: map<string, string>)
    requires Rounds(hosts, polls, n)
  {
    && AmountBy(view, seen, hosts, polls, n, hostCluster) == CountedEach(view, seen, hosts, polls, n, |hosts|, hostCluster)
    && forall j :: 0 <= j < |hosts| ==>
      Last(SeenBy(seen, hosts, polls, n), hosts[j].ref) == LastBy(Last(seen, hosts[j].ref), Ticks(hosts[j]), polls[j][..n])
  }

  lemma {:induction false} RoundsCount(view: View, seen: map<string, int>, hosts: seq<Series>, polls: seq<seq<Poll>>, n: nat,
                                       hostCluster: map<string, string>)
    requires Rounds(hosts, polls, n) && AllAscend(hosts) && DistinctHosts(hosts)
    ensures RoundsAre(view, seen, hosts, polls, n, hostCluster)
  {
    hide RoundsAre, AllAscend, DistinctHosts;
    if n == 0 {
      NotYet(view, seen, hosts, polls, hostCluster);
    } else {
      RoundsCount(view, seen, hosts, polls, n - 1, hostCluster);
      NextRound(view, seen, hosts, polls, n - 1, hostCluster);
    }
  }

  lemma NextRound(view: View, seen: map<string, int>, hosts: seq<Series>, polls: seq<seq<Poll>>, n: nat, hostCluster: map<string, string>)
    requires Rounds(hosts, polls, n + 1) && Rounds(hosts, polls, n) && AllAscend(hosts) && DistinctHosts(hosts)
    requires RoundsAre(view, seen, hosts, polls, n, hostCluster)
    ensures RoundsAre(view, seen, hosts, polls, n + 1, hostCluster)
  {
    hide AmountBy, CountedEach, AmountEach, AmountOn, SeenBy, AllSeen, Last, LastBy, Offered, Vec.Plus, Rounds, AllAscend, DistinctHosts;
    var mid := SeenBy(seen, hosts, polls, n);
    RoundAdds(view, seen, mid, hosts, polls, n, |hosts|, hostCluster);
    RoundSeen(view, seen, mid, hosts, polls, n, hostCluster);
    RoundMore(view, seen, hosts, polls, n, hostCluster);
  }

  lemma NotYet(view: View, seen: map<string, int>, hosts: seq<Series>, polls: seq<seq<Poll>>, hostCluster: map<string, string>)
    requires Rounds(hosts, polls, 0)
    ensures RoundsAre(view, seen, hosts, polls, 0, hostCluster)
  {
    hide Last, Ticks, CountedEach;
    NoRounds(view, seen, hosts, polls, |hosts|, hostCluster);
  }

  lemma RoundMore(view: View, seen: map<string, int>, hosts: seq<Series>, polls: seq<seq<Poll>>, n: nat, hostCluster: map<string, string>)
    requires Rounds(hosts, polls, n + 1) && Rounds(hosts, polls, n)
    ensures var mid, all := SeenBy(seen, hosts, polls, n), Offered(hosts, polls, n);
      && AmountBy(view, seen, hosts, polls, n + 1, hostCluster)
         == AmountBy(view, seen, hosts, polls, n, hostCluster).Plus(AmountOn(view, mid, all, hostCluster))
      && SeenBy(seen, hosts, polls, n + 1) == AllSeen(mid, all) && |all| == |hosts|
  {
    hide AmountOn, Offered, AllSeen, Vec.Plus;
  }

  lemma {:induction false} NoRounds(view: View, seen: map<string, int>, hosts: seq<Series>, polls: seq<seq<Poll>>, h: nat,
                                    hostCluster: map<string, string>)
    requires Rounds(hosts, polls, 0) && h <= |hosts|
    ensures CountedEach(view, seen, hosts, polls, 0, h, hostCluster) == NONE
  {
    PlusLaws(NONE, NONE, NONE);
    if h > 0 {
      NoRounds(view, seen, hosts, polls, h - 1, hostCluster);
    }
  }

  /** A round amounts to what it adds host by host, and moves every host to its newest sample. */
  lemma RoundSeen(view: View, seen: map<string, int>, mid: map<string, int>, hosts: seq<Series>, polls: seq<seq<Poll>>, n: nat,
                  hostCluster: map<string, string>)
    requires Rounds(hosts, polls, n + 1) && AllAscend(hosts) && DistinctHosts(hosts)
    requires forall j :: 0 <= j < |hosts| ==>
      Last(mid, hosts[j].ref) == LastBy(Last(seen, hosts[j].ref), Ticks(hosts[j]), polls[j][..n])
    ensures var all := Offered(hosts, polls, n);
      && AmountOn(view, mid, all, hostCluster) == AmountEach(view, mid, all, |all|, hostCluster)
      && forall j :: 0 <= j < |hosts| ==>
        Last(AllSeen(mid, all), hosts[j].ref) == LastBy(Last(seen, hosts[j].ref), Ticks(hosts[j]), polls[j][..n + 1])
  {
    var all := Offered(hosts, polls, n);
    hide Vec.Plus, AmountTo, AmountOf, CountedBy, LastBy, Last, ReadOf, ClusterOf, AllSeen, Seen, Storage, Demand, StorageEach, DemandEach;
    forall j | 0 <= j < |hosts|
      ensures all[j].ref == hosts[j].ref
      ensures Last(Seen(mid, all[j]), hosts[j].ref) == LastBy(Last(seen, hosts[j].ref), Ticks(hosts[j]), polls[j][..n + 1])
    {
      RoundOfHost(view, seen, mid, hosts[j], polls[j], n, "");
    }
    var v, u := if view.Io? then view.io else IoView.Total, if view.Clusters? then view.cluster else AllClusters;
    HostByHost(mid, all, hostCluster, v, u);
    EachIs(mid, all, |all|, hostCluster, v, u);
    assert all[..|all|] == all;
  }

  // ------------------------------------------------------------------- nothing lost

  /** One pass over what the server holds of the first h hosts, up to the newest it had in the last round. */
  ghost function OnePass(view: View, seen: map<string, int>, hosts: seq<Series>, polls: seq<seq<Poll>>, n: nat, h: nat,
                         hostCluster: map<string, string>): Vec
    requires n > 0 && Rounds(hosts, polls, n) && h <= |hosts|
  {
    if h == 0 then NONE
    else
      var s, p := hosts[h - 1], polls[h - 1];
      var all := Between(Ticks(s), Since(Last(seen, s.ref), Ticks(s), p[..n]), p[n - 1].until);
      OnePass(view, seen, hosts, polls, n, h - 1, hostCluster).Plus(AmountOf(view, s, all, ClusterOf(hostCluster, s.ref)))
  }

  /** Round i starts to read host j after a sample that was not read before. */
  ghost predicate HostMisses(seen: map<string, int>, hosts: seq<Series>, polls: seq<seq<Poll>>, n: nat, j: nat, i: nat)
    requires Rounds(hosts, polls, n) && j < |hosts| && i < n
  {
    var s, p := hosts[j], polls[j];
    var last := Last(SeenBy(seen, hosts, polls, i), s.ref);
    exists x :: x in Ticks(s) && Max(last, Since(Last(seen, s.ref), Ticks(s), p[..n])) < x.ts <= From(Ticks(s), p[i])
  }

  lemma {:induction false} NumberIs(s: Series, xs: seq<Sample'>, cl: string)
    requires StrictlyAscending(Ticks(s)) && forall x :: x in xs ==> x in Ticks(s)
    ensures AmountOf(Number, s, xs, cl) == Vec(TotalWeight(xs) as real, 0.0, 0.0, 0.0)
  {
    if xs != [] {
      var init, x := xs[..|xs| - 1], xs[|xs| - 1];
      NumberIs(s, init, cl);
      assert x in Ticks(s);
      var i :| 0 <= i < |s.ts| && Ticks(s)[i] == x;
      PlaceOf(Ticks(s), i);
      hide UpTo, StrictlyAscending;
    }
  }

  lemma {:induction false} CountedHeld(last: int, xs: seq<Sample'>, polls: seq<Poll>)
    requires StrictlyAscending(xs)
    ensures forall x :: x in CountedBy(last, xs, polls) ==> x in xs
  {
    hide From, LastOf, StrictlyAscending;
    if polls != [] {
      CountedHeld(last, xs, polls[..|polls| - 1]);
      var p := polls[|polls| - 1];
      BetweenMembers(xs, Max(From(xs, p), LastOf(CountedBy(last, xs, polls[..|polls| - 1]), last)), p.until);
    }
  }

  /** One host: its run accepts everything if it misses nothing, and fewer samples otherwise. */
  lemma HostPasses(view: View, s: Series, polls: seq<Poll>, last: int, cl: string)
    requires StrictlyAscending(Ticks(s)) && polls != [] && Ordered(polls) && 0 <= last <= polls[0].until
    ensures
      var c, full := CountedBy(last, Ticks(s), polls), Between(Ticks(s), Since(last, Ticks(s), polls), polls[|polls| - 1].until);
      && (MissesNone(last, Ticks(s), polls) ==> AmountOf(view, s, c, cl) == AmountOf(view, s, full, cl))
      && (!MissesNone(last, Ticks(s), polls) ==> AmountOf(Number, s, c, cl).a < AmountOf(Number, s, full, cl).a)
  {
    var since, until := Since(last, Ticks(s), polls), polls[|polls| - 1].until;
    RunPassesOrLess(last, Ticks(s), polls);
    CountedHeld(last, Ticks(s), polls);
    BetweenMembers(Ticks(s), since, until);
    hide CountedBy, Between, Since, MissesNone, AmountOf, TotalWeight, StrictlyAscending, Ordered;
    NumberIs(s, CountedBy(last, Ticks(s), polls), cl);
    NumberIs(s, Between(Ticks(s), since, until), cl);
  }

  ghost predicate NoneMissed(seen: map<string, int>, hosts: seq<Series>, polls: seq<seq<Poll>>, n: nat, h: nat)
    requires Rounds(hosts, polls, n) && h <= |hosts|
  {
    forall j :: 0 <= j < h ==> MissesNone(Last(seen, hosts[j].ref), Ticks(hosts[j]), polls[j][..n])
  }

  ghost predicate InTime(seen: map<string, int>, hosts: seq<Series>, polls: seq<seq<Poll>>, n: nat)
    requires n > 0 && Rounds(hosts, polls, n)
  {
    forall j :: 0 <= j < |hosts| ==> Ordered(polls[j][..n]) && 0 <= Last(seen, hosts[j].ref) <= polls[j][0].until
  }

  lemma {:induction false} HostsPass(view: View, seen: map<string, int>, hosts: seq<Series>, polls: seq<seq<Poll>>, n: nat, h: nat,
                                     hostCluster: map<string, string>)
    requires n > 0 && Rounds(hosts, polls, n) && h <= |hosts| && AllAscend(hosts) && InTime(seen, hosts, polls, n)
    ensures NoneMissed(seen, hosts, polls, n, h) ==>
      CountedEach(view, seen, hosts, polls, n, h, hostCluster) == OnePass(view, seen, hosts, polls, n, h, hostCluster)
    ensures
      var counted, all := CountedEach(Number, seen, hosts, polls, n, h, hostCluster).a, OnePass(Number, seen, hosts, polls, n, h, hostCluster).a;
      counted <= all && (!NoneMissed(seen, hosts, polls, n, h) ==> counted < all)
  {
    hide AmountOf, CountedBy, Between, Since, MissesNone, Last, ClusterOf, StrictlyAscending, Ordered;
    if h > 0 {
      HostsPass(view, seen, hosts, polls, n, h - 1, hostCluster);
      var s, p := hosts[h - 1], polls[h - 1];
      assert p[..n][0] == p[0] && p[..n][|p[..n]| - 1] == p[n - 1];
      HostPasses(view, s, p[..n], Last(seen, s.ref), ClusterOf(hostCluster, s.ref));
      HostPasses(Number, s, p[..n], Last(seen, s.ref), ClusterOf(hostCluster, s.ref));
    }
  }

  /** What a host misses in terms of what it was seen at. */
  lemma MissedIff(seen: map<string, int>, hosts: seq<Series>, polls: seq<seq<Poll>>, n: nat)
    requires n > 0 && Rounds(hosts, polls, n) && AllAscend(hosts) && DistinctHosts(hosts)
    ensures NoneMissed(seen, hosts, polls, n, |hosts|) <==>
      forall j, i :: 0 <= j < |hosts| && 0 <= i < n ==> !HostMisses(seen, hosts, polls, n, j, i)
  {
    hide CountedBy, Since, Last, SeenBy, From, AllAscend, DistinctHosts;
    forall j, i | 0 <= j < |hosts| && 0 <= i < n
      ensures HostMisses(seen, hosts, polls, n, j, i) <==> MissesAt(Last(seen, hosts[j].ref), Ticks(hosts[j]), polls[j][..n], i)
    {
      RoundsCount(Number, seen, hosts, polls, i, map[]);
      hide AmountBy, CountedEach;
      assert polls[j][..n][..i] == polls[j][..i] && polls[j][..n][i] == polls[j][i];
    }
    hide HostMisses, MissesAt;
  }

  /**
   * Over any run of polls, the samples of all hosts are accepted in one pass if and
   * only if no poll starts to read a host after a sample of it that was not read
   * before; clusters and datastores are then given what that pass amounts to.
   */
  lemma HostPollsAreOnePassIff(seen: map<string, int>, hosts: seq<Series>, polls: seq<seq<Poll>>, n: nat, hostCluster: map<string, string>)
    requires n > 0 && Rounds(hosts, polls, n) && AllAscend(hosts) && DistinctHosts(hosts) && InTime(seen, hosts, polls, n)
    ensures
      var none := forall j, i :: 0 <= j < |hosts| && 0 <= i < n ==> !HostMisses(seen, hosts, polls, n, j, i);
      && (AmountBy(Number, seen, hosts, polls, n, hostCluster) == OnePass(Number, seen, hosts, polls, n, |hosts|, hostCluster) <==> none)
      && (none ==> forall view: View ::
        AmountBy(view, seen, hosts, polls, n, hostCluster) == OnePass(view, seen, hosts, polls, n, |hosts|, hostCluster))
  {
    MissedIff(seen, hosts, polls, n);
    hide *;
    forall view: View
      ensures NoneMissed(seen, hosts, polls, n, |hosts|) ==>
        AmountBy(view, seen, hosts, polls, n, hostCluster) == OnePass(view, seen, hosts, polls, n, |hosts|, hostCluster)
    {
      RoundsCount(view, seen, hosts, polls, n, hostCluster);
      HostsPass(view, seen, hosts, polls, n, |hosts|, hostCluster);
    }
    RoundsCount(Number, seen, hosts, polls, n, hostCluster);
    HostsPass(Number, seen, hosts, polls, n, |hosts|, hostCluster);
  }

  /** A host with three samples, whatever they hold. */
  ghost predicate ThreeSamples(s: Series) {
    s.ts == [1000 * SECOND, 1020 * SECOND, 1080 * SECOND]
  }

  /**
   * A host whose newest sample is 100 seconds old when the VMs of another host are
   * first read: the next poll starts after its second sample, which is never accepted.
   */
  lemma LateHostIsMissed(s: Series, hostCluster: map<string, string>)
    requires ThreeSamples(s)
    ensures
      var p, q := Poll(0, 1100 * SECOND, 1000 * SECOND), Poll(1100 * SECOND, 1200 * SECOND, 1200 * SECOND);
      && Rounds([s], [[p, q]], 2) && InTime(map[], [s], [[p, q]], 2)
      && HostMisses(map[], [s], [[p, q]], 2, 0, 1)
      && AmountBy(Number, map[], [s], [[p, q]], 2, hostCluster) != OnePass(Number, map[], [s], [[p, q]], 2, 1, hostCluster)
  {
    var p, q := Poll(0, 1100 * SECOND, 1000 * SECOND), Poll(1100 * SECOND, 1200 * SECOND, 1200 * SECOND);
    var polls := [[p, q]];
    assert Rounds([s], polls, 2);
    assert polls[0][..2] == [p, q] && polls[0][..1] == [p] && [s][0] == s;
    assert StrictlyAscending(Ticks(s)) && Ticks(s)[1] == TickAt(1020 * SECOND);
    FirstOfOne(Ticks(s), p, 0, 0);
    SecondPollStarts(Ticks(s), p, q);
    NeverSeen(s.ref);
    SeenAfterFirst(s, polls, p, q);
    hide From, Since, AmountBy, OnePass, SeenBy, Last, StrictlyAscending;
    assert TickAt(1020 * SECOND) in Ticks(s);
    assert HostMisses(map[], [s], polls, 2, 0, 1);
    HostPollsAreOnePassIff(map[], [s], polls, 2, hostCluster);
  }

  lemma SeenAfterFirst(s: Series, polls: seq<seq<Poll>>, p: Poll, q: Poll)
    requires StrictlyAscending(Ticks(s)) && polls == [[p, q]]
    requires AfterPolls(NewVm(), Ticks(s), [p], 0, 0).last == p.until
    ensures Last(SeenBy(map[], [s], polls, 1), s.ref) == p.until
  {
    RoundsCount(Number, map[], [s], polls, 1, map[]);
    PollsCount(NewVm(), Ticks(s), [p], 0, 0);
    NeverSeen(s.ref);
    assert polls[0][..1] == [p] && [s][0] == s;
    hide AfterPolls, SeenBy, Last, LastBy;
  }
}
