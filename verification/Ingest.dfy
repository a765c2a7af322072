/**
 * Which samples a VM's statistics count: every sample newer than the last one,
 * once, however the reads overlap (Store.AddVM, internal/analysis/stats.go;
 * trim, internal/vc/perf.go; poll and importHistory, internal/engine/source.go).
 */
module Ingest {
  import opened Numbers
  import opened DemandSlots
  import opened VmStore

  // ------------------------------------------------------- accepted samples

  ghost predicate StrictlyAscending(xs: seq<Sample'>) {
    forall i, j :: 0 <= i < j < |xs| ==> xs[i].ts < xs[j].ts
  }

  ghost function LastOf(xs: seq<Sample'>, last: int): int {
    if xs == [] then last else xs[|xs| - 1].ts
  }

  /** A non-empty sequence holds its last element and what came before, nothing else. */
  lemma LastAndRest<T>(xs: seq<T>)
    requires xs != []
    ensures forall y :: y in xs <==> y in xs[..|xs| - 1] || y == xs[|xs| - 1]
  {
    assert xs == xs[..|xs| - 1] + [xs[|xs| - 1]];
  }

  lemma AscendingOneMore(a: seq<Sample'>, x: Sample')
    requires StrictlyAscending(a) && forall y :: y in a ==> y.ts < x.ts
    ensures StrictlyAscending(a + [x])
  {
    forall i, j | 0 <= i < j < |a + [x]|
      ensures (a + [x])[i].ts < (a + [x])[j].ts
    {
      assert a[i] in a;
    }
  }

  /** The samples that pass the "newer than Last" test, in order. */
  ghost function Accepted(xs: seq<Sample'>, last: int): seq<Sample'> {
    if xs == [] then []
    else
      var a, x := Accepted(xs[..|xs| - 1], last), xs[|xs| - 1];
      if x.ts > LastOf(a, last) then a + [x] else a
  }

  /** One pass that counts every sample it is given. */
  ghost function CountAll(v: VmState, xs: seq<Sample'>, vcpu: int, anchor: int): (r: VmState)
    requires v.Valid()
    ensures r.Valid()
  {
    if xs == [] then v else Recorded'(CountAll(v, xs[..|xs| - 1], vcpu, anchor), xs[|xs| - 1], vcpu, anchor)
  }

  ghost function TotalWeight(xs: seq<Sample'>): nat {
    if xs == [] then 0 else TotalWeight(xs[..|xs| - 1]) + Weight(xs[|xs| - 1].interval)
  }

  /** Samples accumulates the weights, and Last is the newest sample counted. */
  lemma {:induction false} CountAllTotals(v: VmState, xs: seq<Sample'>, vcpu: int, anchor: int)
    requires v.Valid()
    ensures CountAll(v, xs, vcpu, anchor).samples == v.samples + TotalWeight(xs)
    ensures CountAll(v, xs, vcpu, anchor).last == LastOf(xs, v.last)
  {
    if xs != [] {
      CountAllTotals(v, xs[..|xs| - 1], vcpu, anchor);
    }
  }

  /** AddVM is one pass over the accepted samples: each exactly once, no other. */
  lemma {:induction false} OfferIsCountAccepted(v: VmState, xs: seq<Sample'>, vcpu: int, anchor: int)
    requires v.Valid()
    ensures OfferAll(v, xs, vcpu, anchor) == CountAll(v, Accepted(xs, v.last), vcpu, anchor)
  {
    hide Recorded';
    if xs != [] {
      var init := xs[..|xs| - 1];
      OfferIsCountAccepted(v, init, vcpu, anchor);
      var a := Accepted(init, v.last);
      CountAllTotals(v, a, vcpu, anchor);
      assert (a + [xs[|xs| - 1]])[..|a|] == a;
    }
  }

  lemma {:induction false} AcceptedAscends(xs: seq<Sample'>, last: int)
    ensures StrictlyAscending(Accepted(xs, last))
    ensures forall x :: x in Accepted(xs, last) ==> x in xs && x.ts > last
    ensures forall x :: x in Accepted(xs, last) ==> x.ts <= LastOf(Accepted(xs, last), last)
    ensures LastOf(Accepted(xs, last), last) >= last
  {
    if xs != [] {
      var init, x := xs[..|xs| - 1], xs[|xs| - 1];
      AcceptedAscends(init, last);
      var a := Accepted(init, last);
      LastAndRest(xs);
      hide StrictlyAscending;
      if x.ts > LastOf(a, last) {
        AcceptedMore(a, x, last);
      }
    }
  }

  lemma AcceptedMore(a: seq<Sample'>, x: Sample', last: int)
    requires StrictlyAscending(a) && (forall y :: y in a ==> y.ts <= LastOf(a, last)) && x.ts > LastOf(a, last)
    ensures StrictlyAscending(a + [x]) && LastOf(a + [x], last) == x.ts
    ensures forall y :: y in a + [x] <==> y in a || y == x
  {
    AscendingOneMore(a, x);
    assert (a + [x])[..|a|] == a;
    LastAndRest(a + [x]);
  }

  /** The samples newer than a time. */
  ghost function NewerThan(xs: seq<Sample'>, t: int): seq<Sample'> {
    if xs == [] then []
    else NewerThan(xs[..|xs| - 1], t) + if xs[|xs| - 1].ts > t then [xs[|xs| - 1]] else []
  }

  /** In a strictly ascending series, the accepted samples are simply the newer ones. */
  lemma {:induction false} AscendingAccepts(xs: seq<Sample'>, last: int)
    requires StrictlyAscending(xs)
    ensures Accepted(xs, last) == NewerThan(xs, last)
  {
    if xs != [] {
      AscendingAccepts(xs[..|xs| - 1], last);
      AcceptedAscends(xs[..|xs| - 1], last);
      var a := Accepted(xs[..|xs| - 1], last);
      if a != [] {
        assert a[|a| - 1] in a;
      }
    }
  }

  lemma {:induction false} OfferConcat(v: VmState, xs: seq<Sample'>, ys: seq<Sample'>, vcpu: int, anchor: int)
    requires v.Valid()
    ensures OfferAll(v, xs + ys, vcpu, anchor) == OfferAll(OfferAll(v, xs, vcpu, anchor), ys, vcpu, anchor)
  {
    hide Offered;
    if ys == [] {
      assert xs + ys == xs;
    } else {
      assert (xs + ys)[..|xs + ys| - 1] == xs + ys[..|ys| - 1];
      OfferConcat(v, xs, ys[..|ys| - 1], vcpu, anchor);
    }
  }

  lemma {:induction false} CountConcat(v: VmState, xs: seq<Sample'>, ys: seq<Sample'>, vcpu: int, anchor: int)
    requires v.Valid()
    ensures CountAll(v, xs + ys, vcpu, anchor) == CountAll(CountAll(v, xs, vcpu, anchor), ys, vcpu, anchor)
  {
    hide Recorded';
    if ys == [] {
      assert xs + ys == xs;
    } else {
      assert (xs + ys)[..|xs + ys| - 1] == xs + ys[..|ys| - 1];
      CountConcat(v, xs, ys[..|ys| - 1], vcpu, anchor);
    }
  }

  // ------------------------------------------------------ overlapping polls

  /** Reading again what was read before changes nothing. */
  lemma {:induction false} ReplayIsHarmless(v: VmState, xs: seq<Sample'>, vcpu: int, anchor: int)
    requires v.Valid()
    requires forall x :: x in xs ==> x.ts <= v.last
    ensures OfferAll(v, xs, vcpu, anchor) == v
  {
    if xs != [] {
      assert xs[|xs| - 1] in xs;
      ReplayIsHarmless(v, xs[..|xs| - 1], vcpu, anchor);
    }
  }

  lemma {:induction false} OfferedReaches(v: VmState, xs: seq<Sample'>, vcpu: int, anchor: int)
    requires v.Valid()
    ensures OfferAll(v, xs, vcpu, anchor).last >= v.last
    ensures forall x :: x in xs ==> x.ts <= OfferAll(v, xs, vcpu, anchor).last
  {
    if xs != [] {
      OfferedReaches(v, xs[..|xs| - 1], vcpu, anchor);
    }
  }

  /** Any earlier poll can be repeated after any later ones without effect. */
  lemma EarlierPollReplayed(v: VmState, poll: seq<Sample'>, later: seq<Sample'>, vcpu: int, anchor: int)
    requires v.Valid()
    ensures var after := OfferAll(OfferAll(v, poll, vcpu, anchor), later, vcpu, anchor);
      OfferAll(after, poll, vcpu, anchor) == after
  {
    var mid := OfferAll(v, poll, vcpu, anchor);
    OfferedReaches(v, poll, vcpu, anchor);
    OfferedReaches(mid, later, vcpu, anchor);
    ReplayIsHarmless(OfferAll(mid, later, vcpu, anchor), poll, vcpu, anchor);
  }

  /** What the server holds of one VM after start, up to end. */
  ghost function Between(archive: seq<Sample'>, start: int, end: int): seq<Sample'> {
    if archive == [] then []
    else
      var x := archive[|archive| - 1];
      Between(archive[..|archive| - 1], start, end) + if start < x.ts <= end then [x] else []
  }

  lemma BetweenSnoc(archive: seq<Sample'>, x: Sample', start: int, end: int)
    ensures Between(archive + [x], start, end) == Between(archive, start, end) + if start < x.ts <= end then [x] else []
  {
    assert (archive + [x])[..|archive|] == archive;
  }

  lemma {:induction false} BetweenMembers(archive: seq<Sample'>, start: int, end: int)
    requires StrictlyAscending(archive)
    ensures StrictlyAscending(Between(archive, start, end))
    ensures forall x :: x in Between(archive, start, end) <==> x in archive && start < x.ts <= end
  {
    if archive != [] {
      var init, x := archive[..|archive| - 1], archive[|archive| - 1];
      BetweenMembers(init, start, end);
      var b := Between(init, start, end);
      forall y | y in init
        ensures y.ts < x.ts
      {
        var i :| 0 <= i < |init| && init[i] == y;
        assert archive[i].ts < archive[|init|].ts;
      }
      hide StrictlyAscending;
      LastAndRest(archive);
      AscendingOneMore(b, x);
      assert (b + [x])[..|b|] == b && b + [] == b;
      LastAndRest(b + [x]);
    }
  }

  /** Accepting a poll keeps of it what is newer than Last. */
  lemma {:induction false} NewerOfBetween(archive: seq<Sample'>, start: int, end: int, last: int)
    ensures NewerThan(Between(archive, start, end), last) == Between(archive, Max(start, last), end)
  {
    if archive != [] {
      NewerOfBetween(archive[..|archive| - 1], start, end, last);
      var x, b := archive[|archive| - 1], Between(archive[..|archive| - 1], start, end);
      if start < x.ts <= end {
        assert (b + [x])[..|b|] == b;
      } else {
        assert b + [] == b;
      }
    }
  }

  /** A poll counts exactly the archive from the later of its start and Last. */
  lemma PollCounts(v: VmState, archive: seq<Sample'>, start: int, end: int, vcpu: int, anchor: int)
    requires v.Valid() && StrictlyAscending(archive)
    ensures OfferAll(v, Between(archive, start, end), vcpu, anchor)
      == CountAll(v, Between(archive, Max(start, v.last), end), vcpu, anchor)
  {
    OfferIsCountAccepted(v, Between(archive, start, end), vcpu, anchor);
    BetweenMembers(archive, start, end);
    AscendingAccepts(Between(archive, start, end), v.last);
    NewerOfBetween(archive, start, end, v.last);
  }

  lemma {:induction false} BetweenEmpty(archive: seq<Sample'>, start: int, end: int)
    requires forall x :: x in archive ==> !(start < x.ts <= end)
    ensures Between(archive, start, end) == []
  {
    if archive != [] {
      assert archive[|archive| - 1] in archive;
      BetweenEmpty(archive[..|archive| - 1], start, end);
    }
  }

  lemma {:induction false} BetweenSplit(archive: seq<Sample'>, a: int, b: int, c: int)
    requires StrictlyAscending(archive) && a <= b <= c
    ensures Between(archive, a, c) == Between(archive, a, b) + Between(archive, b, c)
  {
    if archive != [] {
      var init, x := archive[..|archive| - 1], archive[|archive| - 1];
      BetweenSplit(init, a, b, c);
      var one, two := Between(init, a, b), Between(init, b, c);
      if a < x.ts <= b {
        BetweenEmpty(init, b, c);
        assert Between(archive, a, c) == (one + []) + [x] == one + [x];
        assert Between(archive, a, b) + Between(archive, b, c) == (one + [x]) + [];
      } else if b < x.ts <= c {
        assert Between(archive, a, c) == (one + two) + [x];
        assert Between(archive, a, b) + Between(archive, b, c) == one + (two + [x]);
      } else {
        assert Between(archive, a, c) == one + two;
        assert Between(archive, a, b) == one && Between(archive, b, c) == two;
      }
    }
  }

  lemma {:induction false} WeightPositive(xs: seq<Sample'>)
    ensures TotalWeight(xs) >= |xs|
  {
    if xs != [] {
      WeightPositive(xs[..|xs| - 1]);
    }
  }

  lemma {:induction false} WeightConcat(xs: seq<Sample'>, ys: seq<Sample'>)
    ensures TotalWeight(xs + ys) == TotalWeight(xs) + TotalWeight(ys)
  {
    if ys == [] {
      assert xs + ys == xs;
    } else {
      assert (xs + ys)[..|xs + ys| - 1] == xs + ys[..|ys| - 1];
      WeightConcat(xs, ys[..|ys| - 1]);
    }
  }

  lemma {:induction false} AllNewer(xs: seq<Sample'>, t: int)
    requires forall x :: x in xs ==> x.ts > t
    ensures NewerThan(xs, t) == xs
  {
    if xs != [] {
      assert xs[|xs| - 1] in xs;
      AllNewer(xs[..|xs| - 1], t);
    }
  }

  // ------------------------------------------------------------- what a poll reads

  /** The server's samples of one VM up to a time. */
  ghost function Held(archive: seq<Sample'>, until: int): seq<Sample'> {
    if archive == [] then []
    else
      var x := archive[|archive| - 1];
      Held(archive[..|archive| - 1], until) + if x.ts <= until then [x] else []
  }

  /** Where a poll starts: a minute before the newest sample of any VM, at most 55 minutes back. */
  function PollStart(newest: int, now: int): int {
    if newest == 0 then 0
    else
      var since := newest - 60 * SECOND;
      if now - since > 55 * 60 * SECOND then now - 55 * 60 * SECOND else since
  }

  /** That is the later of the two; without any sample yet a poll has no start. */
  lemma PollStartIsLater(newest: int, now: int)
    ensures newest == 0 ==> PollStart(newest, now) == 0
    ensures newest != 0 ==> PollStart(newest, now) == Max(newest - 60 * 1_000_000_000, now - 3300 * 1_000_000_000)
  {
  }

  /** How many samples a poll without a start asks for. */
  const MAX_SAMPLE := 15

  /**
   * A poll of one VM: the newest sample of any VM, the time, and how far the
   * server's samples of this VM reach by then.
   */
  datatype Poll = Poll(newest: int, now: int, until: int) {
    function Start(): int {
      PollStart(newest, now)
    }
  }

  /** The newest samples, as a poll without a start reads them. */
  ghost function Recent(archive: seq<Sample'>, until: int): seq<Sample'> {
    var h := Held(archive, until);
    h[Max(0, |h| - MAX_SAMPLE)..]
  }

  ghost function Read(archive: seq<Sample'>, p: Poll): seq<Sample'> {
    if p.Start() == 0 then Recent(archive, p.until) else Between(archive, p.Start(), p.until)
  }

  /** They are the 15 newest, or all when there are fewer. */
  lemma RecentAre(archive: seq<Sample'>, until: int)
    requires StrictlyAscending(archive)
    ensures var h, r := Held(archive, until), Recent(archive, until);
      && |r| == Min(15, |h|) && r == h[|h| - |r|..]
      && forall x :: x in h <==> x in archive && x.ts <= until
  {
    HeldMembers(archive, until);
  }

  ghost function RecentFrom(archive: seq<Sample'>, until: int): int {
    var h := Held(archive, until);
    if h == [] then until else if |h| <= MAX_SAMPLE then h[0].ts - 1 else h[|h| - MAX_SAMPLE - 1].ts
  }

  /** The time after which a poll reads. */
  ghost function From(archive: seq<Sample'>, p: Poll): int {
    Min(if p.Start() == 0 then RecentFrom(archive, p.until) else p.Start(), p.until)
  }

  lemma {:induction false} HeldMembers(archive: seq<Sample'>, until: int)
    requires StrictlyAscending(archive)
    ensures StrictlyAscending(Held(archive, until))
    ensures forall x :: x in Held(archive, until) <==> x in archive && x.ts <= until
  {
    if archive != [] {
      var init, x := archive[..|archive| - 1], archive[|archive| - 1];
      HeldMembers(init, until);
      var h := Held(init, until);
      forall y | y in init
        ensures y.ts < x.ts
      {
        var i :| 0 <= i < |init| && init[i] == y;
        assert archive[i].ts < archive[|init|].ts;
      }
      hide StrictlyAscending;
      LastAndRest(archive);
      AscendingOneMore(h, x);
      assert (h + [x])[..|h|] == h && h + [] == h;
      LastAndRest(h + [x]);
    }
  }

  lemma {:induction false} BetweenIsNewerHeld(archive: seq<Sample'>, start: int, until: int)
    ensures Between(archive, start, until) == NewerThan(Held(archive, until), start)
  {
    if archive != [] {
      BetweenIsNewerHeld(archive[..|archive| - 1], start, until);
      var x, h := archive[|archive| - 1], Held(archive[..|archive| - 1], until);
      if x.ts <= until {
        assert (h + [x])[..|h|] == h;
      } else {
        assert h + [] == h;
        assert NewerThan(h, start) + [] == NewerThan(h, start);
      }
    }
  }

  /** In ascending samples, those newer than sample k are the ones after it. */
  lemma {:induction false} NewerIsAfter(h: seq<Sample'>, k: nat)
    requires StrictlyAscending(h) && k < |h|
    ensures NewerThan(h, h[k].ts) == h[k + 1..]
  {
    var init, x := h[..|h| - 1], h[|h| - 1];
    if k < |init| {
      NewerIsAfter(init, k);
      assert h[k + 1..] == init[k + 1..] + [x];
    } else {
      NoneNewer(init, x.ts);
      assert h[k + 1..] == [];
    }
  }

  lemma {:induction false} NoneNewer(xs: seq<Sample'>, t: int)
    requires forall i :: 0 <= i < |xs| ==> xs[i].ts <= t
    ensures NewerThan(xs, t) == []
  {
    if xs != [] {
      NoneNewer(xs[..|xs| - 1], t);
    }
  }

  /** Samples from before the first on are all of them. */
  lemma FromFirst(h: seq<Sample'>)
    requires StrictlyAscending(h) && h != []
    ensures NewerThan(h, h[0].ts - 1) == h
  {
    hide NewerThan;
    forall x | x in h
      ensures x.ts > h[0].ts - 1
    {
      var i :| 0 <= i < |h| && h[i] == x;
      assert i > 0 ==> h[0].ts < h[i].ts;
    }
    AllNewer(h, h[0].ts - 1);
  }

  lemma RecentIsBetween(archive: seq<Sample'>, until: int)
    requires StrictlyAscending(archive)
    ensures Recent(archive, until) == Between(archive, RecentFrom(archive, until), until)
  {
    hide Held, NewerThan, Between, StrictlyAscending;
    var h := Held(archive, until);
    HeldMembers(archive, until);
    BetweenIsNewerHeld(archive, RecentFrom(archive, until), until);
    if h == [] {
      NothingNewer(until);
    } else if |h| <= MAX_SAMPLE {
      FromFirst(h);
      FromZero(h);
    } else {
      var k := |h| - MAX_SAMPLE - 1;
      NewerIsAfter(h, k);
      assert Recent(archive, until) == h[k + 1..];
    }
  }

  lemma NothingNewer(t: int)
    ensures NewerThan([], t) == []
  {
  }

  lemma FromZero<T>(xs: seq<T>)
    ensures xs[0..] == xs
  {
  }

  /** Whatever the start, a poll reads the samples after From up to the newest the server has. */
  lemma ReadIsBetween(archive: seq<Sample'>, p: Poll)
    requires StrictlyAscending(archive)
    ensures Read(archive, p) == Between(archive, From(archive, p), p.until)
  {
    hide Recent, RecentFrom, PollStart;
    var start := if p.Start() == 0 then RecentFrom(archive, p.until) else p.Start();
    RecentIsBetween(archive, p.until);
    if start > p.until {
      BetweenEmpty(archive, start, p.until);
      BetweenEmpty(archive, p.until, p.until);
    }
  }

  // ------------------------------------------------------------------ runs of polls

  ghost function AfterPolls(v: VmState, archive: seq<Sample'>, polls: seq<Poll>, vcpu: int, anchor: int): (r: VmState)
    requires v.Valid()
    ensures r.Valid()
  {
    if polls == [] then v
    else
      OfferAll(AfterPolls(v, archive, polls[..|polls| - 1], vcpu, anchor), Read(archive, polls[|polls| - 1]), vcpu, anchor)
  }

  /** Time passes, the newest sample only gets newer, and the server's samples reach further. */
  ghost predicate Ordered(polls: seq<Poll>) {
    && (forall i :: 0 <= i < |polls| ==> polls[i].newest >= 0)
    && (forall i, j :: 0 <= i < j < |polls| ==>
      polls[i].newest <= polls[j].newest && polls[i].now <= polls[j].now && polls[i].until <= polls[j].until)
  }

  /** Where the one pass begins: at a VM's Last, or for a VM never seen at what its first poll reads. */
  ghost function Since(last: int, archive: seq<Sample'>, polls: seq<Poll>): int
    requires polls != []
  {
    if last == 0 then Max(0, From(archive, polls[0])) else last
  }

  /** Poll i starts after a sample that no poll before it has read. */
  ghost predicate Misses(v: VmState, archive: seq<Sample'>, polls: seq<Poll>, i: nat, vcpu: int, anchor: int)
    requires v.Valid() && i < |polls|
  {
    var last := AfterPolls(v, archive, polls[..i], vcpu, anchor).last;
    exists x :: x in archive && Max(last, Since(v.last, archive, polls)) < x.ts <= From(archive, polls[i])
  }

  /** The samples that a run of polls counts. */
  ghost function CountedBy(last: int, archive: seq<Sample'>, polls: seq<Poll>): seq<Sample'> {
    if polls == [] then []
    else
      var p, c := polls[|polls| - 1], CountedBy(last, archive, polls[..|polls| - 1]);
      c + Between(archive, Max(From(archive, p), LastOf(c, last)), p.until)
  }

  ghost function LastBy(last: int, archive: seq<Sample'>, polls: seq<Poll>): int {
    LastOf(CountedBy(last, archive, polls), last)
  }

  ghost predicate MissesAt(last: int, archive: seq<Sample'>, polls: seq<Poll>, i: nat)
    requires i < |polls|
  {
    exists x :: x in archive && Max(LastBy(last, archive, polls[..i]), Since(last, archive, polls)) < x.ts <= From(archive, polls[i])
  }

  lemma {:induction false} PollsCount(v: VmState, archive: seq<Sample'>, polls: seq<Poll>, vcpu: int, anchor: int)
    requires v.Valid() && StrictlyAscending(archive)
    ensures AfterPolls(v, archive, polls, vcpu, anchor) == CountAll(v, CountedBy(v.last, archive, polls), vcpu, anchor)
    ensures AfterPolls(v, archive, polls, vcpu, anchor).last == LastBy(v.last, archive, polls)
  {
    hide CountAll, OfferAll, Read, From, Between, LastOf;
    if polls == [] {
      NothingCounted(v, vcpu, anchor);
    } else {
      var p, init := polls[|polls| - 1], polls[..|polls| - 1];
      PollsCount(v, archive, init, vcpu, anchor);
      var mid := AfterPolls(v, archive, init, vcpu, anchor);
      ReadIsBetween(archive, p);
      PollCounts(mid, archive, From(archive, p), p.until, vcpu, anchor);
      CountConcat(v, CountedBy(v.last, archive, init), Between(archive, Max(From(archive, p), mid.last), p.until), vcpu, anchor);
    }
    CountAllTotals(v, CountedBy(v.last, archive, polls), vcpu, anchor);
  }

  lemma NothingCounted(v: VmState, vcpu: int, anchor: int)
    requires v.Valid()
    ensures CountAll(v, [], vcpu, anchor) == v
  {
  }

  /** Last never goes back, stays within what the server had, and covers what a poll read. */
  lemma LastAdvances(last: int, archive: seq<Sample'>, polls: seq<Poll>)
    requires StrictlyAscending(archive) && polls != []
    ensures var p, before, after := polls[|polls| - 1], LastBy(last, archive, polls[..|polls| - 1]), LastBy(last, archive, polls);
      && before <= after && (after == before || after <= p.until)
      && forall x :: x in archive && Max(From(archive, p), before) < x.ts <= p.until ==> x.ts <= after
  {
    hide From, Between;
    var p, init := polls[|polls| - 1], polls[..|polls| - 1];
    var c, before := CountedBy(last, archive, init), LastBy(last, archive, init);
    var b := Between(archive, Max(From(archive, p), before), p.until);
    BetweenMembers(archive, Max(From(archive, p), before), p.until);
    if b != [] {
      assert (c + b)[|c + b| - 1] == b[|b| - 1];
      assert b[|b| - 1] in b;
      forall x | x in b
        ensures x.ts <= b[|b| - 1].ts
      {
        var i :| 0 <= i < |b| && b[i] == x;
      }
    } else {
      assert c + b == c;
    }
  }

  lemma {:induction false} LastWithin(last: int, archive: seq<Sample'>, polls: seq<Poll>)
    requires StrictlyAscending(archive) && polls != [] && Ordered(polls) && last <= polls[0].until
    ensures last <= LastBy(last, archive, polls) <= polls[|polls| - 1].until
  {
    hide CountedBy, LastOf, From, LastBy;
    var init := polls[..|polls| - 1];
    LastAdvances(last, archive, polls);
    if init != [] {
      assert Ordered(init) && init[0] == polls[0];
      LastWithin(last, archive, init);
      assert init[|init| - 1].until <= polls[|init|].until;
    } else {
      assert polls[0] == polls[|polls| - 1];
      NoPolls(last, archive);
    }
  }

  lemma NoPolls(last: int, archive: seq<Sample'>)
    ensures LastBy(last, archive, []) == last && CountedBy(last, archive, []) == []
  {
  }

  /** A poll without a start reads the newest sample the server has. */
  lemma RecentReachesNewest(archive: seq<Sample'>, until: int, x: Sample') returns (z: Sample')
    requires StrictlyAscending(archive) && x in archive && x.ts <= until
    ensures z in archive && RecentFrom(archive, until) < z.ts <= until && x.ts <= z.ts
  {
    var h := Held(archive, until);
    HeldMembers(archive, until);
    assert x in h;
    z := h[|h| - 1];
    assert z in h;
    var i :| 0 <= i < |h| && h[i] == x;
  }

  /** A sample that a run has passed over lies before the start of its last poll, which had one. */
  lemma PassedOver(last: int, archive: seq<Sample'>, polls: seq<Poll>, x: Sample')
    requires StrictlyAscending(archive) && polls != []
    requires x in archive && LastBy(last, archive, polls) < x.ts <= polls[|polls| - 1].until
    ensures var p := polls[|polls| - 1]; x.ts <= From(archive, p) && p.Start() != 0 && x.ts <= p.Start()
  {
    hide CountedBy, LastOf, RecentFrom, PollStart, LastBy;
    var p := polls[|polls| - 1];
    LastAdvances(last, archive, polls);
    if p.Start() == 0 {
      var z := RecentReachesNewest(archive, p.until, x);
    }
  }

  lemma StartAdvances(p: Poll, q: Poll)
    requires 0 < p.newest <= q.newest && p.now <= q.now
    ensures p.Start() <= q.Start()
  {
  }

  /** ... and before the start of the next. */
  lemma StaysPassedOver(last: int, archive: seq<Sample'>, polls: seq<Poll>, q: Poll, x: Sample')
    requires StrictlyAscending(archive) && polls != [] && Ordered(polls + [q]) && 0 <= last
    requires x in archive && LastBy(last, archive, polls) < x.ts <= polls[|polls| - 1].until
    requires last <= LastBy(last, archive, polls)
    ensures x.ts <= From(archive, q)
  {
    hide CountedBy, LastOf, RecentFrom, LastBy;
    var p := polls[|polls| - 1];
    PassedOver(last, archive, polls, x);
    assert (polls + [q])[|polls| - 1] == p && (polls + [q])[|polls|] == q;
    StartAdvances(p, q);
  }

  lemma BetweenBeyond(archive: seq<Sample'>, a: int, until: int, end: int)
    requires StrictlyAscending(archive) && a <= end && until <= end
    requires forall x :: x in archive ==> !(a < x.ts <= until)
    ensures Between(archive, a, end) == Between(archive, Max(until, a), end)
  {
    if a < until {
      BetweenSplit(archive, a, until, end);
      BetweenEmpty(archive, a, until);
      hide Between;
      assert [] + Between(archive, until, end) == Between(archive, until, end);
    }
  }

  /** What the next poll counts is what it counts beyond the last poll's reach. */
  lemma NextCounts(last: int, archive: seq<Sample'>, polls: seq<Poll>, q: Poll) returns (b: int)
    requires StrictlyAscending(archive) && polls != [] && Ordered(polls + [q]) && Ordered(polls) && 0 <= last <= polls[0].until
    requires polls[|polls| - 1].until <= q.until
    ensures b == Max(polls[|polls| - 1].until, Max(From(archive, q), LastBy(last, archive, polls))) <= q.until
    ensures CountedBy(last, archive, polls + [q]) == CountedBy(last, archive, polls) + Between(archive, b, q.until)
  {
    LastWithin(last, archive, polls);
    FromWithin(archive, q);
    OnePollMore(last, archive, polls, q);
    hide From, LastBy, Between, CountedBy, Ordered, StrictlyAscending;
    var a, until := Max(From(archive, q), LastBy(last, archive, polls)), polls[|polls| - 1].until;
    b := Max(until, a);
    forall x | x in archive
      ensures !(a < x.ts <= until)
    {
      if a < x.ts <= until {
        StaysPassedOver(last, archive, polls, q, x);
      }
    }
    BetweenBeyond(archive, a, until, q.until);
  }

  lemma OnePollMore(last: int, archive: seq<Sample'>, polls: seq<Poll>, q: Poll)
    ensures CountedBy(last, archive, polls + [q])
      == CountedBy(last, archive, polls) + Between(archive, Max(From(archive, q), LastBy(last, archive, polls)), q.until)
  {
    hide From, Between, LastOf;
    assert (polls + [q])[..|polls|] == polls;
  }

  lemma FromWithin(archive: seq<Sample'>, p: Poll)
    ensures From(archive, p) <= p.until
  {
  }

  ghost predicate MissesNone(last: int, archive: seq<Sample'>, polls: seq<Poll>) {
    forall i :: 0 <= i < |polls| ==> !MissesAt(last, archive, polls, i)
  }

  /** A run counts the whole pass if it misses nothing, and less than it otherwise. */
  ghost predicate PassOrLess(last: int, archive: seq<Sample'>, polls: seq<Poll>)
    requires polls != []
  {
    var c, full := CountedBy(last, archive, polls), Between(archive, Since(last, archive, polls), polls[|polls| - 1].until);
    if MissesNone(last, archive, polls) then c == full else TotalWeight(c) < TotalWeight(full)
  }

  lemma WeighsSomething(archive: seq<Sample'>, start: int, end: int)
    requires StrictlyAscending(archive)
    ensures (exists x :: x in archive && start < x.ts <= end) <==> Between(archive, start, end) != []
    ensures Between(archive, start, end) == [] <==> TotalWeight(Between(archive, start, end)) == 0
  {
    BetweenMembers(archive, start, end);
    WeightPositive(Between(archive, start, end));
    if Between(archive, start, end) != [] {
      assert Between(archive, start, end)[0] in Between(archive, start, end);
    }
  }

  lemma FirstPoll(last: int, archive: seq<Sample'>, p: Poll)
    requires StrictlyAscending(archive) && 0 <= last <= p.until
    ensures PassOrLess(last, archive, [p])
  {
    var f, since := From(archive, p), Since(last, archive, [p]);
    FromWithin(archive, p);
    NoPolls(last, archive);
    OnePollMore(last, archive, [], p);
    assert [] + [p] == [p] && [p][..0] == [];
    var m := Max(f, last);
    assert since <= m;
    BetweenSplit(archive, since, m, p.until);
    WeighsSomething(archive, since, m);
    WeightConcat(Between(archive, since, m), Between(archive, m, p.until));
    assert [] + Between(archive, m, p.until) == Between(archive, m, p.until);
    hide From, Between, CountedBy, LastBy, TotalWeight;
    assert MissesAt(last, archive, [p], 0) <==> exists x :: x in archive && since < x.ts <= m;
    assert MissesNone(last, archive, [p]) <==> !MissesAt(last, archive, [p], 0);
  }

  /** What a longer run missed at poll i, its beginning missed there too. */
  lemma SameMisses(last: int, archive: seq<Sample'>, polls: seq<Poll>, q: Poll)
    requires polls != []
    ensures Since(last, archive, polls + [q]) == Since(last, archive, polls)
    ensures forall i :: 0 <= i < |polls| ==> (MissesAt(last, archive, polls + [q], i) <==> MissesAt(last, archive, polls, i))
    ensures MissesNone(last, archive, polls + [q]) <==>
      MissesNone(last, archive, polls) && !MissesAt(last, archive, polls + [q], |polls|)
  {
    hide From, LastBy;
    forall i | 0 <= i < |polls|
      ensures MissesAt(last, archive, polls + [q], i) <==> MissesAt(last, archive, polls, i)
    {
      assert (polls + [q])[..i] == polls[..i];
    }
  }

  /** A sample the next poll misses is new, or was missed by the last poll already. */
  lemma MissedBefore(last: int, archive: seq<Sample'>, polls: seq<Poll>, q: Poll, x: Sample')
    requires StrictlyAscending(archive) && polls != [] && x in archive
    requires Max(LastBy(last, archive, polls), Since(last, archive, polls)) < x.ts <= polls[|polls| - 1].until
    ensures MissesAt(last, archive, polls, |polls| - 1)
  {
    PassedOver(last, archive, polls, x);
    LastAdvances(last, archive, polls);
    hide From, LastBy;
  }

  lemma SinceWithin(last: int, archive: seq<Sample'>, polls: seq<Poll>)
    requires polls != [] && Ordered(polls) && 0 <= last <= polls[0].until
    ensures Since(last, archive, polls) <= polls[|polls| - 1].until
  {
    FromWithin(archive, polls[0]);
    assert |polls| > 1 ==> polls[0].until <= polls[|polls| - 1].until;
  }

  lemma OrderedInit(polls: seq<Poll>, q: Poll)
    requires polls != [] && Ordered(polls + [q])
    ensures Ordered(polls) && polls[|polls| - 1].until <= q.until
  {
    var all := polls + [q];
    assert forall i :: 0 <= i < |polls| ==> all[i] == polls[i];
    assert all[|polls| - 1].until <= all[|polls|].until;
  }

  /** Both sides grow by the same rest; a gap is only in the whole pass. */
  lemma BothGrow(c: seq<Sample'>, full: seq<Sample'>, gap: seq<Sample'>, rest: seq<Sample'>)
    ensures c == full && gap == [] ==> c + rest == full + (gap + rest)
    ensures TotalWeight(c + rest) == TotalWeight(c) + TotalWeight(rest)
    ensures TotalWeight(full + (gap + rest)) == TotalWeight(full) + TotalWeight(gap) + TotalWeight(rest)
  {
    WeightConcat(c, rest);
    WeightConcat(gap, rest);
    WeightConcat(full, gap + rest);
    if gap == [] {
      assert [] + rest == rest;
    }
  }

  /** One more poll keeps the claim. */
  lemma NextPoll(last: int, archive: seq<Sample'>, polls: seq<Poll>, q: Poll)
    requires StrictlyAscending(archive) && polls != [] && Ordered(polls + [q]) && 0 <= last <= polls[0].until
    requires PassOrLess(last, archive, polls)
    ensures PassOrLess(last, archive, polls + [q])
  {
    OrderedInit(polls, q);
    var all, until, since := polls + [q], polls[|polls| - 1].until, Since(last, archive, polls);
    var b := NextCounts(last, archive, polls, q);
    SameMisses(last, archive, polls, q);
    SinceWithin(last, archive, polls);
    LastWithin(last, archive, polls);
    hide CountedBy, LastBy, From, Between, TotalWeight, MissesAt, MissesNone, Since, Ordered, StrictlyAscending;
    var c, rest := CountedBy(last, archive, polls), Between(archive, b, q.until);
    var full, gap := Between(archive, since, until), Between(archive, until, b);
    BetweenSplit(archive, since, until, q.until);
    BetweenSplit(archive, until, b, q.until);
    BothGrow(c, full, gap, rest);
    WeighsSomething(archive, until, b);
    GapIsMissed(last, archive, polls, q, b);
    MissIsGap(last, archive, polls, q, b);
    assert all[|all| - 1] == q;
    assert CountedBy(last, archive, all) == c + rest;
    assert Between(archive, since, q.until) == full + (gap + rest);
    assert MissesNone(last, archive, all) ==> gap == [] && c == full;
    assert !MissesNone(last, archive, all) ==> gap != [] || !MissesNone(last, archive, polls);
  }

  lemma GapIsMissed(last: int, archive: seq<Sample'>, polls: seq<Poll>, q: Poll, b: int)
    requires polls != [] && Since(last, archive, polls) <= polls[|polls| - 1].until
    requires LastBy(last, archive, polls) <= polls[|polls| - 1].until
    requires b == Max(polls[|polls| - 1].until, Max(From(archive, q), LastBy(last, archive, polls)))
    ensures (exists x :: x in archive && polls[|polls| - 1].until < x.ts <= b) ==> MissesAt(last, archive, polls + [q], |polls|)
  {
    hide From, LastBy;
    assert (polls + [q])[..|polls|] == polls && (polls + [q])[0] == polls[0];
  }

  lemma MissIsGap(last: int, archive: seq<Sample'>, polls: seq<Poll>, q: Poll, b: int)
    requires StrictlyAscending(archive) && polls != []
    requires b == Max(polls[|polls| - 1].until, Max(From(archive, q), LastBy(last, archive, polls)))
    ensures MissesAt(last, archive, polls + [q], |polls|) ==>
      (exists x :: x in archive && polls[|polls| - 1].until < x.ts <= b) || !MissesNone(last, archive, polls)
  {
    hide From, LastBy;
    assert (polls + [q])[..|polls|] == polls && (polls + [q])[0] == polls[0];
    if MissesAt(last, archive, polls + [q], |polls|) {
      var x :| x in archive && Max(LastBy(last, archive, polls), Since(last, archive, polls)) < x.ts <= From(archive, q);
      if x.ts <= polls[|polls| - 1].until {
        MissedBefore(last, archive, polls, q, x);
      }
    }
  }

  lemma {:induction false} RunPassesOrLess(last: int, archive: seq<Sample'>, polls: seq<Poll>)
    requires StrictlyAscending(archive) && polls != [] && Ordered(polls) && 0 <= last <= polls[0].until
    ensures PassOrLess(last, archive, polls)
  {
    hide PassOrLess, StrictlyAscending, Ordered;
    var init, q := polls[..|polls| - 1], polls[|polls| - 1];
    assert polls == init + [q];
    if init != [] {
      OrderedInit(init, q);
    }
    if init == [] {
      FirstPoll(last, archive, q);
    } else {
      RunPassesOrLess(last, archive, init);
      NextPoll(last, archive, init, q);
    }
  }

  /**
   * Over any run of overlapping polls the result is one pass over the server's
   * samples, from the VM's Last or from what its first poll reads, up to the newest
   * the server had: if and only if no poll starts after a sample not read before.
   */
  lemma PollsAreOnePassIff(v: VmState, archive: seq<Sample'>, polls: seq<Poll>, vcpu: int, anchor: int)
    requires v.Valid() && StrictlyAscending(archive)
    requires polls != [] && Ordered(polls) && 0 <= v.last <= polls[0].until
    ensures AfterPolls(v, archive, polls, vcpu, anchor)
         == CountAll(v, Between(archive, Since(v.last, archive, polls), polls[|polls| - 1].until), vcpu, anchor)
      <==> forall i :: 0 <= i < |polls| ==> !Misses(v, archive, polls, i, vcpu, anchor)
  {
    var c, full := CountedBy(v.last, archive, polls), Between(archive, Since(v.last, archive, polls), polls[|polls| - 1].until);
    RunPassesOrLess(v.last, archive, polls);
    PollsCount(v, archive, polls, vcpu, anchor);
    CountAllTotals(v, c, vcpu, anchor);
    CountAllTotals(v, full, vcpu, anchor);
    hide AfterPolls, CountAll, CountedBy, Between, From, LastBy, TotalWeight, Since;
    forall i | 0 <= i < |polls|
      ensures Misses(v, archive, polls, i, vcpu, anchor) <==> MissesAt(v.last, archive, polls, i)
    {
      PollsCount(v, archive, polls[..i], vcpu, anchor);
    }
  }

  /** One poll loses no sample newer than Last if and only if the server holds none up to where it starts to read. */
  lemma NothingLostIff(v: VmState, archive: seq<Sample'>, p: Poll, vcpu: int, anchor: int)
    requires v.Valid() && StrictlyAscending(archive) && v.last <= p.until
    ensures OfferAll(v, Read(archive, p), vcpu, anchor) == CountAll(v, Between(archive, v.last, p.until), vcpu, anchor)
      <==> forall x :: x in archive ==> !(v.last < x.ts <= From(archive, p))
  {
    var from := Max(From(archive, p), v.last);
    ReadIsBetween(archive, p);
    FromWithin(archive, p);
    PollCounts(v, archive, From(archive, p), p.until, vcpu, anchor);
    BetweenSplit(archive, v.last, from, p.until);
    var lost, kept := Between(archive, v.last, from), Between(archive, from, p.until);
    WeighsSomething(archive, v.last, from);
    WeightConcat(lost, kept);
    CountAllTotals(v, lost + kept, vcpu, anchor);
    CountAllTotals(v, kept, vcpu, anchor);
    hide From, Between, CountAll, OfferAll, TotalWeight, Read;
    assert lost == [] ==> lost + kept == kept;
  }

  // -------------------------------------------------------- a host that lags behind

  /** The newest sample of any VM, as Newest reports it. */
  function NewestOf(vms: seq<VmState>): int {
    if vms == [] then 0 else Max(NewestOf(vms[..|vms| - 1]), vms[|vms| - 1].last)
  }

  function SampleOf(second: int): Sample' {
    Sample'(second * SECOND, 20, 50.0, 50.0, 0.0, 0.0, 100.0, 100.0, 0.0, 0.0, 0.0, 0.0)
  }

  lemma RecentOfOne(first: Sample', rest: seq<Sample'>, until: int)
    requires StrictlyAscending([first] + rest) && first.ts <= until
    requires forall x :: x in rest ==> x.ts > until
    ensures Held([first] + rest, until) == [first]
    decreases |rest|
  {
    var all := [first] + rest;
    if rest == [] {
      assert all[..0] == [];
    } else {
      var init := rest[..|rest| - 1];
      assert all[..|all| - 1] == [first] + init;
      assert rest[|rest| - 1] in rest;
      RecentOfOne(first, init, until);
    }
  }

  /**
   * Two VMs on two hosts, one of which reports late. The first poll finds the newest
   * sample of the second VM 100 seconds old; the next starts a minute before the
   * newest sample of the first, and the second VM's next sample is never read.
   */
  lemma LateHostLosesSample(a: seq<Sample'>, b: seq<Sample'>, vcpu: int, anchor: int)
    requires a == [SampleOf(1100)] && b == [SampleOf(1000), SampleOf(1020), SampleOf(1080)]
    ensures
      var pa, pb := Poll(0, 1100 * SECOND, 1100 * SECOND), Poll(0, 1100 * SECOND, 1000 * SECOND);
      var va, vb := AfterPolls(NewVm(), a, [pa], vcpu, anchor), AfterPolls(NewVm(), b, [pb], vcpu, anchor);
      var q := Poll(NewestOf([va, vb]), 1200 * SECOND, 1200 * SECOND);
      && Ordered([pb, q])
      && Misses(NewVm(), b, [pb, q], 1, vcpu, anchor)
      && AfterPolls(NewVm(), b, [pb, q], vcpu, anchor)
         != CountAll(NewVm(), Between(b, Since(0, b, [pb, q]), 1200 * SECOND), vcpu, anchor)
  {
    var pa, pb := Poll(0, 1100 * SECOND, 1100 * SECOND), Poll(0, 1100 * SECOND, 1000 * SECOND);
    FirstOfOne(a, pa, vcpu, anchor);
    FirstOfOne(b, pb, vcpu, anchor);
    var va, vb := AfterPolls(NewVm(), a, [pa], vcpu, anchor), AfterPolls(NewVm(), b, [pb], vcpu, anchor);
    NewestOfTwo(va, vb);
    var q := Poll(1100 * SECOND, 1200 * SECOND, 1200 * SECOND);
    hide AfterPolls, CountAll, RecentFrom, Between, From, Since;
    SecondPollStarts(b, pb, q);
    MissesSecond(b, pb, q, vcpu, anchor);
    PollsAreOnePassIff(NewVm(), b, [pb, q], vcpu, anchor);
  }

  lemma SecondPollStarts(b: seq<Sample'>, p: Poll, q: Poll)
    requires p == Poll(0, 1100 * SECOND, 1000 * SECOND) && q == Poll(1100 * SECOND, 1200 * SECOND, 1200 * SECOND)
    requires RecentFrom(b, p.until) == p.until - 1
    ensures Ordered([p, q]) && Since(0, b, [p, q]) == 1000 * SECOND - 1 && From(b, q) == 1040 * SECOND
  {
    hide RecentFrom;
    assert [p, q][0] == p;
  }

  lemma MissesSecond(b: seq<Sample'>, p: Poll, q: Poll, vcpu: int, anchor: int)
    requires SampleOf(1020) in b && AfterPolls(NewVm(), b, [p], vcpu, anchor).last == 1000 * SECOND
    requires Since(0, b, [p, q]) == 1000 * SECOND - 1 && From(b, q) == 1040 * SECOND
    ensures Misses(NewVm(), b, [p, q], 1, vcpu, anchor)
  {
    hide AfterPolls, Since, From;
    assert [p, q][..1] == [p];
    assert SampleOf(1020).ts == 1020 * SECOND;
  }

  lemma NewestOfTwo(a: VmState, b: VmState)
    ensures NewestOf([a, b]) == Max(Max(0, a.last), b.last)
  {
    assert [a, b][..1] == [a] && [a][..0] == [];
    assert NewestOf([a]) == Max(0, a.last);
  }

  /** A first poll that finds one sample. */
  lemma FirstOfOne(archive: seq<Sample'>, p: Poll, vcpu: int, anchor: int)
    requires StrictlyAscending(archive) && archive != [] && p.Start() == 0
    requires 0 < archive[0].ts == p.until
    ensures AfterPolls(NewVm(), archive, [p], vcpu, anchor).last == p.until
    ensures RecentFrom(archive, p.until) == p.until - 1
  {
    var first, rest := archive[0], archive[1..];
    assert archive == [first] + rest;
    forall x | x in rest
      ensures x.ts > p.until
    {
      var i :| 0 <= i < |rest| && rest[i] == x;
      assert archive[0].ts < archive[i + 1].ts;
    }
    RecentOfOne(first, rest, p.until);
    hide Held, OfferAll, Between, StrictlyAscending;
    assert Held(archive, p.until) == [first];
    FromZero([first]);
    assert Read(archive, p) == [first];
    OnePoll(archive, p, first, vcpu, anchor);
  }

  lemma OnePoll(archive: seq<Sample'>, p: Poll, x: Sample', vcpu: int, anchor: int)
    requires Read(archive, p) == [x] && x.ts > 0
    ensures AfterPolls(NewVm(), archive, [p], vcpu, anchor).last == x.ts
  {
    hide Read, Offered;
    assert [p][..0] == [] && [x][..0] == [];
    assert AfterPolls(NewVm(), archive, [], vcpu, anchor) == NewVm();
    assert OfferAll(NewVm(), [x], vcpu, anchor) == Offered(NewVm(), x, vcpu, anchor);
    OfferedIsLast(NewVm(), x, vcpu, anchor);
  }

  lemma OfferedIsLast(v: VmState, x: Sample', vcpu: int, anchor: int)
    requires v.Valid() && x.ts > v.last
    ensures Offered(v, x, vcpu, anchor).last == x.ts
  {
  }
}
