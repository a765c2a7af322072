/**
 * Splitting the past across vCenter's statistics intervals, finest first
 * (HistoryPlan, internal/vc/perf.go). Times are nanoseconds.
 */
module HistoryPlanning {
  import opened Numbers
  import opened DemandSlots

  /** A statistics interval: one sample every period seconds, kept for length seconds. */
  datatype Interval = Interval(enabled: bool, level: int, period: int, length: int)

  /** A time range read at one interval; the start is exclusive, the end inclusive. */
  datatype Window = Window(interval: int, start: int, end: int)

  predicate Eligible(iv: Interval) {
    iv.enabled && iv.level >= 1 && iv.period > 0
  }

  /** The oldest instant an interval still holds, exclusive. */
  function Horizon(iv: Interval, now: int): int {
    now - iv.length * SECOND
  }

  predicate Contains(w: Window, t: int) {
    w.start < t <= w.end
  }

  /** The enabled interval iv still holds instant t. */
  predicate Retains(iv: Interval, now: int, t: int) {
    Eligible(iv) && Horizon(iv, now) < t
  }

  ghost predicate Retained(ivs: seq<Interval>, now: int, t: int) {
    exists i :: 0 <= i < |ivs| && Retains(ivs[i], now, t)
  }

  ghost predicate Covered(out: seq<Window>, t: int) {
    exists k :: 0 <= k < |out| && Contains(out[k], t)
  }

  // ---------------------------------------------------------------- sorting

  ghost predicate SortedByPeriod(ivs: seq<Interval>) {
    forall i, j :: 0 <= i < j < |ivs| ==> ivs[i].period <= ivs[j].period
  }

  function InsertByPeriod(ivs: seq<Interval>, iv: Interval): (r: seq<Interval>)
    requires SortedByPeriod(ivs)
    ensures SortedByPeriod(r)
    ensures forall x :: x in r <==> x in ivs || x == iv
  {
    if ivs == [] || iv.period <= ivs[0].period then [iv] + ivs
    else
      var rest := InsertByPeriod(ivs[1..], iv);
      assert forall i :: 0 <= i < |rest| ==> rest[i] in ivs[1..] || rest[i] == iv;
      [ivs[0]] + rest
  }

  lemma {:induction false} InsertKeepsAll(ivs: seq<Interval>, iv: Interval)
    requires SortedByPeriod(ivs)
    ensures multiset(InsertByPeriod(ivs, iv)) == multiset(ivs) + multiset{iv}
  {
    if ivs != [] && iv.period > ivs[0].period {
      InsertKeepsAll(ivs[1..], iv);
      assert ivs == [ivs[0]] + ivs[1..];
    }
  }

  /** sort.Slice is not stable: all a caller may rely on is a sorted permutation. */
  method SortByPeriod(ivs: seq<Interval>) returns (r: seq<Interval>)
    ensures SortedByPeriod(r) && multiset(r) == multiset(ivs)
  {
    r := [];
    for i := 0 to |ivs|
      invariant SortedByPeriod(r) && multiset(r) == multiset(ivs[..i])
    {
      assert ivs[..i + 1] == ivs[..i] + [ivs[i]];
      InsertKeepsAll(r, ivs[i]);
      r := InsertByPeriod(r, ivs[i]);
    }
    assert ivs[..|ivs|] == ivs;
  }

  // ----------------------------------------------------------------- the plan

  datatype Planner = Planner(cursor: int, out: seq<Window>)

  function Step(p: Planner, iv: Interval, now: int, oldest: int): Planner {
    var from := Max(Horizon(iv, now), oldest);
    if !Eligible(iv) || p.cursor <= oldest || from >= p.cursor then p
    else Planner(from, p.out + [Window(iv.period, from, p.cursor)])
  }

  /** The planner after the first m intervals. */
  function PlanTo(ivs: seq<Interval>, now: int, oldest: int, m: nat): Planner
    requires m <= |ivs|
  {
    if m == 0 then Planner(now, []) else Step(PlanTo(ivs, now, oldest, m - 1), ivs[m - 1], now, oldest)
  }

  function PlanOf(ivs: seq<Interval>, now: int, back: int): seq<Window> {
    PlanTo(ivs, now, now - back, |ivs|).out
  }

  // ------------------------------------------------------------- main results

  /** The windows run back from now without gap or overlap. */
  ghost predicate Tiles(out: seq<Window>, now: int, until: int) {
    && (forall k :: 0 <= k < |out| ==> out[k].start < out[k].end)
    && (out != [] ==> out[0].end == now)
    && (forall k :: 0 < k < |out| ==> out[k].end == out[k - 1].start)
    && until == if out == [] then now else out[|out| - 1].start
  }

  /** Window w belongs to interval j: no interval before j reaches as far back. */
  ghost predicate From(ivs: seq<Interval>, now: int, oldest: int, w: Window, j: nat)
    requires j < |ivs|
  {
    && Eligible(ivs[j]) && ivs[j].period == w.interval
    && Horizon(ivs[j], now) <= w.start && oldest <= w.start
    && forall i :: 0 <= i < j && Eligible(ivs[i]) ==> w.end <= Max(Horizon(ivs[i], now), oldest)
  }

  ghost predicate AllFrom(ivs: seq<Interval>, now: int, oldest: int, m: nat, out: seq<Window>)
    requires m <= |ivs|
  {
    forall k :: 0 <= k < |out| ==> SomeFrom(ivs, now, oldest, m, out[k])
  }

  ghost predicate SomeFrom(ivs: seq<Interval>, now: int, oldest: int, m: nat, w: Window)
    requires m <= |ivs|
  {
    exists j :: 0 <= j < m && From(ivs, now, oldest, w, j)
  }

  /** A step keeps the windows contiguous and moves the cursor to the interval's horizon if it is behind. */
  lemma StepTiles(p: Planner, iv: Interval, now: int, oldest: int)
    requires Tiles(p.out, now, p.cursor)
    ensures var q := Step(p, iv, now, oldest);
      && Tiles(q.out, now, q.cursor) && q.cursor <= p.cursor
      && (Eligible(iv) ==> q.cursor <= Max(Horizon(iv, now), oldest))
  {
    hide Horizon, Eligible;
  }

  /** The window a step adds belongs to its interval. */
  lemma StepFrom(ivs: seq<Interval>, now: int, oldest: int, j: nat, p: Planner)
    requires j < |ivs|
    requires forall i :: 0 <= i < j && Eligible(ivs[i]) ==> p.cursor <= Max(Horizon(ivs[i], now), oldest)
    ensures var q := Step(p, ivs[j], now, oldest);
      q != p ==> |q.out| > |p.out| && q.out == p.out + [q.out[|p.out|]] && From(ivs, now, oldest, q.out[|p.out|], j)
  {
    hide Horizon;
  }

  lemma {:induction false} PlanInvariant(ivs: seq<Interval>, now: int, oldest: int, m: nat)
    requires m <= |ivs|
    ensures Tiles(PlanTo(ivs, now, oldest, m).out, now, PlanTo(ivs, now, oldest, m).cursor)
    ensures forall i :: 0 <= i < m && Eligible(ivs[i]) ==>
      PlanTo(ivs, now, oldest, m).cursor <= Max(Horizon(ivs[i], now), oldest)
    ensures AllFrom(ivs, now, oldest, m, PlanTo(ivs, now, oldest, m).out)
  {
    assert m == 0 ==> Tiles(PlanTo(ivs, now, oldest, m).out, now, PlanTo(ivs, now, oldest, m).cursor);
    hide Tiles, From, Horizon, Eligible;
    if m > 0 {
      PlanInvariant(ivs, now, oldest, m - 1);
      var p, q := PlanTo(ivs, now, oldest, m - 1), PlanTo(ivs, now, oldest, m);
      StepTiles(p, ivs[m - 1], now, oldest);
      StepFrom(ivs, now, oldest, m - 1, p);
      StepAllFrom(ivs, now, oldest, m - 1, p);
    }
  }

  lemma StepAllFrom(ivs: seq<Interval>, now: int, oldest: int, m: nat, p: Planner)
    requires m < |ivs| && AllFrom(ivs, now, oldest, m, p.out)
    requires var q := Step(p, ivs[m], now, oldest);
      q != p ==> |q.out| > |p.out| && q.out == p.out + [q.out[|p.out|]] && From(ivs, now, oldest, q.out[|p.out|], m)
    ensures AllFrom(ivs, now, oldest, m + 1, Step(p, ivs[m], now, oldest).out)
  {
    var q := Step(p, ivs[m], now, oldest);
    hide From, Step;
    forall k | 0 <= k < |q.out|
      ensures SomeFrom(ivs, now, oldest, m + 1, q.out[k])
    {
      if k < |p.out| {
        assert SomeFrom(ivs, now, oldest, m, p.out[k]);
      }
    }
  }

  /** The plan's windows are contiguous back from now, so they are pairwise disjoint. */
  lemma PlanTiles(ivs: seq<Interval>, now: int, back: int)
    ensures Tiles(PlanOf(ivs, now, back), now, PlanTo(ivs, now, now - back, |ivs|).cursor)
    ensures var out := PlanOf(ivs, now, back);
      forall j, k, t :: 0 <= j < k < |out| && Contains(out[j], t) ==> !Contains(out[k], t)
  {
    PlanInvariant(ivs, now, now - back, |ivs|);
    var out := PlanOf(ivs, now, back);
    forall j, k, t | 0 <= j < k < |out| && Contains(out[j], t)
      ensures !Contains(out[k], t)
    {
      TilesDescend(out, now, PlanTo(ivs, now, now - back, |ivs|).cursor, j, k);
    }
  }

  lemma {:induction false} TilesDescend(out: seq<Window>, now: int, until: int, j: nat, k: nat)
    requires Tiles(out, now, until) && j < k < |out|
    ensures out[k].end <= out[j].start
  {
    if j < k - 1 {
      TilesDescend(out, now, until, j, k - 1);
    }
  }

  /** Every instant between the last start and now lies in some window. */
  lemma {:induction false} TilesCover(out: seq<Window>, now: int, until: int, t: int) returns (k: nat)
    requires Tiles(out, now, until) && until < t <= now
    ensures k < |out| && Contains(out[k], t)
    decreases |out|
  {
    var last := |out| - 1;
    if t <= out[last].end {
      k := last;
    } else {
      var init := out[..last];
      assert forall i :: 0 <= i < last ==> init[i] == out[i];
      assert out[last].end == out[last - 1].start;
      k := TilesCover(init, now, out[last].end, t);
    }
  }

  /** An instant of the period asked for is read exactly when some enabled interval still holds it ... */
  lemma CoveredIffRetained(ivs: seq<Interval>, now: int, back: int, t: int)
    requires now - back < t <= now
    ensures Covered(PlanOf(ivs, now, back), t) <==> Retained(ivs, now, t)
  {
    var oldest, out := now - back, PlanOf(ivs, now, back);
    PlanInvariant(ivs, now, oldest, |ivs|);
    if i :| 0 <= i < |ivs| && Retains(ivs[i], now, t) {
      var k := TilesCover(out, now, PlanTo(ivs, now, oldest, |ivs|).cursor, t);
    }
    if k :| 0 <= k < |out| && Contains(out[k], t) {
      var j :| 0 <= j < |ivs| && From(ivs, now, oldest, out[k], j);
      assert Retains(ivs[j], now, t);
    }
  }

  /** ... and it is read at the finest resolution any of them offers. */
  lemma ReadAtFinest(ivs: seq<Interval>, now: int, back: int, t: int, k: nat)
    requires SortedByPeriod(ivs)
    requires now - back < t <= now && k < |PlanOf(ivs, now, back)| && Contains(PlanOf(ivs, now, back)[k], t)
    ensures exists i :: 0 <= i < |ivs| && Retains(ivs[i], now, t) && ivs[i].period == PlanOf(ivs, now, back)[k].interval
    ensures forall i :: 0 <= i < |ivs| && Retains(ivs[i], now, t) ==> PlanOf(ivs, now, back)[k].interval <= ivs[i].period
  {
    var oldest, w := now - back, PlanOf(ivs, now, back)[k];
    PlanInvariant(ivs, now, oldest, |ivs|);
    var j :| 0 <= j < |ivs| && From(ivs, now, oldest, w, j);
    assert Retains(ivs[j], now, t);
  }

  /** Nothing is read from before the period asked for. */
  lemma WindowsWithin(ivs: seq<Interval>, now: int, back: int, k: nat)
    requires k < |PlanOf(ivs, now, back)|
    ensures now - back <= PlanOf(ivs, now, back)[k].start < PlanOf(ivs, now, back)[k].end <= now
  {
    var oldest, out := now - back, PlanOf(ivs, now, back);
    PlanInvariant(ivs, now, oldest, |ivs|);
    var j :| 0 <= j < |ivs| && From(ivs, now, oldest, out[k], j);
    assert out[0].end == now;
    if k > 0 {
      TilesDescend(out, now, PlanTo(ivs, now, oldest, |ivs|).cursor, 0, k);
    }
  }

  /** The greedy loop: its windows tile the past, cover what is retained, and read it at the finest interval. */
  method HistoryPlan(intervals: seq<Interval>, now: int, back: int)
    returns (out: seq<Window>, ghost order: seq<Interval>)
    ensures SortedByPeriod(order) && multiset(order) == multiset(intervals)
    ensures out == PlanOf(order, now, back)
    ensures Tiles(out, now, if out == [] then now else out[|out| - 1].start)
    ensures forall t :: now - back < t <= now ==> (Covered(out, t) <==> Retained(intervals, now, t))
    ensures forall k, t, iv :: 0 <= k < |out| && Contains(out[k], t) && iv in intervals && Retains(iv, now, t) ==>
      out[k].interval <= iv.period
  {
    var ivs := SortByPeriod(intervals);
    order := ivs;
    var oldest := now - back;
    var cursor := now;
    out := [];
    for i := 0 to |ivs|
      invariant Planner(cursor, out) == PlanTo(ivs, now, oldest, i)
    {
      var iv := ivs[i];
      if !iv.enabled || iv.level < 1 || iv.period <= 0 || cursor <= oldest {
        continue;
      }
      var from := now - iv.length * SECOND;
      if from < oldest {
        from := oldest;
      }
      if from >= cursor {
        continue;
      }
      out := out + [Window(iv.period, from, cursor)];
      cursor := from;
    }
    PlanTiles(order, now, back);
    forall t | now - back < t <= now
      ensures Covered(out, t) <==> Retained(intervals, now, t)
    {
      CoveredIffRetained(order, now, back, t);
      RetainedByOrder(order, intervals, now, t);
    }
    forall k, t, iv | 0 <= k < |out| && Contains(out[k], t) && iv in intervals && Retains(iv, now, t)
      ensures out[k].interval <= iv.period
    {
      WindowsWithin(order, now, back, k);
      ReadAtFinest(order, now, back, t, k);
      assert iv in multiset(order);
    }
  }

  lemma RetainedByOrder(order: seq<Interval>, ivs: seq<Interval>, now: int, t: int)
    requires multiset(order) == multiset(ivs)
    ensures Retained(order, now, t) <==> Retained(ivs, now, t)
  {
    forall a, b: seq<Interval> | multiset(a) == multiset(b) && Retained(a, now, t)
      ensures Retained(b, now, t)
    {
      var i :| 0 <= i < |a| && Retains(a[i], now, t);
      assert a[i] in multiset(b);
      var j :| 0 <= j < |b| && b[j] == a[i];
    }
  }
}
