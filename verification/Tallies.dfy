/**
 * The four kinds of summary a stream of weighted values is folded into: the
 * histogram of percentages, the histogram of rates, plain sums (Stat, stats.go) and
 * a bare amount. None depends on the order of the stream.
 */
module Tallies {
  import opened Numbers
  import opened Ranks
  import opened Histograms
  import opened LogHistograms
  import opened VmStore

  // ---------------------------------------------------------------- plain sums

  /** The sums after a stream of Stat.AddN calls. */
  ghost function StatFold(s: seq<Sample>): StatState {
    if s == [] then NO_STAT else StatAdded(StatFold(s[..|s| - 1]), s[|s| - 1].v, s[|s| - 1].n)
  }

  lemma StatFoldSnoc(s: seq<Sample>, v: real, n: nat)
    ensures StatFold(s + [Sample(v, n)]) == StatAdded(StatFold(s), v, n)
  {
    assert (s + [Sample(v, n)])[..|s|] == s;
  }

  lemma StatAddedIs(s: StatState, v: real, n: nat)
    ensures var t := StatAdded(s, v, n);
      if v >= 0.0 && n > 0 then t.n == s.n + n && t.sum == s.sum + Weighted(v, n) && t.max == MaxReal(s.max, v) else t == s
  {
  }

  /** Their number and their sum, of the reported values, each counted by its weight. */
  lemma {:induction false} StatFoldTotals(s: seq<Sample>)
    ensures StatFold(s).n == Total(LogCounted(s)) && StatFold(s).sum == WeightedSum(LogCounted(s))
  {
    WeightedSnoc([], Sample(0.0, 0));
    hide WeightedSum, Weighted, StatAdded;
    if s != [] {
      var init, last := s[..|s| - 1], s[|s| - 1];
      StatFoldTotals(init);
      StatAddedIs(StatFold(init), last.v, last.n);
      var c := LogCounted(init);
      assert (c + [last])[..|c|] == c;
      WeightedSnoc(c, last);
    }
  }

  /** ... and the largest, 0 without any. */
  lemma {:induction false} StatFoldMax(s: seq<Sample>)
    ensures forall i :: 0 <= i < |LogCounted(s)| ==> LogCounted(s)[i].v <= StatFold(s).max
    ensures if LogCounted(s) == [] then StatFold(s).max == 0.0
            else exists i :: 0 <= i < |LogCounted(s)| && LogCounted(s)[i].v == StatFold(s).max
  {
    hide StatAdded, Weighted;
    if s != [] {
      var init, last := s[..|s| - 1], s[|s| - 1];
      StatFoldMax(init);
      StatAddedIs(StatFold(init), last.v, last.n);
      if last.v >= 0.0 && last.n != 0 {
        var c := LogCounted(init);
        assert LogCounted(s)[|c|] == last;
        if c != [] {
          var i :| 0 <= i < |c| && c[i].v == StatFold(init).max;
          assert LogCounted(s)[i].v == StatFold(init).max;
        }
      }
    }
  }

  // ------------------------------------------------------------------- any summary

  datatype Tally = Percents(h: HistState) | Rates(l: LogState) | Sums(s: StatState) | Amount(a: real) {
    ghost predicate Valid() {
      Percents? ==> h.Valid()
    }

    /** How many values it counts, by weight; a bare amount counts none. */
    function Number(): nat {
      match this
      case Percents(h) => h.n
      case Rates(l) => l.n
      case Sums(s) => s.n
      case Amount(_) => 0
    }
  }

  function Tallied(t: Tally, v: real, n: nat): (r: Tally)
    requires t.Valid()
    ensures r.Valid()
  {
    match t
    case Percents(h) => Percents(Added(h, v, n))
    case Rates(l) => Rates(LogAdded(l, v, n))
    case Sums(s) => Sums(StatAdded(s, v, n))
    case Amount(a) => Amount(a + Weighted(v, n))
  }

  /** What a stream makes of an empty summary. */
  ghost function TallyFold(empty: Tally, s: seq<Sample>): (t: Tally)
    requires empty.Valid()
    ensures t.Valid()
  {
    if s == [] then empty else Tallied(TallyFold(empty, s[..|s| - 1]), s[|s| - 1].v, s[|s| - 1].n)
  }

  const NO_RATES := Rates(EMPTY_LOG)
  const NO_SUMS := Sums(NO_STAT)
  const NO_AMOUNT := Amount(0.0)

  function NoPercents(): (t: Tally)
    ensures t.Valid()
  {
    Percents(EmptyHist())
  }

  lemma TallySnoc(empty: Tally, s: seq<Sample>, x: Sample)
    requires empty.Valid()
    ensures TallyFold(empty, s + [x]) == Tallied(TallyFold(empty, s), x.v, x.n)
  {
    assert (s + [x])[..|s|] == s;
  }

  /** In the terms of the histograms and sums themselves. */
  lemma {:induction false} TallyIs(s: seq<Sample>)
    ensures TallyFold(NoPercents(), s) == Percents(Fold(s))
    ensures TallyFold(NO_RATES, s) == Rates(LogFold(s))
    ensures TallyFold(NO_SUMS, s) == Sums(StatFold(s))
    ensures TallyFold(NO_AMOUNT, s) == Amount(WeightedSum(s))
  {
    hide Added, LogAdded, StatAdded, Weighted;
    if s != [] {
      TallyIs(s[..|s| - 1]);
    }
  }

  lemma TalliedCommutes(t: Tally, a: Sample, b: Sample)
    requires t.Valid()
    ensures Tallied(Tallied(t, a.v, a.n), b.v, b.n) == Tallied(Tallied(t, b.v, b.n), a.v, a.n)
  {
    hide Added, LogAdded, StatAdded, Weighted;
    match t
    case Percents(h) => AddedCommutes(h, a, b);
    case Rates(l) => LogAddedCommutes(l, a, b);
    case Sums(s) => StatCommutes(s, a, b);
    case Amount(_) =>
  }

  lemma StatCommutes(s: StatState, a: Sample, b: Sample)
    ensures StatAdded(StatAdded(s, a.v, a.n), b.v, b.n) == StatAdded(StatAdded(s, b.v, b.n), a.v, a.n)
  {
  }

  lemma {:induction false} TallyMoveToEnd(empty: Tally, s: seq<Sample>, i: nat)
    requires empty.Valid() && i < |s|
    ensures TallyFold(empty, s) == Tallied(TallyFold(empty, s[..i] + s[i + 1..]), s[i].v, s[i].n)
  {
    var init, last, rest := s[..|s| - 1], s[|s| - 1], s[..i] + s[i + 1..];
    assert s == init + [last];
    TallySnoc(empty, init, last);
    if i == |s| - 1 {
      assert rest == init;
    } else {
      var shorter := init[..i] + init[i + 1..];
      assert rest == shorter + [last];
      TallySnoc(empty, shorter, last);
      hide TallyFold, Tallied;
      TallyMoveToEnd(empty, init, i);
      TalliedCommutes(TallyFold(empty, shorter), s[i], last);
    }
  }

  /** Only the values matter, not their order. */
  lemma {:induction false} TallyAnyOrder(empty: Tally, s: seq<Sample>, t: seq<Sample>)
    requires empty.Valid() && multiset(s) == multiset(t)
    ensures TallyFold(empty, s) == TallyFold(empty, t)
  {
    if s == [] {
      assert |multiset(t)| == |t|;
    } else {
      var last := s[|s| - 1];
      assert last in multiset(t);
      var i :| 0 <= i < |t| && t[i] == last;
      hide TallyFold, Tallied;
      WithoutOne(s, |s| - 1);
      WithoutOne(t, i);
      TallyAnyOrder(empty, s[..|s| - 1] + s[|s|..], t[..i] + t[i + 1..]);
      TallyMoveToEnd(empty, s, |s| - 1);
      TallyMoveToEnd(empty, t, i);
    }
  }

  lemma TalliedNumber(t: Tally, v: real, n: nat)
    requires t.Valid()
    ensures Tallied(t, v, n).Number() <= t.Number() + n
    ensures v >= 0.0 && !t.Amount? ==> Tallied(t, v, n).Number() == t.Number() + n
    ensures Tallied(t, v, n).Amount? == t.Amount?
  {
    hide LogBucket, LogCount, AddCount, Bucket, Weighted;
  }

  /** A stream adds at most its weight to the number, and all of it without negative values. */
  lemma {:induction false} TallyNumber(empty: Tally, before: seq<Sample>, s: seq<Sample>)
    requires empty.Valid()
    ensures TallyFold(empty, before + s).Number() <= TallyFold(empty, before).Number() + Total(s)
    ensures NonNegative(s) && !empty.Amount? ==> TallyFold(empty, before + s).Number() == TallyFold(empty, before).Number() + Total(s)
    ensures TallyFold(empty, before + s).Amount? == TallyFold(empty, before).Amount?
    ensures TallyFold(empty, before).Amount? == empty.Amount?
  {
    TallyKind(empty, before);
    hide TallyFold, Tallied;
    if s == [] {
      assert before + s == before;
    } else {
      var init, x := s[..|s| - 1], s[|s| - 1];
      TallyNumber(empty, before, init);
      assert before + s == (before + init) + [x];
      TallySnoc(empty, before + init, x);
      TalliedNumber(TallyFold(empty, before + init), x.v, x.n);
    }
  }

  lemma {:induction false} TallyKind(empty: Tally, s: seq<Sample>)
    requires empty.Valid()
    ensures TallyFold(empty, s).Amount? == empty.Amount?
  {
    hide Added, LogAdded, StatAdded, Weighted;
    if s != [] {
      TallyKind(empty, s[..|s| - 1]);
    }
  }
}
