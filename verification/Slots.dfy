/**
 * Half-hour demand slots (addDemand and setSlot, internal/analysis/stats.go):
 * a running mean per slot with a saturating counter. Times are nanoseconds
 * since the zero time.
 */
module DemandSlots {
  import opened Numbers
  import opened RealProducts

  const SECOND := 1_000_000_000
  const SLOT_LENGTH := 1800 * SECOND
  const MAX_SLOTS := 32 * 48

  /** One sample of a VM: the demand over the interval that ends at ts. */
  datatype Reading = Reading(ts: int, interval: int, mhz: real)

  /** The demand of one VM: an average per slot and how many values went into it. */
  datatype DemandSeries = DemandSeries(demand: seq<real>, slots: seq<nat>) {
    predicate Valid() {
      |demand| == |slots|
    }
  }

  function Truncate(t: int): int {
    t - t % SLOT_LENGTH
  }

  /** How long a sample counts for: its interval, but never less than 20 seconds. */
  function Span(interval: int): (d: int)
    ensures d >= 20 * SECOND
    ensures interval >= 20 ==> d == interval * 1_000_000_000
    ensures interval < 20 ==> d == 20 * 1_000_000_000
  {
    Max(interval, 20) * SECOND
  }

  // ------------------------------------------------------------ abstract state

  ghost predicate ValidDemand(s: DemandSeries) {
    s.Valid() && |s.demand| <= MAX_SLOTS && forall i :: 0 <= i < |s.slots| ==> s.slots[i] <= MAX_UINT16
  }

  const NO_DEMAND := DemandSeries([], [])

  /** Appends empty slots until slot i exists. */
  function Grown(s: DemandSeries, i: nat): (r: DemandSeries)
    requires s.Valid()
    ensures r.Valid() && |r.demand| == Max(|s.demand|, i + 1)
    ensures forall k :: 0 <= k < |r.demand| ==>
      r.demand[k] == (if k < |s.demand| then s.demand[k] else 0.0) && r.slots[k] == (if k < |s.slots| then s.slots[k] else 0)
    decreases i + 1 - |s.demand|
  {
    if |s.demand| <= i then Grown(DemandSeries(s.demand + [0.0], s.slots + [0]), i) else s
  }

  function Mean(d: real, n: nat, mhz: real): real {
    (d * n as real + mhz) / (n + 1) as real
  }

  function SetSlot(s: DemandSeries, anchor: int, t: int, mhz: real): DemandSeries
    requires s.Valid()
  {
    if t < anchor || (t - anchor) / SLOT_LENGTH >= MAX_SLOTS then s
    else
      var i := (t - anchor) / SLOT_LENGTH;
      var g := Grown(s, i);
      DemandSeries(g.demand[i := Mean(g.demand[i], g.slots[i], mhz)],
             if g.slots[i] < MAX_UINT16 then g.slots[i := g.slots[i] + 1] else g.slots)
  }

  /** The loop over the slots of a long sample, from t on. */
  function Fill(s: DemandSeries, anchor: int, t: int, ts: int, mhz: real): (r: DemandSeries)
    requires s.Valid()
    ensures r.Valid()
    decreases ts - t
  {
    if t >= ts then s else Fill(SetSlot(s, anchor, t, mhz), anchor, t + SLOT_LENGTH, ts, mhz)
  }

  function AddDemand(s: DemandSeries, anchor: int, x: Reading): (r: DemandSeries)
    requires s.Valid()
    ensures r.Valid()
  {
    var span := Span(x.interval);
    if x.mhz < 0.0 || anchor == 0 then s
    else if span <= SLOT_LENGTH then SetSlot(s, anchor, x.ts - span / 2, x.mhz)
    else Fill(s, anchor, Truncate(x.ts - span), x.ts, x.mhz)
  }

  // ----------------------------------------------------------- slot by slot

  datatype Slot = Slot(mean: real, n: nat)

  function At(s: DemandSeries, i: nat): Slot
    requires s.Valid()
  {
    if i < |s.demand| then Slot(s.demand[i], s.slots[i]) else Slot(0.0, 0)
  }

  function Push(x: Slot, mhz: real): Slot {
    Slot(Mean(x.mean, x.n, mhz), if x.n < MAX_UINT16 then x.n + 1 else x.n)
  }

  function SlotStart(anchor: int, i: int): int {
    anchor + i * SLOT_LENGTH
  }

  /** The sample is recorded in slot i. */
  predicate Covers(anchor: int, x: Reading, i: nat) {
    var span := Span(x.interval);
    && x.mhz >= 0.0 && i < MAX_SLOTS
    && if span <= SLOT_LENGTH
       then SlotStart(anchor, i) <= x.ts - span / 2 < SlotStart(anchor, i + 1)
       else SlotStart(anchor, i) < x.ts && x.ts - span < SlotStart(anchor, i + 1)
  }

  ghost predicate InSample(x: Reading, t: int) {
    x.ts - Span(x.interval) <= t < x.ts
  }

  ghost predicate InSlot(anchor: int, i: nat, t: int) {
    SlotStart(anchor, i) <= t < SlotStart(anchor, i + 1)
  }

  /** A sample longer than half an hour goes to exactly the slots it shares an instant with. */
  lemma LongSampleCoversOverlap(anchor: int, x: Reading, i: nat)
    requires x.mhz >= 0.0 && i < MAX_SLOTS && Span(x.interval) > SLOT_LENGTH
    ensures Covers(anchor, x, i) <==> exists t :: InSample(x, t) && InSlot(anchor, i, t)
  {
    if Covers(anchor, x, i) {
      var t := Max(x.ts - Span(x.interval), SlotStart(anchor, i));
      assert InSample(x, t) && InSlot(anchor, i, t);
    }
  }

  /** A shorter one goes to the slot its midpoint lies in. */
  lemma ShortSampleCoversMidpoint(anchor: int, x: Reading, i: nat)
    requires x.mhz >= 0.0 && i < MAX_SLOTS && 20 <= x.interval <= 1800
    ensures Covers(anchor, x, i) <==> InSlot(anchor, i, x.ts - x.interval * 500_000_000)
  {
  }

  lemma SlotOf(anchor: int, t: int, i: nat)
    requires t >= anchor
    ensures (t - anchor) / SLOT_LENGTH == i <==> SlotStart(anchor, i) <= t < SlotStart(anchor, i + 1)
  {
  }

  lemma SetSlotAt(s: DemandSeries, anchor: int, t: int, mhz: real, i: nat)
    requires ValidDemand(s)
    ensures ValidDemand(SetSlot(s, anchor, t, mhz))
    ensures At(SetSlot(s, anchor, t, mhz), i) ==
      if i < MAX_SLOTS && SlotStart(anchor, i) <= t < SlotStart(anchor, i + 1) then Push(At(s, i), mhz) else At(s, i)
  {
    if t >= anchor {
      SlotOf(anchor, t, i);
    }
  }

  /** From an aligned t on, the loop pushes once into every slot that starts before ts. */
  lemma {:induction false} FillAt(s: DemandSeries, anchor: int, t: int, ts: int, mhz: real, i: nat)
    requires ValidDemand(s)
    requires anchor % SLOT_LENGTH == 0 && t % SLOT_LENGTH == 0
    ensures ValidDemand(Fill(s, anchor, t, ts, mhz))
    ensures At(Fill(s, anchor, t, ts, mhz), i) ==
      if i < MAX_SLOTS && t <= SlotStart(anchor, i) < ts then Push(At(s, i), mhz) else At(s, i)
    decreases ts - t
  {
    hide SetSlot, Push, At;
    if t < ts {
      AlignedTimes(anchor, t, i);
      SetSlotAt(s, anchor, t, mhz, i);
      FillAt(SetSlot(s, anchor, t, mhz), anchor, t + SLOT_LENGTH, ts, mhz, i);
    }
  }

  /** Aligned times either start slot i or lie a whole slot away. */
  lemma AlignedTimes(anchor: int, t: int, i: nat)
    requires anchor % SLOT_LENGTH == 0 && t % SLOT_LENGTH == 0
    ensures SlotStart(anchor, i) <= t < SlotStart(anchor, i + 1) <==> t == SlotStart(anchor, i)
    ensures t < SlotStart(anchor, i) <==> t + SLOT_LENGTH <= SlotStart(anchor, i)
  {
    var a, b := anchor / SLOT_LENGTH, t / SLOT_LENGTH;
    assert anchor == a * SLOT_LENGTH && t == b * SLOT_LENGTH;
  }

  /** One sample changes exactly the slots it covers. */
  lemma AddDemandAt(s: DemandSeries, anchor: int, x: Reading, i: nat)
    requires ValidDemand(s) && anchor != 0 && anchor % SLOT_LENGTH == 0
    ensures ValidDemand(AddDemand(s, anchor, x))
    ensures At(AddDemand(s, anchor, x), i) == if Covers(anchor, x, i) then Push(At(s, i), x.mhz) else At(s, i)
  {
    var span := Span(x.interval);
    if x.mhz >= 0.0 {
      if span <= SLOT_LENGTH {
        SetSlotAt(s, anchor, x.ts - span / 2, x.mhz, i);
      } else {
        var t := Truncate(x.ts - span);
        TruncateAligned(x.ts - span);
        FillAt(s, anchor, t, x.ts, x.mhz, i);
        AlignedTimes(anchor, t, i);
        AlignedTimes(anchor, t, i + 1);
      }
    }
  }

  lemma TruncateAligned(t: int)
    ensures Truncate(t) % SLOT_LENGTH == 0 && Truncate(t) <= t < Truncate(t) + SLOT_LENGTH
  {
    assert Truncate(t) == t / SLOT_LENGTH * SLOT_LENGTH;
  }

  // -------------------------------------------------------- whole streams

  ghost function FoldDemand(xs: seq<Reading>, anchor: int): (s: DemandSeries)
    ensures s.Valid()
  {
    if xs == [] then NO_DEMAND else AddDemand(FoldDemand(xs[..|xs| - 1], anchor), anchor, xs[|xs| - 1])
  }

  /** The values recorded in slot i, in order of arrival. */
  ghost function Recorded(xs: seq<Reading>, anchor: int, i: nat): seq<real> {
    if xs == [] then []
    else Recorded(xs[..|xs| - 1], anchor, i) + if Covers(anchor, xs[|xs| - 1], i) then [xs[|xs| - 1].mhz] else []
  }

  ghost function SumOf(v: seq<real>): real {
    if v == [] then 0.0 else SumOf(v[..|v| - 1]) + v[|v| - 1]
  }

  lemma MeanExtends(d: real, n: nat, sum: real, mhz: real)
    requires Times(d, n as real) == sum
    ensures Times(Mean(d, n, mhz), (n + 1) as real) == sum + mhz
  {
  }

  lemma MeanBetween(d: real, n: nat, mhz: real, lo: real, hi: real)
    requires n > 0 ==> lo <= d <= hi
    requires lo <= mhz <= hi
    ensures lo <= Mean(d, n, mhz) <= hi
  {
    var k := n as real;
    if n > 0 {
      ProductNonNegative(d - lo, k);
      ProductNonNegative(hi - d, k);
      assert Times(d - lo, k) == d * k - lo * k;
      assert Times(hi - d, k) == hi * k - d * k;
    }
    var m := Mean(d, n, mhz);
    assert m * (k + 1.0) == d * k + mhz;
    assert lo * k + lo <= m * (k + 1.0) <= hi * k + hi;
    Cancel(lo, m, k + 1.0);
    Cancel(m, hi, k + 1.0);
  }

  lemma Cancel(a: real, b: real, k: real)
    requires k > 0.0 && a * k <= b * k
    ensures a <= b
  {
    assert Times(a - b, k) == a * k - b * k;
    if a > b {
      ProductPositive(a - b, k);
    }
  }

  /** What a slot holds: a count that saturates, and up to 65536 values the exact mean. */
  lemma {:induction false} SlotIsMean(xs: seq<Reading>, anchor: int, i: nat)
    requires anchor != 0 && anchor % SLOT_LENGTH == 0
    ensures ValidDemand(FoldDemand(xs, anchor))
    ensures var slot, v := At(FoldDemand(xs, anchor), i), Recorded(xs, anchor, i);
      && slot.n == Min(|v|, MAX_UINT16)
      && (v == [] ==> slot.mean == 0.0)
      && (|v| <= MAX_UINT16 + 1 ==> Times(slot.mean, |v| as real) == SumOf(v))
  {
    hide AddDemand, Covers, Mean, Times, At, ValidDemand;
    if xs == [] {
      EmptySlot(i);
    } else {
      var init, x := xs[..|xs| - 1], xs[|xs| - 1];
      SlotIsMean(init, anchor, i);
      var s, v := FoldDemand(init, anchor), Recorded(init, anchor, i);
      AddDemandAt(s, anchor, x, i);
      if Covers(anchor, x, i) {
        assert (v + [x.mhz])[..|v|] == v;
        if |v| <= MAX_UINT16 {
          MeanExtends(At(s, i).mean, |v|, SumOf(v), x.mhz);
        }
      } else {
        assert v + [] == v;
      }
    }
  }

  lemma EmptySlot(i: nat)
    ensures ValidDemand(NO_DEMAND) && At(NO_DEMAND, i) == Slot(0.0, 0)
    ensures Times(0.0, 0 as real) == 0.0
  {
  }

  /** However many values arrive, the slot stays between the smallest and the largest of them. */
  lemma {:induction false} SlotBetween(xs: seq<Reading>, anchor: int, i: nat, lo: real, hi: real)
    requires anchor != 0 && anchor % SLOT_LENGTH == 0
    requires forall k :: 0 <= k < |Recorded(xs, anchor, i)| ==> lo <= Recorded(xs, anchor, i)[k] <= hi
    requires Recorded(xs, anchor, i) != []
    ensures lo <= At(FoldDemand(xs, anchor), i).mean <= hi
  {
    var init, x := xs[..|xs| - 1], xs[|xs| - 1];
    var s, v := FoldDemand(init, anchor), Recorded(init, anchor, i);
    SlotIsMean(init, anchor, i);
    AddDemandAt(s, anchor, x, i);
    if Covers(anchor, x, i) {
      assert Recorded(xs, anchor, i)[|v|] == x.mhz;
      assert forall k :: 0 <= k < |v| ==> Recorded(xs, anchor, i)[k] == v[k];
      if v != [] {
        SlotBetween(init, anchor, i, lo, hi);
      }
      MeanBetween(At(s, i).mean, At(s, i).n, x.mhz, lo, hi);
    } else {
      assert Recorded(xs, anchor, i) == v;
      SlotBetween(init, anchor, i, lo, hi);
    }
  }
}
