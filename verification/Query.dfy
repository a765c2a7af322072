/**
 * Reading performance series from vCenter (convert, run, mergeInst and query,
 * internal/vc/perf.go). The server is a function from the number of the call
 * and the entities asked for to a reply, so it may answer differently each time.
 */
module VcQuery {
  import opened Numbers
  import opened VcSeries
  import opened HistoryPlanning
  import opened HistoryImport
  import HostSamples
  import HostCalls

  const REALTIME_INTERVAL := 20
  const REALTIME_BATCH := 64
  const HISTORY_METRIC_LIMIT := 64

  // -------------------------------------------------------------------- convert

  /** One counter of one entity as the server sends it; -1 marks a missing value. */
  datatype RawCounter = RawCounter(id: int, instance: string, values: seq<int>)

  datatype Entity = Entity(ref: string, stamps: seq<int>, counters: seq<RawCounter>)

  const PER_DATASTORE := {READ_IOPS, WRITE_IOPS, READ_KBPS, WRITE_KBPS, READ_LAT, WRITE_LAT}

  function Scale(counter: string, v: int): real {
    if v < 0 then -1.0
    else if counter == CPU_USAGE || counter == MEM_USAGE then v as real / 100.0
    else v as real
  }

  /** Sample a is older than sample b, or as old and came first. */
  predicate Earlier(stamps: seq<int>, a: nat, b: nat)
    requires a < |stamps| && b < |stamps|
  {
    stamps[a] < stamps[b] || (stamps[a] == stamps[b] && a < b)
  }

  ghost predicate InOrder(stamps: seq<int>, order: seq<nat>) {
    && (forall k :: 0 <= k < |order| ==> order[k] < |stamps|)
    && (forall j, k :: 0 <= j < k < |order| ==> Earlier(stamps, order[j], order[k]))
  }

  lemma InOrderSnoc(stamps: seq<int>, order: seq<nat>, x: nat)
    requires InOrder(stamps, order) && x < |stamps|
    requires forall y :: y in order ==> y < |stamps| && Earlier(stamps, y, x)
    ensures InOrder(stamps, order + [x])
    ensures forall y :: y in order + [x] <==> y in order || y == x
  {
    hide Earlier;
    forall j, k | 0 <= j < k < |order + [x]|
      ensures Earlier(stamps, (order + [x])[j], (order + [x])[k])
    {
      assert order[j] in order;
    }
  }

  /** All but the last index are earlier than it, and with it make up the order. */
  lemma InOrderLast(stamps: seq<int>, order: seq<nat>)
    requires InOrder(stamps, order) && order != []
    ensures var init, last := order[..|order| - 1], order[|order| - 1];
      && InOrder(stamps, init) && last < |stamps|
      && (forall y :: y in init ==> y < |stamps| && Earlier(stamps, y, last))
      && forall y :: y in order <==> y in init || y == last
  {
    hide Earlier;
    assert order == order[..|order| - 1] + [order[|order| - 1]];
  }

  /** Puts index i after every index already there with a stamp no later. */
  function InsertIndex(stamps: seq<int>, order: seq<nat>, i: nat): (r: seq<nat>)
    requires i < |stamps| && InOrder(stamps, order)
    requires forall x :: x in order ==> x < i
    ensures InOrder(stamps, r) && |r| == |order| + 1
    ensures forall x :: x in r <==> x in order || x == i
  {
    if order == [] then [i]
    else
      var init, last := order[..|order| - 1], order[|order| - 1];
      InOrderLast(stamps, order);
      if stamps[last] <= stamps[i] then
        InOrderSnoc(stamps, order, i);
        order + [i]
      else
        var rest := InsertIndex(stamps, init, i);
        InOrderSnoc(stamps, rest, last);
        rest + [last]
  }

  /** sort.SliceStable of the first m sample indices by timestamp. */
  function Order(stamps: seq<int>, m: nat): (r: seq<nat>)
    requires m <= |stamps|
    ensures InOrder(stamps, r) && |r| == m
    ensures forall x :: x in r <==> 0 <= x < m
  {
    if m == 0 then []
    else
      var before := Order(stamps, m - 1);
      InsertIndex(stamps, before, m - 1)
  }

  function NameOf(names: map<int, string>, c: RawCounter): string {
    if c.id in names then names[c.id] else ""
  }

  /** Per-datastore counters must name an instance, the others must not. */
  predicate Wanted(names: map<int, string>, c: RawCounter) {
    (NameOf(names, c) in PER_DATASTORE) == (c.instance != "")
  }

  function Values(names: map<int, string>, c: RawCounter, order: seq<nat>): (v: seq<real>)
    ensures |v| == |order|
  {
    seq(|order|, k requires 0 <= k < |order| =>
      if order[k] < |c.values| then Scale(NameOf(names, c), c.values[order[k]]) else -1.0)
  }

  function With(s: Series, names: map<int, string>, c: RawCounter, order: seq<nat>): Series {
    var name, v := NameOf(names, c), Values(names, c, order);
    if !Wanted(names, c) then s
    else if name !in PER_DATASTORE then s.(values := s.values[name := v])
    else s.(inst := s.inst[name := InstancesOf(s, name)[c.instance := v]])
  }

  function ConvertTo(e: Entity, names: map<int, string>, interval: int, m: nat): Series
    requires m <= |e.counters|
  {
    var order := Order(e.stamps, |e.stamps|);
    if m == 0 then Series(e.ref, interval, Pick(e.stamps, order), map[], map[])
    else With(ConvertTo(e, names, interval, m - 1), names, e.counters[m - 1], order)
  }

  function ConvertOf(e: Entity, names: map<int, string>, interval: int): Series {
    ConvertTo(e, names, interval, |e.counters|)
  }

  method Convert(e: Entity, names: map<int, string>, interval: int) returns (s: Series)
    ensures s == ConvertOf(e, names, interval)
  {
    var order := Order(e.stamps, |e.stamps|);
    s := Series(e.ref, interval, Pick(e.stamps, order), map[], map[]);
    for i := 0 to |e.counters|
      invariant s == ConvertTo(e, names, interval, i)
    {
      var c := e.counters[i];
      var name := NameOf(names, c);
      var inst := name in PER_DATASTORE;
      if (!inst && c.instance != "") || (inst && c.instance == "") {
        continue;
      }
      var vals := Values(names, c, order);
      if !inst {
        s := s.(values := s.values[name := vals]);
        continue;
      }
      s := s.(inst := s.inst[name := (if name in s.inst then s.inst[name] else map[])[c.instance := vals]]);
    }
  }

  lemma {:induction false} ConvertToShape(e: Entity, names: map<int, string>, interval: int, m: nat)
    requires m <= |e.counters|
    ensures var s := ConvertTo(e, names, interval, m);
      && WellShaped(s) && s.ref == e.ref && s.interval == interval
      && s.ts == Pick(e.stamps, Order(e.stamps, |e.stamps|))
      && (forall c :: c in s.inst ==> "" !in s.inst[c])
  {
    if m > 0 {
      ConvertToShape(e, names, interval, m - 1);
    }
  }

  /** Whatever order the server used, samples come out oldest first, all of them, with one value per counter. */
  lemma ConvertSorts(e: Entity, names: map<int, string>, interval: int)
    ensures var s, order := ConvertOf(e, names, interval), Order(e.stamps, |e.stamps|);
      && WellShaped(s) && s.ref == e.ref && s.interval == interval
      && |s.ts| == |e.stamps| && (forall k :: 0 <= k < |s.ts| ==> s.ts[k] == e.stamps[order[k]])
      && (forall i, j :: 0 <= i < j < |s.ts| ==> s.ts[i] <= s.ts[j])
      && (forall c :: c in s.inst ==> "" !in s.inst[c])
  {
    ConvertToShape(e, names, interval, |e.counters|);
  }

  /** Two counters fill the same place of a series: one name, and for a datastore one instance. */
  predicate SamePlace(names: map<int, string>, c: RawCounter, d: RawCounter) {
    NameOf(names, c) == NameOf(names, d) && (NameOf(names, c) in PER_DATASTORE ==> c.instance == d.instance)
  }

  /** Counter i is kept, and no later one of the first m fills its place. */
  ghost predicate LastOfPlace(e: Entity, names: map<int, string>, i: nat, m: nat)
    requires i < m <= |e.counters|
  {
    && Wanted(names, e.counters[i])
    && forall j :: i < j < m && Wanted(names, e.counters[j]) ==> !SamePlace(names, e.counters[j], e.counters[i])
  }

  /** The values a series holds at the place of a counter. */
  function Column(s: Series, name: string, instance: string): Option<seq<real>> {
    if name in PER_DATASTORE then
      var m := InstancesOf(s, name);
      if instance in m then Some(m[instance]) else None
    else if name in s.values then Some(s.values[name]) else None
  }

  lemma WithColumn(s: Series, names: map<int, string>, c: RawCounter, order: seq<nat>, d: RawCounter)
    ensures
      var t := With(s, names, c, order);
      Column(t, NameOf(names, d), d.instance)
      == if Wanted(names, c) && SamePlace(names, c, d) then Some(Values(names, c, order)) else Column(s, NameOf(names, d), d.instance)
  {
    hide Values;
  }

  lemma {:induction false} ConvertedColumn(e: Entity, names: map<int, string>, interval: int, i: nat, m: nat)
    requires i < m <= |e.counters| && LastOfPlace(e, names, i, m)
    ensures
      var s, raw := ConvertTo(e, names, interval, m), e.counters[i];
      Column(s, NameOf(names, raw), raw.instance) == Some(Values(names, raw, Order(e.stamps, |e.stamps|)))
  {
    hide Values, Column, With, SamePlace, Wanted, Order;
    WithColumn(ConvertTo(e, names, interval, m - 1), names, e.counters[m - 1], Order(e.stamps, |e.stamps|), e.counters[i]);
    if m - 1 > i {
      ConvertedColumn(e, names, interval, i, m - 1);
    } else {
      SameAsItself(names, e.counters[i]);
    }
  }

  lemma SameAsItself(names: map<int, string>, c: RawCounter)
    ensures SamePlace(names, c, c)
  {
  }

  /** Every converted value, aggregate or of a datastore, sits at the place of its own timestamp. */
  lemma ConvertAligns(e: Entity, names: map<int, string>, interval: int, i: nat, k: nat)
    requires i < |e.counters| && LastOfPlace(e, names, i, |e.counters|) && k < |e.stamps|
    ensures
      var s, raw, at := ConvertOf(e, names, interval), e.counters[i], Order(e.stamps, |e.stamps|)[k];
      var column := Column(s, NameOf(names, raw), raw.instance);
      && column.Some? && |column.value| == |s.ts| == |e.stamps| && s.ts[k] == e.stamps[at]
      && column.value[k] == if at < |raw.values| then Scale(NameOf(names, raw), raw.values[at]) else -1.0
  {
    ConvertToShape(e, names, interval, |e.counters|);
    ConvertedColumn(e, names, interval, i, |e.counters|);
  }

  /** Percentages come in hundredths, everything else as it is; a negative value is a missing one. */
  lemma ScaleIs(counter: string, v: int)
    ensures v < 0 ==> Scale(counter, v) == -1.0
    ensures v >= 0 && counter in ["cpu.usage.average", "mem.usage.average"] ==> Scale(counter, v) * 100.0 == v as real
    ensures v >= 0 && counter !in ["cpu.usage.average", "mem.usage.average"] ==> Scale(counter, v) == v as real
  {
    assert CPU_USAGE == ["cpu.usage.average", "mem.usage.average"][0] && MEM_USAGE == ["cpu.usage.average", "mem.usage.average"][1];
  }

  /** Counter raw belongs to a series as an aggregate one, or as one of a datastore. */
  ghost predicate IsAggregate(names: map<int, string>, raw: RawCounter, name: string) {
    name == (if raw.id in names then names[raw.id] else "") && name !in PER_DATASTORE && raw.instance == ""
  }

  ghost predicate IsOfDatastore(names: map<int, string>, raw: RawCounter, name: string, inst: string) {
    name == (if raw.id in names then names[raw.id] else "") && name in PER_DATASTORE && raw.instance == inst != ""
  }

  /** Exactly the aggregate counters without an instance and the datastore ones with one are converted. */
  lemma {:induction false} ConvertHolds(e: Entity, names: map<int, string>, interval: int, m: nat, name: string, inst: string)
    requires m <= |e.counters|
    ensures var s := ConvertTo(e, names, interval, m);
      && (name in s.values <==> exists i :: 0 <= i < m && IsAggregate(names, e.counters[i], name))
      && (name in s.inst && inst in s.inst[name] <==> exists i :: 0 <= i < m && IsOfDatastore(names, e.counters[i], name, inst))
  {
    hide Values, Order;
    if m > 0 {
      ConvertHolds(e, names, interval, m - 1, name, inst);
    }
  }

  /** A timestamp that the server sent twice stays in the series twice. */
  lemma RepeatedStampStays(ref: string, t: int)
    ensures ConvertOf(Entity(ref, [t, t], [RawCounter(1, "", [100, 100])]), map[1 := CPU_MHZ], REALTIME_INTERVAL)
      == HostCalls.TwiceAt(ref, t)
  {
    var e, names := Entity(ref, [t, t], [RawCounter(1, "", [100, 100])]), map[1 := CPU_MHZ];
    var order := Order(e.stamps, 2);
    assert order[0] in order && order[1] in order;
    assert Pick(e.stamps, order) == [t, t];
    var raw := e.counters[0];
    AggregateCounter();
    hide Order, Scale;
    ScaledMhz();
    assert Values(names, raw, order) == [100.0, 100.0];
    assert ConvertTo(e, names, REALTIME_INTERVAL, 0) == Series(ref, REALTIME_INTERVAL, [t, t], map[], map[]);
    assert Wanted(names, raw);
  }

  lemma AggregateCounter()
    ensures CPU_MHZ !in PER_DATASTORE
  {
    assert CPU_MHZ[0] == 'c';
    assert forall name :: name in PER_DATASTORE ==> name[0] == 'd';
  }

  lemma ScaledMhz()
    ensures Scale(CPU_MHZ, 100) == 100.0
  {
    assert CPU_MHZ[9] == 'm' && CPU_USAGE[9] == '.';
    assert CPU_MHZ[0] == 'c' && MEM_USAGE[0] == 'm';
  }

  // ------------------------------------------------------------------------ run

  datatype Reply = Ok(series: seq<Shaped>) | TooLarge | Error

  /** The server: call number and entities asked for. */
  type Server = (nat, seq<string>) -> Reply

  datatype Call = Call(refs: seq<string>, reply: Reply)

  /** The calls of run from one of its states on. */
  function Calls(server: Server, refs: seq<string>, start: nat, batch: nat, made: nat): (cs: seq<Call>)
    requires start <= |refs| && batch >= 1
    ensures forall i :: 0 <= i < |cs| ==> cs[i].refs != []
    decreases |refs| - start, batch
  {
    if start == |refs| then []
    else
      var end := Min(start + batch, |refs|);
      var part := refs[start..end];
      match server(made, part)
      case Ok(series) => [Call(part, Ok(series))] + Calls(server, refs, end, batch, made + 1)
      case TooLarge =>
        if batch > 1 then [Call(part, TooLarge)] + Calls(server, refs, start, batch / 2, made + 1)
        else [Call(part, TooLarge)]
      case Error => [Call(part, Error)]
  }

  /** The trimmed series of the accepted calls, in order. */
  function Outputs(cs: seq<Call>, w: Window): seq<Series> {
    if cs == [] then []
    else (if cs[0].reply.Ok? then TrimAll(cs[0].reply.series, w) else []) + Outputs(cs[1..], w)
  }

  /** The entities of the accepted calls, in order. */
  function Answered(cs: seq<Call>): seq<string> {
    if cs == [] then [] else (if cs[0].reply.Ok? then cs[0].refs else []) + Answered(cs[1..])
  }

  function AcceptedCalls(cs: seq<Call>): nat {
    if cs == [] then 0 else (if cs[0].reply.Ok? then 1 else 0) + AcceptedCalls(cs[1..])
  }

  /** run succeeds unless its last call is an error; a query too large in the end is one too. */
  predicate Succeeds(cs: seq<Call>) {
    cs == [] || cs[|cs| - 1].reply.Ok?
  }

  lemma OutputsStep(c: Call, cs: seq<Call>, w: Window)
    ensures Outputs([c] + cs, w) == (if c.reply.Ok? then TrimAll(c.reply.series, w) else []) + Outputs(cs, w)
  {
    assert ([c] + cs)[1..] == cs;
  }

  /** How a run that is in one of its states ends. */
  datatype Ending = Ending(out: seq<Series>, failure: Option<Reply>)

  function EndingOf(cs: seq<Call>, w: Window): Ending {
    Ending(Outputs(cs, w), if Succeeds(cs) then None else Some(cs[|cs| - 1].reply))
  }

  /** An accepted call adds its series; a halving changes nothing. */
  lemma EndingStep(c: Call, cs: seq<Call>, w: Window)
    requires cs != [] || c.reply.Ok?
    ensures EndingOf([c] + cs, w).failure == EndingOf(cs, w).failure
    ensures EndingOf([c] + cs, w).out == (if c.reply.Ok? then TrimAll(c.reply.series, w) else []) + EndingOf(cs, w).out
  {
    OutputsStep(c, cs, w);
  }

  function EndingFrom(server: Server, refs: seq<string>, start: nat, batch: nat, made: nat, w: Window): Ending
    requires start <= |refs| && batch >= 1
  {
    EndingOf(Calls(server, refs, start, batch, made), w)
  }

  /** What one more call makes of the ending. */
  lemma EndingFromStep(server: Server, refs: seq<string>, start: nat, batch: nat, made: nat, w: Window)
    requires start < |refs| && batch >= 1
    ensures var end := Min(start + batch, |refs|);
      var here := EndingFrom(server, refs, start, batch, made, w);
      match server(made, refs[start..end])
      case Ok(series) =>
        var next := EndingFrom(server, refs, end, batch, made + 1, w);
        here.failure == next.failure && here.out == TrimAll(series, w) + next.out
      case TooLarge =>
        if batch > 1 then here == EndingFrom(server, refs, start, batch / 2, made + 1, w) else here == Ending([], Some(TooLarge))
      case Error => here == Ending([], Some(Error))
  {
    hide EndingOf, TrimAll;
    var end := Min(start + batch, |refs|);
    var part := refs[start..end];
    match server(made, part)
    case Ok(series) =>
      EndingStep(Call(part, Ok(series)), Calls(server, refs, end, batch, made + 1), w);
    case TooLarge =>
      if batch > 1 {
        EndingStep(Call(part, TooLarge), Calls(server, refs, start, batch / 2, made + 1), w);
      } else {
        LastCall(Call(part, TooLarge), w);
      }
    case Error =>
      LastCall(Call(part, Error), w);
  }

  method RunQuery(server: Server, refs: seq<string>, w: Window, batch0: nat) returns (out: seq<Series>, failure: Option<Reply>)
    requires batch0 >= 1
    ensures Ending(out, failure) == EndingFrom(server, refs, 0, batch0, 0, w)
  {
    hide WellShaped, TrimOf, TrimAll, EndingFrom;
    var start, batch: nat := 0, batch0;
    var made := 0;
    out := [];
    ghost var all := EndingFrom(server, refs, 0, batch0, 0, w);
    while start < |refs|
      invariant start <= |refs| && batch >= 1
      invariant out + EndingFrom(server, refs, start, batch, made, w).out == all.out
      invariant EndingFrom(server, refs, start, batch, made, w).failure == all.failure
      decreases |refs| - start, batch
    {
      var end := Min(start + batch, |refs|);
      var reply := server(made, refs[start..end]);
      EndingFromStep(server, refs, start, batch, made, w);
      made := made + 1;
      if !reply.Ok? {
        if batch > 1 && reply.TooLarge? {
          batch := batch / 2;
          continue;
        }
        return out, Some(reply);
      }
      var trimmed := TrimEach(reply.series, w);
      out := out + trimmed;
      start := end;
    }
    NoCall(server, refs, batch, made, w);
    return out, None;
  }

  lemma LastCall(c: Call, w: Window)
    requires !c.reply.Ok?
    ensures EndingOf([c], w) == Ending([], Some(c.reply))
  {
    OutputsStep(c, [], w);
    assert [c] + [] == [c];
  }

  lemma NoCall(server: Server, refs: seq<string>, batch: nat, made: nat, w: Window)
    requires batch >= 1
    ensures EndingFrom(server, refs, |refs|, batch, made, w) == Ending([], None)
  {
  }

  // ------------------------------------------------------------- what run guarantees

  lemma AnsweredStep(c: Call, cs: seq<Call>)
    ensures Answered([c] + cs) == (if c.reply.Ok? then c.refs else []) + Answered(cs)
    ensures AcceptedCalls([c] + cs) == (if c.reply.Ok? then 1 else 0) + AcceptedCalls(cs)
    ensures cs != [] ==> (Succeeds([c] + cs) <==> Succeeds(cs))
  {
    assert ([c] + cs)[1..] == cs;
  }

  /**
   * The accepted calls partition the entities in order: all of them, each in one
   * call, when run succeeds, and a prefix of them otherwise.
   */
  lemma {:induction false} AnswersPartition(server: Server, refs: seq<string>, start: nat, batch: nat, made: nat)
    requires start <= |refs| && batch >= 1
    ensures var cs := Calls(server, refs, start, batch, made);
      && Answered(cs) <= refs[start..]
      && (Succeeds(cs) ==> Answered(cs) == refs[start..])
      && AcceptedCalls(cs) <= |refs| - start
    decreases |refs| - start, batch
  {
    if start < |refs| {
      var end := Min(start + batch, |refs|);
      var part := refs[start..end];
      assert refs[start..] == part + refs[end..];
      match server(made, part)
      case Ok(series) =>
        AnswersPartition(server, refs, end, batch, made + 1);
        AnsweredStep(Call(part, Ok(series)), Calls(server, refs, end, batch, made + 1));
      case TooLarge =>
        if batch > 1 {
          AnswersPartition(server, refs, start, batch / 2, made + 1);
          AnsweredStep(Call(part, TooLarge), Calls(server, refs, start, batch / 2, made + 1));
        } else {
          AnsweredStep(Call(part, TooLarge), []);
        }
      case Error =>
        AnsweredStep(Call(part, Error), []);
    }
  }

  /** How often a batch can be halved before it is one. */
  function Halvings(batch: nat): nat
    requires batch >= 1
  {
    if batch == 1 then 0 else 1 + Halvings(batch / 2)
  }

  function Pow2(n: nat): nat {
    if n == 0 then 1 else 2 * Pow2(n - 1)
  }

  /** That is the binary logarithm of the batch, rounded down. */
  lemma {:induction false} HalvingsIsLog(batch: nat)
    requires batch >= 1
    ensures Pow2(Halvings(batch)) <= batch < Pow2(Halvings(batch) + 1)
  {
    if batch > 1 {
      HalvingsIsLog(batch / 2);
    }
  }

  /** Besides the accepted calls, at most one per halving and one final failure. */
  lemma {:induction false} FewCalls(server: Server, refs: seq<string>, start: nat, batch: nat, made: nat)
    requires start <= |refs| && batch >= 1
    ensures var cs := Calls(server, refs, start, batch, made);
      |cs| <= AcceptedCalls(cs) + Halvings(batch) + if Succeeds(cs) then 0 else 1
    decreases |refs| - start, batch
  {
    if start < |refs| {
      var end := Min(start + batch, |refs|);
      var part := refs[start..end];
      match server(made, part)
      case Ok(series) =>
        FewCalls(server, refs, end, batch, made + 1);
        AnsweredStep(Call(part, Ok(series)), Calls(server, refs, end, batch, made + 1));
      case TooLarge =>
        if batch > 1 {
          FewCalls(server, refs, start, batch / 2, made + 1);
          AnsweredStep(Call(part, TooLarge), Calls(server, refs, start, batch / 2, made + 1));
        } else {
          AnsweredStep(Call(part, TooLarge), []);
        }
      case Error =>
        AnsweredStep(Call(part, Error), []);
    }
  }

  /** A server that only ever finds a query of several entities too large gets every entity answered. */
  lemma {:induction false} SucceedsEventually(server: Server, refs: seq<string>, start: nat, batch: nat, made: nat)
    requires start <= |refs| && batch >= 1
    requires forall k: nat, part :: !server(k, part).Error? && (|part| == 1 ==> server(k, part).Ok?)
    ensures Succeeds(Calls(server, refs, start, batch, made))
    decreases |refs| - start, batch
  {
    if start < |refs| {
      var end := Min(start + batch, |refs|);
      var part := refs[start..end];
      match server(made, part)
      case Ok(series) =>
        SucceedsEventually(server, refs, end, batch, made + 1);
        AnsweredStep(Call(part, Ok(series)), Calls(server, refs, end, batch, made + 1));
      case TooLarge =>
        assert |part| != 1;
        SucceedsEventually(server, refs, start, batch / 2, made + 1);
        AnsweredStep(Call(part, TooLarge), Calls(server, refs, start, batch / 2, made + 1));
    }
  }

  // ------------------------------------------------------------------ mergeInst

  /** The last sample at time t, as the map from timestamps keeps it. */
  function LastAt(ts: seq<int>, t: int): (j: Option<nat>)
    ensures j.Some? ==> j.value < |ts| && ts[j.value] == t && forall i :: j.value < i < |ts| ==> ts[i] != t
    ensures j.None? ==> t !in ts
  {
    if ts == [] then None
    else if ts[|ts| - 1] == t then Some(|ts| - 1)
    else LastAt(ts[..|ts| - 1], t)
  }

  /** One datastore counter at the timestamps of the core series. */
  function Aligned(core: seq<int>, ts: seq<int>, v: seq<real>): (a: seq<real>)
    ensures |a| == |core|
    ensures forall k :: 0 <= k < |a| ==>
      a[k] == match LastAt(ts, core[k]) case Some(j) => (if j < |v| then v[j] else -1.0) case None => -1.0
  {
    seq(|core|, k requires 0 <= k < |core| =>
      match LastAt(ts, core[k])
      case Some(j) => if j < |v| then v[j] else -1.0
      case None => -1.0)
  }

  function MergedSeries(c: Series, e: Series): Series {
    c.(inst := map name | name in c.inst.Keys + e.inst.Keys :: MergedCounter(c, e, name))
  }

  /** The position the index map gives a reference: its last occurrence. */
  function IndexOf(core: seq<Series>, ref: string): (i: Option<nat>)
    ensures i.Some? ==> i.value < |core| && core[i.value].ref == ref && forall k :: i.value < k < |core| ==> core[k].ref != ref
    ensures i.None? ==> forall k :: 0 <= k < |core| ==> core[k].ref != ref
  {
    if core == [] then None
    else if core[|core| - 1].ref == ref then Some(|core| - 1)
    else IndexOf(core[..|core| - 1], ref)
  }

  function MergeOne(core: seq<Series>, e: Series): (r: seq<Series>)
    ensures |r| == |core|
    ensures forall i :: 0 <= i < |core| ==> r[i] == core[i].(inst := r[i].inst)
  {
    match IndexOf(core, e.ref)
    case None => core
    case Some(i) => if e.inst == map[] then core else core[i := MergedSeries(core[i], e)]
  }

  function MergeTo(core: seq<Series>, extra: seq<Series>, m: nat): (r: seq<Series>)
    requires m <= |extra|
    ensures |r| == |core|
    ensures forall i :: 0 <= i < |core| ==> r[i] == core[i].(inst := r[i].inst)
  {
    if m == 0 then core else MergeOne(MergeTo(core, extra, m - 1), extra[m - 1])
  }

  lemma {:induction false} IndexByRef(a: seq<Series>, b: seq<Series>, ref: string)
    requires |a| == |b| && forall i :: 0 <= i < |a| ==> a[i].ref == b[i].ref
    ensures IndexOf(a, ref) == IndexOf(b, ref)
  {
    if a != [] {
      IndexByRef(a[..|a| - 1], b[..|b| - 1], ref);
    }
  }

  /** The index map from references to positions. */
  method IndexRefs(core: seq<Series>) returns (idx: map<string, nat>)
    ensures forall ref :: IndexOf(core, ref) == if ref in idx then Some(idx[ref]) else None
  {
    idx := map[];
    for i := 0 to |core|
      invariant forall ref :: IndexOf(core[..i], ref) == if ref in idx then Some(idx[ref]) else None
    {
      assert core[..i + 1][..i] == core[..i];
      idx := idx[core[i].ref := i];
    }
    assert core[..|core|] == core;
  }

  method MergeInst(core: array<Series>, extra: seq<Series>)
    modifies core
    ensures core[..] == MergeTo(old(core[..]), extra, |extra|)
  {
    hide MergedSeries, IndexOf;
    ghost var was := core[..];
    var idx := IndexRefs(core[..]);
    for m := 0 to |extra|
      invariant core[..] == MergeTo(was, extra, m)
    {
      var e := extra[m];
      IndexByRef(core[..], was, e.ref);
      if e.ref !in idx || e.inst == map[] {
        continue;
      }
      var i := idx[e.ref];
      var c := MergeSeries(core[i], e);
      core[i] := c;
    }
  }

  function MergedCounter(c: Series, e: Series, name: string): ByInstance {
    InstancesOf(c, name) + map inst | inst in InstancesOf(e, name) :: Aligned(c.ts, e.ts, InstancesOf(e, name)[inst])
  }

  /** The counters of the merge when those in `names` are still to do. */
  ghost predicate MergedBut(inst: map<string, ByInstance>, c: Series, e: Series, names: set<string>) {
    && inst.Keys == c.inst.Keys + (e.inst.Keys - names)
    && forall name :: name in inst ==> inst[name] == if name in names then c.inst[name] else MergedCounter(c, e, name)
  }

  lemma MergedAll(inst: map<string, ByInstance>, c: Series, e: Series)
    requires MergedBut(inst, c, e, {})
    ensures inst == MergedSeries(c, e).inst
  {
    assert inst.Keys == MergedSeries(c, e).inst.Keys;
  }

  lemma NoneMerged(c: Series, e: Series)
    ensures MergedBut(c.inst, c, e, e.inst.Keys)
  {
    forall name | name in c.inst && name !in e.inst
      ensures c.inst[name] == MergedCounter(c, e, name)
    {
      assert InstancesOf(e, name) == map[];
    }
  }

  /** The loops over counters, instances and samples of one pair. */
  method MergeSeries(c: Series, e: Series) returns (r: Series)
    ensures r == MergedSeries(c, e)
  {
    hide Aligned;
    var inst := c.inst;
    var names := e.inst.Keys;
    NoneMerged(c, e);
    while names != {}
      invariant names <= e.inst.Keys
      invariant MergedBut(inst, c, e, names)
    {
      var name :| name in names;
      names := names - {name};
      var byInst := if name in inst then inst[name] else map[];
      var aligned := map i | i in e.inst[name] :: Aligned(c.ts, e.ts, e.inst[name][i]);
      assert byInst + aligned == MergedCounter(c, e, name);
      inst := inst[name := byInst + aligned];
    }
    MergedAll(inst, c, e);
    r := c.(inst := inst);
  }

  /** One pair of series: every core sample has the datastore value of its own timestamp, or -1. */
  lemma PairAligns(c: Series, e: Series, name: string, inst: string, k: nat)
    requires name in e.inst && inst in e.inst[name] && k < |c.ts|
    ensures name in MergedSeries(c, e).inst && inst in MergedSeries(c, e).inst[name]
    ensures var v := MergedSeries(c, e).inst[name][inst];
      && |v| == |c.ts|
      && (c.ts[k] !in e.ts ==> v[k] == -1.0)
      && (forall j :: 0 <= j < |e.ts| && e.ts[j] == c.ts[k] && (forall i :: j < i < |e.ts| ==> e.ts[i] != e.ts[j])
            ==> v[k] == if j < |e.inst[name][inst]| then e.inst[name][inst][j] else -1.0)
  {
    var v := MergedSeries(c, e).inst[name][inst];
    assert v == Aligned(c.ts, e.ts, e.inst[name][inst]);
  }

  lemma MergeKeepsShape(c: Series, e: Series)
    requires WellShaped(c)
    ensures WellShaped(MergedSeries(c, e))
  {
  }

  /** One series per entity, as one query returns. */
  ghost predicate OnePerRef(series: seq<Series>) {
    forall i, j :: 0 <= i < j < |series| ==> series[i].ref != series[j].ref
  }

  lemma {:induction false} IndexOfOnly(core: seq<Series>, i: nat)
    requires OnePerRef(core) && i < |core|
    ensures IndexOf(core, core[i].ref) == Some(i)
  {
    if i < |core| - 1 {
      IndexOfOnly(core[..|core| - 1], i);
    }
  }

  lemma MergedWithNothing(c: Series, e: Series)
    requires e.inst == map[]
    ensures MergedSeries(c, e) == c
  {
    NoneMerged(c, e);
    MergedAll(c.inst, c, e);
  }

  /** Merging one series changes the entry of its entity and no other. */
  lemma MergeOneAt(core: seq<Series>, e: Series, i: nat)
    requires OnePerRef(core) && i < |core|
    ensures MergeOne(core, e)[i] == if core[i].ref == e.ref then MergedSeries(core[i], e) else core[i]
  {
    hide MergedSeries;
    if core[i].ref == e.ref {
      IndexOfOnly(core, i);
      if e.inst == map[] {
        MergedWithNothing(core[i], e);
      }
    }
  }

  lemma {:induction false} MergeToAt(core: seq<Series>, extra: seq<Series>, m: nat, i: nat)
    requires OnePerRef(core) && OnePerRef(extra) && m <= |extra| && i < |core|
    ensures (forall j :: 0 <= j < m ==> extra[j].ref != core[i].ref) ==> MergeTo(core, extra, m)[i] == core[i]
    ensures forall j :: 0 <= j < m && extra[j].ref == core[i].ref ==> MergeTo(core, extra, m)[i] == MergedSeries(core[i], extra[j])
  {
    hide MergedSeries, MergeOne;
    if m > 0 {
      MergeToAt(core, extra, m - 1, i);
      MergeOneAt(MergeTo(core, extra, m - 1), extra[m - 1], i);
    }
  }

  /**
   * After all merges: the series of an entity has the datastore values of the one
   * extra series of that entity, each at its own timestamp, or -1 ...
   */
  lemma MergeAligns(core: seq<Series>, extra: seq<Series>, i: nat, j: nat, name: string, inst: string, k: nat)
    requires OnePerRef(core) && OnePerRef(extra) && i < |core| && j < |extra| && extra[j].ref == core[i].ref
    requires name in extra[j].inst && inst in extra[j].inst[name] && k < |core[i].ts|
    ensures var r, e := MergeTo(core, extra, |extra|)[i], extra[j];
      && r == MergedSeries(core[i], e) && r.ts == core[i].ts
      && name in r.inst && inst in r.inst[name] && |r.inst[name][inst]| == |r.ts|
      && (r.ts[k] !in e.ts ==> r.inst[name][inst][k] == -1.0)
      && (forall x :: 0 <= x < |e.ts| && e.ts[x] == r.ts[k] && (forall y :: x < y < |e.ts| ==> e.ts[y] != e.ts[x])
            ==> r.inst[name][inst][k] == if x < |e.inst[name][inst]| then e.inst[name][inst][x] else -1.0)
  {
    MergeToAt(core, extra, |extra|, i);
    PairAligns(core[i], extra[j], name, inst, k);
    hide MergeTo;
  }

  /** ... and whatever was merged, every array is as long as the timestamps of its series ... */
  lemma {:induction false} MergeToKeepsShape(core: seq<Series>, extra: seq<Series>, m: nat)
    requires m <= |extra| && forall i :: 0 <= i < |core| ==> WellShaped(core[i])
    ensures forall i :: 0 <= i < |core| ==> WellShaped(MergeTo(core, extra, m)[i])
  {
    hide MergedSeries, WellShaped, IndexOf;
    if m > 0 {
      MergeToKeepsShape(core, extra, m - 1);
      var before, e := MergeTo(core, extra, m - 1), extra[m - 1];
      match IndexOf(before, e.ref) {
        case Some(i) => MergeKeepsShape(before[i], e);
        case None =>
      }
    }
  }

  lemma InstancesMerge(c: Series, e: Series)
    requires "" !in HostSamples.Instances(c) && "" !in HostSamples.Instances(e)
    ensures "" !in HostSamples.Instances(MergedSeries(c, e))
  {
    NamedIff(c);
    NamedIff(e);
    NamedIff(MergedSeries(c, e));
  }

  lemma NamedIff(s: Series)
    ensures "" !in HostSamples.Instances(s) <==> forall c :: c in s.inst ==> "" !in s.inst[c]
  {
  }

  /** ... and no datastore counter gets an empty instance, so AddHosts may be given the result. */
  lemma {:induction false} MergeToKeepsNames(core: seq<Series>, extra: seq<Series>, m: nat)
    requires m <= |extra| && HostSamples.InstancesNamed(core) && HostSamples.InstancesNamed(extra)
    ensures HostSamples.InstancesNamed(MergeTo(core, extra, m))
  {
    hide MergedSeries, IndexOf, HostSamples.Instances;
    if m > 0 {
      MergeToKeepsNames(core, extra, m - 1);
      var before, e := MergeTo(core, extra, m - 1), extra[m - 1];
      assert e in extra;
      match IndexOf(before, e.ref) {
        case Some(i) =>
          assert before[i] in before;
          InstancesMerge(before[i], e);
        case None =>
      }
    }
  }

  /** What is converted is named in the first place. */
  lemma ConvertNames(e: Entity, names: map<int, string>, interval: int)
    ensures "" !in HostSamples.Instances(ConvertOf(e, names, interval))
  {
    ConvertToShape(e, names, interval, |e.counters|);
    NamedIff(ConvertOf(e, names, interval));
  }

  // ---------------------------------------------------------------------- query

  /** Entities per call: a historical query stays within 64 entity and counter pairs unless one entity alone exceeds them. */
  function Batch(interval: int, pairs: int): (b: nat)
    requires pairs >= 1
    ensures b >= 1
    ensures interval == 20 ==> b == 64
    ensures interval != REALTIME_INTERVAL ==> b == 1 || b * pairs <= HISTORY_METRIC_LIMIT
    ensures interval != REALTIME_INTERVAL && pairs <= HISTORY_METRIC_LIMIT ==> (b + 1) * pairs > HISTORY_METRIC_LIMIT
  {
    if interval == REALTIME_INTERVAL then REALTIME_BATCH else Max(1, HISTORY_METRIC_LIMIT / pairs)
  }

  /** Same samples and core counters; only per-datastore counters may differ. */
  ghost predicate SameCore(a: seq<Series>, b: seq<Series>) {
    |a| == |b| && forall i :: 0 <= i < |a| ==> a[i] == b[i].(inst := a[i].inst)
  }

  class Client {
    /** Intervals whose datastore counters vCenter found too large to read at all. */
    var noDatastores: set<int>

    constructor ()
      ensures noDatastores == {}
    {
      noDatastores := {};
    }

    /**
     * Reads the core counters, then the datastore ones on a best-effort request:
     * whatever becomes of the second never costs the data of the first.
     */
    method Query(core: Server, datastores: Server, refs: seq<string>, w: Window, coreIds: nat, dsIds: nat)
      returns (out: seq<Series>, failure: Option<Reply>)
      requires coreIds >= 1
      modifies this
      ensures var ending := EndingFrom(core, refs, 0, Batch(w.interval, coreIds), 0, w);
        failure == ending.failure && SameCore(out, ending.out)
      ensures dsIds == 0 || failure.Some? || w.interval in old(noDatastores) ==>
        out == EndingFrom(core, refs, 0, Batch(w.interval, coreIds), 0, w).out && noDatastores == old(noDatastores)
      ensures dsIds > 0 && failure.None? && w.interval !in old(noDatastores) ==>
        var c := EndingFrom(core, refs, 0, Batch(w.interval, coreIds), 0, w);
        var d := EndingFrom(datastores, refs, 0, Batch(w.interval, dsIds * 4), 0, w);
        && out == (if d.failure.None? then MergeTo(c.out, d.out, |d.out|) else c.out)
        && noDatastores == old(noDatastores) + (if d.failure == Some(TooLarge) then {w.interval} else {})
    {
      hide EndingFrom, MergeTo;
      out, failure := RunQuery(core, refs, w, Batch(w.interval, coreIds));
      if failure.Some? || dsIds == 0 || w.interval in noDatastores {
        return;
      }
      var extra, err := RunQuery(datastores, refs, w, Batch(w.interval, dsIds * 4));
      if err.Some? {
        if err.value.TooLarge? {
          noDatastores := noDatastores + {w.interval};
        }
        return;
      }
      var merged := new Series[|out|](i requires 0 <= i < |out| => out[i]);
      assert merged[..] == out;
      MergeInst(merged, extra);
      out := merged[..];
    }
  }
}
