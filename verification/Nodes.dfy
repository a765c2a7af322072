/**
 * Hardware refresh sizing: what a cluster needs (need, internal/analysis/sizing.go)
 * and which node shapes provide it (nodeOptions and pickOption,
 * internal/analysis/sizing_nodes.go).
 */
module NodeSizing {
  import opened Numbers
  import opened RealProducts

  const SOCKET_CORES := [16, 24, 32, 48, 64, 96, 128]
  const NODE_MEM_GB := [256, 384, 512, 768, 1024, 1536, 2048, 3072, 4096]
  const MAX_NODES := 64
  const MEM_OVERHEAD := 1.05
  const MIB := 1048576
  const GIB := 1073741824

  datatype Params = Params(
    poweredOff: bool, growth: real, ratio: real, cpuTarget: real, memTarget: real,
    spares: int, sockets: int, uplift: real)
  {
    /** The ranges SizingParams.Validate accepts. */
    predicate Valid() {
      && 0.0 <= growth <= 300.0
      && (ratio == 0.0 || 1.0 <= ratio <= 32.0)
      && 20.0 <= cpuTarget <= 100.0
      && 50.0 <= memTarget <= 100.0
      && 0 <= spares <= 4
      && 1 <= sockets <= 2
      && 0.0 <= uplift <= 200.0
    }
  }

  datatype Basis = Provisioned | Rightsized

  datatype Cluster = Cluster(
    standalone: bool, vsan: bool, vcpu: nat, vcpuOff: nat, memMB: nat, memMBOff: nat, recVcpu: nat, recMemMB: nat,
    ratio: real, demandMhz: real, coreMhz: real, largestVcpu: nat, largestMemMB: nat)
  {
    predicate Valid() {
      ratio >= 0.0 && demandMhz >= 0.0 && coreMhz >= 0.0
    }

    function Spares(p: Params): int {
      if standalone then 0 else p.spares
    }
  }

  datatype Need = Need(
    vcpu: int, memMB: int, demandMhz: real, ratio: real, coresByRatio: int, coresByDemand: int, cores: int, memB: real)

  datatype NodeOption = NodeOption(
    nodes: int, sockets: int, coresPerSocket: int, memGB: int, totalCores: int,
    cpuUtil: real, memUtil: real, ratio: real, minGhz: real, numaFit: bool)

  // --------------------------------------------------------------------- need

  /** math.Round on a non-negative number. */
  function Round(x: real): int {
    (x + 0.5).Floor
  }

  /** One core's usable clock at the CPU target. */
  function CoreAtTarget(c: Cluster, p: Params): real {
    p.cpuTarget / 100.0 * c.coreMhz * (1.0 + p.uplift / 100.0)
  }

  lemma CoreAtTargetPositive(c: Cluster, p: Params)
    requires p.Valid() && c.coreMhz > 0.0
    ensures CoreAtTarget(c, p) > 0.0
  {
    ProductPositive(p.cpuTarget / 100.0, c.coreMhz);
    ProductPositive(p.cpuTarget / 100.0 * c.coreMhz, 1.0 + p.uplift / 100.0);
  }

  /** A whole number with the planned growth. */
  function Plan(now: nat, p: Params): (k: int)
    ensures k as real - 1.0 < Times(now as real, 1.0 + p.growth / 100.0) <= k as real
  {
    Ceil(Times(now as real, 1.0 + p.growth / 100.0))
  }

  function NeedOf(c: Cluster, basis: Basis, p: Params): Need
    requires c.Valid() && p.Valid()
  {
    var vcpu, mem := c.vcpu, c.memMB;
    var vcpu, mem := if p.poweredOff then vcpu + c.vcpuOff else vcpu, if p.poweredOff then mem + c.memMBOff else mem;
    var vcpu, mem := if basis.Rightsized? then c.recVcpu else vcpu, if basis.Rightsized? then c.recMemMB else mem;
    var nVcpu, nMem, demand := Plan(vcpu, p), Plan(mem, p), Times(c.demandMhz, 1.0 + p.growth / 100.0);
    var ratio := if p.ratio == 0.0 then MaxReal(Round(c.ratio * 10.0) as real / 10.0, 4.0) else p.ratio;
    var byRatio := Ceil(nVcpu as real / ratio);
    var byDemand :=
      if c.coreMhz > 0.0 && demand > 0.0 then
        CoreAtTargetPositive(c, p);
        Ceil(demand / CoreAtTarget(c, p))
      else 0;
    Need(nVcpu, nMem, demand, ratio, byRatio, byDemand, Max(byRatio, byDemand),
         nMem as real * MIB as real * MEM_OVERHEAD / (p.memTarget / 100.0))
  }

  // -------------------------------------------------------------- node options

  function CeilDiv(a: int, b: int): int {
    if b <= 0 then 0 else (a + b - 1) / b
  }

  function MinNodes(c: Cluster, p: Params): int {
    var least := if c.standalone then 1 else Max(2, c.Spares(p) + 1);
    if c.vsan then Max(least, 3) else least
  }

  /** Memory per running node, in GB, for the load and for the largest VM. */
  function PerGB(c: Cluster, n: Need, run: int): real
    requires run > 0
  {
    MaxReal(n.memB / run as real / GIB as real, c.largestMemMB as real / 1024.0 * MEM_OVERHEAD)
  }

  /** The smallest catalogue memory from entry i on that is enough, or 0. */
  function MemFrom(perGB: real, i: nat): (mem: int)
    requires i <= |NODE_MEM_GB|
    ensures mem == 0 || (mem in NODE_MEM_GB && mem >= 256 && perGB <= mem as real)
    ensures forall k :: i <= k < |NODE_MEM_GB| && perGB <= NODE_MEM_GB[k] as real ==> 0 < mem <= NODE_MEM_GB[k]
    decreases perGB, |NODE_MEM_GB| - i
  {
    if i == |NODE_MEM_GB| then 0
    else if NODE_MEM_GB[i] as real >= perGB then NODE_MEM_GB[i]
    else MemFrom(perGB, i + 1)
  }

  /** The memory picked for a node count, 0 when the catalogue has none. */
  function MemAt(c: Cluster, n: Need, p: Params, nodes: int): int
    requires nodes > c.Spares(p)
  {
    MemFrom(PerGB(c, n, nodes - c.Spares(p)), 0)
  }

  function FirstNodes(c: Cluster, n: Need, p: Params, cps: int): (first: int)
    requires p.Valid()
    ensures first > c.Spares(p) && first >= MinNodes(c, p) >= 1
  {
    Max(CeilDiv(n.cores, p.sockets * cps) + c.Spares(p), MinNodes(c, p))
  }

  /** The first node count from `nodes` on for which the catalogue has enough memory, at most 64. */
  function Search(c: Cluster, n: Need, p: Params, nodes: int): (r: Option<int>)
    requires nodes > c.Spares(p)
    ensures r.Some? ==> nodes <= r.value <= MAX_NODES && MemAt(c, n, p, r.value) != 0
    ensures forall k :: nodes <= k <= MAX_NODES && (r.Some? ==> k < r.value) ==> MemAt(c, n, p, k) == 0
    decreases n, MAX_NODES + 1 - nodes
  {
    if nodes > MAX_NODES then None
    else if MemAt(c, n, p, nodes) != 0 then Some(nodes)
    else Search(c, n, p, nodes + 1)
  }

  /** Planned CPU load on the running cores, in percent. */
  function CpuUtil(c: Cluster, n: Need, p: Params, running: int): real {
    var cap := running as real * c.coreMhz * (1.0 + p.uplift / 100.0);
    if cap > 0.0 then n.demandMhz / cap * 100.0 else 0.0
  }

  /** Planned memory load on the running memory, in percent. */
  function MemUtil(n: Need, runningGB: int): real
    requires runningGB > 0
  {
    n.memMB as real * MIB as real * MEM_OVERHEAD / (runningGB as real * GIB as real) * 100.0
  }

  /** The lowest core clock, at today's performance per clock, that keeps CPU at the target. */
  function MinGhz(n: Need, p: Params, running: int): real
    requires p.Valid() && running > 0
  {
    if n.demandMhz > 0.0 then
      UpliftedPositive(p, running);
      n.demandMhz / (p.cpuTarget / 100.0 * running as real * (1.0 + p.uplift / 100.0)) / 1000.0
    else 0.0
  }

  lemma UpliftedPositive(p: Params, running: int)
    requires p.Valid() && running > 0
    ensures p.cpuTarget / 100.0 * running as real * (1.0 + p.uplift / 100.0) > 0.0
  {
    ProductPositive(p.cpuTarget / 100.0, running as real);
    ProductPositive(p.cpuTarget / 100.0 * running as real, 1.0 + p.uplift / 100.0);
  }

  function MakeOption(c: Cluster, n: Need, p: Params, cps: int, nodes: int, mem: int): NodeOption
    requires p.Valid() && cps > 0 && mem > 0 && nodes > c.Spares(p)
  {
    var run, perNode := nodes - c.Spares(p), p.sockets * cps;
    PositiveParts(c, p, cps, nodes, mem);
    var total := nodes * perNode;
    NodeOption(
      nodes, p.sockets, cps, mem, total,
      CpuUtil(c, n, p, run * perNode), MemUtil(n, run * mem), n.vcpu as real / total as real, MinGhz(n, p, run * perNode),
      cps >= c.largestVcpu && mem * 1024 / p.sockets >= c.largestMemMB)
  }

  lemma PositiveParts(c: Cluster, p: Params, cps: int, nodes: int, mem: int)
    requires p.Valid() && cps > 0 && mem > 0 && nodes > c.Spares(p)
    ensures var run, perNode := nodes - c.Spares(p), p.sockets * cps;
      perNode > 0 && 0 < run * perNode <= nodes * perNode && run * mem > 0
  {
    var run, perNode := nodes - c.Spares(p), p.sockets * cps;
    assert nodes * perNode - run * perNode == (nodes - run) * perNode;
    assert (nodes - run) * perNode >= 0;
  }

  /** The option for one CPU shape, if any. */
  function OptionFor(c: Cluster, n: Need, p: Params, cps: int): Option<NodeOption>
    requires p.Valid() && cps > 0
  {
    if p.sockets * cps < c.largestVcpu then None
    else
      match Search(c, n, p, FirstNodes(c, n, p, cps))
      case None => None
      case Some(nodes) => Some(MakeOption(c, n, p, cps, nodes, MemAt(c, n, p, nodes)))
  }

  /** The options for the first m CPU shapes. */
  function OptionsTo(c: Cluster, n: Need, p: Params, m: nat): seq<NodeOption>
    requires p.Valid() && m <= |SOCKET_CORES|
  {
    if m == 0 then []
    else
      var o := OptionFor(c, n, p, SOCKET_CORES[m - 1]);
      OptionsTo(c, n, p, m - 1) + if o.Some? then [o.value] else []
  }

  function OptionsOf(c: Cluster, n: Need, p: Params): seq<NodeOption>
    requires p.Valid()
  {
    if n.cores == 0 && n.memB == 0.0 then [] else OptionsTo(c, n, p, |SOCKET_CORES|)
  }

  /** The inner loop over the memory catalogue. */
  method PickMemory(perGB: real) returns (mem: int)
    ensures mem == MemFrom(perGB, 0)
  {
    for k := 0 to |NODE_MEM_GB|
      invariant MemFrom(perGB, k) == MemFrom(perGB, 0)
    {
      if NODE_MEM_GB[k] as real >= perGB {
        return NODE_MEM_GB[k];
      }
    }
    return 0;
  }

  /** The loop over node counts; it leaves nodes one past the count it stopped at. */
  method SearchNodes(c: Cluster, n: Need, p: Params, first: int) returns (nodes: int, mem: int)
    requires first > c.Spares(p)
    ensures mem >= 0
    ensures mem == 0 ==> Search(c, n, p, first) == None
    ensures mem != 0 ==> Search(c, n, p, first) == Some(nodes - 1) && mem == MemAt(c, n, p, nodes - 1)
  {
    hide PerGB, MemFrom;
    nodes, mem := first, 0;
    while nodes <= MAX_NODES && mem == 0
      invariant first <= nodes && mem >= 0
      invariant mem == 0 ==> Search(c, n, p, nodes) == Search(c, n, p, first)
      invariant mem != 0 ==> nodes > first && Search(c, n, p, first) == Some(nodes - 1) && mem == MemAt(c, n, p, nodes - 1)
      decreases MAX_NODES + 1 - nodes
    {
      mem := PickMemory(PerGB(c, n, nodes - c.Spares(p)));
      nodes := nodes + 1;
    }
  }

  method NodeOptions(c: Cluster, n: Need, p: Params) returns (out: seq<NodeOption>)
    requires p.Valid()
    ensures out == OptionsOf(c, n, p)
    ensures if n.cores == 0 && n.memB == 0.0 then out == [] else AreOptions(c, n, p, |SOCKET_CORES|, out)
  {
    hide MakeOption, FirstNodes, MemAt, Search, AreOptions;
    OptionsAre(c, n, p, |SOCKET_CORES|);
    if n.cores == 0 && n.memB == 0.0 {
      return [];
    }
    out := [];
    for i := 0 to |SOCKET_CORES|
      invariant out == OptionsTo(c, n, p, i)
    {
      var cps := SOCKET_CORES[i];
      if p.sockets * cps < c.largestVcpu {
        continue;
      }
      var nodes, mem := SearchNodes(c, n, p, FirstNodes(c, n, p, cps));
      if mem == 0 {
        continue;
      }
      nodes := nodes - 1;
      out := out + [MakeOption(c, n, p, cps, nodes, mem)];
    }
  }

  // ---------------------------------------------------- what makes a shape legal

  /**
   * nodes nodes of this shape carry the need with every spare out, and hold the
   * largest VM: two nodes at least in a cluster, three with vSAN, 64 at most.
   */
  ghost predicate Feasible(c: Cluster, n: Need, p: Params, cps: int, nodes: int, mem: int) {
    var run := nodes - if c.standalone then 0 else p.spares;
    && run >= 1 && 1 <= nodes <= 64 && (!c.standalone ==> nodes >= 2) && (c.vsan ==> nodes >= 3)
    && p.sockets * cps >= c.largestVcpu
    && run * (p.sockets * cps) >= n.cores
    && mem in NODE_MEM_GB
    && (run * mem) as real * GIB as real >= n.memB
    && mem as real >= c.largestMemMB as real / 1024.0 * 1.05
  }

  /** An option that fits, with the fewest nodes and the least memory for them. */
  ghost predicate Best(c: Cluster, n: Need, p: Params, o: NodeOption) {
    && Feasible(c, n, p, o.coresPerSocket, o.nodes, o.memGB)
    && (forall nodes, mem :: Feasible(c, n, p, o.coresPerSocket, nodes, mem) ==> o.nodes <= nodes)
    && (forall mem :: Feasible(c, n, p, o.coresPerSocket, o.nodes, mem) ==> o.memGB <= mem)
  }

  /** The figures of an option: planned load on the nodes left after losing the spares. */
  ghost predicate Figured(c: Cluster, n: Need, p: Params, o: NodeOption)
    requires p.Valid()
  {
    var run := o.nodes - if c.standalone then 0 else p.spares;
    var cores, up := (run * (p.sockets * o.coresPerSocket)) as real, 1.0 + p.uplift / 100.0;
    && o.sockets == p.sockets && o.totalCores == o.nodes * (p.sockets * o.coresPerSocket)
    && (if c.coreMhz > 0.0 then Times(o.cpuUtil / 100.0, cores * c.coreMhz * up) == n.demandMhz else o.cpuUtil == 0.0)
    && Times(o.memUtil / 100.0, (run * o.memGB) as real * GIB as real) == n.memMB as real * MIB as real * 1.05
    && Times(o.ratio, o.totalCores as real) == n.vcpu as real
    && (if n.demandMhz > 0.0 then Times(o.minGhz * 1000.0, p.cpuTarget / 100.0 * cores * up) == n.demandMhz else o.minGhz == 0.0)
    && (o.numaFit <==> o.coresPerSocket >= c.largestVcpu && o.memGB * 1024 / p.sockets >= c.largestMemMB)
  }

  /** The options of the first m CPU shapes of the catalogue: one for each shape that any nodes and memory make fit. */
  ghost predicate AreOptions(c: Cluster, n: Need, p: Params, m: nat, out: seq<NodeOption>)
    requires p.Valid() && m <= |SOCKET_CORES|
  {
    && (forall o :: o in out ==> Best(c, n, p, o) && Figured(c, n, p, o))
    && (forall o :: o in out ==> exists k :: 0 <= k < m && SOCKET_CORES[k] == o.coresPerSocket)
    && (forall i, j :: 0 <= i < j < |out| ==> out[i].coresPerSocket < out[j].coresPerSocket)
    && (forall k, nodes, mem :: 0 <= k < m && Feasible(c, n, p, SOCKET_CORES[k], nodes, mem) ==>
      exists o :: o in out && o.coresPerSocket == SOCKET_CORES[k])
  }

  lemma CeilDivCovers(a: int, b: int, k: int)
    requires b > 0
    ensures CeilDiv(a, b) <= k <==> a <= k * b
  {
    var q := CeilDiv(a, b);
    assert a <= q * b < a + b;
    if q <= k {
      assert q * b <= k * b;
    } else {
      assert (k + 1) * b <= q * b;
    }
  }

  lemma PerGBCovers(c: Cluster, n: Need, run: int, mem: int)
    requires run > 0
    ensures PerGB(c, n, run) <= mem as real <==>
      (run * mem) as real * GIB as real >= n.memB && mem as real >= c.largestMemMB as real / 1024.0 * MEM_OVERHEAD
  {
    var r, g := run as real, GIB as real;
    DivideCovers(n.memB, r, mem as real * g);
    DivideCovers(n.memB / r, g, mem as real);
    assert (run * mem) as real == r * mem as real;
    assert Times(mem as real * g, r) == (r * mem as real) * g;
  }

  lemma DivideCovers(a: real, b: real, k: real)
    requires b > 0.0
    ensures a / b <= k <==> a <= Times(k, b)
  {
    var q := a / b;
    assert Times(q, b) == a;
    assert Times(k - q, b) == Times(k, b) - a;
    assert Times(q - k, b) == a - Times(k, b);
    if k >= q {
      ProductNonNegative(k - q, b);
    } else {
      ProductPositive(q - k, b);
    }
  }

  lemma MemoryInCatalogue(perGB: real, mem: int)
    requires mem in NODE_MEM_GB && perGB <= mem as real
    ensures 0 < MemFrom(perGB, 0) <= mem
  {
    var k :| 0 <= k < |NODE_MEM_GB| && NODE_MEM_GB[k] == mem;
  }

  /** The search tries every feasible node count, and the catalogue serves it. */
  lemma FeasibleIsSearched(c: Cluster, n: Need, p: Params, cps: int, nodes: int, mem: int)
    requires p.Valid() && cps > 0 && Feasible(c, n, p, cps, nodes, mem)
    ensures FirstNodes(c, n, p, cps) <= nodes && 0 < MemAt(c, n, p, nodes) <= mem
  {
    hide MemFrom, PerGB, CeilDiv;
    var run := nodes - c.Spares(p);
    CeilDivCovers(n.cores, p.sockets * cps, run);
    PerGBCovers(c, n, run, mem);
    MemoryInCatalogue(PerGB(c, n, run), mem);
  }

  /** Whatever the search finds is feasible. */
  lemma SearchedIsFeasible(c: Cluster, n: Need, p: Params, cps: int, nodes: int)
    requires p.Valid() && cps > 0 && p.sockets * cps >= c.largestVcpu
    requires FirstNodes(c, n, p, cps) <= nodes <= MAX_NODES && MemAt(c, n, p, nodes) != 0
    ensures Feasible(c, n, p, cps, nodes, MemAt(c, n, p, nodes))
  {
    hide PerGB, CeilDiv;
    var run := nodes - c.Spares(p);
    CeilDivCovers(n.cores, p.sockets * cps, run);
    PerGBCovers(c, n, run, MemAt(c, n, p, nodes));
  }

  // ------------------------------------------------------------- main results

  /**
   * For every CPU shape: an option is feasible, uses the fewest nodes any
   * catalogue memory allows and the smallest memory for that count; no option
   * means nothing up to 64 nodes is feasible.
   */
  lemma OptionIsMinimal(c: Cluster, n: Need, p: Params, cps: int)
    requires p.Valid() && cps > 0
    ensures match OptionFor(c, n, p, cps)
      case None => forall nodes, mem :: !Feasible(c, n, p, cps, nodes, mem)
      case Some(o) =>
        && o.coresPerSocket == cps && o.sockets == p.sockets && o.totalCores == o.nodes * (p.sockets * cps)
        && Feasible(c, n, p, cps, o.nodes, o.memGB)
        && (forall nodes, mem :: Feasible(c, n, p, cps, nodes, mem) ==> o.nodes <= nodes)
        && (forall mem :: Feasible(c, n, p, cps, o.nodes, mem) ==> o.memGB <= mem)
  {
    hide MemAt, PerGB, FirstNodes, Feasible, Search;
    forall nodes, mem | Feasible(c, n, p, cps, nodes, mem)
      ensures FirstNodes(c, n, p, cps) <= nodes <= MAX_NODES && p.sockets * cps >= c.largestVcpu
      ensures nodes > c.Spares(p) && 0 < MemAt(c, n, p, nodes) <= mem
    {
      FeasibleIsSearched(c, n, p, cps, nodes, mem);
      FeasibleLimits(c, n, p, cps, nodes, mem);
    }
    var r := OptionFor(c, n, p, cps);
    if r.Some? {
      SearchedIsFeasible(c, n, p, cps, r.value.nodes);
    }
  }

  lemma FeasibleLimits(c: Cluster, n: Need, p: Params, cps: int, nodes: int, mem: int)
    requires Feasible(c, n, p, cps, nodes, mem)
    ensures c.Spares(p) < nodes <= MAX_NODES && p.sockets * cps >= c.largestVcpu
  {
  }

  /** The figures of the option that the search finds. */
  lemma OptionIsFigured(c: Cluster, n: Need, p: Params, cps: int)
    requires p.Valid() && cps > 0 && OptionFor(c, n, p, cps).Some?
    ensures Figured(c, n, p, OptionFor(c, n, p, cps).value)
  {
    hide OptionFor, CpuUtil, MemUtil, MinGhz, Times;
    var o := OptionFor(c, n, p, cps).value;
    var running := OptionFigures(c, n, p, cps);
    CpuUtilIs(c, n, p, running);
    MemUtilIs(n, (o.nodes - c.Spares(p)) * o.memGB);
    MinGhzIs(n, p, running);
    QuotientTimes(n.vcpu as real, o.totalCores as real);
    FiguresAre(c, n, p, o, o.nodes - c.Spares(p), running);
  }

  lemma FiguresAre(c: Cluster, n: Need, p: Params, o: NodeOption, run: int, running: int)
    requires p.Valid() && run == o.nodes - c.Spares(p) && running == run * (p.sockets * o.coresPerSocket)
    requires o.sockets == p.sockets && o.totalCores == o.nodes * (p.sockets * o.coresPerSocket)
    requires var cap := running as real * c.coreMhz * (1.0 + p.uplift / 100.0);
      if c.coreMhz > 0.0 then Times(o.cpuUtil / 100.0, cap) == n.demandMhz else o.cpuUtil == 0.0
    requires Times(o.memUtil / 100.0, (run * o.memGB) as real * GIB as real) == n.memMB as real * MIB as real * 1.05
    requires Times(o.ratio, o.totalCores as real) == n.vcpu as real
    requires var room := p.cpuTarget / 100.0 * running as real * (1.0 + p.uplift / 100.0);
      if n.demandMhz > 0.0 then Times(o.minGhz * 1000.0, room) == n.demandMhz else o.minGhz == 0.0
    requires o.numaFit <==> o.coresPerSocket >= c.largestVcpu && o.memGB * 1024 / p.sockets >= c.largestMemMB
    ensures Figured(c, n, p, o)
  {
    assert run == o.nodes - if c.standalone then 0 else p.spares;
    assert (run * (p.sockets * o.coresPerSocket)) as real == running as real;
  }

  lemma CpuUtilIs(c: Cluster, n: Need, p: Params, running: int)
    requires p.Valid() && running > 0
    ensures var cap := running as real * c.coreMhz * (1.0 + p.uplift / 100.0);
      if c.coreMhz > 0.0 then Times(CpuUtil(c, n, p, running) / 100.0, cap) == n.demandMhz else CpuUtil(c, n, p, running) == 0.0
  {
    var r, up := running as real, 1.0 + p.uplift / 100.0;
    if c.coreMhz > 0.0 {
      ProductPositive(r, c.coreMhz);
      ProductPositive(r * c.coreMhz, up);
      QuotientTimes(n.demandMhz, r * c.coreMhz * up);
    } else {
      ProductNonNegative(r, -c.coreMhz);
      ProductNonNegative(r * -c.coreMhz, up);
      assert r * -c.coreMhz == -(r * c.coreMhz);
      assert (r * -c.coreMhz) * up == -(r * c.coreMhz * up);
    }
  }

  lemma MemUtilIs(n: Need, gb: int)
    requires gb > 0
    ensures Times(MemUtil(n, gb) / 100.0, gb as real * GIB as real) == n.memMB as real * MIB as real * 1.05
  {
    QuotientTimes(n.memMB as real * MIB as real * MEM_OVERHEAD, gb as real * GIB as real);
  }

  lemma MinGhzIs(n: Need, p: Params, running: int)
    requires p.Valid() && running > 0
    ensures var room := p.cpuTarget / 100.0 * running as real * (1.0 + p.uplift / 100.0);
      if n.demandMhz > 0.0 then Times(MinGhz(n, p, running) * 1000.0, room) == n.demandMhz else MinGhz(n, p, running) == 0.0
  {
    UpliftedPositive(p, running);
    QuotientTimes(n.demandMhz, p.cpuTarget / 100.0 * running as real * (1.0 + p.uplift / 100.0));
  }

  /** The catalogue lists CPU sizes once, ascending. */
  lemma ShapesAscend(i: nat, j: nat)
    requires i < j < |SOCKET_CORES|
    ensures 0 < SOCKET_CORES[i] < SOCKET_CORES[j]
  {
  }

  /** What the loop over the CPU shapes collects. */
  lemma {:induction false} OptionsAre(c: Cluster, n: Need, p: Params, m: nat)
    requires p.Valid() && m <= |SOCKET_CORES|
    ensures AreOptions(c, n, p, m, OptionsTo(c, n, p, m))
  {
    hide OptionFor, AreOptions;
    if m == 0 {
      NoOptions(c, n, p);
    } else {
      OptionsAre(c, n, p, m - 1);
      OptionIsBest(c, n, p, SOCKET_CORES[m - 1]);
      OneMoreShape(c, n, p, m - 1, OptionsTo(c, n, p, m - 1), OptionFor(c, n, p, SOCKET_CORES[m - 1]));
    }
  }

  lemma NoOptions(c: Cluster, n: Need, p: Params)
    requires p.Valid()
    ensures AreOptions(c, n, p, 0, [])
  {
    hide Feasible, Best, Figured;
  }

  /** One more shape: its option joins the list, if there is one. */
  lemma OneMoreShape(c: Cluster, n: Need, p: Params, m: nat, out: seq<NodeOption>, o: Option<NodeOption>)
    requires p.Valid() && m < |SOCKET_CORES| && AreOptions(c, n, p, m, out)
    requires match o
      case None => forall nodes, mem :: !Feasible(c, n, p, SOCKET_CORES[m], nodes, mem)
      case Some(x) => x.coresPerSocket == SOCKET_CORES[m] && Best(c, n, p, x) && Figured(c, n, p, x)
    ensures AreOptions(c, n, p, m + 1, out + if o.Some? then [o.value] else [])
  {
    hide Feasible, Best, Figured;
    if o.Some? {
      var more := out + [o.value];
      forall x | x in out
        ensures x.coresPerSocket < SOCKET_CORES[m]
      {
        var k :| 0 <= k < m && SOCKET_CORES[k] == x.coresPerSocket;
        ShapesAscend(k, m);
      }
      assert more[|out|] == o.value && forall x :: x in out ==> x in more;
      forall k, nodes, mem | 0 <= k < m + 1 && Feasible(c, n, p, SOCKET_CORES[k], nodes, mem)
        ensures exists x :: x in more && x.coresPerSocket == SOCKET_CORES[k]
      {
        if k < m {
          var x :| x in out && x.coresPerSocket == SOCKET_CORES[k];
          assert x in more;
        } else {
          assert o.value in more;
        }
      }
    }
  }

  lemma OptionIsBest(c: Cluster, n: Need, p: Params, cps: int)
    requires p.Valid() && cps > 0
    ensures match OptionFor(c, n, p, cps)
      case None => forall nodes, mem :: !Feasible(c, n, p, cps, nodes, mem)
      case Some(o) => o.coresPerSocket == cps && Best(c, n, p, o) && Figured(c, n, p, o)
  {
    hide OptionFor, Feasible, Figured;
    OptionIsMinimal(c, n, p, cps);
    if OptionFor(c, n, p, cps).Some? {
      OptionIsFigured(c, n, p, cps);
    }
  }

  /** A smaller need never takes more nodes. */
  lemma NodesMonotone(c: Cluster, n: Need, m: Need, p: Params, cps: int)
    requires p.Valid() && cps > 0
    requires n.cores <= m.cores && n.memB <= m.memB
    requires OptionFor(c, m, p, cps).Some?
    ensures OptionFor(c, n, p, cps).Some?
    ensures OptionFor(c, n, p, cps).value.nodes <= OptionFor(c, m, p, cps).value.nodes
  {
    hide OptionFor;
    OptionIsMinimal(c, m, p, cps);
    OptionIsMinimal(c, n, p, cps);
    var o := OptionFor(c, m, p, cps).value;
    assert Feasible(c, n, p, cps, o.nodes, o.memGB);
  }

  /** The list holds exactly the options of the catalogue's CPU shapes. */
  lemma {:induction false} OptionsAreShapes(c: Cluster, n: Need, p: Params, m: nat, o: NodeOption)
    requires p.Valid() && m <= |SOCKET_CORES|
    ensures o in OptionsTo(c, n, p, m) <==> exists i :: 0 <= i < m && OptionFor(c, n, p, SOCKET_CORES[i]) == Some(o)
  {
    hide OptionFor;
    if m > 0 {
      OptionsAreShapes(c, n, p, m - 1, o);
    }
  }

  // ------------------------------------------------------ targets with spares out

  lemma QuotientCovered(a: real, b: real, r: int)
    requires b > 0.0 && Ceil(a / b) <= r
    ensures a <= Times(r as real, b)
  {
    CeilLeast(a / b, r);
    DivideCovers(a, b, r as real);
  }

  lemma UtilBelowTarget(d: real, run: real, mhz: real, up: real, t: real)
    requires run > 0.0 && mhz > 0.0 && up > 0.0
    requires d <= Times(run, t / 100.0 * mhz * up)
    ensures run * mhz * up > 0.0 && d / (run * mhz * up) * 100.0 <= t
  {
    ProductPositive(run, mhz);
    ProductPositive(run * mhz, up);
    var cap := run * mhz * up;
    var k := t / 100.0;
    assert Times(run, k * mhz * up) == Times(k, cap) by {
      assert run * (k * mhz * up) == k * (run * mhz * up);
    }
    DivideCovers(d, cap, k);
  }

  /** What is planned for: today's figures or the rightsized ones, grown, in whole vCPU and MB. */
  lemma NeedIsPlanned(c: Cluster, basis: Basis, p: Params)
    requires c.Valid() && p.Valid()
    ensures
      var n, g := NeedOf(c, basis, p), 1.0 + p.growth / 100.0;
      var vcpu := if basis.Rightsized? then c.recVcpu else if p.poweredOff then c.vcpu + c.vcpuOff else c.vcpu;
      var mem := if basis.Rightsized? then c.recMemMB else if p.poweredOff then c.memMB + c.memMBOff else c.memMB;
      && n.vcpu as real - 1.0 < Times(vcpu as real, g) <= n.vcpu as real
      && n.memMB as real - 1.0 < Times(mem as real, g) <= n.memMB as real
      && n.demandMhz == Times(c.demandMhz, g)
  {
    hide Plan, Times, Round, CoreAtTarget, Ceil;
  }

  /** The planned ratio: the one asked for, or today's to one decimal but at least four. */
  lemma RatioIsPlanned(c: Cluster, basis: Basis, p: Params)
    requires c.Valid() && p.Valid()
    ensures var ratio := NeedOf(c, basis, p).ratio;
      if p.ratio != 0.0 then ratio == p.ratio
      else
        && (ratio * 10.0).Floor as real == ratio * 10.0
        && ratio >= 4.0 && (ratio > 4.0 || c.ratio >= 4.0 ==> ratio - 0.05 <= c.ratio < ratio + 0.05)
  {
    if p.ratio == 0.0 {
      var tenths := Round(c.ratio * 10.0);
      assert tenths as real <= c.ratio * 10.0 + 0.5 < tenths as real + 1.0;
      assert tenths as real / 10.0 * 10.0 == tenths as real;
    }
  }

  /** The cores needed are the fewest that carry the vCPU at that ratio and the demand at the target. */
  lemma NeedIsLeast(c: Cluster, basis: Basis, p: Params, k: int)
    requires c.Valid() && p.Valid()
    ensures var n := NeedOf(c, basis, p);
      && (n.cores <= k <==>
        && n.vcpu as real <= Times(k as real, n.ratio)
        && (c.coreMhz > 0.0 && n.demandMhz > 0.0 ==>
          n.demandMhz <= Times(k as real, p.cpuTarget / 100.0 * c.coreMhz * (1.0 + p.uplift / 100.0))))
      && Times(n.memB, p.memTarget / 100.0) == n.memMB as real * MIB as real * 1.05
  {
    var n := NeedOf(c, basis, p);
    NeedParts(c, basis, p);
    hide NeedOf, Times;
    LeastQuotient(n.vcpu as real, n.ratio, k);
    if c.coreMhz > 0.0 && n.demandMhz > 0.0 {
      CoreAtTargetPositive(c, p);
      LeastQuotient(n.demandMhz, CoreAtTarget(c, p), k);
    } else if n.vcpu as real <= Times(k as real, n.ratio) {
      NonNegativeQuotient(n.vcpu as real, n.ratio, k);
    }
  }

  lemma NeedParts(c: Cluster, basis: Basis, p: Params)
    requires c.Valid() && p.Valid()
    ensures var n := NeedOf(c, basis, p);
      && n.vcpu >= 0 && n.ratio >= 1.0
      && n.cores == Max(Ceil(n.vcpu as real / n.ratio), n.coresByDemand)
      && Times(n.memB, p.memTarget / 100.0) == n.memMB as real * MIB as real * 1.05
      && if c.coreMhz > 0.0 && n.demandMhz > 0.0 then
           CoreAtTarget(c, p) > 0.0 && n.coresByDemand == Ceil(n.demandMhz / CoreAtTarget(c, p))
         else n.coresByDemand == 0
  {
    var n := NeedOf(c, basis, p);
    NeedIsPlanned(c, basis, p);
    RatioIsPlanned(c, basis, p);
    QuotientTimes(n.memMB as real * MIB as real * MEM_OVERHEAD, p.memTarget / 100.0);
    assert n.vcpu >= 0 by {
      ProductNonNegative((if basis.Rightsized? then c.recVcpu else if p.poweredOff then c.vcpu + c.vcpuOff else c.vcpu) as real, 1.0 + p.growth / 100.0);
    }
    hide Times, Ceil, Round;
    if c.coreMhz > 0.0 && n.demandMhz > 0.0 {
      CoreAtTargetPositive(c, p);
    }
  }

  lemma LeastQuotient(a: real, b: real, k: int)
    requires b > 0.0
    ensures Ceil(a / b) <= k <==> a <= Times(k as real, b)
  {
    CeilLeast(a / b, k);
    DivideCovers(a, b, k as real);
  }

  lemma NonNegativeQuotient(a: real, b: real, k: int)
    requires a >= 0.0 && b > 0.0 && a <= Times(k as real, b)
    ensures k >= 0
  {
    DivideCovers(a, b, k as real);
    DivideCovers(0.0 - a, b, 0.0);
  }

  /** Cores cover the vCPU at the planned ratio and the demand at the target, whichever is more. */
  lemma NeedCovers(c: Cluster, basis: Basis, p: Params, running: int)
    requires c.Valid() && p.Valid() && running >= NeedOf(c, basis, p).cores
    ensures var n := NeedOf(c, basis, p);
      && n.demandMhz >= 0.0 && n.ratio >= 1.0
      && n.vcpu as real <= Times(running as real, n.ratio)
      && (c.coreMhz > 0.0 && n.demandMhz > 0.0 ==> n.demandMhz <= Times(running as real, CoreAtTarget(c, p)))
  {
    var n := NeedOf(c, basis, p);
    assert n.demandMhz >= 0.0 by {
      ProductNonNegative(c.demandMhz, 1.0 + p.growth / 100.0);
    }
    assert n.vcpu as real <= Times(running as real, n.ratio) by {
      QuotientCovered(n.vcpu as real, n.ratio, running);
    }
    if c.coreMhz > 0.0 && n.demandMhz > 0.0 {
      CoreAtTargetPositive(c, p);
      assert Ceil(n.demandMhz / CoreAtTarget(c, p)) <= running;
      hide NeedOf, CoreAtTarget;
      QuotientCovered(n.demandMhz, CoreAtTarget(c, p), running);
    }
  }

  lemma UtilOfRunning(c: Cluster, n: Need, p: Params, running: int)
    requires c.Valid() && p.Valid() && running > 0 && n.demandMhz >= 0.0
    requires c.coreMhz > 0.0 && n.demandMhz > 0.0 ==> n.demandMhz <= Times(running as real, CoreAtTarget(c, p))
    ensures CpuUtil(c, n, p, running) <= p.cpuTarget
  {
    var r, up := running as real, 1.0 + p.uplift / 100.0;
    if c.coreMhz > 0.0 {
      if n.demandMhz == 0.0 {
        CoreAtTargetPositive(c, p);
        ProductPositive(r, CoreAtTarget(c, p));
      }
      UtilBelowTarget(n.demandMhz, r, c.coreMhz, up, p.cpuTarget);
    } else {
      assert c.coreMhz == 0.0;
      assert r * c.coreMhz == 0.0;
    }
  }

  /** The figures of an option, for the number of cores that keep running. */
  lemma OptionFigures(c: Cluster, n: Need, p: Params, cps: int) returns (running: int)
    requires p.Valid() && cps > 0 && OptionFor(c, n, p, cps).Some?
    ensures var o := OptionFor(c, n, p, cps).value;
      && running == (o.nodes - c.Spares(p)) * (p.sockets * cps)
      && 0 < running <= o.totalCores && n.cores <= running
      && o.cpuUtil == CpuUtil(c, n, p, running)
      && o.ratio == n.vcpu as real / o.totalCores as real
      && o.minGhz == MinGhz(n, p, running)
      && o.sockets == p.sockets && o.coresPerSocket == cps && o.totalCores == o.nodes * (p.sockets * cps)
      && (o.nodes - c.Spares(p)) * o.memGB > 0 && o.memUtil == MemUtil(n, (o.nodes - c.Spares(p)) * o.memGB)
      && (o.numaFit <==> cps >= c.largestVcpu && o.memGB * 1024 / p.sockets >= c.largestMemMB)
  {
    hide CpuUtil, MemUtil, MinGhz, Search, MemAt;
    OptionIsMinimal(c, n, p, cps);
    var o := OptionFor(c, n, p, cps).value;
    running := (o.nodes - c.Spares(p)) * (p.sockets * cps);
    PositiveParts(c, p, cps, o.nodes, o.memGB);
  }

  /** CPU stays at the target on the nodes left after losing the spares. */
  lemma CpuWithinTarget(c: Cluster, basis: Basis, p: Params, cps: int)
    requires c.Valid() && p.Valid() && cps > 0
    requires OptionFor(c, NeedOf(c, basis, p), p, cps).Some?
    ensures OptionFor(c, NeedOf(c, basis, p), p, cps).value.cpuUtil <= p.cpuTarget
  {
    hide NeedOf, OptionFor, CoreAtTarget, CpuUtil;
    var n := NeedOf(c, basis, p);
    var running := OptionFigures(c, n, p, cps);
    NeedCovers(c, basis, p, running);
    UtilOfRunning(c, n, p, running);
  }

  /** The clock of an option is the lowest that keeps CPU at the target on the running cores. */
  lemma MinGhzIsLeast(c: Cluster, basis: Basis, p: Params, cps: int, ghz: real) returns (running: int)
    requires c.Valid() && p.Valid() && cps > 0 && ghz >= 0.0
    requires OptionFor(c, NeedOf(c, basis, p), p, cps).Some?
    ensures var n := NeedOf(c, basis, p);
      var o := OptionFor(c, n, p, cps).value;
      && running == (o.nodes - c.Spares(p)) * (p.sockets * cps) > 0
      && (o.minGhz <= ghz <==>
        n.demandMhz <= Times(ghz * 1000.0, p.cpuTarget / 100.0 * running as real * (1.0 + p.uplift / 100.0)))
  {
    hide NeedOf, OptionFor;
    var n := NeedOf(c, basis, p);
    running := OptionFigures(c, n, p, cps);
    NeedCovers(c, basis, p, running);
    MinGhzCovers(n, p, running, ghz);
    hide MinGhz, Times;
  }

  lemma MinGhzCovers(n: Need, p: Params, running: int, ghz: real)
    requires p.Valid() && running > 0 && n.demandMhz >= 0.0 && ghz >= 0.0
    ensures var room := p.cpuTarget / 100.0 * running as real * (1.0 + p.uplift / 100.0);
      MinGhz(n, p, running) <= ghz <==> n.demandMhz <= Times(ghz * 1000.0, room)
  {
    UpliftedPositive(p, running);
    ClockCovers(n.demandMhz, p.cpuTarget / 100.0 * running as real * (1.0 + p.uplift / 100.0), ghz);
  }

  lemma ClockCovers(demand: real, room: real, ghz: real)
    requires demand >= 0.0 && room > 0.0 && ghz >= 0.0
    ensures (if demand > 0.0 then demand / room / 1000.0 else 0.0) <= ghz <==> demand <= Times(ghz * 1000.0, room)
  {
    DivideCovers(demand, room, ghz * 1000.0);
    ProductNonNegative(ghz * 1000.0, room);
  }

  lemma MemBelowTarget(load: real, target: real, room: real)
    requires target > 0.0 && room > 0.0 && load / (target / 100.0) <= room
    ensures load / room * 100.0 <= target
  {
    DivideCovers(load, target / 100.0, room);
    TimesCommutes(room, target / 100.0);
    DivideCovers(load, room, target / 100.0);
  }

  /** Memory stays at the target on the nodes left after losing the spares. */
  lemma MemWithinTarget(c: Cluster, basis: Basis, p: Params, cps: int)
    requires c.Valid() && p.Valid() && cps > 0
    requires OptionFor(c, NeedOf(c, basis, p), p, cps).Some?
    ensures OptionFor(c, NeedOf(c, basis, p), p, cps).value.memUtil <= p.memTarget
  {
    var n := NeedOf(c, basis, p);
    var o := OptionFor(c, n, p, cps).value;
    OptionIsMinimal(c, n, p, cps);
    var run := o.nodes - c.Spares(p);
    var room := (run * o.memGB) as real * GIB as real;
    PositiveParts(c, p, cps, o.nodes, o.memGB);
    hide Search, MemAt, CpuUtil, MinGhz, Feasible;
    ProductPositive((run * o.memGB) as real, GIB as real);
    MemBelowTarget(n.memMB as real * MIB as real * MEM_OVERHEAD, p.memTarget, room);
  }

  /** vCPU per core stays at the planned ratio, on the running nodes and so on all of them. */
  lemma RatioWithinPlan(c: Cluster, basis: Basis, p: Params, cps: int)
    requires c.Valid() && p.Valid() && cps > 0
    requires OptionFor(c, NeedOf(c, basis, p), p, cps).Some?
    ensures var n := NeedOf(c, basis, p);
      var o := OptionFor(c, n, p, cps).value;
      && n.ratio >= 1.0
      && n.vcpu as real <= Times(((o.nodes - c.Spares(p)) * (p.sockets * cps)) as real, n.ratio)
      && o.ratio <= n.ratio
  {
    hide NeedOf, OptionFor;
    var n := NeedOf(c, basis, p);
    var o := OptionFor(c, n, p, cps).value;
    var running := OptionFigures(c, n, p, cps);
    NeedCovers(c, basis, p, running);
    RatioOfTotal(n.vcpu as real, running as real, o.totalCores as real, n.ratio);
  }

  lemma RatioOfTotal(vcpu: real, running: real, total: real, ratio: real)
    requires 0.0 < running <= total && ratio >= 0.0 && vcpu <= Times(running, ratio)
    ensures vcpu / total <= ratio
  {
    TimesMonotone(running, total, ratio, ratio);
    TimesCommutes(total, ratio);
    DivideCovers(vcpu, total, ratio);
  }

  // --------------------------------------------------------------- pickOption

  /** Fits the largest VM in a NUMA node, then fewest servers, then fewest cores. */
  predicate Better(a: NodeOption, b: NodeOption) {
    if a.numaFit != b.numaFit then a.numaFit
    else if a.nodes != b.nodes then a.nodes < b.nodes
    else a.totalCores < b.totalCores
  }

  ghost predicate IsLeast(opts: seq<NodeOption>, least: int) {
    && (forall i :: 0 <= i < |opts| ==> least <= opts[i].totalCores)
    && (exists i :: 0 <= i < |opts| && opts[i].totalCores == least)
  }

  /** Licensed cores within 10% of the lowest. */
  predicate Within10(o: NodeOption, least: int) {
    o.totalCores as real <= least as real * 1.1
  }

  method PickOption(opts: seq<NodeOption>) returns (best: int)
    requires forall i :: 0 <= i < |opts| ==> opts[i].totalCores >= 0
    ensures opts == [] <==> best == -1
    ensures opts != [] ==> 0 <= best < |opts|
    ensures forall least :: IsLeast(opts, least) ==>
      && (best >= 0 ==> Within10(opts[best], least))
      && (forall i :: 0 <= i < |opts| && Within10(opts[i], least) ==> !Better(opts[i], opts[best]))
      && (forall i :: 0 <= i < best && Within10(opts[i], least) ==> Better(opts[best], opts[i]))
    ensures forall least, i :: IsLeast(opts, least) && 0 <= i < |opts| && opts[i].totalCores as real <= least as real * 1.1 ==>
      && opts[best].totalCores as real <= least as real * 1.1
      && (opts[i].numaFit ==> opts[best].numaFit)
      && (opts[i].numaFit == opts[best].numaFit ==> opts[best].nodes <= opts[i].nodes)
      && (opts[i].numaFit == opts[best].numaFit && opts[i].nodes == opts[best].nodes ==> opts[best].totalCores <= opts[i].totalCores)
      && (i < best ==>
        (opts[i].numaFit, opts[i].nodes, opts[i].totalCores) != (opts[best].numaFit, opts[best].nodes, opts[best].totalCores))
  {
    if |opts| == 0 {
      return -1;
    }
    var least := opts[0].totalCores;
    for i := 0 to |opts|
      invariant forall j :: 0 <= j < i ==> least <= opts[j].totalCores
      invariant exists j :: 0 <= j < |opts| && opts[j].totalCores == least
    {
      least := Min(least, opts[i].totalCores);
    }
    ghost var first :| 0 <= first < |opts| && opts[first].totalCores == least;
    best := -1;
    for i := 0 to |opts|
      invariant -1 <= best < i
      invariant best >= 0 ==> Within10(opts[best], least)
      invariant first < i ==> best >= 0
      invariant forall j :: 0 <= j < i && Within10(opts[j], least) ==> best >= 0 && !Better(opts[j], opts[best])
      invariant forall j :: 0 <= j < best && Within10(opts[j], least) ==> Better(opts[best], opts[j])
    {
      if opts[i].totalCores as real > least as real * 1.1 {
        continue;
      }
      if best < 0 || Better(opts[i], opts[best]) {
        best := i;
      }
    }
    assert forall l :: IsLeast(opts, l) ==> l == least;
  }
}
