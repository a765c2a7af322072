/**
 * Which VMs peak together (correlate, internal/analysis/peaks.go): the groups
 * that the union-find loop builds from the correlation of every pair.
 */
module CoPeaks {
  import opened Numbers
  import opened DemandSlots
  import opened PearsonCorrelation
  import opened Components

  const CO_PEAK_R := 0.8
  const COMPLEMENT_R := -0.4

  /** VMs and the largest correlation inside the group; a VM is named by its position. */
  datatype Group = Group(vms: seq<nat>, r: real)

  datatype Pair = Pair(a: nat, b: nat, r: real)

  type Edge = (nat, nat)

  ghost predicate AllValid(loads: seq<DemandSeries>) {
    forall i :: 0 <= i < |loads| ==> loads[i].Valid()
  }

  ghost function Correlation(loads: seq<DemandSeries>, sqrt: real -> real, i: nat, j: nat): Option<real>
    requires AllValid(loads) && IsSqrt(sqrt) && i < |loads| && j < |loads|
  {
    PearsonCorrelation.Correlation(loads[i], loads[j], sqrt)
  }

  /** The pair peaks together. */
  ghost predicate Strong(loads: seq<DemandSeries>, sqrt: real -> real, e: Edge)
    requires AllValid(loads) && IsSqrt(sqrt)
  {
    e.0 < e.1 < |loads| &&
    var r := Correlation(loads, sqrt, e.0, e.1);
    r.Some? && r.value >= CO_PEAK_R
  }

  ghost predicate Opposed(loads: seq<DemandSeries>, sqrt: real -> real, e: Edge)
    requires AllValid(loads) && IsSqrt(sqrt)
  {
    e.0 < e.1 < |loads| &&
    var r := Correlation(loads, sqrt, e.0, e.1);
    r.Some? && r.value <= COMPLEMENT_R
  }

  ghost function Weight(loads: seq<DemandSeries>, sqrt: real -> real, e: Edge): real
    requires AllValid(loads) && IsSqrt(sqrt)
  {
    if Strong(loads, sqrt, e) then Correlation(loads, sqrt, e.0, e.1).value else 0.0
  }

  ghost predicate Touches(e: Edge, x: nat) {
    e.0 == x || e.1 == x
  }

  /** The pair is visited by the double loop before row i, column j. */
  ghost predicate Before(e: Edge, i: nat, j: nat) {
    e.0 < i || (e.0 == i && e.1 < j)
  }

  /** Exactly the strong pairs visited before row i, column j. */
  ghost predicate EdgesBefore(edges: set<Edge>, loads: seq<DemandSeries>, sqrt: real -> real, i: nat, j: nat)
    requires AllValid(loads) && IsSqrt(sqrt)
  {
    forall e: Edge :: e in edges <==> Strong(loads, sqrt, e) && Before(e, i, j)
  }

  /** The graph "r >= 0.8". */
  ghost predicate IsCoPeakGraph(edges: set<Edge>, loads: seq<DemandSeries>, sqrt: real -> real)
    requires AllValid(loads) && IsSqrt(sqrt)
  {
    forall e: Edge :: e in edges <==> Strong(loads, sqrt, e)
  }

  /** s[x] is the largest weight of an edge at x, or 0 without edges. */
  ghost predicate StrongestOf(edges: set<Edge>, loads: seq<DemandSeries>, sqrt: real -> real, s: seq<real>)
    requires AllValid(loads) && IsSqrt(sqrt)
  {
    && |s| == |loads|
    && (forall e, x :: e in edges && 0 <= x < |s| && Touches(e, x) ==> Weight(loads, sqrt, e) <= s[x])
    && (forall x :: 0 <= x < |s| && s[x] != 0.0 ==> exists e :: e in edges && Touches(e, x) && Weight(loads, sqrt, e) == s[x])
  }

  // ----------------------------------------------------------------- grouping

  /** The nodes below i whose root is k, in order. */
  ghost function Members(root: seq<nat>, k: nat, i: nat): seq<nat>
    requires i <= |root|
  {
    if i == 0 then []
    else Members(root, k, i - 1) + if root[i - 1] == k then [i - 1] else []
  }

  ghost function LargestOf(s: seq<real>, vms: seq<nat>): real
    requires forall m :: 0 <= m < |vms| ==> vms[m] < |s|
  {
    if vms == [] then 0.0 else MaxReal(LargestOf(s, vms[..|vms| - 1]), s[vms[|vms| - 1]])
  }

  lemma {:induction false} MembersAre(root: seq<nat>, k: nat, i: nat)
    requires i <= |root|
    ensures forall x :: x in Members(root, k, i) <==> 0 <= x < i && root[x] == k
    ensures forall a, b :: 0 <= a < b < |Members(root, k, i)| ==> Members(root, k, i)[a] < Members(root, k, i)[b]
  {
    if i > 0 {
      MembersAre(root, k, i - 1);
      var m := Members(root, k, i - 1);
      assert forall a :: 0 <= a < |m| ==> m[a] in m;
    }
  }

  lemma {:induction false} LargestIs(s: seq<real>, vms: seq<nat>)
    requires forall m :: 0 <= m < |vms| ==> vms[m] < |s|
    ensures forall m :: 0 <= m < |vms| ==> s[vms[m]] <= LargestOf(s, vms)
    ensures LargestOf(s, vms) == 0.0 || exists m :: 0 <= m < |vms| && s[vms[m]] == LargestOf(s, vms)
  {
    if vms != [] {
      LargestIs(s, vms[..|vms| - 1]);
    }
  }

  /** The map after the grouping loop has handled the nodes below i. */
  ghost predicate GroupedBefore(groups: map<nat, Group>, root: seq<nat>, s: seq<real>, i: nat)
    requires i <= |root| == |s|
  {
    forall k: nat :: GroupedAt(groups, root, s, i, k)
  }

  ghost predicate GroupedAt(groups: map<nat, Group>, root: seq<nat>, s: seq<real>, i: nat, k: nat)
    requires i <= |root| == |s|
  {
    && (k in groups <==> Members(root, k, i) != [] && k < |s| && s[k] != 0.0)
    && (k in groups ==>
      && groups[k].vms == Members(root, k, i)
      && (forall m :: 0 <= m < |groups[k].vms| ==> groups[k].vms[m] < |s|)
      && groups[k].r == LargestOf(s, groups[k].vms))
  }

  /** A node without edges is a root and its own component. */
  lemma IsolatedIsAlone(edges: set<Edge>, sh: Shape, x: nat, y: nat)
    requires Partition(sh, edges) && x < |sh.root| && y < |sh.root|
    requires sh.root[x] == sh.root[y] && x != y
    ensures exists e :: e in edges && Touches(e, x)
  {
    var p :| WalkFromTo(edges, p, x, y);
    assert Linked(edges, p[0], p[1]);
    if (p[0], p[1]) in edges {
      assert Touches((p[0], p[1]), x);
    } else {
      assert Touches((p[1], p[0]), x);
    }
  }

  lemma StrongestPositive(edges: set<Edge>, loads: seq<DemandSeries>, sqrt: real -> real, s: seq<real>, x: nat)
    requires AllValid(loads) && IsSqrt(sqrt)
    requires StrongestOf(edges, loads, sqrt, s) && x < |s|
    requires forall e :: e in edges ==> Strong(loads, sqrt, e)
    ensures s[x] != 0.0 <==> exists e :: e in edges && Touches(e, x)
    ensures s[x] != 0.0 ==> s[x] >= CO_PEAK_R
  {
    if e :| e in edges && Touches(e, x) {
      assert Weight(loads, sqrt, e) >= CO_PEAK_R;
    }
  }

  /** r is the largest weight of an edge among the VMs. */
  ghost predicate LargestEdge(edges: set<Edge>, loads: seq<DemandSeries>, sqrt: real -> real, vms: seq<nat>, r: real)
    requires AllValid(loads) && IsSqrt(sqrt)
  {
    && (forall e :: e in edges && e.0 in vms && e.1 in vms ==> Weight(loads, sqrt, e) <= r)
    && (exists e :: e in edges && e.0 in vms && e.1 in vms && Weight(loads, sqrt, e) == r)
  }

  /** One group: a whole component of at least two VMs with its strongest correlation. */
  ghost predicate IsGroup(edges: set<Edge>, loads: seq<DemandSeries>, sqrt: real -> real, k: nat, g: Group)
    requires AllValid(loads) && IsSqrt(sqrt)
  {
    && |g.vms| >= 2
    && (forall a, b :: 0 <= a < b < |g.vms| ==> g.vms[a] < g.vms[b])
    && (forall x: nat :: x in g.vms <==> x < |loads| && Connected(edges, k, x))
    && LargestEdge(edges, loads, sqrt, g.vms, g.r)
  }

  /** The groups are the components of size two or more, each once. */
  ghost predicate AreComponents(edges: set<Edge>, loads: seq<DemandSeries>, sqrt: real -> real, groups: map<nat, Group>)
    requires AllValid(loads) && IsSqrt(sqrt)
  {
    && (forall k :: k in groups ==> IsGroup(edges, loads, sqrt, k, groups[k]))
    && (forall k, l :: k in groups && l in groups && Connected(edges, k, l) ==> k == l)
    && (forall x: nat, y: nat :: x < |loads| && y < |loads| && x != y && Connected(edges, x, y) ==>
      exists k :: k in groups && x in groups[k].vms && y in groups[k].vms)
  }

  lemma GroupIsComponent(edges: set<Edge>, loads: seq<DemandSeries>, sqrt: real -> real, sh: Shape, s: seq<real>,
                         groups: map<nat, Group>, k: nat)
    requires AllValid(loads) && IsSqrt(sqrt)
    requires |sh.root| == |loads| && Partition(sh, edges) && IsCoPeakGraph(edges, loads, sqrt)
    requires RootsAreFixed(sh.root)
    requires StrongestOf(edges, loads, sqrt, s) && GroupedBefore(groups, sh.root, s, |loads|)
    requires k in groups
    ensures k < |loads| && sh.root[k] == k && IsGroup(edges, loads, sqrt, k, groups[k])
  {
    hide Correlation, Connected, Members, LargestOf, LargestEdge;
    var vms := groups[k].vms;
    assert GroupedAt(groups, sh.root, s, |loads|, k);
    MembersAre(sh.root, k, |loads|);
    assert vms[0] in vms;
    assert sh.root[k] == k;
    StrongestPositive(edges, loads, sqrt, s, k);
    var e :| e in edges && Touches(e, k);
    ConnectedByEdge(edges, e.0, e.1);
    assert e.0 in vms && e.1 in vms;
    assert |vms| >= 2;
    LargestStrongestIsEdge(edges, loads, sqrt, sh, s, k, vms, e);
  }

  lemma LargestStrongestIsEdge(edges: set<Edge>, loads: seq<DemandSeries>, sqrt: real -> real, sh: Shape, s: seq<real>,
                               k: nat, vms: seq<nat>, e: Edge)
    requires AllValid(loads) && IsSqrt(sqrt)
    requires |sh.root| == |loads| && Partition(sh, edges) && IsCoPeakGraph(edges, loads, sqrt)
    requires StrongestOf(edges, loads, sqrt, s)
    requires forall x :: x in vms <==> 0 <= x < |loads| && sh.root[x] == k
    requires forall m :: 0 <= m < |vms| ==> vms[m] < |s|
    requires e in edges && e.0 in vms
    ensures LargestEdge(edges, loads, sqrt, vms, LargestOf(s, vms))
  {
    hide Correlation, Connected, LargestOf;
    LargestIs(s, vms);
    forall f | f in edges && f.0 in vms && f.1 in vms
      ensures Weight(loads, sqrt, f) <= LargestOf(s, vms)
    {
      assert Touches(f, f.0);
    }
    assert Touches(e, e.0);
    StrongestPositive(edges, loads, sqrt, s, e.0);
    var m :| 0 <= m < |vms| && s[vms[m]] == LargestOf(s, vms);
    var best :| best in edges && Touches(best, vms[m]) && Weight(loads, sqrt, best) == s[vms[m]];
    ConnectedByEdge(edges, best.0, best.1);
    assert vms[m] in vms;
    assert best.0 in vms && best.1 in vms;
  }

  lemma ConnectedPairIsGrouped(edges: set<Edge>, loads: seq<DemandSeries>, sqrt: real -> real, sh: Shape, s: seq<real>,
                               groups: map<nat, Group>, x: nat, y: nat)
    requires AllValid(loads) && IsSqrt(sqrt)
    requires |sh.root| == |loads| && Partition(sh, edges) && IsCoPeakGraph(edges, loads, sqrt)
    requires RootsAreFixed(sh.root)
    requires StrongestOf(edges, loads, sqrt, s) && GroupedBefore(groups, sh.root, s, |loads|)
    requires x < |loads| && y < |loads| && x != y && Connected(edges, x, y)
    ensures exists k :: k in groups && x in groups[k].vms && y in groups[k].vms
  {
    hide Correlation, Connected, Members, LargestOf;
    var k := sh.root[x];
    MembersAre(sh.root, k, |loads|);
    assert x in Members(sh.root, k, |loads|) && y in Members(sh.root, k, |loads|);
    IsolatedIsAlone(edges, sh, k, if x != k then x else y);
    StrongestPositive(edges, loads, sqrt, s, k);
    assert GroupedAt(groups, sh.root, s, |loads|, k);
  }

  lemma GroupsAreComponents(edges: set<Edge>, loads: seq<DemandSeries>, sqrt: real -> real, sh: Shape, s: seq<real>,
                            groups: map<nat, Group>)
    requires AllValid(loads) && IsSqrt(sqrt)
    requires |sh.root| == |loads| && Partition(sh, edges) && IsCoPeakGraph(edges, loads, sqrt)
    requires RootsAreFixed(sh.root)
    requires StrongestOf(edges, loads, sqrt, s) && GroupedBefore(groups, sh.root, s, |loads|)
    ensures AreComponents(edges, loads, sqrt, groups)
  {
    hide Correlation, Connected, GroupedBefore, StrongestOf, IsGroup, IsCoPeakGraph;
    forall k | k in groups
      ensures k < |loads| && sh.root[k] == k && IsGroup(edges, loads, sqrt, k, groups[k])
    {
      GroupIsComponent(edges, loads, sqrt, sh, s, groups, k);
    }
    forall x: nat, y: nat | x < |loads| && y < |loads| && x != y && Connected(edges, x, y)
      ensures exists k :: k in groups && x in groups[k].vms && y in groups[k].vms
    {
      ConnectedPairIsGrouped(edges, loads, sqrt, sh, s, groups, x, y);
    }
  }

  // ------------------------------------------------------------------ the loops

  lemma StrongestGrows(edges: set<Edge>, loads: seq<DemandSeries>, sqrt: real -> real, s: seq<real>, e: Edge)
    requires AllValid(loads) && IsSqrt(sqrt)
    requires StrongestOf(edges, loads, sqrt, s) && Strong(loads, sqrt, e)
    ensures var w := Weight(loads, sqrt, e);
      var si := s[e.0 := MaxReal(s[e.0], w)];
      StrongestOf(edges + {e}, loads, sqrt, si[e.1 := MaxReal(si[e.1], w)])
  {
    var w := Weight(loads, sqrt, e);
    var si := s[e.0 := MaxReal(s[e.0], w)];
    var t := si[e.1 := MaxReal(si[e.1], w)];
    forall x | 0 <= x < |t| && t[x] != 0.0
      ensures exists f :: f in edges + {e} && Touches(f, x) && Weight(loads, sqrt, f) == t[x]
    {
      if t[x] == s[x] {
        var f :| f in edges && Touches(f, x) && Weight(loads, sqrt, f) == s[x];
        assert f in edges + {e};
      } else {
        assert Touches(e, x) && e in edges + {e};
      }
    }
  }

  lemma NoEdgesYet(loads: seq<DemandSeries>, sqrt: real -> real, s: seq<real>)
    requires AllValid(loads) && IsSqrt(sqrt)
    requires |s| == |loads| && forall x :: 0 <= x < |s| ==> s[x] == 0.0
    ensures StrongestOf({}, loads, sqrt, s)
  {
  }

  lemma GroupsHaveTwo(edges: set<Edge>, loads: seq<DemandSeries>, sqrt: real -> real, groups: map<nat, Group>)
    requires AllValid(loads) && IsSqrt(sqrt) && AreComponents(edges, loads, sqrt, groups)
    ensures forall k :: k in groups ==> |groups[k].vms| > 1
  {
  }

  /** No pair is listed twice. */
  ghost predicate NoneTwice(comps: seq<Pair>) {
    forall x, y :: 0 <= x < y < |comps| ==> !(comps[x].a == comps[y].a && comps[x].b == comps[y].b)
  }

  /** The listed pairs are the opposed ones visited before row i, column j, each once and with its correlation. */
  ghost predicate OpposedBefore(comps: seq<Pair>, loads: seq<DemandSeries>, sqrt: real -> real, i: nat, j: nat)
    requires AllValid(loads) && IsSqrt(sqrt)
  {
    && NoneTwice(comps)
    && (forall p :: p in comps ==>
      Opposed(loads, sqrt, (p.a, p.b)) && Before((p.a, p.b), i, j) && Some(p.r) == Correlation(loads, sqrt, p.a, p.b))
    && (forall e: Edge :: Opposed(loads, sqrt, e) && Before(e, i, j) ==> Listed(comps, e))
  }

  ghost predicate Listed(comps: seq<Pair>, e: Edge) {
    exists p :: p in comps && p.a == e.0 && p.b == e.1
  }

  lemma NoOpposedYet(loads: seq<DemandSeries>, sqrt: real -> real)
    requires AllValid(loads) && IsSqrt(sqrt)
    ensures OpposedBefore([], loads, sqrt, 0, 0)
  {
  }

  /** Visiting the pair (i, j) lists it when it is opposed. */
  lemma OpposedGrows(comps: seq<Pair>, loads: seq<DemandSeries>, sqrt: real -> real, i: nat, j: nat)
    requires AllValid(loads) && IsSqrt(sqrt) && i < j < |loads|
    requires OpposedBefore(comps, loads, sqrt, i, j)
    ensures var r := Correlation(loads, sqrt, i, j);
      OpposedBefore(if r.Some? && r.value <= COMPLEMENT_R then comps + [Pair(i, j, r.value)] else comps, loads, sqrt, i, j + 1)
  {
    hide Correlation;
    var r := Correlation(loads, sqrt, i, j);
    if r.Some? && r.value <= COMPLEMENT_R {
      var more := comps + [Pair(i, j, r.value)];
      assert more[|comps|] in more;
      assert NoneTwice(more) by {
        forall x | 0 <= x < |comps|
          ensures !(comps[x].a == i && comps[x].b == j)
        {
          assert comps[x] in comps;
        }
      }
      forall e: Edge | Opposed(loads, sqrt, e) && Before(e, i, j + 1)
        ensures Listed(more, e)
      {
        if Before(e, i, j) {
          assert Listed(comps, e);
          var p :| p in comps && p.a == e.0 && p.b == e.1;
          assert p in more;
        }
      }
    }
  }

  /** Two places in the double loop between which it visits no pair. */
  lemma OpposedRow(comps: seq<Pair>, loads: seq<DemandSeries>, sqrt: real -> real, i: nat, j: nat, k: nat, l: nat)
    requires AllValid(loads) && IsSqrt(sqrt) && OpposedBefore(comps, loads, sqrt, i, j)
    requires (k == i && j == 0 && l == i + 1) || (k == i + 1 && l == 0 && j >= |loads|)
    ensures OpposedBefore(comps, loads, sqrt, k, l)
  {
    hide Correlation;
  }

  lemma AllOpposed(comps: seq<Pair>, loads: seq<DemandSeries>, sqrt: real -> real)
    requires AllValid(loads) && IsSqrt(sqrt) && OpposedBefore(comps, loads, sqrt, |loads|, 0)
    ensures forall p :: p in comps ==>
      Opposed(loads, sqrt, (p.a, p.b)) && Some(p.r) == Correlation(loads, sqrt, p.a, p.b)
    ensures forall e: Edge :: Opposed(loads, sqrt, e) ==> Listed(comps, e)
    ensures NoneTwice(comps)
  {
    hide Correlation;
  }

  /** The body of the double loop for a pair with r >= 0.8. */
  method Link(parent: array<nat>, strongest: array<real>, i: nat, j: nat, r: real, ghost loads: seq<DemandSeries>,
              ghost sqrt: real -> real, ghost edges: set<Edge>, ghost sh: Shape) returns (ghost joined: Shape)
    requires AllValid(loads) && IsSqrt(sqrt)
    requires i < j < |loads| == parent.Length == strongest.Length == |sh.root|
    requires Forest(parent[..], sh) && Partition(sh, edges) && StrongestOf(edges, loads, sqrt, strongest[..])
    requires Correlation(loads, sqrt, i, j) == Some(r) && r >= CO_PEAK_R
    modifies parent, strongest
    ensures |joined.root| == |loads| && Forest(parent[..], joined) && Partition(joined, edges + {(i, j)})
    ensures StrongestOf(edges + {(i, j)}, loads, sqrt, strongest[..])
  {
    hide PearsonOf, PearsonCorrelation.Correlation, Connected, StrongestOf, Forest;
    ForestRoots(parent[..], sh);
    JoinedPartition(sh, edges, i, j);
    joined := Union(parent, i, j, sh);
    StrongestGrows(edges, loads, sqrt, strongest[..], (i, j));
    strongest[i] := MaxReal(strongest[i], r);
    strongest[j] := MaxReal(strongest[j], r);
  }

  /** The groups, keyed by root, and the opposed pairs: before the display sorts and limits. */
  method Correlate(loads: seq<DemandSeries>, sqrt: real -> real)
    returns (groups: map<nat, Group>, comps: seq<Pair>, ghost edges: set<Edge>)
    requires AllValid(loads) && IsSqrt(sqrt)
    ensures IsCoPeakGraph(edges, loads, sqrt)
    ensures AreComponents(edges, loads, sqrt, groups)
    ensures forall p :: p in comps ==>
      Opposed(loads, sqrt, (p.a, p.b)) && Some(p.r) == Correlation(loads, sqrt, p.a, p.b)
    ensures forall e: Edge :: Opposed(loads, sqrt, e) ==> Listed(comps, e)
    ensures NoneTwice(comps)
  {
    hide PearsonOf, PearsonCorrelation.Correlation, Connected, StrongestOf, Forest, GroupedBefore, AreComponents, OpposedBefore;
    var n := |loads|;
    var parent := new nat[n](i => i);
    ghost var sh := Singletons(n);
    SingletonsPartition(n);
    assert parent[..] == sh.root;
    var strongest := new real[n](i => 0.0);
    NoEdgesYet(loads, sqrt, strongest[..]);
    comps, edges := [], {};
    NoOpposedYet(loads, sqrt);
    for i := 0 to n
      invariant |sh.root| == n && Forest(parent[..], sh) && Partition(sh, edges)
      invariant EdgesBefore(edges, loads, sqrt, i, 0)
      invariant StrongestOf(edges, loads, sqrt, strongest[..])
      invariant OpposedBefore(comps, loads, sqrt, i, 0)
    {
      OpposedRow(comps, loads, sqrt, i, 0, i, i + 1);
      for j := i + 1 to n
        invariant |sh.root| == n && Forest(parent[..], sh) && Partition(sh, edges)
        invariant EdgesBefore(edges, loads, sqrt, i, j)
        invariant StrongestOf(edges, loads, sqrt, strongest[..])
        invariant OpposedBefore(comps, loads, sqrt, i, j)
      {
        var r := Pearson(loads[i], loads[j], sqrt);
        OpposedGrows(comps, loads, sqrt, i, j);
        if r.None? {
          continue;
        }
        if r.value >= CO_PEAK_R {
          sh := Link(parent, strongest, i, j, r.value, loads, sqrt, edges, sh);
          edges := edges + {(i, j)};
        }
        if r.value <= COMPLEMENT_R {
          comps := comps + [Pair(i, j, r.value)];
        }
      }
      OpposedRow(comps, loads, sqrt, i, n, i + 1, 0);
    }
    AllOpposed(comps, loads, sqrt);
    var all := GroupByRoot(parent, strongest, loads, sqrt, edges, sh);
    ForestRoots(parent[..], sh);
    GroupsAreComponents(edges, loads, sqrt, sh, strongest[..], all);
    GroupsHaveTwo(edges, loads, sqrt, all);
    groups := map k | k in all && |all[k].vms| > 1 :: all[k];
    assert groups == all;
  }

  /** The group map after one more node, as the loop body computes it. */
  function Grouped(groups: map<nat, Group>, root: nat, i: nat, strongest: real): map<nat, Group> {
    if root == i && strongest == 0.0 then groups
    else
      var g := if root in groups then groups[root] else Group([], 0.0);
      groups[root := Group(g.vms + [i], MaxReal(g.r, strongest))]
  }

  lemma GroupedStepAt(groups: map<nat, Group>, root: seq<nat>, s: seq<real>, i: nat, k: nat)
    requires i < |root| == |s| && GroupedAt(groups, root, s, i, k)
    requires RootsAreFixed(root)
    requires root[i] != i ==> s[root[i]] != 0.0
    ensures GroupedAt(Grouped(groups, root[i], i, s[i]), root, s, i + 1, k)
  {
    var before := Members(root, k, i);
    if k == root[i] {
      assert Members(root, k, i + 1) == before + [i];
      assert (before + [i])[..|before|] == before;
    } else {
      assert Members(root, k, i + 1) == before + [] == before;
    }
  }

  lemma GroupedStep(groups: map<nat, Group>, root: seq<nat>, s: seq<real>, i: nat)
    requires i < |root| == |s| && GroupedBefore(groups, root, s, i)
    requires RootsAreFixed(root)
    requires root[i] != i ==> s[root[i]] != 0.0
    ensures GroupedBefore(Grouped(groups, root[i], i, s[i]), root, s, i + 1)
  {
    var next, done := Grouped(groups, root[i], i, s[i]), i + 1;
    forall k: nat
      ensures GroupedAt(next, root, s, done, k)
    {
      assert GroupedAt(groups, root, s, i, k);
      GroupedStepAt(groups, root, s, i, k);
    }
  }

  method GroupByRoot(parent: array<nat>, strongest: array<real>, ghost loads: seq<DemandSeries>, ghost sqrt: real -> real,
                     ghost edges: set<Edge>, ghost sh: Shape)
    returns (groups: map<nat, Group>)
    requires AllValid(loads) && IsSqrt(sqrt)
    requires parent.Length == strongest.Length == |loads| == |sh.root|
    requires Forest(parent[..], sh) && Partition(sh, edges) && IsCoPeakGraph(edges, loads, sqrt)
    requires StrongestOf(edges, loads, sqrt, strongest[..])
    modifies parent
    ensures Forest(parent[..], sh)
    ensures GroupedBefore(groups, sh.root, strongest[..], |loads|)
  {
    hide PearsonOf, PearsonCorrelation.Correlation, Connected, Forest, Correlation, GroupedBefore;
    groups := map[];
    ForestRoots(parent[..], sh);
    NothingGrouped(sh.root, strongest[..]);
    for i := 0 to parent.Length
      invariant Forest(parent[..], sh)
      invariant GroupedBefore(groups, sh.root, strongest[..], i)
    {
      var root := Find(parent, i, sh);
      if root != i {
        IsolatedIsAlone(edges, sh, root, i);
        StrongestPositive(edges, loads, sqrt, strongest[..], root);
      }
      GroupedStep(groups, sh.root, strongest[..], i);
      if root == i && strongest[i] == 0.0 {
        continue;
      }
      var g := if root in groups then groups[root] else Group([], 0.0);
      groups := groups[root := Group(g.vms + [i], MaxReal(g.r, strongest[i]))];
    }
  }

  lemma NothingGrouped(root: seq<nat>, s: seq<real>)
    requires |root| == |s|
    ensures GroupedBefore(map[], root, s, 0)
  {
  }
}
