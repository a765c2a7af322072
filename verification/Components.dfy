/**
 * Connected components by union-find over a parent array with path halving, the
 * core of correlate (internal/analysis/peaks.go). Unions are not by rank: the
 * rank kept here is a ghost that shows the forest stays acyclic.
 */
module Components {

  // -------------------------------------------------------------- connectivity

  ghost predicate Linked(edges: set<(nat, nat)>, a: nat, b: nat) {
    (a, b) in edges || (b, a) in edges
  }

  ghost predicate Walk(edges: set<(nat, nat)>, p: seq<nat>) {
    p != [] && forall k :: 0 <= k < |p| - 1 ==> Linked(edges, p[k], p[k + 1])
  }

  ghost predicate WalkFromTo(edges: set<(nat, nat)>, p: seq<nat>, a: nat, b: nat) {
    Walk(edges, p) && p[0] == a && p[|p| - 1] == b
  }

  ghost predicate Connected(edges: set<(nat, nat)>, a: nat, b: nat) {
    exists p :: WalkFromTo(edges, p, a, b)
  }

  ghost predicate EdgesWithin(edges: set<(nat, nat)>, n: nat) {
    forall e :: e in edges ==> e.0 < n && e.1 < n
  }

  lemma ConnectedReflexive(edges: set<(nat, nat)>, a: nat)
    ensures Connected(edges, a, a)
  {
    assert WalkFromTo(edges, [a], a, a);
  }

  lemma ConnectedByEdge(edges: set<(nat, nat)>, a: nat, b: nat)
    requires Linked(edges, a, b)
    ensures Connected(edges, a, b)
  {
    assert WalkFromTo(edges, [a, b], a, b);
  }

  lemma ConnectedTransitive(edges: set<(nat, nat)>, a: nat, b: nat, c: nat)
    requires Connected(edges, a, b) && Connected(edges, b, c)
    ensures Connected(edges, a, c)
  {
    var p :| WalkFromTo(edges, p, a, b);
    var q :| WalkFromTo(edges, q, b, c);
    var r := p + q[1..];
    forall k | 0 <= k < |r| - 1
      ensures Linked(edges, r[k], r[k + 1])
    {
      if k < |p| - 1 {
        assert r[k] == p[k] && r[k + 1] == p[k + 1];
      } else {
        assert r[k] == q[k - |p| + 1] && r[k + 1] == q[k - |p| + 2];
      }
    }
    assert WalkFromTo(edges, r, a, c);
  }

  lemma ConnectedMonotone(edges: set<(nat, nat)>, more: set<(nat, nat)>, a: nat, b: nat)
    requires edges <= more && Connected(edges, a, b)
    ensures Connected(more, a, b)
  {
    var p :| WalkFromTo(edges, p, a, b);
    assert forall k :: 0 <= k < |p| - 1 ==> Linked(edges, p[k], p[k + 1]) ==> Linked(more, p[k], p[k + 1]);
    assert WalkFromTo(more, p, a, b);
  }

  /** A marking that agrees across every edge is constant along walks. */
  lemma {:induction false} MarkConstantOnWalk(edges: set<(nat, nat)>, mark: seq<nat>, p: seq<nat>, a: nat, b: nat)
    requires EdgesWithin(edges, |mark|) && a < |mark|
    requires forall e :: e in edges ==> mark[e.0] == mark[e.1]
    requires WalkFromTo(edges, p, a, b)
    ensures b < |mark| && mark[a] == mark[b]
  {
    if |p| > 1 {
      assert Linked(edges, p[0], p[1]);
      var q := p[1..];
      forall k | 0 <= k < |q| - 1
        ensures Linked(edges, q[k], q[k + 1])
      {
        assert q[k] == p[k + 1] && q[k + 1] == p[(k + 1) + 1];
      }
      MarkConstantOnWalk(edges, mark, q, q[0], b);
    }
  }

  // ----------------------------------------------------------- the parent forest

  /** Ghost description of a parent array: the root of every node, and a rank that grows towards it. */
  datatype Shape = Shape(root: seq<nat>, rank: seq<nat>, bound: nat)

  ghost predicate Fits(parent: seq<nat>, sh: Shape) {
    && |sh.root| == |sh.rank| == |parent|
    && forall i :: 0 <= i < |parent| ==> parent[i] < |parent| && sh.root[i] < |parent|
  }

  ghost predicate Node(parent: seq<nat>, sh: Shape, i: nat)
    requires Fits(parent, sh) && i < |parent|
  {
    && sh.rank[i] <= sh.bound
    && (parent[i] != i ==> sh.rank[i] < sh.rank[parent[i]])
    && (parent[i] == i ==> sh.root[i] == i)
    && sh.root[parent[i]] == sh.root[i]
    && parent[sh.root[i]] == sh.root[i]
  }

  ghost predicate Forest(parent: seq<nat>, sh: Shape) {
    Fits(parent, sh) && forall i :: 0 <= i < |parent| ==> Node(parent, sh, i)
  }

  /** Two nodes share a root exactly when the edges connect them. */
  ghost predicate Partition(sh: Shape, edges: set<(nat, nat)>) {
    EdgesWithin(edges, |sh.root|) &&
    forall i, j :: 0 <= i < |sh.root| && 0 <= j < |sh.root| ==>
      (sh.root[i] == sh.root[j] <==> Connected(edges, i, j))
  }

  ghost function Singletons(n: nat): Shape {
    Shape(seq(n, i => i), seq(n, i => 0), 0)
  }

  lemma SingletonsPartition(n: nat)
    ensures Forest(Singletons(n).root, Singletons(n))
    ensures Partition(Singletons(n), {})
  {
    forall i, j | 0 <= i < n && 0 <= j < n
      ensures i == j <==> Connected({}, i, j)
    {
      ConnectedReflexive({}, i);
      if Connected({}, i, j) {
        var p :| WalkFromTo({}, p, i, j);
        assert |p| > 1 ==> Linked({}, p[0], p[1]);
      }
    }
  }

  ghost predicate RootsAreFixed(root: seq<nat>) {
    forall x :: 0 <= x < |root| ==> root[x] < |root| && root[root[x]] == root[x]
  }

  lemma ForestRoots(parent: seq<nat>, sh: Shape)
    requires Forest(parent, sh)
    ensures |sh.root| == |sh.rank| == |parent| && RootsAreFixed(sh.root)
  {
    forall x | 0 <= x < |parent|
      ensures sh.root[sh.root[x]] == sh.root[x]
    {
      assert Node(parent, sh, x) && Node(parent, sh, sh.root[x]);
    }
  }

  /** find: path halving moves no root and terminates because ranks grow along parents. */
  method Find(parent: array<nat>, i: nat, ghost sh: Shape) returns (r: nat)
    requires Forest(parent[..], sh) && i < parent.Length
    modifies parent
    ensures Forest(parent[..], sh)
    ensures r == sh.root[i] && parent[r] == r
  {
    r := i;
    while parent[r] != r
      invariant r < parent.Length && Forest(parent[..], sh)
      invariant sh.root[r] == sh.root[i]
      decreases sh.bound - sh.rank[r]
    {
      Halved(parent[..], sh, r);
      assert Node(parent[..], sh, r) && Node(parent[..], sh, parent[r]) && Node(parent[..], sh, parent[parent[r]]);
      parent[r] := parent[parent[r]];
      r := parent[r];
    }
    assert Node(parent[..], sh, r);
  }

  lemma Halved(parent: seq<nat>, sh: Shape, i: nat)
    requires Forest(parent, sh) && i < |parent| && parent[i] != i
    ensures Forest(parent[i := parent[parent[i]]], sh)
    ensures sh.rank[i] < sh.rank[parent[parent[i]]]
  {
    var next := parent[parent[i]];
    assert Node(parent, sh, i) && Node(parent, sh, parent[i]) && Node(parent, sh, next);
    var halved := parent[i := next];
    forall j | 0 <= j < |parent|
      ensures Node(halved, sh, j)
    {
      assert Node(parent, sh, j);
    }
  }

  /** The shape after the root a is hung under the root b. */
  ghost function Joined(sh: Shape, a: nat, b: nat): Shape
    requires a < |sh.root| && b < |sh.root| && |sh.rank| == |sh.root|
  {
    if a == b then sh
    else
      Shape(seq(|sh.root|, i requires 0 <= i < |sh.root| => if sh.root[i] == a then b else sh.root[i]),
            sh.rank[b := Larger(sh.rank[b], sh.rank[a] + 1)], sh.bound + 1)
  }

  function Larger(a: nat, b: nat): nat {
    if a < b then b else a
  }

  lemma JoinedForest(parent: seq<nat>, sh: Shape, a: nat, b: nat)
    requires Forest(parent, sh)
    requires a < |parent| && b < |parent| && parent[a] == a && parent[b] == b
    ensures Forest(parent[a := b], Joined(sh, a, b))
  {
    if a == b {
      assert parent[a := b] == parent;
    } else {
      assert Node(parent, sh, a) && Node(parent, sh, b);
      var next, joined := parent[a := b], Joined(sh, a, b);
      forall i | 0 <= i < |parent|
        ensures Node(next, joined, i)
      {
        assert Node(parent, sh, i);
      }
    }
  }

  /** parent[find(a)] = find(b) */
  method Union(parent: array<nat>, a: nat, b: nat, ghost sh: Shape) returns (ghost joined: Shape)
    requires Forest(parent[..], sh) && a < parent.Length && b < parent.Length
    modifies parent
    ensures joined == Joined(sh, sh.root[a], sh.root[b])
    ensures Forest(parent[..], joined)
  {
    var ra := Find(parent, a, sh);
    var rb := Find(parent, b, sh);
    ForestRoots(parent[..], sh);
    assert Node(parent[..], sh, a);
    JoinedForest(parent[..], sh, ra, rb);
    parent[ra] := rb;
    joined := Joined(sh, ra, rb);
  }

  /** Hanging one root under the other is exactly the effect of adding the edge. */
  lemma JoinedPartition(sh: Shape, edges: set<(nat, nat)>, a: nat, b: nat)
    requires |sh.rank| == |sh.root| && Partition(sh, edges)
    requires a < |sh.root| && b < |sh.root|
    requires sh.root[a] < |sh.root| && sh.root[b] < |sh.root|
    ensures Partition(Joined(sh, sh.root[a], sh.root[b]), edges + {(a, b)})
  {
    var more, next := edges + {(a, b)}, Joined(sh, sh.root[a], sh.root[b]).root;
    forall e | e in edges
      ensures next[e.0] == next[e.1]
    {
      ConnectedByEdge(edges, e.0, e.1);
    }
    forall i, j | 0 <= i < |next| && 0 <= j < |next|
      ensures next[i] == next[j] <==> Connected(more, i, j)
    {
      if Connected(more, i, j) {
        var p :| WalkFromTo(more, p, i, j);
        MarkConstantOnWalk(more, next, p, i, j);
      }
      if next[i] == next[j] {
        JoinedConnects(sh, edges, a, b, i, j);
      }
    }
  }

  lemma JoinedConnects(sh: Shape, edges: set<(nat, nat)>, a: nat, b: nat, i: nat, j: nat)
    requires |sh.rank| == |sh.root| && Partition(sh, edges)
    requires a < |sh.root| && b < |sh.root| && i < |sh.root| && j < |sh.root|
    requires sh.root[a] < |sh.root| && sh.root[b] < |sh.root|
    requires var next := Joined(sh, sh.root[a], sh.root[b]).root; next[i] == next[j]
    ensures Connected(edges + {(a, b)}, i, j)
  {
    var more := edges + {(a, b)};
    if sh.root[i] == sh.root[j] {
      ConnectedMonotone(edges, more, i, j);
    } else if sh.root[i] == sh.root[a] {
      Bridge(sh, edges, a, b, i, j, (a, b));
    } else {
      Bridge(sh, edges, b, a, i, j, (a, b));
    }
  }

  /** i to a, over the new edge to b, and on to j. */
  lemma Bridge(sh: Shape, edges: set<(nat, nat)>, a: nat, b: nat, i: nat, j: nat, e: (nat, nat))
    requires Partition(sh, edges)
    requires a < |sh.root| && b < |sh.root| && i < |sh.root| && j < |sh.root|
    requires e == (a, b) || e == (b, a)
    requires sh.root[i] == sh.root[a] && sh.root[j] == sh.root[b]
    ensures Connected(edges + {e}, i, j)
  {
    var more := edges + {e};
    ConnectedMonotone(edges, more, i, a);
    ConnectedByEdge(more, a, b);
    ConnectedMonotone(edges, more, b, j);
    ConnectedTransitive(more, i, a, b);
    ConnectedTransitive(more, i, b, j);
  }
}
