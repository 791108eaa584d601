// The union-find both graph builders keep: path halving, no ranks.
module UnionFinds {
  import opened Graphs

  /** The class representatives after `parent[find(a)] = find(b)`. */
  ghost function Joined(root: seq<nat>, a: nat, b: nat): (r: seq<nat>)
    requires a < |root| && b < |root|
    ensures |r| == |root|
  {
    seq(|root|, i requires 0 <= i < |root| => if root[i] == root[a] then root[b] else root[i])
  }

  /** What the forest keeps at one node: its class is its parent's class, the
      representative is a root, and `depth` drops on the way up. */
  ghost predicate NodeOk(parent: seq<nat>, root: seq<nat>, depth: seq<nat>, x: nat)
    requires x < |parent| == |root| == |depth|
  {
    && parent[x] < |parent| && root[x] < |parent|
    && root[parent[x]] == root[x]
    && parent[root[x]] == root[x]
    && if parent[x] == x then root[x] == x else depth[parent[x]] < depth[x]
  }

  // The trigger stops the solver from climbing parent chains on its own.
  ghost predicate Forest(parent: seq<nat>, root: seq<nat>, depth: seq<nat>) {
    && |root| == |depth| == |parent|
    && forall x: nat {:trigger NodeOk(parent, root, depth, x)} :: x < |parent| ==> NodeOk(parent, root, depth, x)
  }

  lemma GrowKeepsForest(parent: seq<nat>, root: seq<nat>, depth: seq<nat>)
    requires Forest(parent, root, depth)
    ensures Forest(parent + [|parent|], root + [|parent|], depth + [0])
  {
    var n := |parent|;
    var (p, r, d) := (parent + [n], root + [n], depth + [0]);
    forall x: nat | x < |p|
      ensures NodeOk(p, r, d, x)
    {
      if x < n {
        assert NodeOk(parent, root, depth, x);
      }
    }
  }

  lemma HalveKeepsForest(parent: seq<nat>, root: seq<nat>, depth: seq<nat>, x: nat)
    requires Forest(parent, root, depth) && x < |parent|
    ensures parent[x] < |parent| && parent[parent[x]] < |parent|
    ensures Forest(parent[x := parent[parent[x]]], root, depth)
    ensures parent[x] != x ==> depth[parent[parent[x]]] < depth[x]
    ensures root[parent[parent[x]]] == root[x]
  {
    assert NodeOk(parent, root, depth, x);
    assert NodeOk(parent, root, depth, parent[x]);
    var p := parent[x := parent[parent[x]]];
    forall y: nat | y < |p|
      ensures NodeOk(p, root, depth, y)
    {
      assert NodeOk(parent, root, depth, y);
    }
  }

  lemma JoinKeepsForest(parent: seq<nat>, root: seq<nat>, depth: seq<nat>, a: nat, b: nat) returns (deeper: seq<nat>)
    requires Forest(parent, root, depth) && a < |parent| && b < |parent|
    ensures root[a] < |parent| && root[b] < |parent|
    ensures Forest(parent[root[a] := root[b]], Joined(root, a, b), deeper)
  {
    var (ra, rb) := (root[a], root[b]);
    assert NodeOk(parent, root, depth, a) && NodeOk(parent, root, depth, b);
    assert NodeOk(parent, root, depth, ra) && NodeOk(parent, root, depth, rb);
    deeper := if ra == rb then depth else
      seq(|depth|, i requires 0 <= i < |depth| => if root[i] == ra then depth[i] + depth[rb] + 1 else depth[i]);
    var (p, r) := (parent[ra := rb], Joined(root, a, b));
    forall x: nat | x < |p|
      ensures NodeOk(p, r, deeper, x)
    {
      assert NodeOk(parent, root, depth, x);
      assert NodeOk(parent, root, depth, root[x]);
    }
  }

  lemma RootsInRange(parent: seq<nat>, root: seq<nat>, depth: seq<nat>)
    requires Forest(parent, root, depth)
    ensures forall x :: 0 <= x < |root| ==> root[x] < |root|
  {
    forall x | 0 <= x < |root|
      ensures root[x] < |root|
    {
      assert NodeOk(parent, root, depth, x);
    }
  }

  class UnionFind {
    var parent: seq<nat>
    ghost var root: seq<nat>   // representative of every node
    ghost var depth: seq<nat>  // strictly smaller at the parent, so every climb ends

    ghost predicate Valid()
      reads this
    {
      Forest(parent, root, depth)
    }

    /** `n` singletons. */
    constructor (n: nat)
      ensures Valid() && |parent| == n
      ensures forall x :: 0 <= x < n ==> root[x] == x
    {
      parent := seq(n, i => i);
      root := seq(n, i => i);
      depth := seq(n, i => 0);
    }

    /** `ensureNode`: the network builder grows the forest as nodes appear. */
    method Ensure(id: nat)
      requires Valid()
      modifies this
      ensures Valid() && |parent| == if id < old(|parent|) then old(|parent|) else id + 1
      ensures old(root) <= root
      ensures forall x :: old(|parent|) <= x < |parent| ==> root[x] == x
    {
      while |parent| <= id
        invariant Valid() && old(|parent|) <= |parent|
        invariant |parent| <= id + 1 || |parent| == old(|parent|)
        invariant old(root) <= root
        invariant forall x :: old(|parent|) <= x < |parent| ==> root[x] == x
        decreases id + 1 - |parent|
      {
        GrowKeepsForest(parent, root, depth);
        var n := |parent|;
        parent := parent + [n];
        root := root + [n];
        depth := depth + [0];
      }
    }

    /** Path halving rewires `parent` and changes no class. */
    method Find(start: nat) returns (x: nat)
      requires Valid() && start < |parent|
      modifies this`parent
      ensures Valid() && |parent| == old(|parent|)
      ensures x == root[start] < |parent|
    {
      x := start;
      while parent[x] != x
        invariant Valid() && |parent| == old(|parent|)
        invariant x < |parent| && root[x] == root[start]
        decreases depth[x]
      {
        HalveKeepsForest(parent, root, depth, x);
        parent := parent[x := parent[parent[x]]];
        x := parent[x];
      }
      assert NodeOk(parent, root, depth, x);
    }

    method Union(a: nat, b: nat)
      requires Valid() && a < |parent| && b < |parent|
      modifies this
      ensures Valid() && |parent| == old(|parent|)
      ensures root == Joined(old(root), a, b)
    {
      var ra := Find(a);
      var rb := Find(b);
      ghost var deeper := JoinKeepsForest(parent, root, depth, a, b);
      parent := parent[ra := rb];
      root := Joined(root, a, b);
      depth := deeper;
    }
  }

  // ----- classes and reachability -----

  /** Every edge stays inside a class, and members of a class can reach each other. */
  ghost predicate Agrees(root: seq<nat>, g: Graph) {
    && |root| == |g|
    && Coarse(root, g)
    && Connected(root, g)
  }

  ghost predicate Coarse(root: seq<nat>, g: Graph) {
    |root| == |g| && forall u, e :: 0 <= u < |g| && e in g[u] ==> e.to < |g| && root[u] == root[e.to]
  }

  ghost predicate Connected(root: seq<nat>, g: Graph) {
    |root| == |g| && forall x: nat, y: nat {:trigger Reach(g, x, y)} :: x < |g| && y < |g| && root[x] == root[y] ==> Reach(g, x, y)
  }

  /** Union-find class equals reachability. */
  lemma ClassIsReach(root: seq<nat>, g: Graph, x: nat, y: nat)
    requires Agrees(root, g) && x < |g| && y < |g|
    ensures root[x] == root[y] <==> Reach(g, x, y)
  {
    if Reach(g, x, y) {
      var es :| Walk(g, x, es, y);
      WalkKeepsClass(root, g, x, es, y);
    }
  }

  lemma {:induction false} WalkKeepsClass(root: seq<nat>, g: Graph, x: nat, es: seq<Edge>, y: nat)
    requires Coarse(root, g) && Walk(g, x, es, y)
    ensures y < |g| && root[x] == root[y]
    decreases |es|
  {
    if es != [] {
      WalkKeepsClass(root, g, es[0].to, es[1..], y);
    }
  }

  /** Joining the two ends of a walkable pair keeps every class connected. */
  lemma JoinKeepsConnected(root: seq<nat>, g: Graph, a: nat, b: nat)
    requires Connected(root, g) && Symmetric(g)
    requires a < |g| && b < |g| && Reach(g, a, b)
    ensures Connected(Joined(root, a, b), g)
  {
    var r := Joined(root, a, b);
    ReachSymmetric(g, a, b);
    forall x, y | 0 <= x < |g| && 0 <= y < |g| && r[x] == r[y]
      ensures Reach(g, x, y)
    {
      if root[x] != root[y] {
        if root[x] == root[a] {
          ReachTrans(g, x, a, b);
          ReachTrans(g, x, b, y);
        } else {
          ReachTrans(g, x, b, a);
          ReachTrans(g, x, a, y);
        }
      }
    }
  }

  /** Adding a two-way connection and joining its ends preserves the agreement. */
  lemma AddAndJoin(root: seq<nat>, g: Graph, a: nat, there: Edge, b: nat, back: Edge)
    requires Agrees(root, g) && Symmetric(g) && a < |g| && b < |g|
    requires there.to == b && back.to == a && Twin(a, there, back)
    ensures Symmetric(AddBoth(g, a, there, b, back))
    ensures Agrees(Joined(root, a, b), AddBoth(g, a, there, b, back))
  {
    var h := AddBoth(g, a, there, b, back);
    AddBothSymmetric(g, a, there, b, back);
    AddBothEdges(g, a, there, b, back);
    forall x, y | 0 <= x < |h| && 0 <= y < |h| && root[x] == root[y]
      ensures Reach(h, x, y)
    {
      ReachWithin(g, h, x, y);
    }
    assert there in h[a];
    ReachEdge(h, a, there);
    JoinKeepsConnected(root, h, a, b);
  }
}
