// Weighted graphs as the routing code stores them: one adjacency list per node.
module Graphs {

  /** An edge out of some node. `branch >= 0` names the cable polyline that draws
      it, run backwards when `reversed`; -1 is a straight hop (land edges, backhaul
      links and the synthetic chords of the cable graph). */
  datatype Edge = Edge(to: nat, w: real, branch: int, reversed: bool)

  type Graph = seq<seq<Edge>>

  ghost predicate WellFormed(g: Graph) {
    forall u, e :: 0 <= u < |g| && e in g[u] ==> e.to < |g| && e.w >= 0.0
  }

  /** `es` are the edges of a walk from `u` to `v`. */
  ghost predicate Walk(g: Graph, u: nat, es: seq<Edge>, v: nat)
    decreases |es|
  {
    && u < |g|
    && if es == [] then u == v else es[0] in g[u] && Walk(g, es[0].to, es[1..], v)
  }

  ghost function Cost(es: seq<Edge>): real {
    if es == [] then 0.0 else es[0].w + Cost(es[1..])
  }

  ghost predicate Reach(g: Graph, u: nat, v: nat) {
    exists es :: Walk(g, u, es, v)
  }

  /** `es` is a cheapest walk from `u` to `v`. */
  ghost predicate Shortest(g: Graph, u: nat, es: seq<Edge>, v: nat) {
    && Walk(g, u, es, v)
    && forall other :: Walk(g, u, other, v) ==> Cost(es) <= Cost(other)
  }

  /** The same connection seen from its other end. Only a drawn cable has a direction. */
  ghost predicate Twin(u: nat, e: Edge, f: Edge) {
    && f.to == u && f.w == e.w && f.branch == e.branch
    && (e.branch >= 0 ==> f.reversed == !e.reversed)
  }

  ghost predicate HasTwin(g: Graph, u: nat, e: Edge) {
    e.to < |g| && exists f :: f in g[e.to] && Twin(u, e, f)
  }

  // The trigger keeps twins of twins of twins out of every proof.
  ghost predicate Symmetric(g: Graph) {
    forall u: nat, e: Edge {:trigger HasTwin(g, u, e)} :: u < |g| && e in g[u] ==> HasTwin(g, u, e)
  }

  ghost predicate Within(g: Graph, h: Graph) {
    && |g| <= |h|
    && forall u, e :: 0 <= u < |g| && e in g[u] ==> e in h[u]
  }

  lemma {:induction false} CostConcat(p: seq<Edge>, q: seq<Edge>)
    ensures Cost(p + q) == Cost(p) + Cost(q)
  {
    if p == [] {
      assert p + q == q;
    } else {
      assert (p + q)[1..] == p[1..] + q;
      CostConcat(p[1..], q);
    }
  }

  lemma {:induction false} CostNonNegative(g: Graph, u: nat, es: seq<Edge>, v: nat)
    requires WellFormed(g) && Walk(g, u, es, v)
    ensures Cost(es) >= 0.0
    decreases |es|
  {
    if es != [] {
      CostNonNegative(g, es[0].to, es[1..], v);
    }
  }

  lemma {:induction false} WalkConcat(g: Graph, u: nat, p: seq<Edge>, v: nat, q: seq<Edge>, w: nat)
    requires Walk(g, u, p, v) && Walk(g, v, q, w)
    ensures Walk(g, u, p + q, w)
    decreases |p|
  {
    if p == [] {
      assert p + q == q;
    } else {
      assert (p + q)[1..] == p[1..] + q;
      WalkConcat(g, p[0].to, p[1..], v, q, w);
    }
  }

  lemma WalkSnoc(g: Graph, u: nat, p: seq<Edge>, v: nat, e: Edge)
    requires Walk(g, u, p, v) && v < |g| && e in g[v] && e.to < |g|
    ensures Walk(g, u, p + [e], e.to) && Cost(p + [e]) == Cost(p) + e.w
  {
    assert Walk(g, e.to, [], e.to);
    assert [e][1..] == [];
    assert Walk(g, v, [e], e.to);
    WalkConcat(g, u, p, v, [e], e.to);
    CostConcat(p, [e]);
    assert Cost([e]) == e.w + Cost([]);
  }

  lemma {:induction false} WalkEnds(g: Graph, u: nat, es: seq<Edge>, v: nat)
    requires Walk(g, u, es, v)
    ensures u < |g| && v < |g|
    decreases |es|
  {
    if es != [] {
      WalkEnds(g, es[0].to, es[1..], v);
    }
  }

  /** A graph with more edges has at least the same walks. */
  lemma {:induction false} WalkWithin(g: Graph, h: Graph, u: nat, es: seq<Edge>, v: nat)
    requires Within(g, h) && Walk(g, u, es, v)
    ensures Walk(h, u, es, v)
    decreases |es|
  {
    if es != [] {
      WalkWithin(g, h, es[0].to, es[1..], v);
    }
  }

  lemma ReachRefl(g: Graph, u: nat)
    requires u < |g|
    ensures Reach(g, u, u)
  {
    assert Walk(g, u, [], u);
  }

  lemma ReachTrans(g: Graph, u: nat, v: nat, w: nat)
    requires Reach(g, u, v) && Reach(g, v, w)
    ensures Reach(g, u, w)
  {
    var p :| Walk(g, u, p, v);
    var q :| Walk(g, v, q, w);
    WalkConcat(g, u, p, v, q, w);
  }

  lemma ReachEdge(g: Graph, u: nat, e: Edge)
    requires u < |g| && e in g[u] && e.to < |g|
    ensures Reach(g, u, e.to)
  {
    assert Walk(g, u, [], u);
    WalkSnoc(g, u, [], u, e);
  }

  lemma ReachWithin(g: Graph, h: Graph, u: nat, v: nat)
    requires Within(g, h) && Reach(g, u, v)
    ensures Reach(h, u, v)
  {
    var p :| Walk(g, u, p, v);
    WalkWithin(g, h, u, p, v);
  }

  /** In a symmetric graph every walk can be walked back at the same cost. */
  lemma {:induction false} WalkBack(g: Graph, u: nat, es: seq<Edge>, v: nat) returns (back: seq<Edge>)
    requires Symmetric(g) && Walk(g, u, es, v)
    ensures Walk(g, v, back, u) && Cost(back) == Cost(es)
    decreases |es|
  {
    if es == [] {
      back := [];
    } else {
      var e := es[0];
      assert HasTwin(g, u, e);
      var f :| f in g[e.to] && Twin(u, e, f);
      var rest := WalkBack(g, e.to, es[1..], v);
      WalkSnoc(g, v, rest, e.to, f);
      back := rest + [f];
    }
  }

  lemma ReachSymmetric(g: Graph, u: nat, v: nat)
    requires Symmetric(g) && Reach(g, u, v)
    ensures Reach(g, v, u)
  {
    var p :| Walk(g, u, p, v);
    var q := WalkBack(g, u, p, v);
  }

  /** A property that every edge carries along holds at the far end of every walk. */
  lemma {:induction false} WalkKeeps(g: Graph, inside: set<nat>, u: nat, es: seq<Edge>, v: nat)
    requires Walk(g, u, es, v) && u in inside
    requires forall x, e :: 0 <= x < |g| && x in inside && e in g[x] ==> e.to in inside
    ensures v in inside
    decreases |es|
  {
    if es != [] {
      WalkKeeps(g, inside, es[0].to, es[1..], v);
    }
  }

  // ----- adding connections -----

  /** `graph[a].push(there); graph[b].push(back)`, in that order. */
  function AddBoth(g: Graph, a: nat, there: Edge, b: nat, back: Edge): (h: Graph)
    requires a < |g| && b < |g|
    ensures |h| == |g|
    ensures Within(g, h)
  {
    var g1 := g[a := g[a] + [there]];
    g1[b := g1[b] + [back]]
  }

  lemma AddBothEdges(g: Graph, a: nat, there: Edge, b: nat, back: Edge)
    requires a < |g| && b < |g|
    ensures forall u, e :: 0 <= u < |g| ==>
      (e in AddBoth(g, a, there, b, back)[u] <==>
        e in g[u] || (u == a && e == there) || (u == b && e == back))
  {
  }

  lemma AddBothSymmetric(g: Graph, a: nat, there: Edge, b: nat, back: Edge)
    requires a < |g| && b < |g| && Symmetric(g)
    requires there.to == b && back.to == a && Twin(a, there, back)
    ensures Symmetric(AddBoth(g, a, there, b, back))
  {
    var h := AddBoth(g, a, there, b, back);
    AddBothEdges(g, a, there, b, back);
    forall u: nat, e: Edge | u < |h| && e in h[u]
      ensures HasTwin(h, u, e)
    {
      if e in g[u] {
        assert HasTwin(g, u, e);
        var f :| f in g[e.to] && Twin(u, e, f);
        assert f in h[e.to];
      } else if u == a && e == there {
        assert back in h[e.to];
      } else {
        assert there in h[e.to];
      }
    }
  }
}
