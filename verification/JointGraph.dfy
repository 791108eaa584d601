// The land backbone and the cable network as one graph, tied together by one backhaul
// link per landing.
module JointGraph {
  import opened Geometry
  import opened Graphs
  import opened CableGraph

  /** A land edge as the joint graph stores it. */
  function Overland(e: Edge): Edge {
    Edge(e.to, e.w, -1, false)
  }

  /** A cable edge; landings come after the hubs. */
  function Shifted(e: Edge, h: nat): Edge {
    Edge(h + e.to, e.w, e.branch, e.reversed)
  }

  function OverlandRow(row: seq<Edge>): seq<Edge> {
    seq(|row|, k requires 0 <= k < |row| => Overland(row[k]))
  }

  function ShiftedRow(row: seq<Edge>, h: nat): seq<Edge> {
    seq(|row|, k requires 0 <= k < |row| => Shifted(row[k], h))
  }

  /** The inputs: both graphs with their coordinates. */
  datatype Parts = Parts(km: Distance, hubs: seq<LngLat>, land: Graph, nodes: seq<LngLat>, cables: Graph, branches: seq<Polyline>)
  {
    ghost predicate LandEdgeOk(u: nat, e: Edge) {
      u < |hubs| && e == Overland(e) && e.to < |hubs| && e.w == km(hubs[u], hubs[e.to])
    }

    ghost predicate Valid() {
      && |land| == |hubs| && Symmetric(land)
      && (forall u: nat, e: Edge {:trigger LandEdgeOk(u, e)} :: u < |land| && e in land[u] ==> LandEdgeOk(u, e))
      && EdgesOk(km, nodes, branches, cables) && Symmetric(cables)
    }

    /** `jointCoord`. */
    function Coord(): seq<LngLat> {
      hubs + nodes
    }

    /** `tie[j]` is the hub nearest to landing `j`. */
    ghost predicate Ties(tie: seq<nat>) {
      && |tie| <= |nodes|
      && (forall j :: 0 <= j < |tie| ==> tie[j] < |hubs|)
      && forall j: nat {:trigger FirstNearest(km, hubs, nodes[j], tie[j])} :: j < |tie| ==> FirstNearest(km, hubs, nodes[j], tie[j])
    }

    function Backhaul(j: nat, hub: nat): real
      requires j < |nodes| && hub < |hubs|
    {
      km(hubs[hub], nodes[j])
    }
  }

  /** The adjacency lists after the landings tied so far. */
  ghost function Stage(p: Parts, tie: seq<nat>): (g: Graph)
    requires p.Valid() && p.Ties(tie)
    ensures |g| == |p.hubs| + |p.nodes|
  {
    var h := |p.hubs|;
    if tie == [] then seq(h, i requires 0 <= i < h => OverlandRow(p.land[i])) + seq(|p.nodes|, _ => [])
    else
      var j, hub := |tie| - 1, tie[|tie| - 1];
      var before := Stage(p, tie[..j]);
      AddBoth(before[h + j := before[h + j] + ShiftedRow(p.cables[j], h)],
              h + j, Edge(hub, p.Backhaul(j, hub), -1, false), hub, Edge(h + j, p.Backhaul(j, hub), -1, false))
  }

  /** Where an edge of the joint graph comes from. */
  ghost predicate FromLand(p: Parts, u: nat, e: Edge) {
    u < |p.hubs| == |p.land| && e in p.land[u]
  }

  ghost predicate FromCable(p: Parts, n: nat, u: nat, e: Edge) {
    var h := |p.hubs|;
    h <= u < h + n && u - h < |p.cables| && exists f :: f in p.cables[u - h] && e == Shifted(f, h)
  }

  /** The backhaul of landing `j`, seen from the landing or from its hub. */
  ghost predicate FromBackhaul(p: Parts, tie: seq<nat>, u: nat, e: Edge) {
    exists j :: TieEdge(p, tie, j, u, e)
  }

  ghost predicate TieEdge(p: Parts, tie: seq<nat>, j: nat, u: nat, e: Edge) {
    var h := |p.hubs|;
    && j < |tie| && j < |p.nodes| && tie[j] < h
    && ((u == h + j && e == Edge(tie[j], p.Backhaul(j, tie[j]), -1, false))
        || (u == tie[j] && e == Edge(h + j, p.Backhaul(j, tie[j]), -1, false)))
  }

  ghost predicate Sourced(p: Parts, tie: seq<nat>, u: nat, e: Edge) {
    FromLand(p, u, e) || FromCable(p, |tie|, u, e) || FromBackhaul(p, tie, u, e)
  }

  /** The joint graph has the land edges, the shifted cable edges and the backhauls, and
      nothing else. */
  lemma {:induction false} StageEdges(p: Parts, tie: seq<nat>, u: nat, e: Edge)
    requires p.Valid() && p.Ties(tie) && u < |p.hubs| + |p.nodes|
    ensures e in Stage(p, tie)[u] <==> Sourced(p, tie, u, e)
  {
    var h := |p.hubs|;
    if tie == [] {
      if u < h {
        assert Stage(p, tie)[u] == OverlandRow(p.land[u]);
        OverlandRowIsRow(p, u);
      }
    } else {
      var j, hub := |tie| - 1, tie[|tie| - 1];
      var init := tie[..j];
      StageEdges(p, init, u, e);
      var before := Stage(p, init);
      var lifted := before[h + j := before[h + j] + ShiftedRow(p.cables[j], h)];
      AddBothEdges(lifted, h + j, Edge(hub, p.Backhaul(j, hub), -1, false), hub, Edge(h + j, p.Backhaul(j, hub), -1, false));
      ShiftedRowHolds(p.cables[j], h, e);
      TieSplits(p, tie, u, e);
      CableSplits(p, j, u, e);
    }
  }

  lemma OverlandRowIsRow(p: Parts, u: nat)
    requires p.Valid() && u < |p.hubs|
    ensures OverlandRow(p.land[u]) == p.land[u]
  {
    forall k | 0 <= k < |p.land[u]|
      ensures Overland(p.land[u][k]) == p.land[u][k]
    {
      assert p.LandEdgeOk(u, p.land[u][k]);
    }
  }

  lemma ShiftedRowHolds(row: seq<Edge>, h: nat, e: Edge)
    ensures e in ShiftedRow(row, h) <==> exists f :: f in row && e == Shifted(f, h)
  {
    if f :| f in row && e == Shifted(f, h) {
      var k :| 0 <= k < |row| && row[k] == f;
      assert ShiftedRow(row, h)[k] == e;
    }
  }

  lemma TieSplits(p: Parts, tie: seq<nat>, u: nat, e: Edge)
    requires tie != []
    ensures FromBackhaul(p, tie, u, e) <==> FromBackhaul(p, tie[..|tie| - 1], u, e) || TieEdge(p, tie, |tie| - 1, u, e)
  {
    var init := tie[..|tie| - 1];
    if FromBackhaul(p, tie, u, e) {
      var j: nat :| TieEdge(p, tie, j, u, e);
      if j < |init| {
        assert TieEdge(p, init, j, u, e);
      }
    }
    if FromBackhaul(p, init, u, e) {
      var j: nat :| TieEdge(p, init, j, u, e);
      assert TieEdge(p, tie, j, u, e);
    }
  }

  lemma CableSplits(p: Parts, j: nat, u: nat, e: Edge)
    requires p.Valid() && j < |p.nodes|
    ensures FromCable(p, j + 1, u, e) <==>
      FromCable(p, j, u, e) || (u == |p.hubs| + j && exists f :: f in p.cables[j] && e == Shifted(f, |p.hubs|))
  {
  }

  /** The joint graph is well formed and symmetric; drawn cables flip their direction. */
  lemma StageIsGood(p: Parts, tie: seq<nat>)
    requires p.Valid() && IsMetric(p.km) && p.Ties(tie) && |tie| == |p.nodes|
    ensures WellFormed(Stage(p, tie)) && Symmetric(Stage(p, tie))
  {
    var g := Stage(p, tie);
    forall u: nat, e: Edge | u < |g| && e in g[u]
      ensures e.to < |g| && e.w >= 0.0 && HasTwin(g, u, e)
    {
      StageEdges(p, tie, u, e);
      var f := TwinOf(p, tie, u, e);
      StageEdges(p, tie, e.to, f);
    }
  }

  lemma TwinOf(p: Parts, tie: seq<nat>, u: nat, e: Edge) returns (f: Edge)
    requires p.Valid() && IsMetric(p.km) && p.Ties(tie) && |tie| == |p.nodes| && u < |p.hubs| + |p.nodes| && Sourced(p, tie, u, e)
    ensures e.to < |p.hubs| + |p.nodes| && e.w >= 0.0 && Sourced(p, tie, e.to, f) && Twin(u, e, f)
  {
    var h := |p.hubs|;
    if FromLand(p, u, e) {
      assert p.LandEdgeOk(u, e);
      assert HasTwin(p.land, u, e);
      f :| f in p.land[e.to] && Twin(u, e, f);
      assert FromLand(p, e.to, f);
    } else if FromCable(p, |tie|, u, e) {
      var c :| c in p.cables[u - h] && e == Shifted(c, h);
      assert EdgeOk(p.km, p.nodes, p.branches, u - h, c);
      assert HasTwin(p.cables, u - h, c);
      var d :| d in p.cables[c.to] && Twin(u - h, c, d);
      f := Shifted(d, h);
      assert FromCable(p, |tie|, e.to, f);
    } else {
      var j: nat :| TieEdge(p, tie, j, u, e);
      f := Edge(u, e.w, -1, false);
      assert TieEdge(p, tie, j, e.to, f);
    }
  }

  /** How an edge of the joint graph is priced: straight hops by the distance between their
      ends, cables by their polyline, whose ends are within the cluster distance. */
  ghost predicate PricedBy(km: Distance, coord: seq<LngLat>, branches: seq<Polyline>, tolerance: real, u: nat, e: Edge) {
    && u < |coord| && e.to < |coord| && e.branch < |branches|
    && if e.branch < 0 then e.w == km(coord[u], coord[e.to])
       else
         && |branches[e.branch]| >= 2 && e.w == Length(km, branches[e.branch])
         && km(coord[u], From(branches[e.branch], e.reversed)) <= tolerance
         && km(coord[e.to], From(branches[e.branch], !e.reversed)) <= tolerance
  }

  lemma CableIsPriced(p: Parts, ties: nat, u: nat, e: Edge)
    requires p.Valid() && u < |p.hubs| + |p.nodes| && FromCable(p, ties, u, e)
    ensures PricedBy(p.km, p.Coord(), p.branches, 60.0, u, e)
  {
    var h := |p.hubs|;
    var c :| c in p.cables[u - h] && e == Shifted(c, h);
    assert EdgeOk(p.km, p.nodes, p.branches, u - h, c);
  }

  lemma TieIsPriced(p: Parts, tie: seq<nat>, j: nat, u: nat, e: Edge)
    requires p.Valid() && IsMetric(p.km) && p.Ties(tie) && TieEdge(p, tie, j, u, e)
    ensures PricedBy(p.km, p.Coord(), p.branches, 60.0, u, e)
  {
    assert p.km(p.hubs[tie[j]], p.nodes[j]) == p.km(p.nodes[j], p.hubs[tie[j]]);
  }

  lemma {:induction false} StageIsPriced(p: Parts, tie: seq<nat>, u: nat, e: Edge)
    requires p.Valid() && IsMetric(p.km) && p.Ties(tie) && u < |p.hubs| + |p.nodes| && Sourced(p, tie, u, e)
    ensures PricedBy(p.km, p.Coord(), p.branches, 60.0, u, e)
  {
    if FromLand(p, u, e) {
      assert p.LandEdgeOk(u, e);
    } else if FromCable(p, |tie|, u, e) {
      CableIsPriced(p, |tie|, u, e);
    } else {
      var j: nat :| TieEdge(p, tie, j, u, e);
      TieIsPriced(p, tie, j, u, e);
    }
  }

  // ----- what joining the graphs does to distances -----

  lemma LandIsWithin(p: Parts, tie: seq<nat>)
    requires p.Valid() && p.Ties(tie)
    ensures Within(p.land, Stage(p, tie))
  {
    forall u: nat, e: Edge | u < |p.land| && e in p.land[u]
      ensures e in Stage(p, tie)[u]
    {
      StageEdges(p, tie, u, e);
      assert FromLand(p, u, e);
    }
  }

  /** Between two hubs the joint graph is never farther than the land graph. */
  lemma JointIsNoFartherThanLand(p: Parts, tie: seq<nat>, u: nat, v: nat, overland: seq<Edge>, joint: seq<Edge>)
    requires p.Valid() && p.Ties(tie) && Walk(p.land, u, overland, v) && Shortest(Stage(p, tie), u, joint, v)
    ensures Cost(joint) <= Cost(overland)
  {
    LandIsWithin(p, tie);
    WalkWithin(p.land, Stage(p, tie), u, overland, v);
  }

  /** A route and the route back cost the same. */
  lemma JointDistanceIsSymmetric(p: Parts, tie: seq<nat>, u: nat, v: nat, there: seq<Edge>, back: seq<Edge>)
    requires p.Valid() && IsMetric(p.km) && p.Ties(tie) && |tie| == |p.nodes|
    requires Shortest(Stage(p, tie), u, there, v) && Shortest(Stage(p, tie), v, back, u)
    ensures Cost(there) == Cost(back)
  {
    StageIsGood(p, tie);
    var x := WalkBack(Stage(p, tie), u, there, v);
    var y := WalkBack(Stage(p, tie), v, back, u);
  }

  lemma CableEdgeIsJointEdge(p: Parts, tie: seq<nat>, j: nat, e: Edge)
    requires p.Valid() && p.Ties(tie) && |tie| == |p.nodes| && j < |p.cables| && e in p.cables[j]
    ensures e.to < |p.nodes| && Reach(Stage(p, tie), |p.hubs| + j, |p.hubs| + e.to)
  {
    var h := |p.hubs|;
    assert EdgeOk(p.km, p.nodes, p.branches, j, e);
    assert FromCable(p, |tie|, h + j, Shifted(e, h));
    StageEdges(p, tie, h + j, Shifted(e, h));
    ReachEdge(Stage(p, tie), h + j, Shifted(e, h));
  }

  /** A walk over cables is a walk over the joint graph. */
  lemma {:induction false} CableWalkIsJointWalk(p: Parts, tie: seq<nat>, j: nat, es: seq<Edge>, k: nat)
    requires p.Valid() && p.Ties(tie) && |tie| == |p.nodes| && Walk(p.cables, j, es, k)
    ensures k < |p.nodes| && Reach(Stage(p, tie), |p.hubs| + j, |p.hubs| + k)
    decreases |es|
  {
    var h := |p.hubs|;
    if es == [] {
      ReachRefl(Stage(p, tie), h + j);
    } else {
      CableEdgeIsJointEdge(p, tie, j, es[0]);
      CableWalkIsJointWalk(p, tie, es[0].to, es[1..], k);
      ReachTrans(Stage(p, tie), h + j, h + es[0].to, h + k);
    }
  }

  lemma TieIsLink(p: Parts, tie: seq<nat>, j: nat)
    requires p.Valid() && p.Ties(tie) && |tie| == |p.nodes| && j < |tie|
    ensures Reach(Stage(p, tie), tie[j], |p.hubs| + j) && Reach(Stage(p, tie), |p.hubs| + j, tie[j])
  {
    var h := |p.hubs|;
    var up, down := Edge(h + j, p.Backhaul(j, tie[j]), -1, false), Edge(tie[j], p.Backhaul(j, tie[j]), -1, false);
    assert TieEdge(p, tie, j, tie[j], up) && TieEdge(p, tie, j, h + j, down);
    StageEdges(p, tie, tie[j], up);
    StageEdges(p, tie, h + j, down);
    ReachEdge(Stage(p, tie), tie[j], up);
    ReachEdge(Stage(p, tie), h + j, down);
  }

  /** Hubs that serve as backhaul ends reach each other over the cables, even when no land
      route joins them. */
  lemma TiedHubsReachEachOther(p: Parts, tie: seq<nat>, j: nat, k: nat)
    requires p.Valid() && p.Ties(tie) && |tie| == |p.nodes| && j < |tie| && k < |tie| && Reach(p.cables, j, k)
    ensures Reach(Stage(p, tie), tie[j], tie[k])
  {
    var g, h := Stage(p, tie), |p.hubs|;
    var es :| Walk(p.cables, j, es, k);
    CableWalkIsJointWalk(p, tie, j, es, k);
    TieIsLink(p, tie, j);
    TieIsLink(p, tie, k);
    ReachTrans(g, tie[j], h + j, h + k);
    ReachTrans(g, tie[j], h + k, tie[k]);
  }
}
