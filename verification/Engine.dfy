// The two built graphs put together: when the land and cable network connects two places.
module Engine {
  import opened Geometry
  import opened Graphs
  import opened LandGraph
  import opened CableGraph
  import opened JointGraph

  /** What the two builders leave behind, a backbone built from its links and a symmetric
      cable network with sound edges, is a valid input of the joint graph. */
  lemma BuiltGraphsJoin(w: World, log: seq<Link>, nodes: seq<LngLat>, cables: Graph, branches: seq<Polyline>)
    requires LinksInRange(w, log) && IsMetric(w.km)
    requires EdgesOk(w.km, nodes, branches, cables) && Symmetric(cables)
    ensures Parts(w.km, w.hubs, Built(w, log), nodes, cables, branches).Valid()
  {
    var p := Parts(w.km, w.hubs, Built(w, log), nodes, cables, branches);
    BuiltEdges(w, log);
    BuiltIsGood(w, log);
    forall u: nat, e: Edge | u < |p.land| && e in p.land[u]
      ensures p.LandEdgeOk(u, e)
    {
      assert e == Hop(w, u, e.to);
    }
  }

  /** The node is a landing, or a hub whose land piece has a landing tied to it. */
  ghost predicate Landed(p: Parts, tie: seq<nat>, x: nat) {
    x >= |p.hubs| || exists j :: 0 <= j < |tie| && Reach(p.land, x, tie[j])
  }

  /** Every edge of the joint graph keeps both ends on the same side of that distinction,
      and an edge between unserved nodes is a land edge. */
  lemma EdgeKeepsService(p: Parts, tie: seq<nat>, u: nat, e: Edge)
    requires p.Valid() && p.Ties(tie) && |tie| == |p.nodes| && u < |p.hubs| + |p.nodes| && e in Stage(p, tie)[u]
    ensures Landed(p, tie, u) <==> Landed(p, tie, e.to)
    ensures !Landed(p, tie, u) ==> u < |p.land| && e in p.land[u]
  {
    StageEdges(p, tie, u, e);
    if FromLand(p, u, e) {
      assert p.LandEdgeOk(u, e);
      ReachEdge(p.land, u, e);
      ReachSymmetric(p.land, u, e.to);
      forall j | 0 <= j < |tie|
        ensures Reach(p.land, u, tie[j]) <==> Reach(p.land, e.to, tie[j])
      {
        if Reach(p.land, u, tie[j]) { ReachTrans(p.land, e.to, u, tie[j]); }
        if Reach(p.land, e.to, tie[j]) { ReachTrans(p.land, u, e.to, tie[j]); }
      }
    } else if FromBackhaul(p, tie, u, e) {
      var j: nat :| TieEdge(p, tie, j, u, e);
      ReachRefl(p.land, tie[j]);
    }
  }

  /** A walk from an unserved node never leaves its land piece. */
  lemma {:induction false} UnservedWalkIsLand(p: Parts, tie: seq<nat>, u: nat, es: seq<Edge>, v: nat)
    requires p.Valid() && p.Ties(tie) && |tie| == |p.nodes| && Walk(Stage(p, tie), u, es, v) && !Landed(p, tie, u)
    ensures Walk(p.land, u, es, v)
    decreases |es|
  {
    if es != [] {
      EdgeKeepsService(p, tie, u, es[0]);
      UnservedWalkIsLand(p, tie, es[0].to, es[1..], v);
    }
  }

  lemma {:induction false} WalkKeepsService(p: Parts, tie: seq<nat>, u: nat, es: seq<Edge>, v: nat)
    requires p.Valid() && p.Ties(tie) && |tie| == |p.nodes| && Walk(Stage(p, tie), u, es, v)
    ensures Landed(p, tie, u) <==> Landed(p, tie, v)
    decreases |es|
  {
    if es != [] {
      EdgeKeepsService(p, tie, u, es[0]);
      WalkKeepsService(p, tie, es[0].to, es[1..], v);
    }
  }

  /** Over a connected cable network, two hubs are joined exactly when land joins them or
      both of their land pieces have a landing tied in. */
  lemma JointConnectsExactly(p: Parts, tie: seq<nat>, u: nat, v: nat)
    requires p.Valid() && p.Ties(tie) && |tie| == |p.nodes| && u < |p.hubs| && v < |p.hubs|
    requires forall j, k :: 0 <= j < |p.nodes| && 0 <= k < |p.nodes| ==> Reach(p.cables, j, k)
    ensures Reach(Stage(p, tie), u, v) <==>
      Reach(p.land, u, v) || (Landed(p, tie, u) && Landed(p, tie, v))
  {
    var g := Stage(p, tie);
    LandIsWithin(p, tie);
    if Reach(g, u, v) {
      var es :| Walk(g, u, es, v);
      WalkKeepsService(p, tie, u, es, v);
      if !Landed(p, tie, u) {
        UnservedWalkIsLand(p, tie, u, es, v);
      }
    }
    if Reach(p.land, u, v) {
      ReachWithin(p.land, g, u, v);
    }
    if Landed(p, tie, u) && Landed(p, tie, v) {
      var j :| 0 <= j < |tie| && Reach(p.land, u, tie[j]);
      var k :| 0 <= k < |tie| && Reach(p.land, v, tie[k]);
      ReachSymmetric(p.land, v, tie[k]);
      ReachWithin(p.land, g, u, tie[j]);
      ReachWithin(p.land, g, tie[k], v);
      TiedHubsReachEachOther(p, tie, j, k);
      ReachTrans(g, u, tie[j], tie[k]);
      ReachTrans(g, u, tie[k], v);
    }
  }
}
