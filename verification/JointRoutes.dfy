// Building the joint graph, and the route drawn over it.
module JointRoutes {
  import opened Options
  import opened Geometry
  import opened Graphs
  import opened ShortestPaths
  import opened CableGraph
  import opened JointGraph

  // ----- the polyline of a walk -----

  /** The points drawn for one edge, without the point where it arrives. */
  function Leg(coord: seq<LngLat>, branches: seq<Polyline>, u: nat, e: Edge): Polyline
    requires u < |coord| && e.branch < |branches| && (e.branch >= 0 ==> branches[e.branch] != [])
  {
    if e.branch >= 0 then
      var seg := if e.reversed then Reversed(branches[e.branch]) else branches[e.branch];
      seg[..|seg| - 1]
    else [coord[u]]
  }

  ghost predicate EdgePriced(km: Distance, coord: seq<LngLat>, branches: seq<Polyline>, tolerance: real, g: Graph) {
    && |g| == |coord|
    && forall u: nat, e: Edge {:trigger PricedBy(km, coord, branches, tolerance, u, e)} ::
         u < |g| && e in g[u] ==> PricedBy(km, coord, branches, tolerance, u, e)
  }

  ghost predicate CanDraw(coord: seq<LngLat>, branches: seq<Polyline>, es: seq<Edge>) {
    forall k :: 0 <= k < |es| ==>
      es[k].to < |coord| && es[k].branch < |branches| && (es[k].branch >= 0 ==> branches[es[k].branch] != [])
  }

  /** The drawn line of a walk from `u`: the legs one after another, then the final node. */
  ghost function Line(coord: seq<LngLat>, branches: seq<Polyline>, u: nat, es: seq<Edge>): (line: Polyline)
    requires u < |coord| && CanDraw(coord, branches, es)
    ensures line != []
    decreases |es|
  {
    if es == [] then [coord[u]] else
      Leg(coord, branches, u, es[0]) + Line(coord, branches, es[0].to, es[1..])
  }

  lemma {:induction false} WalkCanBeDrawn(km: Distance, coord: seq<LngLat>, branches: seq<Polyline>, g: Graph, tolerance: real, u: nat, es: seq<Edge>, v: nat)
    requires EdgePriced(km, coord, branches, tolerance, g) && Walk(g, u, es, v)
    ensures CanDraw(coord, branches, es)
    decreases |es|
  {
    if es != [] {
      assert PricedBy(km, coord, branches, tolerance, u, es[0]);
      WalkCanBeDrawn(km, coord, branches, g, tolerance, es[0].to, es[1..], v);
      forall k | 0 <= k < |es|
        ensures es[k].to < |coord| && es[k].branch < |branches| && (es[k].branch >= 0 ==> branches[es[k].branch] != [])
      {
        assert k > 0 ==> es[k] == es[1..][k - 1];
      }
    }
  }

  /** Replacing the end point of a line by a nearby point changes its length by no more
      than the slack between the two. */
  lemma LengthOfLeg(km: Distance, leg: Polyline, last: LngLat, tail: Polyline, slack: real)
    requires leg != [] && tail != [] && Alike(km, last, tail[0], leg[|leg| - 1], slack)
    ensures CloseTo(Length(km, leg + tail) - Length(km, tail), Length(km, leg + [last]), slack)
  {
    LengthSnoc(km, leg, last);
    LengthConcat(km, leg, tail);
  }

  /** One leg in front of a line that starts near the leg's arrival node. */
  lemma LegLength(km: Distance, coord: seq<LngLat>, branches: seq<Polyline>, tolerance: real, u: nat, e: Edge, tail: Polyline)
    requires IsMetric(km) && tolerance >= 0.0 && Steady(km, tolerance) && Steady(km, 2.0 * tolerance) && tail != []
    requires PricedBy(km, coord, branches, tolerance, u, e) && km(coord[e.to], tail[0]) <= tolerance
    ensures var all := Leg(coord, branches, u, e) + tail;
      && km(coord[u], all[0]) <= tolerance
      && CloseTo(Length(km, all) - Length(km, tail), e.w, 2.0 * tolerance)
  {
    if e.branch >= 0 {
      var line := branches[e.branch];
      var full := if e.reversed then Reversed(line) else line;
      LengthReversed(km, line);
      var end := full[|full| - 1];
      assert end == From(line, !e.reversed) && full[0] == From(line, e.reversed);
      var leg := full[..|full| - 1];
      assert full == leg + [end];
      assert Alike(km, coord[e.to], end, tail[0], tolerance);
      assert Alike(km, end, tail[0], leg[|leg| - 1], 2.0 * tolerance);
      LengthOfLeg(km, leg, end, tail, 2.0 * tolerance);
    } else {
      var all := [coord[u]] + tail;
      assert all[1..] == tail;
      assert Alike(km, coord[e.to], tail[0], coord[u], tolerance);
      assert km(coord[u], coord[u]) == 0.0;
    }
  }

  /** The drawn line starts within `tolerance` of `u`, ends at `v`, and is as long as the
      walk costs up to the slack. */
  ghost predicate Follows(km: Distance, coord: seq<LngLat>, tolerance: real, line: Polyline, u: nat, es: seq<Edge>, v: nat) {
    && line != [] && u < |coord| && v < |coord|
    && km(coord[u], line[0]) <= tolerance && line[|line| - 1] == coord[v]
    && CloseTo(Length(km, line), Cost(es), Slack(tolerance, |es|))
  }

  lemma FollowsStep(km: Distance, coord: seq<LngLat>, branches: seq<Polyline>, tolerance: real, u: nat, es: seq<Edge>, v: nat, tail: Polyline)
    requires IsMetric(km) && tolerance >= 0.0 && Steady(km, tolerance) && Steady(km, 2.0 * tolerance) && es != []
    requires PricedBy(km, coord, branches, tolerance, u, es[0]) && Follows(km, coord, tolerance, tail, es[0].to, es[1..], v)
    ensures Follows(km, coord, tolerance, Leg(coord, branches, u, es[0]) + tail, u, es, v)
  {
    LegLength(km, coord, branches, tolerance, u, es[0], tail);
  }

  /** Cost is geometry. When every cable ends within `tolerance` of its two nodes, the drawn
      line and the price of the walk differ by at most twice the tolerance per edge. */
  lemma {:induction false} LineLength(km: Distance, coord: seq<LngLat>, branches: seq<Polyline>, g: Graph, tolerance: real,
                                      u: nat, es: seq<Edge>, v: nat)
    requires IsMetric(km) && tolerance >= 0.0 && Steady(km, tolerance) && Steady(km, 2.0 * tolerance)
    requires EdgePriced(km, coord, branches, tolerance, g) && Walk(g, u, es, v)
    ensures CanDraw(coord, branches, es) && Follows(km, coord, tolerance, Line(coord, branches, u, es), u, es, v)
    decreases |es|
  {
    WalkCanBeDrawn(km, coord, branches, g, tolerance, u, es, v);
    if es == [] {
      assert km(coord[u], coord[u]) == 0.0;
    } else {
      assert PricedBy(km, coord, branches, tolerance, u, es[0]);
      LineLength(km, coord, branches, g, tolerance, es[0].to, es[1..], v);
      FollowsStep(km, coord, branches, tolerance, u, es, v, Line(coord, branches, es[0].to, es[1..]));
    }
  }

  /** Exact endpoints give an exact drawing: the polyline starts and ends at the route's
      nodes and is precisely as long as the route costs. */
  lemma ExactCablesDrawExactly(km: Distance, coord: seq<LngLat>, branches: seq<Polyline>, g: Graph, u: nat, es: seq<Edge>, v: nat)
    requires IsMetric(km) && EdgePriced(km, coord, branches, 0.0, g) && Walk(g, u, es, v)
    ensures u < |coord| && v < |coord| && CanDraw(coord, branches, es)
    ensures var line := Line(coord, branches, u, es);
      && Length(km, line) == Cost(es)
      && Place(line[0]) == Place(coord[u])
      && line[|line| - 1] == coord[v]
  {
    MetricIsSteady(km);
    LineLength(km, coord, branches, g, 0.0, u, es, v);
    SlackIsLinear(0.0, |es|);
    var line := Line(coord, branches, u, es);
    assert km(coord[u], line[0]) >= 0.0;
  }

  /** In the network as built, clustering moves cable ends by less than 60 km, so the drawn
      length and the search cost stay within 120 km per edge of each other. */
  lemma {:induction false} ClusteredCablesDrawClosely(p: Parts, tie: seq<nat>, u: nat, es: seq<Edge>, v: nat)
    requires p.Valid() && IsMetric(p.km) && Triangle(p.km) && p.Ties(tie)
    requires Walk(Stage(p, tie), u, es, v)
    ensures u < |p.Coord()| && CanDraw(p.Coord(), p.branches, es)
    ensures Follows(p.km, p.Coord(), 60.0, Line(p.Coord(), p.branches, u, es), u, es, v)
    ensures CloseTo(Length(p.km, Line(p.Coord(), p.branches, u, es)), Cost(es), 120.0 * |es| as real)
  {
    StageEdgesPriced(p, tie);
    TriangleIsSteady(p.km, 60.0);
    TriangleIsSteady(p.km, 120.0);
    LineLength(p.km, p.Coord(), p.branches, Stage(p, tie), 60.0, u, es, v);
    SlackIsLinear(60.0, |es|);
  }

  /** With both access legs the line gains their lengths, up to the distance of its first point
      from the entry node. */
  lemma WithAccessLegs(km: Distance, coord: seq<LngLat>, tolerance: real, line: Polyline, u: nat, es: seq<Edge>, v: nat, a: LngLat, b: LngLat)
    requires Follows(km, coord, tolerance, line, u, es, v) && Steady(km, tolerance)
    ensures CloseTo(Length(km, [a] + line + [b]), km(a, coord[u]) + Cost(es) + km(coord[v], b), Slack(tolerance, |es|) + tolerance)
  {
    LengthConcat(km, [a], line);
    LengthSnoc(km, [a] + line, b);
    assert Alike(km, coord[u], line[0], a, tolerance);
  }

  /** What a traveller is shown and what the search paid: equal when cables end at their nodes,
      within 120 km per edge and 60 km in any network as built. */
  lemma JointRouteLength(p: Parts, tie: seq<nat>, u: nat, es: seq<Edge>, v: nat, a: LngLat, b: LngLat)
    requires p.Valid() && IsMetric(p.km) && p.Ties(tie) && Walk(Stage(p, tie), u, es, v)
    ensures u < |p.Coord()| && v < |p.Coord()| && CanDraw(p.Coord(), p.branches, es)
    ensures var route, price := [a] + Line(p.Coord(), p.branches, u, es) + [b], p.km(a, p.Coord()[u]) + Cost(es) + p.km(p.Coord()[v], b);
      && (EdgePriced(p.km, p.Coord(), p.branches, 0.0, Stage(p, tie)) ==> Length(p.km, route) == price)
      && (Triangle(p.km) ==> CloseTo(Length(p.km, route), price, 120.0 * |es| as real + 60.0))
  {
    StageEdgesPriced(p, tie);
    WalkCanBeDrawn(p.km, p.Coord(), p.branches, Stage(p, tie), 60.0, u, es, v);
    WalkEnds(Stage(p, tie), u, es, v);
    var line := Line(p.Coord(), p.branches, u, es);
    if EdgePriced(p.km, p.Coord(), p.branches, 0.0, Stage(p, tie)) {
      MetricIsSteady(p.km);
      LineLength(p.km, p.Coord(), p.branches, Stage(p, tie), 0.0, u, es, v);
      WithAccessLegs(p.km, p.Coord(), 0.0, line, u, es, v, a, b);
      SlackIsLinear(0.0, |es|);
    }
    if Triangle(p.km) {
      ClusteredCablesDrawClosely(p, tie, u, es, v);
      TriangleIsSteady(p.km, 60.0);
      WithAccessLegs(p.km, p.Coord(), 60.0, line, u, es, v, a, b);
      SlackIsLinear(60.0, |es|);
    }
  }

  ghost predicate NoFartherThanLandings(p: Parts, a: LngLat, i: nat)
    requires i < |p.hubs|
  {
    forall j :: 0 <= j < |p.nodes| ==> p.km(p.hubs[i], a) <= p.km(p.nodes[j], a)
  }

  /** The entry is a hub exactly when some hub is no farther than every landing. */
  lemma EntryIsHubIff(p: Parts, a: LngLat, ia: nat)
    requires FirstNearest(p.km, p.Coord(), a, ia)
    ensures ia < |p.hubs| <==> exists i: nat :: i < |p.hubs| && NoFartherThanLandings(p, a, i)
  {
    var all, h := p.Coord(), |p.hubs|;
    assert forall j :: 0 <= j < |p.nodes| ==> all[h + j] == p.nodes[j];
    if ia < h {
      assert NoFartherThanLandings(p, a, ia);
    } else {
      forall i: nat | i < h
        ensures !NoFartherThanLandings(p, a, i)
      {
        assert p.km(all[i], a) > p.km(p.nodes[ia - h], a);
      }
    }
  }

  /** An inland hub with a landing on its coast. */
  function Coast(): Parts {
    Parts(Discrete, [LngLat(2.0, 48.0)], [[]], [LngLat(-4.0, 48.0)], [[]], [])
  }

  /** A route from the landing enters there, not at the only hub. */
  lemma EntryCanBeLanding()
    ensures Coast().Valid() && IsMetric(Coast().km)
    ensures FirstNearest(Coast().km, Coast().Coord(), LngLat(-4.0, 48.0), 1) && 1 >= |Coast().hubs|
  {
    DiscreteIsMetric();
    TurnsAre(176.0, 0);
    TurnsAre(182.0, 0);
  }

  lemma {:induction false} StageEdgesPriced(p: Parts, tie: seq<nat>)
    requires p.Valid() && IsMetric(p.km) && p.Ties(tie)
    ensures EdgePriced(p.km, p.Coord(), p.branches, 60.0, Stage(p, tie))
  {
    var g := Stage(p, tie);
    forall u: nat, e: Edge | u < |g| && e in g[u]
      ensures PricedBy(p.km, p.Coord(), p.branches, 60.0, u, e)
    {
      StageEdges(p, tie, u, e);
      StageIsPriced(p, tie, u, e);
    }
  }

  // ----- staging one landing -----

  lemma TieOneMore(p: Parts, before: seq<nat>, hub: nat)
    requires p.Valid() && p.Ties(before) && |before| < |p.nodes|
    requires FirstNearest(p.km, p.hubs, p.nodes[|before|], hub)
    ensures p.Ties(before + [hub]) && (before + [hub])[..|before|] == before
  {
    var after := before + [hub];
    forall k: nat | k < |after|
      ensures FirstNearest(p.km, p.hubs, p.nodes[k], after[k])
    {
      assert k < |before| ==> FirstNearest(p.km, p.hubs, p.nodes[k], before[k]);
    }
  }

  // ----- drawing the route from the predecessor columns -----

  /** The points put in front for one predecessor step. */
  method DrawLeg(coord: seq<LngLat>, branches: seq<Polyline>, from: nat, branch: int, rev: bool, ghost e: Edge) returns (leg: Polyline)
    requires from < |coord| && branch < |branches| && (branch >= 0 ==> branches[branch] != [])
    requires e.branch == branch && e.reversed == rev
    ensures leg == Leg(coord, branches, from, e)
  {
    if branch >= 0 {
      var seg := branches[branch];
      if rev {
        seg := Reversed(seg);
      }
      leg := seg[..|seg| - 1];
    } else {
      leg := [coord[from]];
    }
  }

  lemma LineCons(coord: seq<LngLat>, branches: seq<Polyline>, from: nat, e: Edge, rest: seq<Edge>)
    requires from < |coord| && CanDraw(coord, branches, [e]) && CanDraw(coord, branches, rest)
    requires e.to < |coord| && e.branch < |branches| && (e.branch >= 0 ==> branches[e.branch] != [])
    ensures CanDraw(coord, branches, [e] + rest)
    ensures Line(coord, branches, from, [e] + rest) == Leg(coord, branches, from, e) + Line(coord, branches, e.to, rest)
  {
    assert ([e] + rest)[1..] == rest;
  }

  /** The backward walk of `jointRoute`: legs are put in front until the start is reached. */
  method DrawBack(coord: seq<LngLat>, branches: seq<Polyline>, ghost g: Graph, ia: nat, ib: nat,
                  prevFrom: array<int>, prevBranch: array<int>, prevRev: array<bool>, ghost c: Columns, ghost trail: seq<Trail>)
    returns (out: Polyline)
    requires |coord| == |g| && Answers(g, ia, ib, c, trail) && c.dist[ib].Fin?
    requires c.from == prevFrom[..] && c.branch == prevBranch[..] && c.rev == prevRev[..]
    requires CanDraw(coord, branches, trail[ib].es)
    ensures out == Line(coord, branches, ia, trail[ib].es)
  {
    ghost var all := trail[ib].es;
    out := [coord[ib]];
    var cur: nat := ib;
    ghost var rest: seq<Edge> := [];
    assert all == all + rest;
    while prevFrom[cur] >= 0
      invariant cur < |g| && c.dist[cur].Fin? && trail[cur].start == ia && all == trail[cur].es + rest
      invariant CanDraw(coord, branches, rest) && out == Line(coord, branches, cur, rest)
      decreases |trail[cur].es|
    {
      ghost var last := StepBack(g, Single(|g|, ia), c, trail, cur, rest);
      assert last in all;
      var from: nat := prevFrom[cur];
      var leg := DrawLeg(coord, branches, from, prevBranch[cur], prevRev[cur], last);
      LineCons(coord, branches, from, last, rest);
      out, rest, cur := leg + out, [last] + rest, from;
    }
    NoStepBack(g, Single(|g|, ia), c, trail, cur);
    assert [] + rest == rest;
  }

  // ----- the joint network -----

  class JointNetwork {
    const p: Parts
    var jointAdj: Graph
    var built: bool
    ghost var tie: seq<nat>

    ghost predicate Usable()
      reads this
    {
      p.Valid() && IsMetric(p.km) && (built ==> p.hubs != [] && p.nodes != [] && p.Ties(tie) && |tie| == |p.nodes| && jointAdj == Stage(p, tie))
    }

    constructor (p: Parts)
      requires p.Valid() && IsMetric(p.km)
      ensures this.p == p && Usable() && !built
    {
      this.p := p;
      jointAdj, built, tie := [], false, [];
    }

    /** The land edges, copied row by row. */
    method CopyLand() returns (adj: Graph)
      requires p.Valid()
      ensures adj == Stage(p, [])
    {
      adj := [];
      var i := 0;
      while i < |p.hubs|
        invariant 0 <= i <= |p.hubs| == |p.land|
        invariant |adj| == i && forall x :: 0 <= x < i ==> adj[x] == OverlandRow(p.land[x])
      {
        adj := adj + [OverlandRow(p.land[i])];
        i := i + 1;
      }
      adj := adj + seq(|p.nodes|, _ => []);
    }

    /** One landing: its cable edges, then the backhaul to its nearest hub. */
    method AddLanding(adj0: Graph, ghost before: seq<nat>, j: nat) returns (adj: Graph, hub: nat)
      requires p.Valid() && p.hubs != [] && p.Ties(before) && |before| == j < |p.nodes| && adj0 == Stage(p, before)
      ensures p.Ties(before + [hub]) && adj == Stage(p, before + [hub])
    {
      var h := |p.hubs|;
      adj := adj0[h + j := adj0[h + j] + ShiftedRow(p.cables[j], h)];
      var best := Nearest(p.km, p.hubs, p.nodes[j]);
      hub := best;
      var bd := p.km(p.hubs[best], p.nodes[j]);
      adj := AddBoth(adj, h + j, Edge(best, bd, -1, false), best, Edge(h + j, bd, -1, false));
      TieOneMore(p, before, hub);
    }

    /** `buildJointGraph`, which keeps the graph it built once. */
    method EnsureBuilt() returns (ok: bool)
      requires Usable()
      modifies this
      ensures Usable() && ok == built && (ok <==> old(built) || (p.hubs != [] && p.nodes != []))
      ensures old(built) ==> jointAdj == old(jointAdj) && tie == old(tie)
    {
      if built {
        return true;
      }
      if p.hubs == [] || p.nodes == [] {
        return false;
      }
      var adj := CopyLand();
      ghost var ties: seq<nat> := [];
      var j := 0;
      while j < |p.nodes|
        invariant 0 <= j <= |p.nodes| && p.Ties(ties) && |ties| == j && adj == Stage(p, ties)
      {
        var hub;
        adj, hub := AddLanding(adj, ties, j);
        ties := ties + [hub];
        j := j + 1;
      }
      jointAdj, built, tie := adj, true, ties;
      return true;
    }

    /** `jointRoute`: the entry and exit are the joint nodes nearest to the end points, be
        they hubs or landings. */
    method JointRoute(a: LngLat, b: LngLat) returns (r: Option<Polyline>, ghost ia: nat, ghost ib: nat, ghost es: seq<Edge>)
      requires Usable()
      modifies this
      ensures Usable() && (built <==> old(built) || (p.hubs != [] && p.nodes != [])) && (r.Some? ==> built)
      ensures old(built) ==> jointAdj == old(jointAdj) && tie == old(tie)
      ensures built ==>
        && FirstNearest(p.km, p.Coord(), a, ia) && FirstNearest(p.km, p.Coord(), b, ib)
        && (r.Some? <==> Reach(jointAdj, ia, ib))
      ensures r.Some? ==>
        && Shortest(jointAdj, ia, es, ib) && CanDraw(p.Coord(), p.branches, es)
        && r.value == [a] + Line(p.Coord(), p.branches, ia, es) + [b]
      ensures r.Some? ==>
        var price := p.km(a, p.Coord()[ia]) + Cost(es) + p.km(p.Coord()[ib], b);
        && (EdgePriced(p.km, p.Coord(), p.branches, 0.0, jointAdj) ==> Length(p.km, r.value) == price)
        && (Triangle(p.km) ==> CloseTo(Length(p.km, r.value), price, 120.0 * |es| as real + 60.0))
    {
      r, ia, ib, es := None, 0, 0, [];
      var ok := EnsureBuilt();
      if !ok {
        return;
      }
      var i := Nearest(p.km, p.Coord(), a);
      var j := Nearest(p.km, p.Coord(), b);
      ia, ib := i, j;
      StageIsGood(p, tie);
      var dist, prevFrom, prevBranch, prevRev, c, trail := HeapSearch(jointAdj, i, j);
      assert dist[j] == c.dist[j];
      if dist[j].Inf? {
        return;
      }
      es := trail[j].es;
      JointRouteLength(p, tie, i, es, j, a, b);
      var out := DrawBack(p.Coord(), p.branches, jointAdj, i, j, prevFrom, prevBranch, prevRev, c, trail);
      r := Some([a] + out + [b]);
    }
  }
}
