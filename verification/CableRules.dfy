// Which cables enter the network, where they land and where a route may board, written out on
// coordinates and kilometres.
module CableRules {
  import opened Geometry
  import opened Graphs
  import opened CableGrid
  import opened CableGraph
  import opened CablePlaces
  import opened CableWires
  import opened CableUnique
  import opened CableRoutes

  // ----- which segments are laid -----

  /** What normalisation makes of a longitude that is a whole turn too far west. */
  lemma FarWestStaysWest(x: real)
    requires x < -540.0
    ensures NormLon(x) <= -180.0
  {
    TurnsAre(-(x + 540.0), Turns(-(x + 540.0)));
  }

  /** A point is in the Arctic band exactly when it lies north of 69 degrees, or north of 60 and
      not between 60 degrees west and 30 degrees east. */
  lemma ArcticBand(c: LngLat)
    requires c.lon >= -540.0
    ensures ArcticTransit(c) <==> c.lat > 69.0 || (c.lat > 60.0 && (Place(c).lon < -60.0 || Place(c).lon > 30.0))
  {
    NormLonIsPlace(c);
  }

  /** No branch of the network has a point in the band, wherever its longitude lies. */
  lemma BranchesAvoidTheArctic(systems: seq<seq<Polyline>>, branch: Polyline, c: LngLat)
    requires branch in AllLaid(systems) && c in branch
    ensures |branch| >= 2 && c.lat <= 69.0 && (c.lat > 60.0 ==> -60.0 <= Place(c).lon <= 30.0)
    ensures exists segs :: segs in systems && branch in segs
  {
    LaidComeFrom(systems, branch);
    if c.lon >= -540.0 {
      ArcticBand(c);
    } else {
      FarWestStaysWest(c.lon);
    }
  }

  lemma {:induction false} LaidComeFrom(systems: seq<seq<Polyline>>, branch: Polyline)
    requires branch in AllLaid(systems)
    ensures Laid(branch) && exists segs :: segs in systems && branch in segs
  {
    var init, last := systems[..|systems| - 1], systems[|systems| - 1];
    if branch in LaidSegments(last) {
      SegmentComesFrom(last, branch);
      assert last in systems;
    } else {
      LaidComeFrom(init, branch);
      var segs :| segs in init && branch in segs;
      assert segs in systems;
    }
  }

  lemma {:induction false} SegmentComesFrom(segs: seq<Polyline>, branch: Polyline)
    requires branch in LaidSegments(segs)
    ensures Laid(branch) && branch in segs
  {
    if branch in LaidSegments(segs[..|segs| - 1]) {
      SegmentComesFrom(segs[..|segs| - 1], branch);
    }
  }

  /** The segments of two or more points that keep out of the band, in order. */
  function Wanted(segs: seq<Polyline>): seq<Polyline> {
    if segs == [] then [] else
      var seg := segs[|segs| - 1];
      Wanted(segs[..|segs| - 1]) +
      if |seg| >= 2 && (forall c :: c in seg ==> c.lat <= 60.0 || (c.lat <= 69.0 && -60.0 <= Place(c).lon <= 30.0)) then [seg] else []
  }

  function AllWanted(systems: seq<seq<Polyline>>): seq<Polyline> {
    if systems == [] then [] else AllWanted(systems[..|systems| - 1]) + Wanted(systems[|systems| - 1])
  }

  lemma {:induction false} SegmentsAreWanted(segs: seq<Polyline>)
    requires forall seg, c :: seg in segs && c in seg ==> c.lon >= -540.0
    ensures LaidSegments(segs) == Wanted(segs)
  {
    if segs != [] {
      SegmentsAreWanted(segs[..|segs| - 1]);
      var seg := segs[|segs| - 1];
      forall c | c in seg
        ensures ArcticTransit(c) <==> !(c.lat <= 60.0 || (c.lat <= 69.0 && -60.0 <= Place(c).lon <= 30.0))
      {
        ArcticBand(c);
      }
    }
  }

  /** The branches are exactly the wanted segments of all systems, in order. */
  lemma {:induction false} BranchesAreWanted(systems: seq<seq<Polyline>>)
    requires forall segs, seg, c :: segs in systems && seg in segs && c in seg ==> c.lon >= -540.0
    ensures AllLaid(systems) == AllWanted(systems)
  {
    if systems != [] {
      var init, last := systems[..|systems| - 1], systems[|systems| - 1];
      assert forall segs :: segs in init ==> segs in systems;
      BranchesAreWanted(init);
      assert last in systems;
      SegmentsAreWanted(last);
    }
  }

  // ----- where they land -----

  /** Node `i` lies in one of the nine one-degree cells around `p` and less than 60 km away. */
  ghost predicate Close(km: Distance, nodes: seq<LngLat>, p: LngLat, i: nat)
    requires i < |nodes|
  {
    && -1 <= nodes[i].lon.Floor - p.lon.Floor <= 1 && -1 <= nodes[i].lat.Floor - p.lat.Floor <= 1
    && km(nodes[i], p) < 60.0
  }

  /** End `t` of the cables is placed at the closest close node so far; if there is none, it
      becomes the next node. */
  lemma EndsLandAtCloseNodes(km: Distance, systems: seq<seq<Polyline>>, f: Finished, t: nat)
    requires f.NetworkOf(km, systems) && t < |f.home|
    requires forall l :: l in AllLaid(systems) ==> Stitched(l)
    ensures |Termini(AllLaid(systems))| == |f.home| && f.home[t] <= NodesUpTo(f.home, t) <= |f.nodes|
    ensures var p, n := Termini(AllLaid(systems))[t], NodesUpTo(f.home, t);
      && (f.home[t] < n <==> exists i: nat :: i < n && Close(km, f.nodes, p, i))
      && (f.home[t] < n ==> Close(km, f.nodes, p, f.home[t]))
      && (f.home[t] < n ==> forall i: nat :: i < n && Close(km, f.nodes, p, i) ==> km(f.nodes[f.home[t]], p) <= km(f.nodes[i], p))
      && (f.home[t] == n ==> n < |f.nodes| && f.nodes[n] == p)
  {
    var points := Termini(AllLaid(systems));
    TerminiAreNormal(AllLaid(systems));
    NodesAreHomes(km, f.nodes, points, f.home);
    assert PlacedAt(km, f.nodes, points, f.home, t);
    forall i: nat | i < |f.nodes|
      ensures Close(km, f.nodes, points[t], i) <==> Adjacent(f.nodes[i], points[t]) && km(f.nodes[i], points[t]) < 60.0
    {
      assert Norm(f.nodes[i]) == f.nodes[i];
    }
  }

  /** Both ends of every cable land less than 60 km from their node, and a cable between two nodes is
      an edge from the one to the other and back, as long as its polyline. */
  lemma CablesLandAndConnect(km: Distance, systems: seq<seq<Polyline>>, f: Finished, k: nat)
    requires f.NetworkOf(km, systems) && k < |AllLaid(systems)|
    ensures |f.home| == 2 * |AllLaid(systems)| && f.home[2 * k] < |f.nodes| && f.home[2 * k + 1] < |f.nodes|
    ensures var line, u, v, g := AllLaid(systems)[k], f.home[2 * k], f.home[2 * k + 1], Wired(|f.nodes|, f.Built(km, systems) + f.folds);
      && |line| >= 2 && km(f.nodes[u], line[0]) < 60.0 && km(f.nodes[v], line[|line| - 1]) < 60.0
      && (u != v ==> Edge(v, Length(km, line), k, false) in g[u] && Edge(u, Length(km, line), k, true) in g[v])
  {
    var laid := AllLaid(systems);
    assert EndsOf(km, f.nodes, laid, f.home, k);
    assert f.home[2 * k] in f.home && f.home[2 * k + 1] in f.home;
    var u, v, built := f.home[2 * k], f.home[2 * k + 1], f.Built(km, systems);
    if u != v {
      CableIsLogged(km, systems, laid, f.home, f.chords, |systems|, k);
      WireIsBothWays(|f.nodes|, built + f.folds, Wire(u, v, Length(km, laid[k]), k));
    }
  }

  lemma WireIsBothWays(n: nat, log: seq<Wire>, x: Wire)
    requires InRange(n, log) && x in log && x.a < n && x.b < n
    ensures There(x.b, x.w, x.branch) in Wired(n, log)[x.a] && Back(x.a, x.w, x.branch) in Wired(n, log)[x.b]
  {
    var i: nat :| i < |log| && log[i] == x;
    assert WireGives(log, i, x.a, There(x.b, x.w, x.branch)) && WireGives(log, i, x.b, Back(x.a, x.w, x.branch));
    WiredEdges(n, log, x.a, There(x.b, x.w, x.branch));
    WiredEdges(n, log, x.b, Back(x.a, x.w, x.branch));
  }

  // ----- where a route boards and leaves -----

  /** A cheapest route boards within 800 km of its start, or at the landing nearest to it when no
      landing is that close; it leaves likewise, counting only landings that it can reach. */
  lemma RouteBoardsNearby(km: Distance, nodes: seq<LngLat>, g: Graph, a: LngLat, b: LngLat, s: nat, es: seq<Edge>, e: nat)
    requires CheapestChoice(km, nodes, g, a, b, s, es, e)
    ensures s < |nodes| && e < |nodes|
    ensures km(nodes[s], a) <= 800.0
      || forall j: nat :: j < |nodes| ==> km(nodes[j], a) > 800.0 && km(nodes[s], a) <= km(nodes[j], a)
    ensures km(nodes[e], b) <= 800.0
      || ((forall j: nat :: j < |nodes| && Reach(g, s, j) ==> km(nodes[j], b) > 800.0)
          && forall j: nat :: j < |nodes| ==> km(nodes[e], b) <= km(nodes[j], b))
  {
    forall j: nat | j < |nodes| && Reach(g, s, j)
      ensures Reachable(km, nodes, g, a, j)
    {
    }
  }

  /** No way to board within 800 km of the start, ride any cables and leave within 800 km of the
      target costs less. */
  lemma RouteIsCheapest(km: Distance, nodes: seq<LngLat>, g: Graph, a: LngLat, b: LngLat, s: nat, es: seq<Edge>, e: nat,
                        s': nat, es': seq<Edge>, e': nat)
    requires CheapestChoice(km, nodes, g, a, b, s, es, e)
    requires s' < |nodes| && e' < |nodes| && Walk(g, s', es', e')
    requires km(nodes[s'], a) <= 800.0 && km(nodes[e'], b) <= 800.0
    ensures s < |nodes| && e < |nodes|
    ensures km(nodes[s], a) + Cost(es) + km(nodes[e], b) <= km(nodes[s'], a) + Cost(es') + km(nodes[e'], b)
  {
    assert Reach(g, s', e');
    assert Boards(km, nodes, a, s') && Reachable(km, nodes, g, a, e');
    assert NotUndercut(km, nodes, g, a, b, Total(km, nodes, a, s, es, e, b), s', es', e');
  }

  /** There is a route whenever some landing within 800 km of the start reaches one within 800 km
      of the target. */
  lemma NearbyLandingsRoute(km: Distance, nodes: seq<LngLat>, g: Graph, a: LngLat, b: LngLat, s: nat, e: nat)
    requires s < |nodes| && e < |nodes| && Reach(g, s, e) && km(nodes[s], a) <= 800.0 && km(nodes[e], b) <= 800.0
    ensures Routable(km, nodes, g, a, b)
  {
    assert Boards(km, nodes, a, s);
    assert Leaves(km, nodes, g, a, b, e);
  }
}
