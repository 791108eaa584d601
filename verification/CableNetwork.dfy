// The builder of the cable network, one cable system at a time.
module CableNetwork {
  import opened Geometry
  import opened Sequences
  import opened Graphs
  import opened UnionFinds
  import opened Cells
  import opened CableGrid
  import opened CableGraph
  import opened CableComponents
  import opened CableFold
  import opened CablePlaces
  import opened CableWires
  import opened CableUnique

  class Network {
    const km: Distance
    var nodeCoord: seq<LngLat>
    var graph: Graph
    var branches: seq<Polyline>
    var grid: Grid
    var inMain: seq<bool>
    ghost var met: seq<LngLat>  // every point looked up so far, normalised
    ghost var home: seq<nat>    // the node each of them was placed at
    ghost var log: seq<Wire>    // every edge added so far

    ghost predicate Inv()
      reads this
    {
      && Stored(nodeCoord)
      && GridOk(nodeCoord, grid)
      && EdgesOk(km, nodeCoord, branches, graph)
      && Symmetric(graph)
      && Placed(km, nodeCoord, met, home)
      && Drawn(|nodeCoord|, log, graph)
    }

    constructor (km: Distance)
      ensures this.km == km && Inv() && nodeCoord == [] && branches == [] && met == [] && home == [] && log == []
    {
      this.km := km;
      nodeCoord, graph, branches, grid, inMain, met, home, log := [], [], [], map[], [], [], [], [];
    }

    /** One cell of the 3x3 scan. */
    method ScanCell(q: LngLat, x: int, y: int, best0: int, bd0: real, ghost seen: seq<nat>) returns (best: int, bd: real)
      requires GridOk(nodeCoord, grid) && NearestOf(km, nodeCoord, seen, q, best0)
      requires bd0 == Limit(km, nodeCoord, q, best0)
      ensures NearestOf(km, nodeCoord, seen + Mates(grid, x, y), q, best)
      ensures bd == Limit(km, nodeCoord, q, best)
    {
      best, bd := best0, bd0;
      var ids := Mates(grid, x, y);
      assert ids != [] ==> CellOk(nodeCoord, grid, Cell(x, y));
      var k := 0;
      assert seen + ids[..0] == seen;
      while k < |ids|
        invariant 0 <= k <= |ids|
        invariant NearestOf(km, nodeCoord, seen + ids[..k], q, best)
        invariant bd == Limit(km, nodeCoord, q, best)
      {
        var id := ids[k];
        assert id in grid[Cell(x, y)];
        NearestOfSnoc(km, nodeCoord, seen + ids[..k], q, best, id);
        assert (seen + ids[..k]) + [id] == seen + ids[..k + 1];
        var d := km(nodeCoord[id], q);
        if d < bd {
          best, bd := id, d;
        }
        k := k + 1;
      }
      assert ids[..k] == ids;
    }

    /** One value of `dx` in the 3x3 scan. */
    method ScanColumn(q: LngLat, x: int, cy: int, best0: int, bd0: real, ghost seen: seq<nat>) returns (best: int, bd: real)
      requires GridOk(nodeCoord, grid) && NearestOf(km, nodeCoord, seen, q, best0)
      requires bd0 == Limit(km, nodeCoord, q, best0)
      ensures NearestOf(km, nodeCoord, seen + Column(grid, x, cy, 3), q, best)
      ensures bd == Limit(km, nodeCoord, q, best)
    {
      best, bd := best0, bd0;
      var dy := -1;
      ghost var column: seq<nat> := [];
      assert seen + column == seen;
      while dy <= 1
        invariant -1 <= dy <= 2 && column == Column(grid, x, cy, dy + 1)
        invariant NearestOf(km, nodeCoord, seen + column, q, best)
        invariant bd == Limit(km, nodeCoord, q, best)
      {
        best, bd := ScanCell(q, x, cy + dy, best, bd, seen + column);
        Assoc(seen, column, Mates(grid, x, cy + dy));
        column := column + Mates(grid, x, cy + dy);
        dy := dy + 1;
      }
    }

    /** The 3x3 scan of `findOrAdd`. */
    method Lookup(q: LngLat) returns (best: int)
      requires GridOk(nodeCoord, grid)
      ensures NearestOf(km, nodeCoord, Block(grid, q), q, best)
    {
      var cx, cy := q.lon.Floor, q.lat.Floor;
      var bd := CLUSTER_KM;
      best := -1;
      var dx := -1;
      while dx <= 1
        invariant -1 <= dx <= 2
        invariant NearestOf(km, nodeCoord, Columns(grid, cx, cy, dx + 1), q, best)
        invariant bd == Limit(km, nodeCoord, q, best)
      {
        best, bd := ScanColumn(q, cx + dx, cy, best, bd, Columns(grid, cx, cy, dx + 1));
        dx := dx + 1;
      }
    }

    /** `findOrAdd`: the nearest clustered node, or a new one. Either way the same point
        is looked up to the same node afterwards. */
    method FindOrAdd(p: LngLat) returns (id: nat)
      requires Inv() && IsMetric(km) && p.lon >= -540.0
      modifies this`nodeCoord, this`graph, this`grid, this`met, this`home
      ensures Inv() && id < |nodeCoord| && km(nodeCoord[id], p) < CLUSTER_KM && id <= |old(nodeCoord)|
      ensures NearestOf(km, nodeCoord, Block(grid, Norm(p)), Norm(p), id)
      ensures NearestOf(km, old(nodeCoord), Block(old(grid), Norm(p)), Norm(p), if id < |old(nodeCoord)| then id else -1)
      ensures nodeCoord == if id < |old(nodeCoord)| then old(nodeCoord) else old(nodeCoord) + [Norm(p)]
      ensures graph == if id < |old(nodeCoord)| then old(graph) else old(graph) + [[]]
      ensures id < |old(nodeCoord)| ==> grid == old(grid)
      ensures met == old(met) + [Norm(p)] && home == old(home) + [id]
      ensures LinearAnswer(km, old(nodeCoord), Norm(p), if id < |old(nodeCoord)| then id else -1)
        <==> BlockCovers(km, old(nodeCoord), Norm(p))
    {
      var q := Norm(p);
      NormFacts(p);
      var best := Lookup(q);
      GridScanIsLinearIff(km, nodeCoord, grid, q, best);
      if best >= 0 {
        ScanPlaces(km, nodeCoord, grid, q, best);
        PlaceNext(km, nodeCoord, met, home, q, best, nodeCoord);
        met, home := met + [q], home + [best];
        return best;
      }
      id := NewNode(p);
    }

    /** A node of its own for a point whose block holds none. */
    method NewNode(p: LngLat) returns (id: nat)
      requires Inv() && IsMetric(km) && p.lon >= -540.0
      requires NearestOf(km, nodeCoord, Block(grid, Norm(p)), Norm(p), -1)
      modifies this`nodeCoord, this`graph, this`grid, this`met, this`home
      ensures Inv() && id == |old(nodeCoord)|
      ensures NearestOf(km, nodeCoord, Block(grid, Norm(p)), Norm(p), id)
      ensures nodeCoord == old(nodeCoord) + [Norm(p)] && graph == old(graph) + [[]]
      ensures met == old(met) + [Norm(p)] && home == old(home) + [id]
    {
      var q := Norm(p);
      id := |nodeCoord|;
      NewNodeIsFound(km, nodeCoord, grid, p);
      ScanPlaces(km, nodeCoord, grid, q, -1);
      PlaceNext(km, nodeCoord, met, home, q, id, nodeCoord + [q]);
      NodeAdded(km, nodeCoord, branches, graph, log, q);
      nodeCoord := nodeCoord + [q];
      graph := graph + [[]];
      grid := FileUnder(grid, CellKey(q), id);
      met, home := met + [q], home + [id];
    }

    /** `addEdge`: self-loops and empty lengths are dropped. */
    method AddEdge(a: nat, b: nat, w: real, branch: int)
      requires Inv() && IsMetric(km) && a < |graph| && b < |graph|
      requires a != b && w > 0.0 ==> EdgeOk(km, nodeCoord, branches, a, There(b, w, branch))
      modifies this`graph, this`log
      ensures Inv() && log == old(log) + if a == b || w <= 0.0 then [] else [Wire(a, b, w, branch)]
      ensures graph == if a == b || w <= 0.0 then old(graph)
                       else AddBoth(old(graph), a, There(b, w, branch), b, Back(a, w, branch))
    {
      if a == b || w <= 0.0 {
        return;
      }
      AddKeepsEdgesOk(km, nodeCoord, branches, graph, a, b, w, branch);
      AddBothSymmetric(graph, a, There(b, w, branch), b, Back(a, w, branch));
      WiredSnoc(|nodeCoord|, log, Wire(a, b, w, branch));
      log := log + [Wire(a, b, w, branch)];
      graph := AddBoth(graph, a, Edge(b, w, branch, false), b, Edge(a, w, branch, true));
    }

    // ----- one cable system -----

    /** The graph, the forest and their agreement between two steps of the build. */
    ghost predicate InStep(uf: UnionFind)
      reads this, uf
    {
      Inv() && uf.Valid() && |uf.parent| == |nodeCoord| && Agrees(uf.root, graph)
    }

    /** `findOrAdd` as the segment loop uses it. */
    method FindEnd(p: LngLat) returns (id: nat)
      requires Inv() && IsMetric(km) && p.lon >= -540.0
      modifies this`nodeCoord, this`graph, this`grid, this`met, this`home
      ensures Inv() && id < |nodeCoord| && km(nodeCoord[id], p) < CLUSTER_KM
      ensures Found(km, old(nodeCoord), old(grid), p, id) && Found(km, nodeCoord, grid, p, id)
      ensures GrownTo(old(nodeCoord), old(graph), nodeCoord, graph, id)
      ensures met == old(met) + [Norm(p)] && home == old(home) + [id]
    {
      id := FindOrAdd(p);
    }

    /** `findOrAdd` for both ends of a segment. One place is never clustered to two nodes. */
    method FindEnds(p: LngLat, q: LngLat) returns (ia: nat, ib: nat)
      requires Inv() && IsMetric(km) && p.lon >= -540.0 && q.lon >= -540.0
      modifies this`nodeCoord, this`graph, this`grid, this`met, this`home
      ensures Inv() && ia < |nodeCoord| && ib < |nodeCoord|
      ensures km(nodeCoord[ia], p) < CLUSTER_KM && km(nodeCoord[ib], q) < CLUSTER_KM
      ensures Place(p) == Place(q) ==> ia == ib
      ensures GrownTo(old(nodeCoord), old(graph), nodeCoord, graph, if ia < ib then ib else ia)
      ensures met == old(met) + [Norm(p), Norm(q)] && home == old(home) + [ia, ib]
    {
      ia := FindEnd(p);
      ghost var nodes1, graph1, grid1 := nodeCoord, graph, grid;
      ib := FindEnd(q);
      GrownTwice(old(nodeCoord), old(graph), nodes1, graph1, ia, nodeCoord, graph, ib);
      if Place(p) == Place(q) {
        PlaceIsClusteredOnce(km, nodes1, grid1, p, q, ia, ib);
      }
    }

    /** Both ends of a segment, and room for them in the forest. */
    method PlaceEnds(uf: UnionFind, p: LngLat, q: LngLat) returns (ia: nat, ib: nat)
      requires InStep(uf) && IsMetric(km) && p.lon >= -540.0 && q.lon >= -540.0
      modifies this`nodeCoord, this`graph, this`grid, this`met, this`home, uf
      ensures InStep(uf) && ia < |nodeCoord| && ib < |nodeCoord|
      ensures km(nodeCoord[ia], p) < CLUSTER_KM && km(nodeCoord[ib], q) < CLUSTER_KM
      ensures Place(p) == Place(q) ==> ia == ib
      ensures old(nodeCoord) <= nodeCoord && old(uf.root) <= uf.root
      ensures met == old(met) + [Norm(p), Norm(q)] && home == old(home) + [ia, ib]
    {
      ghost var g0, root0 := graph, uf.root;
      RootsInRange(uf.parent, uf.root, uf.depth);
      ia, ib := FindEnds(p, q);
      uf.Ensure(ia);
      uf.Ensure(ib);
      GrowthKeepsAgreement(root0, g0, uf.root, graph);
    }

    /** A real segment: both ends are clustered, the cable is laid between them, and they
        become one class. */
    method LaySegment(uf: UnionFind, seg: Polyline) returns (ia: nat, ib: nat)
      requires InStep(uf) && IsMetric(km) && Stitched(seg) && |seg| >= 2 && |home| == 2 * |branches|
      modifies this`nodeCoord, this`graph, this`grid, this`branches, this`met, this`home, this`log, uf
      ensures InStep(uf) && branches == old(branches) + [seg]
      ensures ia < |nodeCoord| && ib < |nodeCoord| && uf.root[ia] == uf.root[ib]
      ensures km(nodeCoord[ia], seg[0]) < CLUSTER_KM && km(nodeCoord[ib], seg[|seg| - 1]) < CLUSTER_KM
      ensures old(nodeCoord) <= nodeCoord && met == old(met) + EndPair(seg) && home == old(home) + [ia, ib]
      ensures log == old(log) + CableWire(km, branches, home, |old(branches)|)
      ensures ia != ib ==> There(ib, Length(km, seg), |old(branches)|) in graph[ia]
    {
      ia, ib := PlaceEnds(uf, seg[0], seg[|seg| - 1]);
      var bi := |branches|;
      GrowthKeepsEdgesOk(km, nodeCoord, branches, graph, nodeCoord, branches + [seg], graph);
      branches := branches + [seg];
      var w := PathLength(km, seg);
      LengthNonNegative(km, seg);
      if ia != ib && w == 0.0 {
        ZeroLengthStaysPut(km, seg);
        assert false;
      }
      ghost var g0 := graph;
      AddEdge(ia, ib, w, bi);
      JoinAfterAdd(uf.root, g0, graph, ia, There(ib, w, bi), ib, Back(ia, w, bi));
      uf.Union(ia, ib);
    }

    /** One pair of the bridging loop: a chord is added exactly when the two landings are
        not connected yet. */
    method Bridge(uf: UnionFind, a: nat, b: nat)
      requires InStep(uf) && IsMetric(km) && a < |nodeCoord| && b < |nodeCoord|
      modifies this`graph, this`log, uf
      ensures InStep(uf) && uf.root[a] == uf.root[b] && Coarsens(old(uf.root), uf.root)
      ensures log == old(log) + Chord(km, nodeCoord, old(log), a, b)
      ensures var w := km(nodeCoord[a], nodeCoord[b]);
        graph == if old(Reach(graph, a, b)) then old(graph) else AddBoth(old(graph), a, There(b, w, -1), b, Back(a, w, -1))
    {
      ClassIsReach(uf.root, graph, a, b);
      var ra := uf.Find(a);
      var rb := uf.Find(b);
      JoinedCoarsens(uf.root, a, b);
      if ra == rb {
        return;
      }
      var w := km(nodeCoord[a], nodeCoord[b]);
      StoredNodesAreApart(km, nodeCoord, a, b);
      ghost var g0 := graph;
      AddEdge(a, b, w, -1);
      JoinAfterAdd(uf.root, g0, graph, a, There(b, w, -1), b, Back(a, w, -1));
      uf.Union(a, b);
    }

    /** The network is `log0` with `bs0` and `home0`, and the laid segments `laid` on top. */
    ghost predicate LaidSo(log0: seq<Wire>, bs0: seq<Polyline>, met0: seq<LngLat>, home0: seq<nat>, laid: seq<Polyline>, landings: seq<nat>)
      reads this
    {
      && branches == bs0 + laid && met == met0 + Termini(laid) && home == home0 + landings
      && |home| == 2 * |branches| && LandingsOf(km, nodeCoord, laid, landings)
      && log == log0 + Cables(km, branches, home, |bs0|, |branches|)
    }

    /** One turn of the segment loop. */
    method LayNext(uf: UnionFind, seg: Polyline, ghost log0: seq<Wire>, ghost bs0: seq<Polyline>, ghost met0: seq<LngLat>,
                   ghost home0: seq<nat>, ghost laid: seq<Polyline>, landings0: seq<nat>) returns (landings: seq<nat>)
      requires InStep(uf) && IsMetric(km) && Stitched(seg) && LaidSo(log0, bs0, met0, home0, laid, landings0)
      modifies this`nodeCoord, this`graph, this`grid, this`branches, this`met, this`home, this`log, uf
      ensures InStep(uf) && old(nodeCoord) <= nodeCoord
      ensures LaidSo(log0, bs0, met0, home0, laid + if Laid(seg) then [seg] else [], landings)
    {
      landings := landings0;
      if |seg| >= 2 && !CrossesArctic(seg) {
        ghost var nodes, bs, hs := nodeCoord, branches, home;
        var ia, ib := LaySegment(uf, seg);
        landings := landings0 + [ia, ib];
        CablesGrow(km, bs, hs, branches, home, |bs0|, |bs|);
        Assoc(log0, Cables(km, bs, hs, |bs0|, |bs|), CableWire(km, branches, home, |bs|));
        Assoc(home0, landings0, [ia, ib]);
        LandingsSnoc(km, nodes, laid, landings0, nodeCoord, seg, ia, ib);
        Assoc(bs0, laid, [seg]);
        TerminiSnoc(laid, seg);
        Assoc(met0, Termini(laid), EndPair(seg));
      } else {
        assert laid + [] == laid;
      }
    }

    /** The segment loop of one system. */
    method LaySegments(uf: UnionFind, segs: seq<Polyline>) returns (landings: seq<nat>)
      requires InStep(uf) && IsMetric(km) && |home| == 2 * |branches| && forall seg :: seg in segs ==> Stitched(seg)
      modifies this`nodeCoord, this`graph, this`grid, this`branches, this`met, this`home, this`log, uf
      ensures InStep(uf) && old(nodeCoord) <= nodeCoord
      ensures LaidSo(old(log), old(branches), old(met), old(home), LaidSegments(segs), landings)
    {
      landings := [];
      var k := 0;
      while k < |segs|
        invariant 0 <= k <= |segs| && InStep(uf) && old(nodeCoord) <= nodeCoord
        invariant LaidSo(old(log), old(branches), old(met), old(home), LaidSegments(segs[..k]), landings)
      {
        LaidSnoc(segs, k);
        landings := LayNext(uf, segs[k], old(log), old(branches), old(met), old(home), LaidSegments(segs[..k]), landings);
        k := k + 1;
      }
      assert segs[..k] == segs;
    }

    /** One pair, and what it does to the classes. */
    method BridgePair(uf: UnionFind, uniq: seq<nat>, i: nat, j: nat, ghost root0: seq<nat>)
      requires InStep(uf) && IsMetric(km) && i < j < |uniq| && uniq[i] < |nodeCoord| && uniq[j] < |nodeCoord|
      requires Coarsens(root0, uf.root) && SameClass(uf.root, uniq, i, j)
      modifies this`graph, this`log, uf
      ensures InStep(uf) && Coarsens(root0, uf.root) && Coarsens(old(uf.root), uf.root) && SameClass(uf.root, uniq, i, j + 1)
      ensures log == old(log) + Chord(km, nodeCoord, old(log), uniq[i], uniq[j])
    {
      ghost var root := uf.root;
      Bridge(uf, uniq[i], uniq[j]);
      ClassGains(root0, root, uf.root, uniq, i, j);
    }

    /** One pair of the inner bridging loop. Only the first landing is ever given a chord. */
    method BridgeNext(uf: UnionFind, uniq: seq<nat>, i: nat, j: nat, ghost root0: seq<nat>,
                      ghost log0: seq<Wire>, ghost chords0: seq<Wire>) returns (ghost chords: seq<Wire>)
      requires InStep(uf) && IsMetric(km) && i < j < |uniq| && uniq[i] < |nodeCoord| && uniq[j] < |nodeCoord|
      requires Coarsens(root0, uf.root) && SameClass(uf.root, uniq, i, j)
      requires log == log0 + chords0 && ChordsOk(km, nodeCoord, log0, chords0, uniq)
      requires i == 0 || SameClass(uf.root, uniq, 0, |uniq|)
      modifies this`graph, this`log, uf
      ensures InStep(uf) && Coarsens(root0, uf.root) && SameClass(uf.root, uniq, i, j + 1)
      ensures i == 0 || SameClass(uf.root, uniq, 0, |uniq|)
      ensures log == log0 + chords && ChordsOk(km, nodeCoord, log0, chords, uniq)
    {
      ghost var (root, g) := (uf.root, graph);
      BridgePair(uf, uniq, i, j, root0);
      chords := chords0;
      if i == 0 {
        ClassIsConnected(root, g, uniq, 0, j);
        ChordsNext(km, nodeCoord, log0, chords0, uniq, j);
        chords := chords0 + Chord(km, nodeCoord, old(log), uniq[i], uniq[j]);
      } else {
        OneClassAlready(root, g, uniq, i, j, uf.root);
      }
    }

    /** The inner bridging loop: landing `i` against the later ones. */
    method BridgeFrom(uf: UnionFind, uniq: seq<nat>, i: nat, ghost log0: seq<Wire>, ghost chords0: seq<Wire>) returns (ghost chords: seq<Wire>)
      requires InStep(uf) && IsMetric(km) && i < |uniq| && forall k :: 0 <= k < |uniq| ==> uniq[k] < |nodeCoord|
      requires log == log0 + chords0 && ChordsOk(km, nodeCoord, log0, chords0, uniq)
      requires i == 0 || SameClass(uf.root, uniq, 0, |uniq|)
      modifies this`graph, this`log, uf
      ensures InStep(uf) && Coarsens(old(uf.root), uf.root) && SameClass(uf.root, uniq, i, |uniq|)
      ensures i == 0 || SameClass(uf.root, uniq, 0, |uniq|)
      ensures log == log0 + chords && ChordsOk(km, nodeCoord, log0, chords, uniq)
    {
      chords := chords0;
      var j := i + 1;
      while j < |uniq|
        invariant i < j <= |uniq| && InStep(uf) && Coarsens(old(uf.root), uf.root)
        invariant SameClass(uf.root, uniq, i, j) && (i == 0 || SameClass(uf.root, uniq, 0, |uniq|))
        invariant log == log0 + chords && ChordsOk(km, nodeCoord, log0, chords, uniq)
      {
        chords := BridgeNext(uf, uniq, i, j, old(uf.root), log0, chords);
        j := j + 1;
      }
    }

    /** The bridging loop: afterwards all landings of the system are connected, and every chord
        was needed. */
    method BridgeAll(uf: UnionFind, uniq: seq<nat>) returns (ghost chords: seq<Wire>)
      requires InStep(uf) && IsMetric(km) && forall k :: 0 <= k < |uniq| ==> uniq[k] < |nodeCoord|
      modifies this`graph, this`log, uf
      ensures InStep(uf) && (uniq == [] || SameClass(uf.root, uniq, 0, |uniq|))
      ensures log == old(log) + chords && ChordsOk(km, nodeCoord, old(log), chords, uniq)
    {
      chords := [];
      var i := 0;
      while i < |uniq|
        invariant 0 <= i <= |uniq| && InStep(uf)
        invariant i > 0 ==> SameClass(uf.root, uniq, 0, |uniq|)
        invariant log == old(log) + chords && ChordsOk(km, nodeCoord, old(log), chords, uniq)
      {
        chords := BridgeFrom(uf, uniq, i, old(log), chords);
        i := i + 1;
      }
    }

    /** One cable system: its laid segments enter the graph, and every two of its landings
        end up connected, by chords that were all needed. */
    method AddSystem(uf: UnionFind, segs: seq<Polyline>) returns (ghost landings: seq<nat>, ghost chords: seq<Wire>)
      requires InStep(uf) && IsMetric(km) && |home| == 2 * |branches| && forall seg :: seg in segs ==> Stitched(seg)
      modifies this`nodeCoord, this`graph, this`grid, this`branches, this`met, this`home, this`log, uf
      ensures InStep(uf) && branches == old(branches) + LaidSegments(segs)
      ensures met == old(met) + Termini(LaidSegments(segs)) && home == old(home) + landings && |home| == 2 * |branches|
      ensures old(nodeCoord) <= nodeCoord && Within(old(graph), graph)
      ensures LandingsOf(km, nodeCoord, LaidSegments(segs), landings)
      ensures log == old(log) + Cables(km, branches, home, |old(branches)|, |branches|) + chords
      ensures ChordsOk(km, nodeCoord, old(log) + Cables(km, branches, home, |old(branches)|, |branches|), chords, landings)
      ensures forall x, y :: x in landings && y in landings ==> Reach(graph, x, y)
    {
      var ids := LaySegments(uf, segs);
      var uniq := Distinct(ids);
      forall k | 0 <= k < |uniq|
        ensures uniq[k] < |nodeCoord|
      {
        assert uniq[k] in ids;
      }
      ghost var cabled := log;
      chords := BridgeAll(uf, uniq);
      OneClassIsConnected(uf.root, graph, ids);
      landings := ids;
      SameLandings(km, nodeCoord, cabled, chords, ids);
      Assoc(old(log), Cables(km, branches, home, |old(branches)|, |branches|), chords);
      HistoryGrows(|old(nodeCoord)|, old(log), old(graph), |nodeCoord|, Cables(km, branches, home, |old(branches)|, |branches|) + chords, graph);
    }

    // ----- folding components -----

    /** Fold component `k` into the main one over its closest pair of nodes. */
    method FoldOne(compOf: array<int>, main: nat, k: nat, ghost comp: seq<int>, ghost seeds: seq<nat>, ghost hub: nat)
      returns (ghost f: Wire)
      requires Inv() && IsMetric(km) && k < |nodeCoord| && k != main
      requires |comp| == |nodeCoord| && compOf[..] == Folded(comp, main, k)
      requires forall v :: 0 <= v < |comp| ==> 0 <= comp[v] <= v
      requires k in comp && main in comp
      requires AllJoined(graph, comp, seeds, compOf[..], main, hub)
      modifies this`graph, this`log, compOf
      ensures Inv() && compOf[..] == Folded(comp, main, k + 1)
      ensures AllJoined(graph, comp, seeds, compOf[..], main, hub)
      ensures log == old(log) + [f] && FoldOk(km, nodeCoord, comp, main, k, f)
    {
      ghost var (cur, g0) := (compOf[..], graph);
      var members := MembersOf(compOf, k);
      FoldHasBothSides(comp, main, k, members);
      var a, b := NearestPair(km, nodeCoord, members, compOf, main);
      f := Wire(0, 0, 0.0, -1);
      if a >= 0 {
        var d := km(nodeCoord[a], nodeCoord[b]);
        assert cur[a] == k;
        StoredNodesAreApart(km, nodeCoord, a, b);
        AddEdge(a, b, d, -1);
        f := Wire(a, b, d, -1);
        Relabel(compOf, members, k, main);
        StrayWriteIsHarmless(comp, main, k, members, compOf[..]);
        FoldJoins(g0, comp, seeds, cur, compOf[..], main, hub, k, a, b, d);
      }
    }

    /** The component stage: label, pick the largest, fold all others into it. */
    method FoldAll() returns (ghost comp: seq<int>, ghost seeds: seq<nat>, ghost main: nat, ghost folds: seq<Wire>)
      requires Inv() && IsMetric(km)
      modifies this`graph, this`log
      ensures Inv() && AllReachable() && Within(old(graph), graph)
      ensures log == old(log) + folds && FoldedBy(km, nodeCoord, old(graph), comp, seeds, main, folds)
    {
      EdgesOkWellFormed(km, nodeCoord, branches, graph);
      var compOf, compSize;
      compOf, compSize, seeds := LabelComponents(graph);
      comp, main, folds := compOf[..], 0, [];
      if nodeCoord == [] {
        return;
      }
      assert LabelOk(graph, comp, seeds, 0);
      var largest := Largest(compSize);
      main := largest;
      FoldStarts(graph, comp, seeds, main);
      SeedsBoundNodes(graph, comp, seeds);
      folds := FoldComponents(compOf, largest, |compSize|, comp, seeds);
      HistoryGrows(|nodeCoord|, old(log), old(graph), |nodeCoord|, folds, graph);
      FoldEnds(graph, comp, seeds, compOf[..], main, seeds[main]);
    }

    /** Every component but the main one is folded, in order of its id. */
    method FoldComponents(compOf: array<int>, main: nat, n: nat, ghost comp: seq<int>, ghost seeds: seq<nat>)
      returns (ghost folds: seq<Wire>)
      requires Inv() && IsMetric(km) && main < n == |seeds| <= |nodeCoord| == |comp|
      requires forall v :: 0 <= v < |comp| ==> 0 <= comp[v] <= v
      requires forall c :: 0 <= c < n ==> c in comp
      requires compOf[..] == Folded(comp, main, 0) && AllJoined(graph, comp, seeds, compOf[..], main, seeds[main])
      modifies this`graph, this`log, compOf
      ensures Inv() && log == old(log) + folds && FoldsUpTo(km, nodeCoord, comp, main, n, folds)
      ensures compOf[..] == Folded(comp, main, n) && AllJoined(graph, comp, seeds, compOf[..], main, seeds[main])
    {
      folds := [];
      var k := 0;
      while k < n
        invariant 0 <= k <= n && Inv() && log == old(log) + folds && FoldsUpTo(km, nodeCoord, comp, main, k, folds)
        invariant compOf[..] == Folded(comp, main, k) && AllJoined(graph, comp, seeds, compOf[..], main, seeds[main])
      {
        folds := FoldNext(compOf, main, k, comp, seeds, old(log), folds);
        k := k + 1;
      }
    }

    /** One turn of that loop: the main component is passed over. */
    method FoldNext(compOf: array<int>, main: nat, k: nat, ghost comp: seq<int>, ghost seeds: seq<nat>,
                    ghost log0: seq<Wire>, ghost folds0: seq<Wire>) returns (ghost folds: seq<Wire>)
      requires Inv() && IsMetric(km) && k < |nodeCoord| == |comp| && main < |seeds|
      requires forall v :: 0 <= v < |comp| ==> 0 <= comp[v] <= v
      requires k in comp && main in comp
      requires compOf[..] == Folded(comp, main, k) && AllJoined(graph, comp, seeds, compOf[..], main, seeds[main])
      requires log == log0 + folds0 && FoldsUpTo(km, nodeCoord, comp, main, k, folds0)
      modifies this`graph, this`log, compOf
      ensures Inv() && log == log0 + folds && FoldsUpTo(km, nodeCoord, comp, main, k + 1, folds)
      ensures compOf[..] == Folded(comp, main, k + 1) && AllJoined(graph, comp, seeds, compOf[..], main, seeds[main])
    {
      folds := folds0;
      if k != main {
        ghost var f := FoldOne(compOf, main, k, comp, seeds, seeds[main]);
        FoldsSnoc(km, nodeCoord, comp, main, k, folds0, f);
        Assoc(log0, folds0, [f]);
        folds := folds0 + [f];
      }
    }

    ghost predicate AllReachable()
      reads this
    {
      forall u, v :: 0 <= u < |graph| && 0 <= v < |graph| ==> Reach(graph, u, v)
    }

    /** The network so far is that of the first `k` systems. */
    ghost predicate HasSystems(systems: seq<seq<Polyline>>, chords: seq<seq<Wire>>, k: nat)
      reads this
    {
      && k <= |systems|
      && branches == AllLaid(systems[..k]) && met == Termini(branches)
      && LandingsOf(km, nodeCoord, branches, home)
      && SystemsOk(km, nodeCoord, systems, branches, home, chords, k)
      && log == SystemLog(km, systems, branches, home, chords, k)
    }

    /** One turn of the loop over the systems. */
    method AddNext(uf: UnionFind, systems: seq<seq<Polyline>>, k: nat, ghost chords0: seq<seq<Wire>>) returns (ghost chords: seq<seq<Wire>>)
      requires k < |systems| && InStep(uf) && IsMetric(km) && HasSystems(systems, chords0, k)
      requires forall seg :: seg in systems[k] ==> Stitched(seg)
      modifies this`nodeCoord, this`graph, this`grid, this`branches, this`met, this`home, this`log, uf
      ensures InStep(uf) && HasSystems(systems, chords, k + 1)
    {
      ghost var nodes, laid, homes := nodeCoord, branches, home;
      ghost var landings, more := AddSystem(uf, systems[k]);
      AllLaidSnoc(systems, k);
      TerminiConcat(laid, LaidSegments(systems[k]));
      LandingsConcat(km, nodes, laid, homes, nodeCoord, LaidSegments(systems[k]), landings);
      assert home[|homes|..] == landings;
      SystemsSnoc(km, nodes, systems, laid, homes, chords0, k, nodeCoord, branches, home, more);
      chords := chords0 + [more];
    }

    /** The loop over all cable systems, before the fold. */
    method AddSystems(uf: UnionFind, systems: seq<seq<Polyline>>) returns (ghost chords: seq<seq<Wire>>)
      requires InStep(uf) && branches == [] && met == [] && home == [] && log == []
      requires IsMetric(km) && forall segs, seg :: segs in systems && seg in segs ==> Stitched(seg)
      modifies this`nodeCoord, this`graph, this`grid, this`branches, this`met, this`home, this`log, uf
      ensures InStep(uf) && HasSystems(systems, chords, |systems|)
    {
      chords := [];
      var k := 0;
      while k < |systems|
        invariant 0 <= k <= |systems| && InStep(uf) && HasSystems(systems, chords, k)
      {
        assert systems[k] in systems;
        chords := AddNext(uf, systems, k, chords);
        k := k + 1;
      }
    }

    /** `buildCableGraph`. The network is exactly the one that the systems determine: the given
        cables, the chords their systems needed, and one fold per component left over. Every
        landing ends up reachable from every other, so marking all of them routable is truthful. */
    method Build(systems: seq<seq<Polyline>>) returns (ghost f: Finished)
      requires IsMetric(km) && forall segs, seg :: segs in systems && seg in segs ==> Stitched(seg)
      modifies this
      ensures Inv() && branches == AllLaid(systems) && f.nodes == nodeCoord && f.home == home
      ensures f.NetworkOf(km, systems) && graph == Wired(|nodeCoord|, f.Built(km, systems) + f.folds)
      ensures HasAllCables(km, branches, home, graph) && AllReachable()
      ensures forall v: nat :: v < |nodeCoord| ==> v in home
      ensures |inMain| == |nodeCoord| && forall i :: 0 <= i < |inMain| ==> inMain[i]
      ensures CellsApart(km, Termini(AllLaid(systems))) ==> Spread(km, nodeCoord)
    {
      ghost var chords := Assemble(systems);
      ghost var comp, seeds, main, folds := FoldAll();
      f := Finished(nodeCoord, home, chords, comp, seeds, main, folds);
      WhatHolds(systems, chords, folds);
      inMain := seq(|nodeCoord|, _ => true);
    }

    /** What the history says about the finished network. */
    lemma WhatHolds(systems: seq<seq<Polyline>>, chords: seq<seq<Wire>>, folds: seq<Wire>)
      requires Inv() && SystemsOk(km, nodeCoord, systems, branches, home, chords, |systems|)
      requires log == SystemLog(km, systems, branches, home, chords, |systems|) + folds
      ensures forall v: nat :: v < |nodeCoord| ==> v in home
      ensures HasAllCables(km, branches, home, graph)
      ensures CellsApart(km, met) ==> Spread(km, nodeCoord)
    {
      NodesAreHomes(km, nodeCoord, met, home);
      CablesAreEdges(km, systems, branches, home, chords, |systems|, folds, |nodeCoord|);
      if CellsApart(km, met) {
        PlacedAreSpread(km, nodeCoord, met, home);
      }
    }

    /** Everything before the fold: from nothing, with a forest of its own. */
    method Assemble(systems: seq<seq<Polyline>>) returns (ghost chords: seq<seq<Wire>>)
      requires IsMetric(km) && forall segs, seg :: segs in systems && seg in segs ==> Stitched(seg)
      modifies this`nodeCoord, this`graph, this`grid, this`branches, this`met, this`home, this`log
      ensures Inv() && HasSystems(systems, chords, |systems|) && branches == AllLaid(systems)
    {
      nodeCoord, graph, branches, grid, met, home, log := [], [], [], map[], [], [], [];
      var uf := new UnionFind(0);
      chords := AddSystems(uf, systems);
      assert systems[..|systems|] == systems;
    }
  }

  /** What the scan among `nodes` found for `p`: node `id`, or nothing when that is a later one. */
  ghost predicate Found(km: Distance, nodes: seq<LngLat>, grid: Grid, p: LngLat, id: nat) {
    NearestOf(km, nodes, Block(grid, Norm(p)), Norm(p), if id < |nodes| then id else -1)
  }

  /** Two names of one place find the same node. */
  lemma PlaceIsClusteredOnce(km: Distance, nodes: seq<LngLat>, grid: Grid, p: LngLat, q: LngLat, a: nat, b: nat)
    requires p.lon >= -540.0 && q.lon >= -540.0 && Place(p) == Place(q) && a < |nodes|
    requires Found(km, nodes, grid, p, a) && Found(km, nodes, grid, q, b)
    ensures a == b
  {
    NormFacts(p);
    NormFacts(q);
    NearestOfUnique(km, nodes, Block(grid, Norm(q)), Norm(q), a, if b < |nodes| then b else -1);
  }

  /** Nodes were only appended, none of them after node `id`, and new nodes have no edges yet. */
  ghost predicate GrownTo(nodes: seq<LngLat>, g: Graph, nodes': seq<LngLat>, g': Graph, id: nat) {
    && nodes <= nodes' && g <= g' && |g| == |nodes| && |g'| == |nodes'|
    && (|nodes'| <= id + 1 || |nodes'| == |nodes|)
    && forall u :: |g| <= u < |g'| ==> g'[u] == []
  }

  lemma GrownTwice(n0: seq<LngLat>, g0: Graph, n1: seq<LngLat>, g1: Graph, a: nat, n2: seq<LngLat>, g2: Graph, b: nat)
    requires GrownTo(n0, g0, n1, g1, a) && GrownTo(n1, g1, n2, g2, b)
    ensures GrownTo(n0, g0, n2, g2, if a < b then b else a)
  {
  }

  /** The edge of a fold, seen from both ends. */
  lemma FoldJoins(g: Graph, comp: seq<int>, seeds: seq<nat>, cur: seq<int>, next: seq<int>, main: int, hub: nat, k: nat, a: nat, b: nat, d: real)
    requires AllJoined(g, comp, seeds, cur, main, hub) && Symmetric(g) && a < |g| && b < |g| && comp[a] == k && cur[b] == main
    requires |next| == |cur| && forall v :: 0 <= v < |cur| && next[v] == main ==> cur[v] == main || comp[v] == k
    ensures AllJoined(AddBoth(g, a, There(b, d, -1), b, Back(a, d, -1)), comp, seeds, next, main, hub)
  {
    var h := AddBoth(g, a, There(b, d, -1), b, Back(a, d, -1));
    AddBothEdges(g, a, There(b, d, -1), b, Back(a, d, -1));
    AddBothSymmetric(g, a, There(b, d, -1), b, Back(a, d, -1));
    ReachEdge(h, b, Back(a, d, -1));
    LinkJoinsComponent(g, h, comp, seeds, cur, next, main, hub, k, a, b);
  }

  lemma FoldHasBothSides(comp: seq<int>, main: int, k: nat, members: seq<nat>)
    requires k in comp && main in comp && k != main
    requires forall v: nat :: v in members <==> v < |comp| && Folded(comp, main, k)[v] == k
    ensures members != [] && main in Folded(comp, main, k)
    ensures forall v: nat :: v in members <==> v < |comp| && comp[v] == k
  {
    var u :| 0 <= u < |comp| && comp[u] == k;
    assert u in members;
    var v :| 0 <= v < |comp| && comp[v] == main;
    assert Folded(comp, main, k)[v] == main;
  }

}
