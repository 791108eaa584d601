// The submarine-cable network: clustering endpoints, real segments, and the
// synthetic chords that tie the disjoint branches of one cable system together.
module CableGraph {
  import opened Geometry
  import opened Graphs
  import opened UnionFinds
  import opened CableGrid

  type Polyline = seq<LngLat>

  /** The high-Arctic transit band (`arcticTransit`). */
  predicate ArcticTransit(c: LngLat) {
    c.lat > 69.0 || (c.lat > 60.0 && !(-60.0 <= NormLon(c.lon) <= 30.0))
  }

  predicate CrossesArctic(seg: Polyline) {
    exists c :: c in seg && ArcticTransit(c)
  }

  /** The segments that enter the graph. */
  predicate Laid(seg: Polyline) {
    |seg| >= 2 && !CrossesArctic(seg)
  }

  function LaidSegments(segs: seq<Polyline>): seq<Polyline> {
    if segs == [] then [] else
      LaidSegments(segs[..|segs| - 1]) + if Laid(segs[|segs| - 1]) then [segs[|segs| - 1]] else []
  }

  /** The laid segments of all systems, in the order of `branches`. */
  function AllLaid(systems: seq<seq<Polyline>>): seq<Polyline> {
    if systems == [] then [] else AllLaid(systems[..|systems| - 1]) + LaidSegments(systems[|systems| - 1])
  }

  lemma AllLaidSnoc(systems: seq<seq<Polyline>>, k: nat)
    requires k < |systems|
    ensures AllLaid(systems[..k + 1]) == AllLaid(systems[..k]) + LaidSegments(systems[k])
  {
    assert systems[..k + 1][..k] == systems[..k];
  }

  /** Both ends of every line, normalised: the points that clustering looks up, in order. */
  function Termini(lines: seq<Polyline>): seq<LngLat> {
    if lines == [] then [] else Termini(lines[..|lines| - 1]) + EndPair(lines[|lines| - 1])
  }

  function EndPair(line: Polyline): seq<LngLat> {
    if line == [] then [] else [Norm(line[0]), Norm(line[|line| - 1])]
  }

  lemma TerminiSnoc(lines: seq<Polyline>, line: Polyline)
    ensures Termini(lines + [line]) == Termini(lines) + EndPair(line)
  {
    assert (lines + [line])[..|lines|] == lines;
  }

  lemma {:induction false} TerminiConcat(a: seq<Polyline>, b: seq<Polyline>)
    ensures Termini(a + b) == Termini(a) + Termini(b)
  {
    if b == [] {
      assert a + b == a;
    } else {
      assert (a + b)[..|a + b| - 1] == a + b[..|b| - 1];
      TerminiConcat(a, b[..|b| - 1]);
    }
  }

  /** Ends as a stitched dataset holds them: a whole turn below -180 does not occur. */
  ghost predicate Stitched(seg: Polyline) {
    seg != [] ==> seg[0].lon >= -540.0 && seg[|seg| - 1].lon >= -540.0
  }

  lemma {:induction false} TerminiAreNormal(lines: seq<Polyline>)
    requires forall l :: l in lines ==> Stitched(l)
    ensures forall p :: p in Termini(lines) ==> p == Place(p) && Norm(p) == p
  {
    if lines != [] {
      var init, l := lines[..|lines| - 1], lines[|lines| - 1];
      TerminiAreNormal(init);
      assert Stitched(l);
      if l != [] {
        NormFacts(l[0]);
        NormFacts(l[|l| - 1]);
      }
    }
  }

  /** Whatever stitched lines are laid, some metric puts their ends in the regime of the grid. */
  lemma EndsCanBeApart(lines: seq<Polyline>)
    requires forall l :: l in lines ==> Stitched(l)
    ensures IsMetric(CellSteps) && CellsApart(CellSteps, Termini(lines))
  {
    TerminiAreNormal(lines);
    RegimeCanBeMet(Termini(lines));
  }

  // ----- what every edge of the network satisfies -----

  /** Where a drawn edge starts and ends, in the direction it is traversed. */
  function From(line: Polyline, reversed: bool): LngLat
    requires line != []
  {
    if reversed then line[|line| - 1] else line[0]
  }

  /** An edge joins two different nodes at a positive price. A real cable is priced by its
      polyline, whose ends lie within the cluster distance of the two nodes; a chord is
      priced by the straight distance. */
  ghost predicate EdgeOk(km: Distance, nodes: seq<LngLat>, branches: seq<Polyline>, u: nat, e: Edge) {
    && u < |nodes| && e.to < |nodes| && e.to != u && e.w > 0.0
    && if e.branch < 0 then e.branch == -1 && e.w == km(nodes[u], nodes[e.to])
       else
         && e.branch < |branches| && |branches[e.branch]| >= 2
         && e.w == Length(km, branches[e.branch])
         && km(nodes[u], From(branches[e.branch], e.reversed)) < CLUSTER_KM
         && km(nodes[e.to], From(branches[e.branch], !e.reversed)) < CLUSTER_KM
  }

  ghost predicate EdgesOk(km: Distance, nodes: seq<LngLat>, branches: seq<Polyline>, g: Graph) {
    && |g| == |nodes|
    && forall u: nat, e: Edge {:trigger EdgeOk(km, nodes, branches, u, e)} ::
         u < |g| && e in g[u] ==> EdgeOk(km, nodes, branches, u, e)
  }

  lemma EdgesOkWellFormed(km: Distance, nodes: seq<LngLat>, branches: seq<Polyline>, g: Graph)
    requires EdgesOk(km, nodes, branches, g)
    ensures WellFormed(g)
  {
    forall u: nat, e: Edge | u < |g| && e in g[u]
      ensures e.to < |g| && e.w >= 0.0
    {
      assert EdgeOk(km, nodes, branches, u, e);
    }
  }

  /** The two directed edges of `addEdge(a, b, w, branchIdx)`. */
  function There(b: nat, w: real, branch: int): Edge {
    Edge(b, w, branch, false)
  }

  function Back(a: nat, w: real, branch: int): Edge {
    Edge(a, w, branch, true)
  }

  lemma AddKeepsEdgesOk(km: Distance, nodes: seq<LngLat>, branches: seq<Polyline>, g: Graph, a: nat, b: nat, w: real, branch: int)
    requires IsMetric(km) && EdgesOk(km, nodes, branches, g) && a < |g| && b < |g|
    requires EdgeOk(km, nodes, branches, a, There(b, w, branch))
    ensures EdgesOk(km, nodes, branches, AddBoth(g, a, There(b, w, branch), b, Back(a, w, branch)))
  {
    var h := AddBoth(g, a, There(b, w, branch), b, Back(a, w, branch));
    AddBothEdges(g, a, There(b, w, branch), b, Back(a, w, branch));
    forall u: nat, e: Edge | u < |h| && e in h[u]
      ensures EdgeOk(km, nodes, branches, u, e)
    {
      if e in g[u] {
        assert EdgeOk(km, nodes, branches, u, e);
      }
    }
  }

  /** Nodes and branches only ever grow, which leaves every edge as it was. */
  lemma GrowthKeepsEdgesOk(km: Distance, nodes: seq<LngLat>, branches: seq<Polyline>, g: Graph, nodes': seq<LngLat>, branches': seq<Polyline>, g': Graph)
    requires EdgesOk(km, nodes, branches, g)
    requires nodes <= nodes' && branches <= branches' && g <= g' && |g'| == |nodes'|
    requires forall u :: |g| <= u < |g'| ==> g'[u] == []
    ensures EdgesOk(km, nodes', branches', g')
  {
    forall u: nat, e: Edge | u < |g'| && e in g'[u]
      ensures EdgeOk(km, nodes', branches', u, e)
    {
      assert EdgeOk(km, nodes, branches, u, e);
    }
  }

  lemma GrowthKeepsSymmetric(g: Graph, g': Graph)
    requires Symmetric(g) && g <= g' && forall u :: |g| <= u < |g'| ==> g'[u] == []
    ensures Symmetric(g')
  {
    forall u: nat, e: Edge | u < |g'| && e in g'[u]
      ensures HasTwin(g', u, e)
    {
      assert HasTwin(g, u, e);
    }
  }

  /** New isolated nodes are classes of their own. */
  lemma GrowthKeepsAgreement(root: seq<nat>, g: Graph, root': seq<nat>, g': Graph)
    requires Agrees(root, g) && root <= root' && g <= g' && |root'| == |g'|
    requires forall x :: 0 <= x < |root| ==> root[x] < |root|
    requires forall u :: |g| <= u < |g'| ==> g'[u] == [] && root'[u] == u
    ensures Agrees(root', g')
  {
    forall x, y | 0 <= x < |g'| && 0 <= y < |g'| && root'[x] == root'[y]
      ensures Reach(g', x, y)
    {
      if x == y {
        ReachRefl(g', x);
      } else {
        ReachWithin(g, g', x, y);
      }
    }
  }

  ghost predicate StillTogether(root: seq<nat>, root': seq<nat>, x: nat, y: nat)
    requires x < |root| <= |root'| && y < |root|
  {
    root[x] == root[y] ==> root'[x] == root'[y]
  }

  /** Classes only ever merge. */
  ghost predicate Coarsens(root: seq<nat>, root': seq<nat>) {
    && |root| <= |root'|
    && forall x: nat, y: nat {:trigger StillTogether(root, root', x, y)} ::
         x < |root| && y < |root| ==> StillTogether(root, root', x, y)
  }

  lemma JoinedCoarsens(root: seq<nat>, a: nat, b: nat)
    requires a < |root| && b < |root|
    ensures Coarsens(root, Joined(root, a, b))
  {
  }

  lemma CoarsensTrans(r1: seq<nat>, r2: seq<nat>, r3: seq<nat>)
    requires Coarsens(r1, r2) && Coarsens(r2, r3)
    ensures Coarsens(r1, r3)
  {
    forall x: nat, y: nat | x < |r1| && y < |r1|
      ensures StillTogether(r1, r3, x, y)
    {
      assert StillTogether(r1, r2, x, y) && StillTogether(r2, r3, x, y);
    }
  }

  /** After `addEdge(a, b, w, i); union(a, b)` with a positive weight, or a == b, classes
      and reachability still agree. */
  lemma JoinAfterAdd(root: seq<nat>, g: Graph, h: Graph, a: nat, there: Edge, b: nat, back: Edge)
    requires Agrees(root, g) && Symmetric(g) && a < |g| && b < |g|
    requires there.to == b && back.to == a && Twin(a, there, back)
    requires h == if a == b || there.w <= 0.0 then g else AddBoth(g, a, there, b, back)
    requires a != b ==> there.w > 0.0
    ensures Agrees(Joined(root, a, b), h)
  {
    if a == b {
      assert Joined(root, a, b) == root;
    } else {
      AddAndJoin(root, g, a, there, b, back);
    }
  }

  lemma StoredNodesAreApart(km: Distance, nodes: seq<LngLat>, a: nat, b: nat)
    requires IsMetric(km) && Stored(nodes) && a < |nodes| && b < |nodes| && a != b
    ensures km(nodes[a], nodes[b]) > 0.0
  {
    assert nodes[a] != nodes[b];
    assert km(nodes[a], nodes[b]) >= 0.0;
    assert km(nodes[a], nodes[b]) == 0.0 <==> Place(nodes[a]) == Place(nodes[b]);
  }

  // ----- the landings of one system -----

  /** `[...new Set(ids)]`. */
  function Distinct(ids: seq<nat>): (r: seq<nat>)
    ensures forall x :: x in r <==> x in ids
  {
    if ids == [] then [] else
      var init, last := Distinct(ids[..|ids| - 1]), ids[|ids| - 1];
      if last in init then init else init + [last]
  }

  /** Landings `2k` and `2k + 1` stand for the ends of the `k`-th laid segment. */
  ghost predicate EndsOf(km: Distance, nodes: seq<LngLat>, laid: seq<Polyline>, landings: seq<nat>, k: nat)
    requires k < |laid| && |landings| == 2 * |laid|
  {
    var a, b, seg := landings[2 * k], landings[2 * k + 1], laid[k];
    && a < |nodes| && b < |nodes| && |seg| >= 2
    && km(nodes[a], seg[0]) < CLUSTER_KM && km(nodes[b], seg[|seg| - 1]) < CLUSTER_KM
  }

  ghost predicate LandingsOf(km: Distance, nodes: seq<LngLat>, laid: seq<Polyline>, landings: seq<nat>) {
    && |landings| == 2 * |laid|
    && (forall x :: x in landings ==> x < |nodes|)
    && forall k: nat {:trigger EndsOf(km, nodes, laid, landings, k)} :: k < |laid| ==> EndsOf(km, nodes, laid, landings, k)
  }

  lemma LandingsSnoc(km: Distance, nodes: seq<LngLat>, laid: seq<Polyline>, landings: seq<nat>,
                     nodes': seq<LngLat>, seg: Polyline, ia: nat, ib: nat)
    requires LandingsOf(km, nodes, laid, landings) && nodes <= nodes' && |seg| >= 2
    requires ia < |nodes'| && ib < |nodes'|
    requires km(nodes'[ia], seg[0]) < CLUSTER_KM && km(nodes'[ib], seg[|seg| - 1]) < CLUSTER_KM
    ensures LandingsOf(km, nodes', laid + [seg], landings + [ia, ib])
  {
    var laid', landings' := laid + [seg], landings + [ia, ib];
    forall k: nat | k < |laid'|
      ensures EndsOf(km, nodes', laid', landings', k)
    {
      if k < |laid| {
        assert EndsOf(km, nodes, laid, landings, k);
      }
    }
  }

  lemma LandingsConcat(km: Distance, nodes: seq<LngLat>, laid: seq<Polyline>, landings: seq<nat>,
                       nodes': seq<LngLat>, more: seq<Polyline>, others: seq<nat>)
    requires LandingsOf(km, nodes, laid, landings) && nodes <= nodes' && LandingsOf(km, nodes', more, others)
    ensures LandingsOf(km, nodes', laid + more, landings + others)
  {
    var laid', landings' := laid + more, landings + others;
    forall k: nat | k < |laid'|
      ensures EndsOf(km, nodes', laid', landings', k)
    {
      if k < |laid| {
        assert EndsOf(km, nodes, laid, landings, k);
      } else {
        assert EndsOf(km, nodes', more, others, k - |laid|);
      }
    }
  }

  lemma LaidSnoc(segs: seq<Polyline>, k: nat)
    requires k < |segs|
    ensures LaidSegments(segs[..k + 1]) == LaidSegments(segs[..k]) + if Laid(segs[k]) then [segs[k]] else []
  {
    assert segs[..k + 1][..k] == segs[..k];
  }

  /** Landings `i` up to `m` are in the class of landing `i`. */
  ghost predicate SameClass(root: seq<nat>, ids: seq<nat>, i: nat, m: nat) {
    && i < |ids| && m <= |ids|
    && forall k :: i <= k < m ==> ids[k] < |root| && ids[i] < |root| && root[ids[k]] == root[ids[i]]
  }

  lemma CoarsensKeepsClass(root: seq<nat>, root': seq<nat>, ids: seq<nat>, i: nat, m: nat)
    requires SameClass(root, ids, i, m) && Coarsens(root, root')
    ensures SameClass(root', ids, i, m)
  {
    forall k | i <= k < m
      ensures ids[k] < |root'| && ids[i] < |root'| && root'[ids[k]] == root'[ids[i]]
    {
      assert StillTogether(root, root', ids[k], ids[i]);
    }
  }

  lemma ClassIsConnected(root: seq<nat>, g: Graph, ids: seq<nat>, i: nat, m: nat)
    requires Agrees(root, g) && SameClass(root, ids, i, m)
    ensures forall y: nat {:trigger ids[y]} :: i <= y < m ==> Reach(g, ids[i], ids[y])
  {
    forall y: nat {:trigger ids[y]} | i <= y < m
      ensures Reach(g, ids[i], ids[y])
    {
      ClassIsReach(root, g, ids[i], ids[y]);
    }
  }

  /** Landing `j` joins the class of landing `i`. */
  lemma ClassGains(root0: seq<nat>, root: seq<nat>, root': seq<nat>, ids: seq<nat>, i: nat, j: nat)
    requires Coarsens(root0, root) && Coarsens(root, root') && SameClass(root, ids, i, j) && i < j < |ids|
    requires ids[i] < |root'| && ids[j] < |root'| && root'[ids[i]] == root'[ids[j]]
    ensures Coarsens(root0, root') && SameClass(root', ids, i, j + 1)
  {
    CoarsensTrans(root0, root, root');
    CoarsensKeepsClass(root, root', ids, i, j);
  }

  lemma OneClassAlready(root: seq<nat>, g: Graph, ids: seq<nat>, i: nat, j: nat, root': seq<nat>)
    requires Agrees(root, g) && SameClass(root, ids, 0, |ids|) && i < |ids| && j < |ids| && Coarsens(root, root')
    ensures Reach(g, ids[i], ids[j]) && SameClass(root', ids, 0, |ids|)
  {
    ClassIsReach(root, g, ids[i], ids[j]);
    CoarsensKeepsClass(root, root', ids, 0, |ids|);
  }

  lemma OneClassIsConnected(root: seq<nat>, g: Graph, ids: seq<nat>)
    requires Agrees(root, g) && (Distinct(ids) == [] || SameClass(root, Distinct(ids), 0, |Distinct(ids)|))
    ensures forall x, y :: x in ids && y in ids ==> Reach(g, x, y)
  {
    forall x, y | x in ids && y in ids
      ensures Reach(g, x, y)
    {
      assert x in Distinct(ids) && y in Distinct(ids);
      ClassIsReach(root, g, x, y);
    }
  }
}
