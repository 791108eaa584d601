// Clustering of cable endpoints into landing nodes through a one-degree grid.
module CableGrid {
  import opened Geometry
  import opened Cells

  const CLUSTER_KM: real := 60.0

  /** `[normLon(p[0]), p[1]]`, the form in which nodes are stored and compared. */
  function Norm(p: LngLat): LngLat {
    LngLat(NormLon(p.lon), p.lat)
  }

  /** `cellKey`, which normalises once more. */
  function CellKey(q: LngLat): Cell {
    Cell(NormLon(q.lon).Floor, q.lat.Floor)
  }

  /** The ids of the first `n` cells of a column of the 3x3 block, in scan order. */
  function Column(grid: Grid, x: int, cy: int, n: nat): seq<nat> {
    if n == 0 then [] else Column(grid, x, cy, n - 1) + Mates(grid, x, cy + n - 2)
  }

  function Columns(grid: Grid, cx: int, cy: int, m: nat): seq<nat> {
    if m == 0 then [] else Columns(grid, cx, cy, m - 1) + Column(grid, cx + m - 2, cy, 3)
  }

  /** All ids the scan around `q` looks at. */
  function Block(grid: Grid, q: LngLat): seq<nat> {
    Columns(grid, q.lon.Floor, q.lat.Floor, 3)
  }

  /** The grid files every node under its own cell. */
  ghost predicate Filed(nodes: seq<LngLat>, grid: Grid, id: nat)
    requires id < |nodes|
  {
    id in Mates(grid, CellKey(nodes[id]).x, CellKey(nodes[id]).y)
  }

  ghost predicate CellOk(nodes: seq<LngLat>, grid: Grid, c: Cell)
    requires c in grid
  {
    && (forall id :: id in grid[c] ==> id < |nodes| && CellKey(nodes[id]) == c)
    && forall k, l :: 0 <= k < l < |grid[c]| ==> grid[c][k] < grid[c][l]
  }

  ghost predicate GridOk(nodes: seq<LngLat>, grid: Grid) {
    && (forall id: nat {:trigger Filed(nodes, grid, id)} :: id < |nodes| ==> Filed(nodes, grid, id))
    && (forall c: Cell {:trigger CellOk(nodes, grid, c)} :: c in grid ==> CellOk(nodes, grid, c))
  }

  predicate Adjacent(node: LngLat, q: LngLat) {
    && -1 <= CellKey(node).x - q.lon.Floor <= 1
    && -1 <= CellKey(node).y - q.lat.Floor <= 1
  }

  lemma {:induction false} ColumnHolds(grid: Grid, x: int, cy: int, n: nat, id: nat)
    ensures id in Column(grid, x, cy, n) <==> exists y :: cy - 1 <= y < cy + n - 1 && id in Mates(grid, x, y)
  {
    if n > 0 {
      ColumnHolds(grid, x, cy, n - 1, id);
      if id in Mates(grid, x, cy + n - 2) {
        assert cy - 1 <= cy + n - 2 < cy + n - 1;
      }
    }
  }

  ghost predicate InColumn(grid: Grid, x: int, cy: int, id: nat) {
    id in Column(grid, x, cy, 3)
  }

  lemma {:induction false} ColumnsHold(grid: Grid, cx: int, cy: int, m: nat, id: nat)
    ensures id in Columns(grid, cx, cy, m) <==> exists x :: cx - 1 <= x < cx + m - 1 && InColumn(grid, x, cy, id)
  {
    if m > 0 {
      ColumnsHold(grid, cx, cy, m - 1, id);
      assert id in Columns(grid, cx, cy, m) <==> id in Columns(grid, cx, cy, m - 1) || InColumn(grid, cx + m - 2, cy, id);
    }
  }

  ghost predicate MateNear(grid: Grid, q: LngLat, id: nat, x: int, y: int) {
    -1 <= x - q.lon.Floor <= 1 && -1 <= y - q.lat.Floor <= 1 && id in Mates(grid, x, y)
  }

  lemma BlockHolds(grid: Grid, q: LngLat, id: nat)
    ensures id in Block(grid, q) <==> exists x, y :: MateNear(grid, q, id, x, y)
  {
    var cx, cy := q.lon.Floor, q.lat.Floor;
    ColumnsHold(grid, cx, cy, 3, id);
    if id in Block(grid, q) {
      var x :| cx - 1 <= x < cx + 2 && InColumn(grid, x, cy, id);
      ColumnHolds(grid, x, cy, 3, id);
      var y :| cy - 1 <= y < cy + 2 && id in Mates(grid, x, y);
      assert MateNear(grid, q, id, x, y);
    }
    if x, y :| MateNear(grid, q, id, x, y) {
      ColumnHolds(grid, x, cy, 3, id);
      assert InColumn(grid, x, cy, id);
    }
  }

  /** The block holds exactly the nodes filed in the nine cells around `q`. */
  lemma BlockIsAdjacent(nodes: seq<LngLat>, grid: Grid, q: LngLat, id: nat)
    requires GridOk(nodes, grid)
    ensures id in Block(grid, q) <==> id < |nodes| && Adjacent(nodes[id], q)
  {
    BlockHolds(grid, q, id);
    if id in Block(grid, q) {
      var x, y :| MateNear(grid, q, id, x, y);
      assert CellOk(nodes, grid, Cell(x, y));
    }
    if id < |nodes| && Adjacent(nodes[id], q) {
      assert Filed(nodes, grid, id);
      assert MateNear(grid, q, id, CellKey(nodes[id]).x, CellKey(nodes[id]).y);
    }
  }

  // ----- the order of the scan -----

  predicate ScanBefore(nodes: seq<LngLat>, i: nat, j: nat)
    requires i < |nodes| && j < |nodes|
  {
    CellBefore(CellKey(nodes[i]), CellKey(nodes[j])) || (CellKey(nodes[i]) == CellKey(nodes[j]) && i < j)
  }

  ghost predicate InScanOrder(nodes: seq<LngLat>, ids: seq<nat>) {
    && (forall k :: 0 <= k < |ids| ==> ids[k] < |nodes|)
    && forall k, l {:trigger ids[k], ids[l]} :: 0 <= k < l < |ids| ==> ScanBefore(nodes, ids[k], ids[l])
  }

  lemma MatesInOrder(nodes: seq<LngLat>, grid: Grid, x: int, y: int)
    requires GridOk(nodes, grid)
    ensures InScanOrder(nodes, Mates(grid, x, y))
    ensures forall id :: id in Mates(grid, x, y) ==> id < |nodes| && CellKey(nodes[id]) == Cell(x, y)
  {
    var c := Cell(x, y);
    if c in grid {
      assert CellOk(nodes, grid, c);
      assert forall k :: 0 <= k < |grid[c]| ==> grid[c][k] in grid[c];
    }
  }

  lemma {:induction false} ColumnInOrder(nodes: seq<LngLat>, grid: Grid, x: int, cy: int, n: nat)
    requires GridOk(nodes, grid)
    ensures InScanOrder(nodes, Column(grid, x, cy, n))
    ensures forall id :: id in Column(grid, x, cy, n) ==>
      id < |nodes| && CellKey(nodes[id]).x == x && CellKey(nodes[id]).y < cy + n - 1
  {
    if n > 0 {
      ColumnInOrder(nodes, grid, x, cy, n - 1);
      MatesInOrder(nodes, grid, x, cy + n - 2);
      OrderConcat(nodes, Column(grid, x, cy, n - 1), Mates(grid, x, cy + n - 2));
    }
  }

  lemma {:induction false} ColumnsInOrder(nodes: seq<LngLat>, grid: Grid, cx: int, cy: int, m: nat)
    requires GridOk(nodes, grid)
    ensures InScanOrder(nodes, Columns(grid, cx, cy, m))
    ensures forall id :: id in Columns(grid, cx, cy, m) ==> id < |nodes| && CellKey(nodes[id]).x < cx + m - 1
  {
    if m > 0 {
      ColumnsInOrder(nodes, grid, cx, cy, m - 1);
      ColumnInOrder(nodes, grid, cx + m - 2, cy, 3);
      OrderConcat(nodes, Columns(grid, cx, cy, m - 1), Column(grid, cx + m - 2, cy, 3));
    }
  }

  lemma OrderConcat(nodes: seq<LngLat>, a: seq<nat>, b: seq<nat>)
    requires InScanOrder(nodes, a) && InScanOrder(nodes, b)
    requires forall i, j :: i in a && j in b ==> i < |nodes| && j < |nodes| && CellBefore(CellKey(nodes[i]), CellKey(nodes[j]))
    ensures InScanOrder(nodes, a + b)
  {
    forall k, l | 0 <= k < |a| && 0 <= l < |b|
      ensures ScanBefore(nodes, a[k], b[l])
    {
      assert a[k] in a && b[l] in b;
    }
  }

  /** The distance a further id has to undercut. */
  ghost function Limit(km: Distance, nodes: seq<LngLat>, q: LngLat, best: int): real {
    if 0 <= best < |nodes| then km(nodes[best], q) else CLUSTER_KM
  }

  ghost predicate NoBetter(km: Distance, nodes: seq<LngLat>, ids: seq<nat>, q: LngLat, best: int, k: nat)
    requires k < |ids|
  {
    ids[k] < |nodes| && km(nodes[ids[k]], q) >= Limit(km, nodes, q, best)
  }

  /** `best` stands at position `k`, and everything before is strictly farther. */
  ghost predicate FirstAt(km: Distance, nodes: seq<LngLat>, ids: seq<nat>, q: LngLat, best: int, k: nat) {
    && k < |ids| && ids[k] == best
    && forall j :: 0 <= j < k ==> ids[j] < |nodes| && km(nodes[ids[j]], q) > Limit(km, nodes, q, best)
  }

  /** `best` is the first closest id of `ids` within the cluster distance, or -1. */
  ghost predicate NearestOf(km: Distance, nodes: seq<LngLat>, ids: seq<nat>, q: LngLat, best: int) {
    && -1 <= best < |nodes|
    && (best >= 0 ==> km(nodes[best], q) < CLUSTER_KM && exists k :: FirstAt(km, nodes, ids, q, best, k))
    && forall k: nat {:trigger NoBetter(km, nodes, ids, q, best, k)} :: k < |ids| ==> NoBetter(km, nodes, ids, q, best, k)
  }

  lemma NearestOfUnique(km: Distance, nodes: seq<LngLat>, ids: seq<nat>, q: LngLat, b: int, c: int)
    requires NearestOf(km, nodes, ids, q, b) && NearestOf(km, nodes, ids, q, c)
    ensures b == c
  {
    if b >= 0 {
      var k :| FirstAt(km, nodes, ids, q, b, k);
      assert NoBetter(km, nodes, ids, q, c, k);
    }
    if c >= 0 {
      var k :| FirstAt(km, nodes, ids, q, c, k);
      assert NoBetter(km, nodes, ids, q, b, k);
    }
  }

  lemma NearestOfSnoc(km: Distance, nodes: seq<LngLat>, ids: seq<nat>, q: LngLat, best: int, id: nat)
    requires NearestOf(km, nodes, ids, q, best) && id < |nodes|
    ensures NearestOf(km, nodes, ids + [id], q, if km(nodes[id], q) < Limit(km, nodes, q, best) then id else best)
  {
    var ids' := ids + [id];
    var best' := if km(nodes[id], q) < Limit(km, nodes, q, best) then id else best;
    forall k: nat | k < |ids'|
      ensures NoBetter(km, nodes, ids', q, best', k)
    {
      if k < |ids| {
        assert NoBetter(km, nodes, ids, q, best, k);
      }
    }
    if best' != best {
      forall j | 0 <= j < |ids|
        ensures ids'[j] < |nodes| && km(nodes[ids'[j]], q) > Limit(km, nodes, q, best')
      {
        assert NoBetter(km, nodes, ids, q, best, j);
      }
      assert FirstAt(km, nodes, ids', q, best', |ids|);
    } else if best >= 0 {
      var k :| FirstAt(km, nodes, ids, q, best, k);
      assert FirstAt(km, nodes, ids', q, best, k);
    }
  }

  // ----- the grid against the plain scan over all nodes -----

  /** What a scan over all nodes would return: a nearest node within 60 km, or none. */
  ghost predicate LinearAnswer(km: Distance, nodes: seq<LngLat>, q: LngLat, best: int) {
    if best == -1 then forall id :: 0 <= id < |nodes| ==> km(nodes[id], q) >= CLUSTER_KM
    else
      && 0 <= best < |nodes| && km(nodes[best], q) < CLUSTER_KM
      && forall id :: 0 <= id < |nodes| ==> km(nodes[best], q) <= km(nodes[id], q)
  }

  ghost predicate HasNearerAdjacent(km: Distance, nodes: seq<LngLat>, q: LngLat, id: nat)
    requires id < |nodes|
  {
    exists i: nat :: i < |nodes| && Adjacent(nodes[i], q) && km(nodes[i], q) <= km(nodes[id], q)
  }

  /** Whenever a node outside the 3x3 block lies within the cluster distance of `q`, some node
      of the block is at least as close. */
  ghost predicate BlockCovers(km: Distance, nodes: seq<LngLat>, q: LngLat) {
    forall id: nat {:trigger HasNearerAdjacent(km, nodes, q, id)} ::
      id < |nodes| && !Adjacent(nodes[id], q) && km(nodes[id], q) < CLUSTER_KM ==> HasNearerAdjacent(km, nodes, q, id)
  }

  /** What the scan found undercuts every node of the block. */
  lemma BlockBounds(km: Distance, nodes: seq<LngLat>, grid: Grid, q: LngLat, best: int, id: nat)
    requires GridOk(nodes, grid) && NearestOf(km, nodes, Block(grid, q), q, best)
    requires id < |nodes| && Adjacent(nodes[id], q)
    ensures km(nodes[id], q) >= Limit(km, nodes, q, best)
  {
    BlockIsAdjacent(nodes, grid, q, id);
    var k :| 0 <= k < |Block(grid, q)| && Block(grid, q)[k] == id;
    assert NoBetter(km, nodes, Block(grid, q), q, best, k);
  }

  lemma FoundIsAdjacent(km: Distance, nodes: seq<LngLat>, grid: Grid, q: LngLat, best: int)
    requires GridOk(nodes, grid) && NearestOf(km, nodes, Block(grid, q), q, best) && best >= 0
    ensures Adjacent(nodes[best], q)
  {
    var k :| FirstAt(km, nodes, Block(grid, q), q, best, k);
    BlockIsAdjacent(nodes, grid, q, best);
  }

  /** Of equally close nodes of the block it is the first in scan order. */
  lemma FoundIsFirst(km: Distance, nodes: seq<LngLat>, grid: Grid, q: LngLat, best: int, id: nat)
    requires GridOk(nodes, grid) && NearestOf(km, nodes, Block(grid, q), q, best) && best >= 0
    requires id < |nodes| && Adjacent(nodes[id], q) && ScanBefore(nodes, id, best)
    ensures km(nodes[id], q) > km(nodes[best], q)
  {
    BlockIsAdjacent(nodes, grid, q, id);
    ColumnsInOrder(nodes, grid, q.lon.Floor, q.lat.Floor, 3);
    FirstInOrder(km, nodes, Block(grid, q), q, best, id);
  }

  lemma FirstInOrder(km: Distance, nodes: seq<LngLat>, ids: seq<nat>, q: LngLat, best: int, id: nat)
    requires InScanOrder(nodes, ids) && NearestOf(km, nodes, ids, q, best) && best >= 0
    requires id in ids && id < |nodes| && ScanBefore(nodes, id, best)
    ensures km(nodes[id], q) > km(nodes[best], q)
  {
    var k: nat :| FirstAt(km, nodes, ids, q, best, k);
    var l: nat :| l < |ids| && ids[l] == id;
  }

  /** The grid scan answers like the scan over all nodes exactly when the block covers the
      point, a condition on the nodes and the point alone. */
  lemma GridScanIsLinearIff(km: Distance, nodes: seq<LngLat>, grid: Grid, q: LngLat, best: int)
    requires GridOk(nodes, grid) && NearestOf(km, nodes, Block(grid, q), q, best)
    ensures LinearAnswer(km, nodes, q, best) <==> BlockCovers(km, nodes, q)
  {
    if best >= 0 {
      FoundIsAdjacent(km, nodes, grid, q, best);
    }
    if LinearAnswer(km, nodes, q, best) {
      forall id: nat | id < |nodes| && !Adjacent(nodes[id], q) && km(nodes[id], q) < CLUSTER_KM
        ensures HasNearerAdjacent(km, nodes, q, id)
      {
        assert km(nodes[best], q) <= km(nodes[id], q);
      }
    }
    if BlockCovers(km, nodes, q) {
      forall id: nat | id < |nodes|
        ensures km(nodes[id], q) >= Limit(km, nodes, q, best)
      {
        if Adjacent(nodes[id], q) {
          BlockBounds(km, nodes, grid, q, best, id);
        } else if km(nodes[id], q) < CLUSTER_KM {
          assert HasNearerAdjacent(km, nodes, q, id);
          var i: nat :| i < |nodes| && Adjacent(nodes[i], q) && km(nodes[i], q) <= km(nodes[id], q);
          BlockBounds(km, nodes, grid, q, best, i);
        }
      }
    }
  }

  /** Points two or more cells apart are at least the cluster distance apart. */
  ghost predicate CellsSeparate(km: Distance, nodes: seq<LngLat>, q: LngLat) {
    forall id :: 0 <= id < |nodes| && !Adjacent(nodes[id], q) ==> km(nodes[id], q) >= CLUSTER_KM
  }

  /** Where cells separate, the grid loses nothing. */
  lemma GridScanIsLinear(km: Distance, nodes: seq<LngLat>, grid: Grid, q: LngLat, best: int)
    requires GridOk(nodes, grid) && NearestOf(km, nodes, Block(grid, q), q, best)
    requires CellsSeparate(km, nodes, q)
    ensures LinearAnswer(km, nodes, q, best)
  {
    GridScanIsLinearIff(km, nodes, grid, q, best);
  }

  ghost predicate PairSeparates(km: Distance, p: LngLat, q: LngLat) {
    !Adjacent(p, q) ==> km(p, q) >= CLUSTER_KM
  }

  /** The regime the one-degree grid was designed for: of the points given, those two or more
      cells apart are at least the cluster distance apart. */
  ghost predicate CellsApart(km: Distance, points: seq<LngLat>) {
    forall p, q {:trigger PairSeparates(km, p, q)} :: p in points && q in points ==> PairSeparates(km, p, q)
  }

  /** All nodes keep the cluster distance from each other. */
  ghost predicate Spread(km: Distance, nodes: seq<LngLat>) {
    forall i, j :: 0 <= i < j < |nodes| ==> km(nodes[i], nodes[j]) >= CLUSTER_KM
  }

  /** Two landings either side of the dateline are never compared, however close: they stay
      two nodes closer than the cluster distance. */
  lemma DatelineIsMissed(km: Distance, grid: Grid)
    requires GridOk([LngLat(179.9, 0.0)], grid) && km(LngLat(179.9, 0.0), LngLat(-179.9, 0.0)) < CLUSTER_KM
    ensures NearestOf(km, [LngLat(179.9, 0.0)], Block(grid, LngLat(-179.9, 0.0)), LngLat(-179.9, 0.0), -1)
    ensures !LinearAnswer(km, [LngLat(179.9, 0.0)], LngLat(-179.9, 0.0), -1)
    ensures !Spread(km, [LngLat(179.9, 0.0)] + [LngLat(-179.9, 0.0)])
  {
    var node, q := LngLat(179.9, 0.0), LngLat(-179.9, 0.0);
    assert NormLon(179.9) == 179.9 by {
      assert ((179.9 + 540.0) / 360.0).Floor == 1;
    }
    assert !Adjacent(node, q);
    var ids := Block(grid, q);
    if ids != [] {
      BlockIsAdjacent([node], grid, q, ids[0]);
      assert false;
    }
    assert km([node][0], q) < CLUSTER_KM;
    var both := [node] + [q];
    assert km(both[0], both[1]) < CLUSTER_KM;
  }

  /** The one-degree cell of the place `p` names. */
  function CellAt(p: LngLat): Cell {
    Cell(Place(p).lon.Floor, p.lat.Floor)
  }

  predicate NextCells(c: Cell, d: Cell) {
    -1 <= c.x - d.x <= 1 && -1 <= c.y - d.y <= 1
  }

  /** A distance that grows with the cells: 30 km inside a block of cells, 300 km beyond. */
  function CellSteps(p: LngLat, q: LngLat): real {
    if Place(p) == Place(q) then 0.0 else if NextCells(CellAt(p), CellAt(q)) then 30.0 else 300.0
  }

  /** The regime can be met, for any normalised points, by a metric under which different
      points do cluster. */
  lemma RegimeCanBeMet(points: seq<LngLat>)
    requires forall p :: p in points ==> p == Place(p) && Norm(p) == p
    ensures IsMetric(CellSteps) && CellsApart(CellSteps, points)
    ensures 0.0 < CellSteps(LngLat(0.2, 0.2), LngLat(0.6, 0.2)) < CLUSTER_KM <= CellSteps(LngLat(0.2, 0.2), LngLat(7.0, 0.2))
  {
    forall p, q | p in points && q in points
      ensures PairSeparates(CellSteps, p, q)
    {
      assert CellAt(p) == CellKey(p) && CellAt(q) == Cell(q.lon.Floor, q.lat.Floor);
    }
    TurnsAre(180.2, 0);
    TurnsAre(180.6, 0);
    TurnsAre(187.0, 0);
  }

  // ----- stored nodes -----

  /** Stored longitudes are in canonical form, and no two nodes name the same place. */
  ghost predicate Stored(nodes: seq<LngLat>) {
    && (forall i :: 0 <= i < |nodes| ==> nodes[i] == Place(nodes[i]) && Norm(nodes[i]) == nodes[i])
    && (forall i, j :: 0 <= i < j < |nodes| ==> nodes[i] != nodes[j])
  }

  lemma NormFacts(p: LngLat)
    requires p.lon >= -540.0
    ensures Norm(p) == Place(p) == Place(Norm(p)) && Norm(Norm(p)) == Norm(p)
    ensures CellKey(Norm(p)) == Cell(Norm(p).lon.Floor, Norm(p).lat.Floor)
  {
    NormLonIsPlace(p);
    NormLonIsPlace(Norm(p));
  }

  lemma FilingKeepsGrid(nodes: seq<LngLat>, grid: Grid, q: LngLat)
    requires GridOk(nodes, grid)
    ensures GridOk(nodes + [q], FileUnder(grid, CellKey(q), |nodes|))
  {
    var nodes', grid' := nodes + [q], FileUnder(grid, CellKey(q), |nodes|);
    forall id: nat | id < |nodes'|
      ensures Filed(nodes', grid', id)
    {
      if id < |nodes| {
        assert Filed(nodes, grid, id);
      }
    }
    forall c: Cell | c in grid'
      ensures CellOk(nodes', grid', c)
    {
      if c in grid {
        assert CellOk(nodes, grid, c);
        assert forall k :: 0 <= k < |grid[c]| ==> grid[c][k] in grid[c];
      }
    }
  }

  /** A new node is found again: nothing else in its block is within the cluster distance. */
  lemma {:induction false} NewNodeIsFound(km: Distance, nodes: seq<LngLat>, grid: Grid, p: LngLat)
    requires GridOk(nodes, grid) && Stored(nodes) && IsMetric(km) && p.lon >= -540.0
    requires NearestOf(km, nodes, Block(grid, Norm(p)), Norm(p), -1)
    ensures var q := Norm(p);
      && Stored(nodes + [q])
      && GridOk(nodes + [q], FileUnder(grid, CellKey(q), |nodes|))
      && NearestOf(km, nodes + [q], Block(FileUnder(grid, CellKey(q), |nodes|), q), q, |nodes|)
  {
    var q, n := Norm(p), |nodes|;
    NormFacts(p);
    var nodes', grid' := nodes + [q], FileUnder(grid, CellKey(q), n);
    FilingKeepsGrid(nodes, grid, q);
    var ids := Block(grid', q);
    assert km(q, q) == 0.0;
    forall i: nat | i < n && Adjacent(nodes[i], q)
      ensures km(nodes[i], q) >= CLUSTER_KM
    {
      BlockIsAdjacent(nodes, grid, q, i);
      var k :| 0 <= k < |Block(grid, q)| && Block(grid, q)[k] == i;
      assert NoBetter(km, nodes, Block(grid, q), q, -1, k);
    }
    forall i: nat | i < n
      ensures nodes[i] != q
    {
      if nodes[i] == q {
        assert Adjacent(nodes[i], q);
      }
    }
    forall k: nat | k < |ids|
      ensures NoBetter(km, nodes', ids, q, n, k) && (ids[k] == n || km(nodes'[ids[k]], q) >= CLUSTER_KM)
    {
      BlockIsAdjacent(nodes', grid', q, ids[k]);
    }
    BlockIsAdjacent(nodes', grid', q, n);
    FirstOccurrence(ids, n);
    var k :| 0 <= k < |ids| && ids[k] == n && forall j :: 0 <= j < k ==> ids[j] != n;
    assert FirstAt(km, nodes', ids, q, n, k);
  }

  /** A node stored alone is found again when its point is looked up, exactly when the longitude
      is one that normalisation wraps to the canonical form. */
  lemma FoundAgainIff(km: Distance, p: LngLat)
    requires IsMetric(km)
    ensures var q := Norm(p); var grid := FileUnder(map[], CellKey(q), 0);
      NearestOf(km, [q], Block(grid, q), q, 0) <==> p.lon >= -540.0 || Rem360(p.lon + 540.0) == 0.0
  {
    var q := Norm(p);
    var grid := FileUnder(map[], CellKey(q), 0);
    assert GridOk([], map[]);
    FilingKeepsGrid([], map[], q);
    assert [] + [q] == [q] && GridOk([q], grid);
    CellOfNorm(p);
    BlockIsAdjacent([q], grid, q, 0);
    var ids := Block(grid, q);
    forall k: nat | k < |ids|
      ensures ids[k] == 0
    {
      BlockIsAdjacent([q], grid, q, ids[k]);
    }
    assert ids != [] ==> ids[0] in ids;
    if Adjacent(q, q) {
      assert 0 in ids && km(q, q) == 0.0 && [q][0] == q;
      assert ids[0] == 0 && FirstAt(km, [q], ids, q, 0, 0);
      assert forall k: nat {:trigger NoBetter(km, [q], ids, q, 0, k)} :: k < |ids| ==> NoBetter(km, [q], ids, q, 0, k);
    }
  }

  /** The second normalisation, inside `cellKey`, moves every other point by a turn. */
  lemma CellOfNorm(p: LngLat)
    ensures Adjacent(Norm(p), Norm(p)) <==> p.lon >= -540.0 || Rem360(p.lon + 540.0) == 0.0
  {
    if p.lon >= -540.0 {
      NormFacts(p);
    } else {
      var m := Turns(-(p.lon + 540.0));
      TurnsAre(-(p.lon + 540.0), m);
      var x := NormLon(p.lon);
      TurnsAre(x + 540.0, 0);
      TurnsAre(x + 540.0, 1);
    }
  }

  lemma {:induction false} FirstOccurrence(ids: seq<nat>, id: nat)
    requires id in ids
    ensures exists k :: 0 <= k < |ids| && ids[k] == id && forall j :: 0 <= j < k ==> ids[j] != id
  {
    if ids[0] != id {
      FirstOccurrence(ids[1..], id);
      var k :| 0 <= k < |ids[1..]| && ids[1..][k] == id && forall j :: 0 <= j < k ==> ids[1..][j] != id;
      assert ids[k + 1] == id;
      forall j | 0 <= j < k + 1
        ensures ids[j] != id
      {
        assert j > 0 ==> ids[j] == ids[1..][j - 1];
      }
    }
  }
}
