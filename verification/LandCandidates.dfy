// Which hubs a hub considers as neighbours: the ring search over one-degree cells.
module LandCandidates {
  import opened Geometry
  import opened Cells
  import opened LandGraph

  const RINGS: nat := 8
  const ENOUGH: nat := LAND_K * 4

  function HubCell(p: LngLat): Cell {
    Cell(p.lon.Floor, p.lat.Floor)
  }

  /** Hub `j` is filed at most `r` cells from hub `i` either way. */
  predicate InRing(hubs: seq<LngLat>, i: nat, r: nat, j: nat)
    requires i < |hubs|
  {
    var c := HubCell(hubs[i]);
    j < |hubs| && j != i && Within(r, HubCell(hubs[j]).x - c.x) && Within(r, HubCell(hubs[j]).y - c.y)
  }

  predicate Within(r: int, d: int) {
    -r <= d <= r
  }

  function Ring(hubs: seq<LngLat>, i: nat, r: nat): set<nat>
    requires i < |hubs|
  {
    set j: nat | j < |hubs| && InRing(hubs, i, r, j)
  }

  // ----- the order of the scan, and of the sort -----

  predicate ScanBefore(hubs: seq<LngLat>, a: nat, b: nat)
    requires a < |hubs| && b < |hubs|
  {
    CellBefore(HubCell(hubs[a]), HubCell(hubs[b])) || (HubCell(hubs[a]) == HubCell(hubs[b]) && a < b)
  }

  ghost predicate Known(hubs: seq<LngLat>, ids: seq<nat>) {
    forall k :: 0 <= k < |ids| ==> ids[k] < |hubs|
  }

  ghost predicate Scanned(hubs: seq<LngLat>, ids: seq<nat>) {
    && Known(hubs, ids)
    && forall k, l {:trigger ids[k], ids[l]} :: 0 <= k < l < |ids| ==> ScanBefore(hubs, ids[k], ids[l])
  }

  /** By distance from hub `i`; equally distant hubs in scan order. */
  predicate Nearer(hubs: seq<LngLat>, km: Distance, i: nat, a: nat, b: nat)
    requires i < |hubs| && a < |hubs| && b < |hubs|
  {
    km(hubs[i], hubs[a]) < km(hubs[i], hubs[b]) || (km(hubs[i], hubs[a]) == km(hubs[i], hubs[b]) && ScanBefore(hubs, a, b))
  }

  ghost predicate Sorted(hubs: seq<LngLat>, km: Distance, i: nat, ids: seq<nat>)
    requires i < |hubs|
  {
    && Known(hubs, ids)
    && forall k, l {:trigger ids[k], ids[l]} :: 0 <= k < l < |ids| ==> Nearer(hubs, km, i, ids[k], ids[l])
  }

  /** The candidate list of hub `i`: all hubs of the first ring that holds enough, or of the
      last one, nearest first. */
  ghost predicate Chosen(hubs: seq<LngLat>, km: Distance, i: nat, r: nat, cands: seq<nat>)
    requires i < |hubs|
  {
    && 1 <= r <= RINGS && FirstFull(hubs, i, r)
    && Sorted(hubs, km, i, cands)
    && forall j: nat :: j in cands <==> InRing(hubs, i, r, j)
  }

  ghost predicate ChosenFor(hubs: seq<LngLat>, km: Distance, i: nat, cands: seq<nat>) {
    i < |hubs| && exists r: nat :: Chosen(hubs, km, i, r, cands)
  }

  ghost predicate FirstFull(hubs: seq<LngLat>, i: nat, r: nat)
    requires i < |hubs|
  {
    && (r < RINGS ==> |Ring(hubs, i, r)| >= ENOUGH)
    && forall q: nat {:trigger Ring(hubs, i, q)} :: 1 <= q < r ==> |Ring(hubs, i, q)| < ENOUGH
  }

  // ----- filing the hubs -----

  /** The hubs before `n` in cell `c`, in order. */
  function FiledAt(hubs: seq<LngLat>, n: nat, c: Cell): seq<nat>
    requires n <= |hubs|
  {
    if n == 0 then [] else FiledAt(hubs, n - 1, c) + if HubCell(hubs[n - 1]) == c then [n - 1] else []
  }

  ghost predicate Indexed(hubs: seq<LngLat>, n: nat, grid: Grid)
    requires n <= |hubs|
  {
    forall x, y {:trigger Mates(grid, x, y)} :: Mates(grid, x, y) == FiledAt(hubs, n, Cell(x, y))
  }

  lemma {:induction false} FiledAtHolds(hubs: seq<LngLat>, n: nat, c: Cell)
    requires n <= |hubs|
    ensures forall id: nat :: id in FiledAt(hubs, n, c) <==> id < n && HubCell(hubs[id]) == c
    ensures Scanned(hubs, FiledAt(hubs, n, c))
  {
    if n > 0 {
      FiledAtHolds(hubs, n - 1, c);
    }
  }

  lemma FileNext(hubs: seq<LngLat>, i: nat, grid: Grid)
    requires i < |hubs| && Indexed(hubs, i, grid)
    ensures Indexed(hubs, i + 1, FileUnder(grid, HubCell(hubs[i]), i))
  {
    var c := HubCell(hubs[i]);
    var grid' := FileUnder(grid, c, i);
    forall x, y
      ensures Mates(grid', x, y) == FiledAt(hubs, i + 1, Cell(x, y))
    {
      assert Mates(grid, x, y) == FiledAt(hubs, i, Cell(x, y));
      assert Mates(grid', x, y) == if Cell(x, y) == c then Mates(grid, x, y) + [i] else Mates(grid, x, y);
    }
  }

  method IndexHubs(hubs: seq<LngLat>) returns (grid: Grid)
    ensures Indexed(hubs, |hubs|, grid)
  {
    grid := map[];
    var i := 0;
    while i < |hubs|
      invariant 0 <= i <= |hubs| && Indexed(hubs, i, grid)
    {
      FileNext(hubs, i, grid);
      grid := FileUnder(grid, HubCell(hubs[i]), i);
      i := i + 1;
    }
  }

  // ----- scanning one ring -----

  /** `ids` without hub `i`, in the order of `ids`. */
  function Without(ids: seq<nat>, i: nat): seq<nat> {
    if ids == [] then [] else Without(ids[..|ids| - 1], i) + if ids[|ids| - 1] == i then [] else [ids[|ids| - 1]]
  }

  lemma {:induction false} WithoutHolds(ids: seq<nat>, i: nat)
    ensures forall j: nat :: j in Without(ids, i) <==> j in ids && j != i
  {
    if ids != [] {
      WithoutHolds(ids[..|ids| - 1], i);
      assert ids == ids[..|ids| - 1] + [ids[|ids| - 1]];
    }
  }

  lemma ScannedSnoc(hubs: seq<LngLat>, ids: seq<nat>, id: nat)
    requires Scanned(hubs, ids) && id < |hubs| && forall j :: j in ids ==> j < |hubs| && ScanBefore(hubs, j, id)
    ensures Scanned(hubs, ids + [id])
  {
  }

  lemma {:induction false} WithoutKeeps(hubs: seq<LngLat>, ids: seq<nat>, i: nat)
    requires Scanned(hubs, ids)
    ensures Scanned(hubs, Without(ids, i))
  {
    if ids != [] {
      var init, last := ids[..|ids| - 1], ids[|ids| - 1];
      WithoutKeeps(hubs, init, i);
      WithoutHolds(init, i);
      if last != i {
        ScannedSnoc(hubs, Without(init, i), last);
      }
    }
  }

  /** `cands` holds the hubs other than `i` in the columns from `lo` to before `x` and, in column
      `x`, in the rows from `bottom` to before `y`. */
  ghost predicate ScannedTo(hubs: seq<LngLat>, i: nat, lo: int, bottom: int, top: int, x: int, y: int, cands: seq<nat>) {
    && Scanned(hubs, cands)
    && forall j: nat :: j in cands <==> j < |hubs| && j != i && Covers(lo, bottom, top, x, y, HubCell(hubs[j]))
  }

  predicate Covers(lo: int, bottom: int, top: int, x: int, y: int, c: Cell) {
    (lo <= c.x < x && bottom <= c.y <= top) || (c.x == x && bottom <= c.y < y)
  }

  /** One cell: its hubs come after everything scanned so far. */
  lemma CellScanned(hubs: seq<LngLat>, i: nat, lo: int, bottom: int, top: int, x: int, y: int, cands: seq<nat>)
    requires lo <= x && bottom <= y <= top && ScannedTo(hubs, i, lo, bottom, top, x, y, cands)
    ensures ScannedTo(hubs, i, lo, bottom, top, x, y + 1, cands + Without(FiledAt(hubs, |hubs|, Cell(x, y)), i))
  {
    var c := Cell(x, y);
    FiledAtHolds(hubs, |hubs|, c);
    var more := Without(FiledAt(hubs, |hubs|, c), i);
    WithoutKeeps(hubs, FiledAt(hubs, |hubs|, c), i);
    WithoutHolds(FiledAt(hubs, |hubs|, c), i);
    forall k, l | 0 <= k < |cands| && 0 <= l < |more|
      ensures ScanBefore(hubs, cands[k], more[l])
    {
      assert cands[k] in cands && more[l] in more;
    }
  }

  method ScanColumn(grid: Grid, hubs: seq<LngLat>, i: nat, r: nat, x: int, cy: int, ghost lo: int, cands0: seq<nat>)
    returns (cands: seq<nat>)
    requires Indexed(hubs, |hubs|, grid) && lo <= x
    requires ScannedTo(hubs, i, lo, cy - r, cy + r, x, cy - r, cands0)
    ensures ScannedTo(hubs, i, lo, cy - r, cy + r, x + 1, cy - r, cands)
  {
    cands := cands0;
    var dy := -(r as int);
    while dy <= r
      invariant 0 <= dy + r && dy <= r + 1
      invariant ScannedTo(hubs, i, lo, cy - r, cy + r, x, cy + dy, cands)
    {
      var ids := Mates(grid, x, cy + dy);
      CellScanned(hubs, i, lo, cy - r, cy + r, x, cy + dy, cands);
      cands := cands + Without(ids, i);
      dy := dy + 1;
    }
  }

  /** All hubs within `r` cells, in scan order. */
  method ScanRing(grid: Grid, hubs: seq<LngLat>, i: nat, r: nat) returns (cands: seq<nat>)
    requires Indexed(hubs, |hubs|, grid) && i < |hubs|
    ensures Scanned(hubs, cands) && forall j: nat :: j in cands <==> InRing(hubs, i, r, j)
  {
    var c := HubCell(hubs[i]);
    cands := [];
    var dx := -(r as int);
    while dx <= r
      invariant 0 <= dx + r && dx <= r + 1
      invariant ScannedTo(hubs, i, c.x - r, c.y - r, c.y + r, c.x + dx, c.y - r, cands)
    {
      cands := ScanColumn(grid, hubs, i, r, c.x + dx, c.y, c.x - r, cands);
      dx := dx + 1;
    }
  }

  // ----- sorting -----

  function Inserted(ids: seq<nat>, k: nat, id: nat): seq<nat>
    requires k <= |ids|
  {
    ids[..k] + [id] + ids[k..]
  }

  lemma InsertSorted(hubs: seq<LngLat>, km: Distance, i: nat, ids: seq<nat>, k: nat, id: nat)
    requires i < |hubs| && Sorted(hubs, km, i, ids) && k <= |ids| && id < |hubs|
    requires forall l :: 0 <= l < k ==> Nearer(hubs, km, i, ids[l], id)
    requires forall l :: k <= l < |ids| ==> Nearer(hubs, km, i, id, ids[l])
    ensures Sorted(hubs, km, i, Inserted(ids, k, id)) && |Inserted(ids, k, id)| == |ids| + 1
    ensures forall j: nat :: j in Inserted(ids, k, id) <==> j in ids || j == id
  {
    assert ids == ids[..k] + ids[k..];
  }

  /** Put `id` behind every hub that is no farther. */
  method InsertByDistance(hubs: seq<LngLat>, km: Distance, i: nat, ids: seq<nat>, id: nat) returns (r: seq<nat>)
    requires i < |hubs| && Sorted(hubs, km, i, ids) && id < |hubs|
    requires forall l :: 0 <= l < |ids| ==> ScanBefore(hubs, ids[l], id)
    ensures Sorted(hubs, km, i, r) && |r| == |ids| + 1 && forall j: nat :: j in r <==> j in ids || j == id
  {
    var k := |ids|;
    while k > 0 && km(hubs[i], hubs[ids[k - 1]]) > km(hubs[i], hubs[id])
      invariant 0 <= k <= |ids|
      invariant forall l :: k <= l < |ids| ==> km(hubs[i], hubs[ids[l]]) > km(hubs[i], hubs[id])
    {
      k := k - 1;
    }
    InsertSorted(hubs, km, i, ids, k, id);
    r := Inserted(ids, k, id);
  }

  /** The stable sort by distance. */
  method SortByDistance(hubs: seq<LngLat>, km: Distance, i: nat, ids: seq<nat>) returns (sorted: seq<nat>)
    requires i < |hubs| && Scanned(hubs, ids)
    ensures Sorted(hubs, km, i, sorted) && |sorted| == |ids| && forall j: nat :: j in sorted <==> j in ids
  {
    sorted := [];
    var k := 0;
    while k < |ids|
      invariant 0 <= k <= |ids| && |sorted| == k
      invariant Sorted(hubs, km, i, sorted) && forall j: nat :: j in sorted <==> j in ids[..k]
    {
      forall l | 0 <= l < |sorted|
        ensures ScanBefore(hubs, sorted[l], ids[k])
      {
        assert sorted[l] in ids[..k];
      }
      assert ids[..k + 1] == ids[..k] + [ids[k]];
      sorted := InsertByDistance(hubs, km, i, sorted, ids[k]);
      k := k + 1;
    }
    assert ids[..k] == ids;
  }

  // ----- the search of one hub, and of all -----

  /** A list in scan order names every hub once. */
  lemma {:induction false} ScannedCounts(hubs: seq<LngLat>, ids: seq<nat>, s: set<nat>)
    requires Scanned(hubs, ids) && forall j: nat :: j in ids <==> j in s
    ensures |ids| == |s|
  {
    if ids == [] {
      assert s == {};
    } else {
      var last, init := ids[|ids| - 1], ids[..|ids| - 1];
      assert ids == init + [last];
      assert last !in init by {
        forall k | 0 <= k < |init|
          ensures init[k] != last
        {
          assert ScanBefore(hubs, ids[k], ids[|ids| - 1]);
        }
      }
      ScannedCounts(hubs, init, s - {last});
    }
  }

  /** The search of one hub: wider rings until enough hubs are found, then the sort. */
  method Candidates(grid: Grid, hubs: seq<LngLat>, km: Distance, i: nat) returns (cands: seq<nat>)
    requires Indexed(hubs, |hubs|, grid) && i < |hubs|
    ensures ChosenFor(hubs, km, i, cands)
  {
    cands := [];
    ghost var ring := 0;
    var r := 1;
    while r <= RINGS && |cands| < ENOUGH
      invariant 1 <= r <= RINGS + 1 && ring == r - 1
      invariant r > 1 ==> Scanned(hubs, cands) && forall j: nat :: j in cands <==> InRing(hubs, i, ring, j)
      invariant r > 1 ==> |cands| == |Ring(hubs, i, ring)|
      invariant r == 1 ==> cands == []
      invariant forall q: nat {:trigger Ring(hubs, i, q)} :: 1 <= q < r - 1 ==> |Ring(hubs, i, q)| < ENOUGH
    {
      cands := ScanRing(grid, hubs, i, r);
      ScannedCounts(hubs, cands, Ring(hubs, i, r));
      ring := r;
      r := r + 1;
    }
    cands := SortByDistance(hubs, km, i, cands);
    assert Chosen(hubs, km, i, ring, cands);
  }

  /** The candidate lists of all hubs, as `LandGraph.World` takes them. */
  method AllCandidates(hubs: seq<LngLat>, km: Distance) returns (near: seq<seq<nat>>)
    ensures forall i, k :: 0 <= i < |near| && 0 <= k < |near[i]| ==> near[i][k] < |hubs| && near[i][k] != i
    ensures |near| == |hubs| && forall i: nat {:trigger ChosenFor(hubs, km, i, near[i])} :: i < |hubs| ==> ChosenFor(hubs, km, i, near[i])
  {
    var grid := IndexHubs(hubs);
    near := [];
    var i := 0;
    while i < |hubs|
      invariant 0 <= i <= |hubs| && |near| == i
      invariant forall k: nat {:trigger ChosenFor(hubs, km, k, near[k])} :: k < i ==> ChosenFor(hubs, km, k, near[k])
    {
      var cands := Candidates(grid, hubs, km, i);
      near := near + [cands];
      i := i + 1;
    }
    forall x, k | 0 <= x < |near| && 0 <= k < |near[x]|
      ensures near[x][k] < |hubs| && near[x][k] != x
    {
      assert ChosenFor(hubs, km, x, near[x]) && near[x][k] in near[x];
    }
  }

  // ----- what the lists mean -----

  lemma SortedSnoc(hubs: seq<LngLat>, km: Distance, i: nat, ids: seq<nat>)
    requires i < |hubs| && Sorted(hubs, km, i, ids) && ids != []
    ensures Sorted(hubs, km, i, ids[..|ids| - 1])
    ensures forall j: nat {:trigger j in ids[..|ids| - 1]} ::
      j in ids[..|ids| - 1] <==> j in ids && j < |hubs| && Nearer(hubs, km, i, j, ids[|ids| - 1])
  {
    assert ids == ids[..|ids| - 1] + [ids[|ids| - 1]];
  }

  lemma {:induction false} SortedIsUnique(hubs: seq<LngLat>, km: Distance, i: nat, a: seq<nat>, b: seq<nat>)
    requires i < |hubs| && Sorted(hubs, km, i, a) && Sorted(hubs, km, i, b) && forall j: nat :: j in a <==> j in b
    ensures a == b
  {
    assert a != [] ==> a[|a| - 1] in a;
    assert b != [] ==> b[|b| - 1] in b;
    if a != [] && b != [] {
      SortedSnoc(hubs, km, i, a);
      SortedSnoc(hubs, km, i, b);
      SortedIsUnique(hubs, km, i, a[..|a| - 1], b[..|b| - 1]);
      assert a == a[..|a| - 1] + [a[|a| - 1]] && b == b[..|b| - 1] + [b[|b| - 1]];
    }
  }

  /** Hubs in the ring that are no farther from hub `i` than `d`. */
  ghost function InReach(hubs: seq<LngLat>, km: Distance, i: nat, r: nat, d: real): set<nat>
    requires i < |hubs|
  {
    set j: nat | j < |hubs| && InRing(hubs, i, r, j) && km(hubs[i], hubs[j]) <= d
  }

  /** The list starts with `m` nearest hubs: whenever a hub is not in it, the list has `m` hubs
      and that one is no nearer than any of the first `m`. */
  ghost predicate FirstAreNearest(hubs: seq<LngLat>, km: Distance, i: nat, cands: seq<nat>, m: nat)
    requires i < |hubs| && Known(hubs, cands)
  {
    forall j: nat :: j < |hubs| && j != i && j !in cands ==>
      m <= |cands| && forall k: nat :: k < m ==> km(hubs[i], hubs[cands[k]]) <= km(hubs[i], hubs[j])
  }

  /** Every hub left out by the ring is outdone by at least `m` hubs of the ring. */
  ghost predicate RingSuffices(hubs: seq<LngLat>, km: Distance, i: nat, r: nat, m: nat)
    requires i < |hubs|
  {
    forall j: nat :: j < |hubs| && j != i && !InRing(hubs, i, r, j) ==> |InReach(hubs, km, i, r, km(hubs[i], hubs[j]))| >= m
  }

  /** The first `k` candidates, as a set. */
  lemma {:induction false} PrefixCounts(hubs: seq<LngLat>, km: Distance, i: nat, cands: seq<nat>, k: nat)
    requires i < |hubs| && Sorted(hubs, km, i, cands) && k <= |cands|
    ensures |set l | 0 <= l < k :: cands[l]| == k
  {
    var s := set l | 0 <= l < k :: cands[l];
    if k == 0 {
      assert s == {};
    } else {
      PrefixCounts(hubs, km, i, cands, k - 1);
      var t := set l | 0 <= l < k - 1 :: cands[l];
      assert cands[k - 1] !in t;
      assert s == t + {cands[k - 1]};
    }
  }

  lemma SubsetIsSmaller(s: set<nat>, t: set<nat>)
    requires s <= t
    ensures |s| <= |t|
  {
    assert t == s + (t - s);
  }

  /** Whether the `m`-th candidate is within `d` is a matter of counting the ring. */
  lemma WithinExactlyWhenCounted(hubs: seq<LngLat>, km: Distance, i: nat, r: nat, cands: seq<nat>, m: nat, d: real)
    requires i < |hubs| && Chosen(hubs, km, i, r, cands) && 0 < m <= |cands|
    ensures km(hubs[i], hubs[cands[m - 1]]) <= d <==> |InReach(hubs, km, i, r, d)| >= m
  {
    var reach := InReach(hubs, km, i, r, d);
    if km(hubs[i], hubs[cands[m - 1]]) <= d {
      PrefixCounts(hubs, km, i, cands, m);
      SubsetIsSmaller(set l | 0 <= l < m :: cands[l], reach);
    } else {
      PrefixCounts(hubs, km, i, cands, m - 1);
      SubsetIsSmaller(reach, set l | 0 <= l < m - 1 :: cands[l]);
    }
  }

  /** The ring search finds the `m` nearest hubs exactly when every hub beyond the ring is
      outdone by at least `m` hubs of the ring. */
  lemma FirstAreNearestIff(hubs: seq<LngLat>, km: Distance, i: nat, r: nat, cands: seq<nat>, m: nat)
    requires i < |hubs| && Chosen(hubs, km, i, r, cands)
    ensures FirstAreNearest(hubs, km, i, cands, m) <==> RingSuffices(hubs, km, i, r, m)
  {
    forall j: nat | m > 0 && j < |hubs| && j != i && !InRing(hubs, i, r, j)
      ensures |InReach(hubs, km, i, r, km(hubs[i], hubs[j]))| >= m
        <==> m <= |cands| && km(hubs[i], hubs[cands[m - 1]]) <= km(hubs[i], hubs[j])
    {
      var reach := InReach(hubs, km, i, r, km(hubs[i], hubs[j]));
      if m <= |cands| {
        WithinExactlyWhenCounted(hubs, km, i, r, cands, m, km(hubs[i], hubs[j]));
      } else {
        PrefixCounts(hubs, km, i, cands, |cands|);
        SubsetIsSmaller(reach, set l | 0 <= l < |cands| :: cands[l]);
      }
    }
  }

  /** Cells do not wrap at the antimeridian: two hubs either side of it never see each other,
      however close they are, so not even the nearest one is found. */
  lemma AntimeridianHidesNeighbours(km: Distance, r: nat, cands: seq<nat>)
    requires Chosen([LngLat(179.9, 0.0), LngLat(-179.9, 0.0)], km, 0, r, cands)
    ensures cands == [] && !FirstAreNearest([LngLat(179.9, 0.0), LngLat(-179.9, 0.0)], km, 0, cands, 1)
  {
    var hubs := [LngLat(179.9, 0.0), LngLat(-179.9, 0.0)];
    assert HubCell(hubs[0]) == Cell(179, 0) && HubCell(hubs[1]) == Cell(-180, 0);
    assert forall j: nat :: !InRing(hubs, 0, r, j);
    SortedIsUnique(hubs, km, 0, cands, []);
    assert 1 !in cands;
  }

  /** With these lists, a vetted hub of the ring is left out only for six that are no farther. */
  lemma LeftOutOnlyForNearer(w: World, log: seq<Link>, i: nat, r: nat, j: nat, p: Link)
    requires w.Valid() && i < |w.hubs| && Chosen(w.hubs, w.km, i, r, w.near[i])
    requires forall k: nat {:trigger Served(w, log, i, k)} :: k < |w.near[i]| ==> Served(w, log, i, k)
    requires InRing(w.hubs, i, r, j) && w.MayJoin(i, j) && !LinkedInTurn(log, i, j)
    ensures Owned(log, i) == LAND_K
    ensures p in log && p.a == i ==> p.b < |w.hubs| && w.km(w.hubs[i], w.hubs[p.b]) <= w.km(w.hubs[i], w.hubs[j])
  {
    var k :| 0 <= k < |w.near[i]| && w.near[i][k] == j;
    assert Served(w, log, i, k);
    if p in log && p.a == i {
      assert p.b in Earlier(w, i, k);
    }
  }

  /** The candidate list is determined by the hubs and their distances. */
  lemma ChosenIsUnique(hubs: seq<LngLat>, km: Distance, i: nat, r: nat, a: seq<nat>, q: nat, b: seq<nat>)
    requires i < |hubs| && Chosen(hubs, km, i, r, a) && Chosen(hubs, km, i, q, b)
    ensures r == q && a == b
  {
    SortedIsUnique(hubs, km, i, a, b);
  }
}
