// Routing over the cable network alone: every landing near an end point may be boarded.
module CableRoutes {
  import opened Options
  import opened Geometry
  import opened Graphs
  import opened ShortestPaths
  import opened CableGraph
  import opened CableGrid

  const ENDPOINT_SNAP_KM: real := 800.0

  // ----- the quadratic scan -----

  /** `u` is an open node of least distance among the first `n`; -1 when none is open. */
  ghost predicate NextOpen(c: Columns, u: int, n: nat) {
    && n <= |c.dist| == |c.done|
    && (u < 0 ==> forall y: nat :: y < n && !c.done[y] ==> c.dist[y].Inf?)
    && (u >= 0 ==>
        && u < n && !c.done[u] && c.dist[u].Fin?
        && forall y: nat :: y < n && !c.done[y] && c.dist[y].Fin? ==> c.dist[u].km <= c.dist[y].km)
  }

  method PickOpen(dist: array<Dist>, visited: array<bool>, ghost c: Columns) returns (u: int)
    requires dist[..] == c.dist && visited[..] == c.done && dist.Length == visited.Length
    ensures NextOpen(c, u, |c.dist|)
  {
    u := -1;
    var ud := Inf;
    var i := 0;
    while i < dist.Length
      invariant 0 <= i <= dist.Length && NextOpen(c, u, i)
      invariant ud == if u < 0 then Inf else c.dist[u]
    {
      if !visited[i] && Less(dist[i], ud) {
        ud, u := dist[i], i;
      }
      i := i + 1;
    }
  }

  /** The relaxation loop without a heap. */
  method RelaxAll(g: Graph, ghost seed: seq<Dist>, u: nat, ghost d: real, ghost c0: Columns, ghost trail0: seq<Trail>,
                  dist: array<Dist>, prevFrom: array<int>, prevBranch: array<int>, prevRev: array<bool>, visited: array<bool>)
    returns (ghost c: Columns, ghost trail: seq<Trail>)
    requires prevFrom != prevBranch && prevRev != visited
    requires c0 == Columns(dist[..], prevFrom[..], prevBranch[..], prevRev[..], visited[..])
    requires u < |g| && SearchInv(g, seed, c0, trail0, u, 0, d) && c0.done[u] && c0.dist[u] == Fin(d)
    modifies dist, prevFrom, prevBranch, prevRev
    ensures c == Columns(dist[..], prevFrom[..], prevBranch[..], prevRev[..], visited[..])
    ensures SearchInv(g, seed, c, trail, -1, 0, d)
  {
    c, trail := c0, trail0;
    var k := 0;
    while k < |g[u]|
      invariant 0 <= k <= |g[u]|
      invariant c == Columns(dist[..], prevFrom[..], prevBranch[..], prevRev[..], visited[..])
      invariant SearchInv(g, seed, c, trail, u, k, d) && c.done[u] && c.dist[u] == Fin(d)
    {
      c, trail := RelaxOne(g, seed, u, k, d, c, trail, dist, prevFrom, prevBranch, prevRev, visited);
      k := k + 1;
    }
    Exhaust(g, seed, c, trail, u, d);
  }

  method RelaxOne(g: Graph, ghost seed: seq<Dist>, u: nat, k: nat, ghost d: real, ghost c0: Columns, ghost trail0: seq<Trail>,
                  dist: array<Dist>, prevFrom: array<int>, prevBranch: array<int>, prevRev: array<bool>, visited: array<bool>)
    returns (ghost c: Columns, ghost trail: seq<Trail>)
    requires prevFrom != prevBranch && prevRev != visited
    requires c0 == Columns(dist[..], prevFrom[..], prevBranch[..], prevRev[..], visited[..])
    requires u < |g| && k < |g[u]| && SearchInv(g, seed, c0, trail0, u, k, d) && c0.done[u] && c0.dist[u] == Fin(d)
    modifies dist, prevFrom, prevBranch, prevRev
    ensures c == Columns(dist[..], prevFrom[..], prevBranch[..], prevRev[..], visited[..])
    ensures SearchInv(g, seed, c, trail, u, k + 1, d) && c.dist[u] == Fin(d) && c.done == c0.done
  {
    c, trail := c0, trail0;
    var e := g[u][k];
    assert e in g[u];
    var nd := dist[u].km + e.w;
    if !visited[e.to] && Less(Fin(nd), dist[e.to]) {
      Lower(g, seed, c, trail, u, k);
      Improve(u, e, nd, c, dist, prevFrom, prevBranch, prevRev);
      c, trail := Lowered(c, u, e), trail[e.to := Trail(trail[u].start, trail[u].es + [e])];
    } else {
      Skip(g, seed, c, trail, u, k, d);
    }
  }

  /** What the finished scan says: distances are realised by trails, and no walk from any
      seed is cheaper. */
  ghost predicate Exhausted(g: Graph, seed: seq<Dist>, c: Columns, trail: seq<Trail>) {
    && TreeOk(g, seed, c, trail)
    && forall s: nat, es: seq<Edge>, v: nat :: s < |seed| && seed[s].Fin? && Walk(g, s, es, v) ==>
         v < |g| && c.dist[v].Fin? && c.dist[v].km <= seed[s].km + Cost(es)
  }

  lemma NothingOpenIsExhausted(g: Graph, seed: seq<Dist>, c: Columns, trail: seq<Trail>, front: real)
    requires SearchInv(g, seed, c, trail, -1, 0, front) && NextOpen(c, -1, |c.dist|)
    ensures Exhausted(g, seed, c, trail)
  {
    forall s: nat, es: seq<Edge>, v: nat | s < |seed| && seed[s].Fin? && Walk(g, s, es, v)
      ensures v < |g| && c.dist[v].Fin? && c.dist[v].km <= seed[s].km + Cost(es)
    {
      Complete(g, seed, c, trail, front, s, es, v);
    }
  }

  /** One round of the scan: settle the nearest open node, or stop when there is none. */
  method Round(g: Graph, ghost seed: seq<Dist>, ghost front0: real, ghost c0: Columns, ghost trail0: seq<Trail>,
               dist: array<Dist>, prevFrom: array<int>, prevBranch: array<int>, prevRev: array<bool>, visited: array<bool>)
    returns (stop: bool, ghost front: real, ghost c: Columns, ghost trail: seq<Trail>)
    requires prevFrom != prevBranch && prevRev != visited
    requires c0 == Columns(dist[..], prevFrom[..], prevBranch[..], prevRev[..], visited[..])
    requires SearchInv(g, seed, c0, trail0, -1, 0, front0)
    modifies dist, prevFrom, prevBranch, prevRev, visited
    ensures c == Columns(dist[..], prevFrom[..], prevBranch[..], prevRev[..], visited[..])
    ensures SearchInv(g, seed, c, trail, -1, 0, front)
    ensures if stop then Exhausted(g, seed, c, trail) else Open(c.done) < Open(c0.done)
  {
    front, c, trail := front0, c0, trail0;
    var u := PickOpen(dist, visited, c);
    if u < 0 {
      NothingOpenIsExhausted(g, seed, c, trail, front);
      return true, front, c, trail;
    }
    Settle(g, seed, c, trail, front, u);
    OpenDrops(c.done, u);
    visited[u] := true;
    c, front := c.(done := c.done[u := true]), c.dist[u].km;
    assert visited[..] == c.done;
    ghost var done := c.done;
    c, trail := RelaxAll(g, seed, u, front, c, trail, dist, prevFrom, prevBranch, prevRev, visited);
    stop := false;
  }

  /** The scan run to completion from seeded distances. */
  method ScanSearch(g: Graph, dist: array<Dist>)
    returns (prevFrom: array<int>, prevBranch: array<int>, prevRev: array<bool>, ghost c: Columns, ghost trail: seq<Trail>)
    requires WellFormed(g) && dist.Length == |g|
    requires forall v :: 0 <= v < |g| && dist[v].Fin? ==> dist[v].km >= 0.0
    modifies dist
    ensures c == Columns(dist[..], prevFrom[..], prevBranch[..], prevRev[..], c.done)
    ensures Exhausted(g, old(dist[..]), c, trail)
  {
    ghost var seed := dist[..];
    prevFrom := new int[|g|](_ => -1);
    prevBranch := new int[|g|](_ => 0);
    prevRev := new bool[|g|](_ => false);
    var visited := new bool[|g|](_ => false);
    c := Columns(dist[..], prevFrom[..], prevBranch[..], prevRev[..], visited[..]);
    ghost var front := 0.0;
    trail := Start(g, seed, c, front);
    var stop := false;
    while !stop
      invariant fresh(prevFrom) && fresh(prevBranch) && fresh(prevRev) && fresh(visited)
      invariant prevFrom != prevBranch && prevRev != visited
      invariant c == Columns(dist[..], prevFrom[..], prevBranch[..], prevRev[..], visited[..])
      invariant SearchInv(g, seed, c, trail, -1, 0, front)
      invariant stop ==> Exhausted(g, seed, c, trail)
      decreases !stop, Open(c.done)
    {
      stop, front, c, trail := Round(g, seed, front, c, trail, dist, prevFrom, prevBranch, prevRev, visited);
    }
  }

  // ----- boarding, leaving, drawing -----

  predicate Snaps(km: Distance, nodes: seq<LngLat>, p: LngLat, i: nat)
    requires i < |nodes|
  {
    km(nodes[i], p) <= ENDPOINT_SNAP_KM
  }

  /** Nodes at which a route may start: all within the snap radius, else the nearest one. */
  ghost predicate Boards(km: Distance, nodes: seq<LngLat>, p: LngLat, i: nat) {
    && i < |nodes|
    && (Snaps(km, nodes, p, i)
        || (FirstNearest(km, nodes, p, i) && forall j :: 0 <= j < |nodes| ==> !Snaps(km, nodes, p, j)))
  }

  ghost predicate Reachable(km: Distance, nodes: seq<LngLat>, g: Graph, a: LngLat, i: nat) {
    exists s :: Boards(km, nodes, a, s) && Reach(g, s, i)
  }

  /** Nodes at which it may end: reachable ones within the radius of `b`; when there is none,
      the node nearest to `b`, provided it is reachable. */
  ghost predicate Leaves(km: Distance, nodes: seq<LngLat>, g: Graph, a: LngLat, b: LngLat, i: nat) {
    && i < |nodes| && Reachable(km, nodes, g, a, i)
    && (Snaps(km, nodes, b, i)
        || (FirstNearest(km, nodes, b, i)
            && forall j: nat :: j < |nodes| && Snaps(km, nodes, b, j) ==> !Reachable(km, nodes, g, a, j)))
  }

  /** Some landing can be reached and left at. */
  ghost predicate Routable(km: Distance, nodes: seq<LngLat>, g: Graph, a: LngLat, b: LngLat) {
    exists i: nat :: Leaves(km, nodes, g, a, b, i)
  }

  /** The seeds that boarding from `a` writes into the distance array. */
  ghost predicate SeedsFor(km: Distance, nodes: seq<LngLat>, a: LngLat, seed: seq<Dist>) {
    && |seed| == |nodes|
    && forall i: nat {:trigger seed[i]} :: i < |nodes| ==> seed[i] == if Boards(km, nodes, a, i) then Fin(km(nodes[i], a)) else Inf
  }

  method SeedFrom(km: Distance, nodes: seq<LngLat>, a: LngLat) returns (dist: array<Dist>)
    requires nodes != []
    ensures fresh(dist) && SeedsFor(km, nodes, a, dist[..])
  {
    dist := new Dist[|nodes|](_ => Inf);
    var seeded, i := 0, 0;
    while i < |nodes|
      invariant 0 <= i <= |nodes| == dist.Length
      invariant forall j: nat :: j < |nodes| ==>
        dist[j] == if j < i && Snaps(km, nodes, a, j) then Fin(km(nodes[j], a)) else Inf
      invariant seeded == 0 <==> forall j: nat :: j < i ==> !Snaps(km, nodes, a, j)
      invariant seeded >= 0
    {
      var d := km(nodes[i], a);
      if d <= ENDPOINT_SNAP_KM {
        dist[i] := Fin(d);
        seeded := seeded + 1;
      }
      i := i + 1;
    }
    if seeded == 0 {
      var ia := Nearest(km, nodes, a);
      dist[ia] := Fin(km(nodes[ia], a));
    }
  }

  /** `e` offers the cheapest cable distance plus access leg among the first `n` exits. */
  ghost predicate BestExit(km: Distance, nodes: seq<LngLat>, b: LngLat, dist: seq<Dist>, e: int, n: nat) {
    && n <= |nodes| == |dist|
    && (e < 0 ==> forall i: nat :: i < n && dist[i].Fin? ==> !Snaps(km, nodes, b, i))
    && (e >= 0 ==>
        && e < n && dist[e].Fin? && Snaps(km, nodes, b, e)
        && forall i: nat :: i < n && dist[i].Fin? && Snaps(km, nodes, b, i) ==>
             dist[e].km + km(nodes[e], b) <= dist[i].km + km(nodes[i], b))
  }

  method PickExit(km: Distance, nodes: seq<LngLat>, b: LngLat, dist: array<Dist>) returns (e: int)
    requires dist.Length == |nodes|
    ensures BestExit(km, nodes, b, dist[..], e, |nodes|)
  {
    e := -1;
    var best := Inf;
    var i := 0;
    while i < |nodes|
      invariant 0 <= i <= |nodes| && BestExit(km, nodes, b, dist[..], e, i)
      invariant best == if e < 0 then Inf else Fin(dist[e].km + km(nodes[e], b))
    {
      if dist[i].Fin? {
        var d := km(nodes[i], b);
        if d <= ENDPOINT_SNAP_KM && Less(Fin(dist[i].km + d), best) {
          e, best := i, Fin(dist[i].km + d);
        }
      }
      i := i + 1;
    }
  }

  /** The polyline of one edge out of `u`: its cable, reversed when flagged, or a great circle. */
  function Drawn(great: (LngLat, LngLat) -> Polyline, nodes: seq<LngLat>, branches: seq<Polyline>, u: nat, e: Edge): Polyline
    requires u < |nodes| && e.to < |nodes| && e.branch < |branches|
  {
    if e.branch >= 0 then (if e.reversed then Reversed(branches[e.branch]) else branches[e.branch])
    else great(nodes[u], nodes[e.to])
  }

  ghost predicate Drawable(nodes: seq<LngLat>, branches: seq<Polyline>, es: seq<Edge>) {
    forall k :: 0 <= k < |es| ==> es[k].to < |nodes| && es[k].branch < |branches|
  }

  ghost function Segments(great: (LngLat, LngLat) -> Polyline, nodes: seq<LngLat>, branches: seq<Polyline>, u: nat, es: seq<Edge>): seq<Polyline>
    requires u < |nodes| && Drawable(nodes, branches, es)
    decreases |es|
  {
    if es == [] then [] else
      [Drawn(great, nodes, branches, u, es[0])] + Segments(great, nodes, branches, es[0].to, es[1..])
  }

  /** The concatenation loop: the first polyline whole, later ones without their first point. */
  function Glue(segs: seq<Polyline>): Polyline {
    if segs == [] then [] else
      var out, s := Glue(segs[..|segs| - 1]), segs[|segs| - 1];
      if out == [] then s else out + (if s == [] then [] else s[1..])
  }

  /** The backward walk from the exit: polylines are put in front one by one until a node
      without predecessor, which is a boarding node. */
  method CollectSegments(great: (LngLat, LngLat) -> Polyline, g: Graph, nodes: seq<LngLat>, branches: seq<Polyline>, end: nat,
                         prevFrom: array<int>, prevBranch: array<int>, prevRev: array<bool>,
                         ghost seed: seq<Dist>, ghost c: Columns, ghost trail: seq<Trail>)
    returns (segs: seq<Polyline>, start: nat)
    requires |g| == |nodes| && TreeOk(g, seed, c, trail) && end < |g| && c.dist[end].Fin?
    requires c.from == prevFrom[..] && c.branch == prevBranch[..] && c.rev == prevRev[..]
    requires forall u, e :: 0 <= u < |g| && e in g[u] ==> e.to < |nodes| && e.branch < |branches|
    ensures start == trail[end].start < |g| && Drawable(nodes, branches, trail[end].es)
    ensures segs == Segments(great, nodes, branches, start, trail[end].es)
  {
    segs := [];
    var cur: nat := end;
    ghost var rest: seq<Edge> := [];
    assert trail[end].es == trail[end].es + rest;
    while prevFrom[cur] >= 0
      invariant cur < |g| && c.dist[cur].Fin?
      invariant trail[end] == Trail(trail[cur].start, trail[cur].es + rest)
      invariant Drawable(nodes, branches, rest) && segs == Segments(great, nodes, branches, cur, rest)
      decreases |trail[cur].es|
    {
      ghost var last := StepBack(g, seed, c, trail, cur, rest);
      var from: nat := prevFrom[cur];
      var seg;
      if prevBranch[cur] >= 0 {
        seg := branches[prevBranch[cur]];
        if prevRev[cur] {
          seg := Reversed(seg);
        }
      } else {
        seg := great(nodes[from], nodes[cur]);
      }
      assert ([last] + rest)[1..] == rest;
      segs, rest, cur := [seg] + segs, [last] + rest, from;
    }
    NoStepBack(g, seed, c, trail, cur);
    assert [] + rest == rest;
    start := cur;
  }

  /** The loop that concatenates the polylines. */
  method GlueAll(segs: seq<Polyline>) returns (out: Polyline)
    ensures out == Glue(segs)
  {
    out := [];
    var k := 0;
    while k < |segs|
      invariant 0 <= k <= |segs| && out == Glue(segs[..k])
    {
      assert segs[..k + 1][..k] == segs[..k];
      if out == [] {
        out := segs[k];
      } else {
        out := out + if segs[k] == [] then [] else segs[k][1..];
      }
      k := k + 1;
    }
    assert segs[..k] == segs;
  }

  /** The polyline of the walk that ends at `end`; a walk without edges is a single point. */
  method DrawFrom(great: (LngLat, LngLat) -> Polyline, g: Graph, nodes: seq<LngLat>, branches: seq<Polyline>, end: nat,
                  prevFrom: array<int>, prevBranch: array<int>, prevRev: array<bool>,
                  ghost seed: seq<Dist>, ghost c: Columns, ghost trail: seq<Trail>)
    returns (line: Polyline)
    requires |g| == |nodes| && TreeOk(g, seed, c, trail) && end < |g| && c.dist[end].Fin?
    requires c.from == prevFrom[..] && c.branch == prevBranch[..] && c.rev == prevRev[..]
    requires forall u, e :: 0 <= u < |g| && e in g[u] ==> e.to < |nodes| && e.branch < |branches|
    ensures var s, es := trail[end].start, trail[end].es;
      s < |g| && Drawable(nodes, branches, es)
      && line == if es == [] then [nodes[s]] else Glue(Segments(great, nodes, branches, s, es))
  {
    var segs, start := CollectSegments(great, g, nodes, branches, end, prevFrom, prevBranch, prevRev, seed, c, trail);
    if |segs| == 0 {
      line := [nodes[start]];
    } else {
      line := GlueAll(segs);
    }
  }

  // ----- the route -----

  /** Access leg, cable walk, access leg. */
  ghost function Total(km: Distance, nodes: seq<LngLat>, a: LngLat, s: nat, es: seq<Edge>, e: nat, b: LngLat): real
    requires s < |nodes| && e < |nodes|
  {
    km(nodes[s], a) + Cost(es) + km(nodes[e], b)
  }

  /** No other way to board, ride and leave is cheaper than this one. */
  ghost predicate NotUndercut(km: Distance, nodes: seq<LngLat>, g: Graph, a: LngLat, b: LngLat, price: real, s: nat, es: seq<Edge>, e: nat) {
    Boards(km, nodes, a, s) && Walk(g, s, es, e) && Leaves(km, nodes, g, a, b, e) ==> price <= Total(km, nodes, a, s, es, e, b)
  }

  /** Boarding at `s`, riding `es` and leaving at `e` is the cheapest of all such choices. */
  ghost predicate CheapestChoice(km: Distance, nodes: seq<LngLat>, g: Graph, a: LngLat, b: LngLat, s: nat, es: seq<Edge>, e: nat) {
    && Boards(km, nodes, a, s) && Walk(g, s, es, e) && Leaves(km, nodes, g, a, b, e)
    && forall s': nat, es': seq<Edge>, e': nat
         {:trigger NotUndercut(km, nodes, g, a, b, Total(km, nodes, a, s, es, e, b), s', es', e')} ::
         NotUndercut(km, nodes, g, a, b, Total(km, nodes, a, s, es, e, b), s', es', e')
  }

  /** A node has a finite distance exactly when some boarding node reaches it. */
  lemma FiniteIffReachable(km: Distance, nodes: seq<LngLat>, g: Graph, a: LngLat, seed: seq<Dist>, c: Columns, trail: seq<Trail>, i: nat)
    requires SeedsFor(km, nodes, a, seed) && |g| == |nodes| && Exhausted(g, seed, c, trail) && i < |g|
    ensures c.dist[i].Fin? <==> Reachable(km, nodes, g, a, i)
  {
    if c.dist[i].Fin? {
      assert Reached(g, seed, c, trail, i);
      assert Reach(g, trail[i].start, i);
    }
    if Reachable(km, nodes, g, a, i) {
      var s :| Boards(km, nodes, a, s) && Reach(g, s, i);
      var es :| Walk(g, s, es, i);
    }
  }

  /** Exit `e` is at least as cheap as exit `i`, counted from the finished distances. */
  ghost predicate ExitBeats(km: Distance, nodes: seq<LngLat>, b: LngLat, dist: seq<Dist>, e: nat, i: nat)
    requires e < |nodes| == |dist|
  {
    i < |nodes| && dist[i].Fin? && dist[e].Fin? && dist[e].km + km(nodes[e], b) <= dist[i].km + km(nodes[i], b)
  }

  lemma BeatsTotal(km: Distance, nodes: seq<LngLat>, g: Graph, a: LngLat, b: LngLat, seed: seq<Dist>, c: Columns, trail: seq<Trail>,
                   e: nat, s': nat, es': seq<Edge>, e': nat)
    requires |seed| == |nodes| == |g| && Exhausted(g, seed, c, trail) && e < |g|
    requires ExitBeats(km, nodes, b, c.dist, e, e') && s' < |nodes| && seed[s'] == Fin(km(nodes[s'], a)) && Walk(g, s', es', e')
    ensures c.dist[e].km + km(nodes[e], b) <= Total(km, nodes, a, s', es', e', b)
  {
  }

  /** An exit that no other exit undercuts gives the cheapest choice. */
  lemma ExitIsCheapest(km: Distance, nodes: seq<LngLat>, g: Graph, a: LngLat, b: LngLat, seed: seq<Dist>, c: Columns, trail: seq<Trail>, e: nat)
    requires SeedsFor(km, nodes, a, seed) && |g| == |nodes| && Exhausted(g, seed, c, trail)
    requires e < |g| && Leaves(km, nodes, g, a, b, e) && c.dist[e].Fin?
    requires forall i: nat {:trigger ExitBeats(km, nodes, b, c.dist, e, i)} :: Leaves(km, nodes, g, a, b, i) ==> ExitBeats(km, nodes, b, c.dist, e, i)
    ensures trail[e].start < |nodes|
    ensures CheapestChoice(km, nodes, g, a, b, trail[e].start, trail[e].es, e)
  {
    assert Reached(g, seed, c, trail, e);
    var s, es := trail[e].start, trail[e].es;
    var price := Total(km, nodes, a, s, es, e, b);
    assert price == c.dist[e].km + km(nodes[e], b);
    forall s': nat, es': seq<Edge>, e': nat
      ensures NotUndercut(km, nodes, g, a, b, price, s', es', e')
    {
      if Boards(km, nodes, a, s') && Walk(g, s', es', e') && Leaves(km, nodes, g, a, b, e') {
        assert ExitBeats(km, nodes, b, c.dist, e, e');
        BeatsTotal(km, nodes, g, a, b, seed, c, trail, e, s', es', e');
      }
    }
  }

  /** Whichever way the exit was picked, no admissible exit undercuts it. */
  lemma ExitLeaves(km: Distance, nodes: seq<LngLat>, g: Graph, a: LngLat, b: LngLat, dist: seq<Dist>, e: int, ib: int)
    requires |dist| == |nodes| == |g| && BestExit(km, nodes, b, dist, e, |nodes|)
    requires forall i: nat :: i < |nodes| ==> (dist[i].Fin? <==> Reachable(km, nodes, g, a, i))
    requires e < 0 ==> FirstNearest(km, nodes, b, ib)
    ensures var x := if e >= 0 then e else ib;
      if dist[x].Inf? then forall i: nat :: !Leaves(km, nodes, g, a, b, i)
      else Leaves(km, nodes, g, a, b, x) && forall i: nat :: Leaves(km, nodes, g, a, b, i) ==> ExitBeats(km, nodes, b, dist, x, i)
  {
  }

  // ----- the length of the drawn route -----

  /** A great circle starts and ends at its two places and is as long as they are apart. */
  ghost predicate GreatCircle(km: Distance, great: (LngLat, LngLat) -> Polyline, p: LngLat, q: LngLat) {
    var line := great(p, q);
    |line| >= 2 && Place(line[0]) == Place(p) && Place(line[|line| - 1]) == Place(q) && Length(km, line) == km(p, q)
  }

  ghost predicate GreatCircles(km: Distance, great: (LngLat, LngLat) -> Polyline) {
    forall p, q {:trigger GreatCircle(km, great, p, q)} :: GreatCircle(km, great, p, q)
  }

  /** The polyline of an edge is as long as the edge costs and ends within `tolerance` of its nodes. */
  ghost predicate DrawnOk(km: Distance, great: (LngLat, LngLat) -> Polyline, nodes: seq<LngLat>, branches: seq<Polyline>, tolerance: real,
                          u: nat, e: Edge)
  {
    && u < |nodes| && e.to < |nodes| && e.branch < |branches|
    && var line := Drawn(great, nodes, branches, u, e);
      && |line| >= 2 && Length(km, line) == e.w
      && km(nodes[u], line[0]) <= tolerance && km(nodes[e.to], line[|line| - 1]) <= tolerance
  }

  ghost predicate AllDrawnOk(km: Distance, great: (LngLat, LngLat) -> Polyline, nodes: seq<LngLat>, branches: seq<Polyline>, tolerance: real,
                             g: Graph)
  {
    forall u: nat, e: Edge {:trigger DrawnOk(km, great, nodes, branches, tolerance, u, e)} ::
      u < |g| && e in g[u] ==> DrawnOk(km, great, nodes, branches, tolerance, u, e)
  }

  /** In a network as built every edge is drawn within the cluster distance of its nodes. */
  lemma NetworkIsDrawnOk(km: Distance, great: (LngLat, LngLat) -> Polyline, nodes: seq<LngLat>, branches: seq<Polyline>, g: Graph)
    requires IsMetric(km) && GreatCircles(km, great) && EdgesOk(km, nodes, branches, g)
    ensures AllDrawnOk(km, great, nodes, branches, CLUSTER_KM, g)
  {
    forall u: nat, e: Edge | u < |g| && e in g[u]
      ensures DrawnOk(km, great, nodes, branches, CLUSTER_KM, u, e)
    {
      assert EdgeOk(km, nodes, branches, u, e);
      if e.branch >= 0 {
        LengthReversed(km, branches[e.branch]);
      } else {
        assert GreatCircle(km, great, nodes[u], nodes[e.to]);
      }
    }
  }

  lemma {:induction false} SegmentsSnoc(great: (LngLat, LngLat) -> Polyline, nodes: seq<LngLat>, branches: seq<Polyline>, g: Graph,
                                        u: nat, es: seq<Edge>, v: nat, e: Edge)
    requires u < |nodes| && v < |nodes| && e.to < |nodes| && e.branch < |branches|
    requires Drawable(nodes, branches, es + [e]) && Walk(g, u, es, v)
    ensures Drawable(nodes, branches, es)
    ensures Segments(great, nodes, branches, u, es + [e]) ==
            Segments(great, nodes, branches, u, es) + [Drawn(great, nodes, branches, v, e)]
    decreases |es|
  {
    assert (es + [e])[|es|] == e;
    assert forall k :: 0 <= k < |es| ==> (es + [e])[k] == es[k];
    if es == [] {
      assert [] + [e] == [e] && [e][1..] == [];
    } else {
      assert (es + [e])[1..] == es[1..] + [e];
      SegmentsSnoc(great, nodes, branches, g, es[0].to, es[1..], v, e);
    }
  }

  /** The glued line runs from near `u` to near `v` and is as long as the walk costs up to the slack. */
  ghost predicate Traces(km: Distance, nodes: seq<LngLat>, tolerance: real, line: Polyline, u: nat, es: seq<Edge>, v: nat) {
    && line != [] && u < |nodes| && v < |nodes|
    && km(nodes[u], line[0]) <= tolerance && km(nodes[v], line[|line| - 1]) <= tolerance
    && CloseTo(Length(km, line), Cost(es), Slack(tolerance, |es|))
  }

  /** Gluing one more polyline drops its first point, which lies near the end of the line. */
  lemma GlueStep(km: Distance, nodes: seq<LngLat>, tolerance: real, out: Polyline, u: nat, es: seq<Edge>, mid: nat, seg: Polyline, e: Edge)
    requires tolerance >= 0.0 && Steady(km, tolerance) && Steady(km, 2.0 * tolerance)
    requires Traces(km, nodes, tolerance, out, u, es, mid) && e.to < |nodes|
    requires |seg| >= 2 && Length(km, seg) == e.w
    requires km(nodes[mid], seg[0]) <= tolerance && km(nodes[e.to], seg[|seg| - 1]) <= tolerance
    ensures Traces(km, nodes, tolerance, out + seg[1..], u, es + [e], e.to)
  {
    var end := out[|out| - 1];
    assert Alike(km, nodes[mid], end, seg[0], tolerance);
    assert Alike(km, end, seg[0], seg[1], 2.0 * tolerance);
    LengthConcat(km, out, seg[1..]);
    CostConcat(es, [e]);
    assert Cost([e]) == e.w + Cost([e][1..]);
  }

  lemma {:induction false} GluedLength(km: Distance, great: (LngLat, LngLat) -> Polyline, nodes: seq<LngLat>, branches: seq<Polyline>,
                                       tolerance: real, g: Graph, u: nat, es: seq<Edge>, v: nat)
    requires tolerance >= 0.0 && Steady(km, tolerance) && Steady(km, 2.0 * tolerance)
    requires AllDrawnOk(km, great, nodes, branches, tolerance, g) && |g| == |nodes|
    requires Walk(g, u, es, v) && es != [] && Drawable(nodes, branches, es)
    ensures Traces(km, nodes, tolerance, Glue(Segments(great, nodes, branches, u, es)), u, es, v)
    decreases |es|
  {
    var init, e := es[..|es| - 1], es[|es| - 1];
    var mid := WalkSplits(g, u, es, v);
    assert es == init + [e];
    assert DrawnOk(km, great, nodes, branches, tolerance, mid, e);
    SegmentsSnoc(great, nodes, branches, g, u, init, mid, e);
    var segs, seg := Segments(great, nodes, branches, u, init), Drawn(great, nodes, branches, mid, e);
    assert (segs + [seg])[..|segs|] == segs;
    if init == [] {
      assert Cost([e]) == e.w + Cost([e][1..]);
      assert Slack(tolerance, 1) == 2.0 * tolerance + Slack(tolerance, 0);
    } else {
      GluedLength(km, great, nodes, branches, tolerance, g, u, init, mid);
      GlueStep(km, nodes, tolerance, Glue(segs), u, init, mid, seg, e);
    }
  }

  lemma {:induction false} WalkSplits(g: Graph, u: nat, es: seq<Edge>, v: nat) returns (mid: nat)
    requires Walk(g, u, es, v) && es != []
    ensures Walk(g, u, es[..|es| - 1], mid) && mid < |g| && es[|es| - 1] in g[mid] && es[|es| - 1].to == v
    decreases |es|
  {
    if |es| == 1 {
      mid := u;
    } else {
      mid := WalkSplits(g, es[0].to, es[1..], v);
      assert es[1..][..|es| - 2] == es[..|es| - 1][1..];
    }
  }

  /** What the drawn cable route and the search say about length: equal when cables end at their
      nodes, within 120 km per edge in any network as built. */
  lemma CableRouteLength(km: Distance, great: (LngLat, LngLat) -> Polyline, nodes: seq<LngLat>, branches: seq<Polyline>, g: Graph,
                         s: nat, es: seq<Edge>, e: nat)
    requires IsMetric(km) && GreatCircles(km, great) && EdgesOk(km, nodes, branches, g)
    requires Walk(g, s, es, e) && Drawable(nodes, branches, es)
    ensures s < |nodes|
    ensures var line := if es == [] then [nodes[s]] else Glue(Segments(great, nodes, branches, s, es));
      && (AllDrawnOk(km, great, nodes, branches, 0.0, g) ==> Length(km, line) == Cost(es))
      && (Triangle(km) ==> CloseTo(Length(km, line), Cost(es), 120.0 * |es| as real))
  {
    if es != [] {
      if AllDrawnOk(km, great, nodes, branches, 0.0, g) {
        MetricIsSteady(km);
        GluedLength(km, great, nodes, branches, 0.0, g, s, es, e);
        SlackIsLinear(0.0, |es|);
      }
      if Triangle(km) {
        NetworkIsDrawnOk(km, great, nodes, branches, g);
        TriangleIsSteady(km, 60.0);
        TriangleIsSteady(km, 120.0);
        GluedLength(km, great, nodes, branches, 60.0, g, s, es, e);
        SlackIsLinear(60.0, |es|);
      }
    }
  }

  /** What `cableRoute` settles on, with the fallback when nothing snaps. */
  method ChooseExit(km: Distance, nodes: seq<LngLat>, g: Graph, a: LngLat, b: LngLat, dist: array<Dist>,
                    ghost seed: seq<Dist>, ghost c: Columns, ghost trail: seq<Trail>)
    returns (e: int)
    requires nodes != [] && SeedsFor(km, nodes, a, seed) && |g| == |nodes| && Exhausted(g, seed, c, trail) && dist[..] == c.dist
    ensures e < 0 <==> !Routable(km, nodes, g, a, b)
    ensures e >= 0 ==> e < |g| && c.dist[e].Fin? && CheapestChoice(km, nodes, g, a, b, trail[e].start, trail[e].es, e)
  {
    forall i: nat | i < |g|
      ensures c.dist[i].Fin? <==> Reachable(km, nodes, g, a, i)
    {
      FiniteIffReachable(km, nodes, g, a, seed, c, trail, i);
    }
    e := PickExit(km, nodes, b, dist);
    ghost var found := e;
    if e < 0 {
      e := Nearest(km, nodes, b);
    }
    ExitLeaves(km, nodes, g, a, b, c.dist, found, e);
    if dist[e].Inf? {
      return -1;
    }
    ExitIsCheapest(km, nodes, g, a, b, seed, c, trail, e);
  }

  /** The search and the choice, over a network with at least one landing; -1 when no route exists. */
  method Decide(km: Distance, nodes: seq<LngLat>, g: Graph, a: LngLat, b: LngLat)
    returns (end: int, prevFrom: array<int>, prevBranch: array<int>, prevRev: array<bool>,
             ghost seed: seq<Dist>, ghost c: Columns, ghost trail: seq<Trail>)
    requires nodes != [] && |g| == |nodes| && WellFormed(g) && forall p, q :: km(p, q) >= 0.0
    ensures end < 0 <==> !Routable(km, nodes, g, a, b)
    ensures end >= 0 ==>
      && end < |g| && TreeOk(g, seed, c, trail) && c.dist[end].Fin?
      && c.from == prevFrom[..] && c.branch == prevBranch[..] && c.rev == prevRev[..]
      && CheapestChoice(km, nodes, g, a, b, trail[end].start, trail[end].es, end)
  {
    var dist := SeedFrom(km, nodes, a);
    seed := dist[..];
    prevFrom, prevBranch, prevRev, c, trail := ScanSearch(g, dist);
    end := ChooseExit(km, nodes, g, a, b, dist, seed, c, trail);
  }

  /** The route over a network with at least one landing. */
  method RouteAcross(km: Distance, great: (LngLat, LngLat) -> Polyline, nodes: seq<LngLat>, g: Graph, branches: seq<Polyline>,
                     a: LngLat, b: LngLat)
    returns (r: Option<Polyline>, ghost s: nat, ghost es: seq<Edge>, ghost e: nat)
    requires nodes != [] && |g| == |nodes| && WellFormed(g) && forall p, q :: km(p, q) >= 0.0
    requires forall u, e :: 0 <= u < |g| && e in g[u] ==> e.to < |nodes| && e.branch < |branches|
    ensures r.Some? <==> Routable(km, nodes, g, a, b)
    ensures r.Some? ==>
      && CheapestChoice(km, nodes, g, a, b, s, es, e) && Drawable(nodes, branches, es)
      && r.value == if es == [] then [nodes[s]] else Glue(Segments(great, nodes, branches, s, es))
  {
    r, s, es, e := None, 0, [], 0;
    var end, prevFrom, prevBranch, prevRev, seed, c, trail := Decide(km, nodes, g, a, b);
    if end < 0 {
      return;
    }
    var line := DrawFrom(great, g, nodes, branches, end, prevFrom, prevBranch, prevRev, seed, c, trail);
    s, es, e := trail[end].start, trail[end].es, end;
    r := Some(line);
  }

  /** `cableRoute`: one search decides where to board, how to ride and where to leave. */
  method CableRoute(km: Distance, great: (LngLat, LngLat) -> Polyline, nodes: seq<LngLat>, g: Graph, branches: seq<Polyline>,
                    a: LngLat, b: LngLat)
    returns (r: Option<Polyline>, ghost s: nat, ghost es: seq<Edge>, ghost e: nat)
    requires EdgesOk(km, nodes, branches, g) && forall p, q :: km(p, q) >= 0.0
    ensures r.Some? <==> Routable(km, nodes, g, a, b)
    ensures r.Some? ==>
      && CheapestChoice(km, nodes, g, a, b, s, es, e) && Drawable(nodes, branches, es)
      && r.value == if es == [] then [nodes[s]] else Glue(Segments(great, nodes, branches, s, es))
    ensures r.Some? && IsMetric(km) && GreatCircles(km, great) ==>
      && (AllDrawnOk(km, great, nodes, branches, 0.0, g) ==> Length(km, r.value) == Cost(es))
      && (Triangle(km) ==> CloseTo(Length(km, r.value), Cost(es), 120.0 * |es| as real))
  {
    if |nodes| == 0 {
      return None, 0, [], 0;
    }
    EdgesOkWellFormed(km, nodes, branches, g);
    EdgesAreDrawable(km, nodes, branches, g);
    r, s, es, e := RouteAcross(km, great, nodes, g, branches, a, b);
    if r.Some? && IsMetric(km) && GreatCircles(km, great) {
      CableRouteLength(km, great, nodes, branches, g, s, es, e);
    }
  }

  lemma EdgesAreDrawable(km: Distance, nodes: seq<LngLat>, branches: seq<Polyline>, g: Graph)
    requires EdgesOk(km, nodes, branches, g)
    ensures forall u, e :: 0 <= u < |g| && e in g[u] ==> e.to < |nodes| && e.branch < |branches|
  {
    forall u: nat, e: Edge | u < |g| && e in g[u]
      ensures e.to < |nodes| && e.branch < |branches|
    {
      assert EdgeOk(km, nodes, branches, u, e);
    }
  }

  /** Over a connected, non-empty network the route is never null, and every landing within
      the radius of an end point takes part in the choice. */
  lemma ConnectedNetworkAlwaysRoutes(km: Distance, nodes: seq<LngLat>, g: Graph, a: LngLat, b: LngLat)
    requires nodes != [] && |g| == |nodes| && forall u, v :: 0 <= u < |g| && 0 <= v < |g| ==> Reach(g, u, v)
    ensures Routable(km, nodes, g, a, b)
    ensures forall i: nat :: i < |nodes| && Snaps(km, nodes, b, i) ==> Leaves(km, nodes, g, a, b, i)
    ensures (exists j: nat :: j < |nodes| && Snaps(km, nodes, b, j)) ==>
      forall i: nat :: Leaves(km, nodes, g, a, b, i) ==> Snaps(km, nodes, b, i)
  {
    var s := SomeoneBoards(km, nodes, a);
    forall i: nat | i < |nodes|
      ensures Reachable(km, nodes, g, a, i)
    {
      assert Reach(g, s, i);
    }
    var e := SomeoneBoards(km, nodes, b);
    assert Leaves(km, nodes, g, a, b, e);
  }

  lemma SomeoneBoards(km: Distance, nodes: seq<LngLat>, p: LngLat) returns (i: nat)
    requires nodes != []
    ensures Boards(km, nodes, p, i)
  {
    if j :| 0 <= j < |nodes| && Snaps(km, nodes, p, j) {
      i := j;
    } else {
      i := NearestExists(km, nodes, p);
    }
  }

  lemma {:induction false} NearestExists(km: Distance, pts: seq<LngLat>, p: LngLat) returns (i: nat)
    requires pts != []
    ensures FirstNearest(km, pts, p, i)
  {
    i := 0;
    if |pts| > 1 {
      var init := pts[..|pts| - 1];
      i := NearestExists(km, init, p);
      if km(pts[|pts| - 1], p) < km(init[i], p) {
        i := |pts| - 1;
      }
      assert pts == init + [pts[|pts| - 1]];
    }
  }
}
