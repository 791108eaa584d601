// Dijkstra as the routing code runs it. Two searches share one invariant: the
// lazy-deletion heap search with early exit (landRoute, jointRoute), and the
// multi-source scan run to completion (cableRoute, in CableRoutes).
module ShortestPaths {
  import opened Graphs
  import opened BinaryHeap

  /** A cell of the distance array: `Infinity` or kilometres. */
  datatype Dist = Inf | Fin(km: real)

  predicate Less(a: Dist, b: Dist) {
    a.Fin? && (b.Fin? ==> a.km < b.km)
  }

  /** The parallel arrays of a search, as values. */
  datatype Columns = Columns(dist: seq<Dist>, from: seq<int>, branch: seq<int>, rev: seq<bool>, done: seq<bool>)

  /** The walk that the predecessor columns encode for one node. */
  datatype Trail = Trail(start: nat, es: seq<Edge>)

  ghost predicate Shaped(g: Graph, seed: seq<Dist>, c: Columns, trail: seq<Trail>) {
    |g| == |seed| == |trail| == |c.dist| == |c.from| == |c.branch| == |c.rev| == |c.done|
  }

  /** A reached node's trail is a walk from a seed whose price is its distance; its
      predecessor's trail is one edge shorter, and the columns name that edge. */
  ghost predicate Reached(g: Graph, seed: seq<Dist>, c: Columns, trail: seq<Trail>, v: nat)
    requires Shaped(g, seed, c, trail) && v < |g|
  {
    var t := trail[v];
    && t.start < |g| && seed[t.start].Fin? && c.dist[v].Fin?
    && Walk(g, t.start, t.es, v)
    && c.dist[v].km == seed[t.start].km + Cost(t.es)
    && if c.from[v] < 0 then t.es == [] else
        && c.from[v] < |g| && c.dist[c.from[v]].Fin? && t.es != []
        && (var last := t.es[|t.es| - 1];
          && last in g[c.from[v]]
          && last == Edge(v, last.w, c.branch[v], c.rev[v])
          && t == Trail(trail[c.from[v]].start, trail[c.from[v]].es + [last]))
  }

  ghost predicate TreeOk(g: Graph, seed: seq<Dist>, c: Columns, trail: seq<Trail>) {
    && Shaped(g, seed, c, trail)
    && forall v: nat {:trigger Reached(g, seed, c, trail, v)} :: v < |g| && c.dist[v].Fin? ==> Reached(g, seed, c, trail, v)
  }

  ghost predicate DoneOk(g: Graph, seed: seq<Dist>, c: Columns, trail: seq<Trail>)
    requires Shaped(g, seed, c, trail)
  {
    && (forall v: nat :: v < |g| && c.done[v] ==> c.dist[v].Fin?)
    && (forall v: nat :: v < |g| && c.dist[v].Fin? && 0 <= c.from[v] < |g| ==> c.done[c.from[v]])
    && (forall v: nat :: v < |g| && seed[v].Fin? ==> c.dist[v].Fin? && c.dist[v].km <= seed[v].km)
  }

  /** Edge `j` of node `x` offers no improvement. */
  ghost predicate Relaxed(g: Graph, c: Columns, x: nat, j: nat)
    requires x < |g| == |c.dist| && j < |g[x]|
  {
    var e := g[x][j];
    e.to < |g| && c.dist[x].Fin? && c.dist[e.to].Fin? && c.dist[e.to].km <= c.dist[x].km + e.w
  }

  /** Every edge out of a done node is relaxed, save those of `u` from index `k` on. */
  ghost predicate AllRelaxed(g: Graph, c: Columns, u: int, k: nat)
    requires |g| == |c.dist| == |c.done|
  {
    forall x: nat, j: nat {:trigger Relaxed(g, c, x, j)} ::
      x < |g| && j < |g[x]| && c.done[x] && (x != u || j < k) ==> Relaxed(g, c, x, j)
  }

  /** `front` separates the distances of done nodes from those still open. */
  ghost predicate Split(c: Columns, front: real)
    requires |c.dist| == |c.done|
  {
    && (forall x: nat :: x < |c.dist| && c.done[x] && c.dist[x].Fin? ==> c.dist[x].km <= front)
    && (forall x: nat :: x < |c.dist| && !c.done[x] && c.dist[x].Fin? ==> front <= c.dist[x].km)
  }

  ghost predicate SearchInv(g: Graph, seed: seq<Dist>, c: Columns, trail: seq<Trail>, u: int, k: nat, front: real) {
    && WellFormed(g)
    && TreeOk(g, seed, c, trail)
    && DoneOk(g, seed, c, trail)
    && AllRelaxed(g, c, u, k)
    && Split(c, front)
  }

  /** The columns before the first step. */
  ghost function Fresh(seed: seq<Dist>, c: Columns): bool {
    && |c.dist| == |c.from| == |c.branch| == |c.rev| == |c.done| == |seed|
    && c.dist == seed
    && (forall v :: 0 <= v < |seed| ==> c.from[v] == -1 && !c.done[v])
  }

  lemma Start(g: Graph, seed: seq<Dist>, c: Columns, front: real) returns (trail: seq<Trail>)
    requires WellFormed(g) && |seed| == |g| && Fresh(seed, c)
    requires forall v: nat :: v < |seed| && seed[v].Fin? ==> front <= seed[v].km
    ensures SearchInv(g, seed, c, trail, -1, 0, front)
  {
    trail := seq(|g|, v requires v >= 0 => Trail(v, []));
    forall v: nat | v < |g| && c.dist[v].Fin?
      ensures Reached(g, seed, c, trail, v)
    {
      assert Walk(g, v, [], v);
      assert Cost([]) == 0.0;
    }
  }

  lemma TreeIgnoresDone(g: Graph, seed: seq<Dist>, c: Columns, trail: seq<Trail>, done: seq<bool>)
    requires TreeOk(g, seed, c, trail) && |done| == |g|
    ensures TreeOk(g, seed, c.(done := done), trail)
  {
    var c' := c.(done := done);
    forall v: nat | v < |g| && c'.dist[v].Fin?
      ensures Reached(g, seed, c', trail, v)
    {
      assert Reached(g, seed, c, trail, v);
    }
  }

  /** Settling the nearest open node moves the front up to it. */
  lemma Settle(g: Graph, seed: seq<Dist>, c: Columns, trail: seq<Trail>, front: real, u: nat)
    requires SearchInv(g, seed, c, trail, -1, 0, front)
    requires u < |g| && !c.done[u] && c.dist[u].Fin?
    requires forall y: nat :: y < |g| && !c.done[y] && c.dist[y].Fin? ==> c.dist[u].km <= c.dist[y].km
    ensures SearchInv(g, seed, c.(done := c.done[u := true]), trail, u, 0, c.dist[u].km)
  {
    var c' := c.(done := c.done[u := true]);
    TreeIgnoresDone(g, seed, c, trail, c'.done);
    assert AllRelaxed(g, c', u, 0) by {
      forall x: nat, j: nat | x < |g| && j < |g[x]| && c'.done[x] && x != u
        ensures Relaxed(g, c', x, j)
      {
        assert Relaxed(g, c, x, j);
      }
    }
    assert Split(c', c.dist[u].km);
    assert DoneOk(g, seed, c', trail);
  }

  /** The columns after `dist[to] = nd; prevFrom[to] = u; ...` for edge `e` of `u`. */
  ghost function Lowered(c: Columns, u: nat, e: Edge): Columns
    requires u < |c.dist| && c.dist[u].Fin? && e.to < |c.dist| == |c.from| == |c.branch| == |c.rev|
  {
    Columns(c.dist[e.to := Fin(c.dist[u].km + e.w)], c.from[e.to := u], c.branch[e.to := e.branch],
            c.rev[e.to := e.reversed], c.done)
  }

  lemma LowerTree(g: Graph, seed: seq<Dist>, c: Columns, trail: seq<Trail>, u: nat, k: nat)
    requires WellFormed(g) && TreeOk(g, seed, c, trail) && DoneOk(g, seed, c, trail)
    requires u < |g| && k < |g[u]| && c.done[u] && g[u][k].to < |g| && !c.done[g[u][k].to]
    ensures c.dist[u].Fin?
    ensures TreeOk(g, seed, Lowered(c, u, g[u][k]), trail[g[u][k].to := Trail(trail[u].start, trail[u].es + [g[u][k]])])
  {
    var e := g[u][k];
    var c' := Lowered(c, u, e);
    var t' := trail[e.to := Trail(trail[u].start, trail[u].es + [e])];
    forall v: nat | v < |g| && c'.dist[v].Fin?
      ensures Reached(g, seed, c', t', v)
    {
      assert Reached(g, seed, c, trail, u);
      if v == e.to {
        WalkSnoc(g, trail[u].start, trail[u].es, u, e);
      } else {
        assert Reached(g, seed, c, trail, v);
      }
    }
  }

  lemma Lower(g: Graph, seed: seq<Dist>, c: Columns, trail: seq<Trail>, u: nat, k: nat)
    requires u < |g| && k < |g[u]| && SearchInv(g, seed, c, trail, u, k, if u < |c.dist| && c.dist[u].Fin? then c.dist[u].km else 0.0)
    requires c.done[u] && g[u][k].to < |g| && !c.done[g[u][k].to]
    requires c.dist[u].Fin? && Less(Fin(c.dist[u].km + g[u][k].w), c.dist[g[u][k].to])
    ensures SearchInv(g, seed, Lowered(c, u, g[u][k]), trail[g[u][k].to := Trail(trail[u].start, trail[u].es + [g[u][k]])],
                      u, k + 1, c.dist[u].km)
  {
    var e := g[u][k];
    var c' := Lowered(c, u, e);
    assert e in g[u];
    LowerTree(g, seed, c, trail, u, k);
    forall x: nat, j: nat | x < |g| && j < |g[x]| && c'.done[x] && (x != u || j < k + 1)
      ensures Relaxed(g, c', x, j)
    {
      if x != u || j != k {
        assert Relaxed(g, c, x, j);
      }
    }
  }

  /** An edge to a done node, or one that does not lower its target, is already relaxed. */
  lemma Skip(g: Graph, seed: seq<Dist>, c: Columns, trail: seq<Trail>, u: nat, k: nat, front: real)
    requires SearchInv(g, seed, c, trail, u, k, front)
    requires u < |g| && k < |g[u]| && c.done[u] && c.dist[u] == Fin(front) && g[u][k].to < |g|
    requires c.done[g[u][k].to] || !Less(Fin(front + g[u][k].w), c.dist[g[u][k].to])
    ensures SearchInv(g, seed, c, trail, u, k + 1, front)
  {
    var e := g[u][k];
    assert e in g[u];
    forall x: nat, j: nat | x < |g| && j < |g[x]| && c.done[x] && (x != u || j < k + 1)
      ensures Relaxed(g, c, x, j)
    {
      if x != u || j != k {
        assert Relaxed(g, c, x, j);
      }
    }
  }

  /** When all edges of `u` are relaxed, no node is exempt any more. */
  lemma Exhaust(g: Graph, seed: seq<Dist>, c: Columns, trail: seq<Trail>, u: nat, front: real)
    requires u < |g| && SearchInv(g, seed, c, trail, u, |g[u]|, front)
    ensures SearchInv(g, seed, c, trail, -1, 0, front)
  {
    forall x: nat, j: nat | x < |g| && j < |g[x]| && c.done[x]
      ensures Relaxed(g, c, x, j)
    {
      assert Relaxed(g, c, x, j);
    }
  }

  /** Any walk from a reached node to an open one must cross the front. */
  lemma {:induction false} CrossesFront(g: Graph, seed: seq<Dist>, c: Columns, trail: seq<Trail>, front: real,
                                        s: nat, es: seq<Edge>, v: nat)
    requires SearchInv(g, seed, c, trail, -1, 0, front)
    requires Walk(g, s, es, v) && v < |g| && !c.done[v] && c.dist[s].Fin?
    ensures front <= c.dist[s].km + Cost(es)
    decreases |es|
  {
    if c.done[s] {
      var j :| 0 <= j < |g[s]| && g[s][j] == es[0];
      assert Relaxed(g, c, s, j);
      CrossesFront(g, seed, c, trail, front, es[0].to, es[1..], v);
    } else {
      CostNonNegative(g, s, es, v);
    }
  }

  /** Once no reached node is open, distances bound every walk from a reached node. */
  lemma {:induction false} Complete(g: Graph, seed: seq<Dist>, c: Columns, trail: seq<Trail>, front: real,
                                    s: nat, es: seq<Edge>, v: nat)
    requires SearchInv(g, seed, c, trail, -1, 0, front)
    requires forall x: nat :: x < |g| && c.dist[x].Fin? ==> c.done[x]
    requires Walk(g, s, es, v) && c.dist[s].Fin?
    ensures v < |g| && c.dist[v].Fin? && c.dist[v].km <= c.dist[s].km + Cost(es)
    decreases |es|
  {
    if es != [] {
      var j :| 0 <= j < |g[s]| && g[s][j] == es[0];
      assert Relaxed(g, c, s, j);
      Complete(g, seed, c, trail, front, es[0].to, es[1..], v);
    }
  }

  /** One step of a predecessor walk: the columns name the last edge of the trail, and the
      predecessor's trail is shorter by exactly that edge. */
  lemma StepBack(g: Graph, seed: seq<Dist>, c: Columns, trail: seq<Trail>, cur: nat, rest: seq<Edge>) returns (last: Edge)
    requires TreeOk(g, seed, c, trail) && cur < |g| && c.dist[cur].Fin? && c.from[cur] >= 0
    ensures var from := c.from[cur];
      && from < |g| && c.dist[from].Fin? && last in g[from]
      && last.to == cur && last.branch == c.branch[cur] && last.reversed == c.rev[cur]
      && trail[from].start == trail[cur].start
      && |trail[from].es| < |trail[cur].es|
      && trail[cur].es + rest == trail[from].es + ([last] + rest)
      && last in trail[cur].es + rest
  {
    assert Reached(g, seed, c, trail, cur);
    last := trail[cur].es[|trail[cur].es| - 1];
    assert (trail[cur].es + rest)[|trail[cur].es| - 1] == last;
  }

  /** A reached node without predecessor is the start of its own empty trail. */
  lemma NoStepBack(g: Graph, seed: seq<Dist>, c: Columns, trail: seq<Trail>, cur: nat)
    requires TreeOk(g, seed, c, trail) && cur < |g| && c.dist[cur].Fin? && c.from[cur] < 0
    ensures trail[cur] == Trail(cur, []) && seed[cur].Fin?
  {
    assert Reached(g, seed, c, trail, cur);
  }

  // ----- the heap search -----

  /** The seed of a single-source search. */
  function Single(n: nat, ia: nat): (s: seq<Dist>)
    ensures |s| == n
  {
    seq(n, v => if v == ia then Fin(0.0) else Inf)
  }

  /** The pairs in the heap: one is current for every open node, stale ones only overstate. */
  ghost predicate Queued(c: Columns, cells: multiset<Entry>, front: real)
    requires |c.dist| == |c.done|
  {
    && (forall v: nat :: v < |c.dist| && !c.done[v] && c.dist[v].Fin? ==> Entry(c.dist[v].km, v) in cells)
    && (forall e :: e in cells ==>
      front <= e.d && e.node < |c.dist| && c.dist[e.node].Fin? && c.dist[e.node].km <= e.d)
  }

  ghost function Open(done: seq<bool>): nat {
    if done == [] then 0 else (if done[0] then 0 else 1) + Open(done[1..])
  }

  lemma {:induction false} OpenDrops(done: seq<bool>, u: nat)
    requires u < |done| && !done[u]
    ensures Open(done[u := true]) == Open(done) - 1
  {
    if u == 0 {
      assert done[u := true][1..] == done[1..];
    } else {
      assert done[u := true][1..] == done[1..][u - 1 := true];
      OpenDrops(done[1..], u - 1);
    }
  }

  /** What a finished search from `ia` says about `ib`. */
  ghost predicate Answers(g: Graph, ia: nat, ib: nat, c: Columns, trail: seq<Trail>) {
    && ia < |g| && ib < |g|
    && TreeOk(g, Single(|g|, ia), c, trail)
    && (c.dist[ib].Fin? <==> Reach(g, ia, ib))
    && (c.dist[ib].Fin? ==>
        trail[ib].start == ia && c.dist[ib].km == Cost(trail[ib].es) && Shortest(g, ia, trail[ib].es, ib))
  }

  /** A popped pair whose node is still open carries that node's distance. */
  lemma PoppedIsCurrent(c: Columns, cells: multiset<Entry>, front: real, top: Entry)
    requires |c.dist| == |c.done| && Queued(c, cells, front) && top in cells && !c.done[top.node]
    requires forall e :: e in cells ==> top.d <= e.d
    ensures c.dist[top.node] == Fin(top.d) && front <= top.d
    ensures forall y: nat :: y < |c.dist| && !c.done[y] && c.dist[y].Fin? ==> top.d <= c.dist[y].km
  {
    assert Entry(c.dist[top.node].km, top.node) in cells;
  }

  lemma FoundIsShortest(g: Graph, ia: nat, ib: nat, c: Columns, trail: seq<Trail>, front: real, cells: multiset<Entry>, d: real)
    requires ia < |g| && ib < |g| && SearchInv(g, Single(|g|, ia), c, trail, -1, 0, front)
    requires Queued(c, cells, front) && Entry(d, ib) in cells && (forall e :: e in cells ==> d <= e.d) && !c.done[ib]
    ensures Answers(g, ia, ib, c, trail)
  {
    var seed := Single(|g|, ia);
    PoppedIsCurrent(c, cells, front, Entry(d, ib));
    assert SearchInv(g, seed, c, trail, -1, 0, d);
    assert Reached(g, seed, c, trail, ib);
    assert Reached(g, seed, c, trail, ia);
    forall es | Walk(g, ia, es, ib)
      ensures Cost(trail[ib].es) <= Cost(es)
    {
      CrossesFront(g, seed, c, trail, d, ia, es, ib);
    }
  }

  lemma EmptyHeapMeansUnreachable(g: Graph, ia: nat, ib: nat, c: Columns, trail: seq<Trail>, front: real)
    requires ia < |g| && ib < |g| && SearchInv(g, Single(|g|, ia), c, trail, -1, 0, front)
    requires !c.done[ib] && Queued(c, multiset{}, front)
    ensures Answers(g, ia, ib, c, trail)
  {
    forall es | Walk(g, ia, es, ib)
      ensures false
    {
      Complete(g, Single(|g|, ia), c, trail, front, ia, es, ib);
    }
  }

  /** Dropping a pair of a done node loses nothing. */
  lemma QueuedAfterStale(c: Columns, before: multiset<Entry>, front: real, top: Entry)
    requires |c.dist| == |c.done| && Queued(c, before, front) && top in before && c.done[top.node]
    ensures Queued(c, before - multiset{top}, front)
  {
  }

  /** The pairs still queued after a current pair was popped and its node settled. */
  lemma QueuedAfterSettle(c: Columns, before: multiset<Entry>, front: real, u: nat, d: real)
    requires |c.dist| == |c.done| && u < |c.dist| && Queued(c, before, front)
    requires Entry(d, u) in before && c.dist[u] == Fin(d)
    requires forall e :: e in before ==> d <= e.d
    ensures Queued(c.(done := c.done[u := true]), before - multiset{Entry(d, u)}, d)
  {
  }

  lemma QueuedAfterPush(c: Columns, cells: multiset<Entry>, u: nat, e: Edge)
    requires |c.dist| == |c.from| == |c.branch| == |c.rev| == |c.done| && u < |c.dist| && c.dist[u].Fin?
    requires e.to < |c.dist| && e.w >= 0.0 && Less(Fin(c.dist[u].km + e.w), c.dist[e.to])
    requires Queued(c, cells, c.dist[u].km)
    ensures Queued(Lowered(c, u, e), cells + multiset{Entry(c.dist[u].km + e.w, e.to)}, c.dist[u].km)
  {
  }

  /** The four writes of one improvement. */
  method Improve(u: nat, e: Edge, nd: real, ghost c: Columns,
                 dist: array<Dist>, prevFrom: array<int>, prevBranch: array<int>, prevRev: array<bool>)
    requires prevFrom != prevBranch
    requires c.dist == dist[..] && c.from == prevFrom[..] && c.branch == prevBranch[..] && c.rev == prevRev[..]
    requires u < |c.dist| && c.dist[u].Fin? && nd == c.dist[u].km + e.w
    requires e.to < |c.dist| == |c.from| == |c.branch| == |c.rev|
    modifies dist, prevFrom, prevBranch, prevRev
    ensures Lowered(c, u, e) == Columns(dist[..], prevFrom[..], prevBranch[..], prevRev[..], c.done)
  {
    dist[e.to] := Fin(nd);
    prevFrom[e.to] := u;
    prevBranch[e.to] := e.branch;
    prevRev[e.to] := e.reversed;
  }

  /** One edge of the node just settled: skip a done target, otherwise lower and push. */
  method RelaxEdge(g: Graph, ghost seed: seq<Dist>, u: nat, k: nat, d: real, ghost c0: Columns, ghost trail0: seq<Trail>,
                   dist: array<Dist>, prevFrom: array<int>, prevBranch: array<int>, prevRev: array<bool>,
                   done: array<bool>, heap: MinHeap)
    returns (ghost c: Columns, ghost trail: seq<Trail>)
    requires prevFrom != prevBranch && prevRev != done
    requires c0 == Columns(dist[..], prevFrom[..], prevBranch[..], prevRev[..], done[..])
    requires u < |g| && k < |g[u]| && SearchInv(g, seed, c0, trail0, u, k, d) && c0.done[u] && c0.dist[u] == Fin(d)
    requires heap.Valid() && Queued(c0, multiset(heap.cells), d)
    modifies dist, prevFrom, prevBranch, prevRev, heap
    ensures c == Columns(dist[..], prevFrom[..], prevBranch[..], prevRev[..], done[..])
    ensures SearchInv(g, seed, c, trail, u, k + 1, d) && c.dist[u] == Fin(d)
    ensures heap.Valid() && Queued(c, multiset(heap.cells), d)
  {
    c, trail := c0, trail0;
    var e := g[u][k];
    assert e in g[u];
    var nd := d + e.w;
    if !done[e.to] && Less(Fin(nd), dist[e.to]) {
      Lower(g, seed, c, trail, u, k);
      QueuedAfterPush(c, multiset(heap.cells), u, e);
      Improve(u, e, nd, c, dist, prevFrom, prevBranch, prevRev);
      heap.Push(nd, e.to);
      c, trail := Lowered(c, u, e), trail[e.to := Trail(trail[u].start, trail[u].es + [e])];
    } else {
      Skip(g, seed, c, trail, u, k, d);
    }
  }

  /** The relaxation loop over the edges of the node just settled. */
  method Expand(g: Graph, ghost seed: seq<Dist>, u: nat, d: real, ghost c0: Columns, ghost trail0: seq<Trail>,
                dist: array<Dist>, prevFrom: array<int>, prevBranch: array<int>, prevRev: array<bool>,
                done: array<bool>, heap: MinHeap)
    returns (ghost c: Columns, ghost trail: seq<Trail>)
    requires prevFrom != prevBranch && prevRev != done
    requires c0 == Columns(dist[..], prevFrom[..], prevBranch[..], prevRev[..], done[..])
    requires u < |g| && SearchInv(g, seed, c0, trail0, u, 0, d) && c0.done[u] && c0.dist[u] == Fin(d)
    requires heap.Valid() && Queued(c0, multiset(heap.cells), d)
    modifies dist, prevFrom, prevBranch, prevRev, heap
    ensures c == Columns(dist[..], prevFrom[..], prevBranch[..], prevRev[..], done[..])
    ensures SearchInv(g, seed, c, trail, -1, 0, d)
    ensures heap.Valid() && Queued(c, multiset(heap.cells), d)
  {
    c, trail := c0, trail0;
    var k := 0;
    while k < |g[u]|
      invariant 0 <= k <= |g[u]|
      invariant c == Columns(dist[..], prevFrom[..], prevBranch[..], prevRev[..], done[..])
      invariant SearchInv(g, seed, c, trail, u, k, d) && c.done[u] && c.dist[u] == Fin(d)
      invariant heap.Valid() && Queued(c, multiset(heap.cells), d)
    {
      c, trail := RelaxEdge(g, seed, u, k, d, c, trail, dist, prevFrom, prevBranch, prevRev, done, heap);
      k := k + 1;
    }
    Exhaust(g, seed, c, trail, u, d);
  }

  /** Settle the popped node and relax its edges. */
  method SettleNode(g: Graph, ghost seed: seq<Dist>, ghost front: real, ghost cells: multiset<Entry>, u: nat, d: real,
                    ghost c0: Columns, ghost trail0: seq<Trail>, dist: array<Dist>, prevFrom: array<int>,
                    prevBranch: array<int>, prevRev: array<bool>, done: array<bool>, heap: MinHeap)
    returns (ghost c: Columns, ghost trail: seq<Trail>)
    requires prevFrom != prevBranch && prevRev != done
    requires c0 == Columns(dist[..], prevFrom[..], prevBranch[..], prevRev[..], done[..])
    requires SearchInv(g, seed, c0, trail0, -1, 0, front) && Queued(c0, cells, front)
    requires Entry(d, u) in cells && (forall e :: e in cells ==> d <= e.d) && u < |g| && !c0.done[u]
    requires heap.Valid() && multiset(heap.cells) == cells - multiset{Entry(d, u)}
    modifies dist, prevFrom, prevBranch, prevRev, done, heap
    ensures c == Columns(dist[..], prevFrom[..], prevBranch[..], prevRev[..], done[..])
    ensures SearchInv(g, seed, c, trail, -1, 0, d)
    ensures heap.Valid() && Queued(c, multiset(heap.cells), d)
    ensures c.done == c0.done[u := true]
  {
    PoppedIsCurrent(c0, cells, front, Entry(d, u));
    Settle(g, seed, c0, trail0, front, u);
    QueuedAfterSettle(c0, cells, front, u, d);
    done[u] := true;
    c := c0.(done := c0.done[u := true]);
    assert done[..] == c.done;
    c, trail := Expand(g, seed, u, d, c, trail0, dist, prevFrom, prevBranch, prevRev, done, heap);
  }

  /** The arrays as they are filled before the search. */
  method Allocate(n: nat, ia: nat)
    returns (dist: array<Dist>, prevFrom: array<int>, prevBranch: array<int>, prevRev: array<bool>,
             done: array<bool>, ghost c: Columns)
    requires ia < n
    ensures fresh(dist) && fresh(prevFrom) && fresh(prevBranch) && fresh(prevRev) && fresh(done)
    ensures prevFrom != prevBranch && prevRev != done
    ensures c == Columns(dist[..], prevFrom[..], prevBranch[..], prevRev[..], done[..])
    ensures Fresh(Single(n, ia), c) && |c.dist| == n
  {
    dist := new Dist[n](v => Inf);
    prevFrom := new int[n](v => -1);
    prevBranch := new int[n](v => 0);
    prevRev := new bool[n](v => false);
    done := new bool[n](v => false);
    dist[ia] := Fin(0.0);
    c := Columns(dist[..], prevFrom[..], prevBranch[..], prevRev[..], done[..]);
    assert c.dist == Single(n, ia);
  }

  /** One turn of the search loop; `stop` when the target was popped. */
  method Turn(g: Graph, ia: nat, ib: nat, ghost front0: real, ghost c0: Columns, ghost trail0: seq<Trail>,
              dist: array<Dist>, prevFrom: array<int>, prevBranch: array<int>, prevRev: array<bool>,
              done: array<bool>, heap: MinHeap)
    returns (stop: bool, ghost front: real, ghost c: Columns, ghost trail: seq<Trail>)
    requires ia < |g| && ib < |g| && prevFrom != prevBranch && prevRev != done
    requires c0 == Columns(dist[..], prevFrom[..], prevBranch[..], prevRev[..], done[..])
    requires SearchInv(g, Single(|g|, ia), c0, trail0, -1, 0, front0)
    requires heap.Valid() && Queued(c0, multiset(heap.cells), front0) && heap.cells != [] && !c0.done[ib]
    modifies dist, prevFrom, prevBranch, prevRev, done, heap
    ensures c == Columns(dist[..], prevFrom[..], prevBranch[..], prevRev[..], c.done)
    ensures stop ==> Answers(g, ia, ib, c, trail)
    ensures !stop ==>
      && c.done == done[..] && SearchInv(g, Single(|g|, ia), c, trail, -1, 0, front)
      && heap.Valid() && Queued(c, multiset(heap.cells), front) && !c.done[ib]
      && (Open(c.done) < Open(c0.done) || (c.done == c0.done && |heap.cells| < old(|heap.cells|)))
  {
    front, c, trail := front0, c0, trail0;
    ghost var cells := multiset(heap.cells);
    var top := heap.Pop();
    var d, u := top.d, top.node;
    if done[u] {
      QueuedAfterStale(c, cells, front, top);
      return false, front, c, trail;
    }
    if u == ib {
      FoundIsShortest(g, ia, ib, c, trail, front, cells, d);
      done[u] := true;
      return true, front, c, trail;
    }
    OpenDrops(c.done, u);
    c, trail := SettleNode(g, Single(|g|, ia), front, cells, u, d, c, trail,
                           dist, prevFrom, prevBranch, prevRev, done, heap);
    stop, front := false, d;
  }

  /** The search of `landRoute` and `jointRoute`: pop, skip stale pairs, stop at the
      target, relax. The distance array answers reachability, and the predecessor
      columns encode a cheapest walk. */
  method HeapSearch(g: Graph, ia: nat, ib: nat)
    returns (dist: array<Dist>, prevFrom: array<int>, prevBranch: array<int>, prevRev: array<bool>,
             ghost c: Columns, ghost trail: seq<Trail>)
    requires WellFormed(g) && ia < |g| && ib < |g|
    ensures c == Columns(dist[..], prevFrom[..], prevBranch[..], prevRev[..], c.done)
    ensures Answers(g, ia, ib, c, trail)
    ensures dist.Length == |g| && (dist[ib].Fin? <==> Reach(g, ia, ib))
    ensures dist[ib].Fin? ==> exists es :: Shortest(g, ia, es, ib) && Cost(es) == dist[ib].km
  {
    var done;
    dist, prevFrom, prevBranch, prevRev, done, c := Allocate(|g|, ia);
    var heap := new MinHeap(0.0, ia);
    ghost var front := 0.0;
    trail := Start(g, Single(|g|, ia), c, front);
    var stop := false;
    while |heap.cells| > 0 && !stop
      invariant fresh(heap) && fresh(dist) && fresh(prevFrom) && fresh(prevBranch) && fresh(prevRev) && fresh(done)
      invariant prevFrom != prevBranch && prevRev != done
      invariant c == Columns(dist[..], prevFrom[..], prevBranch[..], prevRev[..], c.done)
      invariant stop ==> Answers(g, ia, ib, c, trail)
      invariant !stop ==>
        && c.done == done[..] && SearchInv(g, Single(|g|, ia), c, trail, -1, 0, front)
        && heap.Valid() && Queued(c, multiset(heap.cells), front) && !c.done[ib]
      decreases !stop, Open(c.done), |heap.cells|
    {
      stop, front, c, trail := Turn(g, ia, ib, front, c, trail, dist, prevFrom, prevBranch, prevRev, done, heap);
    }
    if !stop {
      EmptyHeapMeansUnreachable(g, ia, ib, c, trail, front);
    }
    assert dist[ib] == c.dist[ib];
  }
}
