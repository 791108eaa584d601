// The network's edges as a history: what was wired, in which order, and why.
module CableWires {
  import opened Geometry
  import opened Graphs
  import opened CableGraph
  import opened CableComponents
  import opened CableFold

  /** One call of `addEdge` that added something. */
  datatype Wire = Wire(a: nat, b: nat, w: real, branch: int)

  ghost predicate InRange(n: nat, log: seq<Wire>) {
    forall i :: 0 <= i < |log| ==> log[i].a < n && log[i].b < n
  }

  /** The adjacency lists of `n` nodes after exactly the wires of `log`, in that order. */
  ghost function Wired(n: nat, log: seq<Wire>): (g: Graph)
    ensures |g| == n
  {
    if log == [] then seq(n, _ => [])
    else
      var g, x := Wired(n, log[..|log| - 1]), log[|log| - 1];
      if x.a < n && x.b < n then AddBoth(g, x.a, There(x.b, x.w, x.branch), x.b, Back(x.a, x.w, x.branch)) else g
  }

  /** The graph is the history. */
  ghost predicate Drawn(n: nat, log: seq<Wire>, g: Graph) {
    InRange(n, log) && g == Wired(n, log)
  }

  lemma WiredSnoc(n: nat, log: seq<Wire>, x: Wire)
    requires InRange(n, log) && x.a < n && x.b < n
    ensures InRange(n, log + [x])
    ensures Wired(n, log + [x]) == AddBoth(Wired(n, log), x.a, There(x.b, x.w, x.branch), x.b, Back(x.a, x.w, x.branch))
  {
    assert (log + [x])[..|log|] == log;
  }

  /** A new node has no edges yet. */
  lemma {:induction false} WiredGrows(n: nat, log: seq<Wire>)
    requires InRange(n, log)
    ensures InRange(n + 1, log) && Wired(n + 1, log) == Wired(n, log) + [[]]
  {
    if log == [] {
      assert Wired(n + 1, log) == Wired(n, log) + [[]];
    } else {
      var init, x := log[..|log| - 1], log[|log| - 1];
      WiredGrows(n, init);
      var there, back := There(x.b, x.w, x.branch), Back(x.a, x.w, x.branch);
      AddBothGrows(Wired(n, init), x.a, there, x.b, back);
    }
  }

  lemma AddBothGrows(g: Graph, a: nat, there: Edge, b: nat, back: Edge)
    requires a < |g| && b < |g|
    ensures AddBoth(g + [[]], a, there, b, back) == AddBoth(g, a, there, b, back) + [[]]
  {
    var g1 := g[a := g[a] + [there]];
    assert (g + [[]])[a := (g + [[]])[a] + [there]] == g1 + [[]];
    assert (g1 + [[]])[b := (g1 + [[]])[b] + [back]] == g1[b := g1[b] + [back]] + [[]];
  }

  /** The edges are exactly the wires, in both directions. */
  lemma {:induction false} WiredEdges(n: nat, log: seq<Wire>, u: nat, e: Edge)
    requires InRange(n, log) && u < n
    ensures e in Wired(n, log)[u] <==> exists i :: WireGives(log, i, u, e)
  {
    if log != [] {
      var init, x := log[..|log| - 1], log[|log| - 1];
      WiredEdges(n, init, u, e);
      AddBothEdges(Wired(n, init), x.a, There(x.b, x.w, x.branch), x.b, Back(x.a, x.w, x.branch));
      if e in Wired(n, log)[u] {
        if e in Wired(n, init)[u] {
          var i :| WireGives(init, i, u, e);
          assert WireGives(log, i, u, e);
        } else {
          assert WireGives(log, |log| - 1, u, e);
        }
      }
      if i :| WireGives(log, i, u, e) {
        assert i < |init| ==> WireGives(init, i, u, e);
      }
    }
  }

  ghost predicate WireGives(log: seq<Wire>, i: int, u: nat, e: Edge) {
    && 0 <= i < |log|
    && ((log[i].a == u && e == There(log[i].b, log[i].w, log[i].branch))
        || (log[i].b == u && e == Back(log[i].a, log[i].w, log[i].branch)))
  }

  /** A node added to a sound network leaves it sound. */
  lemma NodeAdded(km: Distance, nodes: seq<LngLat>, branches: seq<Polyline>, g: Graph, log: seq<Wire>, q: LngLat)
    requires EdgesOk(km, nodes, branches, g) && Symmetric(g) && Drawn(|nodes|, log, g)
    ensures EdgesOk(km, nodes + [q], branches, g + [[]]) && Symmetric(g + [[]]) && Drawn(|nodes + [q]|, log, g + [[]])
  {
    WiredGrows(|nodes|, log);
    GrowthKeepsEdgesOk(km, nodes, branches, g, nodes + [q], branches, g + [[]]);
    GrowthKeepsSymmetric(g, g + [[]]);
  }

  /** A longer history only adds edges. */
  lemma HistoryGrows(n: nat, log: seq<Wire>, g: Graph, n': nat, more: seq<Wire>, g': Graph)
    requires Drawn(n, log, g) && Drawn(n', log + more, g') && n <= n'
    ensures Within(g, g')
  {
    forall u: int, e: Edge | 0 <= u < n && e in g[u]
      ensures e in g'[u]
    {
      WiredEdges(n, log, u, e);
      var i :| WireGives(log, i, u, e);
      assert WireGives(log + more, i, u, e);
      WiredEdges(n', log + more, u, e);
    }
  }

  /** The nodes of `g` have no other edges in `h`. */
  ghost predicate Closed(g: Graph, h: Graph) {
    |g| <= |h| && forall u: nat, e: Edge {:trigger e in h[u]} :: u < |g| && e in h[u] ==> e in g[u] && e.to < |g|
  }

  /** Nodes that come later connect nothing. */
  lemma LaterNodesConnectNothing(n: nat, m: nat, log: seq<Wire>, u: nat, v: nat)
    requires n <= m && InRange(n, log) && u < n
    ensures InRange(m, log) && (Reach(Wired(m, log), u, v) <==> Reach(Wired(n, log), u, v))
  {
    var g, h := Wired(n, log), Wired(m, log);
    forall x: nat, e: Edge | x < n
      ensures (e in h[x] <==> e in g[x]) && (e in g[x] ==> e.to < n)
    {
      WiredEdges(n, log, x, e);
      WiredEdges(m, log, x, e);
    }
    assert Closed(g, h);
    assert Within(g, h) by {
      forall x: int, e: Edge | 0 <= x < n && e in g[x]
        ensures e in h[x]
      {
        WiredEdges(n, log, x, e);
        WiredEdges(m, log, x, e);
      }
    }
    if es :| Walk(h, u, es, v) {
      SameWalk(g, h, u, es, v);
    }
    if Reach(g, u, v) {
      ReachWithin(g, h, u, v);
    }
  }

  lemma {:induction false} SameWalk(g: Graph, h: Graph, u: nat, es: seq<Edge>, v: nat)
    requires Closed(g, h) && u < |g| && Walk(h, u, es, v)
    ensures Walk(g, u, es, v)
    decreases |es|
  {
    if es != [] {
      assert es[0] in h[u];
      SameWalk(g, h, es[0].to, es[1..], v);
    }
  }

  // ----- the cables -----

  /** The wire of cable `k`: none when both its ends were placed at one node. */
  ghost function CableWire(km: Distance, laid: seq<Polyline>, home: seq<nat>, k: nat): (r: seq<Wire>)
    requires k < |laid| && 2 * k + 1 < |home|
  {
    if home[2 * k] == home[2 * k + 1] then [] else [Wire(home[2 * k], home[2 * k + 1], Length(km, laid[k]), k)]
  }

  /** The wires of the cables from `lo` to before `hi`. */
  ghost function Cables(km: Distance, laid: seq<Polyline>, home: seq<nat>, lo: nat, hi: nat): seq<Wire>
    requires lo <= hi <= |laid| && 2 * hi <= |home|
    decreases hi
  {
    if hi == lo then [] else Cables(km, laid, home, lo, hi - 1) + CableWire(km, laid, home, hi - 1)
  }

  lemma {:induction false} CablesGrow(km: Distance, laid: seq<Polyline>, home: seq<nat>, laid': seq<Polyline>, home': seq<nat>, lo: nat, hi: nat)
    requires lo <= hi <= |laid| && 2 * hi <= |home| && laid <= laid' && home <= home'
    ensures Cables(km, laid', home', lo, hi) == Cables(km, laid, home, lo, hi)
    decreases hi
  {
    if hi > lo {
      CablesGrow(km, laid, home, laid', home', lo, hi - 1);
    }
  }

  // ----- the chords of one system -----

  /** Landing `p` is the first one that is not connected to the first landing. */
  ghost predicate FirstApart(n: nat, log: seq<Wire>, ids: seq<nat>, p: nat) {
    && p < |ids| && !Reach(Wired(n, log), ids[0], ids[p])
    && forall y: nat {:trigger ids[y]} :: y < p ==> Reach(Wired(n, log), ids[0], ids[y])
  }

  /** Chord `i` ties the next landing of the system that is not connected yet to its first one. */
  ghost predicate ChordOk(km: Distance, nodes: seq<LngLat>, before: seq<Wire>, chords: seq<Wire>, ids: seq<nat>, i: nat)
    requires i < |chords|
  {
    && chords[i].a < |nodes| && chords[i].b < |nodes|
    && exists p: nat :: ChordAt(km, nodes, before + chords[..i], ids, chords[i], p)
  }

  ghost predicate ChordAt(km: Distance, nodes: seq<LngLat>, log: seq<Wire>, ids: seq<nat>, c: Wire, p: nat)
    requires c.a < |nodes| && c.b < |nodes|
  {
    FirstApart(|nodes|, log, ids, p) && c == Wire(ids[0], ids[p], km(nodes[c.a], nodes[c.b]), -1)
  }

  ghost predicate ChordsOk(km: Distance, nodes: seq<LngLat>, before: seq<Wire>, chords: seq<Wire>, ids: seq<nat>) {
    && InRange(|nodes|, before + chords)
    && forall i: nat {:trigger ChordOk(km, nodes, before, chords, ids, i)} :: i < |chords| ==> ChordOk(km, nodes, before, chords, ids, i)
  }

  /** The landings of the system are connected at last. */
  ghost predicate Connects(n: nat, log: seq<Wire>, ids: seq<nat>) {
    forall x, y :: x in ids && y in ids ==> Reach(Wired(n, log), x, y)
  }

  ghost function Chord(km: Distance, nodes: seq<LngLat>, log: seq<Wire>, a: nat, b: nat): seq<Wire>
    requires a < |nodes| && b < |nodes|
  {
    if Reach(Wired(|nodes|, log), a, b) then [] else [Wire(a, b, km(nodes[a], nodes[b]), -1)]
  }

  /** The first landing against landing `j`, when the ones between are connected already. */
  lemma ChordsNext(km: Distance, nodes: seq<LngLat>, before: seq<Wire>, chords: seq<Wire>, ids: seq<nat>, j: nat)
    requires ChordsOk(km, nodes, before, chords, ids) && j < |ids| && ids[0] < |nodes| && ids[j] < |nodes|
    requires forall y: nat {:trigger ids[y]} :: y < j ==> Reach(Wired(|nodes|, before + chords), ids[0], ids[y])
    ensures var more := Chord(km, nodes, before + chords, ids[0], ids[j]);
      ChordsOk(km, nodes, before, chords + more, ids) && before + (chords + more) == (before + chords) + more
  {
    if Reach(Wired(|nodes|, before + chords), ids[0], ids[j]) {
      assert chords + [] == chords;
    } else {
      assert FirstApart(|nodes|, before + chords, ids, j);
      ChordsSnoc(km, nodes, before, chords, ids, j);
    }
  }

  lemma ChordsSnoc(km: Distance, nodes: seq<LngLat>, before: seq<Wire>, chords: seq<Wire>, ids: seq<nat>, j: nat)
    requires ChordsOk(km, nodes, before, chords, ids) && FirstApart(|nodes|, before + chords, ids, j)
    requires ids[0] < |nodes| && ids[j] < |nodes|
    ensures ChordsOk(km, nodes, before, chords + [Wire(ids[0], ids[j], km(nodes[ids[0]], nodes[ids[j]]), -1)], ids)
  {
    var x := Wire(ids[0], ids[j], km(nodes[ids[0]], nodes[ids[j]]), -1);
    var more := chords + [x];
    assert before + more == (before + chords) + [x];
    forall i: nat | i < |more|
      ensures ChordOk(km, nodes, before, more, ids, i)
    {
      if i < |chords| {
        assert ChordOk(km, nodes, before, chords, ids, i);
        assert more[..i] == chords[..i];
      } else {
        assert more[..i] == chords;
        assert ChordAt(km, nodes, before + chords, ids, x, j);
      }
    }
  }

  /** `[...new Set(ids)]` keeps the order of first occurrence. */
  lemma {:induction false} DistinctKeepsOrder(ids: seq<nat>, p: nat) returns (q: nat)
    requires p < |Distinct(ids)|
    ensures q < |ids| && ids[q] == Distinct(ids)[p]
    ensures forall y: nat {:trigger ids[y]} :: y < q ==> ids[y] in Distinct(ids)[..p]
    ensures p == 0 ==> q == 0
  {
    var init, last := ids[..|ids| - 1], ids[|ids| - 1];
    assert init != [] ==> init[0] in init;
    if p < |Distinct(init)| {
      q := DistinctKeepsOrder(init, p);
      assert Distinct(ids)[..p] == Distinct(init)[..p];
      forall y: nat {:trigger ids[y]} | y < q
        ensures ids[y] in Distinct(ids)[..p]
      {
        assert init[y] == ids[y] && init[y] in Distinct(init)[..p];
      }
    } else {
      q := |ids| - 1;
      assert Distinct(ids) == Distinct(init) + [last] && Distinct(ids)[..p] == Distinct(init);
      forall y: nat {:trigger ids[y]} | y < q
        ensures ids[y] in Distinct(ids)[..p]
      {
        assert init[y] in init;
      }
    }
  }

  /** The chords over the distinct landings are those over all of them. */
  lemma SameLandings(km: Distance, nodes: seq<LngLat>, before: seq<Wire>, chords: seq<Wire>, ids: seq<nat>)
    requires ChordsOk(km, nodes, before, chords, Distinct(ids))
    ensures ChordsOk(km, nodes, before, chords, ids)
  {
    var uniq := Distinct(ids);
    forall i: nat | i < |chords|
      ensures ChordOk(km, nodes, before, chords, ids, i)
    {
      assert ChordOk(km, nodes, before, chords, uniq, i);
      var p: nat :| ChordAt(km, nodes, before + chords[..i], uniq, chords[i], p);
      var first := DistinctKeepsOrder(ids, 0);
      var q := DistinctKeepsOrder(ids, p);
      forall y: nat {:trigger ids[y]} | y < q
        ensures Reach(Wired(|nodes|, before + chords[..i]), ids[0], ids[y])
      {
        assert ids[y] in uniq[..p];
        var z: nat :| z < p && uniq[z] == ids[y];
        assert Reach(Wired(|nodes|, before + chords[..i]), uniq[0], uniq[z]);
      }
      assert ChordAt(km, nodes, before + chords[..i], ids, chords[i], q);
    }
  }

  /** A system's landings and what is wired before them determine its chords. */
  lemma {:induction false} ChordsAgree(km: Distance, nodes: seq<LngLat>, before: seq<Wire>, c: seq<Wire>, d: seq<Wire>, ids: seq<nat>, k: nat)
    requires ChordsOk(km, nodes, before, c, ids) && Connects(|nodes|, before + c, ids)
    requires ChordsOk(km, nodes, before, d, ids) && Connects(|nodes|, before + d, ids)
    requires k <= |c| && k <= |d| && c[..k] == d[..k]
    ensures c == d
    decreases |c| - k
  {
    assert c[..|c|] == c && d[..|d|] == d;
    if k < |c| {
      NextChordAgrees(km, nodes, before, c, d, ids, k);
      assert c[..k + 1] == c[..k] + [c[k]] && d[..k + 1] == d[..k] + [d[k]];
      ChordsAgree(km, nodes, before, c, d, ids, k + 1);
    } else if k < |d| {
      NextChordAgrees(km, nodes, before, d, c, ids, k);
    }
  }

  lemma NextChordAgrees(km: Distance, nodes: seq<LngLat>, before: seq<Wire>, c: seq<Wire>, d: seq<Wire>, ids: seq<nat>, k: nat)
    requires ChordsOk(km, nodes, before, c, ids) && ChordsOk(km, nodes, before, d, ids) && Connects(|nodes|, before + d, ids)
    requires k < |c| && k <= |d| && c[..k] == d[..k]
    ensures k < |d| && c[k] == d[k]
  {
    var log := before + c[..k];
    assert ChordOk(km, nodes, before, c, ids, k);
    var p: nat :| ChordAt(km, nodes, log, ids, c[k], p);
    assert ids[0] in ids && ids[p] in ids && d[..|d|] == d;
    if k < |d| {
      assert ChordOk(km, nodes, before, d, ids, k);
      var q: nat :| ChordAt(km, nodes, log, ids, d[k], q);
      assert p <= q && q <= p;
    }
  }

  /** Later nodes leave the chords of a finished system as they were. */
  lemma ChordsStay(km: Distance, nodes: seq<LngLat>, nodes': seq<LngLat>, before: seq<Wire>, chords: seq<Wire>, ids: seq<nat>)
    requires ChordsOk(km, nodes, before, chords, ids) && Connects(|nodes|, before + chords, ids)
    requires nodes <= nodes' && forall x :: x in ids ==> x < |nodes|
    ensures ChordsOk(km, nodes', before, chords, ids) && Connects(|nodes'|, before + chords, ids)
  {
    forall i: nat | i < |chords|
      ensures ChordOk(km, nodes', before, chords, ids, i)
    {
      assert ChordOk(km, nodes, before, chords, ids, i);
      var log := before + chords[..i];
      assert log == (before + chords)[..|before| + i];
      var p: nat :| ChordAt(km, nodes, log, ids, chords[i], p);
      assert ids[0] in ids && ids[p] in ids;
      LaterNodesConnectNothing(|nodes|, |nodes'|, log, ids[0], ids[p]);
      forall y: nat {:trigger ids[y]} | y < p
        ensures Reach(Wired(|nodes'|, log), ids[0], ids[y])
      {
        assert ids[y] in ids;
        LaterNodesConnectNothing(|nodes|, |nodes'|, log, ids[0], ids[y]);
      }
      assert ChordAt(km, nodes', log, ids, chords[i], p);
    }
    forall x, y | x in ids && y in ids
      ensures Reach(Wired(|nodes'|, before + chords), x, y)
    {
      LaterNodesConnectNothing(|nodes|, |nodes'|, before + chords, x, y);
    }
  }

  /** Four landings in a row, cables between the first two and between the last two. */
  function Row(): seq<LngLat> {
    [LngLat(0.0, 0.0), LngLat(5.0, 0.0), LngLat(7.0, 0.0), LngLat(9.0, 0.0)]
  }

  function RowCables(): seq<Wire> {
    [Wire(0, 1, 500.0, 0), Wire(2, 3, 200.0, 1)]
  }

  lemma RowIsApart()
    ensures InRange(4, RowCables())
    ensures Reach(Wired(4, RowCables()), 0, 1) && !Reach(Wired(4, RowCables()), 0, 2)
  {
    var log := RowCables();
    var g := Wired(4, log);
    WiredEdges(4, log, 0, There(1, 500.0, 0));
    assert WireGives(log, 0, 0, There(1, 500.0, 0));
    ReachEdge(g, 0, There(1, 500.0, 0));
    if es :| Walk(g, 0, es, 2) {
      forall x: nat, e: Edge | 0 <= x < |g| && x in {0, 1} && e in g[x]
        ensures e.to in {0, 1}
      {
        WiredEdges(4, log, x, e);
      }
      WalkKeeps(g, {0, 1}, 0, es, 2);
      assert false;
    }
  }

  /** The gap between two groups of landings is not always closed over their nearest pair: here
      the second and the third landing are 200 km apart, but the chord of 700 km runs from the
      first to the third. */
  lemma ChordNeedNotBeNearest(chords: seq<Wire>)
    requires ChordsOk(Taxi, Row(), RowCables(), chords, [0, 1, 2, 3]) && Connects(4, RowCables() + chords, [0, 1, 2, 3])
    ensures IsMetric(Taxi) && |chords| > 0 && chords[0] == Wire(0, 2, 700.0, -1)
    ensures Taxi(Row()[1], Row()[2]) == 200.0
  {
    TaxiIsMetric();
    RowIsApart();
    TurnsAre(180.0, 0);
    TurnsAre(185.0, 0);
    TurnsAre(187.0, 0);
    var ids := [0, 1, 2, 3];
    assert 0 in ids && 2 in ids && RowCables() + [] == RowCables();
    assert chords[..0] == [] && |chords| > 0 by {
      if chords == [] {
        assert false;
      }
    }
    assert ChordOk(Taxi, Row(), RowCables(), chords, ids, 0);
    var p: nat :| ChordAt(Taxi, Row(), RowCables(), ids, chords[0], p);
    ReachRefl(Wired(4, RowCables()), 0);
    assert ids[0] == 0 && ids[1] == 1 && ids[2] == 2;
    assert p == 2;
  }

  // ----- all systems -----

  /** The number of cables that the first `s` systems lay. */
  ghost function LaidUpTo(systems: seq<seq<Polyline>>, s: nat): nat
    requires s <= |systems|
  {
    if s == 0 then 0 else LaidUpTo(systems, s - 1) + |LaidSegments(systems[s - 1])|
  }

  /** The landings of system `s`: the homes of the ends of its cables. */
  ghost function Landings(systems: seq<seq<Polyline>>, home: seq<nat>, s: nat): seq<nat>
    requires s < |systems| && 2 * LaidUpTo(systems, s + 1) <= |home|
  {
    home[2 * LaidUpTo(systems, s)..2 * LaidUpTo(systems, s + 1)]
  }

  /** What the first `s` systems wire: each in turn its cables, then its chords. */
  ghost function SystemLog(km: Distance, systems: seq<seq<Polyline>>, laid: seq<Polyline>, home: seq<nat>, chords: seq<seq<Wire>>, s: nat): seq<Wire>
    requires s <= |systems| && s <= |chords| && LaidUpTo(systems, s) <= |laid| && 2 * LaidUpTo(systems, s) <= |home|
    decreases 2 * s
  {
    if s == 0 then [] else WithCables(km, systems, laid, home, chords, s - 1) + chords[s - 1]
  }

  /** The same with the cables of system `s`, but not yet its chords. */
  ghost function WithCables(km: Distance, systems: seq<seq<Polyline>>, laid: seq<Polyline>, home: seq<nat>, chords: seq<seq<Wire>>, s: nat): seq<Wire>
    requires s < |systems| && s <= |chords| && LaidUpTo(systems, s + 1) <= |laid| && 2 * LaidUpTo(systems, s + 1) <= |home|
    decreases 2 * s + 1
  {
    SystemLog(km, systems, laid, home, chords, s) + Cables(km, laid, home, LaidUpTo(systems, s), LaidUpTo(systems, s + 1))
  }

  lemma {:induction false} SystemLogGrows(km: Distance, systems: seq<seq<Polyline>>, laid: seq<Polyline>, home: seq<nat>, chords: seq<seq<Wire>>,
                                          laid': seq<Polyline>, home': seq<nat>, chords': seq<seq<Wire>>, s: nat)
    requires s <= |systems| && s <= |chords| && LaidUpTo(systems, s) <= |laid| && 2 * LaidUpTo(systems, s) <= |home|
    requires laid <= laid' && home <= home' && chords <= chords'
    ensures SystemLog(km, systems, laid', home', chords', s) == SystemLog(km, systems, laid, home, chords, s)
  {
    if s > 0 {
      SystemLogGrows(km, systems, laid, home, chords, laid', home', chords', s - 1);
      CablesGrow(km, laid, home, laid', home', LaidUpTo(systems, s - 1), LaidUpTo(systems, s));
    }
  }

  /** System `s`: its chords are needed, and afterwards its landings are connected. */
  ghost predicate SystemOk(km: Distance, nodes: seq<LngLat>, systems: seq<seq<Polyline>>, laid: seq<Polyline>, home: seq<nat>, chords: seq<seq<Wire>>, s: nat)
    requires s < |systems| && s < |chords| && LaidUpTo(systems, s + 1) <= |laid| && 2 * LaidUpTo(systems, s + 1) <= |home|
  {
    var before, ids := WithCables(km, systems, laid, home, chords, s), Landings(systems, home, s);
    && (forall x :: x in ids ==> x < |nodes|)
    && ChordsOk(km, nodes, before, chords[s], ids) && Connects(|nodes|, before + chords[s], ids)
  }

  ghost predicate SystemsOk(km: Distance, nodes: seq<LngLat>, systems: seq<seq<Polyline>>, laid: seq<Polyline>, home: seq<nat>, chords: seq<seq<Wire>>, k: nat)
  {
    && k == |chords| <= |systems| && LaidUpTo(systems, k) == |laid| && |home| == 2 * |laid|
    && forall s: nat {:trigger LaidUpTo(systems, s + 1)} :: s < k ==>
         LaidUpTo(systems, s + 1) <= |laid| && SystemOk(km, nodes, systems, laid, home, chords, s)
  }

  lemma {:induction false} LaidUpToGrows(systems: seq<seq<Polyline>>, s: nat, t: nat)
    requires s <= t <= |systems|
    ensures LaidUpTo(systems, s) <= LaidUpTo(systems, t)
  {
    if s < t {
      LaidUpToGrows(systems, s, t - 1);
    }
  }

  /** Later systems leave a finished one as it was. */
  lemma SystemStays(km: Distance, nodes: seq<LngLat>, systems: seq<seq<Polyline>>, laid: seq<Polyline>, home: seq<nat>, chords: seq<seq<Wire>>,
                    nodes': seq<LngLat>, laid': seq<Polyline>, home': seq<nat>, chords': seq<seq<Wire>>, s: nat)
    requires s < |systems| && s < |chords| && LaidUpTo(systems, s + 1) <= |laid| && 2 * LaidUpTo(systems, s + 1) <= |home|
    requires SystemOk(km, nodes, systems, laid, home, chords, s)
    requires nodes <= nodes' && laid <= laid' && home <= home' && chords <= chords'
    ensures SystemOk(km, nodes', systems, laid', home', chords', s)
  {
    SystemLogGrows(km, systems, laid, home, chords, laid', home', chords', s);
    CablesGrow(km, laid, home, laid', home', LaidUpTo(systems, s), LaidUpTo(systems, s + 1));
    assert Landings(systems, home', s) == Landings(systems, home, s);
    ChordsStay(km, nodes, nodes', WithCables(km, systems, laid, home, chords, s), chords[s], Landings(systems, home, s));
  }

  lemma SystemLogSnoc(km: Distance, systems: seq<seq<Polyline>>, laid: seq<Polyline>, home: seq<nat>, chords: seq<seq<Wire>>, k: nat,
                      laid': seq<Polyline>, home': seq<nat>, more: seq<Wire>)
    requires k < |systems| && k == |chords| && LaidUpTo(systems, k) == |laid| && |home| == 2 * |laid|
    requires home <= home' && laid' == laid + LaidSegments(systems[k]) && |home'| == 2 * |laid'|
    ensures LaidUpTo(systems, k + 1) == |laid'| && Landings(systems, home', k) == home'[|home|..]
    ensures WithCables(km, systems, laid', home', chords + [more], k)
      == SystemLog(km, systems, laid, home, chords, k) + Cables(km, laid', home', |laid|, |laid'|)
  {
    assert LaidUpTo(systems, k + 1) == |laid'|;
    var chords' := chords + [more];
    SystemLogGrows(km, systems, laid, home, chords, laid', home', chords', k);
    assert WithCables(km, systems, laid', home', chords', k)
      == SystemLog(km, systems, laid', home', chords', k) + Cables(km, laid', home', LaidUpTo(systems, k), LaidUpTo(systems, k + 1));
  }

  /** One more system. */
  lemma SystemsSnoc(km: Distance, nodes: seq<LngLat>, systems: seq<seq<Polyline>>, laid: seq<Polyline>, home: seq<nat>, chords: seq<seq<Wire>>, k: nat,
                    nodes': seq<LngLat>, laid': seq<Polyline>, home': seq<nat>, more: seq<Wire>)
    requires k < |systems| && SystemsOk(km, nodes, systems, laid, home, chords, k)
    requires nodes <= nodes' && home <= home' && laid' == laid + LaidSegments(systems[k]) && |home'| == 2 * |laid'|
    requires var before, ids := SystemLog(km, systems, laid, home, chords, k) + Cables(km, laid', home', |laid|, |laid'|), home'[|home|..];
      && (forall x :: x in ids ==> x < |nodes'|)
      && ChordsOk(km, nodes', before, more, ids) && Connects(|nodes'|, before + more, ids)
    ensures SystemsOk(km, nodes', systems, laid', home', chords + [more], k + 1)
    ensures SystemLog(km, systems, laid', home', chords + [more], k + 1)
      == SystemLog(km, systems, laid, home, chords, k) + Cables(km, laid', home', |laid|, |laid'|) + more
  {
    SystemLogSnoc(km, systems, laid, home, chords, k, laid', home', more);
    assert (chords + [more])[k] == more;
    forall s: nat | s < k + 1
      ensures LaidUpTo(systems, s + 1) <= |laid'| && SystemOk(km, nodes', systems, laid', home', chords + [more], s)
    {
      if s < k {
        assert LaidUpTo(systems, s + 1) <= |laid|;
        SystemStays(km, nodes, systems, laid, home, chords, nodes', laid', home', chords + [more], s);
      }
    }
  }

  // ----- every cable is in the network -----

  lemma {:induction false} CableIsWired(km: Distance, laid: seq<Polyline>, home: seq<nat>, lo: nat, hi: nat, k: nat)
    requires lo <= k < hi <= |laid| && 2 * hi <= |home| && home[2 * k] != home[2 * k + 1]
    ensures Wire(home[2 * k], home[2 * k + 1], Length(km, laid[k]), k) in Cables(km, laid, home, lo, hi)
    decreases hi
  {
    if k < hi - 1 {
      CableIsWired(km, laid, home, lo, hi - 1, k);
    }
  }

  lemma {:induction false} CableIsLogged(km: Distance, systems: seq<seq<Polyline>>, laid: seq<Polyline>, home: seq<nat>, chords: seq<seq<Wire>>, s: nat, k: nat)
    requires s <= |systems| && s <= |chords| && LaidUpTo(systems, s) <= |laid| && 2 * LaidUpTo(systems, s) <= |home|
    requires k < LaidUpTo(systems, s) && home[2 * k] != home[2 * k + 1]
    ensures Wire(home[2 * k], home[2 * k + 1], Length(km, laid[k]), k) in SystemLog(km, systems, laid, home, chords, s)
  {
    if k < LaidUpTo(systems, s - 1) {
      CableIsLogged(km, systems, laid, home, chords, s - 1, k);
    } else {
      CableIsWired(km, laid, home, LaidUpTo(systems, s - 1), LaidUpTo(systems, s), k);
    }
  }

  /** Cable `k` between two different nodes has its edge, as long as its polyline. */
  ghost predicate HasCable(km: Distance, laid: seq<Polyline>, home: seq<nat>, g: Graph, k: nat)
    requires k < |laid| && 2 * k + 1 < |home|
  {
    home[2 * k] != home[2 * k + 1] ==>
      home[2 * k] < |g| && There(home[2 * k + 1], Length(km, laid[k]), k) in g[home[2 * k]]
  }

  ghost predicate HasAllCables(km: Distance, laid: seq<Polyline>, home: seq<nat>, g: Graph) {
    && |home| == 2 * |laid|
    && forall k: nat {:trigger HasCable(km, laid, home, g, k)} :: k < |laid| ==> HasCable(km, laid, home, g, k)
  }

  lemma CablesAreEdges(km: Distance, systems: seq<seq<Polyline>>, laid: seq<Polyline>, home: seq<nat>, chords: seq<seq<Wire>>, s: nat,
                       folds: seq<Wire>, n: nat)
    requires s <= |systems| && s <= |chords| && LaidUpTo(systems, s) == |laid| && 2 * |laid| == |home|
    requires InRange(n, SystemLog(km, systems, laid, home, chords, s) + folds)
    ensures HasAllCables(km, laid, home, Wired(n, SystemLog(km, systems, laid, home, chords, s) + folds))
  {
    var built := SystemLog(km, systems, laid, home, chords, s);
    var log := built + folds;
    forall k: nat | k < |laid|
      ensures HasCable(km, laid, home, Wired(n, log), k)
    {
      if home[2 * k] != home[2 * k + 1] {
        var x := Wire(home[2 * k], home[2 * k + 1], Length(km, laid[k]), k);
        CableIsLogged(km, systems, laid, home, chords, s, k);
        var i: nat :| i < |built| && built[i] == x;
        assert log[i] == x;
        assert WireGives(log, i, x.a, There(x.b, x.w, k));
        WiredEdges(n, log, x.a, There(x.b, x.w, k));
      }
    }
  }

  // ----- the folds -----

  /** The fold of component `c`: over the first closest pair between it and everything folded before. */
  ghost predicate FoldOk(km: Distance, nodes: seq<LngLat>, comp: seq<int>, main: nat, c: nat, f: Wire) {
    && |comp| == |nodes| && f.a < |nodes| && f.b < |nodes|
    && comp[f.a] == c && Folded(comp, main, c)[f.b] == main
    && f.branch == -1 && f.w == km(nodes[f.a], nodes[f.b])
    && forall m: nat, i: nat :: m < |nodes| && i < |nodes| && comp[m] == c && Folded(comp, main, c)[i] == main ==>
         NoFarther(km, nodes, f.a, f.b, m, i)
  }

  /** The folds of the components before `k`: one each, but for the main one, in order. */
  ghost predicate FoldsUpTo(km: Distance, nodes: seq<LngLat>, comp: seq<int>, main: nat, k: nat, folds: seq<Wire>) {
    && |folds| == FoldIndex(main, k)
    && forall c: nat {:trigger FoldIndex(main, c)} :: c < k && c != main ==> FoldOk(km, nodes, comp, main, c, folds[FoldIndex(main, c)])
  }

  function FoldIndex(main: nat, c: nat): nat {
    if c <= main then c else c - 1
  }

  lemma FoldsSnoc(km: Distance, nodes: seq<LngLat>, comp: seq<int>, main: nat, k: nat, folds: seq<Wire>, f: Wire)
    requires FoldsUpTo(km, nodes, comp, main, k, folds) && k != main && FoldOk(km, nodes, comp, main, k, f)
    ensures FoldsUpTo(km, nodes, comp, main, k + 1, folds + [f])
  {
  }

  /** The main component is the first largest one. */
  ghost predicate IsMain(comp: seq<int>, n: nat, main: nat) {
    && main < n
    && forall c: nat :: c < n ==> Count(comp, c) <= Count(comp, main) && (c < main ==> Count(comp, c) < Count(comp, main))
  }

  /** Everything is folded: one wire for each component of `g` but the main one, and no more. */
  ghost predicate FoldedBy(km: Distance, nodes: seq<LngLat>, g: Graph, comp: seq<int>, seeds: seq<nat>, main: nat, folds: seq<Wire>) {
    && Labelled(g, comp, seeds)
    && if nodes == [] then folds == [] else IsMain(comp, |seeds|, main) && FoldsUpTo(km, nodes, comp, main, |seeds|, folds)
  }
}
