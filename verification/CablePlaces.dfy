// Which node every cable end was placed at: the clustering as a history.
module CablePlaces {
  import opened Geometry
  import opened Cells
  import opened CableGrid

  /** The number of nodes before point `t` was placed: a new node takes the next number. */
  function NodesUpTo(home: seq<nat>, t: nat): nat
    requires t <= |home|
  {
    if t == 0 then 0
    else
      var n := NodesUpTo(home, t - 1);
      if home[t - 1] < n then n else home[t - 1] + 1
  }

  /** None of the first `n` nodes in the cells around `p` lies closer than `limit`. */
  ghost predicate NoneCloser(km: Distance, nodes: seq<LngLat>, n: nat, p: LngLat, limit: real)
    requires n <= |nodes|
  {
    forall i :: 0 <= i < n && Adjacent(nodes[i], p) ==> km(nodes[i], p) >= limit
  }

  /** Node `id` is the nearest of the first `n` nodes in the cells around `p`, and of equally near
      ones the first in scan order. */
  ghost predicate NearestAround(km: Distance, nodes: seq<LngLat>, n: nat, p: LngLat, id: nat)
    requires id < n <= |nodes|
  {
    && Adjacent(nodes[id], p) && km(nodes[id], p) < CLUSTER_KM
    && NoneCloser(km, nodes, n, p, km(nodes[id], p))
    && forall i :: 0 <= i < n && Adjacent(nodes[i], p) && ScanBefore(nodes, i, id) ==> km(nodes[i], p) > km(nodes[id], p)
  }

  /** Point `t` was placed at the nearest node of the cells around it within the cluster distance;
      it became a node itself exactly when there was none. */
  ghost predicate PlacedAt(km: Distance, nodes: seq<LngLat>, points: seq<LngLat>, home: seq<nat>, t: nat)
    requires t < |points| == |home|
  {
    var n, p, id := NodesUpTo(home, t), points[t], home[t];
    && id <= n <= |nodes| && id < |nodes|
    && if id < n then NearestAround(km, nodes, n, p, id) else nodes[n] == p && NoneCloser(km, nodes, n, p, CLUSTER_KM)
  }

  /** Every point was placed that way, in order, and there are no other nodes. */
  ghost predicate Placed(km: Distance, nodes: seq<LngLat>, points: seq<LngLat>, home: seq<nat>) {
    && |points| == |home| && |nodes| == NodesUpTo(home, |home|)
    && forall t: nat {:trigger PlacedAt(km, nodes, points, home, t)} :: t < |points| ==> PlacedAt(km, nodes, points, home, t)
  }

  lemma {:induction false} NodesUpToPrefix(home: seq<nat>, more: seq<nat>, t: nat)
    requires t <= |home|
    ensures NodesUpTo(home + more, t) == NodesUpTo(home, t)
  {
    if t > 0 {
      NodesUpToPrefix(home, more, t - 1);
    }
  }

  /** One more point, at an old node or at a new one. */
  lemma PlaceNext(km: Distance, nodes: seq<LngLat>, points: seq<LngLat>, home: seq<nat>, p: LngLat, id: nat, nodes': seq<LngLat>)
    requires Placed(km, nodes, points, home) && id <= |nodes|
    requires nodes' == if id < |nodes| then nodes else nodes + [p]
    requires if id < |nodes| then NearestAround(km, nodes, |nodes|, p, id)
      else NoneCloser(km, nodes, |nodes|, p, CLUSTER_KM)
    ensures Placed(km, nodes', points + [p], home + [id])
  {
    var points', home' := points + [p], home + [id];
    NodesUpToPrefix(home, [id], |home|);
    forall t: nat | t < |points'|
      ensures PlacedAt(km, nodes', points', home', t)
    {
      if t < |points| {
        NodesUpToPrefix(home, [id], t);
        assert PlacedAt(km, nodes, points, home, t);
      }
    }
  }

  /** What the grid scan answers is such a node, or there is none. */
  lemma ScanPlaces(km: Distance, nodes: seq<LngLat>, grid: Grid, q: LngLat, best: int)
    requires GridOk(nodes, grid) && NearestOf(km, nodes, Block(grid, q), q, best)
    ensures if best >= 0 then NearestAround(km, nodes, |nodes|, q, best)
      else NoneCloser(km, nodes, |nodes|, q, CLUSTER_KM)
  {
    if best >= 0 {
      FoundIsAdjacent(km, nodes, grid, q, best);
    }
    forall i: nat | i < |nodes| && Adjacent(nodes[i], q)
      ensures km(nodes[i], q) >= Limit(km, nodes, q, best)
    {
      BlockBounds(km, nodes, grid, q, best, i);
    }
    forall i: nat | best >= 0 && i < |nodes| && Adjacent(nodes[i], q) && ScanBefore(nodes, i, best)
      ensures km(nodes[i], q) > km(nodes[best], q)
    {
      FoundIsFirst(km, nodes, grid, q, best, i);
    }
  }

  // ----- what the history says about the nodes -----

  /** Node `i` is the home of some point, which it was made from; it was new then. */
  lemma {:induction false} NodeIsMade(km: Distance, nodes: seq<LngLat>, points: seq<LngLat>, home: seq<nat>, i: nat, m: nat)
    returns (t: nat)
    requires Placed(km, nodes, points, home) && m <= |home| && i < NodesUpTo(home, m)
    ensures t < m && home[t] == i && NodesUpTo(home, t) == i && i < |nodes| && nodes[i] == points[t]
  {
    t := m - 1;
    assert PlacedAt(km, nodes, points, home, t);
    if i < NodesUpTo(home, t) {
      t := NodeIsMade(km, nodes, points, home, i, t);
    }
  }

  /** Every node stands for one of the points. */
  lemma NodesAreHomes(km: Distance, nodes: seq<LngLat>, points: seq<LngLat>, home: seq<nat>)
    requires Placed(km, nodes, points, home)
    ensures forall i: nat :: i < |nodes| ==> i in home && nodes[i] in points
    ensures forall i :: i in home ==> i < |nodes|
  {
    forall i: nat | i < |nodes|
      ensures i in home && nodes[i] in points
    {
      var t := NodeIsMade(km, nodes, points, home, i, |home|);
      assert home[t] == i && nodes[i] == points[t];
    }
    forall i | i in home
      ensures i < |nodes|
    {
      var t: nat :| t < |home| && home[t] == i;
      assert PlacedAt(km, nodes, points, home, t);
    }
  }

  /** The points determine the nodes and which node each is placed at. */
  lemma PlacesAreDetermined(km: Distance, points: seq<LngLat>, nodes: seq<LngLat>, home: seq<nat>, nodes': seq<LngLat>, home': seq<nat>)
    requires Placed(km, nodes, points, home) && Placed(km, nodes', points, home')
    ensures nodes == nodes' && home == home'
  {
    PlacesAgreeUpTo(km, points, nodes, home, nodes', home', |points|);
    assert home[..|home|] == home && home'[..|home'|] == home';
    assert nodes[..|nodes|] == nodes && nodes'[..|nodes'|] == nodes';
  }

  lemma {:induction false} PlacesAgreeUpTo(km: Distance, points: seq<LngLat>, nodes: seq<LngLat>, home: seq<nat>,
                                           nodes': seq<LngLat>, home': seq<nat>, t: nat)
    requires Placed(km, nodes, points, home) && Placed(km, nodes', points, home') && t <= |points|
    ensures var n := NodesUpTo(home, t);
      home[..t] == home'[..t] && n == NodesUpTo(home', t) && n <= |nodes| && n <= |nodes'| && nodes[..n] == nodes'[..n]
  {
    if t > 0 {
      PlacesAgreeUpTo(km, points, nodes, home, nodes', home', t - 1);
      assert PlacedAt(km, nodes, points, home, t - 1) && PlacedAt(km, nodes', points, home', t - 1);
      SameHome(km, nodes, nodes', NodesUpTo(home, t - 1), points[t - 1], home[t - 1], home'[t - 1]);
      assert home[..t] == home[..t - 1] + [home[t - 1]] && home'[..t] == home'[..t - 1] + [home'[t - 1]];
    }
  }

  lemma SameHome(km: Distance, nodes: seq<LngLat>, nodes': seq<LngLat>, n: nat, p: LngLat, id: nat, id': nat)
    requires n <= |nodes| && n <= |nodes'| && nodes[..n] == nodes'[..n] && id <= n && id' <= n
    requires if id < n then NearestAround(km, nodes, n, p, id) else NoneCloser(km, nodes, n, p, CLUSTER_KM)
    requires if id' < n then NearestAround(km, nodes', n, p, id') else NoneCloser(km, nodes', n, p, CLUSTER_KM)
    ensures id == id'
  {
    assert forall i :: 0 <= i < n ==> nodes[i] == nodes[..n][i] == nodes'[..n][i] == nodes'[i];
  }

  /** In the regime of the grid, nodes keep the cluster distance from each other. */
  lemma PlacedAreSpread(km: Distance, nodes: seq<LngLat>, points: seq<LngLat>, home: seq<nat>)
    requires Placed(km, nodes, points, home) && CellsApart(km, points)
    ensures Spread(km, nodes)
  {
    NodesAreHomes(km, nodes, points, home);
    forall i: nat, j: nat | i < j < |nodes|
      ensures km(nodes[i], nodes[j]) >= CLUSTER_KM
    {
      var t := NodeIsMade(km, nodes, points, home, j, |home|);
      assert PlacedAt(km, nodes, points, home, t);
      assert PairSeparates(km, nodes[i], nodes[j]);
    }
  }
}
