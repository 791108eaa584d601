// Overland routing: nearest hubs, the heap search, and the chain of hubs drawn.
module LandRoutes {
  import opened Options
  import opened Geometry
  import opened Graphs
  import opened ShortestPaths

  ghost predicate InGraph(n: nat, es: seq<Edge>) {
    forall k :: 0 <= k < |es| ==> es[k].to < n
  }

  lemma {:induction false} WalkInGraph(g: Graph, u: nat, es: seq<Edge>, v: nat)
    requires WellFormed(g) && Walk(g, u, es, v)
    ensures InGraph(|g|, es)
    ensures (if es == [] then u else es[|es| - 1].to) == v
    decreases |es|
  {
    if es != [] {
      WalkInGraph(g, es[0].to, es[1..], v);
      forall k | 0 <= k < |es|
        ensures es[k].to < |g|
      {
        assert k > 0 ==> es[k] == es[1..][k - 1];
      }
    }
  }

  /** The coordinates of the nodes a walk arrives at. */
  ghost function Stops(coords: seq<LngLat>, es: seq<Edge>): (r: seq<LngLat>)
    requires InGraph(|coords|, es)
    ensures |r| == |es|
  {
    seq(|es|, k requires 0 <= k < |es| => coords[es[k].to])
  }

  /** Every edge is priced by the straight distance between its ends. */
  ghost predicate PricedByDistance(km: Distance, coords: seq<LngLat>, g: Graph) {
    |coords| == |g| && forall u, e :: 0 <= u < |g| && e in g[u] ==> e.to < |g| && e.w == km(coords[u], coords[e.to])
  }

  /** The hub chain is as long as the walk costs. */
  lemma {:induction false} StopsLength(km: Distance, coords: seq<LngLat>, g: Graph, u: nat, es: seq<Edge>, v: nat)
    requires PricedByDistance(km, coords, g) && Walk(g, u, es, v) && InGraph(|coords|, es)
    ensures Length(km, [coords[u]] + Stops(coords, es)) == Cost(es)
    decreases |es|
  {
    if es != [] {
      var rest := es[1..];
      assert InGraph(|coords|, rest);
      StopsLength(km, coords, g, es[0].to, rest, v);
      var line := [coords[u]] + Stops(coords, es);
      assert line[1..] == [coords[es[0].to]] + Stops(coords, rest);
    }
  }

  lemma StopsCons(coords: seq<LngLat>, e: Edge, rest: seq<Edge>)
    requires InGraph(|coords|, rest) && e.to < |coords|
    ensures InGraph(|coords|, [e] + rest) && Stops(coords, [e] + rest) == [coords[e.to]] + Stops(coords, rest)
  {
  }

  /** The loop `for (cur = ib; cur >= 0; cur = prev[cur]) chain.unshift(hubs[cur])`. It
      ends because a predecessor's trail is shorter, whatever the edge weights. */
  method Chain(coords: seq<LngLat>, g: Graph, ib: nat, prev: array<int>, ghost seed: seq<Dist>, ghost c: Columns, ghost trail: seq<Trail>)
    returns (chain: seq<LngLat>)
    requires |coords| == |g| && TreeOk(g, seed, c, trail) && ib < |g| && c.dist[ib].Fin? && prev[..] == c.from
    requires InGraph(|g|, trail[ib].es)
    ensures trail[ib].start < |g| && chain == [coords[trail[ib].start]] + Stops(coords, trail[ib].es)
  {
    chain := [];
    var cur: int := ib;
    ghost var rest: seq<Edge> := [];
    assert trail[ib].es == trail[ib].es + rest;
    while cur >= 0
      invariant cur < |g| && InGraph(|g|, rest)
      invariant if cur >= 0
        then c.dist[cur].Fin? && trail[ib] == Trail(trail[cur].start, trail[cur].es + rest) && chain == Stops(coords, rest)
        else trail[ib].start < |g| && chain == [coords[trail[ib].start]] + Stops(coords, trail[ib].es)
      decreases cur >= 0, if cur >= 0 then |trail[cur].es| else 0
    {
      chain := [coords[cur]] + chain;
      var from := prev[cur];
      if from >= 0 {
        ghost var last := StepBack(g, seed, c, trail, cur, rest);
        StopsCons(coords, last, rest);
        rest := [last] + rest;
      } else {
        NoStepBack(g, seed, c, trail, cur);
        assert [] + rest == rest;
      }
      cur := from;
    }
  }

  /** `landRoute` once the end hubs are known. */
  method RouteBetweenHubs(km: Distance, hubs: seq<LngLat>, g: Graph, a: LngLat, ia: nat, b: LngLat, ib: nat)
    returns (r: Option<seq<LngLat>>, ghost es: seq<Edge>)
    requires WellFormed(g) && PricedByDistance(km, hubs, g) && ia < |hubs| && ib < |hubs|
    ensures r.Some? <==> Reach(g, ia, ib)
    ensures r.Some? ==>
      && Shortest(g, ia, es, ib) && InGraph(|hubs|, es)
      && r.value == [a, hubs[ia]] + Stops(hubs, es) + [b]
      && Length(km, r.value) == km(a, hubs[ia]) + Cost(es) + km(hubs[ib], b)
  {
    es := [];
    if ia == ib {
      ReachRefl(g, ia);
      forall other | Walk(g, ia, other, ib)
        ensures Cost([]) <= Cost(other)
      {
        CostNonNegative(g, ia, other, ib);
      }
      assert [a, hubs[ia], b] == [a, hubs[ia]] + Stops(hubs, []) + [b];
      RouteLength(km, hubs, g, a, ia, [], ib, b);
      return Some([a, hubs[ia], b]), [];
    }
    var dist, prev, _, _, c, trail := HeapSearch(g, ia, ib);
    assert dist[ib] == c.dist[ib];
    if dist[ib].Inf? {
      return None, [];
    }
    WalkInGraph(g, ia, trail[ib].es, ib);
    var chain := Chain(hubs, g, ib, prev, Single(|g|, ia), c, trail);
    es := trail[ib].es;
    assert [a] + chain + [b] == [a, hubs[ia]] + Stops(hubs, es) + [b];
    RouteLength(km, hubs, g, a, ia, es, ib, b);
    r := Some([a] + chain + [b]);
  }

  lemma RouteLength(km: Distance, hubs: seq<LngLat>, g: Graph, a: LngLat, ia: nat, es: seq<Edge>, ib: nat, b: LngLat)
    requires WellFormed(g) && PricedByDistance(km, hubs, g) && Walk(g, ia, es, ib)
    ensures ib < |hubs| && InGraph(|hubs|, es)
    ensures Length(km, [a, hubs[ia]] + Stops(hubs, es) + [b]) == km(a, hubs[ia]) + Cost(es) + km(hubs[ib], b)
  {
    WalkEnds(g, ia, es, ib);
    WalkInGraph(g, ia, es, ib);
    StopsLength(km, hubs, g, ia, es, ib);
    var inner := [hubs[ia]] + Stops(hubs, es);
    assert inner[|inner| - 1] == hubs[ib];
    LengthSnoc(km, inner, b);
    var line := [a, hubs[ia]] + Stops(hubs, es) + [b];
    assert line[1..] == inner + [b];
  }
}
