// The scan that finds the shortest unblocked crossing from a piece to the main piece.
module LandMerge {
  import opened Options
  import opened LandGraph
  import opened LandHistory
  import opened ShortestPaths

  /** The scan variables after the positions before (k, l). */
  datatype Best = Best(d: Dist, a: int, b: int)

  ghost predicate BestSoFar(w: World, piece: seq<nat>, main: seq<nat>, best: Best, i: nat, j: nat, k: nat, l: nat) {
    if best.a < 0 then best == Best(Inf, -1, -1) && NoCrossing(w, piece, main, k, l)
    else
      && BestCrossing(w, piece, main, i, j, k, l)
      && best == Best(Fin(Gap(w, piece, main, i, j)), piece[i], main[j])
  }

  lemma ScanStep(w: World, piece: seq<nat>, main: seq<nat>, best: Best, i: nat, j: nat, k: nat, l: nat)
    requires BestSoFar(w, piece, main, best, i, j, k, l) && k < |piece| && l < |main|
    requires piece[k] < |w.hubs| && main[l] < |w.hubs|
    ensures var d := Fin(Gap(w, piece, main, k, l));
      if Less(d, best.d) && !w.blocked(w.hubs[piece[k]], w.hubs[main[l]])
      then BestSoFar(w, piece, main, Best(d, piece[k], main[l]), k, l, k, l + 1)
      else BestSoFar(w, piece, main, best, i, j, k, l + 1)
  {
  }

  lemma ScanRowEnd(w: World, piece: seq<nat>, main: seq<nat>, best: Best, i: nat, j: nat, k: nat)
    requires BestSoFar(w, piece, main, best, i, j, k, |main|)
    ensures BestSoFar(w, piece, main, best, i, j, k + 1, 0)
  {
  }

  /** The first shortest crossing that no barrier blocks, or none when there is none. */
  ghost predicate IsNearestCrossing(w: World, piece: seq<nat>, main: seq<nat>, best: Best) {
    exists i: nat, j: nat :: BestSoFar(w, piece, main, best, i, j, |piece|, 0)
  }

  method NearestCrossing(w: World, piece: seq<nat>, main: seq<nat>) returns (best: Best)
    requires (forall m :: m in piece ==> m < |w.hubs|) && (forall m :: m in main ==> m < |w.hubs|)
    ensures IsNearestCrossing(w, piece, main, best)
  {
    best := Best(Inf, -1, -1);
    ghost var i: nat, j: nat := 0, 0;
    var k := 0;
    while k < |piece|
      invariant 0 <= k <= |piece| && BestSoFar(w, piece, main, best, i, j, k, 0)
    {
      var l := 0;
      while l < |main|
        invariant 0 <= l <= |main| && BestSoFar(w, piece, main, best, i, j, k, l)
      {
        assert piece[k] in piece && main[l] in main;
        var d := w.km(w.hubs[piece[k]], w.hubs[main[l]]);
        ScanStep(w, piece, main, best, i, j, k, l);
        if Less(Fin(d), best.d) && !w.blocked(w.hubs[piece[k]], w.hubs[main[l]]) {
          best, i, j := Best(Fin(d), piece[k], main[l]), k, l;
        }
        l := l + 1;
      }
      ScanRowEnd(w, piece, main, best, i, j, k);
      k := k + 1;
    }
  }

  /** The scan decides the merge condition. */
  lemma ScanDecidesMerge(w: World, piece: seq<nat>, main: seq<nat>, best: Best)
    requires (forall m :: m in piece ==> m < |w.hubs|)
    requires IsNearestCrossing(w, piece, main, best)
    ensures Mergeable(w, piece, main) <==>
      best.a >= 0 && best.b >= 0 && best.a < |w.hubs| && best.b < |w.hubs| && MergeRule(w, piece, best.a, best.b)
  {
    var i: nat, j: nat :| BestSoFar(w, piece, main, best, i, j, |piece|, 0);
    if Mergeable(w, piece, main) {
      var x: nat, y: nat :| BestCrossing(w, piece, main, x, y, |piece|, 0) && MergeRule(w, piece, piece[x], main[y]);
      assert Candidate(w, piece, main, x, y);
    }
  }

  /** The nearest crossing of a piece that meets the merge condition, and none for one that does not. */
  method PickBridge(w: World, piece: seq<nat>, main: seq<nat>) returns (bridge: Option<Link>)
    requires (forall m :: m in piece ==> m < |w.hubs|) && (forall m :: m in main ==> m < |w.hubs|)
    ensures bridge.Some? <==> Mergeable(w, piece, main)
    ensures bridge.Some? ==> IsCrossing(w, piece, main, bridge.value)
  {
    bridge := None;
    var best := NearestCrossing(w, piece, main);
    ScanDecidesMerge(w, piece, main, best);
    ghost var i: nat, j: nat :| BestSoFar(w, piece, main, best, i, j, |piece|, 0);
    if best.a >= 0 && MergeRule(w, piece, best.a, best.b) {
      assert Candidate(w, piece, main, i, j);
      bridge := Some(Link(best.a, best.b));
      assert CrossingAt(w, piece, main, bridge.value, i, j);
    }
  }
}
