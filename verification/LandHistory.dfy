// The merges of the backbone as a history: which piece, over which crossing, in which turn.
module LandHistory {
  import opened Options
  import opened Geometry
  import opened LandGraph

  /** The link is the first shortest unblocked crossing from the piece to the main piece, and the
      rule lets the two merge over it. */
  ghost predicate IsCrossing(w: World, piece: seq<nat>, main: seq<nat>, p: Link) {
    && (forall m :: m in piece ==> m < |w.hubs|)
    && exists i: nat, j: nat :: CrossingAt(w, piece, main, p, i, j)
  }

  ghost predicate CrossingAt(w: World, piece: seq<nat>, main: seq<nat>, p: Link, i: nat, j: nat)
    requires forall m :: m in piece ==> m < |w.hubs|
  {
    && BestCrossing(w, piece, main, i, j, |piece|, 0)
    && p == Link(piece[i], main[j]) && MergeRule(w, piece, piece[i], main[j])
  }

  lemma CrossingIsMergeable(w: World, piece: seq<nat>, main: seq<nat>, p: Link)
    requires IsCrossing(w, piece, main, p)
    ensures p.a in piece && p.b in main && p.a < |w.hubs| && p.b < |w.hubs|
    ensures !w.blocked(w.hubs[p.a], w.hubs[p.b]) && MergeRule(w, piece, p.a, p.b) && Mergeable(w, piece, main)
  {
    var i: nat, j: nat :| CrossingAt(w, piece, main, p, i, j);
    assert Candidate(w, piece, main, i, j);
  }

  lemma CrossingIsUnique(w: World, piece: seq<nat>, main: seq<nat>, p: Link, q: Link)
    requires IsCrossing(w, piece, main, p) && IsCrossing(w, piece, main, q)
    ensures p == q
  {
    var i: nat, j: nat :| CrossingAt(w, piece, main, p, i, j);
    var k: nat, l: nat :| CrossingAt(w, piece, main, q, k, l);
    assert Candidate(w, piece, main, i, j) && Candidate(w, piece, main, k, l);
  }

  // ----- the groups along the way -----

  ghost predicate OrderOk(n: nat, order: seq<nat>) {
    forall x :: 0 <= x < |order| ==> 0 < order[x] < n
  }

  /** The groups after merging the pieces of `order` into the first, one after the other. */
  ghost function GroupsAfter(start: seq<seq<nat>>, order: seq<nat>): (r: seq<seq<nat>>)
    requires OrderOk(|start|, order)
    ensures |r| == |start| && forall g :: 0 < g < |r| ==> r[g] == start[g]
  {
    if order == [] then start else Absorb(GroupsAfter(start, order[..|order| - 1]), order[|order| - 1])
  }

  ghost function MarksAfter(n: nat, order: seq<nat>): (r: seq<bool>)
    ensures |r| == n && forall g: nat :: g < n ==> (r[g] <==> g in order)
  {
    seq(n, g requires 0 <= g < n => g in order)
  }

  function Last(order: seq<nat>): nat {
    if order == [] then 0 else order[|order| - 1]
  }

  /** The passes visit the pieces in turn, starting over behind the last one. */
  predicate Between(last: nat, next: nat, g: nat) {
    if last < next then last < g < next else g > last || g < next
  }

  /** Piece `g` is merged by then, or does not meet the merge condition. */
  ghost predicate NotYet(w: World, start: seq<seq<nat>>, order: seq<nat>, g: nat)
    requires OrderOk(|start|, order)
  {
    0 < g < |start| ==> StaysSeparate(w, GroupsAfter(start, order), MarksAfter(|start|, order), g)
  }

  /** Merge `x`: the next piece in turn that can be merged, over its nearest crossing to the main
      piece of that moment. */
  ghost predicate MergeOk(w: World, start: seq<seq<nat>>, order: seq<nat>, bridges: seq<Link>, x: nat)
    requires OrderOk(|start|, order) && x < |order| == |bridges|
  {
    && order[x] !in order[..x]
    && IsCrossing(w, start[order[x]], GroupsAfter(start, order[..x])[0], bridges[x])
    && forall g: nat {:trigger NotYet(w, start, order[..x], g)} :: Between(Last(order[..x]), order[x], g) ==> NotYet(w, start, order[..x], g)
  }

  /** A run of the merge loop, from the pieces it started with. */
  ghost predicate MergeRun(w: World, start: seq<seq<nat>>, order: seq<nat>, bridges: seq<Link>) {
    && OrderOk(|start|, order) && |order| == |bridges|
    && forall x: nat {:trigger MergeOk(w, start, order, bridges, x)} :: x < |order| ==> MergeOk(w, start, order, bridges, x)
  }

  /** Nothing left out can be merged any more. */
  ghost predicate RunIsOver(w: World, start: seq<seq<nat>>, order: seq<nat>)
    requires OrderOk(|start|, order)
  {
    forall g: nat {:trigger NotYet(w, start, order, g)} :: NotYet(w, start, order, g)
  }

  lemma RunSnoc(w: World, start: seq<seq<nat>>, order: seq<nat>, bridges: seq<Link>, gi: nat, p: Link)
    requires MergeRun(w, start, order, bridges) && 0 < gi < |start| && gi !in order
    requires IsCrossing(w, start[gi], GroupsAfter(start, order)[0], p)
    requires forall g: nat {:trigger NotYet(w, start, order, g)} :: Between(Last(order), gi, g) ==> NotYet(w, start, order, g)
    ensures MergeRun(w, start, order + [gi], bridges + [p])
    ensures GroupsAfter(start, order + [gi]) == Absorb(GroupsAfter(start, order), gi)
    ensures MarksAfter(|start|, order + [gi]) == MarksAfter(|start|, order)[gi := true]
  {
    var order', bridges' := order + [gi], bridges + [p];
    assert order'[..|order|] == order;
    forall x: nat | x < |order'|
      ensures MergeOk(w, start, order', bridges', x)
    {
      if x < |order| {
        assert order'[..x] == order[..x];
        assert MergeOk(w, start, order, bridges, x);
      }
    }
  }

  // ----- the position of the loop -----

  /** What was merged so far, and over which links. */
  datatype Run = Run(order: seq<nat>, bridges: seq<Link>)

  /** Piece `g` was passed since the last merge, when the loop is at `at` and `changed` says
      whether that merge was in this pass. Before any merge, `last` is 0. */
  predicate Passed(last: nat, at: nat, changed: bool, g: nat) {
    if changed || last == 0 then last < g < at else g > last || g < at
  }

  /** Nothing passed since the last merge can be merged yet. */
  ghost predicate AllPassed(w: World, start: seq<seq<nat>>, order: seq<nat>, at: nat, changed: bool)
    requires OrderOk(|start|, order)
  {
    && (changed ==> 0 < Last(order) < at)
    && forall g: nat {:trigger NotYet(w, start, order, g)} :: Passed(Last(order), at, changed, g) ==> NotYet(w, start, order, g)
  }

  lemma AllPassedMeansNext(w: World, start: seq<seq<nat>>, order: seq<nat>, at: nat, changed: bool)
    requires OrderOk(|start|, order) && AllPassed(w, start, order, at, changed) && at > 0
    ensures forall g: nat {:trigger NotYet(w, start, order, g)} :: Between(Last(order), at, g) ==> NotYet(w, start, order, g)
    ensures at < |start| ==> AllPassed(w, start, order + [at], at + 1, true)
  {
  }

  lemma PassedSnoc(w: World, start: seq<seq<nat>>, order: seq<nat>, at: nat, changed: bool)
    requires OrderOk(|start|, order) && AllPassed(w, start, order, at, changed) && NotYet(w, start, order, at)
    ensures AllPassed(w, start, order, at + 1, changed)
  {
  }

  /** After a pass the loop is over, or the next pass takes up where this one merged last. */
  lemma PassEnds(w: World, start: seq<seq<nat>>, order: seq<nat>, at: nat, changed: bool)
    requires OrderOk(|start|, order) && AllPassed(w, start, order, at, changed) && at >= |start|
    ensures if changed then AllPassed(w, start, order, 1, false) else RunIsOver(w, start, order)
  {
  }

  lemma OverMeansSettled(w: World, start: seq<seq<nat>>, order: seq<nat>)
    requires OrderOk(|start|, order) && RunIsOver(w, start, order)
    ensures Settled(w, GroupsAfter(start, order), MarksAfter(|start|, order), |start|)
  {
    forall g: nat | 1 <= g < |start|
      ensures StaysSeparate(w, GroupsAfter(start, order), MarksAfter(|start|, order), g)
    {
      assert NotYet(w, start, order, g);
    }
  }

  // ----- what a run says about its bridges -----

  /** A bridge leaves its piece, crosses no barrier and meets the merge rule. */
  ghost predicate SoundBridge(w: World, piece: seq<nat>, p: Link) {
    && (forall m :: m in piece ==> m < |w.hubs|)
    && p.a in piece && p.b < |w.hubs|
    && !w.blocked(w.hubs[p.a], w.hubs[p.b]) && MergeRule(w, piece, p.a, p.b)
  }

  lemma BridgesAreSound(w: World, start: seq<seq<nat>>, order: seq<nat>, bridges: seq<Link>)
    requires MergeRun(w, start, order, bridges)
    ensures LinksInRange(w, bridges)
    ensures forall p :: p in bridges ==> exists piece :: piece in start && SoundBridge(w, piece, p)
  {
    forall p | p in bridges
      ensures p.a < |w.hubs| && p.b < |w.hubs| && exists piece :: piece in start && SoundBridge(w, piece, p)
    {
      var x: nat :| x < |bridges| && bridges[x] == p;
      assert MergeOk(w, start, order, bridges, x);
      CrossingIsMergeable(w, start[order[x]], GroupsAfter(start, order[..x])[0], p);
      assert start[order[x]] in start && SoundBridge(w, start[order[x]], p);
    }
  }

  // ----- the run is determined by the pieces it starts with -----

  /** Of two pieces that could be next, one comes before the other in turn. */
  lemma OneIsBetween(last: nat, p: nat, q: nat)
    requires p != last && q != last
    ensures p == q || Between(last, q, p) || Between(last, p, q)
  {
  }

  /** With the same merges behind them, both runs take the same piece next, or both are over. */
  lemma SameNext(w: World, start: seq<seq<nat>>, o1: seq<nat>, b1: seq<Link>, o2: seq<nat>, b2: seq<Link>, k: nat)
    requires MergeRun(w, start, o1, b1) && MergeRun(w, start, o2, b2) && RunIsOver(w, start, o2)
    requires k < |o1| && k <= |o2| && o1[..k] == o2[..k]
    ensures k < |o2| && o1[k] == o2[k] && b1[k] == b2[k]
  {
    var done := o1[..k];
    assert o2[..|o2|] == o2 && (done == [] || Last(done) in done);
    assert MergeOk(w, start, o1, b1, k) && 0 < o1[k] < |start|;
    var main := GroupsAfter(start, done)[0];
    CrossingIsMergeable(w, start[o1[k]], main, b1[k]);
    assert !NotYet(w, start, done, o1[k]);
    if k == |o2| {
      assert false;
    }
    assert MergeOk(w, start, o2, b2, k);
    CrossingIsMergeable(w, start[o2[k]], main, b2[k]);
    assert !NotYet(w, start, done, o2[k]);
    OneIsBetween(Last(done), o1[k], o2[k]);
    CrossingIsUnique(w, start[o1[k]], main, b1[k], b2[k]);
  }

  lemma {:induction false} AgreeFrom(w: World, start: seq<seq<nat>>, o1: seq<nat>, b1: seq<Link>, o2: seq<nat>, b2: seq<Link>, k: nat)
    requires MergeRun(w, start, o1, b1) && RunIsOver(w, start, o1) && MergeRun(w, start, o2, b2) && RunIsOver(w, start, o2)
    requires k <= |o1| && k <= |o2| && o1[..k] == o2[..k] && b1[..k] == b2[..k]
    ensures o1 == o2 && b1 == b2
    decreases |o1| - k
  {
    if k < |o1| {
      SameNext(w, start, o1, b1, o2, b2, k);
      assert o1[..k + 1] == o1[..k] + [o1[k]] && o2[..k + 1] == o2[..k] + [o2[k]];
      assert b1[..k + 1] == b1[..k] + [b1[k]] && b2[..k + 1] == b2[..k] + [b2[k]];
      AgreeFrom(w, start, o1, b1, o2, b2, k + 1);
    } else if k < |o2| {
      SameNext(w, start, o2, b2, o1, b1, k);
    } else {
      assert o1[..k] == o1 && o2[..k] == o2 && b1[..k] == b1 && b2[..k] == b2;
    }
  }

  /** Which pieces are merged, in which order and over which hubs follows from the pieces the
      loop starts with. */
  lemma MergesAreDetermined(w: World, start: seq<seq<nat>>, o1: seq<nat>, b1: seq<Link>, o2: seq<nat>, b2: seq<Link>)
    requires MergeRun(w, start, o1, b1) && RunIsOver(w, start, o1) && MergeRun(w, start, o2, b2) && RunIsOver(w, start, o2)
    ensures o1 == o2 && b1 == b2
  {
    AgreeFrom(w, start, o1, b1, o2, b2, 0);
  }

  // ----- what the whole log satisfies -----

  ghost predicate CrossesNoBarrier(w: World, log: seq<Link>)
    requires LinksInRange(w, log)
  {
    forall p :: p in log ==> !w.blocked(w.hubs[p.a], w.hubs[p.b])
  }

  /** "No land edge may cross a barrier" holds exactly when no forced link does: the
      neighbour stage and the merge loop never break it, and nothing repairs a forced link. */
  lemma BarrierHoldsIffForcedLinksDo(w: World, near: seq<Link>, start: seq<seq<nat>>, order: seq<nat>, bridges: seq<Link>)
    requires NeighbourLinks(w, near) && MergeRun(w, start, order, bridges)
    requires LinksInRange(w, Forced(w)) && LinksInRange(w, near + Forced(w) + bridges)
    ensures CrossesNoBarrier(w, near + Forced(w) + bridges) <==> CrossesNoBarrier(w, Forced(w))
  {
    var log := near + Forced(w) + bridges;
    BridgesAreSound(w, start, order, bridges);
    forall p | p in log && p !in Forced(w)
      ensures !w.blocked(w.hubs[p.a], w.hubs[p.b])
    {
      if p in near {
        var x :| 0 <= x < |near| && near[x] == p;
        assert VettedLink(w, near, x);
      } else {
        assert p in bridges;
      }
    }
    forall p | p in Forced(w)
      ensures p in log
    {
    }
  }

  /** A world with a landing, one barrier, between its two hubs, and one trunk across it. */
  function DividedWorld(): World {
    var p, q := LngLat(124.0, 40.0), LngLat(127.0, 37.0);
    World([p, q], [p], [[], []], -1, 0, [], [Link(0, 1)], Discrete, (a, b) => 1.0,
          (a, b) => (a == p && b == q) || (a == q && b == p), a => None)
  }

  /** The trunk is wired all the same: whatever else the builder links, the backbone of this
      world crosses the barrier. */
  lemma TrunkMayCrossBarrier(near: seq<Link>, bridges: seq<Link>)
    requires var w := DividedWorld(); LinksInRange(w, near) && LinksInRange(w, bridges)
    ensures var w := DividedWorld();
      && w.Valid() && IsMetric(w.km) && LinksInRange(w, near + Forced(w) + bridges)
      && !CrossesNoBarrier(w, near + Forced(w) + bridges)
  {
    var w := DividedWorld();
    DiscreteIsMetric();
    assert w.trunkEdges[..0] == [];
    assert InRange(w, 0, []) == [];
    assert InRange(w, 0, w.trunkEdges) == [Link(0, 1)];
    assert Forced(w) == [Link(0, 1)];
    assert Link(0, 1) in near + Forced(w) + bridges;
  }
}
