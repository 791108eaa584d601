// Which hubs the finished backbone connects, and which stay apart.
module LandIslands {
  import opened Options
  import opened Geometry
  import opened Graphs
  import opened ShortestPaths
  import opened UnionFinds
  import opened LandGraph
  import opened LandHistory
  import opened LandMerge
  import opened LandBackbone

  ghost predicate InWorld(w: World, piece: seq<nat>) {
    piece != [] && forall m :: m in piece ==> m < |w.hubs|
  }

  /** The scan over all pairs up to (k, l), as a fact about the world. */
  lemma {:induction false} ScanUpTo(w: World, piece: seq<nat>, main: seq<nat>, k: nat, l: nat) returns (best: Best, i: nat, j: nat)
    requires InWorld(w, piece) && InWorld(w, main)
    requires k <= |piece| && l <= |main| && (k == |piece| ==> l == 0)
    ensures BestSoFar(w, piece, main, best, i, j, k, l)
    decreases k, l
  {
    if l > 0 {
      best, i, j := ScanUpTo(w, piece, main, k, l - 1);
      assert piece[k] in piece && main[l - 1] in main;
      ScanStep(w, piece, main, best, i, j, k, l - 1);
      var d := Fin(Gap(w, piece, main, k, l - 1));
      if Less(d, best.d) && !w.blocked(w.hubs[piece[k]], w.hubs[main[l - 1]]) {
        best, i, j := Best(d, piece[k], main[l - 1]), k, l - 1;
      }
    } else if k > 0 {
      best, i, j := ScanUpTo(w, piece, main, k - 1, |main|);
      ScanRowEnd(w, piece, main, best, i, j, k - 1);
    } else {
      best, i, j := Best(Inf, -1, -1), 0, 0;
    }
  }

  // ----- why a piece stays separate -----

  /** Every crossing runs into a barrier. */
  ghost predicate WalledOff(w: World, piece: seq<nat>, main: seq<nat>) {
    NoCrossing(w, piece, main, |piece|, 0)
  }

  /** The shortest crossing is long and wet, and the piece has a cable landing of its own. */
  ghost predicate Overseas(w: World, piece: seq<nat>, main: seq<nat>, i: nat, j: nat)
    requires InWorld(w, piece)
  {
    && BestCrossing(w, piece, main, i, j, |piece|, 0)
    && w.km(w.hubs[piece[i]], w.hubs[main[j]]) > 60.0
    && w.landFraction(w.hubs[piece[i]], w.hubs[main[j]]) < 0.85
    && exists m, l :: m in piece && l in w.landings && w.km(w.hubs[m], l) <= 60.0
  }

  ghost predicate Separated(w: World, piece: seq<nat>, main: seq<nat>)
    requires InWorld(w, piece)
  {
    WalledOff(w, piece, main) || exists i: nat, j: nat :: Overseas(w, piece, main, i, j)
  }

  /** A piece fails the merge condition exactly when barriers or the sea separate it. */
  lemma UnmergeableExactlyWhenSeparated(w: World, piece: seq<nat>, main: seq<nat>)
    requires InWorld(w, piece) && InWorld(w, main)
    ensures !Mergeable(w, piece, main) <==> Separated(w, piece, main)
  {
    var best, i, j := ScanUpTo(w, piece, main, |piece|, 0);
    ScanDecidesMerge(w, piece, main, best);
    if best.a >= 0 {
      assert Candidate(w, piece, main, i, j);
      if !MergeRule(w, piece, best.a, best.b) {
        assert Overseas(w, piece, main, i, j);
      } else {
        forall x: nat, y: nat
          ensures !Overseas(w, piece, main, x, y)
        {
          if BestCrossing(w, piece, main, x, y, |piece|, 0) {
            assert Candidate(w, piece, main, x, y);
            assert x == i && y == j;
          }
        }
      }
    }
  }

  ghost predicate KeptApart(w: World, groups: seq<seq<nat>>, merged: seq<bool>, gi: nat)
    requires |merged| == |groups|
  {
    0 < gi < |groups| && !merged[gi] && InWorld(w, groups[gi]) && Separated(w, groups[gi], groups[0])
  }

  ghost predicate OneClass(root: seq<nat>) {
    forall x, y :: 0 <= x < |root| && 0 <= y < |root| ==> root[x] == root[y]
  }

  /** After the build the hubs fall apart exactly when some piece is left out, and every piece
      left out is one that barriers or the sea separate from the main piece. */
  lemma HubsFallApartExactly(w: World, root: seq<nat>, groups: seq<seq<nat>>, merged: seq<bool>)
    requires |root| == |w.hubs| && Partition(root, groups, merged) && Settled(w, groups, merged, |groups|)
    ensures !OneClass(root) <==> exists gi: nat :: KeptApart(w, groups, merged, gi)
  {
    forall gi: nat | 0 < gi < |groups| && !merged[gi]
      ensures KeptApart(w, groups, merged, gi) && !OneClass(root)
    {
      assert LiveGroupOk(root, groups, merged, gi) && LiveGroupOk(root, groups, merged, 0);
      assert LiveGroupsApart(groups, merged, 0, gi) && StaysSeparate(w, groups, merged, gi);
      UnmergeableExactlyWhenSeparated(w, groups[gi], groups[0]);
      var x, y := groups[0][0], groups[gi][0];
      assert x in groups[0] && y in groups[gi];
    }
    if !OneClass(root) {
      var x, y :| 0 <= x < |root| && 0 <= y < |root| && root[x] != root[y];
      assert HasLiveGroup(groups, merged, x) && HasLiveGroup(groups, merged, y);
      var g :| 0 <= g < |groups| && Live(merged, g) && x in groups[g];
      var h :| 0 <= h < |groups| && Live(merged, h) && y in groups[h];
      assert LiveGroupOk(root, groups, merged, g);
      assert g != 0 || h != 0;
      assert KeptApart(w, groups, merged, if g != 0 then g else h);
    }
  }

  /** Nothing keeps `a` from being merged with `b`: no barrier, and a short or dry crossing. */
  ghost predicate Bridgeable(w: World, a: nat, b: nat)
    requires a < |w.hubs| && b < |w.hubs|
  {
    && !w.blocked(w.hubs[a], w.hubs[b])
    && (w.km(w.hubs[a], w.hubs[b]) <= 60.0
        || w.landFraction(w.hubs[a], w.hubs[b]) >= 0.85
        || !LandingNear(w))
  }

  ghost predicate LandingNear(w: World) {
    exists i, l :: 0 <= i < |w.hubs| && l in w.landings && w.km(w.hubs[i], l) <= 60.0
  }

  /** "Every hub is reachable" holds when every two hubs are bridgeable. */
  lemma BridgeableHubsConnect(w: World, root: seq<nat>, g: Graph, groups: seq<seq<nat>>, merged: seq<bool>)
    requires |root| == |w.hubs| && Partition(root, groups, merged) && Settled(w, groups, merged, |groups|)
    requires Agrees(root, g)
    requires forall a: nat, b: nat :: a < |w.hubs| && b < |w.hubs| && a != b ==> Bridgeable(w, a, b)
    ensures forall x, y :: 0 <= x < |g| && 0 <= y < |g| ==> Reach(g, x, y)
  {
    HubsFallApartExactly(w, root, groups, merged);
    forall gi: nat
      ensures !KeptApart(w, groups, merged, gi)
    {
      if KeptApart(w, groups, merged, gi) {
        BridgeableIsNotSeparated(w, root, groups, merged, gi);
      }
    }
    forall x, y | 0 <= x < |g| && 0 <= y < |g|
      ensures Reach(g, x, y)
    {
      ClassIsReach(root, g, x, y);
    }
  }

  lemma BridgeableIsNotSeparated(w: World, root: seq<nat>, groups: seq<seq<nat>>, merged: seq<bool>, gi: nat)
    requires |root| == |w.hubs| && Partition(root, groups, merged) && 0 < gi < |groups| && !merged[gi] && InWorld(w, groups[gi])
    requires forall a: nat, b: nat :: a < |w.hubs| && b < |w.hubs| && a != b ==> Bridgeable(w, a, b)
    ensures !Separated(w, groups[gi], groups[0])
  {
    var piece, main := groups[gi], groups[0];
    assert LiveGroupOk(root, groups, merged, 0) && LiveGroupOk(root, groups, merged, gi) && LiveGroupsApart(groups, merged, 0, gi);
    assert piece[0] in piece && main[0] in main && Bridgeable(w, piece[0], main[0]);
    assert Candidate(w, piece, main, 0, 0);
    forall i: nat, j: nat
      ensures !Overseas(w, piece, main, i, j)
    {
      if BestCrossing(w, piece, main, i, j, |piece|, 0) {
        assert piece[i] in piece && main[j] in main && Bridgeable(w, piece[i], main[j]);
      }
    }
  }

  // ----- what keeps two sides apart, seen from the inputs -----

  /** Neither vetting nor merging can link `a` to `b`. */
  ghost predicate Unlinkable(w: World, a: nat, b: nat) {
    && a < |w.hubs| && b < |w.hubs|
    && (w.blocked(w.hubs[a], w.hubs[b])
        || (w.km(w.hubs[a], w.hubs[b]) > 60.0
            && w.landFraction(w.hubs[a], w.hubs[b]) < 0.85
            && exists l :: l in w.landings && w.km(w.hubs[a], l) <= 60.0))
  }

  /** The link joins the two sides. */
  ghost predicate Joins(side: set<nat>, p: Link) {
    (p.a in side) != (p.b in side)
  }

  ghost predicate Divides(w: World, side: set<nat>) {
    && (forall a: nat, b: nat {:trigger Unlinkable(w, a, b)} ::
         a < |w.hubs| && b < |w.hubs| && Joins(side, Link(a, b)) ==> Unlinkable(w, a, b))
    && (forall p :: p in Forced(w) ==> !Joins(side, p))
  }

  /** When barriers, or the sea between landings, divide the hubs into two sides and no forced
      link joins them, no hub of one side reaches a hub of the other. */
  lemma SidesStayApart(w: World, near: seq<Link>, start: seq<seq<nat>>, run: Run, side: set<nat>, a: nat, b: nat)
    requires IsMetric(w.km) && NeighbourLinks(w, near) && MergeRun(w, start, run.order, run.bridges) && Divides(w, side)
    requires LinksInRange(w, near + Forced(w) + run.bridges)
    requires a < |w.hubs| && b < |w.hubs| && a in side && b !in side
    ensures !Reach(Built(w, near + Forced(w) + run.bridges), a, b)
  {
    var log := near + Forced(w) + run.bridges;
    forall p | p in log
      ensures !Joins(side, p)
    {
      LinkStaysOnItsSide(w, near, start, run, side, p);
    }
    BuiltEdges(w, log);
    var g := Built(w, log);
    if Reach(g, a, b) {
      var es :| Walk(g, a, es, b);
      WalkKeeps(g, side, a, es, b);
      assert false;
    }
  }

  lemma LinkStaysOnItsSide(w: World, near: seq<Link>, start: seq<seq<nat>>, run: Run, side: set<nat>, p: Link)
    requires NeighbourLinks(w, near) && MergeRun(w, start, run.order, run.bridges) && Divides(w, side)
    requires LinksInRange(w, near + Forced(w) + run.bridges) && p in near + Forced(w) + run.bridges
    ensures !Joins(side, p)
  {
    if p in near {
      var x: nat :| x < |near| && near[x] == p;
      VettedIsLinkable(w, near, x);
    } else if p in run.bridges {
      BridgeIsLinkable(w, start, run, p);
    }
    assert p == Link(p.a, p.b);
  }

  lemma VettedIsLinkable(w: World, near: seq<Link>, x: nat)
    requires NeighbourLinks(w, near) && x < |near|
    ensures !Unlinkable(w, near[x].a, near[x].b)
  {
    assert VettedLink(w, near, x);
  }

  lemma BridgeIsLinkable(w: World, start: seq<seq<nat>>, run: Run, p: Link)
    requires MergeRun(w, start, run.order, run.bridges) && p in run.bridges
    ensures !Unlinkable(w, p.a, p.b)
  {
    BridgesAreSound(w, start, run.order, run.bridges);
    var piece :| piece in start && SoundBridge(w, piece, p);
  }

  /** Two islands, each with a landing. */
  function Islands(): World {
    var p, q := LngLat(100.0, 0.0), LngLat(110.0, 0.0);
    World([p, q], [p, q], [[], []], -1, 0, [], [], Discrete, (a, b) => 0.0, (a, b) => false, a => None)
  }

  lemma IslandsAreDivided()
    ensures Islands().Valid() && IsMetric(Islands().km) && Divides(Islands(), {0})
  {
    var w := Islands();
    DiscreteIsMetric();
    TurnsAre(280.0, 0);
    TurnsAre(290.0, 0);
    forall a: nat, b: nat | a < |w.hubs| && b < |w.hubs| && Joins({0}, Link(a, b))
      ensures Unlinkable(w, a, b)
    {
      assert w.hubs[a] in w.landings && w.km(w.hubs[a], w.hubs[a]) == 0.0;
    }
    assert InRange(w, 0, w.trunkEdges) == [];
  }

  /** The builder leaves them in two components. */
  method BuildIslands() returns (bb: Backbone)
    ensures bb.w == Islands() && bb.Ready() && |bb.compRoot| == 2 && bb.compRoot[0] != bb.compRoot[1]
  {
    IslandsAreDivided();
    bb := new Backbone(Islands());
    ghost var f := bb.Build();
    SidesStayApart(bb.w, f.near, f.start, f.run, {0}, 0, 1);
    ClassIsReach(bb.compRoot, bb.landAdj, 0, 1);
  }
}
