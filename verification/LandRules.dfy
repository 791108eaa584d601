// What the finished backbone links and what it leaves out, written out on the configuration.
module LandRules {
  import opened Options
  import opened Geometry
  import opened Graphs
  import opened UnionFinds
  import opened LandGraph
  import opened LandCandidates
  import opened LandPieces
  import opened LandHistory
  import opened LandUnique

  // ----- neighbours -----

  /** A neighbour link joins no two hubs of different known continents, no two corridor hubs, no
      hubs over mostly water and none across a barrier. */
  lemma NeighboursPassTheVetoes(w: World, f: Finished, p: Link)
    requires f.BackboneOf(w) && p in f.near
    ensures p.a < |w.hubs| && p.b < |w.hubs| && p.b in w.near[p.a]
    ensures var x, y := w.continent(w.hubs[p.a]), w.continent(w.hubs[p.b]);
      x == None || y == None || x == y
    ensures w.corridorStart < 0 || !(w.corridorStart <= p.a < w.corridorStart + w.corridorHubs)
      || !(w.corridorStart <= p.b < w.corridorStart + w.corridorHubs)
    ensures w.landFraction(w.hubs[p.a], w.hubs[p.b]) >= 0.85
    ensures !w.blocked(w.hubs[p.a], w.hubs[p.b])
  {
    var x: nat :| x < |f.near| && f.near[x] == p;
    assert VettedLink(w, f.near, x);
  }

  /** A candidate that none of the four vetoes holds back is linked by the turn of its hub, or the
      hub has six links, all to earlier candidates. */
  lemma PassingCandidatesAreLinked(w: World, f: Finished, i: nat, k: nat)
    requires f.BackboneOf(w) && i < |w.hubs| && k < |w.near[i]| && w.near[i][k] < |w.hubs|
    requires var x, y := w.continent(w.hubs[i]), w.continent(w.hubs[w.near[i][k]]);
      x == None || y == None || x == y
    requires w.corridorStart < 0 || !(w.corridorStart <= i < w.corridorStart + w.corridorHubs)
      || !(w.corridorStart <= w.near[i][k] < w.corridorStart + w.corridorHubs)
    requires w.landFraction(w.hubs[i], w.hubs[w.near[i][k]]) >= 0.85
    requires !w.blocked(w.hubs[i], w.hubs[w.near[i][k]])
    ensures var j := w.near[i][k];
      || Link(i, j) in f.near
      || (j < i && Link(j, i) in f.near)
      || (Owned(f.near, i) == 6 && forall p :: p in f.near && p.a == i ==> p.b in w.near[i][..k])
  {
    assert Served(w, f.near, i, k);
    assert Owned(f.near, i) == LAND_K ==> OwnedWithin(w, f.near, i, k) || LinkedInTurn(f.near, i, w.near[i][k]);
  }

  /** No hub asks for more than six. */
  lemma SixAtMost(w: World, f: Finished, i: nat)
    requires f.BackboneOf(w)
    ensures Owned(f.near, i) <= 6
  {
  }

  // ----- forced links -----

  lemma {:induction false} InRangeHolds(w: World, base: nat, es: seq<Link>, p: Link)
    ensures p in InRange(w, base, es) <==>
      exists e :: e in es && p == Link(base + e.a, base + e.b) && base + e.a < |w.hubs| && base + e.b < |w.hubs|
  {
    if es != [] {
      var init, last := es[..|es| - 1], es[|es| - 1];
      InRangeHolds(w, base, init, p);
      assert es == init + [last];
    }
  }

  lemma {:induction false} TrunksHold(w: World, es: seq<Link>, p: Link)
    ensures p in InRange(w, 0, es) <==> p in es && p.a < |w.hubs| && p.b < |w.hubs|
  {
    if es != [] {
      TrunksHold(w, es[..|es| - 1], p);
      assert es == es[..|es| - 1] + [es[|es| - 1]];
    }
  }

  /** Corridor links count their hubs from the start of the corridor, trunk links from 0; both are
      wired whenever their hubs exist, and nothing else is forced. */
  lemma ForcedLinksAreConfigured(w: World, f: Finished, p: Link)
    requires f.BackboneOf(w)
    ensures p in Forced(w) <==>
      && p.a < |w.hubs| && p.b < |w.hubs|
      && (p in w.trunkEdges
          || (w.corridorStart >= 0 && exists e :: e in w.corridorEdges && p == Link(w.corridorStart + e.a, w.corridorStart + e.b)))
    ensures p in f.Links(w) <==> p in f.near || p in Forced(w) || p in f.run.bridges
  {
    if w.corridorStart >= 0 {
      InRangeHolds(w, w.corridorStart, w.corridorEdges, p);
    }
    TrunksHold(w, w.trunkEdges, p);
  }

  // ----- bridges -----

  /** A bridge crosses no barrier, and it is at most 60 km long, or mostly over land, or the piece it
      starts from, before anything is merged, has no landing within 60 km of any of its hubs. */
  lemma BridgesAreShortDryOrNeeded(w: World, f: Finished, p: Link)
    requires f.BackboneOf(w) && p in f.run.bridges
    ensures p.a < |w.hubs| && p.b < |w.hubs| && !w.blocked(w.hubs[p.a], w.hubs[p.b])
    ensures
      || w.km(w.hubs[p.a], w.hubs[p.b]) <= 60.0
      || w.landFraction(w.hubs[p.a], w.hubs[p.b]) >= 0.85
      || forall m: nat, l :: m < |w.hubs| && Reach(Built(w, f.near + Forced(w)), p.a, m) && l in w.landings ==>
           w.km(w.hubs[m], l) > 60.0
  {
    var x: nat :| x < |f.run.bridges| && f.run.bridges[x] == p;
    assert MergeOk(w, f.start, f.run.order, f.run.bridges, x);
    var piece := f.start[f.run.order[x]];
    CrossingIsMergeable(w, piece, GroupsAfter(f.start, f.run.order[..x])[0], p);
    forall m: nat | m < |w.hubs| && Reach(Built(w, f.near + Forced(w)), p.a, m)
      ensures m in piece
    {
      PieceIsWhole(Built(w, f.near + Forced(w)), f.start, f.run.order[x], p.a, m);
    }
  }

  lemma PieceIsWhole(g: Graph, start: seq<seq<nat>>, i: nat, a: nat, m: nat)
    requires StartsWith(g, start) && i < |start| && a in start[i] && m < |g| && Reach(g, a, m)
    ensures m in start[i]
  {
    var root :| Agrees(root, g) && PiecesOf(root, start);
    assert WholeClass(root, start[i]);
    ClassIsReach(root, g, a, m);
  }

  // ----- candidates -----

  /** The hubs at most `r` whole degrees of cells away from hub `i` either way. */
  ghost function Around(hubs: seq<LngLat>, i: nat, r: nat): set<nat>
    requires i < |hubs|
  {
    set j: nat | j < |hubs| && j != i
      && hubs[i].lon.Floor - r <= hubs[j].lon.Floor <= hubs[i].lon.Floor + r
      && hubs[i].lat.Floor - r <= hubs[j].lat.Floor <= hubs[i].lat.Floor + r
  }

  /** Hub `a` is nearer to `i` than hub `b`; equally near ones go from west to east, from south to
      north, and by number. */
  ghost predicate Sooner(hubs: seq<LngLat>, km: Distance, i: nat, a: nat, b: nat)
    requires i < |hubs| && a < |hubs| && b < |hubs|
  {
    var (x, y) := (hubs[a].lon.Floor, hubs[b].lon.Floor);
    var (u, v) := (hubs[a].lat.Floor, hubs[b].lat.Floor);
    km(hubs[i], hubs[a]) < km(hubs[i], hubs[b])
    || (km(hubs[i], hubs[a]) == km(hubs[i], hubs[b]) && (x < y || (x == y && (u < v || (u == v && a < b)))))
  }

  /** A hub's candidates are all hubs of the smallest ring of at most eight cells that holds 24, or
      else of the eighth, nearest first. */
  lemma CandidatesAreTheRing(hubs: seq<LngLat>, km: Distance, i: nat, r: nat, cands: seq<nat>)
    requires i < |hubs| && Chosen(hubs, km, i, r, cands)
    ensures 1 <= r <= 8 && (r < 8 ==> |Around(hubs, i, r)| >= 24)
    ensures forall q: nat {:trigger Around(hubs, i, q)} :: 1 <= q < r ==> |Around(hubs, i, q)| < 24
    ensures forall j: nat :: j in cands <==> j in Around(hubs, i, r)
    ensures forall k, l {:trigger cands[k], cands[l]} :: 0 <= k < l < |cands| ==> cands[k] < |hubs| && cands[l] < |hubs| && Sooner(hubs, km, i, cands[k], cands[l])
  {
    forall q: nat
      ensures Around(hubs, i, q) == Ring(hubs, i, q)
    {
    }
    forall k, l | 0 <= k < l < |cands|
      ensures cands[k] < |hubs| && cands[l] < |hubs| && Sooner(hubs, km, i, cands[k], cands[l])
    {
      assert Nearer(hubs, km, i, cands[k], cands[l]);
    }
  }
}
