// The finished network, and that the cable systems alone determine it.
module CableUnique {
  import opened Geometry
  import opened Graphs
  import opened CableGraph
  import opened CableComponents
  import opened CableFold
  import opened CablePlaces
  import opened CableWires

  /** A finished network, with the history that explains it. */
  datatype Finished = Finished(
    nodes: seq<LngLat>, home: seq<nat>, chords: seq<seq<Wire>>,
    comp: seq<int>, seeds: seq<nat>, main: nat, folds: seq<Wire>)
  {
    /** What the systems wire before the fold. */
    ghost function Built(km: Distance, systems: seq<seq<Polyline>>): seq<Wire>
      requires LaidUpTo(systems, |systems|) <= |AllLaid(systems)| && 2 * |AllLaid(systems)| <= |home| && |chords| == |systems|
    {
      SystemLog(km, systems, AllLaid(systems), home, chords, |systems|)
    }

    /** Every end was placed, every system wired in turn, and what was left apart was folded. */
    ghost predicate NetworkOf(km: Distance, systems: seq<seq<Polyline>>) {
      && Placed(km, nodes, Termini(AllLaid(systems)), home)
      && LandingsOf(km, nodes, AllLaid(systems), home)
      && SystemsOk(km, nodes, systems, AllLaid(systems), home, chords, |systems|)
      && InRange(|nodes|, Built(km, systems) + folds)
      && FoldedBy(km, nodes, Wired(|nodes|, Built(km, systems)), comp, seeds, main, folds)
    }
  }

  // ----- each stage is determined by the one before -----

  lemma {:induction false} SystemsAgree(km: Distance, nodes: seq<LngLat>, systems: seq<seq<Polyline>>, laid: seq<Polyline>, home: seq<nat>,
                                        c: seq<seq<Wire>>, d: seq<seq<Wire>>, s: nat)
    requires SystemsOk(km, nodes, systems, laid, home, c, |systems|) && SystemsOk(km, nodes, systems, laid, home, d, |systems|)
    requires s <= |systems|
    ensures c[..s] == d[..s]
  {
    if s > 0 {
      SystemsAgree(km, nodes, systems, laid, home, c, d, s - 1);
      LaidUpToGrows(systems, s, |systems|);
      assert LaidUpTo(systems, s - 1 + 1) <= |laid|;
      OneSystemAgrees(km, nodes, systems, laid, home, c, d, s - 1);
      assert c[..s] == c[..s - 1] + [c[s - 1]] && d[..s] == d[..s - 1] + [d[s - 1]];
    }
  }

  lemma OneSystemAgrees(km: Distance, nodes: seq<LngLat>, systems: seq<seq<Polyline>>, laid: seq<Polyline>, home: seq<nat>,
                        c: seq<seq<Wire>>, d: seq<seq<Wire>>, s: nat)
    requires s < |systems| && s < |c| && s < |d| && LaidUpTo(systems, s + 1) <= |laid| && 2 * LaidUpTo(systems, s + 1) <= |home|
    requires SystemOk(km, nodes, systems, laid, home, c, s) && SystemOk(km, nodes, systems, laid, home, d, s) && c[..s] == d[..s]
    ensures c[s] == d[s]
  {
    LaidUpToGrows(systems, s, s + 1);
    SystemLogGrows(km, systems, laid, home, c[..s], laid, home, c, s);
    SystemLogGrows(km, systems, laid, home, d[..s], laid, home, d, s);
    assert WithCables(km, systems, laid, home, c, s) == WithCables(km, systems, laid, home, d, s);
    ChordsAgree(km, nodes, WithCables(km, systems, laid, home, c, s), c[s], d[s], Landings(systems, home, s), 0);
  }

  lemma FoldIsUnique(km: Distance, nodes: seq<LngLat>, comp: seq<int>, main: nat, c: nat, f: Wire, h: Wire)
    requires FoldOk(km, nodes, comp, main, c, f) && FoldOk(km, nodes, comp, main, c, h)
    ensures f == h
  {
    assert NoFarther(km, nodes, f.a, f.b, h.a, h.b) && NoFarther(km, nodes, h.a, h.b, f.a, f.b);
  }

  lemma FoldsAgree(km: Distance, nodes: seq<LngLat>, comp: seq<int>, main: nat, k: nat, f: seq<Wire>, h: seq<Wire>)
    requires FoldsUpTo(km, nodes, comp, main, k, f) && FoldsUpTo(km, nodes, comp, main, k, h) && main < k
    ensures f == h
  {
    forall i | 0 <= i < |f|
      ensures f[i] == h[i]
    {
      var c: nat := if i < main then i else i + 1;
      assert FoldIndex(main, c) == i;
      FoldIsUnique(km, nodes, comp, main, c, f[i], h[i]);
    }
  }

  lemma FoldingIsDetermined(km: Distance, nodes: seq<LngLat>, g: Graph, x: Finished, y: Finished)
    requires Symmetric(g) && |g| == |nodes|
    requires FoldedBy(km, nodes, g, x.comp, x.seeds, x.main, x.folds) && FoldedBy(km, nodes, g, y.comp, y.seeds, y.main, y.folds)
    ensures x.comp == y.comp && x.seeds == y.seeds && x.folds == y.folds && (nodes != [] ==> x.main == y.main)
  {
    LabelsAreDetermined(g, x.comp, x.seeds, y.comp, y.seeds);
    if nodes != [] {
      assert Count(x.comp, x.main) <= Count(y.comp, y.main) && Count(y.comp, y.main) <= Count(x.comp, x.main);
      assert x.main == y.main;
      FoldsAgree(km, nodes, x.comp, x.main, |x.seeds|, x.folds, y.folds);
    }
  }

  lemma {:induction false} WiredIsSymmetric(n: nat, log: seq<Wire>)
    requires InRange(n, log)
    ensures Symmetric(Wired(n, log))
  {
    if log != [] {
      var init, x := log[..|log| - 1], log[|log| - 1];
      WiredIsSymmetric(n, init);
      AddBothSymmetric(Wired(n, init), x.a, There(x.b, x.w, x.branch), x.b, Back(x.a, x.w, x.branch));
    }
  }

  /** The systems and the distance determine nodes, placement and every wire of the network. */
  lemma NetworkIsDetermined(km: Distance, systems: seq<seq<Polyline>>, x: Finished, y: Finished)
    requires x.NetworkOf(km, systems) && y.NetworkOf(km, systems)
    ensures x.nodes == y.nodes && x.home == y.home
    ensures x.Built(km, systems) + x.folds == y.Built(km, systems) + y.folds
  {
    var laid := AllLaid(systems);
    PlacesAreDetermined(km, Termini(laid), x.nodes, x.home, y.nodes, y.home);
    SystemsAgree(km, x.nodes, systems, laid, x.home, x.chords, y.chords, |systems|);
    assert x.chords[..|systems|] == x.chords && y.chords[..|systems|] == y.chords;
    var built := x.Built(km, systems);
    assert forall i :: 0 <= i < |built| ==> built[i] == (built + x.folds)[i];
    WiredIsSymmetric(|x.nodes|, built);
    FoldingIsDetermined(km, x.nodes, Wired(|x.nodes|, built), x, y);
  }
}
