// The land graph builder: nearest-neighbour links, forced links, merging to a
// fixpoint, and the component table.
module LandBackbone {
  import opened Options
  import opened Geometry
  import opened Graphs
  import opened Sequences
  import opened UnionFinds
  import opened ShortestPaths
  import opened LandGraph
  import opened LandHistory
  import opened LandUnique
  import opened LandPieces
  import opened LandMerge
  import opened LandRoutes

  ghost predicate KeySeen(n: nat, seen: set<nat>, p: Link) {
    PairKey(n, p.a, p.b) in seen
  }

  ghost predicate KeyOfLink(n: nat, log: seq<Link>, key: nat) {
    exists p :: p in log && PairKey(n, p.a, p.b) == key
  }

  /** `seen` holds the keys of the links made so far. */
  ghost predicate SeenIs(n: nat, seen: set<nat>, log: seq<Link>) {
    && (forall p: Link {:trigger KeySeen(n, seen, p)} :: p in log ==> KeySeen(n, seen, p))
    && (forall key: nat {:trigger KeyOfLink(n, log, key)} :: key in seen ==> KeyOfLink(n, log, key))
  }

  lemma SeenMeansLinked(w: World, seen: set<nat>, log: seq<Link>, i: nat, j: nat)
    requires NeighbourLinks(w, log) && SeenIs(|w.hubs|, seen, log)
    requires i < |w.hubs| && j < |w.hubs| && i != j
    ensures PairKey(|w.hubs|, i, j) in seen <==> Linked(log, i, j)
  {
    var n := |w.hubs|;
    if PairKey(n, i, j) in seen {
      assert KeyOfLink(n, log, PairKey(n, i, j));
      var p :| p in log && PairKey(n, p.a, p.b) == PairKey(n, i, j);
      var x :| 0 <= x < |log| && log[x] == p;
      assert VettedLink(w, log, x);
      PairKeyIsUnordered(n, p.a, p.b, i, j);
    }
    if Link(i, j) in log {
      assert KeySeen(n, seen, Link(i, j));
    }
    if Link(j, i) in log {
      assert KeySeen(n, seen, Link(j, i));
      PairKeyIsUnordered(n, j, i, i, j);
    }
  }

  lemma SeenSnoc(n: nat, seen: set<nat>, log: seq<Link>, i: nat, j: nat)
    requires SeenIs(n, seen, log)
    ensures SeenIs(n, seen + {PairKey(n, i, j)}, log + [Link(i, j)])
  {
    var seen', log' := seen + {PairKey(n, i, j)}, log + [Link(i, j)];
    forall p: Link | p in log'
      ensures KeySeen(n, seen', p)
    {
      if p in log {
        assert KeySeen(n, seen, p);
      }
    }
    forall key: nat | key in seen'
      ensures KeyOfLink(n, log', key)
    {
      if key in seen {
        assert KeyOfLink(n, log, key);
        var p :| p in log && PairKey(n, p.a, p.b) == key;
        assert p in log';
      } else {
        assert Link(i, j) in log';
      }
    }
  }

  lemma AppendNeighbour(w: World, log: seq<Link>, i: nat, j: nat)
    requires NeighbourLinks(w, log) && i < |w.hubs| && j < |w.hubs| && j in w.near[i] && w.MayJoin(i, j)
    requires !Linked(log, i, j) && Owned(log, i) < LAND_K
    ensures NeighbourLinks(w, log + [Link(i, j)])
    ensures Owned(log + [Link(i, j)], i) == Owned(log, i) + 1
  {
    var log' := log + [Link(i, j)];
    forall x: nat
      ensures Owned(log', x) == Owned(log, x) + if x == i then 1 else 0
    {
      OwnedSnoc(log, Link(i, j), x);
    }
    forall x: nat | x < |log'|
      ensures VettedLink(w, log', x)
    {
      if x < |log| {
        assert VettedLink(w, log, x);
      }
    }
    forall x: nat, y: nat | x < y < |log'|
      ensures DifferentPairs(log', x, y)
    {
      if y < |log| {
        assert DifferentPairs(log, x, y);
      } else {
        assert log'[x] in log;
      }
    }
  }

  ghost predicate OwnersUpTo(log: seq<Link>, i: nat) {
    forall p :: p in log ==> p.a <= i
  }

  ghost predicate ServedUpTo(w: World, log: seq<Link>, i: nat, k: nat)
    requires w.Valid() && i < |w.hubs|
  {
    forall m: nat {:trigger Served(w, log, i, m)} :: m < k && m < |w.near[i]| ==> Served(w, log, i, m)
  }

  /** Hub `i` has its turn and is done with its first `k` candidates. */
  ghost predicate HubTurn(w: World, log: seq<Link>, seen: set<nat>, i: nat, k: nat)
    requires w.Valid() && i < |w.hubs|
  {
    && NeighbourLinks(w, log) && SeenIs(|w.hubs|, seen, log)
    && OwnersUpTo(log, i) && OwnedWithin(w, log, i, k) && ServedUpTo(w, log, i, k) && LinkedInOrder(w, log)
  }

  lemma EarlierGrows(w: World, i: nat, k: nat)
    requires w.Valid() && i < |w.hubs| && k < |w.near[i]|
    ensures Earlier(w, i, k + 1) == Earlier(w, i, k) + [w.near[i][k]]
  {
  }

  lemma SkipCandidate(w: World, log: seq<Link>, seen: set<nat>, i: nat, k: nat)
    requires w.Valid() && i < |w.hubs| && k < |w.near[i]| && HubTurn(w, log, seen, i, k)
    requires w.MayJoin(i, w.near[i][k]) ==> PairKey(|w.hubs|, i, w.near[i][k]) in seen
    ensures HubTurn(w, log, seen, i, k + 1)
  {
    EarlierGrows(w, i, k);
    SeenMeansLinked(w, seen, log, i, w.near[i][k]);
    assert Served(w, log, i, k);
  }

  lemma TakeCandidate(w: World, log: seq<Link>, seen: set<nat>, i: nat, k: nat)
    requires w.Valid() && i < |w.hubs| && k < |w.near[i]| && HubTurn(w, log, seen, i, k)
    requires w.MayJoin(i, w.near[i][k]) && PairKey(|w.hubs|, i, w.near[i][k]) !in seen && Owned(log, i) < LAND_K
    ensures var j := w.near[i][k]; var log' := log + [Link(i, j)];
      HubTurn(w, log', seen + {PairKey(|w.hubs|, i, j)}, i, k + 1) && Owned(log', i) == Owned(log, i) + 1
  {
    var j := w.near[i][k];
    EarlierGrows(w, i, k);
    SeenMeansLinked(w, seen, log, i, j);
    AppendNeighbour(w, log, i, j);
    SeenSnoc(|w.hubs|, seen, log, i, j);
    forall m: nat | m < k + 1
      ensures Served(w, log + [Link(i, j)], i, m)
    {
      if m < k {
        LinkKeepsServed(w, log, i, j, m);
      }
    }
    OrderSnoc(w, log, i, k);
  }

  lemma OrderSnoc(w: World, log: seq<Link>, i: nat, k: nat)
    requires w.Valid() && i < |w.hubs| && k < |w.near[i]| && LinkedInOrder(w, log) && OwnersUpTo(log, i) && OwnedWithin(w, log, i, k)
    ensures LinkedInOrder(w, log + [Link(i, w.near[i][k])])
  {
    var link := Link(i, w.near[i][k]);
    var log' := log + [link];
    forall x: nat, y: nat | x < y < |log'|
      ensures TurnBefore(w, log'[x], log'[y])
    {
      if y < |log| {
        assert TurnBefore(w, log[x], log[y]);
      } else {
        assert log[x] in log;
        if log[x].a == i {
          assert log[x].b in Earlier(w, i, k);
          var p :| 0 <= p < k && w.near[i][p] == log[x].b;
        }
      }
    }
  }

  /** A hub that owns six links to earlier candidates is done. */
  lemma FullMeansServed(w: World, log: seq<Link>, i: nat, k: nat)
    requires NeighbourLinks(w, log) && i < |w.hubs| && k <= |w.near[i]|
    requires Owned(log, i) >= LAND_K && OwnedWithin(w, log, i, k)
    ensures forall m: nat {:trigger Served(w, log, i, m)} :: k <= m < |w.near[i]| ==> Served(w, log, i, m)
  {
    forall m: nat | k <= m < |w.near[i]|
      ensures OwnedWithin(w, log, i, m)
    {
      assert w.near[i][..m][..k] == w.near[i][..k];
    }
  }

  lemma NoLinks(w: World)
    requires w.Valid()
    ensures NeighbourLinks(w, [])
    ensures Built(w, []) == seq(|w.hubs|, _ => [])
  {
  }

  class Backbone {
    const w: World
    var landAdj: Graph
    var compRoot: seq<nat>
    var landBuilt: bool
    ghost var log: seq<Link>  // every link ever added

    ghost predicate Consistent()
      reads this
    {
      w.Valid() && LinksInRange(w, log) && landAdj == Built(w, log)
    }

    constructor (w: World)
      requires w.Valid()
      ensures this.w == w && Consistent() && log == [] && !landBuilt
    {
      this.w := w;
      landAdj := seq(|w.hubs|, _ => []);
      compRoot := [];
      landBuilt := false;
      log := [];
    }

    /** `addUndir`. */
    method AddUndir(a: nat, b: nat)
      requires Consistent() && a < |w.hubs| && b < |w.hubs|
      modifies this`landAdj, this`log
      ensures Consistent() && log == old(log) + [Link(a, b)]
    {
      var d := w.km(w.hubs[a], w.hubs[b]);
      BuiltSnoc(w, log, a, b);
      landAdj := AddBoth(landAdj, a, Edge(b, d, -1, false), b, Edge(a, d, -1, false));
      log := log + [Link(a, b)];
    }

    /** One candidate of hub `i`. */
    method LinkCandidate(i: nat, k: nat, seen0: set<nat>) returns (seen: set<nat>, added: nat)
      requires Consistent() && i < |w.hubs| && k < |w.near[i]|
      requires HubTurn(w, log, seen0, i, k) && Owned(log, i) < LAND_K
      modifies this`landAdj, this`log
      ensures Consistent() && HubTurn(w, log, seen, i, k + 1)
      ensures Extends(old(log), log, i) && Owned(log, i) == old(Owned(log, i)) + added
    {
      seen, added := seen0, 0;
      var j := w.near[i][k];
      var key := PairKey(|w.hubs|, i, j);
      if w.MayJoin(i, j) && key !in seen {
        TakeCandidate(w, log, seen, i, k);
        seen := seen + {key};
        AddUndir(i, j);
        added := 1;
      } else {
        SkipCandidate(w, log, seen, i, k);
      }
    }

    /** The candidate loop of one hub. */
    method LinkHub(i: nat, seen0: set<nat>) returns (seen: set<nat>)
      requires Consistent() && i < |w.hubs|
      requires HubTurn(w, log, seen0, i, 0) && Owned(log, i) == 0
      modifies this`landAdj, this`log
      ensures Consistent() && NeighbourLinks(w, log) && SeenIs(|w.hubs|, seen, log)
      ensures Extends(old(log), log, i) && OwnersUpTo(log, i) && ServedUpTo(w, log, i, |w.near[i]|) && LinkedInOrder(w, log)
    {
      seen := seen0;
      var added, k := 0, 0;
      while k < |w.near[i]|
        invariant 0 <= k <= |w.near[i]| && Consistent()
        invariant HubTurn(w, log, seen, i, k) && added == Owned(log, i)
        invariant Extends(old(log), log, i)
      {
        if added >= LAND_K {
          FullMeansServed(w, log, i, k);
          break;
        }
        var one;
        seen, one := LinkCandidate(i, k, seen);
        added := added + one;
        k := k + 1;
      }
    }

    /** The k-nearest-neighbour stage. */
    method LinkNeighbours()
      requires Consistent() && log == []
      modifies this`landAdj, this`log
      ensures Consistent() && NeighbourLinks(w, log)
      ensures AllServed(w, log, |w.hubs|) && LinkedInOrder(w, log)
    {
      var seen: set<nat> := {};
      var i := 0;
      NoLinks(w);
      while i < |w.hubs|
        invariant 0 <= i <= |w.hubs| && Consistent()
        invariant NeighbourLinks(w, log) && SeenIs(|w.hubs|, seen, log)
        invariant (forall x: nat :: i <= x ==> Owned(log, x) == 0) && (forall p :: p in log ==> p.a < i)
        invariant AllServed(w, log, i) && LinkedInOrder(w, log)
      {
        ghost var before := log;
        seen := LinkHub(i, seen);
        ExtendsOwns(before, log, i);
        forall x: nat, k: nat | x < i + 1 && k < |w.near[x]|
          ensures Served(w, log, x, k)
        {
          if x < i {
            ExtendsKeepsServed(w, before, log, i, x, k);
          }
        }
        i := i + 1;
      }
    }

    /** A forced link is wired verbatim when both ends exist. */
    method ForceLink(base: nat, e: Link)
      requires Consistent()
      modifies this`landAdj, this`log
      ensures Consistent() && log == old(log) + Kept(w, base, e)
    {
      if base + e.a < |w.hubs| && base + e.b < |w.hubs| {
        AddUndir(base + e.a, base + e.b);
      }
    }

    /** One forced list. */
    method LinkForced(base: nat, es: seq<Link>)
      requires Consistent()
      modifies this`landAdj, this`log
      ensures Consistent() && log == old(log) + InRange(w, base, es)
    {
      ghost var wired := InRange(w, base, es[..0]);
      var k := 0;
      while k < |es|
        invariant 0 <= k <= |es| && Consistent()
        invariant wired == InRange(w, base, es[..k]) && log == old(log) + wired
      {
        InRangeSnoc(w, base, es, k);
        ForceLink(base, es[k]);
        Assoc(old(log), wired, Kept(w, base, es[k]));
        wired := wired + Kept(w, base, es[k]);
        k := k + 1;
      }
      assert es[..k] == es;
    }

    // ----- merging -----

    /** What holds between merges: the forest matches the graph, the live groups are its classes. */
    ghost predicate Merging(uf: UnionFind, groups: seq<seq<nat>>, merged: seq<bool>)
      reads this, uf
    {
      && Consistent() && Symmetric(landAdj)
      && uf.Valid() && |uf.parent| == |w.hubs|
      && Agrees(uf.root, landAdj)
      && Partition(uf.root, groups, merged)
    }

    /** `addUndir(bi, bj)` and `ufUnion(bi, bj)` for hubs of a live piece and of the main one. */
    method JoinPieces(uf: UnionFind, ghost groups: seq<seq<nat>>, ghost merged: seq<bool>, ghost gi: nat, a: nat, b: nat)
      requires Merging(uf, groups, merged) && 0 < gi < |groups| && !merged[gi]
      requires a in groups[gi] && b in groups[0] && a < |w.hubs| && b < |w.hubs|
      modifies this`landAdj, this`log, uf
      ensures Merging(uf, Absorb(groups, gi), merged[gi := true]) && log == old(log) + [Link(a, b)]
    {
      ghost var d := w.km(w.hubs[a], w.hubs[b]);
      AddAndJoin(uf.root, landAdj, a, Edge(b, d, -1, false), b, Edge(a, d, -1, false));
      MergeKeepsPartition(uf.root, groups, merged, gi, a, b);
      AddUndir(a, b);
      uf.Union(a, b);
    }

    /** One visit of the merge loop to a piece that is still separate. */
    method TryMerge(uf: UnionFind, groups0: seq<seq<nat>>, merged0: seq<bool>, gi: nat)
      returns (groups: seq<seq<nat>>, merged: seq<bool>, did: bool, ghost bridge: Link)
      requires Merging(uf, groups0, merged0) && IsMetric(w.km) && 0 < gi < |groups0| && !merged0[gi]
      modifies this`landAdj, this`log, uf
      ensures Merging(uf, groups, merged)
      ensures (forall m :: m in groups0[gi] ==> m < |w.hubs|) && (did <==> Mergeable(w, groups0[gi], groups0[0]))
      ensures if did
        then groups == Absorb(groups0, gi) && merged == merged0[gi := true] && log == old(log) + [bridge]
          && IsCrossing(w, groups0[gi], groups0[0], bridge)
        else groups == groups0 && merged == merged0 && log == old(log)
    {
      groups, merged, did, bridge := groups0, merged0, false, Link(0, 0);
      assert LiveGroupOk(uf.root, groups, merged, 0) && LiveGroupOk(uf.root, groups, merged, gi);
      var link := PickBridge(w, groups[gi], groups[0]);
      if link.Some? {
        bridge := link.value;
        CrossingIsMergeable(w, groups[gi], groups[0], bridge);
        JoinPieces(uf, groups, merged, gi, link.value.a, link.value.b);
        groups, merged, did := Absorb(groups, gi), merged[gi := true], true;
      }
    }

    /** The run of the merge loop so far: what it started with, and what it merged. */
    ghost predicate InRun(uf: UnionFind, start: seq<seq<nat>>, log0: seq<Link>, run: Run, groups: seq<seq<nat>>, merged: seq<bool>)
      reads this, uf
    {
      && Merging(uf, groups, merged) && IsMetric(w.km)
      && MergeRun(w, start, run.order, run.bridges) && log == log0 + run.bridges
      && groups == GroupsAfter(start, run.order) && merged == MarksAfter(|start|, run.order)
    }

    /** One turn of the merge loop: a piece that was merged already is passed over. */
    method Visit(uf: UnionFind, groups0: seq<seq<nat>>, merged0: seq<bool>, gi: nat, changed0: bool,
                 ghost start: seq<seq<nat>>, ghost log0: seq<Link>, ghost run0: Run)
      returns (groups: seq<seq<nat>>, merged: seq<bool>, changed: bool, ghost run: Run)
      requires InRun(uf, start, log0, run0, groups0, merged0) && 0 < gi < |groups0| == |start|
      requires AllPassed(w, start, run0.order, gi, changed0)
      modifies this`landAdj, this`log, uf
      ensures InRun(uf, start, log0, run, groups, merged) && |groups| == |start|
      ensures AllPassed(w, start, run.order, gi + 1, changed)
      ensures if changed != changed0 || run != run0 then changed && Open(merged) < Open(merged0) else merged == merged0
    {
      groups, merged, changed, run := groups0, merged0, changed0, run0;
      if !merged[gi] {
        ghost var bridge;
        var did;
        OpenDrops(merged, gi);
        groups, merged, did, bridge := TryMerge(uf, groups0, merged0, gi);
        if did {
          AllPassedMeansNext(w, start, run0.order, gi, changed0);
          RunSnoc(w, start, run0.order, run0.bridges, gi, bridge);
          Assoc(log0, run0.bridges, [bridge]);
          run, changed := Run(run0.order + [gi], run0.bridges + [bridge]), true;
          return;
        }
      }
      PassedSnoc(w, start, run0.order, gi, changed0);
    }

    /** One pass over all pieces. */
    method MergePass(uf: UnionFind, groups0: seq<seq<nat>>, merged0: seq<bool>,
                     ghost start: seq<seq<nat>>, ghost log0: seq<Link>, ghost run0: Run)
      returns (groups: seq<seq<nat>>, merged: seq<bool>, changed: bool, ghost run: Run)
      requires InRun(uf, start, log0, run0, groups0, merged0) && |groups0| == |start|
      requires AllPassed(w, start, run0.order, 1, false)
      modifies this`landAdj, this`log, uf
      ensures InRun(uf, start, log0, run, groups, merged) && |groups| == |start|
      ensures if changed then Open(merged) < Open(merged0) && AllPassed(w, start, run.order, 1, false)
        else Open(merged) == Open(merged0) && RunIsOver(w, start, run.order)
    {
      groups, merged, changed, run := groups0, merged0, false, run0;
      var gi := 1;
      while gi < |groups|
        invariant 1 <= gi && InRun(uf, start, log0, run, groups, merged) && |groups| == |start|
        invariant AllPassed(w, start, run.order, gi, changed)
        invariant if changed then Open(merged) < Open(merged0) else Open(merged) == Open(merged0)
      {
        groups, merged, changed, run := Visit(uf, groups, merged, gi, changed, start, log0, run);
        gi := gi + 1;
      }
      PassEnds(w, start, run.order, gi, changed);
    }

    /** Merge until a pass changes nothing; every merge leaves one piece fewer. */
    method MergeToFixpoint(uf: UnionFind, groups0: seq<seq<nat>>, merged0: seq<bool>)
      returns (groups: seq<seq<nat>>, merged: seq<bool>, ghost run: Run)
      requires Merging(uf, groups0, merged0) && IsMetric(w.km) && merged0 == seq(|groups0|, _ => false)
      modifies this`landAdj, this`log, uf
      ensures InRun(uf, groups0, old(log), run, groups, merged) && RunIsOver(w, groups0, run.order)
      ensures Settled(w, groups, merged, |groups|)
    {
      groups, merged, run := groups0, merged0, Run([], []);
      assert merged == MarksAfter(|groups0|, []);
      var changed := true;
      while changed
        invariant InRun(uf, groups0, old(log), run, groups, merged) && |groups| == |groups0|
        invariant if changed then AllPassed(w, groups0, run.order, 1, false) else RunIsOver(w, groups0, run.order)
        decreases Open(merged), changed
      {
        groups, merged, changed, run := MergePass(uf, groups, merged, groups0, old(log), run);
      }
      OverMeansSettled(w, groups0, run.order);
    }

    // ----- the whole build -----

    /** The finished backbone: classes of `compRoot` are exactly the connected pieces. */
    ghost predicate Ready()
      reads this
    {
      && Consistent() && IsMetric(w.km)
      && WellFormed(landAdj) && Symmetric(landAdj)
      && Agrees(compRoot, landAdj)
    }

    /** The links wired before any merge: vetted neighbours, then the forced ones. */
    method WireLinks() returns (ghost near: seq<Link>)
      requires Consistent() && log == []
      modifies this`landAdj, this`log
      ensures Consistent() && log == near + Forced(w) && NeighbourLinks(w, near)
      ensures AllServed(w, near, |w.hubs|) && LinkedInOrder(w, near)
    {
      LinkNeighbours();
      near := log;
      if w.corridorStart >= 0 {
        LinkForced(w.corridorStart, w.corridorEdges);
      }
      ghost var corridor := if w.corridorStart >= 0 then InRange(w, w.corridorStart, w.corridorEdges) else [];
      assert log == near + corridor;
      LinkForced(0, w.trunkEdges);
      Assoc(near, corridor, InRange(w, 0, w.trunkEdges));
    }

    /** The pieces of the wired graph, largest first. */
    method InitialPieces() returns (uf: UnionFind, groups: seq<seq<nat>>, merged: seq<bool>)
      requires Consistent() && IsMetric(w.km)
      ensures fresh(uf) && Merging(uf, groups, merged) && StartsWith(landAdj, groups)
      ensures merged == seq(|groups|, _ => false)
    {
      BuiltIsGood(w, log);
      uf := new UnionFind(|w.hubs|);
      UnionEdges(uf, landAdj);
      var unsorted := CollectPieces(uf);
      groups := SortBySize(uf.root, unsorted);
      SortedStillCovers(uf.root, unsorted, groups);
      SortedInLoopOrder(unsorted, groups);
      merged := seq(|groups|, _ => false);
      PiecesPartition(uf.root, groups, merged);
      assert PiecesOf(uf.root, groups);
    }

    /** `compRoot[i] = find(i)`. */
    method FillRoots(uf: UnionFind) returns (roots: seq<nat>)
      requires uf.Valid()
      modifies uf`parent
      ensures roots == uf.root
    {
      roots := [];
      var i := 0;
      while i < |uf.parent|
        invariant 0 <= i <= |uf.parent| == |uf.root| && uf.Valid()
        invariant roots == uf.root[..i]
      {
        var r := uf.Find(i);
        roots := roots + [r];
        i := i + 1;
      }
    }

    /** `buildLandGraph`: vetted neighbours, forced links, and then the run of the merge loop over
        the pieces they form. */
    method Build() returns (ghost f: Finished)
      requires Consistent() && IsMetric(w.km) && log == []
      modifies this
      ensures Ready() && landBuilt
      ensures f.BackboneOf(w) && log == f.Links(w)
      ensures var groups, merged := GroupsAfter(f.start, f.run.order), MarksAfter(|f.start|, f.run.order);
        Partition(compRoot, groups, merged) && Settled(w, groups, merged, |groups|)
    {
      ghost var near := WireLinks();
      var uf, gs, ms := InitialPieces();
      ghost var (start, run) := (gs, Run([], []));
      gs, ms, run := MergeToFixpoint(uf, gs, ms);
      f := Finished(near, start, run);
      BuiltIsGood(w, log);
      compRoot := FillRoots(uf);
      landBuilt := true;
    }

    // ----- queries -----

    /** The data file held landings, so `loadHubs` declared itself ready. */
    predicate Loaded() {
      w.landings != [] && w.hubs != []
    }

    ghost predicate Usable()
      reads this
    {
      Consistent() && IsMetric(w.km) && (if landBuilt then Ready() else log == [])
    }

    /** The component table entry of the hub nearest to `p`. */
    ghost predicate InComponent(p: LngLat, component: int)
      reads this
    {
      exists i :: FirstNearest(w.km, w.hubs, p, i) && i < |compRoot| && compRoot[i] == component
    }

    method EnsureBuilt()
      requires Usable()
      modifies this
      ensures Ready() && landBuilt
      ensures old(landBuilt) ==> landAdj == old(landAdj) && compRoot == old(compRoot)
    {
      if !landBuilt {
        var _ := Build();
      }
    }

    /** `landComponentOf`. */
    method LandComponentOf(p: LngLat) returns (r: int)
      requires Usable()
      modifies this
      ensures Usable() && (Loaded() ==> landBuilt)
      ensures old(landBuilt) ==> landAdj == old(landAdj) && compRoot == old(compRoot)
      ensures if Loaded() then InComponent(p, r) else r == -1
    {
      if !Loaded() {
        return -1;
      }
      EnsureBuilt();
      var i := Nearest(w.km, w.hubs, p);
      r := compRoot[i];
    }

    /** `landRoute`: null exactly when the end points lie in different components;
        otherwise the drawn line is a cheapest chain of hubs and is as long as it costs. */
    method LandRoute(a: LngLat, b: LngLat) returns (r: Option<seq<LngLat>>, ghost ia: nat, ghost ib: nat, ghost es: seq<Edge>)
      requires Usable()
      modifies this
      ensures Usable() && (Loaded() ==> landBuilt)
      ensures old(landBuilt) ==> landAdj == old(landAdj) && compRoot == old(compRoot)
      ensures r.Some? ==> Loaded()
      ensures Loaded() ==>
        && FirstNearest(w.km, w.hubs, a, ia) && FirstNearest(w.km, w.hubs, b, ib) && |compRoot| == |w.hubs|
        && (r.Some? <==> compRoot[ia] == compRoot[ib])
        && (r.Some? ==>
          && Shortest(landAdj, ia, es, ib) && InGraph(|w.hubs|, es)
          && r.value == [a, w.hubs[ia]] + Stops(w.hubs, es) + [b]
          && Length(w.km, r.value) == w.km(a, w.hubs[ia]) + Cost(es) + w.km(w.hubs[ib], b))
    {
      ia, ib, es := 0, 0, [];
      if !Loaded() {
        return None, 0, 0, [];
      }
      EnsureBuilt();
      var i := Nearest(w.km, w.hubs, a);
      var j := Nearest(w.km, w.hubs, b);
      ia, ib := i, j;
      HopsArePricedByDistance(w, log);
      r, es := RouteBetweenHubs(w.km, w.hubs, landAdj, a, i, b, j);
      ClassIsReach(compRoot, landAdj, i, j);
    }
  }

  lemma HopsArePricedByDistance(w: World, log: seq<Link>)
    requires LinksInRange(w, log) && IsMetric(w.km)
    ensures PricedByDistance(w.km, w.hubs, Built(w, log))
  {
    BuiltEdges(w, log);
  }

  /** Two points share a component exactly when the end hubs of their route are connected. */
  lemma {:induction false} SameComponentIffRouted(bb: Backbone, a: LngLat, ra: int, b: LngLat, rb: int, ia: nat, ib: nat)
    requires bb.Ready() && bb.InComponent(a, ra) && bb.InComponent(b, rb)
    requires FirstNearest(bb.w.km, bb.w.hubs, a, ia) && FirstNearest(bb.w.km, bb.w.hubs, b, ib)
    ensures ra == rb <==> Reach(bb.landAdj, ia, ib)
  {
    var i :| FirstNearest(bb.w.km, bb.w.hubs, a, i) && i < |bb.compRoot| && bb.compRoot[i] == ra;
    var j :| FirstNearest(bb.w.km, bb.w.hubs, b, j) && j < |bb.compRoot| && bb.compRoot[j] == rb;
    FirstNearestUnique(bb.w.km, bb.w.hubs, a, i, ia);
    FirstNearestUnique(bb.w.km, bb.w.hubs, b, j, ib);
    ClassIsReach(bb.compRoot, bb.landAdj, ia, ib);
  }
}
