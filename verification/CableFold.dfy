// Folding every smaller component into the main one.
module CableFold {
  import opened Geometry
  import opened Graphs
  import opened CableComponents

  /** The label array after the components before `k` were folded into `main`. */
  ghost function Folded(comp: seq<int>, main: int, k: int): (r: seq<int>)
    ensures |r| == |comp|
  {
    seq(|comp|, v requires 0 <= v < |comp| => if comp[v] < k || comp[v] == main then main else comp[v])
  }

  /** The assignments of one fold: the members, and the cell at index `k` itself. */
  ghost predicate Relabelled(cur: seq<int>, next: seq<int>, members: seq<nat>, k: nat, main: int) {
    && |next| == |cur|
    && forall v: nat :: v < |cur| ==> next[v] == if v == k || v in members then main else cur[v]
  }

  /** `compOf[comp] = main` writes a component id into a cell that belongs to a node. It is
      harmless: that node's own id is at most `k`, so it is in the main component already. */
  lemma StrayWriteIsHarmless(comp: seq<int>, main: int, k: nat, members: seq<nat>, next: seq<int>)
    requires k < |comp| && k != main
    requires forall v :: 0 <= v < |comp| ==> 0 <= comp[v] <= v
    requires forall v: nat :: v in members <==> v < |comp| && Folded(comp, main, k)[v] == k
    requires Relabelled(Folded(comp, main, k), next, members, k, main)
    ensures next == Folded(comp, main, k + 1)
  {
    var cur, want := Folded(comp, main, k), Folded(comp, main, k + 1);
    forall v: nat | v < |comp|
      ensures next[v] == want[v]
    {
      assert comp[k] <= k;
      assert v in members <==> cur[v] == k;
    }
  }

  /** The pair (a, b) is no farther apart than (m, i), and closer than one scanned before it. */
  ghost predicate NoFarther(km: Distance, nodes: seq<LngLat>, a: nat, b: nat, m: nat, i: nat)
    requires a < |nodes| && b < |nodes| && m < |nodes| && i < |nodes|
  {
    && km(nodes[a], nodes[b]) <= km(nodes[m], nodes[i])
    && (m < a || (m == a && i < b) ==> km(nodes[a], nodes[b]) < km(nodes[m], nodes[i]))
  }

  ghost predicate Ascending(members: seq<nat>) {
    forall x, y :: 0 <= x < y < |members| ==> members[x] < members[y]
  }

  /** `a` and `b` are the first closest pair between the members and the main component. */
  ghost predicate ClosestPair(km: Distance, nodes: seq<LngLat>, members: seq<nat>, cur: seq<int>, main: int, a: nat, b: nat) {
    && a in members && a < |nodes| && b < |nodes| == |cur| && cur[b] == main
    && forall m: nat, i: nat :: m in members && m < |nodes| && i < |nodes| && cur[i] == main ==> NoFarther(km, nodes, a, b, m, i)
  }

  /** Members seen so far, against all of the main component. */
  ghost predicate BestPair(km: Distance, nodes: seq<LngLat>, members: seq<nat>, cur: seq<int>, main: int, a: int, b: int, x: nat, y: nat) {
    && |cur| == |nodes| && x <= |members|
    && (a >= 0 ==> 0 <= a < |nodes| && 0 <= b < |nodes| && a in members && cur[b] == main)
    && (a >= 0 && x < |members| ==> a < members[x] || (a == members[x] && b < y))
    && forall p: nat, i: nat {:trigger Seen(members, cur, main, x, y, p, i)} ::
         Seen(members, cur, main, x, y, p, i) && members[p] < |nodes| ==>
           0 <= a < |nodes| && 0 <= b < |nodes| && NoFarther(km, nodes, a, b, members[p], i)
  }

  /** Pair (member at position `p`, main node `i`) was compared before (x, y). */
  ghost predicate Seen(members: seq<nat>, cur: seq<int>, main: int, x: nat, y: nat, p: nat, i: nat) {
    p < |members| && i < |cur| && cur[i] == main && (p < x || (p == x && i < y))
  }

  method NearestPair(km: Distance, nodes: seq<LngLat>, members: seq<nat>, compOf: array<int>, main: int)
    returns (bestA: int, bestB: int)
    requires compOf.Length == |nodes| && Ascending(members) && forall m :: m in members ==> m < |nodes|
    ensures members != [] && main in compOf[..] ==>
      bestA >= 0 && bestB >= 0 && ClosestPair(km, nodes, members, compOf[..], main, bestA, bestB)
  {
    bestA, bestB := -1, -1;
    ghost var cur := compOf[..];
    var x := 0;
    while x < |members|
      invariant 0 <= x <= |members| && compOf[..] == cur
      invariant BestPair(km, nodes, members, cur, main, bestA, bestB, x, 0)
    {
      assert members[x] in members;
      bestA, bestB := NearestTo(km, nodes, members, compOf, main, bestA, bestB, x);
      x := x + 1;
    }
    if members != [] && main in cur {
      var i :| 0 <= i < |cur| && cur[i] == main;
      assert members[0] in members;
      assert Seen(members, cur, main, x, 0, 0, i);
      forall m: nat, j: nat | m in members && j < |nodes| && cur[j] == main
        ensures NoFarther(km, nodes, bestA, bestB, m, j)
      {
        var p :| 0 <= p < |members| && members[p] == m;
        assert Seen(members, cur, main, x, 0, p, j);
      }
    }
  }

  /** One member against every node of the main component. */
  method NearestTo(km: Distance, nodes: seq<LngLat>, members: seq<nat>, compOf: array<int>, main: int, a: int, b: int, x: nat)
    returns (bestA: int, bestB: int)
    requires compOf.Length == |nodes| && Ascending(members) && x < |members| && members[x] < |nodes|
    requires BestPair(km, nodes, members, compOf[..], main, a, b, x, 0)
    ensures BestPair(km, nodes, members, compOf[..], main, bestA, bestB, x + 1, 0)
  {
    bestA, bestB := a, b;
    ghost var cur := compOf[..];
    var m := members[x];
    var i := 0;
    while i < |nodes|
      invariant 0 <= i <= |nodes| && compOf[..] == cur
      invariant BestPair(km, nodes, members, cur, main, bestA, bestB, x, i)
    {
      ghost var y := i + 1;
      if compOf[i] == main && (bestA < 0 || km(nodes[m], nodes[i]) < km(nodes[bestA], nodes[bestB])) {
        bestA, bestB := m, i;
      }
      forall p: nat, j: nat | Seen(members, cur, main, x, y, p, j) && members[p] < |nodes|
        ensures 0 <= bestA < |nodes| && 0 <= bestB < |nodes| && NoFarther(km, nodes, bestA, bestB, members[p], j)
      {
        if p != x || j != i {
          assert Seen(members, cur, main, x, i, p, j);
        }
      }
      i := i + 1;
    }
    ghost var z := x + 1;
    forall p: nat, j: nat | Seen(members, cur, main, z, 0, p, j) && members[p] < |nodes|
      ensures 0 <= bestA < |nodes| && 0 <= bestB < |nodes| && NoFarther(km, nodes, bestA, bestB, members[p], j)
    {
      assert Seen(members, cur, main, x, i, p, j);
    }
  }

  /** `members`: the nodes labelled `k`, in index order. */
  method MembersOf(compOf: array<int>, k: int) returns (members: seq<nat>)
    ensures Ascending(members) && forall v: nat :: v in members <==> v < compOf.Length && compOf[v] == k
  {
    members := [];
    var i := 0;
    while i < compOf.Length
      invariant 0 <= i <= compOf.Length
      invariant Ascending(members) && forall v: nat :: v in members <==> v < i && compOf[v] == k
    {
      forall x | 0 <= x < |members|
        ensures members[x] < i
      {
        assert members[x] in members;
      }
      if compOf[i] == k {
        members := members + [i];
      }
      i := i + 1;
    }
  }

  /** `compOf[comp] = main; for (const m of members) compOf[m] = main`. */
  method Relabel(compOf: array<int>, members: seq<nat>, k: nat, main: int)
    requires k < compOf.Length && forall v :: v in members ==> v < compOf.Length
    modifies compOf
    ensures Relabelled(old(compOf[..]), compOf[..], members, k, main)
  {
    compOf[k] := main;
    var i := 0;
    while i < |members|
      invariant 0 <= i <= |members|
      invariant forall v: nat :: v < compOf.Length ==>
        compOf[v] == if v == k || v in members[..i] then main else old(compOf[v])
    {
      assert members[i] in members;
      compOf[members[i]] := main;
      assert members[..i + 1] == members[..i] + [members[i]];
      i := i + 1;
    }
    assert members[..i] == members;
  }

  /** The first largest component. */
  method Largest(compSize: seq<nat>) returns (main: nat)
    ensures compSize != [] ==> main < |compSize|
    ensures forall i :: 0 <= i < |compSize| ==> compSize[i] <= compSize[main] && (i < main ==> compSize[i] < compSize[main])
  {
    main := 0;
    var i := 1;
    while i < |compSize|
      invariant 1 <= i && main < i && (compSize != [] ==> main < |compSize|)
      invariant forall j :: 0 <= j < i && j < |compSize| ==> compSize[j] <= compSize[main] && (j < main ==> compSize[j] < compSize[main])
    {
      if compSize[i] > compSize[main] {
        main := i;
      }
      i := i + 1;
    }
  }

  // ----- reachability while folding -----

  /** Every node is reached from the seed of its own component, and the folded part from `hub`. */
  ghost predicate NodeJoined(g: Graph, comp: seq<int>, seeds: seq<nat>, cur: seq<int>, main: int, hub: nat, v: nat) {
    && v < |g| == |comp| == |cur|
    && 0 <= comp[v] < |seeds| && Reach(g, seeds[comp[v]], v)
    && (cur[v] == main ==> Reach(g, hub, v))
  }

  ghost predicate AllJoined(g: Graph, comp: seq<int>, seeds: seq<nat>, cur: seq<int>, main: int, hub: nat) {
    && |g| == |comp| == |cur|
    && forall v: nat {:trigger NodeJoined(g, comp, seeds, cur, main, hub, v)} :: v < |g| ==> NodeJoined(g, comp, seeds, cur, main, hub, v)
  }

  /** A new link between a folded node and component `k` joins all of `k` to the hub. */
  lemma LinkJoinsComponent(g: Graph, h: Graph, comp: seq<int>, seeds: seq<nat>, cur: seq<int>, next: seq<int>, main: int,
                           hub: nat, k: nat, a: nat, b: nat)
    requires AllJoined(g, comp, seeds, cur, main, hub) && Within(g, h) && |h| == |g| && Symmetric(h)
    requires a < |g| && b < |g| && comp[a] == k && cur[b] == main && Reach(h, b, a)
    requires |next| == |cur| && forall v :: 0 <= v < |cur| && next[v] == main ==> cur[v] == main || comp[v] == k
    ensures AllJoined(h, comp, seeds, next, main, hub)
  {
    assert NodeJoined(g, comp, seeds, cur, main, hub, a) && NodeJoined(g, comp, seeds, cur, main, hub, b);
    ReachWithin(g, h, hub, b);
    ReachTrans(h, hub, b, a);
    ReachWithin(g, h, seeds[comp[a]], a);
    ReachSymmetric(h, seeds[comp[a]], a);
    ReachTrans(h, hub, a, seeds[comp[a]]);
    forall v: nat | v < |h|
      ensures NodeJoined(h, comp, seeds, next, main, hub, v)
    {
      assert NodeJoined(g, comp, seeds, cur, main, hub, v);
      ReachWithin(g, h, seeds[comp[v]], v);
      if next[v] == main {
        if cur[v] == main {
          ReachWithin(g, h, hub, v);
        } else {
          ReachTrans(h, hub, seeds[comp[a]], v);
        }
      }
    }
  }

  /** Before the first fold, the main component hangs together around its own seed. */
  lemma FoldStarts(g: Graph, comp: seq<int>, seeds: seq<nat>, main: nat)
    requires Labelled(g, comp, seeds) && main < |seeds|
    ensures Folded(comp, main, 0) == comp
    ensures AllJoined(g, comp, seeds, comp, main, seeds[main])
  {
    forall v: nat | v < |g|
      ensures NodeJoined(g, comp, seeds, comp, main, seeds[main], v)
    {
      assert LabelOk(g, comp, seeds, v);
    }
  }

  /** After the last fold everything is reached from the hub, and so from everywhere. */
  lemma FoldEnds(g: Graph, comp: seq<int>, seeds: seq<nat>, cur: seq<int>, main: int, hub: nat)
    requires AllJoined(g, comp, seeds, cur, main, hub) && Symmetric(g)
    requires forall v :: 0 <= v < |cur| ==> cur[v] == main
    ensures forall u, v :: 0 <= u < |g| && 0 <= v < |g| ==> Reach(g, u, v)
  {
    forall u, v | 0 <= u < |g| && 0 <= v < |g|
      ensures Reach(g, u, v)
    {
      assert NodeJoined(g, comp, seeds, cur, main, hub, u) && NodeJoined(g, comp, seeds, cur, main, hub, v);
      ReachSymmetric(g, hub, u);
      ReachTrans(g, u, hub, v);
    }
  }
}
