// Component labelling of the cable graph by depth-first search.
module CableComponents {
  import opened Graphs

  /** `seeds[c]` is the node at which the scan started component `c`. */
  ghost predicate SeedOk(g: Graph, comp: seq<int>, seeds: seq<nat>, c: nat)
    requires c < |seeds| && |comp| == |g|
  {
    c <= seeds[c] < |g| && comp[seeds[c]] == c
  }

  /** Components are numbered in the order in which the scan met them. */
  ghost predicate Rising(seeds: seq<nat>) {
    forall c, d :: 0 <= c < d < |seeds| ==> seeds[c] < seeds[d]
  }

  /** A label names a component whose seed is no later than the node and reaches it. */
  ghost predicate LabelOk(g: Graph, comp: seq<int>, seeds: seq<nat>, v: nat)
    requires v < |g| == |comp|
  {
    0 <= comp[v] < |seeds| && seeds[comp[v]] <= v && Reach(g, seeds[comp[v]], v)
  }

  /** While component `id` is being scanned, an edge of a labelled node leads into the same
      component, or to a node that still waits on the stack. */
  ghost predicate EdgeScanned(g: Graph, comp: seq<int>, id: int, stack: seq<nat>, u: nat, k: nat)
    requires u < |g| == |comp| && k < |g[u]|
  {
    var v := g[u][k].to;
    v < |g| && (comp[v] == comp[u] || (comp[u] == id && comp[v] < 0 && v in stack))
  }

  ghost predicate SeedsOk(g: Graph, comp: seq<int>, seeds: seq<nat>)
    requires |comp| == |g|
  {
    forall c: nat {:trigger SeedOk(g, comp, seeds, c)} :: c < |seeds| ==> SeedOk(g, comp, seeds, c)
  }

  ghost predicate LabelsOk(g: Graph, comp: seq<int>, seeds: seq<nat>)
    requires |comp| == |g|
  {
    forall v: nat {:trigger LabelOk(g, comp, seeds, v)} :: v < |g| && comp[v] >= 0 ==> LabelOk(g, comp, seeds, v)
  }

  ghost predicate EdgesScanned(g: Graph, comp: seq<int>, id: int, stack: seq<nat>)
    requires |comp| == |g|
  {
    forall u: nat, k: nat {:trigger EdgeScanned(g, comp, id, stack, u, k)} ::
      u < |g| && k < |g[u]| && comp[u] >= 0 ==> EdgeScanned(g, comp, id, stack, u, k)
  }

  /** The finished table: every node is labelled and no edge changes the label. */
  ghost predicate Labelled(g: Graph, comp: seq<int>, seeds: seq<nat>) {
    && |comp| == |g|
    && (forall v :: 0 <= v < |g| ==> comp[v] >= 0)
    && Rising(seeds) && SeedsOk(g, comp, seeds) && LabelsOk(g, comp, seeds)
    && EdgesScanned(g, comp, -1, [])
  }

  /** Ids are handed out in order of the smallest node, so an id never exceeds a member's index. */
  lemma LabelAtMostIndex(g: Graph, comp: seq<int>, seeds: seq<nat>, v: nat)
    requires Labelled(g, comp, seeds) && v < |g|
    ensures 0 <= comp[v] <= v && comp[v] < |seeds|
  {
    assert LabelOk(g, comp, seeds, v);
    assert SeedOk(g, comp, seeds, comp[v]);
  }

  /** Two nodes carry the same label exactly when they are connected. */
  lemma SameLabelIffReach(g: Graph, comp: seq<int>, seeds: seq<nat>, u: nat, v: nat)
    requires Labelled(g, comp, seeds) && Symmetric(g) && u < |g| && v < |g|
    ensures comp[u] == comp[v] <==> Reach(g, u, v)
  {
    if comp[u] == comp[v] {
      assert LabelOk(g, comp, seeds, u) && LabelOk(g, comp, seeds, v);
      ReachSymmetric(g, seeds[comp[u]], u);
      ReachTrans(g, u, seeds[comp[u]], v);
    }
    if Reach(g, u, v) {
      var es :| Walk(g, u, es, v);
      WalkKeepsLabel(g, comp, seeds, u, es, v);
    }
  }

  /** The seed of a component is its smallest node. */
  lemma SeedIsLeast(g: Graph, comp: seq<int>, seeds: seq<nat>, v: nat)
    requires Labelled(g, comp, seeds) && Symmetric(g) && v < |g|
    ensures v in seeds <==> forall u: nat :: u < |g| && Reach(g, v, u) ==> v <= u
  {
    assert LabelOk(g, comp, seeds, v);
    ReachSymmetric(g, seeds[comp[v]], v);
    if v in seeds {
      var c: nat :| c < |seeds| && seeds[c] == v;
      assert SeedOk(g, comp, seeds, c);
      forall u: nat | u < |g| && Reach(g, v, u)
        ensures v <= u
      {
        SameLabelIffReach(g, comp, seeds, v, u);
        assert LabelOk(g, comp, seeds, u);
      }
    }
  }

  lemma SeedsInRange(g: Graph, comp: seq<int>, seeds: seq<nat>)
    requires Labelled(g, comp, seeds)
    ensures forall v :: v in seeds ==> v < |g|
  {
    forall v | v in seeds
      ensures v < |g|
    {
      var c: nat :| c < |seeds| && seeds[c] == v;
      assert SeedOk(g, comp, seeds, c);
    }
  }

  lemma {:induction false} RisingIsUnique(s: seq<nat>, t: seq<nat>)
    requires Rising(s) && Rising(t) && forall x: nat :: x in s <==> x in t
    ensures s == t
  {
    assert s != [] ==> s[|s| - 1] in s;
    assert t != [] ==> t[|t| - 1] in t;
    if s != [] && t != [] {
      var s', t' := s[..|s| - 1], t[..|t| - 1];
      assert s == s' + [s[|s| - 1]] && t == t' + [t[|t| - 1]];
      forall x: nat
        ensures x in s' <==> x in t'
      {
        assert x in s' <==> x in s && x < s[|s| - 1];
        assert x in t' <==> x in t && x < t[|t| - 1];
      }
      RisingIsUnique(s', t');
    }
  }

  /** The graph determines the labels and the order of the components. */
  lemma LabelsAreDetermined(g: Graph, comp: seq<int>, seeds: seq<nat>, comp': seq<int>, seeds': seq<nat>)
    requires Labelled(g, comp, seeds) && Labelled(g, comp', seeds') && Symmetric(g)
    ensures comp == comp' && seeds == seeds'
  {
    SeedsInRange(g, comp, seeds);
    SeedsInRange(g, comp', seeds');
    forall v: nat
      ensures v in seeds <==> v in seeds'
    {
      if v < |g| {
        SeedIsLeast(g, comp, seeds, v);
        SeedIsLeast(g, comp', seeds', v);
      }
    }
    RisingIsUnique(seeds, seeds');
    forall v: nat | v < |g|
      ensures comp[v] == comp'[v]
    {
      assert LabelOk(g, comp', seeds', v) && SeedOk(g, comp, seeds, comp'[v]);
      SameLabelIffReach(g, comp, seeds, seeds[comp'[v]], v);
    }
  }

  lemma {:induction false} WalkKeepsLabel(g: Graph, comp: seq<int>, seeds: seq<nat>, u: nat, es: seq<Edge>, v: nat)
    requires Labelled(g, comp, seeds) && Walk(g, u, es, v)
    ensures v < |g| && comp[u] == comp[v]
    decreases |es|
  {
    if es != [] {
      var k :| 0 <= k < |g[u]| && g[u][k] == es[0];
      assert EdgeScanned(g, comp, -1, [], u, k);
      WalkKeepsLabel(g, comp, seeds, es[0].to, es[1..], v);
    }
  }

  // ----- the scan -----

  /** Nodes on the stack were met from `s` and are new or already in component `id`. */
  ghost predicate StackOk(g: Graph, comp: seq<int>, id: int, s: nat, stack: seq<nat>)
    requires |comp| == |g|
  {
    forall k :: 0 <= k < |stack| ==>
      stack[k] < |g| && Reach(g, s, stack[k]) && (comp[stack[k]] == id || comp[stack[k]] < 0)
  }

  ghost predicate ScanInv(g: Graph, comp: seq<int>, seeds: seq<nat>, s: nat, stack: seq<nat>) {
    && |comp| == |g| && s < |g|
    && |seeds| > 0 && seeds[|seeds| - 1] == s && |seeds| - 1 <= s && Rising(seeds)
    && (forall v :: 0 <= v < |g| ==> -1 <= comp[v] < |seeds|)
    && (forall v :: 0 <= v < s ==> 0 <= comp[v] < |seeds| - 1)
    && (forall c: nat {:trigger SeedOk(g, comp, seeds, c)} :: c < |seeds| - 1 ==> SeedOk(g, comp, seeds, c))
    && (comp[s] == |seeds| - 1 || s in stack)
    && LabelsOk(g, comp, seeds)
    && EdgesScanned(g, comp, |seeds| - 1, stack)
    && StackOk(g, comp, |seeds| - 1, s, stack)
  }

  /** Popping a node that is labelled already. */
  lemma PopLabelled(g: Graph, comp: seq<int>, seeds: seq<nat>, s: nat, stack: seq<nat>)
    requires ScanInv(g, comp, seeds, s, stack) && stack != [] && comp[stack[|stack| - 1]] >= 0
    ensures ScanInv(g, comp, seeds, s, stack[..|stack| - 1])
  {
    var id, rest := |seeds| - 1, stack[..|stack| - 1];
    assert stack == rest + [stack[|stack| - 1]];
    forall u: nat, k: nat | u < |g| && k < |g[u]| && comp[u] >= 0
      ensures EdgeScanned(g, comp, id, rest, u, k)
    {
      assert EdgeScanned(g, comp, id, stack, u, k);
    }
  }

  /** A neighbour of a fresh node is fresh too, or belongs to the component being scanned:
      an older component is closed under edges, and edges have twins. */
  lemma NeighbourIsCurrent(g: Graph, comp: seq<int>, seeds: seq<nat>, s: nat, stack: seq<nat>, u: nat, k: nat)
    requires ScanInv(g, comp, seeds, s, stack) && Symmetric(g)
    requires u < |g| && comp[u] < 0 && k < |g[u]|
    ensures g[u][k].to < |g| && (comp[g[u][k].to] < 0 || comp[g[u][k].to] == |seeds| - 1)
  {
    var e := g[u][k];
    assert HasTwin(g, u, e);
    var f :| f in g[e.to] && Twin(u, e, f);
    var j :| 0 <= j < |g[e.to]| && g[e.to][j] == f;
    if comp[e.to] >= 0 {
      assert EdgeScanned(g, comp, |seeds| - 1, stack, e.to, j);
    }
  }

  predicate EdgesInto(es: seq<Edge>, n: nat) {
    forall k :: 0 <= k < |es| ==> es[k].to < n
  }

  /** The neighbours pushed for `u`: those without a label. */
  function Pushed(es: seq<Edge>, comp: seq<int>): (r: seq<nat>)
    requires EdgesInto(es, |comp|)
    ensures forall x :: x in r <==> exists k :: 0 <= k < |es| && es[k].to == x && comp[x] < 0
  {
    if es == [] then [] else
      var e := es[|es| - 1];
      assert forall k :: 0 <= k < |es| - 1 ==> es[..|es| - 1][k] == es[k];
      Pushed(es[..|es| - 1], comp) + if comp[e.to] < 0 then [e.to] else []
  }

  lemma FreshEdges(g: Graph, comp: seq<int>, seeds: seq<nat>, s: nat, rest: seq<nat>, u: nat)
    requires ScanInv(g, comp, seeds, s, rest + [u]) && Symmetric(g) && WellFormed(g)
    requires u < |g| && comp[u] < 0
    requires EdgesInto(g[u], |comp|)
    ensures var comp' := comp[u := |seeds| - 1];
      EdgesScanned(g, comp', |seeds| - 1, rest + Pushed(g[u], comp'))
  {
    var id, stack := |seeds| - 1, rest + [u];
    assert stack[|rest|] == u;
    var comp' := comp[u := id];
    var pushed := Pushed(g[u], comp');
    forall x: nat, k: nat | x < |g| && k < |g[x]| && comp'[x] >= 0
      ensures EdgeScanned(g, comp', id, rest + pushed, x, k)
    {
      if x == u {
        NeighbourIsCurrent(g, comp, seeds, s, stack, u, k);
        var v := g[u][k].to;
        assert comp'[v] < 0 ==> v in pushed;
      } else {
        assert EdgeScanned(g, comp, id, stack, x, k);
      }
    }
  }

  lemma NeighboursAreReached(g: Graph, s: nat, u: nat)
    requires WellFormed(g) && s < |g| && u < |g| && Reach(g, s, u)
    ensures EdgesInto(g[u], |g|)
    ensures forall k {:trigger g[u][k]} :: 0 <= k < |g[u]| ==> Reach(g, s, g[u][k].to)
  {
    forall k | 0 <= k < |g[u]|
      ensures g[u][k].to < |g| && Reach(g, s, g[u][k].to)
    {
      assert g[u][k] in g[u];
      ReachEdge(g, u, g[u][k]);
      ReachTrans(g, s, u, g[u][k].to);
    }
  }

  lemma FreshStack(g: Graph, comp: seq<int>, seeds: seq<nat>, s: nat, rest: seq<nat>, u: nat)
    requires ScanInv(g, comp, seeds, s, rest + [u]) && WellFormed(g)
    requires u < |g| && comp[u] < 0
    ensures EdgesInto(g[u], |comp|)
    ensures var comp' := comp[u := |seeds| - 1];
      StackOk(g, comp', |seeds| - 1, s, rest + Pushed(g[u], comp'))
  {
    var id, stack := |seeds| - 1, rest + [u];
    assert stack[|rest|] == u;
    var comp' := comp[u := id];
    NeighboursAreReached(g, s, u);
    var stack' := rest + Pushed(g[u], comp');
    forall k | 0 <= k < |stack'|
      ensures stack'[k] < |g| && Reach(g, s, stack'[k]) && (comp'[stack'[k]] == id || comp'[stack'[k]] < 0)
    {
      if k < |rest| {
        assert stack'[k] == stack[k];
      } else {
        assert stack'[k] in Pushed(g[u], comp');
      }
    }
  }

  /** Popping a fresh node: it gets the current label and its unlabelled neighbours wait. */
  lemma PopFresh(g: Graph, comp: seq<int>, seeds: seq<nat>, s: nat, rest: seq<nat>, u: nat)
    requires ScanInv(g, comp, seeds, s, rest + [u]) && Symmetric(g) && WellFormed(g)
    requires u < |g| && comp[u] < 0
    ensures EdgesInto(g[u], |comp|)
    ensures var comp' := comp[u := |seeds| - 1];
      ScanInv(g, comp', seeds, s, rest + Pushed(g[u], comp'))
  {
    FreshStack(g, comp, seeds, s, rest, u);
    FreshEdges(g, comp, seeds, s, rest, u);
    var id, stack := |seeds| - 1, rest + [u];
    assert stack[|rest|] == u;
    var comp' := comp[u := id];
    forall v: nat | v < |g| && comp'[v] >= 0
      ensures LabelOk(g, comp', seeds, v)
    {
      if v != u {
        assert LabelOk(g, comp, seeds, v);
      }
    }
    forall c: nat | c < |seeds| - 1
      ensures SeedOk(g, comp', seeds, c)
    {
      assert SeedOk(g, comp, seeds, c);
    }
  }

  // ----- the whole labelling -----

  /** Between two scans: everything before `s` is labelled, and labelled parts are closed. */
  ghost predicate BetweenScans(g: Graph, comp: seq<int>, seeds: seq<nat>, s: nat) {
    && |comp| == |g| && s <= |g| && |seeds| <= s && Rising(seeds) && (seeds != [] ==> seeds[|seeds| - 1] < s)
    && (forall v :: 0 <= v < |g| ==> -1 <= comp[v] < |seeds|)
    && (forall v :: 0 <= v < s ==> 0 <= comp[v])
    && SeedsOk(g, comp, seeds) && LabelsOk(g, comp, seeds)
    && EdgesScanned(g, comp, -1, [])
  }

  lemma ScanStarts(g: Graph, comp: seq<int>, seeds: seq<nat>, s: nat)
    requires BetweenScans(g, comp, seeds, s) && s < |g| && comp[s] < 0
    ensures ScanInv(g, comp, seeds + [s], s, [s])
  {
    var seeds' := seeds + [s];
    ReachRefl(g, s);
    forall v: nat | v < |g| && comp[v] >= 0
      ensures LabelOk(g, comp, seeds', v)
    {
      assert LabelOk(g, comp, seeds, v);
    }
    forall c: nat | c < |seeds'| - 1
      ensures SeedOk(g, comp, seeds', c)
    {
      assert SeedOk(g, comp, seeds, c);
    }
    forall u: nat, k: nat | u < |g| && k < |g[u]| && comp[u] >= 0
      ensures EdgeScanned(g, comp, |seeds|, [s], u, k)
    {
      assert EdgeScanned(g, comp, -1, [], u, k);
    }
  }

  lemma ScanEnds(g: Graph, comp: seq<int>, seeds: seq<nat>, s: nat)
    requires ScanInv(g, comp, seeds, s, [])
    ensures BetweenScans(g, comp, seeds, s + 1)
  {
    forall c: nat | c < |seeds|
      ensures SeedOk(g, comp, seeds, c)
    {
      if c < |seeds| - 1 {
        assert SeedOk(g, comp, seeds, c);
      }
    }
    forall u: nat, k: nat | u < |g| && k < |g[u]| && comp[u] >= 0
      ensures EdgeScanned(g, comp, -1, [], u, k)
    {
      assert EdgeScanned(g, comp, |seeds| - 1, [], u, k);
    }
  }

  /** How many nodes carry label `c`. */
  function Count(comp: seq<int>, c: int): nat {
    if comp == [] then 0 else (if comp[0] == c then 1 else 0) + Count(comp[1..], c)
  }

  lemma {:induction false} CountUpdate(comp: seq<int>, u: nat, was: int, now: int, c: int)
    requires u < |comp| && comp[u] == was
    ensures Count(comp[u := now], c) == Count(comp, c) - (if was == c then 1 else 0) + (if now == c then 1 else 0)
  {
    if u == 0 {
      assert comp[u := now][1..] == comp[1..];
    } else {
      assert comp[u := now][1..] == comp[1..][u - 1 := now];
      CountUpdate(comp[1..], u - 1, was, now, c);
    }
  }

  lemma {:induction false} CountZero(comp: seq<int>, c: int)
    requires forall v :: 0 <= v < |comp| ==> comp[v] != c
    ensures Count(comp, c) == 0
  {
    if comp != [] {
      CountZero(comp[1..], c);
    }
  }

  lemma CountsAfterLabel(comp: seq<int>, u: nat, id: nat)
    requires u < |comp| && comp[u] == -1
    ensures Count(comp[u := id], id) == Count(comp, id) + 1
    ensures Count(comp[u := id], -1) == Count(comp, -1) - 1
    ensures forall c: nat :: c < id ==> Count(comp[u := id], c) == Count(comp, c)
  {
    CountUpdate(comp, u, -1, id, id);
    CountUpdate(comp, u, -1, id, -1);
    forall c: nat | c < id
      ensures Count(comp[u := id], c) == Count(comp, c)
    {
      CountUpdate(comp, u, -1, id, c);
    }
  }

  /** All that changes when a fresh node is labelled. */
  lemma LabelStep(g: Graph, comp: seq<int>, seeds: seq<nat>, s: nat, rest: seq<nat>, u: nat)
    requires WellFormed(g) && Symmetric(g) && ScanInv(g, comp, seeds, s, rest + [u])
    requires u < |g| && comp[u] < 0
    ensures EdgesInto(g[u], |comp|)
    ensures var id := |seeds| - 1; var comp' := comp[u := id];
      && ScanInv(g, comp', seeds, s, rest + Pushed(g[u], comp'))
      && Count(comp', id) == Count(comp, id) + 1 && Count(comp', -1) == Count(comp, -1) - 1
      && forall c: nat :: c < id ==> Count(comp', c) == Count(comp, c)
  {
    CountsAfterLabel(comp, u, |seeds| - 1);
    PopFresh(g, comp, seeds, s, rest, u);
  }

  /** One pop of the scan. */
  method ScanStep(g: Graph, compOf: array<int>, id: nat, ghost seeds: seq<nat>, s: nat, stack0: seq<nat>, n0: nat)
    returns (stack: seq<nat>, n: nat)
    requires WellFormed(g) && Symmetric(g) && stack0 != []
    requires ScanInv(g, compOf[..], seeds, s, stack0) && id == |seeds| - 1
    requires n0 == Count(compOf[..], id)
    modifies compOf
    ensures ScanInv(g, compOf[..], seeds, s, stack) && n == Count(compOf[..], id)
    ensures forall c: nat :: c < id ==> Count(compOf[..], c) == old(Count(compOf[..], c))
    ensures Count(compOf[..], -1) < old(Count(compOf[..], -1)) ||
      (Count(compOf[..], -1) == old(Count(compOf[..], -1)) && |stack| < |stack0|)
  {
    ghost var comp := compOf[..];
    var u := stack0[|stack0| - 1];
    stack, n := stack0[..|stack0| - 1], n0;
    assert stack0 == stack + [u];
    if compOf[u] >= 0 {
      PopLabelled(g, comp, seeds, s, stack0);
      return;
    }
    stack := LabelFresh(g, compOf, id, seeds, s, stack, u);
    n := n + 1;
  }

  /** Label a fresh node and put its neighbours on the stack. */
  method LabelFresh(g: Graph, compOf: array<int>, id: nat, ghost seeds: seq<nat>, s: nat, rest: seq<nat>, u: nat)
    returns (stack: seq<nat>)
    requires WellFormed(g) && Symmetric(g)
    requires ScanInv(g, compOf[..], seeds, s, rest + [u]) && id == |seeds| - 1
    requires u < |g| && compOf[u] < 0
    modifies compOf
    ensures ScanInv(g, compOf[..], seeds, s, stack)
    ensures Count(compOf[..], id) == old(Count(compOf[..], id)) + 1
    ensures Count(compOf[..], -1) == old(Count(compOf[..], -1)) - 1
    ensures forall c: nat :: c < id ==> Count(compOf[..], c) == old(Count(compOf[..], c))
  {
    ghost var comp := compOf[..];
    LabelStep(g, comp, seeds, s, rest, u);
    compOf[u] := id;
    assert compOf[..] == comp[u := id];
    stack := PushNeighbours(g[u], compOf, rest);
  }

  /** `for (const e of graph[u]) if (compOf[e.to] < 0) stack.push(e.to)`. */
  method PushNeighbours(es: seq<Edge>, compOf: array<int>, stack0: seq<nat>) returns (stack: seq<nat>)
    requires EdgesInto(es, compOf.Length)
    ensures stack == stack0 + Pushed(es, compOf[..])
  {
    stack := stack0;
    ghost var comp := compOf[..];
    var k := 0;
    while k < |es|
      invariant 0 <= k <= |es| && compOf[..] == comp
      invariant stack == stack0 + Pushed(es[..k], comp)
    {
      assert es[..k + 1][..k] == es[..k];
      if compOf[es[k].to] < 0 {
        stack := stack + [es[k].to];
      }
      k := k + 1;
    }
    assert es[..k] == es;
  }

  /** The labelling loop: every node gets the id of its component, and `compSize` counts them. */
  method LabelComponents(g: Graph) returns (compOf: array<int>, compSize: seq<nat>, ghost seeds: seq<nat>)
    requires WellFormed(g) && Symmetric(g)
    ensures fresh(compOf) && Labelled(g, compOf[..], seeds) && |compSize| == |seeds|
    ensures forall c :: 0 <= c < |compSize| ==> compSize[c] == Count(compOf[..], c)
  {
    compOf := new int[|g|](_ => -1);
    compSize, seeds := [], [];
    var s := 0;
    while s < |g|
      invariant 0 <= s <= |g| && fresh(compOf) && compOf.Length == |g|
      invariant BetweenScans(g, compOf[..], seeds, s) && |compSize| == |seeds|
      invariant forall c :: 0 <= c < |compSize| ==> compSize[c] == Count(compOf[..], c)
    {
      if compOf[s] < 0 {
        var n := LabelOne(g, compOf, s, seeds, |compSize|);
        compSize, seeds := compSize + [n], seeds + [s];
      }
      s := s + 1;
    }
  }

  /** The scan from one unlabelled node. */
  method LabelOne(g: Graph, compOf: array<int>, s: nat, ghost seeds: seq<nat>, id: nat) returns (n: nat)
    requires WellFormed(g) && Symmetric(g) && s < |g| && compOf.Length == |g|
    requires BetweenScans(g, compOf[..], seeds, s) && compOf[s] < 0 && id == |seeds|
    modifies compOf
    ensures BetweenScans(g, compOf[..], seeds + [s], s + 1) && n == Count(compOf[..], id)
    ensures forall c: nat :: c < id ==> Count(compOf[..], c) == old(Count(compOf[..], c))
  {
    ghost var seeds' := seeds + [s];
    ScanStarts(g, compOf[..], seeds, s);
    CountZero(compOf[..], id);
    n := 0;
    var stack := [s];
    while |stack| > 0
      invariant compOf.Length == |g| && ScanInv(g, compOf[..], seeds', s, stack) && n == Count(compOf[..], id)
      invariant forall c: nat :: c < id ==> Count(compOf[..], c) == old(Count(compOf[..], c))
      decreases Count(compOf[..], -1), |stack|
    {
      stack, n := ScanStep(g, compOf, id, seeds', s, stack, n);
    }
    ScanEnds(g, compOf[..], seeds', s);
  }

  /** There are no more components than nodes, and each has a member. */
  lemma SeedsBoundNodes(g: Graph, comp: seq<int>, seeds: seq<nat>)
    requires Labelled(g, comp, seeds)
    ensures |seeds| <= |g|
    ensures forall v :: 0 <= v < |comp| ==> 0 <= comp[v] <= v && comp[v] < |seeds|
    ensures forall c :: 0 <= c < |seeds| ==> c in comp
  {
    if |seeds| > 0 {
      assert SeedOk(g, comp, seeds, |seeds| - 1);
    }
    forall v | 0 <= v < |comp|
      ensures 0 <= comp[v] <= v && comp[v] < |seeds|
    {
      LabelAtMostIndex(g, comp, seeds, v);
    }
    forall c | 0 <= c < |seeds|
      ensures c in comp
    {
      assert SeedOk(g, comp, seeds, c);
    }
  }
}
