// From the linked hubs to the list of pieces the merge loop works on.
module LandPieces {
  import opened Graphs
  import opened UnionFinds
  import opened LandGraph

  ghost predicate EdgeInClass(root: seq<nat>, g: Graph, u: nat, k: nat)
    requires u < |g| == |root| && k < |g[u]|
  {
    g[u][k].to < |g| && root[u] == root[g[u][k].to]
  }

  /** The edges scanned before edge `k` of node `i` stay inside their class. */
  ghost predicate CoarseUpTo(root: seq<nat>, g: Graph, i: nat, k: nat)
    requires |root| == |g|
  {
    forall u: nat, j: nat {:trigger EdgeInClass(root, g, u, j)} ::
      u < |g| && j < |g[u]| && (u < i || (u == i && j < k)) ==> EdgeInClass(root, g, u, j)
  }

  lemma JoinKeepsCoarseUpTo(root: seq<nat>, g: Graph, i: nat, k: nat)
    requires |root| == |g| && i < |g| && k < |g[i]| && g[i][k].to < |g| && CoarseUpTo(root, g, i, k)
    ensures CoarseUpTo(Joined(root, i, g[i][k].to), g, i, k + 1)
  {
    var root' := Joined(root, i, g[i][k].to);
    forall u: nat, j: nat | u < |g| && j < |g[u]| && (u < i || (u == i && j < k + 1))
      ensures EdgeInClass(root', g, u, j)
    {
      if u != i || j != k {
        assert EdgeInClass(root, g, u, j);
      }
    }
  }

  /** One union per stored edge: afterwards classes are exactly the connected pieces. */
  method UnionEdges(uf: UnionFind, g: Graph)
    requires uf.Valid() && |uf.parent| == |g| && (forall x :: 0 <= x < |g| ==> uf.root[x] == x)
    requires WellFormed(g) && Symmetric(g)
    modifies uf
    ensures uf.Valid() && |uf.parent| == |g| && Agrees(uf.root, g)
  {
    forall x, y | 0 <= x < |g| && 0 <= y < |g| && uf.root[x] == uf.root[y]
      ensures Reach(g, x, y)
    {
      ReachRefl(g, x);
    }
    var i := 0;
    while i < |g|
      invariant 0 <= i <= |g| && uf.Valid() && |uf.parent| == |uf.root| == |g|
      invariant Connected(uf.root, g) && CoarseUpTo(uf.root, g, i, 0)
    {
      var k := 0;
      while k < |g[i]|
        invariant 0 <= k <= |g[i]| && uf.Valid() && |uf.parent| == |uf.root| == |g|
        invariant Connected(uf.root, g) && CoarseUpTo(uf.root, g, i, k)
      {
        var e := g[i][k];
        assert e in g[i];
        ReachEdge(g, i, e);
        JoinKeepsConnected(uf.root, g, i, e.to);
        JoinKeepsCoarseUpTo(uf.root, g, i, k);
        uf.Union(i, e.to);
        k := k + 1;
      }
      forall u: nat, j: nat | u < |g| && j < |g[u]| && u < i + 1
        ensures EdgeInClass(uf.root, g, u, j)
      {
        assert u < i || (u == i && j < k);
        assert EdgeInClass(uf.root, g, u, j);
      }
      i := i + 1;
    }
    forall u, e | 0 <= u < |g| && e in g[u]
      ensures e.to < |g| && uf.root[u] == uf.root[e.to]
    {
      var j :| 0 <= j < |g[u]| && g[u][j] == e;
      assert EdgeInClass(uf.root, g, u, j);
    }
  }

  ghost predicate ClassesDiffer(root: seq<nat>, p: seq<nat>, q: seq<nat>) {
    p != [] && q != [] && p[0] < |root| && q[0] < |root| && root[p[0]] != root[q[0]]
  }

  /** Pieces listed with different classes at different positions. */
  ghost predicate DistinctClasses(root: seq<nat>, groups: seq<seq<nat>>) {
    && (forall i: nat {:trigger WholeClass(root, groups[i])} :: i < |groups| ==> WholeClass(root, groups[i]))
    && (forall i: nat, j: nat {:trigger ClassesDiffer(root, groups[i], groups[j])} ::
         i < j < |groups| ==> ClassesDiffer(root, groups[i], groups[j]))
  }

  ghost predicate Covered(groups: seq<seq<nat>>, x: nat) {
    exists p :: p in groups && x in p
  }

  ghost predicate Ascending(piece: seq<nat>) {
    forall j, k :: 0 <= j < k < |piece| ==> piece[j] < piece[k]
  }

  /** Hubs in order within every piece, and pieces in the order of their first hubs. */
  ghost predicate InFirstSight(groups: seq<seq<nat>>) {
    && (forall g {:trigger groups[g]} :: 0 <= g < |groups| ==> groups[g] != [] && Ascending(groups[g]))
    && forall g, h :: 0 <= g < h < |groups| ==> groups[g] != [] && groups[h] != [] && groups[g][0] < groups[h][0]
  }

  /** `comp`: the members of every class met so far, and the order of first sight. */
  ghost predicate Collected(root: seq<nat>, comp: map<nat, seq<nat>>, order: seq<nat>, i: nat)
    requires i <= |root|
  {
    && (forall r :: r in order <==> r in comp)
    && (forall j, k :: 0 <= j < k < |order| ==> order[j] != order[k])
    && (forall r :: r in comp ==> comp[r] != [])
    && (forall r: nat, x: nat {:trigger x in comp[r]} :: r in comp ==> (x in comp[r] <==> x < i && root[x] == r))
    && (forall x :: 0 <= x < i ==> root[x] in comp)
  }

  ghost predicate GroupKept(comp: map<nat, seq<nat>>, r: nat, i: nat) {
    r in comp ==> comp[r] != [] && Ascending(comp[r]) && comp[r][|comp[r]| - 1] < i
  }

  ghost predicate FirstBefore(comp: map<nat, seq<nat>>, r: nat, q: nat) {
    r in comp && q in comp && comp[r] != [] && comp[q] != [] && comp[r][0] < comp[q][0]
  }

  /** The order in which members and classes were met. */
  ghost predicate SightKept(comp: map<nat, seq<nat>>, order: seq<nat>, i: nat) {
    && (forall r: nat {:trigger GroupKept(comp, r, i)} :: GroupKept(comp, r, i))
    && forall j, k {:trigger FirstBefore(comp, order[j], order[k])} :: 0 <= j < k < |order| ==> FirstBefore(comp, order[j], order[k])
  }

  lemma AscendingSnoc(piece: seq<nat>, i: nat)
    requires piece != [] && Ascending(piece) && piece[|piece| - 1] < i
    ensures Ascending(piece + [i]) && piece[0] < i
  {
    assert piece[0] <= piece[|piece| - 1];
  }

  lemma SightNew(comp: map<nat, seq<nat>>, order: seq<nat>, i: nat, r: nat)
    requires SightKept(comp, order, i) && (forall x :: x in order <==> x in comp) && r !in comp
    ensures SightKept(comp[r := [i]], order + [r], i + 1)
  {
    var comp', order' := comp[r := [i]], order + [r];
    forall x: nat {:trigger GroupKept(comp', x, i + 1)}
      ensures GroupKept(comp', x, i + 1)
    {
      assert GroupKept(comp, x, i);
    }
    forall j, k | 0 <= j < k < |order'|
      ensures FirstBefore(comp', order'[j], order'[k])
    {
      assert order[j] in order && GroupKept(comp, order[j], i);
      if k < |order| {
        assert order[k] in order && FirstBefore(comp, order[j], order[k]);
      } else {
        AscendingSnoc(comp[order[j]], i);
      }
    }
  }

  lemma SightOld(comp: map<nat, seq<nat>>, order: seq<nat>, i: nat, r: nat)
    requires SightKept(comp, order, i) && r in comp
    ensures SightKept(comp[r := comp[r] + [i]], order, i + 1)
  {
    var comp' := comp[r := comp[r] + [i]];
    assert GroupKept(comp, r, i);
    AscendingSnoc(comp[r], i);
    forall x: nat {:trigger GroupKept(comp', x, i + 1)}
      ensures GroupKept(comp', x, i + 1)
    {
      assert GroupKept(comp, x, i);
    }
    forall j, k | 0 <= j < k < |order|
      ensures FirstBefore(comp', order[j], order[k])
    {
      assert FirstBefore(comp, order[j], order[k]);
    }
  }

  lemma SightIsFirst(comp: map<nat, seq<nat>>, order: seq<nat>, groups: seq<seq<nat>>, n: nat)
    requires SightKept(comp, order, n)
    requires |groups| == |order| && forall k :: 0 <= k < |order| ==> order[k] in comp && groups[k] == comp[order[k]]
    ensures InFirstSight(groups)
  {
    forall g | 0 <= g < |groups|
      ensures groups[g] != [] && Ascending(groups[g])
    {
      assert GroupKept(comp, order[g], n);
    }
    forall g, h | 0 <= g < h < |groups|
      ensures groups[g] != [] && groups[h] != [] && groups[g][0] < groups[h][0]
    {
      assert FirstBefore(comp, order[g], order[h]);
    }
  }

  /** Group every hub under its representative, in order of first sight. */
  method CollectPieces(uf: UnionFind) returns (groups: seq<seq<nat>>)
    requires uf.Valid()
    modifies uf`parent
    ensures uf.Valid() && |uf.parent| == old(|uf.parent|)
    ensures DistinctClasses(uf.root, groups) && InFirstSight(groups)
    ensures forall x :: 0 <= x < |uf.root| ==> Covered(groups, x)
  {
    var comp: map<nat, seq<nat>> := map[];
    var order: seq<nat> := [];
    var i := 0;
    while i < |uf.parent|
      invariant 0 <= i <= |uf.parent| == old(|uf.parent|) && uf.Valid()
      invariant |uf.root| == |uf.parent| && Collected(uf.root, comp, order, i) && SightKept(comp, order, i)
    {
      var r := uf.Find(i);
      if r !in comp {
        SightNew(comp, order, i, r);
        comp := comp[r := [i]];
        order := order + [r];
      } else {
        SightOld(comp, order, i, r);
        comp := comp[r := comp[r] + [i]];
      }
      i := i + 1;
    }
    groups := seq(|order|, k requires 0 <= k < |order| && order[k] in comp => comp[order[k]]);
    PiecesAreClasses(uf.root, comp, order, groups);
    SightIsFirst(comp, order, groups, i);
  }

  lemma PiecesAreClasses(root: seq<nat>, comp: map<nat, seq<nat>>, order: seq<nat>, groups: seq<seq<nat>>)
    requires Collected(root, comp, order, |root|)
    requires |groups| == |order| && forall k :: 0 <= k < |order| ==> order[k] in comp && groups[k] == comp[order[k]]
    ensures DistinctClasses(root, groups)
    ensures forall x :: 0 <= x < |root| ==> Covered(groups, x)
  {
    forall i: nat | i < |groups|
      ensures WholeClass(root, groups[i])
    {
      var p := comp[order[i]];
      forall x, y: nat | x in p && y < |root| && root[y] == root[x]
        ensures y in p
      {
        assert root[x] == order[i];
      }
    }
    forall i: nat, j: nat | i < j < |groups|
      ensures ClassesDiffer(root, groups[i], groups[j])
    {
      assert WholeClass(root, groups[i]) && WholeClass(root, groups[j]);
      assert groups[i][0] in comp[order[i]] && groups[j][0] in comp[order[j]];
    }
    forall x | 0 <= x < |root|
      ensures Covered(groups, x)
    {
      var k :| 0 <= k < |order| && order[k] == root[x];
      assert x in groups[k];
    }
  }

  ghost predicate LargestFirst(groups: seq<seq<nat>>) {
    forall i, j :: 0 <= i < j < |groups| ==> |groups[i]| >= |groups[j]|
  }

  function Inserted(sorted: seq<seq<nat>>, k: nat, p: seq<nat>): seq<seq<nat>>
    requires k <= |sorted|
  {
    sorted[..k] + [p] + sorted[k..]
  }

  lemma InsertPiece(root: seq<nat>, sorted: seq<seq<nat>>, k: nat, p: seq<nat>)
    requires DistinctClasses(root, sorted) && LargestFirst(sorted) && k <= |sorted| && WholeClass(root, p)
    requires forall j :: 0 <= j < |sorted| ==> ClassesDiffer(root, sorted[j], p)
    requires forall j :: 0 <= j < k ==> |sorted[j]| >= |p|
    requires forall j :: k <= j < |sorted| ==> |sorted[j]| <= |p|
    ensures DistinctClasses(root, Inserted(sorted, k, p)) && LargestFirst(Inserted(sorted, k, p))
  {
    var s := Inserted(sorted, k, p);
    forall i: nat | i < |s|
      ensures WholeClass(root, s[i])
    {
      if i < k { assert WholeClass(root, sorted[i]); } else if i > k { assert WholeClass(root, sorted[i - 1]); }
    }
    forall i: nat, j: nat | i < j < |s|
      ensures ClassesDiffer(root, s[i], s[j])
    {
      var (i0, j0) := (if i < k then i else i - 1, if j < k then j else j - 1);
      if i != k && j != k {
        assert ClassesDiffer(root, sorted[i0], sorted[j0]);
      } else {
        assert i == k ==> ClassesDiffer(root, sorted[j0], p);
        assert j == k ==> ClassesDiffer(root, sorted[i0], p);
      }
    }
  }

  /** The pieces with `n` hubs, in order. */
  ghost function OfSize(groups: seq<seq<nat>>, n: nat): seq<seq<nat>> {
    if groups == [] then [] else
      OfSize(groups[..|groups| - 1], n) + if |groups[|groups| - 1]| == n then [groups[|groups| - 1]] else []
  }

  lemma {:induction false} OfSizeConcat(a: seq<seq<nat>>, b: seq<seq<nat>>, n: nat)
    ensures OfSize(a + b, n) == OfSize(a, n) + OfSize(b, n)
  {
    if b == [] {
      assert a + b == a;
    } else {
      assert (a + b)[..|a + b| - 1] == a + b[..|b| - 1];
      OfSizeConcat(a, b[..|b| - 1], n);
    }
  }

  lemma {:induction false} NoneOfSize(groups: seq<seq<nat>>, n: nat)
    requires forall j :: 0 <= j < |groups| ==> |groups[j]| != n
    ensures OfSize(groups, n) == []
  {
    if groups != [] {
      NoneOfSize(groups[..|groups| - 1], n);
    }
  }

  /** A piece put in front of smaller ones only comes last among its equals. */
  lemma InsertIsStable(sorted: seq<seq<nat>>, k: nat, p: seq<nat>, n: nat)
    requires k <= |sorted| && forall j :: k <= j < |sorted| ==> |sorted[j]| < |p|
    ensures OfSize(sorted[..k] + [p] + sorted[k..], n) == OfSize(sorted + [p], n)
  {
    OfSizeConcat(sorted[..k] + [p], sorted[k..], n);
    OfSizeConcat(sorted[..k], [p], n);
    OfSizeConcat(sorted, [p], n);
    assert sorted == sorted[..k] + sorted[k..];
    OfSizeConcat(sorted[..k], sorted[k..], n);
    if n == |p| {
      NoneOfSize(sorted[k..], n);
    } else {
      NoneOfSize([p], n);
    }
  }

  /** Equally large pieces come in the same order. */
  ghost predicate SameOrder(a: seq<seq<nat>>, b: seq<seq<nat>>) {
    forall n: nat {:trigger OfSize(a, n)} {:trigger OfSize(b, n)} :: OfSize(a, n) == OfSize(b, n)
  }

  lemma InsertAddsOne(sorted: seq<seq<nat>>, k: nat, p: seq<nat>)
    requires k <= |sorted|
    ensures multiset(Inserted(sorted, k, p)) == multiset(sorted) + multiset{p}
  {
    assert sorted == sorted[..k] + sorted[k..];
  }

  lemma InsertKeepsOrder(sorted: seq<seq<nat>>, k: nat, p: seq<nat>)
    requires k <= |sorted| && forall j :: k <= j < |sorted| ==> |sorted[j]| < |p|
    ensures SameOrder(Inserted(sorted, k, p), sorted + [p])
  {
    var r := Inserted(sorted, k, p);
    forall n: nat
      ensures OfSize(r, n) == OfSize(sorted + [p], n)
    {
      InsertIsStable(sorted, k, p, n);
    }
  }

  /** Put `p` behind every piece that is at least as large. */
  method InsertBySize(ghost root: seq<nat>, sorted: seq<seq<nat>>, p: seq<nat>) returns (r: seq<seq<nat>>)
    requires DistinctClasses(root, sorted) && LargestFirst(sorted) && WholeClass(root, p)
    requires forall j :: 0 <= j < |sorted| ==> ClassesDiffer(root, sorted[j], p)
    ensures DistinctClasses(root, r) && LargestFirst(r)
    ensures multiset(r) == multiset(sorted) + multiset{p}
    ensures SameOrder(r, sorted + [p])
  {
    var k := |sorted|;
    while k > 0 && |sorted[k - 1]| < |p|
      invariant 0 <= k <= |sorted|
      invariant forall j :: k <= j < |sorted| ==> |sorted[j]| < |p|
    {
      k := k - 1;
    }
    r := Inserted(sorted, k, p);
    InsertPiece(root, sorted, k, p);
    InsertAddsOne(sorted, k, p);
    InsertKeepsOrder(sorted, k, p);
  }

  lemma SameOrderSnoc(a: seq<seq<nat>>, b: seq<seq<nat>>, p: seq<nat>, r: seq<seq<nat>>)
    requires SameOrder(a, b) && SameOrder(r, a + [p])
    ensures SameOrder(r, b + [p])
  {
    forall n: nat
      ensures OfSize(r, n) == OfSize(b + [p], n)
    {
      assert OfSize(a, n) == OfSize(b, n);
      OfSizeConcat(a, [p], n);
      OfSizeConcat(b, [p], n);
    }
  }

  lemma NewPieceDiffers(root: seq<nat>, groups: seq<seq<nat>>, i: nat, sorted: seq<seq<nat>>)
    requires DistinctClasses(root, groups) && i < |groups| && multiset(sorted) == multiset(groups[..i])
    ensures forall j :: 0 <= j < |sorted| ==> ClassesDiffer(root, sorted[j], groups[i])
    ensures WholeClass(root, groups[i])
    ensures groups[..i + 1] == groups[..i] + [groups[i]]
  {
    forall j | 0 <= j < |sorted|
      ensures ClassesDiffer(root, sorted[j], groups[i])
    {
      assert sorted[j] in multiset(sorted);
      assert sorted[j] in groups[..i];
      var m :| 0 <= m < i && groups[m] == sorted[j];
      assert ClassesDiffer(root, groups[m], groups[i]);
    }
    assert WholeClass(root, groups[i]);
  }

  /** `sort((a, b) => b.length - a.length)`: equal pieces keep their order. */
  method SortBySize(ghost root: seq<nat>, groups: seq<seq<nat>>) returns (sorted: seq<seq<nat>>)
    requires DistinctClasses(root, groups)
    ensures DistinctClasses(root, sorted) && LargestFirst(sorted)
    ensures multiset(sorted) == multiset(groups) && SameOrder(sorted, groups)
  {
    sorted := [];
    var i := 0;
    while i < |groups|
      invariant 0 <= i <= |groups|
      invariant DistinctClasses(root, sorted) && LargestFirst(sorted)
      invariant multiset(sorted) == multiset(groups[..i]) && SameOrder(sorted, groups[..i])
    {
      NewPieceDiffers(root, groups, i, sorted);
      ghost var before := sorted;
      sorted := InsertBySize(root, sorted, groups[i]);
      SameOrderSnoc(before, groups[..i], groups[i], sorted);
      i := i + 1;
    }
    assert groups[..i] == groups;
  }

  /** The pieces in the order of the merge loop: largest first, equally large ones by their
      first hub, and the hubs of a piece in order. */
  ghost predicate InLoopOrder(groups: seq<seq<nat>>) {
    && (forall g {:trigger groups[g]} :: 0 <= g < |groups| ==> groups[g] != [] && Ascending(groups[g]))
    && forall g: nat, h: nat {:trigger Outranks(groups, g, h)} :: g < h < |groups| ==> Outranks(groups, g, h)
  }

  ghost predicate Outranks(groups: seq<seq<nat>>, g: nat, h: nat)
    requires g < |groups| && h < |groups|
  {
    |groups[g]| > |groups[h]| || (|groups[g]| == |groups[h]| > 0 && groups[g][0] < groups[h][0])
  }

  lemma {:induction false} FirstSightOfSize(groups: seq<seq<nat>>, n: nat)
    requires InFirstSight(groups)
    ensures InFirstSight(OfSize(groups, n)) && forall p :: p in OfSize(groups, n) <==> p in groups && |p| == n
  {
    if groups != [] {
      var init, last := groups[..|groups| - 1], groups[|groups| - 1];
      FirstSightOfSize(init, n);
      assert groups == init + [last];
      forall g | 0 <= g < |OfSize(init, n)|
        ensures OfSize(init, n)[g] != [] && OfSize(init, n)[g][0] < last[0]
      {
        assert OfSize(init, n)[g] in init;
      }
    }
  }

  /** The stable sort leaves equally large pieces in the order of first sight. */
  lemma SortedInLoopOrder(groups: seq<seq<nat>>, sorted: seq<seq<nat>>)
    requires InFirstSight(groups) && LargestFirst(sorted) && SameOrder(sorted, groups) && multiset(sorted) == multiset(groups)
    ensures InLoopOrder(sorted)
  {
    forall g | 0 <= g < |sorted|
      ensures sorted[g] != [] && Ascending(sorted[g])
    {
      assert sorted[g] in multiset(sorted);
      assert sorted[g] in groups;
    }
    forall g: nat, h: nat | g < h < |sorted|
      ensures Outranks(sorted, g, h)
    {
      if |sorted[g]| == |sorted[h]| {
        TwoOfSize(sorted, g, h);
        var j, k :| 0 <= j < k < |OfSize(sorted, |sorted[g]|)| && OfSize(sorted, |sorted[g]|)[j] == sorted[g] && OfSize(sorted, |sorted[g]|)[k] == sorted[h];
        FirstSightOfSize(groups, |sorted[g]|);
        assert OfSize(sorted, |sorted[g]|) == OfSize(groups, |sorted[g]|);
      }
    }
  }

  lemma TwoOfSize(groups: seq<seq<nat>>, g: nat, h: nat)
    requires g < h < |groups| && |groups[g]| == |groups[h]|
    ensures var s := OfSize(groups, |groups[g]|);
      exists j, k :: 0 <= j < k < |s| && s[j] == groups[g] && s[k] == groups[h]
  {
    var n := |groups[g]|;
    assert groups == groups[..h] + groups[h..];
    OfSizeConcat(groups[..h], groups[h..], n);
    OfSizeHas(groups[..h], g);
    OfSizeHas(groups[h..], 0);
    var a, b := OfSize(groups[..h], n), OfSize(groups[h..], n);
    var j :| 0 <= j < |a| && a[j] == groups[g];
    var k :| 0 <= k < |b| && b[k] == groups[h];
    assert (a + b)[j] == groups[g] && (a + b)[|a| + k] == groups[h];
  }

  lemma {:induction false} OfSizeHas(groups: seq<seq<nat>>, g: nat)
    requires g < |groups|
    ensures groups[g] in OfSize(groups, |groups[g]|)
  {
    if g < |groups| - 1 {
      OfSizeHas(groups[..|groups| - 1], g);
    }
  }

  /** The pieces the merge loop starts with: the components of `g`, in the order of the loop. */
  ghost predicate StartsWith(g: Graph, start: seq<seq<nat>>) {
    exists root :: Agrees(root, g) && PiecesOf(root, start)
  }

  ghost predicate PiecesOf(root: seq<nat>, start: seq<seq<nat>>) {
    DistinctClasses(root, start) && (forall x :: 0 <= x < |root| ==> Covered(start, x)) && InLoopOrder(start)
  }

  lemma {:induction false} AscendingIsUnique(p: seq<nat>, q: seq<nat>)
    requires Ascending(p) && Ascending(q) && forall x: nat :: x in p <==> x in q
    ensures p == q
  {
    assert p != [] ==> p[|p| - 1] in p;
    assert q != [] ==> q[|q| - 1] in q;
    if p != [] && q != [] {
      var p', q' := p[..|p| - 1], q[..|q| - 1];
      assert p == p' + [p[|p| - 1]] && q == q' + [q[|q| - 1]];
      assert p[|p| - 1] == q[|q| - 1];
      forall x: nat
        ensures x in p' <==> x in q'
      {
        assert x in p' <==> x in p && x < p[|p| - 1];
        assert x in q' <==> x in q && x < q[|q| - 1];
      }
      AscendingIsUnique(p', q');
    }
  }

  /** The last piece is outranked by all others, so removing it removes nothing else. */
  lemma LoopOrderSnoc(s: seq<seq<nat>>)
    requires InLoopOrder(s) && s != []
    ensures InLoopOrder(s[..|s| - 1])
    ensures forall p: seq<nat> {:trigger p in s[..|s| - 1]} :: p in s[..|s| - 1] <==> p in s && p != s[|s| - 1]
    ensures forall p :: p in s && p != s[|s| - 1] ==>
      p != [] && s[|s| - 1] != [] && (|p| > |s[|s| - 1]| || (|p| == |s[|s| - 1]| && p[0] < s[|s| - 1][0]))
  {
    var init, last := s[..|s| - 1], s[|s| - 1];
    assert s == init + [last];
    forall g: nat, h: nat | g < h < |init|
      ensures Outranks(init, g, h)
    {
      assert Outranks(s, g, h);
    }
    forall p | p in init
      ensures p != [] && last != [] && (|p| > |last| || (|p| == |last| && p[0] < last[0]))
    {
      var g: nat :| g < |init| && init[g] == p;
      assert Outranks(s, g, |s| - 1) && s[g] != [] && s[|s| - 1] != [];
    }
  }

  lemma {:induction false} LoopOrderIsUnique(s: seq<seq<nat>>, t: seq<seq<nat>>)
    requires InLoopOrder(s) && InLoopOrder(t) && forall p: seq<nat> :: p in s <==> p in t
    ensures s == t
  {
    assert s != [] ==> s[|s| - 1] in s;
    assert t != [] ==> t[|t| - 1] in t;
    if s != [] && t != [] {
      LoopOrderSnoc(s);
      LoopOrderSnoc(t);
      assert s[|s| - 1] == t[|t| - 1];
      LoopOrderIsUnique(s[..|s| - 1], t[..|t| - 1]);
      assert s == s[..|s| - 1] + [s[|s| - 1]] && t == t[..|t| - 1] + [t[|t| - 1]];
    }
  }

  lemma PieceIsShared(g: Graph, root: seq<nat>, s: seq<seq<nat>>, root': seq<nat>, t: seq<seq<nat>>, p: seq<nat>)
    requires Agrees(root, g) && PiecesOf(root, s) && Agrees(root', g) && PiecesOf(root', t) && p in s
    ensures p in t
  {
    var i: nat :| i < |s| && s[i] == p;
    assert WholeClass(root, s[i]) && Ascending(s[i]);
    var x := p[0];
    assert x in p && Covered(t, x);
    var q :| q in t && x in q;
    var j: nat :| j < |t| && t[j] == q;
    assert WholeClass(root', t[j]) && Ascending(t[j]);
    forall y: nat
      ensures y in p <==> y in q
    {
      if y < |g| {
        ClassIsReach(root, g, x, y);
        ClassIsReach(root', g, x, y);
      }
    }
    AscendingIsUnique(p, q);
  }

  /** The graph determines the pieces the merge loop starts with, and their order. */
  lemma StartIsDetermined(g: Graph, s: seq<seq<nat>>, t: seq<seq<nat>>)
    requires StartsWith(g, s) && StartsWith(g, t)
    ensures s == t
  {
    var root :| Agrees(root, g) && PiecesOf(root, s);
    var root' :| Agrees(root', g) && PiecesOf(root', t);
    forall p: seq<nat>
      ensures p in s <==> p in t
    {
      if p in s {
        PieceIsShared(g, root, s, root', t, p);
      }
      if p in t {
        PieceIsShared(g, root', t, root, s, p);
      }
    }
    LoopOrderIsUnique(s, t);
  }

  lemma SortedStillCovers(root: seq<nat>, groups: seq<seq<nat>>, sorted: seq<seq<nat>>)
    requires multiset(sorted) == multiset(groups)
    requires forall x :: 0 <= x < |root| ==> Covered(groups, x)
    ensures forall x :: 0 <= x < |root| ==> Covered(sorted, x)
  {
    forall x | 0 <= x < |root|
      ensures Covered(sorted, x)
    {
      assert Covered(groups, x);
      var p :| p in groups && x in p;
      assert p in multiset(groups);
      assert p in sorted;
    }
  }

  /** Before any merge the sorted pieces are the partition the merge loop starts from. */
  lemma PiecesPartition(root: seq<nat>, groups: seq<seq<nat>>, merged: seq<bool>)
    requires DistinctClasses(root, groups) && |merged| == |groups|
    requires forall x :: 0 <= x < |root| ==> Covered(groups, x)
    requires forall gi :: 0 <= gi < |merged| ==> !merged[gi]
    ensures Partition(root, groups, merged)
  {
    forall x: nat | x < |root|
      ensures HasLiveGroup(groups, merged, x)
    {
      assert Covered(groups, x);
      var p :| p in groups && x in p;
      var gi :| 0 <= gi < |groups| && groups[gi] == p;
      assert Live(merged, gi);
    }
    forall gi: nat | gi < |groups|
      ensures LiveGroupOk(root, groups, merged, gi)
    {
      assert WholeClass(root, groups[gi]);
    }
    forall gi: nat, gj: nat | gi < gj < |groups|
      ensures LiveGroupsApart(groups, merged, gi, gj)
    {
      assert WholeClass(root, groups[gi]) && WholeClass(root, groups[gj]);
      assert ClassesDiffer(root, groups[gi], groups[gj]);
      forall x | x in groups[gi]
        ensures x !in groups[gj]
      {
        assert root[x] == root[groups[gi][0]];
        if x in groups[gj] {
          assert false;
        }
      }
    }
  }
}
