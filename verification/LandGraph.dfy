// The terrestrial backbone: which hubs are linked, how pieces are merged, and
// overland routing.
module LandGraph {
  import opened Options
  import opened Geometry
  import opened Graphs
  import opened UnionFinds

  const LAND_K: nat := 6
  const BRIDGE_CONTIGUITY_KM: real := 60.0
  const OVERLAND_SHARE: real := 0.85

  /** Everything the builder reads. `near[i]` is the candidate list of hub `i`; the
      distance, the land share and the barrier test stay abstract. */
  datatype World = World(
    hubs: seq<LngLat>,
    landings: seq<LngLat>,
    near: seq<seq<nat>>,
    corridorStart: int,
    corridorHubs: nat,
    corridorEdges: seq<Link>,
    trunkEdges: seq<Link>,
    km: Distance,
    landFraction: (LngLat, LngLat) -> real,
    blocked: (LngLat, LngLat) -> bool,
    continent: LngLat -> Option<string>)
  {
    ghost predicate Valid() {
      && |near| == |hubs|
      && (forall i, k :: 0 <= i < |near| && 0 <= k < |near[i]| ==> near[i][k] < |hubs| && near[i][k] != i)
    }

    predicate InCorridor(i: nat) {
      corridorStart >= 0 && corridorStart <= i < corridorStart + corridorHubs
    }

    /** The vetoes a nearest-neighbour edge has to pass. */
    predicate MayJoin(i: nat, j: nat)
      requires i < |hubs| && j < |hubs|
    {
      && (continent(hubs[i]).Some? && continent(hubs[j]).Some? ==> continent(hubs[i]) == continent(hubs[j]))
      && !(InCorridor(i) && InCorridor(j))
      && landFraction(hubs[i], hubs[j]) >= OVERLAND_SHARE
      && !blocked(hubs[i], hubs[j])
    }

    /** Some member has a cable landing within the contiguity distance. */
    predicate CableServed(members: seq<nat>)
      requires forall m :: m in members ==> m < |hubs|
    {
      exists m :: m in members && exists l :: l in landings && km(hubs[m], l) <= BRIDGE_CONTIGUITY_KM
    }
  }

  // ----- the graph as a history of two-way links -----

  /** An undirected connection, owned by the hub that asked for it. */
  datatype Link = Link(a: nat, b: nat)

  ghost predicate LinksInRange(w: World, log: seq<Link>) {
    forall p :: p in log ==> p.a < |w.hubs| && p.b < |w.hubs|
  }

  function Hop(w: World, a: nat, b: nat): Edge
    requires a < |w.hubs| && b < |w.hubs|
  {
    Edge(b, w.km(w.hubs[a], w.hubs[b]), -1, false)
  }

  /** The adjacency lists after exactly the links of `log`, in that order. */
  ghost function Built(w: World, log: seq<Link>): (g: Graph)
    requires LinksInRange(w, log)
    ensures |g| == |w.hubs|
  {
    if log == [] then seq(|w.hubs|, _ => [])
    else
      var Link(a, b) := log[|log| - 1];
      AddBoth(Built(w, log[..|log| - 1]), a, Hop(w, a, b), b, Edge(a, w.km(w.hubs[a], w.hubs[b]), -1, false))
  }

  lemma BuiltSnoc(w: World, log: seq<Link>, a: nat, b: nat)
    requires LinksInRange(w, log) && a < |w.hubs| && b < |w.hubs|
    ensures LinksInRange(w, log + [Link(a, b)])
    ensures Built(w, log + [Link(a, b)]) ==
            AddBoth(Built(w, log), a, Hop(w, a, b), b, Edge(a, w.km(w.hubs[a], w.hubs[b]), -1, false))
  {
    assert (log + [Link(a, b)])[..|log|] == log;
  }

  /** Edges of the backbone are exactly the links, in both directions, priced by distance. */
  lemma {:induction false} BuiltEdges(w: World, log: seq<Link>)
    requires LinksInRange(w, log) && IsMetric(w.km)
    ensures forall u, e :: 0 <= u < |w.hubs| ==> (e in Built(w, log)[u] <==>
      e.to < |w.hubs| && e == Hop(w, u, e.to) && (Link(u, e.to) in log || Link(e.to, u) in log))
  {
    if log != [] {
      var init := log[..|log| - 1];
      var Link(a, b) := log[|log| - 1];
      BuiltEdges(w, init);
      assert log == init + [Link(a, b)];
      AddBothEdges(Built(w, init), a, Hop(w, a, b), b, Edge(a, w.km(w.hubs[a], w.hubs[b]), -1, false));
      assert w.km(w.hubs[a], w.hubs[b]) == w.km(w.hubs[b], w.hubs[a]);
    }
  }

  lemma BuiltIsGood(w: World, log: seq<Link>)
    requires LinksInRange(w, log) && IsMetric(w.km)
    ensures WellFormed(Built(w, log)) && Symmetric(Built(w, log))
  {
    var g := Built(w, log);
    BuiltEdges(w, log);
    forall u: nat, e: Edge | u < |g| && e in g[u]
      ensures e.to < |g| && e.w >= 0.0 && HasTwin(g, u, e)
    {
      var f := Hop(w, e.to, u);
      assert f in g[e.to];
      assert w.km(w.hubs[u], w.hubs[e.to]) == w.km(w.hubs[e.to], w.hubs[u]);
      assert Twin(u, e, f);
    }
  }

  // ----- nearest-neighbour links -----

  /** The unordered pair is already linked. */
  ghost predicate Linked(log: seq<Link>, i: nat, j: nat) {
    Link(i, j) in log || Link(j, i) in log
  }

  ghost function Owned(log: seq<Link>, i: nat): nat {
    if log == [] then 0 else Owned(log[..|log| - 1], i) + if log[|log| - 1].a == i then 1 else 0
  }

  /** Link `x` of the log goes from its owner to a candidate that passed every veto. */
  ghost predicate VettedLink(w: World, log: seq<Link>, x: nat)
    requires w.Valid() && LinksInRange(w, log) && x < |log|
  {
    log[x].b in w.near[log[x].a] && w.MayJoin(log[x].a, log[x].b)
  }

  ghost predicate DifferentPairs(log: seq<Link>, x: nat, y: nat)
    requires x < |log| && y < |log|
  {
    log[x] != log[y] && log[x] != Link(log[y].b, log[y].a)
  }

  /** Every link is a vetted candidate of its owner, no pair is linked twice, and no
      hub owns more than six. */
  ghost predicate NeighbourLinks(w: World, log: seq<Link>) {
    && w.Valid()
    && LinksInRange(w, log)
    && (forall x: nat {:trigger VettedLink(w, log, x)} :: x < |log| ==> VettedLink(w, log, x))
    && (forall x: nat, y: nat {:trigger DifferentPairs(log, x, y)} :: x < y < |log| ==> DifferentPairs(log, x, y))
    && (forall i :: Owned(log, i) <= LAND_K)
  }

  /** All links owned by hub `i` go to its first `k` candidates. */
  ghost predicate OwnedWithin(w: World, log: seq<Link>, i: nat, k: nat)
    requires w.Valid() && i < |w.hubs|
  {
    forall p {:trigger p in log} :: p in log && p.a == i ==> p.b in Earlier(w, i, k)
  }

  function Earlier(w: World, i: nat, k: nat): seq<nat>
    requires w.Valid() && i < |w.hubs|
  {
    if k <= |w.near[i]| then w.near[i][..k] else w.near[i]
  }

  /** When hub `i` has its turn, `j` is linked with it: by itself, or by `j` before. */
  ghost predicate LinkedInTurn(log: seq<Link>, i: nat, j: nat) {
    Link(i, j) in log || (j < i && Link(j, i) in log)
  }

  /** A vetted candidate is left out only when its hub owns six links to earlier candidates. */
  ghost predicate Served(w: World, log: seq<Link>, i: nat, k: nat)
    requires w.Valid() && i < |w.hubs| && k < |w.near[i]|
  {
    w.MayJoin(i, w.near[i][k]) ==>
      LinkedInTurn(log, i, w.near[i][k]) || (Owned(log, i) == LAND_K && OwnedWithin(w, log, i, k))
  }

  ghost predicate AllServed(w: World, log: seq<Link>, upto: nat) {
    && w.Valid() && upto <= |w.hubs|
    && forall i: nat, k: nat {:trigger Served(w, log, i, k)} :: i < upto && k < |w.near[i]| ==> Served(w, log, i, k)
  }

  /** Candidate `b` of hub `i` stands before candidate `c`. */
  ghost predicate CandidateBefore(w: World, i: nat, b: nat, c: nat)
    requires i < |w.near|
  {
    exists p, q :: 0 <= p < q < |w.near[i]| && w.near[i][p] == b && w.near[i][q] == c
  }

  /** The order of the neighbour stage: hub by hub, and for each hub in the order of its candidates. */
  ghost predicate TurnBefore(w: World, p: Link, q: Link) {
    p.a < q.a || (p.a == q.a < |w.near| && CandidateBefore(w, p.a, p.b, q.b))
  }

  ghost predicate LinkedInOrder(w: World, log: seq<Link>) {
    forall x: nat, y: nat {:trigger TurnBefore(w, log[x], log[y])} :: x < y < |log| ==> TurnBefore(w, log[x], log[y])
  }

  function PairKey(n: nat, i: nat, j: nat): nat {
    if i < j then i * n + j else j * n + i
  }

  lemma KeyIsLexicographic(n: nat, a: nat, b: nat, c: nat, d: nat)
    requires b < n && d < n && a * n + b == c * n + d
    ensures a == c && b == d
  {
    if a < c {
      KeyGrows(n, a, c);
    } else if c < a {
      KeyGrows(n, c, a);
    }
  }

  lemma {:induction false} KeyGrows(n: nat, a: nat, c: nat)
    requires a < c
    ensures a * n + n <= c * n
  {
    if c == a + 1 {
      assert c * n == a * n + n;
    } else {
      KeyGrows(n, a, c - 1);
      assert (c - 1) * n + n == c * n;
    }
  }

  lemma PairKeyIsUnordered(n: nat, i: nat, j: nat, k: nat, l: nat)
    requires i < n && j < n && k < n && l < n && i != j && k != l
    ensures PairKey(n, i, j) == PairKey(n, k, l) <==> (i == k && j == l) || (i == l && j == k)
  {
    if PairKey(n, i, j) == PairKey(n, k, l) {
      KeyIsLexicographic(n, if i < j then i else j, if i < j then j else i, if k < l then k else l, if k < l then l else k);
    }
  }

  lemma OwnedSnoc(log: seq<Link>, p: Link, i: nat)
    ensures Owned(log + [p], i) == Owned(log, i) + if p.a == i then 1 else 0
  {
    assert (log + [p])[..|log|] == log;
  }

  /** `log` continues `log0` with links owned by hub `i` only. */
  ghost predicate Extends(log0: seq<Link>, log: seq<Link>, i: nat) {
    log0 <= log && forall k :: |log0| <= k < |log| ==> log[k].a == i
  }

  lemma {:induction false} ExtendsOwns(log0: seq<Link>, log: seq<Link>, i: nat)
    requires Extends(log0, log, i)
    ensures forall x: nat :: x != i ==> Owned(log, x) == Owned(log0, x)
    decreases |log|
  {
    if |log| > |log0| {
      ExtendsOwns(log0, log[..|log| - 1], i);
    } else {
      assert log == log0;
    }
  }

  lemma ExtendsKeepsServed(w: World, log0: seq<Link>, log: seq<Link>, i: nat, x: nat, k: nat)
    requires Extends(log0, log, i) && w.Valid() && x < |w.hubs| && x != i && k < |w.near[x]| && Served(w, log0, x, k)
    ensures Served(w, log, x, k)
  {
    ExtendsOwns(log0, log, i);
    forall p | p in log && p.a == x
      ensures p in log0
    {
      var n :| 0 <= n < |log| && log[n] == p;
      assert n < |log0|;
    }
  }

  /** Hub `i` links its candidate `j` while it owns fewer than six. */
  lemma LinkKeepsServed(w: World, log: seq<Link>, i: nat, j: nat, k: nat)
    requires w.Valid() && i < |w.hubs| && k < |w.near[i]| && Owned(log, i) < LAND_K && Served(w, log, i, k)
    ensures Served(w, log + [Link(i, j)], i, k)
  {
  }

  /** The forced links: corridor chain first, then trunks, each kept when both ends exist.
      No veto applies to them. */
  function Forced(w: World): seq<Link> {
    (if w.corridorStart >= 0 then InRange(w, w.corridorStart, w.corridorEdges) else []) + InRange(w, 0, w.trunkEdges)
  }

  /** A forced link as it is wired, or nothing when an end does not exist. */
  function Kept(w: World, base: nat, e: Link): (r: seq<Link>)
    ensures forall p :: p in r ==> p.a < |w.hubs| && p.b < |w.hubs|
  {
    if base + e.a < |w.hubs| && base + e.b < |w.hubs| then [Link(base + e.a, base + e.b)] else []
  }

  function InRange(w: World, base: nat, es: seq<Link>): (r: seq<Link>)
    ensures forall p :: p in r ==> p.a < |w.hubs| && p.b < |w.hubs|
  {
    if es == [] then [] else InRange(w, base, es[..|es| - 1]) + Kept(w, base, es[|es| - 1])
  }

  lemma InRangeSnoc(w: World, base: nat, es: seq<Link>, k: nat)
    requires k < |es|
    ensures InRange(w, base, es[..k + 1]) == InRange(w, base, es[..k]) + Kept(w, base, es[k])
  {
    assert es[..k + 1][..k] == es[..k];
  }

  // ----- merging pieces -----

  /** The scan order over pairs (a in piece, b in main). */
  ghost predicate Before(i: nat, j: nat, k: nat, l: nat) {
    i < k || (i == k && j < l)
  }

  ghost predicate Candidate(w: World, piece: seq<nat>, main: seq<nat>, i: nat, j: nat) {
    && i < |piece| && j < |main| && piece[i] < |w.hubs| && main[j] < |w.hubs|
    && !w.blocked(w.hubs[piece[i]], w.hubs[main[j]])
  }

  ghost function Gap(w: World, piece: seq<nat>, main: seq<nat>, i: nat, j: nat): real
    requires i < |piece| && j < |main| && piece[i] < |w.hubs| && main[j] < |w.hubs|
  {
    w.km(w.hubs[piece[i]], w.hubs[main[j]])
  }

  /** Position (i, j) is the first shortest unblocked crossing from `piece` to `main`
      among the positions scanned before (k, l). */
  ghost predicate BestCrossing(w: World, piece: seq<nat>, main: seq<nat>, i: nat, j: nat, k: nat, l: nat) {
    && Before(i, j, k, l) && Candidate(w, piece, main, i, j)
    && forall x: nat, y: nat {:trigger Candidate(w, piece, main, x, y)} ::
      Before(x, y, k, l) && Candidate(w, piece, main, x, y) ==>
        if Before(x, y, i, j) then Gap(w, piece, main, i, j) < Gap(w, piece, main, x, y)
        else Gap(w, piece, main, i, j) <= Gap(w, piece, main, x, y)
  }

  ghost predicate NoCrossing(w: World, piece: seq<nat>, main: seq<nat>, k: nat, l: nat) {
    forall x: nat, y: nat {:trigger Candidate(w, piece, main, x, y)} ::
      Before(x, y, k, l) ==> !Candidate(w, piece, main, x, y)
  }

  /** When two pieces with this shortest crossing are merged. */
  predicate MergeRule(w: World, piece: seq<nat>, a: nat, b: nat)
    requires a < |w.hubs| && b < |w.hubs| && forall m :: m in piece ==> m < |w.hubs|
  {
    || w.km(w.hubs[a], w.hubs[b]) <= BRIDGE_CONTIGUITY_KM
    || w.landFraction(w.hubs[a], w.hubs[b]) >= OVERLAND_SHARE
    || !w.CableServed(piece)
  }

  /** The merge condition of a piece against the main piece. */
  ghost predicate Mergeable(w: World, piece: seq<nat>, main: seq<nat>)
    requires forall m :: m in piece ==> m < |w.hubs|
  {
    exists i: nat, j: nat :: BestCrossing(w, piece, main, i, j, |piece|, 0) && MergeRule(w, piece, piece[i], main[j])
  }

  /** Group `gi` still stands for a piece: the main piece, or one not merged yet. */
  predicate Live(merged: seq<bool>, gi: nat)
    requires gi < |merged|
  {
    gi == 0 || !merged[gi]
  }

  /** A live group lists one whole union-find class. */
  ghost predicate WholeClass(root: seq<nat>, piece: seq<nat>) {
    && piece != []
    && (forall x: nat :: x in piece ==> x < |root|)
    && (forall x: nat, y: nat :: x in piece && y in piece ==> root[x] == root[y])
    && (forall x: nat, y: nat :: x in piece && y < |root| && root[y] == root[x] ==> y in piece)
  }

  ghost predicate HasLiveGroup(groups: seq<seq<nat>>, merged: seq<bool>, x: nat)
    requires |merged| == |groups|
  {
    exists gi :: 0 <= gi < |groups| && Live(merged, gi) && x in groups[gi]
  }

  ghost predicate LiveGroupOk(root: seq<nat>, groups: seq<seq<nat>>, merged: seq<bool>, gi: nat)
    requires gi < |groups| == |merged|
  {
    Live(merged, gi) ==> WholeClass(root, groups[gi])
  }

  ghost predicate LiveGroupsApart(groups: seq<seq<nat>>, merged: seq<bool>, gi: nat, gj: nat)
    requires gi < gj < |groups| == |merged|
  {
    Live(merged, gi) && Live(merged, gj) ==> forall x :: x in groups[gi] ==> x !in groups[gj]
  }

  /** The live groups partition the hubs into the union-find classes. */
  ghost predicate Partition(root: seq<nat>, groups: seq<seq<nat>>, merged: seq<bool>) {
    && |merged| == |groups|
    && (forall gi: nat {:trigger LiveGroupOk(root, groups, merged, gi)} :: gi < |groups| ==> LiveGroupOk(root, groups, merged, gi))
    && (forall x: nat {:trigger HasLiveGroup(groups, merged, x)} :: x < |root| ==> HasLiveGroup(groups, merged, x))
    && (forall gi: nat, gj: nat {:trigger LiveGroupsApart(groups, merged, gi, gj)} ::
         gi < gj < |groups| ==> LiveGroupsApart(groups, merged, gi, gj))
  }

  /** A piece that was not merged does not meet the merge condition against the main piece. */
  ghost predicate StaysSeparate(w: World, groups: seq<seq<nat>>, merged: seq<bool>, gi: nat)
    requires 0 < gi < |groups| == |merged|
  {
    !merged[gi] ==> (forall m :: m in groups[gi] ==> m < |w.hubs|) && !Mergeable(w, groups[gi], groups[0])
  }

  ghost predicate Settled(w: World, groups: seq<seq<nat>>, merged: seq<bool>, upto: nat) {
    && upto <= |groups| == |merged|
    && forall gi: nat {:trigger StaysSeparate(w, groups, merged, gi)} :: 1 <= gi < upto ==> StaysSeparate(w, groups, merged, gi)
  }

  /** The groups after `groups[0].push(...groups[gi])`. */
  function Absorb(groups: seq<seq<nat>>, gi: nat): seq<seq<nat>>
    requires 0 < gi < |groups|
  {
    groups[0 := groups[0] + groups[gi]]
  }

  /** Merging a live piece into the main piece, and their classes with it, keeps the partition. */
  lemma MergeKeepsPartition(root: seq<nat>, groups: seq<seq<nat>>, merged: seq<bool>, gi: nat, a: nat, b: nat)
    requires Partition(root, groups, merged) && 0 < gi < |groups| && !merged[gi]
    requires a in groups[gi] && b in groups[0] && a < |root| && b < |root|
    ensures Partition(Joined(root, a, b), Absorb(groups, gi), merged[gi := true])
  {
    var root', groups', merged' := Joined(root, a, b), Absorb(groups, gi), merged[gi := true];
    assert LiveGroupOk(root, groups, merged, 0) && LiveGroupOk(root, groups, merged, gi);
    assert LiveGroupsApart(groups, merged, 0, gi);
    forall g: nat | g < |groups'|
      ensures LiveGroupOk(root', groups', merged', g)
    {
      assert LiveGroupOk(root, groups, merged, g);
      if Live(merged', g) {
        if g == 0 {
          MergedClassIsWhole(root, groups[0], groups[gi], a, b);
        } else {
          if g < gi { assert LiveGroupsApart(groups, merged, g, gi); } else { assert LiveGroupsApart(groups, merged, gi, g); }
          assert LiveGroupsApart(groups, merged, 0, g);
          OtherClassIsWhole(root, groups[g], a, b);
        }
      }
    }
    forall x: nat | x < |root'|
      ensures HasLiveGroup(groups', merged', x)
    {
      assert HasLiveGroup(groups, merged, x);
      var g :| 0 <= g < |groups| && Live(merged, g) && x in groups[g];
      if g == gi {
        assert x in groups'[0] && Live(merged', 0);
      } else {
        assert x in groups'[g] && Live(merged', g);
      }
    }
    forall g: nat, h: nat | g < h < |groups'|
      ensures LiveGroupsApart(groups', merged', g, h)
    {
      assert LiveGroupsApart(groups, merged, g, h);
      if g == 0 && h != gi {
        if h < gi { assert LiveGroupsApart(groups, merged, h, gi); } else { assert LiveGroupsApart(groups, merged, gi, h); }
      }
    }
  }

  lemma MergedClassIsWhole(root: seq<nat>, main: seq<nat>, piece: seq<nat>, a: nat, b: nat)
    requires WholeClass(root, main) && WholeClass(root, piece) && a in piece && b in main && a < |root| && b < |root|
    ensures WholeClass(Joined(root, a, b), main + piece)
  {
    var root', all := Joined(root, a, b), main + piece;
    forall x | x in all
      ensures x < |root| && root'[x] == root[b]
    {
    }
    forall x, y: nat | x in all && y < |root'| && root'[y] == root'[x]
      ensures y in all
    {
      if root[y] == root[a] {
        assert y in piece;
      } else {
        assert root[y] == root[b] && y in main;
      }
    }
  }

  lemma OtherClassIsWhole(root: seq<nat>, other: seq<nat>, a: nat, b: nat)
    requires WholeClass(root, other) && a < |root| && b < |root| && a !in other && b !in other
    ensures WholeClass(Joined(root, a, b), other)
  {
    forall x | x in other
      ensures root[x] != root[a] && root[x] != root[b]
    {
    }
  }
}
