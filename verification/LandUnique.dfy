// The finished backbone, and that hubs, candidate lists and vetoes alone determine it.
module LandUnique {
  import opened LandGraph
  import opened LandCandidates
  import opened LandPieces
  import opened LandHistory

  /** Every candidate list names a hub once. */
  ghost predicate Once(w: World) {
    forall i, p, q :: 0 <= i < |w.near| && 0 <= p < q < |w.near[i]| ==> w.near[i][p] != w.near[i][q]
  }

  lemma CandidatesAreNamedOnce(w: World)
    requires w.Valid() && forall i: nat {:trigger w.near[i]} :: i < |w.hubs| ==> ChosenFor(w.hubs, w.km, i, w.near[i])
    ensures Once(w)
  {
    forall i: nat, p, q | i < |w.near| && 0 <= p < q < |w.near[i]|
      ensures w.near[i][p] != w.near[i][q]
    {
      assert ChosenFor(w.hubs, w.km, i, w.near[i]);
      var r: nat :| Chosen(w.hubs, w.km, i, r, w.near[i]);
      assert Nearer(w.hubs, w.km, i, w.near[i][p], w.near[i][q]);
    }
  }

  /** The neighbour stage is done: every hub was served, in order. */
  ghost predicate NearOf(w: World, near: seq<Link>) {
    NeighbourLinks(w, near) && AllServed(w, near, |w.hubs|) && LinkedInOrder(w, near)
  }

  // ----- the neighbour links are determined -----

  lemma {:induction false} OwnedSplits(log: seq<Link>, k: nat, i: nat)
    requires k <= |log|
    ensures Owned(log, i) == Owned(log[..k], i) + Owned(log[k..], i)
  {
    if k < |log| {
      OwnedSplits(log[..|log| - 1], k, i);
      assert log[..|log| - 1][..k] == log[..k];
      assert log[..|log| - 1][k..] == log[k..][..|log[k..]| - 1];
    } else {
      assert log[..k] == log && log[k..] == [];
    }
  }

  lemma {:induction false} OwnsSome(log: seq<Link>, i: nat) returns (y: nat)
    requires Owned(log, i) > 0
    ensures y < |log| && log[y].a == i
  {
    y := |log| - 1;
    if log[y].a != i {
      y := OwnsSome(log[..y], i);
    }
  }

  /** Link `k` of one log stands in the other one, or the other one goes on with an earlier turn. */
  lemma NotLater(w: World, s: seq<Link>, t: seq<Link>, k: nat)
    requires Once(w) && NearOf(w, s) && NearOf(w, t) && k < |s| && k <= |t| && s[..k] == t[..k]
    ensures k < |t| && (t[k] == s[k] || TurnBefore(w, t[k], s[k]))
  {
    var l := s[k];
    assert VettedLink(w, s, k);
    var p: nat :| p < |w.near[l.a]| && w.near[l.a][p] == l.b;
    assert Served(w, t, l.a, p);
    forall y: nat | y < k
      ensures t[y] == s[y] && t[y] != l && t[y] != Link(l.b, l.a)
    {
      assert t[y] == t[..k][y] == s[..k][y];
      assert DifferentPairs(s, y, k);
    }
    var y := EarlierTurn(w, s, t, k, p);
    assert y > k ==> TurnBefore(w, t[k], t[y]);
    if y > k {
      TurnTrans(w, t[k], t[y], l);
    }
  }

  /** The link of `t` from `k` on whose turn is no later than that of link `k` of `s`. */
  lemma EarlierTurn(w: World, s: seq<Link>, t: seq<Link>, k: nat, p: nat) returns (y: nat)
    requires NearOf(w, s) && NearOf(w, t) && k < |s| && k <= |t| && s[..k] == t[..k]
    requires s[k].a < |w.near| && p < |w.near[s[k].a]| && w.near[s[k].a][p] == s[k].b && w.MayJoin(s[k].a, s[k].b)
    requires Served(w, t, s[k].a, p)
    requires forall y: nat :: y < k ==> t[y] != s[k] && t[y] != Link(s[k].b, s[k].a)
    ensures k <= y < |t| && (t[y] == s[k] || TurnBefore(w, t[y], s[k]))
  {
    var l := s[k];
    if Link(l.a, l.b) in t {
      y :| 0 <= y < |t| && t[y] == l;
    } else if l.b < l.a && Link(l.b, l.a) in t {
      y :| 0 <= y < |t| && t[y] == Link(l.b, l.a);
    } else {
      OwnedSplits(s, k, l.a);
      OwnedSplits(t, k, l.a);
      OwnedSplits(s[k..], 1, l.a);
      assert s[k..][..1] == [l] && Owned([l], l.a) == 1 by { assert [l][..0] == []; }
      var z := OwnsSome(t[k..], l.a);
      y := k + z;
      assert t[y] in t && t[y].b in Earlier(w, l.a, p);
      var q :| 0 <= q < p && w.near[l.a][q] == t[y].b;
      assert CandidateBefore(w, l.a, t[y].b, l.b);
    }
  }

  lemma TurnTrans(w: World, p: Link, q: Link, r: Link)
    requires Once(w) && TurnBefore(w, p, q) && (q == r || TurnBefore(w, q, r))
    ensures TurnBefore(w, p, r)
  {
    if p.a == q.a == r.a && q != r {
      var x, y :| 0 <= x < y < |w.near[p.a]| && w.near[p.a][x] == p.b && w.near[p.a][y] == q.b;
      var u, v :| 0 <= u < v < |w.near[p.a]| && w.near[p.a][u] == q.b && w.near[p.a][v] == r.b;
      assert y == u;
      assert x < v;
    }
  }

  lemma TurnIsStrict(w: World, p: Link, q: Link)
    requires Once(w) && TurnBefore(w, p, q)
    ensures !TurnBefore(w, q, p)
  {
  }

  lemma {:induction false} NearAgrees(w: World, s: seq<Link>, t: seq<Link>, k: nat)
    requires Once(w) && NearOf(w, s) && NearOf(w, t) && k <= |s| && k <= |t| && s[..k] == t[..k]
    ensures s == t
    decreases |s| - k
  {
    assert s[..|s|] == s && t[..|t|] == t;
    if k < |s| {
      NotLater(w, s, t, k);
      NotLater(w, t, s, k);
      if TurnBefore(w, t[k], s[k]) {
        TurnIsStrict(w, t[k], s[k]);
      }
      assert s[..k + 1] == s[..k] + [s[k]] && t[..k + 1] == t[..k] + [t[k]];
      NearAgrees(w, s, t, k + 1);
    } else if k < |t| {
      NotLater(w, t, s, k);
    }
  }

  // ----- and so is the whole backbone -----

  /** A finished backbone: its neighbour links, the pieces they and the forced links form, and
      what was merged. */
  datatype Finished = Finished(near: seq<Link>, start: seq<seq<nat>>, run: Run)
  {
    /** Every link, in order. */
    ghost function Links(w: World): seq<Link> {
      near + Forced(w) + run.bridges
    }

    ghost predicate BackboneOf(w: World) {
      && NearOf(w, near)
      && LinksInRange(w, near + Forced(w)) && StartsWith(Built(w, near + Forced(w)), start)
      && MergeRun(w, start, run.order, run.bridges) && RunIsOver(w, start, run.order)
    }
  }

  /** The world determines every link of its backbone, and their order. */
  lemma BackboneIsDetermined(w: World, x: Finished, y: Finished)
    requires Once(w) && x.BackboneOf(w) && y.BackboneOf(w)
    ensures x == y
  {
    NearAgrees(w, x.near, y.near, 0);
    StartIsDetermined(Built(w, x.near + Forced(w)), x.start, y.start);
    MergesAreDetermined(w, x.start, x.run.order, x.run.bridges, y.run.order, y.run.bridges);
  }
}
