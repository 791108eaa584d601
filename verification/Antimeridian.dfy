// Rejoining the halves of cables that the dataset splits at the antimeridian.
module Antimeridian {
  import opened Options
  import opened Geometry
  import opened CableGraph

  const EPS: real := 179.5
  const LAT_TOL: real := 2.0

  /** An end of a branch that lies at the antimeridian. */
  datatype End = End(bi: nat, head: bool, lat: real)

  /** A positive-side end and the negative-side end it was joined with. */
  datatype Join = Join(p: End, n: End)

  function EndPoint(br: Polyline, head: bool): LngLat
    requires br != []
  {
    if head then br[0] else br[|br| - 1]
  }

  function Abs(x: real): real {
    if x < 0.0 then -x else x
  }

  ghost predicate NonEmpty(brs: seq<Polyline>) {
    forall i :: 0 <= i < |brs| ==> brs[i] != []
  }

  ghost predicate PosEnd(brs: seq<Polyline>, e: End)
    requires NonEmpty(brs)
  {
    e.bi < |brs| && EndPoint(brs[e.bi], e.head).lon >= 179.5 && e.lat == EndPoint(brs[e.bi], e.head).lat
  }

  ghost predicate NegEnd(brs: seq<Polyline>, e: End)
    requires NonEmpty(brs)
  {
    e.bi < |brs| && EndPoint(brs[e.bi], e.head).lon <= -179.5 && e.lat == EndPoint(brs[e.bi], e.head).lat
  }

  /** The order of the first loop: branch by branch, the head before the tail. */
  predicate Before(e: End, f: End) {
    e.bi < f.bi || (e.bi == f.bi && e.head && !f.head)
  }

  ghost predicate Listed(ends: seq<End>) {
    forall a, b :: 0 <= a < b < |ends| ==> Before(ends[a], ends[b])
  }

  /** The first loop: `pos` and `neg` list every end at the antimeridian. */
  method CollectEnds(brs: seq<Polyline>) returns (pos: seq<End>, neg: seq<End>)
    requires NonEmpty(brs)
    ensures forall e :: e in pos <==> PosEnd(brs, e)
    ensures forall e :: e in neg <==> NegEnd(brs, e)
    ensures Listed(pos) && Listed(neg)
  {
    pos, neg := [], [];
    var i := 0;
    while i < |brs|
      invariant 0 <= i <= |brs|
      invariant forall e :: e in pos <==> PosEnd(brs, e) && e.bi < i
      invariant forall e :: e in neg <==> NegEnd(brs, e) && e.bi < i
      invariant Listed(pos) && Listed(neg)
    {
      var (p1, n1) := AtDateline(i, true, EndPoint(brs[i], true));
      var (p2, n2) := AtDateline(i, false, EndPoint(brs[i], false));
      pos, neg := pos + p1 + p2, neg + n1 + n2;
      i := i + 1;
    }
  }

  /** The list an end goes to, if any. */
  function AtDateline(bi: nat, head: bool, c: LngLat): (seq<End>, seq<End>) {
    if c.lon >= EPS then ([End(bi, head, c.lat)], [])
    else if c.lon <= -EPS then ([], [End(bi, head, c.lat)])
    else ([], [])
  }

  // ----- joining -----

  function Shift(c: LngLat): LngLat {
    LngLat(c.lon + 360.0, c.lat)
  }

  function Shifted(br: Polyline): Polyline {
    seq(|br|, i requires 0 <= i < |br| => Shift(br[i]))
  }

  /** The positive branch up to the antimeridian, then the negative branch one turn further on. */
  function MergedLine(brs: seq<Polyline>, j: Join): (line: Polyline)
    requires NonEmpty(brs) && j.p.bi < |brs| && j.n.bi < |brs|
  {
    var a := if j.p.head then Reversed(brs[j.p.bi]) else brs[j.p.bi];
    var b := if j.n.head then Shifted(brs[j.n.bi]) else Reversed(Shifted(brs[j.n.bi]));
    a + b[1..]
  }

  ghost predicate Used(joins: seq<Join>, i: nat) {
    exists k :: 0 <= k < |joins| && (joins[k].p.bi == i || joins[k].n.bi == i)
  }

  /** Free end `e` is no closer in latitude to the positive end than the chosen one, and farther
      if it was looked at before. */
  ghost predicate NoCloser(brs: seq<Polyline>, joins: seq<Join>, j: Join, e: End)
    requires NonEmpty(brs)
  {
    NegEnd(brs, e) && e.bi != j.p.bi && !Used(joins, e.bi) ==>
      && Abs(j.n.lat - j.p.lat) <= Abs(e.lat - j.p.lat)
      && (Before(e, j.n) ==> Abs(j.n.lat - j.p.lat) < Abs(e.lat - j.p.lat))
  }

  ghost predicate Closest(brs: seq<Polyline>, joins: seq<Join>, j: Join)
    requires NonEmpty(brs)
  {
    forall e {:trigger NoCloser(brs, joins, j, e)} :: NoCloser(brs, joins, j, e)
  }

  /** A sound join: two different branches, both ends at the antimeridian, less than two
      degrees of latitude apart, and no free negative end was closer. */
  ghost predicate SoundJoin(brs: seq<Polyline>, joins: seq<Join>, k: nat)
    requires NonEmpty(brs) && k < |joins|
  {
    var j := joins[k];
    && PosEnd(brs, j.p) && NegEnd(brs, j.n) && j.p.bi != j.n.bi
    && Abs(j.n.lat - j.p.lat) < 2.0
    && !Used(joins[..k], j.p.bi) && !Used(joins[..k], j.n.bi)
    && Closest(brs, joins[..k], j)
  }

  ghost predicate SoundJoins(brs: seq<Polyline>, joins: seq<Join>)
    requires NonEmpty(brs)
  {
    forall k: nat {:trigger SoundJoin(brs, joins, k)} :: k < |joins| ==> SoundJoin(brs, joins, k)
  }

  ghost predicate TooFar(brs: seq<Polyline>, joins: seq<Join>, e: End, n: End)
    requires NonEmpty(brs)
  {
    NegEnd(brs, n) && n.bi != e.bi && !Used(joins, n.bi) ==> Abs(n.lat - e.lat) >= 2.0
  }

  /** Nothing is left to join end `e` with. */
  ghost predicate Stuck(brs: seq<Polyline>, joins: seq<Join>, e: End)
    requires NonEmpty(brs)
  {
    Used(joins, e.bi) || forall n {:trigger TooFar(brs, joins, e, n)} :: TooFar(brs, joins, e, n)
  }

  ghost predicate AllStuck(brs: seq<Polyline>, joins: seq<Join>, pos: seq<End>, m: nat)
    requires NonEmpty(brs) && m <= |pos|
  {
    forall k: nat {:trigger Stuck(brs, joins, pos[k])} :: k < m ==> Stuck(brs, joins, pos[k])
  }

  // ----- every positive end in its turn -----

  /** Positive end `e`, whose turn came after join `k - 1` and before join `k`, found no partner. */
  ghost predicate PassedOver(brs: seq<Polyline>, joins: seq<Join>, k: nat, e: End)
    requires NonEmpty(brs) && k <= |joins|
  {
    (k > 0 ==> Before(joins[k - 1].p, e)) && (k < |joins| ==> Before(e, joins[k].p)) ==> Stuck(brs, joins[..k], e)
  }

  ghost predicate InTurn(joins: seq<Join>) {
    forall k, l :: 0 <= k < l < |joins| ==> Before(joins[k].p, joins[l].p)
  }

  /** Exactly what the loop over the positive ends does. */
  ghost predicate Greedy(brs: seq<Polyline>, joins: seq<Join>)
    requires NonEmpty(brs)
  {
    && SoundJoins(brs, joins) && InTurn(joins)
    && forall k: nat, e {:trigger PassedOver(brs, joins, k, e)} :: k <= |joins| && PosEnd(brs, e) ==> PassedOver(brs, joins, k, e)
  }

  /** The same for the positive ends done so far. */
  ghost predicate GreedyUpTo(brs: seq<Polyline>, joins: seq<Join>, done: seq<End>)
    requires NonEmpty(brs)
  {
    && SoundJoins(brs, joins) && InTurn(joins)
    && (forall k :: 0 <= k < |joins| ==> joins[k].p in done)
    && forall k: nat, e {:trigger PassedOver(brs, joins, k, e)} :: k <= |joins| && e in done ==> PassedOver(brs, joins, k, e)
  }

  /** End `e` comes after all ends done so far and finds no partner. */
  lemma PassOver(brs: seq<Polyline>, joins: seq<Join>, done: seq<End>, e: End)
    requires NonEmpty(brs) && GreedyUpTo(brs, joins, done) && Listed(done + [e]) && Stuck(brs, joins, e)
    ensures GreedyUpTo(brs, joins, done + [e])
  {
    DoneBefore(done, e);
    assert joins[..|joins|] == joins;
  }

  lemma DoneBefore(done: seq<End>, e: End)
    requires Listed(done + [e])
    ensures forall f :: f in done ==> Before(f, e) && !Before(e, f)
  {
    var all := done + [e];
    forall f | f in done
      ensures Before(f, e)
    {
      var m :| 0 <= m < |done| && done[m] == f;
      assert Before(all[m], all[|done|]);
    }
  }

  /** End `j.p` comes after all ends done so far and is joined. */
  lemma JoinInTurn(brs: seq<Polyline>, joins: seq<Join>, done: seq<End>, j: Join)
    requires NonEmpty(brs) && GreedyUpTo(brs, joins, done) && Listed(done + [j.p]) && SoundJoins(brs, joins + [j])
    ensures GreedyUpTo(brs, joins + [j], done + [j.p])
  {
    var all := joins + [j];
    DoneBefore(done, j.p);
    forall k: nat, e | k <= |all| && e in done + [j.p]
      ensures PassedOver(brs, all, k, e)
    {
      if k <= |joins| && e in done {
        assert PassedOver(brs, joins, k, e);
        assert all[..k] == joins[..k];
      }
    }
  }

  /** A joined end was not stuck when its turn came. */
  lemma JoinedWasFree(brs: seq<Polyline>, joins: seq<Join>, k: nat)
    requires NonEmpty(brs) && SoundJoins(brs, joins) && k < |joins|
    ensures !Stuck(brs, joins[..k], joins[k].p)
  {
    assert SoundJoin(brs, joins, k);
    assert !TooFar(brs, joins[..k], joins[k].p, joins[k].n);
  }

  /** Two positive ends joined after the same joins: the first one in scan order would have been
      passed over in the other list. */
  lemma NotBefore(brs: seq<Polyline>, a: seq<Join>, b: seq<Join>, k: nat)
    requires NonEmpty(brs) && Greedy(brs, a) && Greedy(brs, b) && k < |a| && k <= |b| && a[..k] == b[..k]
    ensures k < |b| && !Before(a[k].p, b[k].p)
  {
    JoinedWasFree(brs, a, k);
    assert SoundJoin(brs, a, k);
    assert PassedOver(brs, b, k, a[k].p);
    if k > 0 {
      assert b[k - 1] == b[..k][k - 1] == a[..k][k - 1] == a[k - 1];
    }
  }

  lemma {:induction false} AgreeFrom(brs: seq<Polyline>, a: seq<Join>, b: seq<Join>, k: nat)
    requires NonEmpty(brs) && Greedy(brs, a) && Greedy(brs, b) && k <= |a| && k <= |b| && a[..k] == b[..k]
    ensures a == b
    decreases |a| - k
  {
    if k == |a| || k == |b| {
      if k < |a| {
        NotBefore(brs, a, b, k);
      } else if k < |b| {
        NotBefore(brs, b, a, k);
      }
      assert a[..k] == a && b[..k] == b;
    } else {
      NotBefore(brs, a, b, k);
      NotBefore(brs, b, a, k);
      SamePartner(brs, a[..k], a[k], b[k]) by {
        assert SoundJoin(brs, a, k) && SoundJoin(brs, b, k);
      }
      assert a[..k + 1] == a[..k] + [a[k]] && b[..k + 1] == b[..k] + [b[k]];
      AgreeFrom(brs, a, b, k + 1);
    }
  }

  /** The joins are determined by the branches: scan order, choice among equally near partners
      and all. */
  lemma GreedyIsUnique(brs: seq<Polyline>, a: seq<Join>, b: seq<Join>)
    requires NonEmpty(brs) && Greedy(brs, a) && Greedy(brs, b)
    ensures a == b
  {
    AgreeFrom(brs, a, b, 0);
  }

  lemma SamePartner(brs: seq<Polyline>, joins: seq<Join>, j: Join, l: Join)
    requires NonEmpty(brs) && PosEnd(brs, j.p) && PosEnd(brs, l.p) && !Before(j.p, l.p) && !Before(l.p, j.p)
    requires NegEnd(brs, j.n) && NegEnd(brs, l.n) && j.n.bi != j.p.bi && l.n.bi != l.p.bi
    requires !Used(joins, j.n.bi) && !Used(joins, l.n.bi) && Closest(brs, joins, j) && Closest(brs, joins, l)
    ensures j == l
  {
    assert NoCloser(brs, joins, j, l.n) && NoCloser(brs, joins, l, j.n);
  }

  // ----- the loops -----

  lemma UsedSnoc(joins: seq<Join>, j: Join, i: nat)
    ensures Used(joins + [j], i) <==> Used(joins, i) || i == j.p.bi || i == j.n.bi
  {
    var all := joins + [j];
    if Used(joins, i) {
      var k :| 0 <= k < |joins| && (joins[k].p.bi == i || joins[k].n.bi == i);
      assert all[k] == joins[k];
    }
    assert all[|joins|] == j;
  }

  lemma AddJoin(brs: seq<Polyline>, joins: seq<Join>, j: Join)
    requires NonEmpty(brs) && SoundJoins(brs, joins) && SoundJoin(brs, joins + [j], |joins|)
    ensures SoundJoins(brs, joins + [j])
  {
    var all := joins + [j];
    forall k: nat | k < |all|
      ensures SoundJoin(brs, all, k)
    {
      if k < |joins| {
        assert all[..k] == joins[..k];
        assert SoundJoin(brs, joins, k);
      }
    }
  }

  /** An end with nothing left to join stays that way. */
  lemma StuckStays(brs: seq<Polyline>, joins: seq<Join>, j: Join, e: End)
    requires NonEmpty(brs) && Stuck(brs, joins, e)
    ensures Stuck(brs, joins + [j], e)
  {
    UsedSnoc(joins, j, e.bi);
    if !Used(joins + [j], e.bi) {
      forall n
        ensures TooFar(brs, joins + [j], e, n)
      {
        UsedSnoc(joins, j, n.bi);
        assert TooFar(brs, joins, e, n);
      }
    }
  }

  /** The inner loop: the nearest free negative end within the tolerance. */
  method Partner(brs: seq<Polyline>, neg: seq<End>, ghost joins: seq<Join>, consumed: set<nat>, p: End) returns (best: Option<End>)
    requires NonEmpty(brs) && (forall e :: e in neg <==> NegEnd(brs, e)) && Listed(neg)
    requires forall i: nat :: i in consumed <==> Used(joins, i)
    ensures best.None? ==> Stuck(brs, joins, p)
    ensures best.Some? ==>
      && NegEnd(brs, best.value) && best.value.bi != p.bi && !Used(joins, best.value.bi)
      && Abs(best.value.lat - p.lat) < LAT_TOL && Closest(brs, joins, Join(p, best.value))
  {
    best := None;
    var bd := LAT_TOL;
    var k := 0;
    while k < |neg|
      invariant 0 <= k <= |neg|
      invariant bd == if best.Some? then Abs(best.value.lat - p.lat) else LAT_TOL
      invariant best.Some? ==> best.value in neg[..k] && best.value.bi != p.bi && best.value.bi !in consumed && bd < LAT_TOL
      invariant forall e :: e in neg[..k] && e.bi != p.bi && e.bi !in consumed ==> bd <= Abs(e.lat - p.lat)
      invariant best.Some? ==> forall e :: e in neg[..k] && e.bi != p.bi && e.bi !in consumed && Before(e, best.value) ==> bd < Abs(e.lat - p.lat)
    {
      var n := neg[k];
      if n.bi !in consumed && n.bi != p.bi {
        var d := Abs(n.lat - p.lat);
        if d < bd {
          bd, best := d, Some(n);
        }
      }
      assert neg[..k + 1] == neg[..k] + [n];
      DoneBefore(neg[..k], n);
      k := k + 1;
    }
    assert neg[..k] == neg;
  }

  /** The branches that were not joined, in their original order. */
  function Kept(brs: seq<Polyline>, consumed: set<nat>, n: nat): seq<Polyline>
    requires n <= |brs|
  {
    if n == 0 then [] else Kept(brs, consumed, n - 1) + if n - 1 in consumed then [] else [brs[n - 1]]
  }

  ghost function MergedLines(brs: seq<Polyline>, joins: seq<Join>): (r: seq<Polyline>)
    requires NonEmpty(brs) && SoundJoins(brs, joins)
    ensures |r| == |joins|
  {
    seq(|joins|, k requires 0 <= k < |joins| => assert SoundJoin(brs, joins, k); MergedLine(brs, joins[k]))
  }

  /** One positive end: join it with its nearest partner, if it has one. */
  method TryJoin(brs: seq<Polyline>, neg: seq<End>, p: End, joins0: seq<Join>, used0: set<nat>, ghost done: seq<End>)
    returns (joins: seq<Join>, used: set<nat>, merged: seq<Polyline>)
    requires NonEmpty(brs) && GreedyUpTo(brs, joins0, done) && PosEnd(brs, p) && Listed(done + [p])
    requires (forall e :: e in neg <==> NegEnd(brs, e)) && Listed(neg) && (forall i: nat :: i in used0 <==> Used(joins0, i))
    ensures GreedyUpTo(brs, joins, done + [p]) && (forall i: nat :: i in used <==> Used(joins, i))
    ensures MergedLines(brs, joins) == MergedLines(brs, joins0) + merged
    ensures Stuck(brs, joins, p) && forall e :: Stuck(brs, joins0, e) ==> Stuck(brs, joins, e)
  {
    joins, used, merged := joins0, used0, [];
    if p.bi in used {
      PassOver(brs, joins, done, p);
      return;
    }
    var best := Partner(brs, neg, joins, used, p);
    if best.None? {
      PassOver(brs, joins, done, p);
    } else {
      var j := Join(p, best.value);
      joins := joins0 + [j];
      assert joins[..|joins0|] == joins0;
      AddJoin(brs, joins0, j);
      JoinInTurn(brs, joins0, done, j);
      merged := [MergedLine(brs, j)];
      used := used + {p.bi, best.value.bi};
      forall i: nat
        ensures Used(joins, i) <==> Used(joins0, i) || i == p.bi || i == j.n.bi
      {
        UsedSnoc(joins0, j, i);
      }
      forall e | Stuck(brs, joins0, e)
        ensures Stuck(brs, joins, e)
      {
        StuckStays(brs, joins0, j, e);
      }
    }
  }

  /** The output of the greedy joins: the branches that none uses, then one line per join. No
      positive end is left that could still be joined. */
  ghost predicate StitchedBy(brs: seq<Polyline>, joins: seq<Join>, consumed: set<nat>, out: seq<Polyline>)
    requires NonEmpty(brs)
  {
    && Greedy(brs, joins) && (forall i: nat :: i in consumed <==> Used(joins, i))
    && out == Kept(brs, consumed, |brs|) + MergedLines(brs, joins)
    && forall p :: PosEnd(brs, p) ==> Stuck(brs, joins, p)
  }

  /** Only one output is possible. */
  lemma StitchIsDetermined(brs: seq<Polyline>, joins: seq<Join>, consumed: set<nat>, out: seq<Polyline>,
                           joins': seq<Join>, consumed': set<nat>, out': seq<Polyline>)
    requires NonEmpty(brs) && StitchedBy(brs, joins, consumed, out) && StitchedBy(brs, joins', consumed', out')
    ensures joins == joins' && consumed == consumed' && out == out'
  {
    GreedyIsUnique(brs, joins, joins');
  }

  /** `stitchAntimeridian`. */
  method Stitch(brs: seq<Polyline>) returns (out: seq<Polyline>)
    requires NonEmpty(brs)
    ensures exists joins, consumed :: StitchedBy(brs, joins, consumed, out)
  {
    var pos, neg := CollectEnds(brs);
    var used: set<nat> := {};
    var merged: seq<Polyline> := [];
    var made: seq<Join> := [];
    var k := 0;
    while k < |pos|
      invariant 0 <= k <= |pos| && GreedyUpTo(brs, made, pos[..k])
      invariant forall i: nat :: i in used <==> Used(made, i)
      invariant merged == MergedLines(brs, made)
      invariant AllStuck(brs, made, pos, k)
    {
      assert pos[k] in pos && pos[..k + 1] == pos[..k] + [pos[k]];
      ghost var before := made;
      var more;
      made, used, more := TryJoin(brs, neg, pos[k], made, used, pos[..k]);
      merged := merged + more;
      forall m: nat | m < k + 1
        ensures Stuck(brs, made, pos[m])
      {
        assert m < k ==> Stuck(brs, before, pos[m]);
      }
      k := k + 1;
    }
    forall p | PosEnd(brs, p)
      ensures Stuck(brs, made, p)
    {
      var m :| 0 <= m < |pos| && pos[m] == p;
      assert Stuck(brs, made, pos[m]);
    }
    assert pos[..k] == pos;
    out := Kept(brs, used, |brs|) + merged;
    assert StitchedBy(brs, made, used, out);
  }

  /** Stitching branches with the dataset's longitudes gives lines that the network accepts. */
  lemma OutputIsStitched(brs: seq<Polyline>, joins: seq<Join>, consumed: set<nat>, out: seq<Polyline>)
    requires NonEmpty(brs) && StitchedBy(brs, joins, consumed, out)
    requires forall br, c :: br in brs && c in br ==> c.lon >= -540.0
    ensures forall l :: l in out ==> Stitched(l)
  {
    KeptAreBranches(brs, consumed, |brs|);
    var lines := MergedLines(brs, joins);
    forall k | 0 <= k < |lines|
      ensures Stitched(lines[k])
    {
      assert SoundJoin(brs, joins, k);
      var a, b := brs[joins[k].p.bi], brs[joins[k].n.bi];
      assert a in brs && b in brs && a[0] in a && a[|a| - 1] in a && b[0] in b && b[|b| - 1] in b;
    }
    forall br | br in brs
      ensures Stitched(br)
    {
      assert br != [] ==> br[0] in br && br[|br| - 1] in br;
    }
  }

  lemma {:induction false} KeptAreBranches(brs: seq<Polyline>, consumed: set<nat>, n: nat)
    requires n <= |brs|
    ensures forall l :: l in Kept(brs, consumed, n) ==> l in brs
  {
    if n > 0 {
      KeptAreBranches(brs, consumed, n - 1);
    }
  }

  // ----- conservation -----

  ghost function Points(lines: seq<Polyline>): nat {
    if lines == [] then 0 else Points(lines[..|lines| - 1]) + |lines[|lines| - 1]|
  }

  lemma {:induction false} PointsConcat(a: seq<Polyline>, b: seq<Polyline>)
    ensures Points(a + b) == Points(a) + Points(b)
  {
    if b == [] {
      assert a + b == a;
    } else {
      assert (a + b)[..|a + b| - 1] == a + b[..|b| - 1];
      PointsConcat(a, b[..|b| - 1]);
    }
  }

  /** Points of the branches before `n` that no join uses. */
  ghost function FreePoints(brs: seq<Polyline>, joins: seq<Join>, n: nat): nat
    requires n <= |brs|
  {
    if n == 0 then 0 else FreePoints(brs, joins, n - 1) + if Used(joins, n - 1) then 0 else |brs[n - 1]|
  }

  lemma {:induction false} KeptPoints(brs: seq<Polyline>, joins: seq<Join>, consumed: set<nat>, n: nat)
    requires n <= |brs| && forall i: nat :: i in consumed <==> Used(joins, i)
    ensures Points(Kept(brs, consumed, n)) == FreePoints(brs, joins, n)
  {
    if n > 0 {
      KeptPoints(brs, joins, consumed, n - 1);
      PointsConcat(Kept(brs, consumed, n - 1), if n - 1 in consumed then [] else [brs[n - 1]]);
      assert Points([brs[n - 1]]) == Points([brs[n - 1]][..0]) + |brs[n - 1]|;
    }
  }

  lemma {:induction false} NothingUsed(brs: seq<Polyline>, n: nat)
    requires n <= |brs|
    ensures FreePoints(brs, [], n) == Points(brs[..n])
  {
    if n > 0 {
      NothingUsed(brs, n - 1);
      assert brs[..n][..n - 1] == brs[..n - 1];
    }
  }

  /** A join takes exactly its two branches out of the free ones. */
  lemma {:induction false} JoinTakesTwo(brs: seq<Polyline>, joins: seq<Join>, j: Join, n: nat)
    requires n <= |brs| && j.p.bi < |brs| && j.n.bi < |brs| && j.p.bi != j.n.bi
    requires !Used(joins, j.p.bi) && !Used(joins, j.n.bi)
    ensures FreePoints(brs, joins, n) == FreePoints(brs, joins + [j], n)
      + (if j.p.bi < n then |brs[j.p.bi]| else 0) + (if j.n.bi < n then |brs[j.n.bi]| else 0)
  {
    if n > 0 {
      JoinTakesTwo(brs, joins, j, n - 1);
      UsedSnoc(joins, j, n - 1);
    }
  }

  lemma PrefixIsSound(brs: seq<Polyline>, joins: seq<Join>)
    requires NonEmpty(brs) && SoundJoins(brs, joins) && joins != []
    ensures SoundJoins(brs, joins[..|joins| - 1])
  {
    var init := joins[..|joins| - 1];
    forall k: nat | k < |init|
      ensures SoundJoin(brs, init, k)
    {
      assert SoundJoin(brs, joins, k);
      assert joins[..k] == init[..k];
    }
  }

  lemma LastMergedLine(brs: seq<Polyline>, joins: seq<Join>)
    requires NonEmpty(brs) && SoundJoins(brs, joins) && joins != []
    ensures SoundJoins(brs, joins[..|joins| - 1])
    ensures var j := joins[|joins| - 1];
      j.p.bi < |brs| && j.n.bi < |brs|
      && Points(MergedLines(brs, joins)) == Points(MergedLines(brs, joins[..|joins| - 1])) + |brs[j.p.bi]| + |brs[j.n.bi]| - 1
  {
    PrefixIsSound(brs, joins);
    assert SoundJoin(brs, joins, |joins| - 1);
    var lines := MergedLines(brs, joins);
    assert lines[..|joins| - 1] == MergedLines(brs, joins[..|joins| - 1]);
  }

  /** Joining loses one point per join: the shared point at the antimeridian. */
  lemma {:induction false} JoinsLoseOnePointEach(brs: seq<Polyline>, joins: seq<Join>)
    requires NonEmpty(brs) && SoundJoins(brs, joins)
    ensures FreePoints(brs, joins, |brs|) + Points(MergedLines(brs, joins)) + |joins| == Points(brs)
    decreases |joins|
  {
    if joins == [] {
      NothingUsed(brs, |brs|);
      assert brs[..|brs|] == brs;
    } else {
      var init, j := joins[..|joins| - 1], joins[|joins| - 1];
      assert SoundJoin(brs, joins, |joins| - 1);
      assert joins == init + [j];
      PrefixIsSound(brs, joins);
      JoinsLoseOnePointEach(brs, init);
      JoinTakesTwo(brs, init, j, |brs|);
      LastMergedLine(brs, joins);
    }
  }

  /** Nothing is lost or duplicated: every branch is kept unchanged or belongs to exactly one
      join, and the number of points drops by exactly the number of joins. */
  lemma {:induction false} StitchConserves(brs: seq<Polyline>, joins: seq<Join>, consumed: set<nat>, out: seq<Polyline>)
    requires NonEmpty(brs) && StitchedBy(brs, joins, consumed, out)
    ensures Points(out) + |joins| == Points(brs)
    ensures forall k, l, i :: 0 <= k < l < |joins| ==> !Touches(joins[k], i) || !Touches(joins[l], i)
  {
    KeptPoints(brs, joins, consumed, |brs|);
    PointsConcat(Kept(brs, consumed, |brs|), MergedLines(brs, joins));
    JoinsLoseOnePointEach(brs, joins);
    forall k, l, i | 0 <= k < l < |joins| && Touches(joins[k], i)
      ensures !Touches(joins[l], i)
    {
      assert SoundJoin(brs, joins, l);
      assert joins[..l][k] == joins[k];
      assert Used(joins[..l], i);
    }
  }

  ghost predicate Touches(j: Join, i: nat) {
    j.p.bi == i || j.n.bi == i
  }

  /** Longitudes as the dataset writes them. */
  ghost predicate Raw(brs: seq<Polyline>) {
    forall br, c :: br in brs && c in br ==> -180.0 <= c.lon <= 180.0
  }

  /** At a join the line runs on: both sides lie at the antimeridian, for raw longitudes within
      half a degree of it and on their own side, less than two degrees of latitude apart. */
  lemma JoinIsContinuous(brs: seq<Polyline>, joins: seq<Join>, k: nat)
    requires NonEmpty(brs) && SoundJoins(brs, joins) && k < |joins|
    ensures joins[k].p.bi < |brs| && joins[k].n.bi < |brs|
    ensures var line, seam := MergedLine(brs, joins[k]), |brs[joins[k].p.bi]|;
      && seam <= |line| && line[seam - 1] == EndPoint(brs[joins[k].p.bi], joins[k].p.head)
      && line[seam - 1].lon >= 179.5
      && Shift(EndPoint(brs[joins[k].n.bi], joins[k].n.head)).lon <= 180.5
      && (Raw(brs) ==> 179.5 <= line[seam - 1].lon <= 180.0 <= Shift(EndPoint(brs[joins[k].n.bi], joins[k].n.head)).lon <= 180.5)
      && -2.0 < line[seam - 1].lat - EndPoint(brs[joins[k].n.bi], joins[k].n.head).lat < 2.0
      && (var rest := Shifted(brs[joins[k].n.bi]); line[seam..] == (if joins[k].n.head then rest else Reversed(rest))[1..])
  {
    assert SoundJoin(brs, joins, k);
    var a, b := brs[joins[k].p.bi], brs[joins[k].n.bi];
    assert a in brs && b in brs && EndPoint(a, joins[k].p.head) in a && EndPoint(b, joins[k].n.head) in b;
  }
}
