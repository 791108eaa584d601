// The axes of one report against each other.
module Conservation {
  import opened Traffic
  import opened Buckets
  import opened RollingWindow

  ghost predicate Apart<K>(ks: seq<K>) {
    forall i, j :: 0 <= i < j < |ks| ==> ks[i] != ks[j]
  }

  ghost predicate RowAtMost<K>(m: map<K, DataInfo>, g: map<K, DataInfo>, gs: seq<K>, k: K) {
    k in m && k in gs && k in g && m[k].AtMost(g[k])
  }

  lemma WithoutKeeps<K>(gs: seq<K>, i: nat, k: K)
    requires i < |gs| && k in gs && k != gs[i]
    ensures k in Without(gs, i)
  {
    var j :| 0 <= j < |gs| && gs[j] == k;
    assert Without(gs, i)[if j < i then j else j - 1] == k;
  }

  /** Fewer rows that are smaller row by row add up to no more. */
  lemma {:induction false} RowSumAtMost<K>(m: map<K, DataInfo>, ks: seq<K>, g: map<K, DataInfo>, gs: seq<K>)
    requires Apart(ks) && (forall k :: k in gs ==> k in g)
    requires (forall k :: k in ks ==> k in m) && (forall k {:trigger RowAtMost(m, g, gs, k)} :: k in ks ==> RowAtMost(m, g, gs, k))
    ensures RowSum(m, ks).AtMost(RowSum(g, gs))
  {
    if ks != [] {
      var init, k := ks[..|ks| - 1], ks[|ks| - 1];
      assert RowAtMost(m, g, gs, k);
      var i :| 0 <= i < |gs| && gs[i] == k;
      RowSumSplit(g, gs, i);
      forall x | x in init
        ensures RowAtMost(m, g, Without(gs, i), x)
      {
        assert RowAtMost(m, g, gs, x);
        WithoutKeeps(gs, i, x);
      }
      RowSumAtMost(m, init, g, Without(gs, i));
    }
  }

  lemma {:induction false} AnyListing<K>(m: map<K, DataInfo>) returns (ks: seq<K>)
    ensures Lists(m, ks)
    decreases |m|
  {
    if m == map[] {
      ks := [];
    } else {
      var k :| k in m;
      var rest := AnyListing(m - {k});
      ks := rest + [k];
      assert forall x :: x in rest <==> x in (m - {k}).Keys;
      assert m.Keys == (set x | x in ks);
    }
  }

  /** The peer axis as plain rows. */
  ghost function PeerRows(r: Report): map<string, DataInfo> {
    map ip | ip in r.dst :: r.dst[ip].data
  }

  lemma {:induction false} PeerRowAtMost(r: Report, history: seq<seq<Flow>>, w: nat, peers: seq<string>, ip: string)
    requires Sums(r, history, w) && Lists(GroupBy(Recent(history, w), PeerOf), peers) && ip in r.dst
    ensures RowAtMost(PeerRows(r), GroupBy(Recent(history, w), PeerOf), peers, ip)
  {
    assert DstIsWindow(r.dst, history, w, ip);
    WindowRowAtMost(history, w, ip);
    WindowRowOccurs(history, w, ip);
    GroupByMeaning(Recent(history, w), PeerOf, ip);
  }

  lemma {:induction false} WindowRowOccurs(history: seq<seq<Flow>>, w: nat, ip: string)
    requires WindowRow(history, w, ip).Some?
    ensures Occurs(Recent(history, w), PeerOf, ip)
  {
    var second := Second(history, w - 1);
    OccursInConcat(second, Recent(history, w - 1), PeerOf, ip);
    if ip in Admitted(second) {
      AdmittedOccurs(second, ip);
    } else {
      WindowRowOccurs(history, w - 1, ip);
    }
  }

  ghost predicate BelowCap(history: seq<seq<Flow>>, w: nat) {
    forall i :: 0 <= i < w ==> |Admitted(Second(history, i))| < DST_CAP
  }

  lemma {:induction false} PeerAxisIsPlain(r: Report, history: seq<seq<Flow>>, w: nat)
    requires Sums(r, history, w) && BelowCap(history, w)
    ensures PeerRows(r) == GroupBy(Recent(history, w), PeerOf)
  {
    var m, g := PeerRows(r), GroupBy(Recent(history, w), PeerOf);
    forall ip: string
      ensures SameRow(m, g, ip)
    {
      assert DstIsWindow(r.dst, history, w, ip);
      WindowRowBelowCap(history, w, ip);
      GroupByMeaning(Recent(history, w), PeerOf, ip);
    }
    SameRowsSameMap(m, g);
  }

  /** In every report the peer axis and the country axis each add up to at most the host axis,
      which adds up to exactly the flows with an addressed remote peer and at most the total;
      while no second of the window is at its cap, the peer axis equals the host axis. */
  lemma {:induction false} ReportIsConserved(r: Report, history: seq<seq<Flow>>, w: nat, peers: seq<string>, countries: seq<string>, hosts: seq<HostKey>)
    requires Sums(r, history, w)
    requires Lists(PeerRows(r), peers) && Lists(r.country, countries) && Lists(r.host, hosts)
    ensures RowSum(r.host, hosts) == SumKeyed(Recent(history, w), PeerOf)
    ensures RowSum(r.host, hosts).AtMost(r.total)
    ensures RowSum(r.country, countries).AtMost(RowSum(r.host, hosts))
    ensures RowSum(PeerRows(r), peers).AtMost(RowSum(r.host, hosts))
    ensures BelowCap(history, w) ==> RowSum(PeerRows(r), peers) == RowSum(r.host, hosts)
  {
    var flows := Recent(history, w);
    AxesAreConserved(flows, hosts, countries);
    var all := AnyListing(GroupBy(flows, PeerOf));
    RowsAddUp(flows, PeerOf, all);
    forall ip | ip in peers
      ensures RowAtMost(PeerRows(r), GroupBy(flows, PeerOf), all, ip)
    {
      assert ip in PeerRows(r).Keys;
      PeerRowAtMost(r, history, w, all, ip);
    }
    RowSumAtMost(PeerRows(r), peers, GroupBy(flows, PeerOf), all);
    if BelowCap(history, w) {
      PeerAxisIsPlain(r, history, w);
      RowsAddUp(flows, PeerOf, peers);
    }
  }
}
