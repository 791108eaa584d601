// Flows, what they are attributed to, and the group-by every panel of the aggregator shows.
module Traffic {
  import opened Options

  datatype DataInfo = DataInfo(inBytes: nat, outBytes: nat, inPkts: nat, outPkts: nat)
  {
    function Merge(o: DataInfo): DataInfo {
      DataInfo(inBytes + o.inBytes, outBytes + o.outBytes, inPkts + o.inPkts, outPkts + o.outPkts)
    }

    function Add(bytes: nat, pkts: nat, incoming: bool): DataInfo {
      if incoming then this.(inBytes := inBytes + bytes, inPkts := inPkts + pkts)
      else this.(outBytes := outBytes + bytes, outPkts := outPkts + pkts)
    }

    function Total(): nat {
      inBytes + outBytes
    }

    predicate AtMost(o: DataInfo) {
      inBytes <= o.inBytes && outBytes <= o.outBytes && inPkts <= o.inPkts && outPkts <= o.outPkts
    }
  }

  const ZERO := DataInfo(0, 0, 0, 0)

  /** The fields `record` looks up in the enriched flow; None when absent or of another type. */
  datatype Flow = Flow(
    octets: Option<nat>, packets: Option<nat>, srcHome: Option<bool>, dstHome: Option<bool>,
    srcAddr: Option<string>, dstAddr: Option<string>, srcCountry: Option<string>, dstCountry: Option<string>,
    service: Option<string>, app: Option<string>, srcAs: Option<int>, dstAs: Option<int>)

  /** The host key (label, asn, country); `asn` 0 stands for the empty string. */
  datatype HostKey = HostKey(name: string, asn: nat, country: string)

  function OrElse<T>(o: Option<T>, d: T): T {
    if o.Some? then o.value else d
  }

  predicate FromHome(f: Flow) {
    OrElse(f.srcHome, false)
  }

  predicate ToHome(f: Flow) {
    OrElse(f.dstHome, false)
  }

  predicate Incoming(f: Flow) {
    ToHome(f) && !FromHome(f)
  }

  /** What a flow contributes to every axis it appears on. */
  function Info(f: Flow): DataInfo {
    ZERO.Add(OrElse(f.octets, 0), OrElse(f.packets, 0), Incoming(f))
  }

  /** Flows without bytes are ignored altogether. */
  predicate Counted(f: Flow) {
    OrElse(f.octets, 0) != 0
  }

  function ServiceOf(f: Flow): Option<string> {
    f.service
  }

  /** The home end: source when it is home, else destination when it is. */
  function LanOf(f: Flow): Option<string> {
    if FromHome(f) then f.srcAddr else if ToHome(f) then f.dstAddr else None
  }

  /** The remote end, None for internal flows: the source of a download, else the destination. */
  function PeerOf(f: Flow): Option<string> {
    if FromHome(f) && ToHome(f) then None else if Incoming(f) then f.srcAddr else f.dstAddr
  }

  function PeerCountry(f: Flow): Option<string> {
    if Incoming(f) then f.srcCountry else f.dstCountry
  }

  /** The country axis counts only flows with an addressed peer. */
  function CountryOf(f: Flow): Option<string> {
    if PeerOf(f).Some? then PeerCountry(f) else None
  }

  function PeerAs(f: Flow): nat {
    var n := OrElse(if Incoming(f) then f.srcAs else f.dstAs, 0);
    if n > 0 then n else 0
  }

  function HostOf(f: Flow): Option<HostKey> {
    if PeerOf(f).None? then None
    else Some(HostKey(OrElse(f.app, PeerOf(f).value), PeerAs(f), OrElse(PeerCountry(f), "")))
  }

  // ----- group by -----

  /** `entry(k).or_default()` followed by an addition. */
  function Bump<K(==)>(m: map<K, DataInfo>, k: K, d: DataInfo): map<K, DataInfo> {
    m[k := (if k in m then m[k] else ZERO).Merge(d)]
  }

  /** Replay the flows into one keyed view. */
  ghost function GroupBy<K>(flows: seq<Flow>, key: Flow -> Option<K>): map<K, DataInfo> {
    if flows == [] then map[] else
      var m, f := GroupBy(flows[..|flows| - 1], key), flows[|flows| - 1];
      if Counted(f) && key(f).Some? then Bump(m, key(f).value, Info(f)) else m
  }

  /** The sum of the counted flows with key `k`. */
  ghost function SumOf<K>(flows: seq<Flow>, key: Flow -> Option<K>, k: K): DataInfo {
    if flows == [] then ZERO else
      var s, f := SumOf(flows[..|flows| - 1], key, k), flows[|flows| - 1];
      if Counted(f) && key(f) == Some(k) then s.Merge(Info(f)) else s
  }

  ghost predicate Occurs<K>(flows: seq<Flow>, key: Flow -> Option<K>, k: K) {
    exists f :: f in flows && Counted(f) && key(f) == Some(k)
  }

  /** A group-by has a row for exactly the keys that occur, holding exactly their sum. */
  lemma {:induction false} GroupByMeaning<K>(flows: seq<Flow>, key: Flow -> Option<K>, k: K)
    ensures k in GroupBy(flows, key) <==> Occurs(flows, key, k)
    ensures k in GroupBy(flows, key) ==> GroupBy(flows, key)[k] == SumOf(flows, key, k)
    ensures k !in GroupBy(flows, key) ==> SumOf(flows, key, k) == ZERO
  {
    if flows != [] {
      var init, f := flows[..|flows| - 1], flows[|flows| - 1];
      GroupByMeaning(init, key, k);
      assert flows == init + [f];
      if Counted(f) && key(f) == Some(k) {
        assert f in flows;
      }
      if Occurs(flows, key, k) && !Occurs(init, key, k) {
        var g :| g in flows && Counted(g) && key(g) == Some(k);
        assert g == f;
      }
    }
  }

  lemma GroupBySnoc<K>(flows: seq<Flow>, key: Flow -> Option<K>, f: Flow)
    ensures GroupBy(flows + [f], key) ==
      if Counted(f) && key(f).Some? then Bump(GroupBy(flows, key), key(f).value, Info(f)) else GroupBy(flows, key)
  {
    assert (flows + [f])[..|flows|] == flows;
  }

  lemma SumOfSnoc<K>(flows: seq<Flow>, f: Flow, key: Flow -> Option<K>, k: K)
    ensures SumOf(flows + [f], key, k) ==
      if Counted(f) && key(f) == Some(k) then SumOf(flows, key, k).Merge(Info(f)) else SumOf(flows, key, k)
  {
    assert (flows + [f])[..|flows|] == flows;
  }

  lemma {:induction false} SumOfConcat<K>(a: seq<Flow>, b: seq<Flow>, key: Flow -> Option<K>, k: K)
    ensures SumOf(a + b, key, k) == SumOf(a, key, k).Merge(SumOf(b, key, k))
  {
    if b == [] {
      assert a + b == a;
    } else {
      var init, f := b[..|b| - 1], b[|b| - 1];
      assert b == init + [f];
      assert a + b == (a + init) + [f];
      SumOfConcat(a, init, key, k);
      SumOfSnoc(a + init, f, key, k);
      SumOfSnoc(init, f, key, k);
    }
  }

  /** Row-wise sum of two keyed views. */
  ghost function MergeMaps<K>(a: map<K, DataInfo>, b: map<K, DataInfo>): map<K, DataInfo> {
    map k | k in a.Keys + b.Keys :: (if k in a then a[k] else ZERO).Merge(if k in b then b[k] else ZERO)
  }

  lemma OccursInConcat<K>(a: seq<Flow>, b: seq<Flow>, key: Flow -> Option<K>, k: K)
    ensures Occurs(a + b, key, k) <==> Occurs(a, key, k) || Occurs(b, key, k)
  {
    if Occurs(a + b, key, k) {
      var f :| f in a + b && Counted(f) && key(f) == Some(k);
      assert f in a || f in b;
    }
    if Occurs(a, key, k) {
      var f :| f in a && Counted(f) && key(f) == Some(k);
      assert f in a + b;
    }
    if Occurs(b, key, k) {
      var f :| f in b && Counted(f) && key(f) == Some(k);
      assert f in a + b;
    }
  }

  ghost predicate SameRow<K>(m: map<K, DataInfo>, g: map<K, DataInfo>, k: K) {
    (k in m <==> k in g) && (k in m ==> m[k] == g[k])
  }

  lemma SameRowsSameMap<K>(m: map<K, DataInfo>, g: map<K, DataInfo>)
    requires forall k {:trigger SameRow(m, g, k)} :: SameRow(m, g, k)
    ensures m == g
  {
    assert forall k :: k in m ==> SameRow(m, g, k);
    assert forall k :: k in g ==> SameRow(m, g, k);
  }

  lemma MergedRow<K>(a: seq<Flow>, b: seq<Flow>, key: Flow -> Option<K>, k: K)
    ensures SameRow(MergeMaps(GroupBy(b, key), GroupBy(a, key)), GroupBy(a + b, key), k)
  {
    GroupByMeaning(a, key, k);
    GroupByMeaning(b, key, k);
    GroupByMeaning(a + b, key, k);
    SumOfConcat(a, b, key, k);
    OccursInConcat(a, b, key, k);
  }

  /** Merging the views of two stretches of time is the view of both together. */
  lemma MergeIsConcat<K>(a: seq<Flow>, b: seq<Flow>, key: Flow -> Option<K>)
    ensures MergeMaps(GroupBy(b, key), GroupBy(a, key)) == GroupBy(a + b, key)
  {
    var m, g := MergeMaps(GroupBy(b, key), GroupBy(a, key)), GroupBy(a + b, key);
    forall k
      ensures SameRow(m, g, k)
    {
      MergedRow(a, b, key, k);
    }
    SameRowsSameMap(m, g);
  }

  /** A key every counted flow has: the totals row. */
  function Everything(f: Flow): Option<()> {
    Some(())
  }

  // ----- conservation -----

  /** `ks` lists the rows of the view, each once. */
  ghost predicate Lists<K>(m: map<K, DataInfo>, ks: seq<K>) {
    && m.Keys == (set k | k in ks)
    && (forall i, j :: 0 <= i < j < |ks| ==> ks[i] != ks[j])
  }

  /** The sum of the listed rows. */
  ghost function RowSum<K>(m: map<K, DataInfo>, ks: seq<K>): DataInfo
    requires forall k :: k in ks ==> k in m
  {
    if ks == [] then ZERO else RowSum(m, ks[..|ks| - 1]).Merge(m[ks[|ks| - 1]])
  }

  function Without<K>(ks: seq<K>, i: nat): seq<K>
    requires i < |ks|
  {
    ks[..i] + ks[i + 1..]
  }

  lemma {:induction false} RowSumSplit<K>(m: map<K, DataInfo>, ks: seq<K>, i: nat)
    requires (forall k :: k in ks ==> k in m) && i < |ks|
    ensures RowSum(m, ks) == RowSum(m, Without(ks, i)).Merge(m[ks[i]])
  {
    var n := |ks| - 1;
    if i == n {
      assert Without(ks, i) == ks[..n];
    } else {
      var init, rest := ks[..n], Without(ks, i);
      RowSumSplit(m, init, i);
      assert rest[..|rest| - 1] == Without(init, i);
      assert rest[|rest| - 1] == ks[n];
    }
  }

  lemma {:induction false} RowSumSame<K>(m: map<K, DataInfo>, m': map<K, DataInfo>, ks: seq<K>)
    requires forall k :: k in ks ==> k in m && k in m' && m[k] == m'[k]
    ensures RowSum(m, ks) == RowSum(m', ks)
  {
    if ks != [] {
      RowSumSame(m, m', ks[..|ks| - 1]);
    }
  }

  /** The sum of the counted flows that have a key on the axis. */
  ghost function SumKeyed<K>(flows: seq<Flow>, key: Flow -> Option<K>): DataInfo {
    if flows == [] then ZERO else
      var s, f := SumKeyed(flows[..|flows| - 1], key), flows[|flows| - 1];
      if Counted(f) && key(f).Some? then s.Merge(Info(f)) else s
  }

  lemma WithoutLists<K>(m: map<K, DataInfo>, ks: seq<K>, i: nat)
    requires Lists(m, ks) && i < |ks|
    ensures ks[i] !in Without(ks, i)
    ensures forall k :: k in Without(ks, i) <==> k in m && k != ks[i]
    ensures forall x, y :: 0 <= x < y < |Without(ks, i)| ==> Without(ks, i)[x] != Without(ks, i)[y]
  {
    var rest := Without(ks, i);
    forall k | k in m && k != ks[i]
      ensures k in rest
    {
      var j :| 0 <= j < |ks| && ks[j] == k;
      assert rest[if j < i then j else j - 1] == k;
    }
  }

  lemma KeyIsListed<K>(m: map<K, DataInfo>, ks: seq<K>, k: K) returns (i: nat)
    requires Lists(m, ks) && k in m
    ensures i < |ks| && ks[i] == k
  {
    assert k in m.Keys;
    i :| 0 <= i < |ks| && ks[i] == k;
  }

  lemma {:induction false} BumpSplits<K>(m: map<K, DataInfo>, k: K, d: DataInfo, ks: seq<K>, i: nat)
    requires Lists(Bump(m, k, d), ks) && i < |ks| && ks[i] == k
    ensures (forall x :: x in Without(ks, i) ==> x in m)
    ensures RowSum(Bump(m, k, d), ks) == RowSum(m, Without(ks, i)).Merge(Bump(m, k, d)[k])
  {
    var m' := Bump(m, k, d);
    WithoutLists(m', ks, i);
    RowSumSplit(m', ks, i);
    RowSumSame(m, m', Without(ks, i));
  }

  lemma {:induction false} BumpOldRow<K>(m: map<K, DataInfo>, k: K, d: DataInfo, ks: seq<K>)
    requires Lists(Bump(m, k, d), ks) && k in m
    ensures Lists(m, ks) && RowSum(Bump(m, k, d), ks) == RowSum(m, ks).Merge(d)
  {
    var i := KeyIsListed(Bump(m, k, d), ks, k);
    assert m.Keys == Bump(m, k, d).Keys;
    BumpSplits(m, k, d, ks, i);
    RowSumSplit(m, ks, i);
  }

  lemma {:induction false} BumpNewRow<K>(m: map<K, DataInfo>, k: K, d: DataInfo, ks: seq<K>) returns (before: seq<K>)
    requires Lists(Bump(m, k, d), ks) && k !in m
    ensures Lists(m, before) && RowSum(Bump(m, k, d), ks) == RowSum(m, before).Merge(d)
  {
    var i := KeyIsListed(Bump(m, k, d), ks, k);
    BumpSplits(m, k, d, ks, i);
    WithoutLists(Bump(m, k, d), ks, i);
    before := Without(ks, i);
    assert m.Keys == (set x | x in before);
  }

  /** The rows of an axis add up to exactly the flows that have a key on it. */
  lemma {:induction false} RowsAddUp<K>(flows: seq<Flow>, key: Flow -> Option<K>, ks: seq<K>)
    requires Lists(GroupBy(flows, key), ks)
    ensures RowSum(GroupBy(flows, key), ks) == SumKeyed(flows, key)
    decreases |flows|
  {
    if flows == [] {
      assert forall i :: 0 <= i < |ks| ==> ks[i] in GroupBy(flows, key).Keys;
    } else {
      var init, f := flows[..|flows| - 1], flows[|flows| - 1];
      if Counted(f) && key(f).Some? {
        var m, k := GroupBy(init, key), key(f).value;
        if k in m {
          BumpOldRow(m, k, Info(f), ks);
          RowsAddUp(init, key, ks);
        } else {
          var before := BumpNewRow(m, k, Info(f), ks);
          RowsAddUp(init, key, before);
        }
      } else {
        RowsAddUp(init, key, ks);
      }
    }
  }

  lemma SumKeyedSnoc<K>(flows: seq<Flow>, f: Flow, key: Flow -> Option<K>)
    ensures SumKeyed(flows + [f], key) ==
      if Counted(f) && key(f).Some? then SumKeyed(flows, key).Merge(Info(f)) else SumKeyed(flows, key)
  {
    assert (flows + [f])[..|flows|] == flows;
  }

  lemma {:induction false} SumKeyedConcat<K>(a: seq<Flow>, b: seq<Flow>, key: Flow -> Option<K>)
    ensures SumKeyed(a + b, key) == SumKeyed(a, key).Merge(SumKeyed(b, key))
  {
    if b == [] {
      assert a + b == a;
    } else {
      var init, f := b[..|b| - 1], b[|b| - 1];
      assert b == init + [f];
      assert a + b == (a + init) + [f];
      SumKeyedConcat(a, init, key);
      SumKeyedSnoc(a + init, f, key);
      SumKeyedSnoc(init, f, key);
    }
  }

  lemma {:induction false} SumKeyedMonotone<K, L>(flows: seq<Flow>, p: Flow -> Option<K>, q: Flow -> Option<L>)
    requires forall f :: p(f).Some? ==> q(f).Some?
    ensures SumKeyed(flows, p).AtMost(SumKeyed(flows, q))
    ensures (forall f :: q(f).Some? ==> p(f).Some?) ==> SumKeyed(flows, p) == SumKeyed(flows, q)
  {
    if flows != [] {
      SumKeyedMonotone(flows[..|flows| - 1], p, q);
    }
  }

  /** The host axis covers exactly the flows with an addressed remote peer, and the country
      axis never exceeds it; neither exceeds the totals. */
  lemma {:induction false} AxesAreConserved(flows: seq<Flow>, hosts: seq<HostKey>, countries: seq<string>)
    requires Lists(GroupBy(flows, HostOf), hosts) && Lists(GroupBy(flows, CountryOf), countries)
    ensures RowSum(GroupBy(flows, HostOf), hosts) == SumKeyed(flows, PeerOf)
    ensures RowSum(GroupBy(flows, CountryOf), countries).AtMost(RowSum(GroupBy(flows, HostOf), hosts))
    ensures RowSum(GroupBy(flows, HostOf), hosts).AtMost(SumKeyed(flows, Everything))
  {
    RowsAddUp(flows, HostOf, hosts);
    RowsAddUp(flows, CountryOf, countries);
    SumKeyedMonotone(flows, HostOf, PeerOf);
    SumKeyedMonotone(flows, CountryOf, HostOf);
    SumKeyedMonotone(flows, HostOf, Everything);
  }
}
