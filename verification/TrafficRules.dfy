// What every figure of a report counts, written out on the fields of the flows.
module TrafficRules {
  import opened Options
  import opened Traffic
  import opened Buckets
  import opened RollingWindow

  // ----- one flow -----

  /** Towards a home host from anywhere else. All other flows count as outgoing. */
  predicate Download(f: Flow) {
    f.dstHome == Some(true) && f.srcHome != Some(true)
  }

  predicate HasBytes(f: Flow) {
    f.octets.Some? && f.octets.value > 0
  }

  /** A home host sends to another place: the bytes go out, the peer is the destination. */
  lemma UploadIsAttributed(f: Flow)
    requires HasBytes(f) && f.srcHome == Some(true) && f.dstHome != Some(true)
    ensures Info(f) == DataInfo(0, f.octets.value, 0, OrElse(f.packets, 0))
    ensures PeerOf(f) == f.dstAddr && PeerCountry(f) == f.dstCountry && LanOf(f) == f.srcAddr
    ensures PeerAs(f) == if f.dstAs.Some? && f.dstAs.value > 0 then f.dstAs.value else 0
  {
  }

  /** A home host receives from another place: the bytes come in, the peer is the source. */
  lemma DownloadIsAttributed(f: Flow)
    requires HasBytes(f) && f.srcHome != Some(true) && f.dstHome == Some(true)
    ensures Info(f) == DataInfo(f.octets.value, 0, OrElse(f.packets, 0), 0)
    ensures PeerOf(f) == f.srcAddr && PeerCountry(f) == f.srcCountry && LanOf(f) == f.dstAddr
    ensures PeerAs(f) == if f.srcAs.Some? && f.srcAs.value > 0 then f.srcAs.value else 0
  {
  }

  /** Between home hosts: the bytes go out, and there is no peer. */
  lemma InternalIsAttributed(f: Flow)
    requires HasBytes(f) && f.srcHome == Some(true) && f.dstHome == Some(true)
    ensures Info(f) == DataInfo(0, f.octets.value, 0, OrElse(f.packets, 0))
    ensures PeerOf(f) == None && CountryOf(f) == None && HostOf(f) == None && LanOf(f) == f.srcAddr
  {
  }

  /** Between other places: the bytes go out, the peer is the destination, and no home host is named. */
  lemma TransitIsAttributed(f: Flow)
    requires HasBytes(f) && f.srcHome != Some(true) && f.dstHome != Some(true)
    ensures Info(f) == DataInfo(0, f.octets.value, 0, OrElse(f.packets, 0))
    ensures PeerOf(f) == f.dstAddr && PeerCountry(f) == f.dstCountry && LanOf(f) == None
    ensures PeerAs(f) == if f.dstAs.Some? && f.dstAs.value > 0 then f.dstAs.value else 0
  {
  }

  // ----- sums over the window -----

  /** The bytes of the selected flows. */
  ghost function Octets(flows: seq<Flow>, pick: Flow -> bool): nat {
    if flows == [] then 0 else
      var f := flows[|flows| - 1];
      Octets(flows[..|flows| - 1], pick) + if HasBytes(f) && pick(f) then f.octets.value else 0
  }

  /** Their packets. */
  ghost function Packets(flows: seq<Flow>, pick: Flow -> bool): nat {
    if flows == [] then 0 else
      var f := flows[|flows| - 1];
      Packets(flows[..|flows| - 1], pick) + if HasBytes(f) && pick(f) && f.packets.Some? then f.packets.value else 0
  }

  ghost function Counts(flows: seq<Flow>, down: Flow -> bool, up: Flow -> bool): DataInfo {
    DataInfo(Octets(flows, down), Octets(flows, up), Packets(flows, down), Packets(flows, up))
  }

  /** Some flow with bytes is selected. */
  ghost predicate Picked(flows: seq<Flow>, down: Flow -> bool, up: Flow -> bool) {
    exists f :: f in flows && HasBytes(f) && (down(f) || up(f))
  }

  /** A flow with key `k` is selected by `down` when it comes in, and by `up` when it goes out. */
  ghost predicate Splits<K(!new)>(key: Flow -> Option<K>, k: K, down: Flow -> bool, up: Flow -> bool) {
    forall f :: HasBytes(f) ==>
      && (down(f) <==> key(f) == Some(k) && Download(f))
      && (up(f) <==> key(f) == Some(k) && !Download(f))
  }

  lemma {:induction false} SumIsCounts<K(!new)>(flows: seq<Flow>, key: Flow -> Option<K>, k: K, down: Flow -> bool, up: Flow -> bool)
    requires Splits(key, k, down, up)
    ensures SumOf(flows, key, k) == Counts(flows, down, up)
  {
    if flows != [] {
      SumIsCounts(flows[..|flows| - 1], key, k, down, up);
      var f := flows[|flows| - 1];
      assert HasBytes(f) <==> Counted(f);
    }
  }

  /** A row of a group-by: it is there exactly when some flow is selected, and counts just these. */
  lemma RowIsCounts<K(!new)>(flows: seq<Flow>, key: Flow -> Option<K>, k: K, down: Flow -> bool, up: Flow -> bool)
    requires Splits(key, k, down, up)
    ensures k in GroupBy(flows, key) <==> Picked(flows, down, up)
    ensures k in GroupBy(flows, key) ==> GroupBy(flows, key)[k] == Counts(flows, down, up)
  {
    GroupByMeaning(flows, key, k);
    SumIsCounts(flows, key, k, down, up);
    assert forall f: Flow :: HasBytes(f) <==> Counted(f);
    if Picked(flows, down, up) {
      var f :| f in flows && HasBytes(f) && (down(f) || up(f));
      assert f in flows && Counted(f) && key(f) == Some(k);
    }
    if Occurs(flows, key, k) {
      var f :| f in flows && Counted(f) && key(f) == Some(k);
      assert HasBytes(f) && (down(f) || up(f));
    }
  }

  lemma {:induction false} KeyedIsSum(flows: seq<Flow>)
    ensures SumKeyed(flows, Everything) == SumOf(flows, Everything, ())
  {
    if flows != [] {
      KeyedIsSum(flows[..|flows| - 1]);
    }
  }

  // ----- the rows of a report -----

  function AllIn(): Flow -> bool {
    (f: Flow) => f.dstHome == Some(true) && f.srcHome != Some(true)
  }

  function AllOut(): Flow -> bool {
    (f: Flow) => f.dstHome != Some(true) || f.srcHome == Some(true)
  }

  /** The total splits the window's flows by direction. */
  lemma TotalsCount(r: Report, history: seq<seq<Flow>>, w: nat)
    requires Sums(r, history, w)
    ensures r.total == Counts(Recent(history, w), AllIn(), AllOut())
  {
    KeyedIsSum(Recent(history, w));
    SumIsCounts(Recent(history, w), Everything, (), AllIn(), AllOut());
  }

  function LanIn(ip: string): Flow -> bool {
    (f: Flow) => f.dstHome == Some(true) && f.srcHome != Some(true) && f.dstAddr == Some(ip)
  }

  function LanOut(ip: string): Flow -> bool {
    (f: Flow) => f.srcHome == Some(true) && f.srcAddr == Some(ip)
  }

  /** The row of a home host counts what it received from elsewhere and what it sent to anyone. */
  lemma LanRowsCount(r: Report, history: seq<seq<Flow>>, w: nat, ip: string)
    requires Sums(r, history, w)
    ensures ip in r.src <==> Picked(Recent(history, w), LanIn(ip), LanOut(ip))
    ensures ip in r.src ==> r.src[ip] == Counts(Recent(history, w), LanIn(ip), LanOut(ip))
  {
    RowIsCounts(Recent(history, w), LanOf, ip, LanIn(ip), LanOut(ip));
  }

  function ServiceIn(name: string): Flow -> bool {
    (f: Flow) => f.dstHome == Some(true) && f.srcHome != Some(true) && f.service == Some(name)
  }

  function ServiceOut(name: string): Flow -> bool {
    (f: Flow) => (f.dstHome != Some(true) || f.srcHome == Some(true)) && f.service == Some(name)
  }

  /** The row of a service counts the flows that name it, by direction. */
  lemma ServiceRowsCount(r: Report, history: seq<seq<Flow>>, w: nat, name: string)
    requires Sums(r, history, w)
    ensures name in r.service <==> Picked(Recent(history, w), ServiceIn(name), ServiceOut(name))
    ensures name in r.service ==> r.service[name] == Counts(Recent(history, w), ServiceIn(name), ServiceOut(name))
  {
    RowIsCounts(Recent(history, w), ServiceOf, name, ServiceIn(name), ServiceOut(name));
  }

  function CountryIn(name: string): Flow -> bool {
    (f: Flow) => f.dstHome == Some(true) && f.srcHome != Some(true) && f.srcAddr != None && f.srcCountry == Some(name)
  }

  function CountryOut(name: string): Flow -> bool {
    (f: Flow) => f.dstHome != Some(true) && f.dstAddr != None && f.dstCountry == Some(name)
  }

  /** The row of a country counts what came in from there and what went out to there, except to
      home hosts, and only flows whose remote address is known. */
  lemma CountryRowsCount(r: Report, history: seq<seq<Flow>>, w: nat, name: string)
    requires Sums(r, history, w)
    ensures name in r.country <==> Picked(Recent(history, w), CountryIn(name), CountryOut(name))
    ensures name in r.country ==> r.country[name] == Counts(Recent(history, w), CountryIn(name), CountryOut(name))
  {
    RowIsCounts(Recent(history, w), CountryOf, name, CountryIn(name), CountryOut(name));
  }

  /** The key of a host: the application, or else the address; the autonomous system, 0 when there
      is none; the country. */
  predicate IsHost(app: Option<string>, addr: Option<string>, asn: Option<int>, country: Option<string>, key: HostKey) {
    && addr.Some?
    && key.name == (if app.Some? then app.value else addr.value)
    && key.asn == (if asn.Some? && asn.value > 0 then asn.value else 0)
    && key.country == (if country.Some? then country.value else "")
  }

  function HostIn(key: HostKey): Flow -> bool {
    (f: Flow) => f.dstHome == Some(true) && f.srcHome != Some(true) && IsHost(f.app, f.srcAddr, f.srcAs, f.srcCountry, key)
  }

  function HostOut(key: HostKey): Flow -> bool {
    (f: Flow) => f.dstHome != Some(true) && IsHost(f.app, f.dstAddr, f.dstAs, f.dstCountry, key)
  }

  /** The host rows are keyed by the remote end. */
  lemma HostRowsCount(r: Report, history: seq<seq<Flow>>, w: nat, key: HostKey)
    requires Sums(r, history, w)
    ensures key in r.host <==> Picked(Recent(history, w), HostIn(key), HostOut(key))
    ensures key in r.host ==> r.host[key] == Counts(Recent(history, w), HostIn(key), HostOut(key))
  {
    RowIsCounts(Recent(history, w), HostOf, key, HostIn(key), HostOut(key));
  }

  // ----- the capped peer axis -----

  /** The remote addresses of a second. */
  ghost function Peers(flows: seq<Flow>): set<string> {
    if flows == [] then {} else
      var f := flows[|flows| - 1];
      Peers(flows[..|flows| - 1]) +
      if !HasBytes(f) || (f.srcHome == Some(true) && f.dstHome == Some(true)) then {}
      else if f.dstHome == Some(true) then (if f.srcAddr.Some? then {f.srcAddr.value} else {})
      else if f.dstAddr.Some? then {f.dstAddr.value} else {}
  }

  lemma SetGrows(s: set<string>, t: set<string>)
    requires s <= t
    ensures |s| <= |t| && (s != t ==> |s| < |t|)
  {
    var rest := t - s;
    assert t == s + rest;
    assert s != t ==> rest != {};
  }

  /** A second keeps rows for at most 4000 peers, and for all its peers exactly when there are no
      more than that. */
  lemma {:induction false} CapIsExact(flows: seq<Flow>)
    ensures Admitted(flows) <= Peers(flows) && |Admitted(flows)| <= 4000
    ensures Admitted(flows) == Peers(flows) <==> |Peers(flows)| <= 4000
  {
    if flows != [] {
      var init, f := flows[..|flows| - 1], flows[|flows| - 1];
      CapIsExact(init);
      assert HasBytes(f) <==> Counted(f);
      var (a, p) := (Admitted(init), Peers(init));
      SetGrows(a, p);
      SetGrows(p, Peers(flows));
      SetGrows(Admitted(flows), Peers(flows));
      if Counted(f) && PeerOf(f).Some? {
        var ip := PeerOf(f).value;
        assert Peers(flows) == p + {ip};
        assert ip in a ==> a + {ip} == a;
        assert ip !in a ==> |a + {ip}| == |a| + 1;
        assert ip in p ==> p + {ip} == p;
        assert ip !in p ==> |p + {ip}| == |p| + 1;
      } else {
        assert Peers(flows) == p + {};
      }
    }
  }

  lemma {:induction false} PeersOccur(flows: seq<Flow>, ip: string)
    ensures ip in Peers(flows) <==> Occurs(flows, PeerOf, ip)
  {
    if flows != [] {
      var init, f := flows[..|flows| - 1], flows[|flows| - 1];
      PeersOccur(init, ip);
      assert flows == init + [f];
      OccursInConcat(init, [f], PeerOf, ip);
      assert HasBytes(f) <==> Counted(f);
      assert Occurs([f], PeerOf, ip) <==> Counted(f) && PeerOf(f) == Some(ip) by {
        assert f in [f];
      }
    }
  }

  lemma FullSecond(second: seq<Flow>, ip: string)
    requires |Peers(second)| <= 4000
    ensures Kept(second, ip)
  {
    CapIsExact(second);
    PeersOccur(second, ip);
    GroupByMeaning(second, PeerOf, ip);
  }

  lemma {:induction false} FullWindow(history: seq<seq<Flow>>, w: nat, ip: string)
    requires forall i :: 0 <= i < w ==> |Peers(Second(history, i))| <= 4000
    ensures PlainRow(WindowRow(history, w, ip), Recent(history, w), ip)
  {
    if w > 0 {
      FullWindow(history, w - 1, ip);
      FullSecond(Second(history, w - 1), ip);
      PlainRowStep(WindowRow(history, w - 1, ip), Second(history, w - 1), Recent(history, w - 1), ip);
    }
  }

  function PeerIn(ip: string): Flow -> bool {
    (f: Flow) => f.dstHome == Some(true) && f.srcHome != Some(true) && f.srcAddr == Some(ip)
  }

  function PeerOut(ip: string): Flow -> bool {
    (f: Flow) => f.dstHome != Some(true) && f.dstAddr == Some(ip)
  }

  /** As long as no second of the window has more than 4000 peers, the row of a remote address
      counts what came in from it and what went out to it, except to home hosts. */
  lemma PeerRowsCount(r: Report, history: seq<seq<Flow>>, w: nat, ip: string)
    requires Sums(r, history, w) && forall i :: 0 <= i < w ==> |Peers(Second(history, i))| <= 4000
    ensures ip in r.dst <==> Picked(Recent(history, w), PeerIn(ip), PeerOut(ip))
    ensures ip in r.dst ==> r.dst[ip].data == Counts(Recent(history, w), PeerIn(ip), PeerOut(ip))
  {
    var flows := Recent(history, w);
    assert DstIsWindow(r.dst, history, w, ip);
    FullWindow(history, w, ip);
    RowIsCounts(flows, PeerOf, ip, PeerIn(ip), PeerOut(ip));
    SumIsCounts(flows, PeerOf, ip, PeerIn(ip), PeerOut(ip));
    GroupByMeaning(flows, PeerOf, ip);
  }

  /** The first country known of a remote address in a second. */
  ghost function FirstKnown(flows: seq<Flow>, ip: string): Option<string> {
    if flows == [] then None else
      var earlier, f := FirstKnown(flows[..|flows| - 1], ip), flows[|flows| - 1];
      if earlier.Some? || !HasBytes(f) then earlier
      else if PeerIn(ip)(f) then f.srcCountry
      else if PeerOut(ip)(f) then f.dstCountry
      else None
  }

  /** The one of the latest second that knows any. */
  ghost function LatestCountry(history: seq<seq<Flow>>, w: nat, ip: string): Option<string> {
    if w == 0 then None
    else if LatestCountry(history, w - 1, ip).Some? then LatestCountry(history, w - 1, ip)
    else FirstKnown(Second(history, w - 1), ip)
  }

  lemma {:induction false} FirstKnownIsFirst(flows: seq<Flow>, ip: string)
    ensures FirstKnown(flows, ip) == FirstCountry(flows, ip)
    ensures FirstKnown(flows, ip).Some? ==> Occurs(flows, PeerOf, ip)
  {
    if flows != [] {
      var init, f := flows[..|flows| - 1], flows[|flows| - 1];
      FirstKnownIsFirst(init, ip);
      assert flows == init + [f];
      OccursInConcat(init, [f], PeerOf, ip);
      assert HasBytes(f) <==> Counted(f);
      assert f in [f];
    }
  }

  lemma {:induction false} WindowCountry(history: seq<seq<Flow>>, w: nat, ip: string)
    requires forall i :: 0 <= i < w ==> |Peers(Second(history, i))| <= 4000
    ensures LatestCountry(history, w, ip) == match WindowRow(history, w, ip) case None => None case Some(row) => row.country
  {
    if w > 0 {
      WindowCountry(history, w - 1, ip);
      FirstKnownIsFirst(Second(history, w - 1), ip);
      FullSecond(Second(history, w - 1), ip);
    }
  }

  /** The country shown for a remote address is the latest second's first known one. */
  lemma PeerRowsShowCountry(r: Report, history: seq<seq<Flow>>, w: nat, ip: string)
    requires Sums(r, history, w) && forall i :: 0 <= i < w ==> |Peers(Second(history, i))| <= 4000
    ensures ip in r.dst ==> r.dst[ip].country == LatestCountry(history, w, ip)
  {
    assert DstIsWindow(r.dst, history, w, ip);
    WindowCountry(history, w, ip);
  }

  // ----- the window -----

  /** Half away from zero, to the nearest whole number. */
  lemma RoundingIsHalfAway(x: real)
    ensures x >= 0.0 ==> x - 0.5 < Round(x) as real <= x + 0.5
    ensures x <= 0.0 ==> x - 0.5 <= Round(x) as real < x + 0.5
  {
  }

  /** The window is rounded to whole seconds, half a second upwards, and kept between 1 and 600. */
  lemma SecondsAreRounded(window: real)
    ensures window < 1.5 ==> Seconds(window) == 1
    ensures window >= 599.5 ==> Seconds(window) == 600
    ensures 1.5 <= window < 599.5 ==> 1 < Seconds(window) < 600 && -0.5 < Seconds(window) as real - window <= 0.5
  {
  }

  /** The three rates of a report, both ways together first. */
  lemma RatesCount(r: Report, history: seq<seq<Flow>>, window: real)
    requires Sums(r, history, Seconds(window)) && Rated(r, window)
    ensures var flows := Recent(history, Seconds(window));
      && r.bps == Bps(Octets(flows, AllIn()) + Octets(flows, AllOut()), window)
      && r.bpsIn == Bps(Octets(flows, AllIn()), window) && r.bpsOut == Bps(Octets(flows, AllOut()), window)
  {
    TotalsCount(r, history, Seconds(window));
  }

  /** A rate is eight times the bytes by the seconds, to the nearest whole number, as far as 64 bits
      hold it. */
  lemma RatesAreRounded(bytes: nat, window: real)
    ensures window == 0.0 ==> Bps(bytes, window) == if bytes == 0 then 0 else 0x7FFF_FFFF_FFFF_FFFF
    ensures -0x8000_0000_0000_0000 <= Bps(bytes, window) <= 0x7FFF_FFFF_FFFF_FFFF
    ensures window != 0.0 && Bps(bytes, window) == 0x7FFF_FFFF_FFFF_FFFF ==> 8.0 * bytes as real / window >= 9223372036854775806.5
    ensures window != 0.0 && Bps(bytes, window) == -0x8000_0000_0000_0000 ==> 8.0 * bytes as real / window <= -9223372036854775807.5
    ensures window != 0.0 && -0x8000_0000_0000_0000 < Bps(bytes, window) < 0x7FFF_FFFF_FFFF_FFFF ==>
      -0.5 <= Bps(bytes, window) as real - 8.0 * bytes as real / window <= 0.5
  {
    if window != 0.0 {
      RoundIsNear(8.0 * bytes as real / window);
    }
  }

  /** The top rows are those with the most bytes both ways, most first. */
  lemma TopHasTheMostBytes<K>(m: map<K, DataInfo>, n: nat, ks: seq<K>)
    requires IsTop(m, n, ks)
    ensures |ks| == (if n <= |m.Keys| then n else |m.Keys|) && forall k :: k in ks ==> k in m
    ensures forall i, j :: 0 <= i < j < |ks| ==>
      ks[i] != ks[j] && m[ks[i]].inBytes + m[ks[i]].outBytes >= m[ks[j]].inBytes + m[ks[j]].outBytes
    ensures forall k, i :: k in m && k !in ks && 0 <= i < |ks| ==>
      m[k].inBytes + m[k].outBytes <= m[ks[i]].inBytes + m[ks[i]].outBytes
  {
  }
}
