// The aggregator object, and what a snapshot of the trailing window says.
module RollingWindow {
  import opened Options
  import opened Traffic
  import opened Buckets

  // ----- the window as a replay -----

  /** The row of peer `ip` over the last `w` seconds: summed over the seconds that admitted
      the peer; the newest known country wins. */
  ghost function WindowRow(history: seq<seq<Flow>>, w: nat, ip: string): Option<DstRow> {
    if w == 0 then None else
      var newer, second := WindowRow(history, w - 1, ip), Second(history, w - 1);
      if ip !in Admitted(second) then newer else
        Some(JoinRows(newer, DstRow(SumOf(second, PeerOf, ip), FirstCountry(second, ip))))
  }

  /** `or_insert((default, c))`, merge, and fill in a missing country. */
  function JoinRows(newer: Option<DstRow>, row: DstRow): DstRow {
    var e := OrElse(newer, DstRow(ZERO, row.country));
    DstRow(e.data.Merge(row.data), if e.country.None? then row.country else e.country)
  }

  lemma SecondSplits(a: seq<Flow>, b: seq<Flow>, ip: string)
    ensures SumOf(a + b, PeerOf, ip) == SumOf(a, PeerOf, ip).Merge(SumOf(b, PeerOf, ip))
    ensures Occurs(a + b, PeerOf, ip) <==> Occurs(a, PeerOf, ip) || Occurs(b, PeerOf, ip)
  {
    SumOfConcat(a, b, PeerOf, ip);
    OccursInConcat(a, b, PeerOf, ip);
  }

  /** A peer row never exceeds what the window's flows with that peer add up to. */
  lemma {:induction false} WindowRowAtMost(history: seq<seq<Flow>>, w: nat, ip: string)
    ensures WindowRow(history, w, ip).Some? ==>
      WindowRow(history, w, ip).value.data.AtMost(SumOf(Recent(history, w), PeerOf, ip))
  {
    if w > 0 {
      WindowRowAtMost(history, w - 1, ip);
      SecondSplits(Second(history, w - 1), Recent(history, w - 1), ip);
    }
  }

  lemma {:induction false} AdmittedOccurs(flows: seq<Flow>, ip: string)
    requires ip in Admitted(flows)
    ensures Occurs(flows, PeerOf, ip)
  {
    var init, f := flows[..|flows| - 1], flows[|flows| - 1];
    assert flows == init + [f];
    if ip in Admitted(init) {
      AdmittedOccurs(init, ip);
      var g :| g in init && Counted(g) && PeerOf(g) == Some(ip);
      assert g in flows;
    } else {
      assert f in flows;
    }
  }

  /** The second keeps a row for peer `ip` if it occurs at all. */
  ghost predicate Kept(second: seq<Flow>, ip: string) {
    && (ip in Admitted(second) <==> Occurs(second, PeerOf, ip))
    && (ip !in Admitted(second) ==> SumOf(second, PeerOf, ip) == ZERO)
  }

  lemma SecondBelowCap(second: seq<Flow>, ip: string)
    requires |Admitted(second)| < DST_CAP
    ensures Kept(second, ip)
  {
    if ip in Admitted(second) {
      AdmittedOccurs(second, ip);
    } else {
      BelowCapAllAdmitted(second, ip);
    }
  }

  /** The row is the group-by row of the window's flows. */
  ghost predicate PlainRow(row: Option<DstRow>, flows: seq<Flow>, ip: string) {
    && (row.Some? <==> Occurs(flows, PeerOf, ip))
    && SumOf(flows, PeerOf, ip) == (if row.Some? then row.value.data else ZERO)
  }

  lemma {:induction false} PlainRowStep(newer: Option<DstRow>, second: seq<Flow>, recent: seq<Flow>, ip: string)
    requires Kept(second, ip) && PlainRow(newer, recent, ip)
    ensures ip !in Admitted(second) ==> PlainRow(newer, second + recent, ip)
    ensures ip in Admitted(second) ==>
      PlainRow(Some(JoinRows(newer, DstRow(SumOf(second, PeerOf, ip), FirstCountry(second, ip)))), second + recent, ip)
  {
    SecondSplits(second, recent, ip);
    var (s, r) := (SumOf(second, PeerOf, ip), SumOf(recent, PeerOf, ip));
    MergeCommutes(s, r);
    if ip in Admitted(second) {
      var row := JoinRows(newer, DstRow(s, FirstCountry(second, ip)));
      assert row.data == r.Merge(s);
    } else {
      ZeroIsNeutral(r);
    }
  }

  lemma ZeroIsNeutral(a: DataInfo)
    ensures ZERO.Merge(a) == a
  {
  }

  lemma MergeCommutes(a: DataInfo, b: DataInfo)
    ensures a.Merge(b) == b.Merge(a)
  {
  }

  /** When no second of the window reaches the cap, the peer axis is the plain group-by. */
  lemma {:induction false} WindowRowBelowCap(history: seq<seq<Flow>>, w: nat, ip: string)
    requires forall i :: 0 <= i < w ==> |Admitted(Second(history, i))| < DST_CAP
    ensures PlainRow(WindowRow(history, w, ip), Recent(history, w), ip)
  {
    if w > 0 {
      WindowRowBelowCap(history, w - 1, ip);
      SecondBelowCap(Second(history, w - 1), ip);
      PlainRowStep(WindowRow(history, w - 1, ip), Second(history, w - 1), Recent(history, w - 1), ip);
    }
  }

  // ----- folding maps -----

  /** `for (k, d) in &m { acc.entry(k).or_default().merge(d) }`, in whatever order the map yields. */
  method MergeInto<K(==)>(acc: map<K, DataInfo>, m: map<K, DataInfo>) returns (r: map<K, DataInfo>)
    ensures r == MergeMaps(acc, m)
  {
    r := acc;
    var rest := m.Keys;
    while rest != {}
      invariant rest <= m.Keys
      invariant r.Keys == acc.Keys + (m.Keys - rest)
      invariant forall k :: k in r ==>
        (r[k] == if k in rest || k !in m then acc[k] else (if k in acc then acc[k] else ZERO).Merge(m[k]))
      decreases rest
    {
      var k :| k in rest;
      r := Bump(r, k, m[k]);
      rest := rest - {k};
    }
    assert r.Keys == acc.Keys + m.Keys;
  }

  method MergeDst(acc: map<string, DstRow>, m: map<string, DstRow>) returns (r: map<string, DstRow>)
    ensures r.Keys == acc.Keys + m.Keys
    ensures forall k :: k in r ==>
      (r[k] == if k !in m then acc[k] else JoinRows(if k in acc then Some(acc[k]) else None, m[k]))
  {
    r := acc;
    var rest := m.Keys;
    while rest != {}
      invariant rest <= m.Keys
      invariant r.Keys == acc.Keys + (m.Keys - rest)
      invariant forall k :: k in r ==>
        (r[k] == if k in rest || k !in m then acc[k] else JoinRows(if k in acc then Some(acc[k]) else None, m[k]))
      decreases rest
    {
      var k :| k in rest;
      var e := if k in r then r[k] else DstRow(ZERO, m[k].country);
      r := r[k := DstRow(e.data.Merge(m[k].data), if e.country.None? then m[k].country else e.country)];
      rest := rest - {k};
    }
  }

  // ----- top rows -----

  /** `ks` are `n` highest rows, highest first. */
  ghost predicate IsTop<K>(m: map<K, DataInfo>, n: nat, ks: seq<K>) {
    && |ks| == (if n <= |m| then n else |m|)
    && (forall i :: 0 <= i < |ks| ==> ks[i] in m)
    && (forall i, j :: 0 <= i < j < |ks| ==> ks[i] != ks[j] && m[ks[i]].Total() >= m[ks[j]].Total())
    && (forall k, i :: k in m.Keys && k !in ks && 0 <= i < |ks| ==> m[k].Total() <= m[ks[i]].Total())
  }

  /** The row at `i` is another one, and no lower, than the row at `j`. */
  ghost predicate Outranks<K>(m: map<K, DataInfo>, ks: seq<K>, i: nat, j: nat)
    requires i < |ks| && j < |ks|
  {
    ks[i] in m && ks[j] in m && ks[i] != ks[j] && m[ks[i]].Total() >= m[ks[j]].Total()
  }

  ghost predicate SortedRows<K>(m: map<K, DataInfo>, ks: seq<K>) {
    && (forall i :: 0 <= i < |ks| ==> ks[i] in m)
    && (forall i: nat, j: nat {:trigger Outranks(m, ks, i, j)} :: i < j < |ks| ==> Outranks(m, ks, i, j))
  }

  lemma InsertedIsSorted<K>(m: map<K, DataInfo>, ks: seq<K>, k: K, p: nat)
    requires SortedRows(m, ks) && k in m && k !in ks && p <= |ks|
    requires forall j :: 0 <= j < p ==> m[ks[j]].Total() >= m[k].Total()
    requires forall j :: p <= j < |ks| ==> m[ks[j]].Total() <= m[k].Total()
    ensures SortedRows(m, ks[..p] + [k] + ks[p..])
  {
    var r := ks[..p] + [k] + ks[p..];
    forall i: nat, j: nat | i < j < |r|
      ensures Outranks(m, r, i, j)
    {
      var (i0, j0) := (if i < p then i else i - 1, if j < p then j else j - 1);
      if i != p && j != p {
        assert Outranks(m, ks, i0, j0);
      } else {
        assert i == p ==> r[j] == ks[j0];
        assert j == p ==> r[i] == ks[i0];
      }
    }
  }

  method InsertRow<K(==)>(m: map<K, DataInfo>, ks: seq<K>, k: K) returns (r: seq<K>)
    requires SortedRows(m, ks) && k in m && k !in ks
    ensures SortedRows(m, r) && |r| == |ks| + 1
    ensures forall x :: x in r <==> x in ks || x == k
  {
    var p := |ks|;
    while p > 0 && m[ks[p - 1]].Total() < m[k].Total()
      invariant 0 <= p <= |ks|
      invariant forall j :: p <= j < |ks| ==> m[ks[j]].Total() < m[k].Total()
    {
      p := p - 1;
    }
    forall j | 0 <= j < p
      ensures m[ks[j]].Total() >= m[k].Total()
    {
      if j < p - 1 {
        assert Outranks(m, ks, j, p - 1);
      }
    }
    InsertedIsSorted(m, ks, k, p);
    r := ks[..p] + [k] + ks[p..];
    assert ks == ks[..p] + ks[p..];
  }

  /** Collect, sort by total bytes descending, keep the first `n`. */
  method Top<K(==)>(m: map<K, DataInfo>, n: nat) returns (ks: seq<K>)
    ensures IsTop(m, n, ks)
  {
    var all: seq<K> := [];
    var rest := m.Keys;
    while rest != {}
      invariant rest <= m.Keys && SortedRows(m, all) && |all| + |rest| == |m.Keys|
      invariant forall k :: k in m.Keys ==> (k in all <==> k !in rest)
      decreases rest
    {
      var k :| k in rest;
      all := InsertRow(m, all, k);
      rest := rest - {k};
    }
    ks := if n <= |all| then all[..n] else all;
    forall i, j | 0 <= i < j < |ks|
      ensures ks[i] != ks[j] && m[ks[i]].Total() >= m[ks[j]].Total()
    {
      assert Outranks(m, all, i, j);
    }
    forall k, i | k in m.Keys && k !in ks && 0 <= i < |ks|
      ensures m[k].Total() <= m[ks[i]].Total()
    {
      var j :| 0 <= j < |all| && all[j] == k;
      assert Outranks(m, all, i, j);
    }
  }

  // ----- the aggregator -----

  /** `(window.round() as usize).clamp(1, BUCKETS)`; rounding is half away from zero and
      negative values saturate at 0. */
  function Seconds(window: real): (w: nat)
    ensures 1 <= w <= BUCKETS
  {
    var r := if window >= 0.0 then (window + 0.5).Floor else 0;
    if r < 1 then 1 else if r > BUCKETS then BUCKETS else r
  }

  const I64_MAX: int := 0x7fff_ffff_ffff_ffff

  /** `.round()`, half away from zero. */
  function Round(x: real): int {
    if x >= 0.0 then (x + 0.5).Floor else -(0.5 - x).Floor
  }

  function ToI64(x: int): int {
    if x > I64_MAX then I64_MAX else if x < -I64_MAX - 1 then -I64_MAX - 1 else x
  }

  /** `(bytes as f64 * 8.0 / window).round() as i64`: a division by zero gives infinity, which
      saturates, or not a number, which is cast to 0. */
  function Bps(bytes: nat, window: real): int {
    if window == 0.0 then (if bytes == 0 then 0 else I64_MAX)
    else ToI64(Round(8.0 * bytes as real / window))
  }

  lemma RoundIsNear(x: real)
    ensures -0.5 <= Round(x) as real - x <= 0.5
  {
  }

  /** The rounded rate of `bytes` is within half a bit of the average over the seconds summed. */
  ghost predicate RateIsFair(bytes: nat, window: real)
    requires window != 0.0
  {
    -0.5 <= Round(8.0 * bytes as real / window) as real - 8.0 * bytes as real / Seconds(window) as real <= 0.5
  }

  /** Whatever was counted, the rounded rate is within half a bit of the average over the seconds
      that were summed, if and only if the window is one of the whole numbers 1 to 600. */
  lemma RateIsFairIff(window: real)
    requires window != 0.0
    ensures (forall bytes: nat :: RateIsFair(bytes, window)) <==> window == Seconds(window) as real
  {
    if window == Seconds(window) as real {
      forall bytes: nat
        ensures RateIsFair(bytes, window)
      {
        RoundIsNear(8.0 * bytes as real / window);
      }
    } else {
      var bytes := UnfairBytes(window, Seconds(window) as real);
      RoundIsNear(8.0 * bytes as real / window);
      assert !RateIsFair(bytes, window);
    }
  }

  /** For two different divisors, some count makes the quotients differ by more than one. */
  lemma UnfairBytes(v: real, w: real) returns (bytes: nat)
    requires v != 0.0 && w != 0.0 && v != w
    ensures var b := 8.0 * bytes as real; b / v - b / w > 1.0 || b / w - b / v > 1.0
  {
    var x := Reciprocal(v);
    var y := Reciprocal(w);
    var b;
    if x > y {
      bytes, b := EnoughFor(x, y);
    } else {
      SameReciprocal(v, w, x, y);
      bytes, b := EnoughFor(y, x);
    }
    DivideIsScale(b, v, x);
    DivideIsScale(b, w, y);
  }

  lemma Reciprocal(v: real) returns (x: real)
    requires v != 0.0
    ensures x * v == 1.0
  {
    x := 1.0 / v;
  }

  lemma SameReciprocal(v: real, w: real, x: real, y: real)
    requires x * v == 1.0 && y * w == 1.0
    ensures x == y ==> v == w
  {
    assert x == y ==> x * (v - w) == 0.0;
  }

  /** A multiple of eight that scales two different numbers more than one apart. */
  lemma EnoughFor(x: real, y: real) returns (bytes: nat, b: real)
    requires x > y
    ensures b == 8.0 * bytes as real && b * x - b * y > 1.0
  {
    var d := x - y;
    var q := Reciprocal(d);
    bytes, b := MultipleAbove(q);
    ScaleUp(b, q, d);
    Distribute(b, x, y);
  }

  lemma MultipleAbove(q: real) returns (bytes: nat, b: real)
    ensures b == 8.0 * bytes as real && b > q
  {
    bytes := if q >= 0.0 then q.Floor + 1 else 1;
    b := 8.0 * bytes as real;
  }

  lemma ScaleUp(b: real, q: real, d: real)
    requires b > q && d > 0.0
    ensures b * d > q * d
  {
  }

  lemma Distribute(b: real, x: real, y: real)
    ensures b * x - b * y == b * (x - y)
  {
  }

  lemma DivideIsScale(b: real, v: real, x: real)
    requires v != 0.0 && x * v == 1.0
    ensures b / v == b * x
  {
    var q := b / v;
    assert q * v == b;
    assert (q - b * x) * v == 0.0;
  }

  /** In the range that the API admits: 60 seconds are summed, but divided by 60.4. */
  lemma RateCanBeUnfair()
    ensures Seconds(60.4) == 60 && Bps(6000, 60.4) == 795 && 8.0 * 6000.0 / 60.0 == 800.0 && !RateIsFair(6000, 60.4)
  {
    var q := 48000.0 / 60.4;
    assert q * 60.4 == 48000.0;
    assert 794.5 <= q < 795.5;
    assert 8.0 * 6000 as real == 48000.0 && Round(q) == 795;
    assert 48000.0 / Seconds(60.4) as real == 800.0;
  }

  lemma QuotientIsBounded(b: real, w: real)
    requires b >= 0.0 && w >= 1.0
    ensures 0.0 <= b / w <= b
  {
    var q := b / w;
    assert q * w == b;
    assert q < 0.0 ==> q * w < 0.0;
    assert q >= 0.0 ==> q * (w - 1.0) >= 0.0;
  }

  /** For such a window the reported rate is off that average by half a bit per second at most. */
  lemma RateIsNearAverage(bytes: nat, window: real)
    requires window == Seconds(window) as real && 8 * bytes <= I64_MAX
    ensures -0.5 <= Bps(bytes, window) as real - 8.0 * bytes as real / window <= 0.5
  {
    var b := 8.0 * bytes as real;
    QuotientIsBounded(b, window);
    RoundIsNear(b / window);
    assert Round(b / window) <= 8 * bytes;
  }

  /** The sums behind a snapshot, its rates, and the keys of its top rows. */
  datatype Report = Report(
    total: DataInfo, dst: map<string, DstRow>, country: map<string, DataInfo>, src: map<string, DataInfo>,
    service: map<string, DataInfo>, host: map<HostKey, DataInfo>, bps: int, bpsIn: int, bpsOut: int,
    topDst: seq<string>, topCountries: seq<string>, topSrc: seq<string>, topServices: seq<string>, topHosts: seq<HostKey>)

  ghost predicate DstIsWindow(dst: map<string, DstRow>, history: seq<seq<Flow>>, w: nat, ip: string) {
    (if ip in dst then Some(dst[ip]) else None) == WindowRow(history, w, ip)
  }

  /** The summed maps are the group-bys of the last `w` seconds. */
  ghost predicate Sums(r: Report, history: seq<seq<Flow>>, w: nat) {
    && r.total == SumKeyed(Recent(history, w), Everything)
    && r.country == GroupBy(Recent(history, w), CountryOf)
    && r.src == GroupBy(Recent(history, w), LanOf)
    && r.service == GroupBy(Recent(history, w), ServiceOf)
    && r.host == GroupBy(Recent(history, w), HostOf)
    && forall ip {:trigger DstIsWindow(r.dst, history, w, ip)} :: DstIsWindow(r.dst, history, w, ip)
  }

  ghost predicate Rated(r: Report, window: real) {
    && r.bps == Bps(r.total.Total(), window)
    && r.bpsIn == Bps(r.total.inBytes, window) && r.bpsOut == Bps(r.total.outBytes, window)
  }

  ghost predicate Ranked(r: Report) {
    && IsTop(map ip | ip in r.dst :: r.dst[ip].data, 8, r.topDst)
    && IsTop(r.country, 6, r.topCountries) && IsTop(r.src, 6, r.topSrc)
    && IsTop(r.service, 8, r.topServices) && IsTop(r.host, 6, r.topHosts)
  }

  /** Merging the peer rows of one more second. */
  lemma DstStep(dst: map<string, DstRow>, second: map<string, DstRow>, history: seq<seq<Flow>>, w: nat, next: map<string, DstRow>)
    requires forall ip {:trigger DstIsWindow(dst, history, w, ip)} :: DstIsWindow(dst, history, w, ip)
    requires DstOk(second, Second(history, w))
    requires next.Keys == dst.Keys + second.Keys
    requires forall k :: k in next ==>
      (next[k] == if k !in second then dst[k] else JoinRows(if k in dst then Some(dst[k]) else None, second[k]))
    ensures forall ip {:trigger DstIsWindow(next, history, w + 1, ip)} :: DstIsWindow(next, history, w + 1, ip)
  {
    var n := w + 1;
    forall ip: string
      ensures DstIsWindow(next, history, n, ip)
    {
      assert DstIsWindow(dst, history, w, ip);
      assert DstRowOk(second, Second(history, w), ip);
      assert ip in next <==> ip in dst.Keys + second.Keys;
    }
  }

  /** Merging one more second into the sums. */
  lemma SumsStep(r0: Report, b: Bucket, history: seq<seq<Flow>>, i: nat, r: Report)
    requires Sums(r0, history, i) && BucketOk(b, Second(history, i))
    requires r.total == r0.total.Merge(b.total)
    requires r.country == MergeMaps(r0.country, b.country) && r.src == MergeMaps(r0.src, b.src)
    requires r.service == MergeMaps(r0.service, b.service) && r.host == MergeMaps(r0.host, b.host)
    requires r.dst.Keys == r0.dst.Keys + b.dst.Keys
    requires forall k :: k in r.dst ==>
      (r.dst[k] == if k !in b.dst then r0.dst[k] else JoinRows(if k in r0.dst then Some(r0.dst[k]) else None, b.dst[k]))
    ensures Sums(r, history, i + 1)
  {
    var second, recent := Second(history, i), Recent(history, i);
    SumKeyedConcat(second, recent, Everything);
    MergeIsConcat(second, recent, CountryOf);
    MergeIsConcat(second, recent, LanOf);
    MergeIsConcat(second, recent, ServiceOf);
    MergeIsConcat(second, recent, HostOf);
    DstStep(r0.dst, b.dst, history, i, r.dst);
  }

  class Aggregator {
    var buckets: array<Bucket>
    var cur: nat
    ghost var history: seq<seq<Flow>>  // the flows recorded in every second so far

    ghost predicate Valid()
      reads this, buckets
    {
      RingOk(buckets[..], cur, history)
    }

    constructor ()
      ensures Valid() && fresh(buckets) && history == [[]]
    {
      buckets := new Bucket[BUCKETS](_ => EMPTY_BUCKET);
      cur := 0;
      history := [[]];
      new;
      forall i: nat | i < BUCKETS
        ensures SlotOk(buckets[..], cur, history, i)
      {
      }
    }

    /** Advance one second; the slot that comes up is cleared. */
    method Tick()
      requires Valid()
      modifies this, buckets
      ensures Valid() && buckets == old(buckets) && history == old(history) + [[]]
    {
      TickKeepsRing(buckets[..], cur, history);
      cur := (cur + 1) % BUCKETS;
      buckets[cur] := EMPTY_BUCKET;
      history := history + [[]];
    }

    /** Fold one flow into the current second. */
    method Record(f: Flow)
      requires Valid()
      modifies this`history, buckets
      ensures Valid()
      ensures var last := old(|history|) - 1; old(history) != [] && history == old(history)[last := old(history)[last] + [f]]
    {
      assert SlotOk(buckets[..], cur, history, 0);
      var b := Fold(buckets[cur], f, history[|history| - 1]);
      RecordKeepsRing(buckets[..], cur, history, f, b);
      buckets[cur] := b;
      history := history[|history| - 1 := history[|history| - 1] + [f]];
    }

    /** One bucket added to the running sums. */
    method AddSecond(r0: Report, i: nat) returns (r: Report)
      requires Valid() && i < BUCKETS && Sums(r0, history, i)
      ensures Sums(r, history, i + 1)
    {
      assert SlotOk(buckets[..], cur, history, i);
      var b := buckets[(cur + BUCKETS - i) % BUCKETS];
      var total := r0.total.Merge(b.total);
      var dst := MergeDst(r0.dst, b.dst);
      var country := MergeInto(r0.country, b.country);
      var src := MergeInto(r0.src, b.src);
      var service := MergeInto(r0.service, b.service);
      var host := MergeInto(r0.host, b.host);
      r := Report(total, dst, country, src, service, host, 0, 0, 0, [], [], [], [], []);
      SumsStep(r0, b, history, i, r);
    }

    /** The sums of the last `w` seconds. */
    method SumWindow(w: nat) returns (r: Report)
      requires Valid() && w <= BUCKETS
      ensures Sums(r, history, w)
    {
      r := Report(ZERO, map[], map[], map[], map[], map[], 0, 0, 0, [], [], [], [], []);
      var i := 0;
      while i < w
        invariant 0 <= i <= w && Sums(r, history, i)
      {
        r := AddSecond(r, i);
        i := i + 1;
      }
    }

    /** Sum the trailing window and rank the rows. */
    method Snapshot(window: real) returns (r: Report)
      requires Valid()
      ensures Sums(r, history, Seconds(window)) && Rated(r, window) && Ranked(r)
    {
      var s := SumWindow(Seconds(window));
      var topDst := Top(map ip | ip in s.dst :: s.dst[ip].data, 8);
      var topCountries := Top(s.country, 6);
      var topSrc := Top(s.src, 6);
      var topServices := Top(s.service, 8);
      var topHosts := Top(s.host, 6);
      var (all, down, up) := (Bps(s.total.Total(), window), Bps(s.total.inBytes, window), Bps(s.total.outBytes, window));
      r := Report(s.total, s.dst, s.country, s.src, s.service, s.host, all, down, up,
                  topDst, topCountries, topSrc, topServices, topHosts);
    }
  }
}
