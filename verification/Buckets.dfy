// The per-second buckets of the aggregator and the ring they are kept in.
module Buckets {
  import opened Options
  import opened Traffic

  const BUCKETS: nat := 600
  const DST_CAP: nat := 4000

  datatype DstRow = DstRow(data: DataInfo, country: Option<string>)

  datatype Bucket = Bucket(
    total: DataInfo,
    dst: map<string, DstRow>,
    country: map<string, DataInfo>,
    src: map<string, DataInfo>,
    service: map<string, DataInfo>,
    host: map<HostKey, DataInfo>)

  const EMPTY_BUCKET := Bucket(ZERO, map[], map[], map[], map[], map[])

  // ----- the capped peer axis -----

  /** The peers a second keeps a row for: the first 4000 distinct ones. */
  ghost function Admitted(flows: seq<Flow>): set<string> {
    if flows == [] then {} else
      var a, f := Admitted(flows[..|flows| - 1]), flows[|flows| - 1];
      if Counted(f) && PeerOf(f).Some? && (|a| < DST_CAP || PeerOf(f).value in a) then a + {PeerOf(f).value} else a
  }

  /** The first country seen for a peer. */
  ghost function FirstCountry(flows: seq<Flow>, ip: string): Option<string> {
    if flows == [] then None else
      var c, f := FirstCountry(flows[..|flows| - 1], ip), flows[|flows| - 1];
      if c.None? && Counted(f) && PeerOf(f) == Some(ip) then PeerCountry(f) else c
  }

  /** Below the cap no peer is turned away. */
  lemma {:induction false} BelowCapAllAdmitted(flows: seq<Flow>, ip: string)
    requires ip !in Admitted(flows) && |Admitted(flows)| < DST_CAP
    ensures SumOf(flows, PeerOf, ip) == ZERO && FirstCountry(flows, ip) == None && !Occurs(flows, PeerOf, ip)
  {
    if flows != [] {
      var init, f := flows[..|flows| - 1], flows[|flows| - 1];
      AdmittedGrows(init, f);
      assert flows == init + [f];
      BelowCapAllAdmitted(init, ip);
    }
  }

  lemma AdmittedGrows(flows: seq<Flow>, f: Flow)
    ensures Admitted(flows) <= Admitted(flows + [f]) && |Admitted(flows)| <= |Admitted(flows + [f])|
  {
    assert (flows + [f])[..|flows|] == flows;
    var a := Admitted(flows);
    if PeerOf(f).Some? && PeerOf(f).value !in a {
      assert |a + {PeerOf(f).value}| == |a| + 1;
    }
    assert PeerOf(f).Some? && PeerOf(f).value in a ==> a + {PeerOf(f).value} == a;
  }

  ghost predicate DstRowOk(dst: map<string, DstRow>, flows: seq<Flow>, ip: string) {
    && (ip in dst <==> ip in Admitted(flows))
    && (ip in dst ==> dst[ip] == DstRow(SumOf(flows, PeerOf, ip), FirstCountry(flows, ip)))
  }

  ghost predicate DstOk(dst: map<string, DstRow>, flows: seq<Flow>) {
    && |dst| == |Admitted(flows)|
    && forall ip {:trigger DstRowOk(dst, flows, ip)} :: DstRowOk(dst, flows, ip)
  }

  /** A bucket is the replay of its second. */
  ghost predicate BucketOk(b: Bucket, flows: seq<Flow>) {
    && b.total == SumKeyed(flows, Everything)
    && DstOk(b.dst, flows)
    && b.country == GroupBy(flows, CountryOf)
    && b.src == GroupBy(flows, LanOf)
    && b.service == GroupBy(flows, ServiceOf)
    && b.host == GroupBy(flows, HostOf)
  }

  // ----- record -----

  /** The guarded insertion into the peer axis. */
  function BumpDst(dst: map<string, DstRow>, ip: string, d: DataInfo, country: Option<string>): map<string, DstRow> {
    if |dst| < DST_CAP || ip in dst then
      var e := if ip in dst then dst[ip] else DstRow(ZERO, country);
      dst[ip := DstRow(e.data.Merge(d), if e.country.None? then country else e.country)]
    else dst
  }

  lemma SnocFacts(flows: seq<Flow>, f: Flow, ip: string)
    ensures (flows + [f])[..|flows|] == flows
    ensures SumOf(flows + [f], PeerOf, ip) ==
      if Counted(f) && PeerOf(f) == Some(ip) then SumOf(flows, PeerOf, ip).Merge(Info(f)) else SumOf(flows, PeerOf, ip)
    ensures FirstCountry(flows + [f], ip) ==
      if FirstCountry(flows, ip).None? && Counted(f) && PeerOf(f) == Some(ip) then PeerCountry(f) else FirstCountry(flows, ip)
    ensures Admitted(flows + [f]) ==
      if Counted(f) && PeerOf(f).Some? && (|Admitted(flows)| < DST_CAP || PeerOf(f).value in Admitted(flows))
      then Admitted(flows) + {PeerOf(f).value} else Admitted(flows)
  {
    assert (flows + [f])[..|flows|] == flows;
  }

  lemma BumpDstRow(dst: map<string, DstRow>, flows: seq<Flow>, f: Flow, ip: string)
    requires DstOk(dst, flows) && Counted(f) && PeerOf(f).Some?
    ensures DstRowOk(BumpDst(dst, PeerOf(f).value, Info(f), PeerCountry(f)), flows + [f], ip)
  {
    var peer := PeerOf(f).value;
    assert DstRowOk(dst, flows, ip) && DstRowOk(dst, flows, peer);
    SnocFacts(flows, f, ip);
    if ip == peer && ip !in dst && |dst| < DST_CAP {
      BelowCapAllAdmitted(flows, ip);
    }
  }

  lemma BumpDstOk(dst: map<string, DstRow>, flows: seq<Flow>, f: Flow)
    requires DstOk(dst, flows) && Counted(f) && PeerOf(f).Some?
    ensures DstOk(BumpDst(dst, PeerOf(f).value, Info(f), PeerCountry(f)), flows + [f])
  {
    var peer := PeerOf(f).value;
    assert DstRowOk(dst, flows, peer);
    forall ip: string
      ensures DstRowOk(BumpDst(dst, peer, Info(f), PeerCountry(f)), flows + [f], ip)
    {
      BumpDstRow(dst, flows, f, ip);
    }
    SnocFacts(flows, f, peer);
    var a := Admitted(flows);
    if peer in a {
      assert a + {peer} == a;
    } else {
      assert |a + {peer}| == |a| + 1;
    }
  }

  lemma DstUnchanged(dst: map<string, DstRow>, flows: seq<Flow>, f: Flow)
    requires DstOk(dst, flows) && (!Counted(f) || PeerOf(f).None?)
    ensures DstOk(dst, flows + [f])
  {
    SnocFacts(flows, f, "");
    forall ip: string
      ensures DstRowOk(dst, flows + [f], ip)
    {
      assert DstRowOk(dst, flows, ip);
      SnocFacts(flows, f, ip);
    }
  }

  /** Folding one flow into a bucket continues the replay. */
  method Fold(b0: Bucket, f: Flow, ghost flows: seq<Flow>) returns (b: Bucket)
    requires BucketOk(b0, flows)
    ensures BucketOk(b, flows + [f])
  {
    SumKeyedSnoc(flows, f, Everything);
    GroupBySnoc(flows, CountryOf, f);
    GroupBySnoc(flows, LanOf, f);
    GroupBySnoc(flows, ServiceOf, f);
    GroupBySnoc(flows, HostOf, f);
    b := b0;
    var bytes := OrElse(f.octets, 0);
    if bytes == 0 {
      DstUnchanged(b.dst, flows, f);
      return;
    }
    var d := Info(f);
    var total := b0.total.Add(bytes, OrElse(f.packets, 0), Incoming(f));
    var service, src := b0.service, b0.src;
    if f.service.Some? {
      service := Bump(service, f.service.value, d);
    }
    var lan := if FromHome(f) then f.srcAddr else if ToHome(f) then f.dstAddr else None;
    if lan.Some? {
      src := Bump(src, lan.value, d);
    }
    if PeerOf(f).None? {
      DstUnchanged(b0.dst, flows, f);
      return Bucket(total, b0.dst, b0.country, src, service, b0.host);
    }
    var ip, peerCountry := PeerOf(f).value, PeerCountry(f);
    BumpDstOk(b0.dst, flows, f);
    var dst, country := BumpDst(b0.dst, ip, d, peerCountry), b0.country;
    if peerCountry.Some? {
      country := Bump(country, peerCountry.value, d);
    }
    var key := HostKey(OrElse(f.app, ip), PeerAs(f), OrElse(peerCountry, ""));
    b := Bucket(total, dst, country, src, service, Bump(b0.host, key, d));
  }

  // ----- the ring -----

  /** The flows of the second `i` seconds before the current one. */
  ghost function Second(history: seq<seq<Flow>>, i: nat): seq<Flow> {
    if i < |history| then history[|history| - 1 - i] else []
  }

  /** All flows of the last `w` seconds, oldest first. */
  ghost function Recent(history: seq<seq<Flow>>, w: nat): seq<Flow> {
    if w == 0 then [] else Second(history, w - 1) + Recent(history, w - 1)
  }

  function Slot(cur: nat, i: nat): nat
    requires cur < BUCKETS && i <= BUCKETS
  {
    (cur + BUCKETS - i) % BUCKETS
  }

  ghost predicate SlotOk(buckets: seq<Bucket>, cur: nat, history: seq<seq<Flow>>, i: nat)
    requires |buckets| == BUCKETS && cur < BUCKETS && i < BUCKETS
  {
    BucketOk(buckets[Slot(cur, i)], Second(history, i))
  }

  ghost predicate RingOk(buckets: seq<Bucket>, cur: nat, history: seq<seq<Flow>>) {
    && |buckets| == BUCKETS && cur < BUCKETS && history != []
    && forall i: nat {:trigger SlotOk(buckets, cur, history, i)} :: i < BUCKETS ==> SlotOk(buckets, cur, history, i)
  }

  lemma SlotMoves(cur: nat, i: nat)
    requires cur < BUCKETS && 0 < i < BUCKETS
    ensures var next := (cur + 1) % BUCKETS; Slot(next, i) == Slot(cur, i - 1) && Slot(next, i) != next
  {
  }

  /** Rolling on: the slot that comes up held the second that just left the window. */
  lemma TickKeepsRing(buckets: seq<Bucket>, cur: nat, history: seq<seq<Flow>>)
    requires RingOk(buckets, cur, history)
    ensures var next := (cur + 1) % BUCKETS; RingOk(buckets[next := EMPTY_BUCKET], next, history + [[]])
  {
    var next := (cur + 1) % BUCKETS;
    var buckets', history' := buckets[next := EMPTY_BUCKET], history + [[]];
    forall i: nat | i < BUCKETS
      ensures SlotOk(buckets', next, history', i)
    {
      if i > 0 {
        assert SlotOk(buckets, cur, history, i - 1);
        SlotMoves(cur, i);
        assert Second(history', i) == Second(history, i - 1);
      }
    }
  }

  lemma RecordKeepsRing(buckets: seq<Bucket>, cur: nat, history: seq<seq<Flow>>, f: Flow, b: Bucket)
    requires RingOk(buckets, cur, history) && BucketOk(b, history[|history| - 1] + [f])
    ensures RingOk(buckets[cur := b], cur, history[|history| - 1 := history[|history| - 1] + [f]])
  {
    var last := |history| - 1;
    var buckets', history' := buckets[cur := b], history[last := history[last] + [f]];
    forall i: nat | i < BUCKETS
      ensures SlotOk(buckets', cur, history', i)
    {
      assert SlotOk(buckets, cur, history, i);
      if i > 0 {
        assert Slot(cur, i) != cur;
        assert Second(history', i) == Second(history, i);
      }
    }
  }
}
