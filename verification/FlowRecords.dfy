// The flowd store-v1 record: which sub-records exist, in which order, and how each reads
// and writes.
module FlowRecords {
  import opened Options
  import opened Bytes

  type Octets4 = s: seq<Byte> | |s| == 4 witness [0, 0, 0, 0]
  type Octets16 = s: seq<Byte> | |s| == 16 witness [0, 0, 0, 0, 0, 0, 0, 0, 0, 0, 0, 0, 0, 0, 0, 0]

  datatype IpAddr = V4(v4: Octets4) | V6(v6: Octets16)

  datatype FlowRecord = FlowRecord(
    tag: Option<U32>, recvSec: Option<U32>, recvUsec: Option<U32>,
    tcpFlags: Option<Byte>, protocol: Option<Byte>, tos: Option<Byte>,
    agentAddr: Option<IpAddr>, srcAddr: Option<IpAddr>, dstAddr: Option<IpAddr>, gatewayAddr: Option<IpAddr>,
    srcPort: Option<U16>, dstPort: Option<U16>, packets: Option<U64>, octets: Option<U64>,
    ifIndexIn: Option<U32>, ifIndexOut: Option<U32>,
    sysUptimeMs: Option<U32>, agentTimeSec: Option<U32>, agentTimeNanosec: Option<U32>, netflowVersion: Option<U16>,
    flowStart: Option<U32>, flowFinish: Option<U32>,
    srcAs: Option<U32>, dstAs: Option<U32>, srcMask: Option<Byte>, dstMask: Option<Byte>,
    engineType: Option<U16>, engineId: Option<U16>, flowSequence: Option<U32>, sourceId: Option<U32>,
    crc32: Option<U32>)

  const DEFAULT := FlowRecord(None, None, None, None, None, None, None, None, None, None, None, None, None, None, None, None,
                              None, None, None, None, None, None, None, None, None, None, None, None, None, None, None)

  /** Bit `i` of the field mask. */
  predicate Bit(fields: nat, i: nat) {
    if i == 0 then fields % 2 == 1 else Bit(fields / 2, i - 1)
  }

  // The sub-records in the order they are stored; the mask bit is the index, except CRC32.
  const TAG := 0
  const RECV_TIME := 1
  const PROTO_FLAGS_TOS := 2
  const AGENT_ADDR4 := 3
  const AGENT_ADDR6 := 4
  const SRC_ADDR4 := 5
  const SRC_ADDR6 := 6
  const DST_ADDR4 := 7
  const DST_ADDR6 := 8
  const GATEWAY_ADDR4 := 9
  const GATEWAY_ADDR6 := 10
  const SRCDST_PORT := 11
  const PACKETS := 12
  const OCTETS := 13
  const IF_INDICES := 14
  const AGENT_INFO := 15
  const FLOW_TIMES := 16
  const AS_INFO := 17
  const FLOW_ENGINE_INFO := 18
  const CRC32 := 19
  const KINDS: nat := 20

  predicate Has(fields: U32, k: nat) {
    Bit(fields, if k == CRC32 then 30 else k)
  }

  /** Stored width of a sub-record in bytes. */
  function Width(k: nat): (w: nat)
    ensures w % 4 == 0 && 4 <= w <= 16
  {
    if k == RECV_TIME || k == PACKETS || k == OCTETS || k == IF_INDICES || k == FLOW_TIMES then 8
    else if k == AGENT_ADDR6 || k == SRC_ADDR6 || k == DST_ADDR6 || k == GATEWAY_ADDR6 || k == AGENT_INFO then 16
    else if k == AS_INFO || k == FLOW_ENGINE_INFO then 12
    else 4
  }

  /** What sub-record `k` with contents `b` sets in the record. */
  function Apply(k: nat, b: seq<Byte>, r: FlowRecord): FlowRecord
    requires k < KINDS && |b| == Width(k)
  {
    if k == TAG then r.(tag := Some(BeU32(b)))
    else if k == RECV_TIME then r.(recvSec := Some(BeU32(b[..4])), recvUsec := Some(BeU32(b[4..])))
    else if k == PROTO_FLAGS_TOS then r.(tcpFlags := Some(b[0]), protocol := Some(b[1]), tos := Some(b[2]))
    else if k == AGENT_ADDR4 then r.(agentAddr := Some(V4(b)))
    else if k == AGENT_ADDR6 then r.(agentAddr := Some(V6(b)))
    else if k == SRC_ADDR4 then r.(srcAddr := Some(V4(b)))
    else if k == SRC_ADDR6 then r.(srcAddr := Some(V6(b)))
    else if k == DST_ADDR4 then r.(dstAddr := Some(V4(b)))
    else if k == DST_ADDR6 then r.(dstAddr := Some(V6(b)))
    else if k == GATEWAY_ADDR4 then r.(gatewayAddr := Some(V4(b)))
    else if k == GATEWAY_ADDR6 then r.(gatewayAddr := Some(V6(b)))
    else if k == SRCDST_PORT then r.(srcPort := Some(BeU16(b[..2])), dstPort := Some(BeU16(b[2..])))
    else if k == PACKETS then r.(packets := Some(BeU64(b)))
    else if k == OCTETS then r.(octets := Some(BeU64(b)))
    else if k == IF_INDICES then r.(ifIndexIn := Some(BeU32(b[..4])), ifIndexOut := Some(BeU32(b[4..])))
    else if k == AGENT_INFO then
      r.(sysUptimeMs := Some(BeU32(b[..4])), agentTimeSec := Some(BeU32(b[4..8])),
         agentTimeNanosec := Some(BeU32(b[8..12])), netflowVersion := Some(BeU16(b[12..14])))
    else if k == FLOW_TIMES then r.(flowStart := Some(BeU32(b[..4])), flowFinish := Some(BeU32(b[4..])))
    else if k == AS_INFO then
      r.(srcAs := Some(BeU32(b[..4])), dstAs := Some(BeU32(b[4..8])), srcMask := Some(b[8]), dstMask := Some(b[9]))
    else if k == FLOW_ENGINE_INFO then
      r.(engineType := Some(BeU16(b[..2])), engineId := Some(BeU16(b[2..4])),
         flowSequence := Some(BeU32(b[4..8])), sourceId := Some(BeU32(b[8..])))
    else r.(crc32 := Some(BeU32(b)))
  }

  // ----- errors -----

  datatype Error =
    | Io
    | TruncatedRecord
    | PayloadMismatch(payload: nat, consumed: nat, fields: U32)
    | UnsupportedVersion(version: Byte)

  datatype Result<+T> = Ok(value: T) | Err(error: Error)
  {
    predicate IsFailure() {
      Err?
    }

    function PropagateFailure<U>(): Result<U>
      requires Err?
    {
      Err(error)
    }

    function Extract(): T
      requires Ok?
    {
      value
    }
  }

  // ----- decoding as a function -----

  /** Decode the sub-records from `k` on; `total` is the payload length. */
  function DecodeFrom(fields: U32, k: nat, total: nat, bytes: seq<Byte>, r: FlowRecord): Result<FlowRecord>
    requires k <= KINDS && |bytes| <= total
    decreases KINDS - k, |bytes|
  {
    if k == KINDS then
      if bytes == [] then Ok(r) else Err(PayloadMismatch(total, total - |bytes|, fields))
    else if !Has(fields, k) then DecodeFrom(fields, k + 1, total, bytes, r)
    else if |bytes| < Width(k) then Err(TruncatedRecord)
    else DecodeFrom(fields, k + 1, total, bytes[Width(k)..], Apply(k, bytes[..Width(k)], r))
  }

  /** Bytes that the known mask bits from `k` on dictate. */
  function SizeFrom(fields: U32, k: nat): nat
    requires k <= KINDS
    decreases KINDS - k, fields
  {
    if k == KINDS then 0 else (if Has(fields, k) then Width(k) else 0) + SizeFrom(fields, k + 1)
  }

  /** Bytes of all sub-records from `k` on. */
  function MaxFrom(k: nat): nat
    requires k <= KINDS
    decreases KINDS - k
  {
    if k == KINDS then 0 else Width(k) + MaxFrom(k + 1)
  }

  lemma {:induction false} SizeIsWords(fields: U32, k: nat)
    requires k <= KINDS
    ensures SizeFrom(fields, k) % 4 == 0
    decreases KINDS - k
  {
    if k < KINDS {
      SizeIsWords(fields, k + 1);
    }
  }

  lemma {:induction false} SizeIsBounded(fields: U32, k: nat)
    requires k <= KINDS
    ensures SizeFrom(fields, k) <= MaxFrom(k)
    decreases KINDS - k
  {
    if k < KINDS {
      SizeIsBounded(fields, k + 1);
    }
  }

  /** A payload is a whole number of words and at most 176 bytes, so its length fits the header. */
  lemma PayloadSizeFits(fields: U32)
    ensures SizeFrom(fields, 0) % 4 == 0 && SizeFrom(fields, 0) <= 176
  {
    SizeIsWords(fields, 0);
    SizeIsBounded(fields, 0);
    MaxIs176();
  }

  lemma MaxIs176()
    ensures MaxFrom(0) == 176
  {
    assert MaxFrom(20) == 0 && MaxFrom(19) == 4 && MaxFrom(18) == 16 && MaxFrom(17) == 28 && MaxFrom(16) == 36;
    assert MaxFrom(15) == 52 && MaxFrom(14) == 60 && MaxFrom(13) == 68 && MaxFrom(12) == 76 && MaxFrom(11) == 80;
    assert MaxFrom(10) == 96 && MaxFrom(9) == 100 && MaxFrom(8) == 116 && MaxFrom(7) == 120 && MaxFrom(6) == 136;
    assert MaxFrom(5) == 140 && MaxFrom(4) == 156 && MaxFrom(3) == 160 && MaxFrom(2) == 164 && MaxFrom(1) == 172;
  }

  /** Decoding succeeds exactly when the length is what the mask dictates: shorter is
      truncated, longer is a mismatch that reports both lengths. */
  lemma {:induction false} LengthDecides(fields: U32, k: nat, total: nat, bytes: seq<Byte>, r: FlowRecord)
    requires k <= KINDS && |bytes| <= total
    ensures var d := DecodeFrom(fields, k, total, bytes, r);
      && (d.Ok? <==> |bytes| == SizeFrom(fields, k))
      && (d == Err(TruncatedRecord) <==> |bytes| < SizeFrom(fields, k))
      && (|bytes| > SizeFrom(fields, k) ==>
            d == Err(PayloadMismatch(total, total - |bytes| + SizeFrom(fields, k), fields)))
    decreases KINDS - k
  {
    if k < KINDS {
      if !Has(fields, k) {
        LengthDecides(fields, k + 1, total, bytes, r);
      } else if |bytes| >= Width(k) {
        LengthDecides(fields, k + 1, total, bytes[Width(k)..], Apply(k, bytes[..Width(k)], r));
      }
    }
  }

  // ----- encoding -----

  /** The record holds exactly the fields that sub-record `k` carries when the mask has it. */
  ghost predicate Matches(fields: U32, k: nat, r: FlowRecord) {
    if k == TAG then Has(fields, k) <==> r.tag.Some?
    else if k == RECV_TIME then (Has(fields, k) <==> r.recvSec.Some?) && (Has(fields, k) <==> r.recvUsec.Some?)
    else if k == PROTO_FLAGS_TOS then
      (Has(fields, k) <==> r.tcpFlags.Some?) && (Has(fields, k) <==> r.protocol.Some?) && (Has(fields, k) <==> r.tos.Some?)
    else if k == AGENT_ADDR4 then Has(fields, k) <==> r.agentAddr.Some? && r.agentAddr.value.V4?
    else if k == AGENT_ADDR6 then Has(fields, k) <==> r.agentAddr.Some? && r.agentAddr.value.V6?
    else if k == SRC_ADDR4 then Has(fields, k) <==> r.srcAddr.Some? && r.srcAddr.value.V4?
    else if k == SRC_ADDR6 then Has(fields, k) <==> r.srcAddr.Some? && r.srcAddr.value.V6?
    else if k == DST_ADDR4 then Has(fields, k) <==> r.dstAddr.Some? && r.dstAddr.value.V4?
    else if k == DST_ADDR6 then Has(fields, k) <==> r.dstAddr.Some? && r.dstAddr.value.V6?
    else if k == GATEWAY_ADDR4 then Has(fields, k) <==> r.gatewayAddr.Some? && r.gatewayAddr.value.V4?
    else if k == GATEWAY_ADDR6 then Has(fields, k) <==> r.gatewayAddr.Some? && r.gatewayAddr.value.V6?
    else if k == SRCDST_PORT then (Has(fields, k) <==> r.srcPort.Some?) && (Has(fields, k) <==> r.dstPort.Some?)
    else if k == PACKETS then Has(fields, k) <==> r.packets.Some?
    else if k == OCTETS then Has(fields, k) <==> r.octets.Some?
    else if k == IF_INDICES then (Has(fields, k) <==> r.ifIndexIn.Some?) && (Has(fields, k) <==> r.ifIndexOut.Some?)
    else if k == AGENT_INFO then
      (Has(fields, k) <==> r.sysUptimeMs.Some?) && (Has(fields, k) <==> r.agentTimeSec.Some?) &&
      (Has(fields, k) <==> r.agentTimeNanosec.Some?) && (Has(fields, k) <==> r.netflowVersion.Some?)
    else if k == FLOW_TIMES then (Has(fields, k) <==> r.flowStart.Some?) && (Has(fields, k) <==> r.flowFinish.Some?)
    else if k == AS_INFO then
      (Has(fields, k) <==> r.srcAs.Some?) && (Has(fields, k) <==> r.dstAs.Some?) &&
      (Has(fields, k) <==> r.srcMask.Some?) && (Has(fields, k) <==> r.dstMask.Some?)
    else if k == FLOW_ENGINE_INFO then
      (Has(fields, k) <==> r.engineType.Some?) && (Has(fields, k) <==> r.engineId.Some?) &&
      (Has(fields, k) <==> r.flowSequence.Some?) && (Has(fields, k) <==> r.sourceId.Some?)
    else Has(fields, k) <==> r.crc32.Some?
  }

  /** The mask describes the record. Setting both address bits of a pair describes none:
      the second address would overwrite the first. */
  ghost predicate Describes(fields: U32, r: FlowRecord) {
    forall k: nat {:trigger Matches(fields, k, r)} :: k < KINDS ==> Matches(fields, k, r)
  }

  /** Sub-record `k` as bytes; padding is written as zero. */
  ghost function Emit(fields: U32, k: nat, r: FlowRecord): (b: seq<Byte>)
    requires k < KINDS && Matches(fields, k, r) && Has(fields, k)
    ensures |b| == Width(k)
  {
    if k == TAG then BeBytes(r.tag.value, 4)
    else if k == RECV_TIME then BeBytes(r.recvSec.value, 4) + BeBytes(r.recvUsec.value, 4)
    else if k == PROTO_FLAGS_TOS then [r.tcpFlags.value, r.protocol.value, r.tos.value, 0]
    else if k == AGENT_ADDR4 then r.agentAddr.value.v4
    else if k == AGENT_ADDR6 then r.agentAddr.value.v6
    else if k == SRC_ADDR4 then r.srcAddr.value.v4
    else if k == SRC_ADDR6 then r.srcAddr.value.v6
    else if k == DST_ADDR4 then r.dstAddr.value.v4
    else if k == DST_ADDR6 then r.dstAddr.value.v6
    else if k == GATEWAY_ADDR4 then r.gatewayAddr.value.v4
    else if k == GATEWAY_ADDR6 then r.gatewayAddr.value.v6
    else if k == SRCDST_PORT then BeBytes(r.srcPort.value, 2) + BeBytes(r.dstPort.value, 2)
    else if k == PACKETS then BeBytes(r.packets.value, 8)
    else if k == OCTETS then BeBytes(r.octets.value, 8)
    else if k == IF_INDICES then BeBytes(r.ifIndexIn.value, 4) + BeBytes(r.ifIndexOut.value, 4)
    else if k == AGENT_INFO then
      BeBytes(r.sysUptimeMs.value, 4) + BeBytes(r.agentTimeSec.value, 4) + BeBytes(r.agentTimeNanosec.value, 4)
      + BeBytes(r.netflowVersion.value, 2) + [0, 0]
    else if k == FLOW_TIMES then BeBytes(r.flowStart.value, 4) + BeBytes(r.flowFinish.value, 4)
    else if k == AS_INFO then
      BeBytes(r.srcAs.value, 4) + BeBytes(r.dstAs.value, 4) + [r.srcMask.value, r.dstMask.value, 0, 0]
    else if k == FLOW_ENGINE_INFO then
      BeBytes(r.engineType.value, 2) + BeBytes(r.engineId.value, 2) + BeBytes(r.flowSequence.value, 4) + BeBytes(r.sourceId.value, 4)
    else BeBytes(r.crc32.value, 4)
  }

  ghost function PayloadFrom(fields: U32, k: nat, r: FlowRecord): (b: seq<Byte>)
    requires k <= KINDS && Describes(fields, r)
    ensures |b| == SizeFrom(fields, k)
    decreases KINDS - k, fields
  {
    if k == KINDS then [] else
      assert Matches(fields, k, r);
      (if Has(fields, k) then Emit(fields, k, r) else []) + PayloadFrom(fields, k + 1, r)
  }

  /** The record after the sub-records before `k`. */
  ghost function Upto(r: FlowRecord, k: nat): FlowRecord {
    FlowRecord(
      if k > TAG then r.tag else None,
      if k > RECV_TIME then r.recvSec else None,
      if k > RECV_TIME then r.recvUsec else None,
      if k > PROTO_FLAGS_TOS then r.tcpFlags else None,
      if k > PROTO_FLAGS_TOS then r.protocol else None,
      if k > PROTO_FLAGS_TOS then r.tos else None,
      AddrUpto(r.agentAddr, AGENT_ADDR4, k),
      AddrUpto(r.srcAddr, SRC_ADDR4, k),
      AddrUpto(r.dstAddr, DST_ADDR4, k),
      AddrUpto(r.gatewayAddr, GATEWAY_ADDR4, k),
      if k > SRCDST_PORT then r.srcPort else None,
      if k > SRCDST_PORT then r.dstPort else None,
      if k > PACKETS then r.packets else None,
      if k > OCTETS then r.octets else None,
      if k > IF_INDICES then r.ifIndexIn else None,
      if k > IF_INDICES then r.ifIndexOut else None,
      if k > AGENT_INFO then r.sysUptimeMs else None,
      if k > AGENT_INFO then r.agentTimeSec else None,
      if k > AGENT_INFO then r.agentTimeNanosec else None,
      if k > AGENT_INFO then r.netflowVersion else None,
      if k > FLOW_TIMES then r.flowStart else None,
      if k > FLOW_TIMES then r.flowFinish else None,
      if k > AS_INFO then r.srcAs else None,
      if k > AS_INFO then r.dstAs else None,
      if k > AS_INFO then r.srcMask else None,
      if k > AS_INFO then r.dstMask else None,
      if k > FLOW_ENGINE_INFO then r.engineType else None,
      if k > FLOW_ENGINE_INFO then r.engineId else None,
      if k > FLOW_ENGINE_INFO then r.flowSequence else None,
      if k > FLOW_ENGINE_INFO then r.sourceId else None,
      if k > CRC32 then r.crc32 else None)
  }

  /** An address is set by its IPv4 sub-record, or by the IPv6 one right after it. */
  ghost function AddrUpto(a: Option<IpAddr>, four: nat, k: nat): Option<IpAddr> {
    if a.Some? && (if a.value.V4? then k > four else k > four + 1) then a else None
  }

  /** Reading back one sub-record restores exactly its fields. */
  lemma ApplyEmit(fields: U32, k: nat, r: FlowRecord)
    requires k < KINDS && Matches(fields, k, r) && Has(fields, k)
    ensures Apply(k, Emit(fields, k, r), Upto(r, k)) == Upto(r, k + 1)
  {
    var b := Emit(fields, k, r);
    if k == TAG { U32RoundTrip(r.tag.value); }
    else if k == RECV_TIME { TwoWords(b, r.recvSec.value, r.recvUsec.value); }
    else if k == SRCDST_PORT { TwoHalves(b, r.srcPort.value, r.dstPort.value); }
    else if k == PACKETS { U64RoundTrip(r.packets.value); }
    else if k == OCTETS { U64RoundTrip(r.octets.value); }
    else if k == IF_INDICES { TwoWords(b, r.ifIndexIn.value, r.ifIndexOut.value); }
    else if k == AGENT_INFO {
      ThreeWords(b, r.sysUptimeMs.value, r.agentTimeSec.value, r.agentTimeNanosec.value, BeBytes(r.netflowVersion.value, 2) + [0, 0]);
      U16RoundTrip(r.netflowVersion.value);
      assert b[12..14] == BeBytes(r.netflowVersion.value, 2);
    }
    else if k == FLOW_TIMES { TwoWords(b, r.flowStart.value, r.flowFinish.value); }
    else if k == AS_INFO {
      U32RoundTrip(r.srcAs.value);
      U32RoundTrip(r.dstAs.value);
      assert b[..4] == BeBytes(r.srcAs.value, 4) && b[4..8] == BeBytes(r.dstAs.value, 4);
    }
    else if k == FLOW_ENGINE_INFO {
      U16RoundTrip(r.engineType.value);
      U16RoundTrip(r.engineId.value);
      U32RoundTrip(r.flowSequence.value);
      U32RoundTrip(r.sourceId.value);
      assert b[..2] == BeBytes(r.engineType.value, 2) && b[2..4] == BeBytes(r.engineId.value, 2);
      assert b[4..8] == BeBytes(r.flowSequence.value, 4) && b[8..] == BeBytes(r.sourceId.value, 4);
    }
    else if k == CRC32 { U32RoundTrip(r.crc32.value); }
  }

  lemma TwoWords(b: seq<Byte>, x: U32, y: U32)
    requires b == BeBytes(x, 4) + BeBytes(y, 4)
    ensures BeU32(b[..4]) == x && BeU32(b[4..]) == y
  {
    U32RoundTrip(x);
    U32RoundTrip(y);
    assert b[..4] == BeBytes(x, 4) && b[4..] == BeBytes(y, 4);
  }

  lemma TwoHalves(b: seq<Byte>, x: U16, y: U16)
    requires b == BeBytes(x, 2) + BeBytes(y, 2)
    ensures BeU16(b[..2]) == x && BeU16(b[2..]) == y
  {
    U16RoundTrip(x);
    U16RoundTrip(y);
    assert b[..2] == BeBytes(x, 2) && b[2..] == BeBytes(y, 2);
  }

  lemma ThreeWords(b: seq<Byte>, x: U32, y: U32, z: U32, rest: seq<Byte>)
    requires |rest| == 4 && b == BeBytes(x, 4) + BeBytes(y, 4) + BeBytes(z, 4) + rest
    ensures BeU32(b[..4]) == x && BeU32(b[4..8]) == y && BeU32(b[8..12]) == z
  {
    U32RoundTrip(x);
    U32RoundTrip(y);
    U32RoundTrip(z);
    assert b[..4] == BeBytes(x, 4) && b[4..8] == BeBytes(y, 4) && b[8..12] == BeBytes(z, 4);
  }

  /** A sub-record the mask leaves out has no fields to restore. */
  lemma SkippedIsAbsent(fields: U32, k: nat, r: FlowRecord)
    requires k < KINDS && Matches(fields, k, r) && !Has(fields, k)
    ensures Upto(r, k + 1) == Upto(r, k)
  {
  }

  /** Decoding an encoded record gives the record back. */
  lemma {:induction false} DecodeEncoded(fields: U32, k: nat, total: nat, r: FlowRecord)
    requires k <= KINDS && Describes(fields, r) && SizeFrom(fields, k) <= total
    ensures DecodeFrom(fields, k, total, PayloadFrom(fields, k, r), Upto(r, k)) == Ok(r)
    decreases KINDS - k
  {
    if k == KINDS {
      assert Upto(r, KINDS) == r;
    } else {
      assert Matches(fields, k, r);
      DecodeEncoded(fields, k + 1, total, r);
      if Has(fields, k) {
        ApplyEmit(fields, k, r);
        var b, rest := Emit(fields, k, r), PayloadFrom(fields, k + 1, r);
        assert (b + rest)[..Width(k)] == b && (b + rest)[Width(k)..] == rest;
      } else {
        SkippedIsAbsent(fields, k, r);
        assert [] + PayloadFrom(fields, k + 1, r) == PayloadFrom(fields, k + 1, r);
      }
    }
  }
}
