// The flowd store-v1 reader: cursor, payload decoder, record framing and the record stream.
module FlowdStore {
  import opened Options
  import opened Bytes
  import opened FlowRecords

  const STORE_V1_VERSION: Byte := 0x60

  class Cursor {
    const buf: seq<Byte>
    var pos: nat

    ghost predicate Valid()
      reads this
    {
      pos <= |buf|
    }

    ghost function Rest(): seq<Byte>
      reads this
      requires Valid()
    {
      buf[pos..]
    }

    constructor (bytes: seq<Byte>)
      ensures Valid() && Rest() == bytes && buf == bytes
    {
      buf := bytes;
      pos := 0;
    }

    method Remaining() returns (n: nat)
      requires Valid()
      ensures n == |Rest()| && n == |buf| - pos
    {
      n := |buf| - pos;
    }

    method Take(n: nat) returns (res: Result<seq<Byte>>)
      requires Valid()
      modifies this
      ensures Valid()
      ensures res == if n <= |old(Rest())| then Ok(old(Rest())[..n]) else Err(TruncatedRecord)
      ensures Rest() == if n <= |old(Rest())| then old(Rest())[n..] else old(Rest())
    {
      var left := Remaining();
      if left < n {
        return Err(TruncatedRecord);
      }
      assert buf[pos..pos + n] == Rest()[..n];
      res := Ok(buf[pos..pos + n]);
      pos := pos + n;
    }

    method U8() returns (res: Result<Byte>)
      requires Valid()
      modifies this
      ensures Valid()
      ensures |old(Rest())| < 1 ==> res == Err(TruncatedRecord)
      ensures |old(Rest())| >= 1 ==> res == Ok(old(Rest())[0]) && Rest() == old(Rest())[1..]
    {
      var b :- Take(1);
      res := Ok(b[0]);
    }

    method U16() returns (res: Result<U16>)
      requires Valid()
      modifies this
      ensures Valid()
      ensures |old(Rest())| < 2 ==> res == Err(TruncatedRecord)
      ensures |old(Rest())| >= 2 ==> res == Ok(BeU16(old(Rest())[..2])) && Rest() == old(Rest())[2..]
    {
      var b :- Take(2);
      res := Ok(BeU16(b));
    }

    method U32() returns (res: Result<U32>)
      requires Valid()
      modifies this
      ensures Valid()
      ensures |old(Rest())| < 4 ==> res == Err(TruncatedRecord)
      ensures |old(Rest())| >= 4 ==> res == Ok(BeU32(old(Rest())[..4])) && Rest() == old(Rest())[4..]
    {
      var b :- Take(4);
      res := Ok(BeU32(b));
    }

    method U64() returns (res: Result<U64>)
      requires Valid()
      modifies this
      ensures Valid()
      ensures |old(Rest())| < 8 ==> res == Err(TruncatedRecord)
      ensures |old(Rest())| >= 8 ==> res == Ok(BeU64(old(Rest())[..8])) && Rest() == old(Rest())[8..]
    {
      var b :- Take(8);
      res := Ok(BeU64(b));
    }

    method Addr4() returns (res: Result<IpAddr>)
      requires Valid()
      modifies this
      ensures Valid()
      ensures |old(Rest())| < 4 ==> res == Err(TruncatedRecord)
      ensures |old(Rest())| >= 4 ==> res == Ok(V4(old(Rest())[..4])) && Rest() == old(Rest())[4..]
    {
      var b :- Take(4);
      res := Ok(V4(b));
    }

    method Addr6() returns (res: Result<IpAddr>)
      requires Valid()
      modifies this
      ensures Valid()
      ensures |old(Rest())| < 16 ==> res == Err(TruncatedRecord)
      ensures |old(Rest())| >= 16 ==> res == Ok(V6(old(Rest())[..16])) && Rest() == old(Rest())[16..]
    {
      var b :- Take(16);
      res := Ok(V6(b));
    }
  }

  // ----- one sub-record at a time -----

  /** Decoding from `k` on, before the step, is what decoding from `k2` on gives after it. */
  ghost predicate Carries(fields: U32, k: nat, k2: nat, total: nat, before: seq<Byte>, r: FlowRecord,
                          after: seq<Byte>, res: Result<FlowRecord>)
    requires k <= KINDS && k2 <= KINDS && |before| <= total
  {
    if res.Ok? then
      |after| <= total && DecodeFrom(fields, k, total, before, r) == DecodeFrom(fields, k2, total, after, res.value)
    else DecodeFrom(fields, k, total, before, r) == Err(res.error)
  }

  method ReadTag(fields: U32, c: Cursor, r: FlowRecord, ghost total: nat) returns (res: Result<FlowRecord>)
    requires c.Valid() && |c.Rest()| <= total
    modifies c
    ensures c.Valid() && Carries(fields, TAG, TAG + 1, total, old(c.Rest()), r, c.Rest(), res)
  {
    if !Has(fields, TAG) {
      return Ok(r);
    }
    var tag :- c.U32();
    res := Ok(r.(tag := Some(tag)));
  }

  method ReadRecvTime(fields: U32, c: Cursor, r: FlowRecord, ghost total: nat) returns (res: Result<FlowRecord>)
    requires c.Valid() && |c.Rest()| <= total
    modifies c
    ensures c.Valid() && Carries(fields, RECV_TIME, RECV_TIME + 1, total, old(c.Rest()), r, c.Rest(), res)
  {
    if !Has(fields, RECV_TIME) {
      return Ok(r);
    }
    ghost var b := c.Rest();
    var sec :- c.U32();
    var usec :- c.U32();
    assert b[..8][..4] == b[..4] && b[..8][4..] == b[4..][..4];
    res := Ok(r.(recvSec := Some(sec), recvUsec := Some(usec)));
  }

  method ReadProtoFlagsTos(fields: U32, c: Cursor, r: FlowRecord, ghost total: nat) returns (res: Result<FlowRecord>)
    requires c.Valid() && |c.Rest()| <= total
    modifies c
    ensures c.Valid() && Carries(fields, PROTO_FLAGS_TOS, PROTO_FLAGS_TOS + 1, total, old(c.Rest()), r, c.Rest(), res)
  {
    if !Has(fields, PROTO_FLAGS_TOS) {
      return Ok(r);
    }
    var tcpFlags :- c.U8();
    var protocol :- c.U8();
    var tos :- c.U8();
    var pad :- c.U8();
    res := Ok(r.(tcpFlags := Some(tcpFlags), protocol := Some(protocol), tos := Some(tos)));
  }

  method ReadAgent4(fields: U32, c: Cursor, r: FlowRecord, ghost total: nat) returns (res: Result<FlowRecord>)
    requires c.Valid() && |c.Rest()| <= total
    modifies c
    ensures c.Valid() && Carries(fields, AGENT_ADDR4, AGENT_ADDR4 + 1, total, old(c.Rest()), r, c.Rest(), res)
  {
    if !Has(fields, AGENT_ADDR4) {
      return Ok(r);
    }
    var addr :- c.Addr4();
    res := Ok(r.(agentAddr := Some(addr)));
  }

  method ReadAgent6(fields: U32, c: Cursor, r: FlowRecord, ghost total: nat) returns (res: Result<FlowRecord>)
    requires c.Valid() && |c.Rest()| <= total
    modifies c
    ensures c.Valid() && Carries(fields, AGENT_ADDR6, AGENT_ADDR6 + 1, total, old(c.Rest()), r, c.Rest(), res)
  {
    if !Has(fields, AGENT_ADDR6) {
      return Ok(r);
    }
    var addr :- c.Addr6();
    res := Ok(r.(agentAddr := Some(addr)));
  }

  method ReadSrc4(fields: U32, c: Cursor, r: FlowRecord, ghost total: nat) returns (res: Result<FlowRecord>)
    requires c.Valid() && |c.Rest()| <= total
    modifies c
    ensures c.Valid() && Carries(fields, SRC_ADDR4, SRC_ADDR4 + 1, total, old(c.Rest()), r, c.Rest(), res)
  {
    if !Has(fields, SRC_ADDR4) {
      return Ok(r);
    }
    var addr :- c.Addr4();
    res := Ok(r.(srcAddr := Some(addr)));
  }

  method ReadSrc6(fields: U32, c: Cursor, r: FlowRecord, ghost total: nat) returns (res: Result<FlowRecord>)
    requires c.Valid() && |c.Rest()| <= total
    modifies c
    ensures c.Valid() && Carries(fields, SRC_ADDR6, SRC_ADDR6 + 1, total, old(c.Rest()), r, c.Rest(), res)
  {
    if !Has(fields, SRC_ADDR6) {
      return Ok(r);
    }
    var addr :- c.Addr6();
    res := Ok(r.(srcAddr := Some(addr)));
  }

  method ReadDst4(fields: U32, c: Cursor, r: FlowRecord, ghost total: nat) returns (res: Result<FlowRecord>)
    requires c.Valid() && |c.Rest()| <= total
    modifies c
    ensures c.Valid() && Carries(fields, DST_ADDR4, DST_ADDR4 + 1, total, old(c.Rest()), r, c.Rest(), res)
  {
    if !Has(fields, DST_ADDR4) {
      return Ok(r);
    }
    var addr :- c.Addr4();
    res := Ok(r.(dstAddr := Some(addr)));
  }

  method ReadDst6(fields: U32, c: Cursor, r: FlowRecord, ghost total: nat) returns (res: Result<FlowRecord>)
    requires c.Valid() && |c.Rest()| <= total
    modifies c
    ensures c.Valid() && Carries(fields, DST_ADDR6, DST_ADDR6 + 1, total, old(c.Rest()), r, c.Rest(), res)
  {
    if !Has(fields, DST_ADDR6) {
      return Ok(r);
    }
    var addr :- c.Addr6();
    res := Ok(r.(dstAddr := Some(addr)));
  }

  method ReadGateway4(fields: U32, c: Cursor, r: FlowRecord, ghost total: nat) returns (res: Result<FlowRecord>)
    requires c.Valid() && |c.Rest()| <= total
    modifies c
    ensures c.Valid() && Carries(fields, GATEWAY_ADDR4, GATEWAY_ADDR4 + 1, total, old(c.Rest()), r, c.Rest(), res)
  {
    if !Has(fields, GATEWAY_ADDR4) {
      return Ok(r);
    }
    var addr :- c.Addr4();
    res := Ok(r.(gatewayAddr := Some(addr)));
  }

  method ReadGateway6(fields: U32, c: Cursor, r: FlowRecord, ghost total: nat) returns (res: Result<FlowRecord>)
    requires c.Valid() && |c.Rest()| <= total
    modifies c
    ensures c.Valid() && Carries(fields, GATEWAY_ADDR6, GATEWAY_ADDR6 + 1, total, old(c.Rest()), r, c.Rest(), res)
  {
    if !Has(fields, GATEWAY_ADDR6) {
      return Ok(r);
    }
    var addr :- c.Addr6();
    res := Ok(r.(gatewayAddr := Some(addr)));
  }

  method ReadPorts(fields: U32, c: Cursor, r: FlowRecord, ghost total: nat) returns (res: Result<FlowRecord>)
    requires c.Valid() && |c.Rest()| <= total
    modifies c
    ensures c.Valid() && Carries(fields, SRCDST_PORT, SRCDST_PORT + 1, total, old(c.Rest()), r, c.Rest(), res)
  {
    if !Has(fields, SRCDST_PORT) {
      return Ok(r);
    }
    ghost var b := c.Rest();
    var src :- c.U16();
    var dst :- c.U16();
    assert b[..4][..2] == b[..2] && b[..4][2..] == b[2..][..2];
    res := Ok(r.(srcPort := Some(src), dstPort := Some(dst)));
  }

  method ReadPackets(fields: U32, c: Cursor, r: FlowRecord, ghost total: nat) returns (res: Result<FlowRecord>)
    requires c.Valid() && |c.Rest()| <= total
    modifies c
    ensures c.Valid() && Carries(fields, PACKETS, PACKETS + 1, total, old(c.Rest()), r, c.Rest(), res)
  {
    if !Has(fields, PACKETS) {
      return Ok(r);
    }
    var packets :- c.U64();
    res := Ok(r.(packets := Some(packets)));
  }

  method ReadOctets(fields: U32, c: Cursor, r: FlowRecord, ghost total: nat) returns (res: Result<FlowRecord>)
    requires c.Valid() && |c.Rest()| <= total
    modifies c
    ensures c.Valid() && Carries(fields, OCTETS, OCTETS + 1, total, old(c.Rest()), r, c.Rest(), res)
  {
    if !Has(fields, OCTETS) {
      return Ok(r);
    }
    var octets :- c.U64();
    res := Ok(r.(octets := Some(octets)));
  }

  method ReadIfIndices(fields: U32, c: Cursor, r: FlowRecord, ghost total: nat) returns (res: Result<FlowRecord>)
    requires c.Valid() && |c.Rest()| <= total
    modifies c
    ensures c.Valid() && Carries(fields, IF_INDICES, IF_INDICES + 1, total, old(c.Rest()), r, c.Rest(), res)
  {
    if !Has(fields, IF_INDICES) {
      return Ok(r);
    }
    ghost var b := c.Rest();
    var ifIn :- c.U32();
    var ifOut :- c.U32();
    assert b[..8][..4] == b[..4] && b[..8][4..] == b[4..][..4];
    res := Ok(r.(ifIndexIn := Some(ifIn), ifIndexOut := Some(ifOut)));
  }

  method ReadAgentInfo(fields: U32, c: Cursor, r: FlowRecord, ghost total: nat) returns (res: Result<FlowRecord>)
    requires c.Valid() && |c.Rest()| <= total
    modifies c
    ensures c.Valid() && Carries(fields, AGENT_INFO, AGENT_INFO + 1, total, old(c.Rest()), r, c.Rest(), res)
  {
    if !Has(fields, AGENT_INFO) {
      return Ok(r);
    }
    ghost var b := c.Rest();
    var uptime :- c.U32();
    var sec :- c.U32();
    var nanosec :- c.U32();
    var version :- c.U16();
    var pad :- c.U16();
    assert b[..16][..4] == b[..4] && b[..16][4..8] == b[4..][..4];
    assert b[..16][8..12] == b[4..][4..][..4] && b[..16][12..14] == b[4..][4..][4..][..2];
    res := Ok(r.(sysUptimeMs := Some(uptime), agentTimeSec := Some(sec), agentTimeNanosec := Some(nanosec),
              netflowVersion := Some(version)));
  }

  method ReadFlowTimes(fields: U32, c: Cursor, r: FlowRecord, ghost total: nat) returns (res: Result<FlowRecord>)
    requires c.Valid() && |c.Rest()| <= total
    modifies c
    ensures c.Valid() && Carries(fields, FLOW_TIMES, FLOW_TIMES + 1, total, old(c.Rest()), r, c.Rest(), res)
  {
    if !Has(fields, FLOW_TIMES) {
      return Ok(r);
    }
    ghost var b := c.Rest();
    var start :- c.U32();
    var finish :- c.U32();
    assert b[..8][..4] == b[..4] && b[..8][4..] == b[4..][..4];
    res := Ok(r.(flowStart := Some(start), flowFinish := Some(finish)));
  }

  method ReadAsInfo(fields: U32, c: Cursor, r: FlowRecord, ghost total: nat) returns (res: Result<FlowRecord>)
    requires c.Valid() && |c.Rest()| <= total
    modifies c
    ensures c.Valid() && Carries(fields, AS_INFO, AS_INFO + 1, total, old(c.Rest()), r, c.Rest(), res)
  {
    if !Has(fields, AS_INFO) {
      return Ok(r);
    }
    ghost var b := c.Rest();
    var src :- c.U32();
    var dst :- c.U32();
    var srcMask :- c.U8();
    var dstMask :- c.U8();
    var pad :- c.U16();
    assert b[..12][..4] == b[..4] && b[..12][4..8] == b[4..][..4];
    res := Ok(r.(srcAs := Some(src), dstAs := Some(dst), srcMask := Some(srcMask), dstMask := Some(dstMask)));
  }

  method ReadEngineInfo(fields: U32, c: Cursor, r: FlowRecord, ghost total: nat) returns (res: Result<FlowRecord>)
    requires c.Valid() && |c.Rest()| <= total
    modifies c
    ensures c.Valid() && Carries(fields, FLOW_ENGINE_INFO, FLOW_ENGINE_INFO + 1, total, old(c.Rest()), r, c.Rest(), res)
  {
    if !Has(fields, FLOW_ENGINE_INFO) {
      return Ok(r);
    }
    ghost var b := c.Rest();
    var kind :- c.U16();
    var id :- c.U16();
    var sequence :- c.U32();
    var source :- c.U32();
    assert b[..12][..2] == b[..2] && b[..12][2..4] == b[2..][..2];
    assert b[..12][4..8] == b[2..][2..][..4] && b[..12][8..] == b[2..][2..][4..][..4];
    res := Ok(r.(engineType := Some(kind), engineId := Some(id), flowSequence := Some(sequence), sourceId := Some(source)));
  }

  method ReadCrc32(fields: U32, c: Cursor, r: FlowRecord, ghost total: nat) returns (res: Result<FlowRecord>)
    requires c.Valid() && |c.Rest()| <= total
    modifies c
    ensures c.Valid() && Carries(fields, CRC32, CRC32 + 1, total, old(c.Rest()), r, c.Rest(), res)
  {
    if !Has(fields, CRC32) {
      return Ok(r);
    }
    var crc32 :- c.U32();
    res := Ok(r.(crc32 := Some(crc32)));
  }

  // ----- the payload, in mask order -----

  method DecodeHead(fields: U32, c: Cursor, r0: FlowRecord, ghost total: nat) returns (res: Result<FlowRecord>)
    requires c.Valid() && |c.Rest()| <= total
    modifies c
    ensures c.Valid() && Carries(fields, TAG, AGENT_ADDR4, total, old(c.Rest()), r0, c.Rest(), res)
  {
    var r :- ReadTag(fields, c, r0, total);
    r :- ReadRecvTime(fields, c, r, total);
    res := ReadProtoFlagsTos(fields, c, r, total);
  }

  method DecodeAddresses(fields: U32, c: Cursor, r0: FlowRecord, ghost total: nat) returns (res: Result<FlowRecord>)
    requires c.Valid() && |c.Rest()| <= total
    modifies c
    ensures c.Valid() && Carries(fields, AGENT_ADDR4, SRCDST_PORT, total, old(c.Rest()), r0, c.Rest(), res)
  {
    var r :- ReadAgent4(fields, c, r0, total);
    r :- ReadAgent6(fields, c, r, total);
    r :- ReadSrc4(fields, c, r, total);
    r :- ReadSrc6(fields, c, r, total);
    r :- ReadDst4(fields, c, r, total);
    r :- ReadDst6(fields, c, r, total);
    r :- ReadGateway4(fields, c, r, total);
    res := ReadGateway6(fields, c, r, total);
  }

  method DecodeCounters(fields: U32, c: Cursor, r0: FlowRecord, ghost total: nat) returns (res: Result<FlowRecord>)
    requires c.Valid() && |c.Rest()| <= total
    modifies c
    ensures c.Valid() && Carries(fields, SRCDST_PORT, AGENT_INFO, total, old(c.Rest()), r0, c.Rest(), res)
  {
    var r :- ReadPorts(fields, c, r0, total);
    r :- ReadPackets(fields, c, r, total);
    r :- ReadOctets(fields, c, r, total);
    res := ReadIfIndices(fields, c, r, total);
  }

  method DecodeTail(fields: U32, c: Cursor, r0: FlowRecord, ghost total: nat) returns (res: Result<FlowRecord>)
    requires c.Valid() && |c.Rest()| <= total
    modifies c
    ensures c.Valid() && Carries(fields, AGENT_INFO, KINDS, total, old(c.Rest()), r0, c.Rest(), res)
  {
    var r :- ReadAgentInfo(fields, c, r0, total);
    r :- ReadFlowTimes(fields, c, r, total);
    r :- ReadAsInfo(fields, c, r, total);
    r :- ReadEngineInfo(fields, c, r, total);
    res := ReadCrc32(fields, c, r, total);
  }

  method DecodeFields(fields: U32, c: Cursor, r0: FlowRecord, ghost total: nat) returns (res: Result<FlowRecord>)
    requires c.Valid() && |c.Rest()| <= total
    modifies c
    ensures c.Valid() && Carries(fields, TAG, KINDS, total, old(c.Rest()), r0, c.Rest(), res)
  {
    var r :- DecodeHead(fields, c, r0, total);
    r :- DecodeAddresses(fields, c, r, total);
    r :- DecodeCounters(fields, c, r, total);
    res := DecodeTail(fields, c, r, total);
  }

  /** Fills the record in mask order; leftover bytes are a mismatch. */
  method DecodePayload(fields: U32, payload: seq<Byte>) returns (res: Result<FlowRecord>)
    ensures res == DecodeFrom(fields, 0, |payload|, payload, DEFAULT)
  {
    var c := new Cursor(payload);
    var r :- DecodeFields(fields, c, DEFAULT, |payload|);
    var left := c.Remaining();
    if left != 0 {
      return Err(PayloadMismatch(|payload|, c.pos, fields));
    }
    res := Ok(r);
  }

  // ----- framing -----

  /** What the front of a byte stream holds. */
  datatype Front =
    | End
    | Bad(error: Error)
    | Record(record: FlowRecord, rest: seq<Byte>)

  /** `bytes` is what can still be read; after that the source `fails` or ends. Of fewer than
      eight bytes, even one to seven, an end is a clean one. */
  function First(bytes: seq<Byte>, fails: bool): (f: Front)
    ensures f.Record? ==> |f.rest| < |bytes|
  {
    if |bytes| < 8 then if fails then Bad(Io) else End
    else if bytes[0] != STORE_V1_VERSION then Bad(UnsupportedVersion(bytes[0]))
    else
      var n := 4 * (bytes[1] as int);
      if |bytes| < 8 + n then Bad(if fails then Io else TruncatedRecord)
      else
        match DecodeFrom(BeU32(bytes[4..8]), 0, n, bytes[8..8 + n], DEFAULT)
        case Ok(r) => Record(r, bytes[8 + n..])
        case Err(e) => Bad(e)
  }

  /** Everything a reader sees: the records up to the end or the first error, and that error. */
  function Drain(bytes: seq<Byte>, fails: bool): seq<Result<FlowRecord>>
    decreases |bytes|
  {
    match First(bytes, fails)
    case End => []
    case Bad(e) => [Err(e)]
    case Record(r, rest) => [Ok(r)] + Drain(rest, fails)
  }

  class FlowIter {
    const fails: bool  // whether the source breaks instead of ending
    var unread: seq<Byte>
    var done: bool

    ghost function Pending(): seq<Result<FlowRecord>>
      reads this
    {
      if done then [] else Drain(unread, fails)
    }

    constructor (bytes: seq<Byte>, fails: bool)
      ensures Pending() == Drain(bytes, fails)
    {
      this.fails := fails;
      unread := bytes;
      done := false;
    }

    /** `read_exact`: all `n` bytes, or an error and the source is spent. */
    method ReadExact(n: nat) returns (b: Result<seq<Byte>>)
      modifies `unread
      ensures b == if n <= |old(unread)| then Ok(old(unread)[..n]) else Err(if fails then Io else TruncatedRecord)
      ensures unread == if n <= |old(unread)| then old(unread)[n..] else []
    {
      if |unread| < n {
        unread := [];
        return Err(if fails then Io else TruncatedRecord);
      }
      b := Ok(unread[..n]);
      unread := unread[n..];
    }

    /** An end of file in place of the header is the end of the stream. */
    method ReadRecord() returns (res: Result<Option<FlowRecord>>)
      modifies `unread
      ensures match First(old(unread), fails)
              case End => res == Ok(None)
              case Bad(e) => res == Err(e)
              case Record(r, rest) => res == Ok(Some(r)) && unread == rest
    {
      ghost var bytes := unread;
      var h := ReadExact(8);
      if h == Err(TruncatedRecord) {
        return Ok(None);
      }
      var header :- h;
      if header[0] != STORE_V1_VERSION {
        return Err(UnsupportedVersion(header[0]));
      }
      var fields := BeU32(header[4..]);
      var payload :- ReadExact(4 * (header[1] as int));
      assert header[4..] == bytes[4..8];
      assert payload == bytes[8..8 + 4 * (header[1] as int)];
      var r :- DecodePayload(fields, payload);
      assert unread == bytes[8 + 4 * (header[1] as int)..];
      res := Ok(Some(r));
    }

    /** Hands out the pending items one by one and then stays exhausted. */
    method Next() returns (item: Option<Result<FlowRecord>>)
      modifies this
      ensures old(Pending()) == [] ==> item == None && Pending() == []
      ensures old(Pending()) != [] ==> item == Some(old(Pending())[0]) && Pending() == old(Pending())[1..]
    {
      if done {
        return None;
      }
      var res := ReadRecord();
      match res
      case Ok(Some(r)) =>
        item := Some(Ok(r));
      case Ok(None) =>
        done := true;
        item := None;
      case Err(e) =>
        done := true;
        item := Some(Err(e));
    }
  }

  // ----- the stream round trip -----

  /** A record to store, with its mask and the two reserved header bytes. */
  datatype Stored = Stored(fields: U32, reserved0: Byte, reserved1: Byte, record: FlowRecord)

  ghost predicate Writable(s: Stored) {
    Describes(s.fields, s.record)
  }

  ghost predicate AllWritable(stored: seq<Stored>) {
    forall i {:trigger stored[i]} :: 0 <= i < |stored| ==> Writable(stored[i])
  }

  ghost function Frame(s: Stored): (b: seq<Byte>)
    requires Writable(s)
    ensures |b| == 8 + SizeFrom(s.fields, 0)
  {
    PayloadSizeFits(s.fields);
    [STORE_V1_VERSION, SizeFrom(s.fields, 0) / 4, s.reserved0, s.reserved1]
    + BeBytes(s.fields, 4) + PayloadFrom(s.fields, 0, s.record)
  }

  ghost function Frames(stored: seq<Stored>): seq<Byte>
    requires AllWritable(stored)
  {
    if stored == [] then [] else Frame(stored[0]) + Frames(stored[1..])
  }

  ghost function Records(stored: seq<Stored>): seq<Result<FlowRecord>> {
    if stored == [] then [] else [Ok(stored[0].record)] + Records(stored[1..])
  }

  lemma {:induction false} FrameIsRead(s: Stored, tail: seq<Byte>, fails: bool)
    requires Writable(s)
    ensures First(Frame(s) + tail, fails) == Record(s.record, tail)
  {
    PayloadSizeFits(s.fields);
    var bytes, payload := Frame(s) + tail, PayloadFrom(s.fields, 0, s.record);
    U32RoundTrip(s.fields);
    assert bytes[4..8] == BeBytes(s.fields, 4);
    assert bytes[8..8 + |payload|] == payload && bytes[8 + |payload|..] == tail;
    DecodeEncoded(s.fields, 0, |payload|, s.record);
    assert Upto(s.record, 0) == DEFAULT;
  }

  /** Reading stored records gives them back in order, whatever follows them. */
  lemma {:induction false} DrainFrames(stored: seq<Stored>, tail: seq<Byte>, fails: bool)
    requires AllWritable(stored)
    ensures Drain(Frames(stored) + tail, fails) == Records(stored) + Drain(tail, fails)
  {
    if stored == [] {
      assert [] + tail == tail && [] + Drain(tail, fails) == Drain(tail, fails);
    } else {
      var s, rest := stored[0], stored[1..];
      assert Frames(stored) + tail == Frame(s) + (Frames(rest) + tail);
      FrameIsRead(s, Frames(rest) + tail, fails);
      DrainFrames(rest, tail, fails);
      assert [Ok(s.record)] + (Records(rest) + Drain(tail, fails)) == ([Ok(s.record)] + Records(rest)) + Drain(tail, fails);
    }
  }

  /** A log cut in the middle of a header reads as complete, exactly the stored records; only
      a source that breaks there is reported. */
  lemma {:induction false} StreamRoundTrip(stored: seq<Stored>, tail: seq<Byte>, fails: bool)
    requires AllWritable(stored) && |tail| < 8
    ensures Drain(Frames(stored) + tail, fails) == Records(stored) + if fails then [Err(Io)] else []
  {
    DrainFrames(stored, tail, fails);
  }

  /** A log cut anywhere inside a payload gives the whole records and then one error. */
  lemma {:induction false} CutRecordIsReported(stored: seq<Stored>, last: Stored, cut: nat, fails: bool)
    requires AllWritable(stored) && Writable(last) && 8 <= cut < |Frame(last)|
    ensures Drain(Frames(stored) + Frame(last)[..cut], fails)
      == Records(stored) + [Err(if fails then Io else TruncatedRecord)]
  {
    DrainFrames(stored, Frame(last)[..cut], fails);
    PayloadSizeFits(last.fields);
  }

  /** Only the last item of a stream can be an error. */
  lemma {:induction false} ErrorsEndTheStream(bytes: seq<Byte>, fails: bool, i: nat)
    requires i + 1 < |Drain(bytes, fails)|
    ensures Drain(bytes, fails)[i].Ok?
    decreases |bytes|
  {
    if i > 0 {
      var f := First(bytes, fails);
      ErrorsEndTheStream(f.rest, fails, i - 1);
    }
  }
}
