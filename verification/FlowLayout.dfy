// Where every field of a record stands in its payload, written out in bits and bytes.
module FlowLayout {
  import opened Options
  import opened Bytes
  import opened FlowRecords
  import opened FlowdStore

  // ----- the mask -----

  function Pow2(i: nat): (p: nat)
    ensures p > 0
  {
    if i == 0 then 1 else 2 * Pow2(i - 1)
  }

  /** Bit `i` of the mask. */
  predicate Set(fields: nat, i: nat) {
    fields / Pow2(i) % 2 == 1
  }

  lemma {:induction false} BitIsSet(fields: nat, i: nat)
    ensures Bit(fields, i) <==> Set(fields, i)
  {
    if i > 0 {
      BitIsSet(fields / 2, i - 1);
      DivideTwice(fields, Pow2(i - 1));
    }
  }

  lemma DivideTwice(x: nat, p: nat)
    requires p > 0
    ensures x / (2 * p) == x / 2 / p
  {
    var q := x / 2 / p;
    var r := x / 2 - q * p;
    assert 0 <= r < p;
    assert x == 2 * (q * p + r) + x % 2;
    assert q * (2 * p) == 2 * (q * p);
    assert 0 <= x - q * (2 * p) < 2 * p;
    Quotient(x, 2 * p, q);
  }

  lemma Quotient(x: nat, d: nat, q: nat)
    requires d > 0 && 0 <= x - q * d < d
    ensures x / d == q
  {
    var k := x / d;
    assert x == d * k + x % d;
    if k < q {
      AtLeastOnce(q - k, d, q, k);
    } else if q < k {
      AtLeastOnce(k - q, d, k, q);
    }
  }

  lemma AtLeastOnce(a: nat, d: nat, q: nat, k: nat)
    requires a >= 1 && a == q - k
    ensures q * d - k * d >= d
  {
    assert q * d == (k + a) * d == k * d + a * d;
    assert a * d == (a - 1) * d + d;
  }

  /** Bytes of the sub-record of a bit; bits without one take none. */
  function Extent(bit: nat): nat {
    match bit
    case 0 => 4 case 1 => 8 case 2 => 4
    case 3 => 4 case 4 => 16 case 5 => 4 case 6 => 16 case 7 => 4 case 8 => 16 case 9 => 4 case 10 => 16
    case 11 => 4 case 12 => 8 case 13 => 8 case 14 => 8
    case 15 => 16 case 16 => 8 case 17 => 12 case 18 => 12
    case 30 => 4
    case _ => 0
  }

  /** The bits that are set. */
  ghost function BitsOf(fields: nat): set<nat> {
    set i: nat | i < 31 && Set(fields, i)
  }

  /** Where the sub-record of a bit stands: behind those of the lower bits. */
  function Start(bits: set<nat>, bit: nat): nat {
    if bit == 0 then 0 else Start(bits, bit - 1) + if bit - 1 in bits then Extent(bit - 1) else 0
  }

  // ----- the record -----

  /** The bit is set and below `n`. */
  predicate On(bits: set<nat>, bit: nat, n: nat) {
    bit < n && bit in bits
  }

  function Word(p: seq<Byte>, bits: set<nat>, at: nat -> nat, bit: nat, n: nat, o: nat): Option<U32> {
    if On(bits, bit, n) then Some(Quad(p, at(bit) + o)) else None
  }

  function Half(p: seq<Byte>, bits: set<nat>, at: nat -> nat, bit: nat, n: nat, o: nat): Option<U16> {
    if On(bits, bit, n) then Some(Two(p, at(bit) + o)) else None
  }

  function Single(p: seq<Byte>, bits: set<nat>, at: nat -> nat, bit: nat, n: nat, o: nat): Option<Byte> {
    if On(bits, bit, n) && at(bit) + o < |p| then Some(p[at(bit) + o]) else None
  }

  function Wide(p: seq<Byte>, bits: set<nat>, at: nat -> nat, bit: nat, n: nat): Option<U64> {
    if On(bits, bit, n) then Some(Long(p, at(bit))) else None
  }

  /** The address of a pair of bits; the second one wins. */
  function Addr(p: seq<Byte>, bits: set<nat>, at: nat -> nat, four: nat, n: nat): Option<IpAddr> {
    var (o4, o6) := (at(four), at(four + 1));
    if On(bits, four + 1, n) && o6 + 16 <= |p| then Some(V6(p[o6..o6 + 16]))
    else if On(bits, four, n) && o4 + 4 <= |p| then Some(V4(p[o4..o4 + 4]))
    else None
  }

  /** The record that the bits below `n` describe; the sub-record of a bit starts at `at(bit)`. */
  function Layout(bits: set<nat>, at: nat -> nat, p: seq<Byte>, n: nat): FlowRecord {
    FlowRecord(
      Word(p, bits, at, 0, n, 0), Word(p, bits, at, 1, n, 0), Word(p, bits, at, 1, n, 4),
      Single(p, bits, at, 2, n, 0), Single(p, bits, at, 2, n, 1), Single(p, bits, at, 2, n, 2),
      Addr(p, bits, at, 3, n), Addr(p, bits, at, 5, n), Addr(p, bits, at, 7, n), Addr(p, bits, at, 9, n),
      Half(p, bits, at, 11, n, 0), Half(p, bits, at, 11, n, 2), Wide(p, bits, at, 12, n), Wide(p, bits, at, 13, n),
      Word(p, bits, at, 14, n, 0), Word(p, bits, at, 14, n, 4),
      Word(p, bits, at, 15, n, 0), Word(p, bits, at, 15, n, 4), Word(p, bits, at, 15, n, 8), Half(p, bits, at, 15, n, 12),
      Word(p, bits, at, 16, n, 0), Word(p, bits, at, 16, n, 4),
      Word(p, bits, at, 17, n, 0), Word(p, bits, at, 17, n, 4), Single(p, bits, at, 17, n, 8), Single(p, bits, at, 17, n, 9),
      Half(p, bits, at, 18, n, 0), Half(p, bits, at, 18, n, 2), Word(p, bits, at, 18, n, 4), Word(p, bits, at, 18, n, 8),
      Word(p, bits, at, 30, n, 0))
  }

  // ----- the decoder follows the layout -----

  function Starts(bits: set<nat>): nat -> nat {
    i => Start(bits, i)
  }

  /** Sub-record `k` in the order of the decoder belongs to this bit. */
  function BitOf(k: nat): nat {
    if k >= 19 then 30 else k
  }

  lemma HasIsSet(fields: U32, k: nat)
    requires k < KINDS
    ensures Has(fields, k) <==> BitOf(k) in BitsOf(fields)
    ensures Width(k) == Extent(BitOf(k))
  {
    BitIsSet(fields, BitOf(k));
  }

  lemma StartNext(fields: U32, k: nat)
    requires k < KINDS
    ensures Start(BitsOf(fields), if k == 19 then 31 else k + 1) == Start(BitsOf(fields), BitOf(k)) + if Has(fields, k) then Width(k) else 0
    ensures k == 18 ==> Start(BitsOf(fields), 30) == Start(BitsOf(fields), 19)
  {
    HasIsSet(fields, k);
    GapIsEmpty(BitsOf(fields));
  }

  /** The bits 19 to 29 take no bytes. */
  lemma GapIsEmpty(bits: set<nat>)
    ensures Start(bits, 30) == Start(bits, 19)
  {
    assert Start(bits, 21) == Start(bits, 20) == Start(bits, 19);
    assert Start(bits, 23) == Start(bits, 22) == Start(bits, 21);
    assert Start(bits, 25) == Start(bits, 24) == Start(bits, 23);
    assert Start(bits, 27) == Start(bits, 26) == Start(bits, 25);
    assert Start(bits, 29) == Start(bits, 28) == Start(bits, 27);
  }

  /** The bit that the decoder comes to next, before sub-record `k`. */
  function BitsBefore(k: nat): nat {
    if k >= 20 then 31 else k
  }

  lemma SkippedStays(fields: U32, p: seq<Byte>, k: nat)
    requires k < KINDS && !Has(fields, k)
    ensures Layout(BitsOf(fields), Starts(BitsOf(fields)), p, BitsBefore(k + 1)) == Layout(BitsOf(fields), Starts(BitsOf(fields)), p, BitsBefore(k))
  {
    HasIsSet(fields, k);
    if k == 19 {
      LastSkipped(BitsOf(fields), Starts(BitsOf(fields)), p);
    } else {
      Skipped(BitsOf(fields), Starts(BitsOf(fields)), p, k);
    }
  }

  lemma Skipped(bits: set<nat>, at: nat -> nat, p: seq<Byte>, n: nat)
    requires n !in bits
    ensures Layout(bits, at, p, n + 1) == Layout(bits, at, p, n)
  {
    assert forall bit: nat :: On(bits, bit, n + 1) <==> On(bits, bit, n);
  }

  lemma LastSkipped(bits: set<nat>, at: nat -> nat, p: seq<Byte>)
    requires 30 !in bits
    ensures Layout(bits, at, p, 31) == Layout(bits, at, p, 19)
  {
    assert forall bit: nat :: bit < 19 || bit == 30 ==> (On(bits, bit, 31) <==> On(bits, bit, 19));
  }

  lemma Read0(bits: set<nat>, at: nat -> nat, p: seq<Byte>, b: seq<Byte>)
    requires 0 in bits && at(0) + 4 <= |p| && b == p[at(0)..at(0) + 4]
    ensures Apply(0, b, Layout(bits, at, p, 0)) == Layout(bits, at, p, 1)
  {
    QuadIsBe(b);
  }

  lemma Read1(bits: set<nat>, at: nat -> nat, p: seq<Byte>, b: seq<Byte>)
    requires 1 in bits && at(1) + 8 <= |p| && b == p[at(1)..at(1) + 8]
    ensures Apply(1, b, Layout(bits, at, p, 1)) == Layout(bits, at, p, 2)
  {
    QuadIsBe(b[..4]);
    QuadIsBe(b[4..]);
  }

  lemma Read2(bits: set<nat>, at: nat -> nat, p: seq<Byte>, b: seq<Byte>)
    requires 2 in bits && at(2) + 4 <= |p| && b == p[at(2)..at(2) + 4]
    ensures Apply(2, b, Layout(bits, at, p, 2)) == Layout(bits, at, p, 3)
  {
  }

  lemma Read3(bits: set<nat>, at: nat -> nat, p: seq<Byte>, b: seq<Byte>)
    requires 3 in bits && at(3) + 4 <= |p| && b == p[at(3)..at(3) + 4]
    ensures Apply(3, b, Layout(bits, at, p, 3)) == Layout(bits, at, p, 4)
  {
  }

  lemma Read4(bits: set<nat>, at: nat -> nat, p: seq<Byte>, b: seq<Byte>)
    requires 4 in bits && at(4) + 16 <= |p| && b == p[at(4)..at(4) + 16]
    ensures Apply(4, b, Layout(bits, at, p, 4)) == Layout(bits, at, p, 5)
  {
  }

  lemma Read5(bits: set<nat>, at: nat -> nat, p: seq<Byte>, b: seq<Byte>)
    requires 5 in bits && at(5) + 4 <= |p| && b == p[at(5)..at(5) + 4]
    ensures Apply(5, b, Layout(bits, at, p, 5)) == Layout(bits, at, p, 6)
  {
  }

  lemma Read6(bits: set<nat>, at: nat -> nat, p: seq<Byte>, b: seq<Byte>)
    requires 6 in bits && at(6) + 16 <= |p| && b == p[at(6)..at(6) + 16]
    ensures Apply(6, b, Layout(bits, at, p, 6)) == Layout(bits, at, p, 7)
  {
  }

  lemma Read7(bits: set<nat>, at: nat -> nat, p: seq<Byte>, b: seq<Byte>)
    requires 7 in bits && at(7) + 4 <= |p| && b == p[at(7)..at(7) + 4]
    ensures Apply(7, b, Layout(bits, at, p, 7)) == Layout(bits, at, p, 8)
  {
  }

  lemma Read8(bits: set<nat>, at: nat -> nat, p: seq<Byte>, b: seq<Byte>)
    requires 8 in bits && at(8) + 16 <= |p| && b == p[at(8)..at(8) + 16]
    ensures Apply(8, b, Layout(bits, at, p, 8)) == Layout(bits, at, p, 9)
  {
  }

  lemma Read9(bits: set<nat>, at: nat -> nat, p: seq<Byte>, b: seq<Byte>)
    requires 9 in bits && at(9) + 4 <= |p| && b == p[at(9)..at(9) + 4]
    ensures Apply(9, b, Layout(bits, at, p, 9)) == Layout(bits, at, p, 10)
  {
  }

  lemma Read10(bits: set<nat>, at: nat -> nat, p: seq<Byte>, b: seq<Byte>)
    requires 10 in bits && at(10) + 16 <= |p| && b == p[at(10)..at(10) + 16]
    ensures Apply(10, b, Layout(bits, at, p, 10)) == Layout(bits, at, p, 11)
  {
  }

  lemma Read11(bits: set<nat>, at: nat -> nat, p: seq<Byte>, b: seq<Byte>)
    requires 11 in bits && at(11) + 4 <= |p| && b == p[at(11)..at(11) + 4]
    ensures Apply(11, b, Layout(bits, at, p, 11)) == Layout(bits, at, p, 12)
  {
    TwoAt(p, at(11), b, 0);
    TwoAt(p, at(11), b, 2);
    assert b[..2] == b[0..2] && b[2..] == b[2..4];
  }

  lemma Read12(bits: set<nat>, at: nat -> nat, p: seq<Byte>, b: seq<Byte>)
    requires 12 in bits && at(12) + 8 <= |p| && b == p[at(12)..at(12) + 8]
    ensures Apply(12, b, Layout(bits, at, p, 12)) == Layout(bits, at, p, 13)
  {
    LongIsBe(b);
  }

  lemma Read13(bits: set<nat>, at: nat -> nat, p: seq<Byte>, b: seq<Byte>)
    requires 13 in bits && at(13) + 8 <= |p| && b == p[at(13)..at(13) + 8]
    ensures Apply(13, b, Layout(bits, at, p, 13)) == Layout(bits, at, p, 14)
  {
    LongIsBe(b);
  }

  lemma Read14(bits: set<nat>, at: nat -> nat, p: seq<Byte>, b: seq<Byte>)
    requires 14 in bits && at(14) + 8 <= |p| && b == p[at(14)..at(14) + 8]
    ensures Apply(14, b, Layout(bits, at, p, 14)) == Layout(bits, at, p, 15)
  {
    QuadIsBe(b[..4]);
    QuadIsBe(b[4..]);
  }

  lemma Read15(bits: set<nat>, at: nat -> nat, p: seq<Byte>, b: seq<Byte>)
    requires 15 in bits && at(15) + 16 <= |p| && b == p[at(15)..at(15) + 16]
    ensures Apply(15, b, Layout(bits, at, p, 15)) == Layout(bits, at, p, 16)
  {
    QuadAt(p, at(15), b, 0);
    QuadAt(p, at(15), b, 4);
    QuadAt(p, at(15), b, 8);
    TwoAt(p, at(15), b, 12);
    assert b[..4] == b[0..4];
  }

  lemma Read16(bits: set<nat>, at: nat -> nat, p: seq<Byte>, b: seq<Byte>)
    requires 16 in bits && at(16) + 8 <= |p| && b == p[at(16)..at(16) + 8]
    ensures Apply(16, b, Layout(bits, at, p, 16)) == Layout(bits, at, p, 17)
  {
    QuadIsBe(b[..4]);
    QuadIsBe(b[4..]);
  }

  lemma Read17(bits: set<nat>, at: nat -> nat, p: seq<Byte>, b: seq<Byte>)
    requires 17 in bits && at(17) + 12 <= |p| && b == p[at(17)..at(17) + 12]
    ensures Apply(17, b, Layout(bits, at, p, 17)) == Layout(bits, at, p, 18)
  {
    QuadIsBe(b[..4]);
    QuadIsBe(b[4..8]);
  }

  lemma Read18(bits: set<nat>, at: nat -> nat, p: seq<Byte>, b: seq<Byte>)
    requires 18 in bits && at(18) + 12 <= |p| && b == p[at(18)..at(18) + 12]
    ensures Apply(18, b, Layout(bits, at, p, 18)) == Layout(bits, at, p, 19)
  {
    TwoAt(p, at(18), b, 0);
    TwoAt(p, at(18), b, 2);
    QuadAt(p, at(18), b, 4);
    QuadAt(p, at(18), b, 8);
    assert b[..2] == b[0..2] && b[8..] == b[8..12];
  }

  lemma Read30(bits: set<nat>, at: nat -> nat, p: seq<Byte>, b: seq<Byte>)
    requires 30 in bits && at(30) + 4 <= |p| && b == p[at(30)..at(30) + 4]
    ensures Apply(19, b, Layout(bits, at, p, 19)) == Layout(bits, at, p, 31)
  {
    QuadIsBe(b);
  }

  lemma ReadHead(bits: set<nat>, at: nat -> nat, p: seq<Byte>, k: nat, b: seq<Byte>)
    requires k < 5 && BitOf(k) in bits && |b| == Width(k) == Extent(BitOf(k))
    requires at(BitOf(k)) + Width(k) <= |p| && b == p[at(BitOf(k))..at(BitOf(k)) + Width(k)]
    ensures Apply(k, b, Layout(bits, at, p, BitsBefore(k))) == Layout(bits, at, p, BitsBefore(k + 1))
  {
    match k {
      case 0 => Read0(bits, at, p, b);
      case 1 => Read1(bits, at, p, b);
      case 2 => Read2(bits, at, p, b);
      case 3 => Read3(bits, at, p, b);
      case 4 => Read4(bits, at, p, b);
    }
  }

  lemma ReadAddresses(bits: set<nat>, at: nat -> nat, p: seq<Byte>, k: nat, b: seq<Byte>)
    requires 5 <= k < 10 && BitOf(k) in bits && |b| == Width(k) == Extent(BitOf(k))
    requires at(BitOf(k)) + Width(k) <= |p| && b == p[at(BitOf(k))..at(BitOf(k)) + Width(k)]
    ensures Apply(k, b, Layout(bits, at, p, BitsBefore(k))) == Layout(bits, at, p, BitsBefore(k + 1))
  {
    match k {
      case 5 => Read5(bits, at, p, b);
      case 6 => Read6(bits, at, p, b);
      case 7 => Read7(bits, at, p, b);
      case 8 => Read8(bits, at, p, b);
      case 9 => Read9(bits, at, p, b);
    }
  }

  lemma ReadCounters(bits: set<nat>, at: nat -> nat, p: seq<Byte>, k: nat, b: seq<Byte>)
    requires 10 <= k < 15 && BitOf(k) in bits && |b| == Width(k) == Extent(BitOf(k))
    requires at(BitOf(k)) + Width(k) <= |p| && b == p[at(BitOf(k))..at(BitOf(k)) + Width(k)]
    ensures Apply(k, b, Layout(bits, at, p, BitsBefore(k))) == Layout(bits, at, p, BitsBefore(k + 1))
  {
    match k {
      case 10 => Read10(bits, at, p, b);
      case 11 => Read11(bits, at, p, b);
      case 12 => Read12(bits, at, p, b);
      case 13 => Read13(bits, at, p, b);
      case 14 => Read14(bits, at, p, b);
    }
  }

  lemma ReadTail(bits: set<nat>, at: nat -> nat, p: seq<Byte>, k: nat, b: seq<Byte>)
    requires 15 <= k < 20 && BitOf(k) in bits && |b| == Width(k) == Extent(BitOf(k))
    requires at(BitOf(k)) + Width(k) <= |p| && b == p[at(BitOf(k))..at(BitOf(k)) + Width(k)]
    ensures Apply(k, b, Layout(bits, at, p, BitsBefore(k))) == Layout(bits, at, p, BitsBefore(k + 1))
  {
    match k {
      case 15 => Read15(bits, at, p, b);
      case 16 => Read16(bits, at, p, b);
      case 17 => Read17(bits, at, p, b);
      case 18 => Read18(bits, at, p, b);
      case 19 => Read30(bits, at, p, b);
    }
  }

  /** Reading sub-record `k` from its place extends the layout. */
  lemma ReadExtends(bits: set<nat>, at: nat -> nat, p: seq<Byte>, k: nat, b: seq<Byte>)
    requires k < KINDS && BitOf(k) in bits && |b| == Width(k) == Extent(BitOf(k))
    requires at(BitOf(k)) + Width(k) <= |p| && b == p[at(BitOf(k))..at(BitOf(k)) + Width(k)]
    ensures Apply(k, b, Layout(bits, at, p, BitsBefore(k))) == Layout(bits, at, p, BitsBefore(k + 1))
  {
    if k < 5 {
      ReadHead(bits, at, p, k, b);
    } else if k < 10 {
      ReadAddresses(bits, at, p, k, b);
    } else if k < 15 {
      ReadCounters(bits, at, p, k, b);
    } else {
      ReadTail(bits, at, p, k, b);
    }
  }

  /** Where sub-record `k` starts when the mask has it; the end of the record for `KINDS`. */
  ghost function Place(fields: U32, k: nat): nat
    requires k <= KINDS
  {
    Start(BitsOf(fields), if k == KINDS then 31 else BitOf(k))
  }

  ghost function Before(fields: U32, p: seq<Byte>, k: nat): FlowRecord {
    Layout(BitsOf(fields), Starts(BitsOf(fields)), p, BitsBefore(k))
  }

  lemma Step(fields: U32, k: nat)
    requires k < KINDS
    ensures Place(fields, k + 1) == Place(fields, k) + if Has(fields, k) then Width(k) else 0
    ensures Place(fields, k + 1) <= Place(fields, KINDS)
  {
    StartNext(fields, k);
    StartGrows(BitsOf(fields), if k == 18 then 30 else BitsBefore(k + 1), 31);
  }

  lemma Extends(fields: U32, k: nat, p: seq<Byte>, b: seq<Byte>)
    requires k < KINDS && Has(fields, k) && |b| == Width(k)
    requires Place(fields, k) + |b| <= |p| && b == p[Place(fields, k)..Place(fields, k) + |b|]
    ensures Before(fields, p, k + 1) == Apply(k, b, Before(fields, p, k))
  {
    HasIsSet(fields, k);
    ReadExtends(BitsOf(fields), Starts(BitsOf(fields)), p, k, b);
  }

  lemma Shift(payload: seq<Byte>, bytes: seq<Byte>, o: nat, w: nat)
    requires o <= |payload| && bytes == payload[o..] && w <= |bytes|
    ensures bytes[..w] == payload[o..o + w] && bytes[w..] == payload[o + w..]
  {
  }

  /** What is left when the sub-records before `k` are read. */
  ghost predicate Reached(fields: U32, k: nat, payload: seq<Byte>, bytes: seq<Byte>, r: FlowRecord)
    requires k <= KINDS
  {
    Place(fields, k) <= |payload| && bytes == payload[Place(fields, k)..] && r == Before(fields, payload, k)
  }

  lemma Skip(fields: U32, k: nat, payload: seq<Byte>, bytes: seq<Byte>, r: FlowRecord)
    requires k < KINDS && !Has(fields, k) && Reached(fields, k, payload, bytes, r)
    ensures Reached(fields, k + 1, payload, bytes, r)
  {
    Step(fields, k);
    SkippedStays(fields, payload, k);
  }

  lemma Take(fields: U32, k: nat, payload: seq<Byte>, bytes: seq<Byte>, r: FlowRecord)
    requires k < KINDS && Has(fields, k) && |bytes| >= Width(k) && Reached(fields, k, payload, bytes, r)
    ensures Reached(fields, k + 1, payload, bytes[Width(k)..], Apply(k, bytes[..Width(k)], r))
  {
    Step(fields, k);
    Shift(payload, bytes, Place(fields, k), Width(k));
    Extends(fields, k, payload, bytes[..Width(k)]);
  }

  lemma Finished(fields: U32, payload: seq<Byte>, bytes: seq<Byte>, r: FlowRecord)
    requires Reached(fields, KINDS, payload, bytes, r)
    ensures DecodeFrom(fields, KINDS, |payload|, bytes, r) == Decoded(fields, payload)
  {
  }

  lemma TooShort(fields: U32, k: nat, payload: seq<Byte>, bytes: seq<Byte>, r: FlowRecord)
    requires k < KINDS && Has(fields, k) && |bytes| < Width(k) && Reached(fields, k, payload, bytes, r)
    ensures Decoded(fields, payload) == Err(TruncatedRecord)
  {
    Step(fields, k);
  }

  lemma {:induction false} DecodedFrom(fields: U32, k: nat, payload: seq<Byte>, bytes: seq<Byte>, r: FlowRecord)
    requires k <= KINDS && |bytes| <= |payload| && Reached(fields, k, payload, bytes, r)
    ensures DecodeFrom(fields, k, |payload|, bytes, r) == Decoded(fields, payload)
    decreases KINDS - k
  {
    if k == KINDS {
      Finished(fields, payload, bytes, r);
    } else if !Has(fields, k) {
      Skip(fields, k, payload, bytes, r);
      DecodedFrom(fields, k + 1, payload, bytes, r);
    } else if |bytes| < Width(k) {
      TooShort(fields, k, payload, bytes, r);
    } else {
      Take(fields, k, payload, bytes, r);
      DecodedFrom(fields, k + 1, payload, bytes[Width(k)..], Apply(k, bytes[..Width(k)], r));
    }
  }

  lemma {:induction false} StartGrows(bits: set<nat>, i: nat, j: nat)
    requires i <= j
    ensures Start(bits, i) <= Start(bits, j)
  {
    if i < j {
      StartGrows(bits, i, j - 1);
    }
  }

  /** What decoding a payload under a mask gives. */
  ghost function Decoded(fields: U32, payload: seq<Byte>): Result<FlowRecord> {
    var size := Start(BitsOf(fields), 31);
    if |payload| < size then Err(TruncatedRecord)
    else if |payload| > size then Err(PayloadMismatch(|payload|, size, fields))
    else Ok(Layout(BitsOf(fields), Starts(BitsOf(fields)), payload, 31))
  }

  /** Every payload under every mask is decoded by the layout. */
  lemma DecodingFollowsTheLayout(fields: U32, payload: seq<Byte>)
    ensures DecodeFrom(fields, 0, |payload|, payload, DEFAULT) == Decoded(fields, payload)
  {
    assert Before(fields, payload, 0) == DEFAULT;
    DecodedFrom(fields, 0, payload, payload, DEFAULT);
  }

  // ----- the frame -----

  lemma MaskAt(bytes: seq<Byte>)
    requires |bytes| >= 8
    ensures BeU32(bytes[4..8]) == Quad(bytes, 4)
  {
    QuadIsBe(bytes[4..8]);
  }

  lemma WholeFrame(bytes: seq<Byte>, fails: bool, n: nat, d: Result<FlowRecord>)
    requires |bytes| >= 8 + n && n == 4 * At(bytes, 1) && bytes[0] == 0x60
    requires d == DecodeFrom(BeU32(bytes[4..8]), 0, n, bytes[8..8 + n], DEFAULT)
    ensures First(bytes, fails) == match d case Ok(r) => Record(r, bytes[8 + n..]) case Err(e) => Bad(e)
  {
  }

  /** A record starts with the version byte 0x60, the payload length in words of four bytes, two
      bytes without meaning and the mask; then comes the payload. */
  lemma FramesFollowTheLayout(bytes: seq<Byte>, fails: bool)
    ensures |bytes| < 8 ==> First(bytes, fails) == if fails then Bad(Io) else End
    ensures |bytes| >= 8 && bytes[0] != 0x60 ==> First(bytes, fails) == Bad(UnsupportedVersion(bytes[0]))
    ensures |bytes| >= 8 && bytes[0] == 0x60 && |bytes| < 8 + 4 * At(bytes, 1) ==>
      First(bytes, fails) == Bad(if fails then Io else TruncatedRecord)
    ensures |bytes| >= 8 && bytes[0] == 0x60 && |bytes| >= 8 + 4 * At(bytes, 1) ==>
      First(bytes, fails) == match Decoded(Quad(bytes, 4), bytes[8..8 + 4 * At(bytes, 1)])
        case Ok(r) => Record(r, bytes[8 + 4 * At(bytes, 1)..])
        case Err(e) => Bad(e)
  {
    if |bytes| >= 8 && bytes[0] == 0x60 && |bytes| >= 8 + 4 * At(bytes, 1) {
      var payload := bytes[8..8 + 4 * At(bytes, 1)];
      MaskAt(bytes);
      DecodingFollowsTheLayout(Quad(bytes, 4), payload);
      WholeFrame(bytes, fails, |payload|, Decoded(Quad(bytes, 4), payload));
    }
  }
}
