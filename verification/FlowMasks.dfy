// What a decoded record says about its mask: the other half of the record round trip.
module FlowMasks {
  import opened Bytes
  import opened FlowRecords

  predicate Four(k: nat) {
    k == AGENT_ADDR4 || k == SRC_ADDR4 || k == DST_ADDR4 || k == GATEWAY_ADDR4
  }

  predicate PairedBits(fields: U32, four: nat) {
    Four(four) && Has(fields, four) && Has(fields, four + 1)
  }

  /** The mask never has both address bits of a pair. */
  ghost predicate OneAddressEach(fields: U32) {
    forall k: nat {:trigger PairedBits(fields, k)} :: !PairedBits(fields, k)
  }

  // ----- the mask that counts -----

  /** The mask without bit `i`. */
  function Clear(fields: nat, i: nat): (r: nat)
    ensures r <= fields
  {
    if i == 0 then fields / 2 * 2 else 2 * Clear(fields / 2, i - 1) + fields % 2
  }

  lemma {:induction false} ClearBit(fields: nat, i: nat, j: nat)
    ensures Bit(Clear(fields, i), j) <==> j != i && Bit(fields, j)
  {
    if i > 0 && j > 0 {
      ClearBit(fields / 2, i - 1, j - 1);
      assert Clear(fields, i) / 2 == Clear(fields / 2, i - 1);
    }
  }

  /** Before sub-record `k`: the second address of a pair has overwritten the first. */
  function WithoutFirst(fields: U32, four: nat, k: nat): U32 {
    if four + 1 < k && PairedBits(fields, four) then Clear(fields, four) else fields
  }

  /** The mask without the addresses that were overwritten before sub-record `k`. */
  function Single(fields: U32, k: nat): U32 {
    var agent := WithoutFirst(fields, AGENT_ADDR4, k);
    var src := WithoutFirst(agent, SRC_ADDR4, k);
    var dst := WithoutFirst(src, DST_ADDR4, k);
    WithoutFirst(dst, GATEWAY_ADDR4, k)
  }

  predicate Overwritten(fields: U32, k: nat, j: nat) {
    j + 1 < k && PairedBits(fields, j)
  }

  lemma WithoutFirstHas(fields: U32, four: nat, k: nat, j: nat)
    requires Four(four) && j < KINDS
    ensures Has(WithoutFirst(fields, four, k), j) <==> Has(fields, j) && !(j == four && Overwritten(fields, k, j))
  {
    ClearBit(fields, four, if j == CRC32 then 30 else j);
  }

  lemma SingleHas(fields: U32, k: nat, j: nat)
    requires j < KINDS
    ensures Has(Single(fields, k), j) <==> Has(fields, j) && !Overwritten(fields, k, j)
  {
    var agent := WithoutFirst(fields, AGENT_ADDR4, k);
    var src := WithoutFirst(agent, SRC_ADDR4, k);
    var dst := WithoutFirst(src, DST_ADDR4, k);
    WithoutFirstHas(fields, AGENT_ADDR4, k, j);
    WithoutFirstHas(agent, SRC_ADDR4, k, j);
    WithoutFirstHas(src, DST_ADDR4, k, j);
    WithoutFirstHas(dst, GATEWAY_ADDR4, k, j);
    if Four(j) {
      WithoutFirstHas(fields, AGENT_ADDR4, k, j + 1);
      WithoutFirstHas(agent, SRC_ADDR4, k, j + 1);
      WithoutFirstHas(src, DST_ADDR4, k, j + 1);
    }
  }

  /** Only the bit of a sub-record decides whether it matches. */
  lemma MatchesByBit(f: U32, g: U32, j: nat, r: FlowRecord)
    requires Has(f, j) == Has(g, j)
    ensures Matches(f, j, r) <==> Matches(g, j, r)
  {
  }

  // ----- decoding -----

  lemma SkipExtends(fields: U32, k: nat, r: FlowRecord)
    requires k < KINDS && !Has(fields, k) && r == Upto(r, k)
    ensures Matches(fields, k, r) && r == Upto(r, k + 1)
  {
  }

  /** The second address of a pair. */
  predicate Six(k: nat) {
    k > 0 && Four(k - 1)
  }

  /** Reading sub-record `k` sets its fields, and of what came before changes at most the other
      address of its pair. */
  lemma ApplyExtends(fields: U32, k: nat, b: seq<Byte>, r: FlowRecord)
    requires k < KINDS && |b| == Width(k) && Has(fields, k) && r == Upto(r, k)
    ensures var s := Apply(k, b, r); s == Upto(s, k + 1) && Matches(fields, k, s)
  {
  }

  lemma ApplyKeeps(fields: U32, k: nat, b: seq<Byte>, r: FlowRecord, j: nat)
    requires k < KINDS && |b| == Width(k) && j < k && r == Upto(r, k) && !(Six(k) && j == k - 1)
    ensures Matches(fields, j, Apply(k, b, r)) <==> Matches(fields, j, r)
  {
    if k < SRCDST_PORT {
      AddressKeeps(fields, k, b, r, j);
    } else {
      CounterKeeps(fields, k, b, r, j);
    }
  }

  lemma AddressKeeps(fields: U32, k: nat, b: seq<Byte>, r: FlowRecord, j: nat)
    requires k < SRCDST_PORT && |b| == Width(k) && j < k && r == Upto(r, k) && !(Six(k) && j == k - 1)
    ensures Matches(fields, j, Apply(k, b, r)) <==> Matches(fields, j, r)
  {
  }

  lemma CounterKeeps(fields: U32, k: nat, b: seq<Byte>, r: FlowRecord, j: nat)
    requires SRCDST_PORT <= k < KINDS && |b| == Width(k) && j < k
    ensures Matches(fields, j, Apply(k, b, r)) <==> Matches(fields, j, r)
  {
  }

  lemma ApplyOverwrites(fields: U32, k: nat, b: seq<Byte>, r: FlowRecord)
    requires k < KINDS && |b| == Width(k) && Six(k) && !Has(fields, k - 1)
    ensures Matches(fields, k - 1, Apply(k, b, r))
  {
  }

  /** The record holds what the mask bits before `k` say, and nothing of the rest. */
  ghost predicate DescribesUpTo(fields: U32, k: nat, r: FlowRecord) {
    r == Upto(r, k) && forall j: nat {:trigger Matches(fields, j, r)} :: j < k ==> Matches(fields, j, r)
  }

  lemma TakeExtends(fields: U32, k: nat, b: seq<Byte>, r: FlowRecord)
    requires k < KINDS && |b| == Width(k) && Has(fields, k) && DescribesUpTo(Single(fields, k), k, r)
    ensures DescribesUpTo(Single(fields, k + 1), k + 1, Apply(k, b, r))
  {
    var f, g, s := Single(fields, k), Single(fields, k + 1), Apply(k, b, r);
    SingleHas(fields, k + 1, k);
    ApplyExtends(g, k, b, r);
    forall j: nat {:trigger Matches(g, j, s)} | j < k
      ensures Matches(g, j, s)
    {
      SingleHas(fields, k, j);
      SingleHas(fields, k + 1, j);
      if Six(k) && j == k - 1 {
        ApplyOverwrites(g, k, b, r);
      } else {
        assert Matches(f, j, r);
        MatchesByBit(f, g, j, r);
        ApplyKeeps(g, k, b, r, j);
      }
    }
  }

  lemma SkipKeeps(fields: U32, k: nat, r: FlowRecord)
    requires k < KINDS && !Has(fields, k) && DescribesUpTo(Single(fields, k), k, r)
    ensures DescribesUpTo(Single(fields, k + 1), k + 1, r)
  {
    var f, g := Single(fields, k), Single(fields, k + 1);
    SingleHas(fields, k + 1, k);
    SkipExtends(g, k, r);
    forall j: nat {:trigger Matches(g, j, r)} | j < k
      ensures Matches(g, j, r)
    {
      SingleHas(fields, k, j);
      SingleHas(fields, k + 1, j);
      assert Matches(f, j, r);
      MatchesByBit(f, g, j, r);
    }
  }

  lemma {:induction false} DescribedFrom(fields: U32, k: nat, total: nat, bytes: seq<Byte>, r: FlowRecord)
    requires k <= KINDS && |bytes| <= total && DescribesUpTo(Single(fields, k), k, r)
    requires DecodeFrom(fields, k, total, bytes, r).Ok?
    ensures Describes(Single(fields, KINDS), DecodeFrom(fields, k, total, bytes, r).value)
    decreases KINDS - k
  {
    if k < KINDS {
      if Has(fields, k) {
        TakeExtends(fields, k, bytes[..Width(k)], r);
        DescribedFrom(fields, k + 1, total, bytes[Width(k)..], Apply(k, bytes[..Width(k)], r));
      } else {
        SkipKeeps(fields, k, r);
        DescribedFrom(fields, k + 1, total, bytes, r);
      }
    }
  }

  /** Sub-record `j` is there and not overwritten by the second address of its pair. */
  predicate Counts(fields: U32, j: nat) {
    Has(fields, j) && !(Four(j) && Has(fields, j + 1))
  }

  /** For every mask, a decoded record has exactly the fields its mask names, less the addresses
      that the second one of their pair overwrote. */
  lemma {:induction false} DecodedIsDescribed(fields: U32, payload: seq<Byte>)
    requires DecodeFrom(fields, 0, |payload|, payload, DEFAULT).Ok?
    ensures Describes(Single(fields, KINDS), DecodeFrom(fields, 0, |payload|, payload, DEFAULT).value)
    ensures forall j: nat :: j < KINDS ==> (Has(Single(fields, KINDS), j) <==> Counts(fields, j))
  {
    DescribedFrom(fields, 0, |payload|, payload, DEFAULT);
    forall j: nat | j < KINDS
      ensures Has(Single(fields, KINDS), j) <==> Counts(fields, j)
    {
      SingleHas(fields, KINDS, j);
    }
  }

  lemma NothingOverwritten(fields: U32, k: nat)
    requires OneAddressEach(fields)
    ensures Single(fields, k) == fields
  {
    assert !PairedBits(fields, AGENT_ADDR4) && !PairedBits(fields, SRC_ADDR4);
    assert !PairedBits(fields, DST_ADDR4) && !PairedBits(fields, GATEWAY_ADDR4);
  }

  /** A mask with both addresses of a pair describes no record. */
  lemma DescribedHasOneAddressEach(fields: U32, r: FlowRecord)
    requires Describes(fields, r)
    ensures OneAddressEach(fields)
  {
    forall k: nat
      ensures !PairedBits(fields, k)
    {
      if PairedBits(fields, k) {
        assert Matches(fields, k, r) && Matches(fields, k + 1, r);
        assert false;
      }
    }
  }

  /** So a decoded record is described by its own mask exactly when the mask has at most one
      address of every pair. */
  lemma DecodedIsDescribedIff(fields: U32, payload: seq<Byte>)
    requires DecodeFrom(fields, 0, |payload|, payload, DEFAULT).Ok?
    ensures Describes(fields, DecodeFrom(fields, 0, |payload|, payload, DEFAULT).value) <==> OneAddressEach(fields)
  {
    if OneAddressEach(fields) {
      DecodedIsDescribed(fields, payload);
      NothingOverwritten(fields, KINDS);
    } else if Describes(fields, DecodeFrom(fields, 0, |payload|, payload, DEFAULT).value) {
      DescribedHasOneAddressEach(fields, DecodeFrom(fields, 0, |payload|, payload, DEFAULT).value);
      assert false;
    }
  }

  /** Decoding then encoding normalises, for every mask: under the mask that counts, the encoding
      decodes to the same record. A mask with one address each counts as it is, and then the
      encoding is as long as the payload was. */
  lemma DecodeThenEncode(fields: U32, payload: seq<Byte>)
    requires DecodeFrom(fields, 0, |payload|, payload, DEFAULT).Ok?
    ensures var r, f := DecodeFrom(fields, 0, |payload|, payload, DEFAULT).value, Single(fields, KINDS);
      && Describes(f, r)
      && DecodeFrom(f, 0, |PayloadFrom(f, 0, r)|, PayloadFrom(f, 0, r), DEFAULT) == Ok(r)
      && (OneAddressEach(fields) ==> f == fields && |PayloadFrom(f, 0, r)| == |payload|)
  {
    var r, f := DecodeFrom(fields, 0, |payload|, payload, DEFAULT).value, Single(fields, KINDS);
    DecodedIsDescribed(fields, payload);
    LengthDecides(fields, 0, |payload|, payload, DEFAULT);
    DecodeEncoded(f, 0, |PayloadFrom(f, 0, r)|, r);
    assert Upto(r, 0) == DEFAULT;
    if OneAddressEach(fields) {
      NothingOverwritten(fields, KINDS);
    }
  }
}
