// Big-endian integers, shared by the two byte-level parsers.
module Bytes {

  type Byte = b: int | 0 <= b < 0x100
  type U16 = x: int | 0 <= x < 0x1_0000
  type U32 = x: int | 0 <= x < 0x1_0000_0000
  type U64 = x: int | 0 <= x < 0x1_0000_0000_0000_0000

  function Pow256(n: nat): (p: nat)
    ensures p > 0
  {
    if n == 0 then 1 else 0x100 * Pow256(n - 1)
  }

  /** `from_be_bytes`. */
  function Be(s: seq<Byte>): (v: nat)
  {
    if s == [] then 0 else 0x100 * Be(s[..|s| - 1]) + s[|s| - 1]
  }

  /** `to_be_bytes`, `n` bytes wide. */
  function BeBytes(v: nat, n: nat): (s: seq<Byte>)
    ensures |s| == n
  {
    if n == 0 then [] else BeBytes(v / 0x100, n - 1) + [v % 0x100]
  }

  lemma {:induction false} BeInRange(s: seq<Byte>)
    ensures Be(s) < Pow256(|s|)
  {
    if s != [] {
      BeInRange(s[..|s| - 1]);
    }
  }

  lemma {:induction false} BeOfBytes(v: nat, n: nat)
    requires v < Pow256(n)
    ensures Be(BeBytes(v, n)) == v
  {
    if n > 0 {
      BeOfBytes(v / 0x100, n - 1);
      var s := BeBytes(v, n);
      assert s[..n - 1] == BeBytes(v / 0x100, n - 1);
    }
  }

  lemma {:induction false} BytesOfBe(s: seq<Byte>)
    ensures BeBytes(Be(s), |s|) == s
  {
    if s != [] {
      BytesOfBe(s[..|s| - 1]);
    }
  }

  lemma Widths()
    ensures Pow256(1) == 0x100 && Pow256(2) == 0x1_0000 && Pow256(4) == 0x1_0000_0000
    ensures Pow256(8) == 0x1_0000_0000_0000_0000
  {
    assert Pow256(3) == 0x100_0000;
    assert Pow256(5) == 0x100_0000_0000 && Pow256(6) == 0x1_0000_0000_0000 && Pow256(7) == 0x100_0000_0000_0000;
  }

  function BeU16(s: seq<Byte>): U16
    requires |s| == 2
  {
    BeInRange(s); Widths(); Be(s)
  }

  function BeU32(s: seq<Byte>): U32
    requires |s| == 4
  {
    BeInRange(s); Widths(); Be(s)
  }

  function BeU64(s: seq<Byte>): U64
    requires |s| == 8
  {
    BeInRange(s); Widths(); Be(s)
  }

  lemma U16RoundTrip(v: U16)
    ensures BeU16(BeBytes(v, 2)) == v
  {
    Widths();
    BeOfBytes(v, 2);
  }

  lemma U32RoundTrip(v: U32)
    ensures BeU32(BeBytes(v, 4)) == v
  {
    Widths();
    BeOfBytes(v, 4);
  }

  lemma U64RoundTrip(v: U64)
    ensures BeU64(BeBytes(v, 8)) == v
  {
    Widths();
    BeOfBytes(v, 8);
  }

  // ----- the numbers written out -----

  /** The byte at `i`; 0 beyond the end. */
  function At(p: seq<Byte>, i: nat): (n: nat)
    ensures n < 0x100
  {
    if i < |p| then p[i] else 0
  }

  /** The big-endian number of two, four or eight bytes from `o` on; 0 beyond the end. */
  function Two(p: seq<Byte>, o: nat): U16 {
    if o + 2 <= |p| then 0x100 * At(p, o) + At(p, o + 1) else 0
  }

  function Quad(p: seq<Byte>, o: nat): U32 {
    if o + 4 <= |p| then 0x100_0000 * At(p, o) + 0x1_0000 * At(p, o + 1) + 0x100 * At(p, o + 2) + At(p, o + 3) else 0
  }

  function Long(p: seq<Byte>, o: nat): U64 {
    0x1_0000_0000 * Quad(p, o) + Quad(p, o + 4)
  }

  lemma TwoIsBe(s: seq<Byte>)
    requires |s| == 2
    ensures BeU16(s) == Two(s, 0)
  {
    assert Be(s[..1]) == At(s, 0);
    assert Be(s) == 0x100 * Be(s[..1]) + s[1];
  }

  lemma QuadIsBe(s: seq<Byte>)
    requires |s| == 4
    ensures BeU32(s) == Quad(s, 0)
  {
    assert s[..3][..2] == s[..2] && s[..2][..1] == s[..1] && s[..1][..0] == [];
    assert Be(s[..1]) == s[0] && Be(s[..2]) == 0x100 * At(s, 0) + At(s, 1);
    assert Be(s[..3]) == 0x100 * Be(s[..2]) + s[2];
  }

  lemma LongIsBe(s: seq<Byte>)
    requires |s| == 8
    ensures BeU64(s) == Long(s, 0)
  {
    QuadIsBe(s[..4]);
    QuadIsBe(s[4..]);
    assert s[..7][..6] == s[..6] && s[..6][..5] == s[..5] && s[..5][..4] == s[..4];
    assert Be(s[..5]) == 0x100 * Be(s[..4]) + s[4];
    assert Be(s[..6]) == 0x100 * Be(s[..5]) + s[5];
    assert Be(s[..7]) == 0x100 * Be(s[..6]) + s[6];
  }

  /** The same, for a number inside a sub-record. */
  lemma TwoAt(p: seq<Byte>, o: nat, b: seq<Byte>, i: nat)
    requires o + |b| <= |p| && b == p[o..o + |b|] && i + 2 <= |b|
    ensures BeU16(b[i..i + 2]) == Two(p, o + i)
  {
    TwoIsBe(b[i..i + 2]);
    assert b[i] == p[o + i] && b[i + 1] == p[o + (i + 1)];
  }

  lemma QuadAt(p: seq<Byte>, o: nat, b: seq<Byte>, i: nat)
    requires o + |b| <= |p| && b == p[o..o + |b|] && i + 4 <= |b|
    ensures BeU32(b[i..i + 4]) == Quad(p, o + i)
  {
    QuadIsBe(b[i..i + 4]);
    assert b[i] == p[o + i] && b[i + 1] == p[o + (i + 1)] && b[i + 2] == p[o + (i + 2)] && b[i + 3] == p[o + (i + 3)];
  }
}
