// What is read from a ClientHello, written out in byte positions, byte values and scalar values.
module SniRules {
  import opened Options
  import opened Bytes
  import opened ClientHello
  import opened HelloWire

  // ----- UTF-8 -----

  /** A Unicode scalar value. */
  type Scalar = c: nat | c < 0xD800 || 0xE000 <= c < 0x11_0000

  /** The scalar value in UTF-8 (RFC 3629 section 3). */
  function Encoded(c: Scalar): (s: seq<Byte>)
    ensures 1 <= |s| <= 4
  {
    if c < 0x80 then [c]
    else if c < 0x800 then [0xC0 + c / 0x40, 0x80 + c % 0x40]
    else if c < 0x1_0000 then [0xE0 + c / 0x1000, 0x80 + c / 0x40 % 0x40, 0x80 + c % 0x40]
    else [0xF0 + c / 0x4_0000, 0x80 + c / 0x1000 % 0x40, 0x80 + c / 0x40 % 0x40, 0x80 + c % 0x40]
  }

  function Text(cs: seq<Scalar>): seq<Byte> {
    if cs == [] then [] else Encoded(cs[0]) + Text(cs[1..])
  }

  lemma WidthOfEncoded(c: Scalar, tail: seq<Byte>)
    ensures CharWidth(Encoded(c) + tail) == |Encoded(c)|
  {
    if 0x80 <= c < 0x800 {
      WidthOfTwo(c, tail);
    } else if 0x800 <= c < 0x1_0000 {
      WidthOfThree(c, tail);
    } else if 0x1_0000 <= c {
      WidthOfFour(c, tail);
    }
  }

  lemma WidthOfTwo(c: Scalar, tail: seq<Byte>)
    requires 0x80 <= c < 0x800
    ensures CharWidth(Encoded(c) + tail) == 2
  {
  }

  lemma WidthOfThree(c: Scalar, tail: seq<Byte>)
    requires 0x800 <= c < 0x1_0000
    ensures CharWidth(Encoded(c) + tail) == 3
  {
    assert c / 0x1000 == 0 ==> c / 0x40 % 0x40 >= 0x20;
    assert c / 0x1000 == 0xD ==> c / 0x40 % 0x40 < 0x20;
  }

  lemma WidthOfFour(c: Scalar, tail: seq<Byte>)
    requires 0x1_0000 <= c
    ensures CharWidth(Encoded(c) + tail) == 4
  {
    assert c / 0x4_0000 == 0 ==> c / 0x1000 % 0x40 >= 0x10;
    assert c / 0x4_0000 == 4 ==> c / 0x1000 % 0x40 < 0x10;
  }

  lemma PutTogether2(a: nat, b: nat, c: nat)
    requires 0xC2 <= a < 0xE0 && 0x80 <= b < 0xC0 && c == 0x40 * (a - 0xC0) + b - 0x80
    ensures 0x80 <= c < 0x800 && c / 0x40 == a - 0xC0 && c % 0x40 == b - 0x80
  {
  }

  lemma PutTogether3(a: nat, b: nat, d: nat, c: nat)
    requires 0xE0 <= a < 0xF0 && 0x80 <= b < 0xC0 && 0x80 <= d < 0xC0
    requires c == 0x40 * (0x40 * (a - 0xE0) + b - 0x80) + d - 0x80
    ensures c / 0x1000 == a - 0xE0 && c / 0x40 % 0x40 == b - 0x80 && c % 0x40 == d - 0x80
  {
    assert c / 0x40 == 0x40 * (a - 0xE0) + b - 0x80;
  }

  lemma PutTogether4(a: nat, b: nat, d: nat, e: nat, c: nat)
    requires 0xF0 <= a < 0xF5 && 0x80 <= b < 0xC0 && 0x80 <= d < 0xC0 && 0x80 <= e < 0xC0
    requires c == 0x40 * (0x40 * (0x40 * (a - 0xF0) + b - 0x80) + d - 0x80) + e - 0x80
    ensures c / 0x4_0000 == a - 0xF0 && c / 0x1000 % 0x40 == b - 0x80 && c / 0x40 % 0x40 == d - 0x80 && c % 0x40 == e - 0x80
  {
    var h := 0x40 * (a - 0xF0) + b - 0x80;
    assert h / 0x40 == a - 0xF0 && h % 0x40 == b - 0x80;
    assert c / 0x40 == 0x40 * h + d - 0x80;
    assert c / 0x1000 == h;
  }

  /** The scalar value at the front. */
  lemma FrontScalar(s: seq<Byte>) returns (c: Scalar)
    requires CharWidth(s) > 0
    ensures Encoded(c) == s[..CharWidth(s)]
  {
    var n := CharWidth(s);
    if n == 1 {
      c := s[0];
    } else if n == 2 {
      c := TwoBytes(s);
    } else if n == 3 {
      c := ThreeBytes(s);
    } else {
      c := FourBytes(s);
    }
  }

  lemma TwoBytes(s: seq<Byte>) returns (c: Scalar)
    requires CharWidth(s) == 2
    ensures Encoded(c) == s[..2]
  {
    var v := 0x40 * (At(s, 0) - 0xC0) + At(s, 1) - 0x80;
    PutTogether2(s[0], s[1], v);
    c := v;
  }

  lemma ThreeBytes(s: seq<Byte>) returns (c: Scalar)
    requires CharWidth(s) == 3
    ensures Encoded(c) == s[..3]
  {
    var v := 0x40 * (0x40 * (At(s, 0) - 0xE0) + At(s, 1) - 0x80) + At(s, 2) - 0x80;
    PutTogether3(s[0], s[1], s[2], v);
    c := v;
  }

  lemma FourBytes(s: seq<Byte>) returns (c: Scalar)
    requires CharWidth(s) == 4
    ensures Encoded(c) == s[..4]
  {
    var v := 0x40 * (0x40 * (0x40 * (At(s, 0) - 0xF0) + At(s, 1) - 0x80) + At(s, 2) - 0x80) + At(s, 3) - 0x80;
    PutTogether4(s[0], s[1], s[2], s[3], v);
    c := v;
  }

  lemma {:induction false} TextIsUtf8(cs: seq<Scalar>)
    ensures Utf8(Text(cs))
  {
    if cs != [] {
      WidthOfEncoded(cs[0], Text(cs[1..]));
      TextIsUtf8(cs[1..]);
      assert Text(cs)[|Encoded(cs[0])|..] == Text(cs[1..]);
    }
  }

  lemma {:induction false} Utf8IsText(s: seq<Byte>) returns (cs: seq<Scalar>)
    requires Utf8(s)
    ensures Text(cs) == s
    decreases |s|
  {
    if s == [] {
      cs := [];
    } else {
      var n := CharWidth(s);
      var c := FrontScalar(s);
      var rest := Utf8IsText(s[n..]);
      cs := [c] + rest;
      assert cs[1..] == rest && s == s[..n] + s[n..];
    }
  }

  /** The bytes encode scalar values. */
  ghost predicate IsText(s: seq<Byte>) {
    exists cs :: Text(cs) == s
  }

  /** Bytes pass the UTF-8 test exactly when they encode scalar values. */
  lemma Utf8Exactly(s: seq<Byte>)
    ensures Utf8(s) <==> IsText(s)
  {
    if Utf8(s) {
      var cs := Utf8IsText(s);
    }
    if cs :| Text(cs) == s {
      TextIsUtf8(cs);
    }
  }

  // ----- the name -----

  /** One to 253 bytes from 0x21 to 0x7E. */
  predicate Plain(s: seq<Byte>) {
    1 <= |s| <= 253 && forall i :: 0 <= i < |s| ==> 0x21 <= s[i] <= 0x7E
  }

  /** The same bytes, with 0x41 to 0x5A moved up by 0x20. */
  predicate Lowered(s: seq<Byte>, r: seq<Byte>) {
    |r| == |s| && forall i :: 0 <= i < |s| ==> r[i] as int == s[i] + if 0x41 <= s[i] <= 0x5A then 0x20 else 0
  }

  /** Every message gives its own name in lower case. */
  lemma MessageGivesItsName(h: Hello)
    requires WellFormed(h)
    ensures Sni(Wire(h)).Some? && Plain(h.name) && Lowered(h.name, Sni(Wire(h)).value)
  {
    RoundTrip(h);
  }

  // ----- the lists -----

  lemma BigEndian(s: seq<Byte>, o: nat)
    requires o + 2 <= |s|
    ensures Be(s[o..o + 2]) == Two(s, o)
  {
    TwoIsBe(s[o..o + 2]);
  }

  lemma NameInFront(s: seq<Byte>)
    requires |s| >= 3
    ensures Front(s, 1) == if |s| < 3 + Two(s, 1) then None else Some(Item(At(s, 0), s[3..3 + Two(s, 1)]))
    ensures |s| >= 3 + Two(s, 1) ==> Behind(s, 1) == s[3 + Two(s, 1)..]
  {
    BigEndian(s, 1);
    assert Be(s[..1]) == s[0] by {
      assert s[..1][..0] == [];
    }
  }

  lemma NameTaken(s: seq<Byte>, name: seq<Byte>, rest: seq<Byte>)
    requires Front(s, 1) == Some(Item(0, name)) && Behind(s, 1) == rest
    ensures Plain(name) ==> FirstHost(s).Some? && Lowered(name, FirstHost(s).value)
    ensures !IsText(name) ==> FirstHost(s) == None
    ensures !Plain(name) && IsText(name) ==> FirstHost(s) == FirstHost(rest)
  {
    Utf8Exactly(name);
    if Plain(name) {
      GraphicIsUtf8(name);
    }
  }

  /** A list of names: a type, a length in two bytes and that many bytes each. */
  lemma NamesAreRead(s: seq<Byte>)
    ensures |s| < 3 || |s| < 3 + Two(s, 1) ==> FirstHost(s) == None
    ensures |s| >= 3 && |s| >= 3 + Two(s, 1) ==>
      var name := s[3..3 + Two(s, 1)];
      && (s[0] == 0 && Plain(name) ==> FirstHost(s).Some? && Lowered(name, FirstHost(s).value))
      && (s[0] == 0 && !IsText(name) ==> FirstHost(s) == None)
      && (s[0] != 0 || (!Plain(name) && IsText(name)) ==> FirstHost(s) == FirstHost(s[3 + Two(s, 1)..]))
  {
    if |s| >= 3 {
      NameInFront(s);
      if |s| >= 3 + Two(s, 1) && s[0] == 0 {
        NameTaken(s, s[3..3 + Two(s, 1)], s[3 + Two(s, 1)..]);
      }
    }
  }

  lemma ExtensionInFront(s: seq<Byte>)
    requires |s| >= 4
    ensures Front(s, 2) == if |s| < 4 + Two(s, 2) then None else Some(Item(Two(s, 0), s[4..4 + Two(s, 2)]))
    ensures |s| >= 4 + Two(s, 2) ==> Behind(s, 2) == s[4 + Two(s, 2)..]
  {
    BigEndian(s, 0);
    BigEndian(s, 2);
    assert s[..2] == s[0..2];
  }

  lemma ExtensionTaken(s: seq<Byte>, kind: nat, body: seq<Byte>, rest: seq<Byte>)
    requires Front(s, 2) == Some(Item(kind, body)) && Behind(s, 2) == rest
    ensures Scan(s) == if kind != 0 then Scan(rest) else if |body| < 2 then None else FirstHost(body[2..])
  {
  }

  /** A list of extensions: a type and a length in two bytes each and that many bytes; the first
      one of type 0 holds the names behind two more bytes. */
  lemma ExtensionsAreRead(s: seq<Byte>)
    ensures |s| < 4 || |s| < 4 + Two(s, 2) ==> Scan(s) == None
    ensures |s| >= 4 && |s| >= 4 + Two(s, 2) ==>
      var body := s[4..4 + Two(s, 2)];
      Scan(s) == if s[0] != 0 || s[1] != 0 then Scan(s[4 + Two(s, 2)..])
                 else if |body| < 2 then None
                 else FirstHost(body[2..])
  {
    if |s| >= 4 {
      ExtensionInFront(s);
      if |s| >= 4 + Two(s, 2) {
        ExtensionTaken(s, Two(s, 0), s[4..4 + Two(s, 2)], s[4 + Two(s, 2)..]);
      }
    }
  }

  // ----- the header -----

  /** Where the cipher suites, the compression methods and the extensions begin: the session id
      has its length in the byte at 43, the other two theirs in front of them. */
  function CiphersAt(p: seq<Byte>): nat {
    44 + At(p, 43)
  }

  function CompressionAt(p: seq<Byte>): nat {
    CiphersAt(p) + 2 + Two(p, CiphersAt(p))
  }

  function ExtensionsAt(p: seq<Byte>): nat {
    CompressionAt(p) + 3 + At(p, CompressionAt(p))
  }

  ghost predicate ReadsTo(p: seq<Byte>, e: nat, r: Option<seq<Byte>>) {
    r == if |p| >= e then Some(p[e..]) else None
  }

  lemma Vec8From(p: seq<Byte>, o: nat)
    requires o <= |p|
    ensures ReadsTo(p, o + 1 + At(p, o), AfterVec8(p[o..]))
  {
  }

  lemma Vec16From(p: seq<Byte>, o: nat)
    requires o <= |p|
    ensures ReadsTo(p, o + 2 + Two(p, o), AfterVec16(p[o..]))
  {
    if |p| >= o + 2 {
      BigEndian(p, o);
      assert p[o..][..2] == p[o..o + 2];
    }
  }

  lemma CompressionFrom(p: seq<Byte>, o: nat)
    requires o <= |p|
    ensures ReadsTo(p, o + 3 + At(p, o), AfterCompression(p[o..]))
  {
    Vec8From(p, o);
  }

  lemma CiphersFrom(p: seq<Byte>, o: nat)
    requires o <= |p|
    ensures var c := o + 2 + Two(p, o); ReadsTo(p, c + 3 + At(p, c), AfterCiphers(p[o..]))
  {
    Vec16From(p, o);
    if |p| >= o + 2 + Two(p, o) {
      CompressionFrom(p, o + 2 + Two(p, o));
    }
  }

  lemma SessionFrom(p: seq<Byte>, c: nat, e: nat)
    requires |p| >= 43 && c == 44 + At(p, 43)
    requires e == c + 2 + Two(p, c) + 3 + At(p, c + 2 + Two(p, c))
    ensures ReadsTo(p, e, AfterSession(p[43..]))
  {
    Vec8From(p, 43);
    if |p| >= c {
      CiphersFrom(p, c);
    }
  }

  /** A payload is read when it starts with 0x16, has 0x01 at 5 and reaches up to its extensions. */
  lemma HeaderIsRead(p: seq<Byte>)
    ensures Sni(p) == if |p| >= ExtensionsAt(p) && p[0] == 0x16 && p[5] == 0x01 then Scan(p[ExtensionsAt(p)..]) else None
  {
    if |p| >= 44 && p[0] == 0x16 && p[5] == 0x01 {
      assert p[5..][1..][37..] == p[43..];
      SessionFrom(p, CiphersAt(p), ExtensionsAt(p));
    }
  }
}
