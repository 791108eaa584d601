// Server name extraction from a TLS ClientHello (RFC 8446 sections 4.1.2 and 5.1, RFC 6066
// section 3).
module ClientHello {
  import opened Options
  import opened Bytes

  // ----- names -----

  predicate Continues(b: Byte) {
    0x80 <= b < 0xC0
  }

  /** Bytes taken by the UTF-8 character at the front, or 0 when there is none. */
  function CharWidth(s: seq<Byte>): (n: nat)
    ensures n <= |s|
  {
    if s == [] then 0
    else if s[0] < 0x80 then 1
    else if |s| < 2 then 0
    else if 0xC2 <= s[0] < 0xE0 then if Continues(s[1]) then 2 else 0
    else if |s| < 3 then 0
    else if 0xE0 <= s[0] < 0xF0 then
      var low := if s[0] == 0xE0 then 0xA0 else 0x80;
      var high := if s[0] == 0xED then 0xA0 else 0xC0;
      if low <= s[1] < high && Continues(s[2]) then 3 else 0
    else if |s| < 4 then 0
    else if 0xF0 <= s[0] < 0xF5 then
      var low := if s[0] == 0xF0 then 0x90 else 0x80;
      var high := if s[0] == 0xF4 then 0x90 else 0xC0;
      if low <= s[1] < high && Continues(s[2]) && Continues(s[3]) then 4 else 0
    else 0
  }

  /** Well-formed UTF-8. */
  predicate Utf8(s: seq<Byte>)
    decreases |s|
  {
    s == [] || (CharWidth(s) > 0 && Utf8(s[CharWidth(s)..]))
  }

  predicate Graphic(s: seq<Byte>) {
    forall i :: 0 <= i < |s| ==> 0x21 <= s[i] <= 0x7E
  }

  predicate Hostname(s: seq<Byte>) {
    0 < |s| <= 253 && Graphic(s)
  }

  function LowerByte(b: Byte): Byte {
    if 0x41 <= b <= 0x5A then b + 0x20 else b
  }

  function Lower(s: seq<Byte>): (l: seq<Byte>)
    ensures |l| == |s| && forall i :: 0 <= i < |s| ==> l[i] == LowerByte(s[i])
  {
    seq(|s|, i requires 0 <= i < |s| => LowerByte(s[i]))
  }

  lemma {:induction false} GraphicIsUtf8(s: seq<Byte>)
    requires Graphic(s)
    ensures Utf8(s)
    decreases |s|
  {
    if s != [] {
      GraphicIsUtf8(s[1..]);
    }
  }

  // ----- what the parser computes -----

  /** Drop a vector behind a one-byte length. */
  function AfterVec8(s: seq<Byte>): (r: Option<seq<Byte>>)
    ensures r.Some? ==> |r.value| <= |s|
  {
    if |s| < 1 || |s| < 1 + s[0] as int then None else Some(s[1 + s[0] as int..])
  }

  /** Drop a vector behind a two-byte length. */
  function AfterVec16(s: seq<Byte>): (r: Option<seq<Byte>>)
    ensures r.Some? ==> |r.value| <= |s|
  {
    if |s| < 2 || |s| < 2 + Be(s[..2]) then None else Some(s[2 + Be(s[..2])..])
  }

  function AfterBytes(s: seq<Byte>, n: nat): (r: Option<seq<Byte>>)
    ensures r.Some? ==> |r.value| <= |s|
  {
    if |s| < n then None else Some(s[n..])
  }

  /** Drop the compression methods and the length of the extensions. */
  function AfterCompression(s: seq<Byte>): (r: Option<seq<Byte>>)
    ensures r.Some? ==> |r.value| <= |s|
  {
    var t :- AfterVec8(s);
    AfterBytes(t, 2)
  }

  /** Drop the cipher suites too. */
  function AfterCiphers(s: seq<Byte>): (r: Option<seq<Byte>>)
    ensures r.Some? ==> |r.value| <= |s|
  {
    var t :- AfterVec16(s);
    AfterCompression(t)
  }

  /** Drop the session id too. */
  function AfterSession(s: seq<Byte>): (r: Option<seq<Byte>>)
    ensures r.Some? ==> |r.value| <= |s|
  {
    var t :- AfterVec8(s);
    AfterCiphers(t)
  }

  /** Drop the whole ClientHello header: type, length, version, random and the fields above. */
  function AfterHeader(s: seq<Byte>): (r: Option<seq<Byte>>)
    ensures r.Some? ==> |r.value| <= |s|
  {
    if s == [] || s[0] != 0x01 then None
    else
      var t :- AfterBytes(s[1..], 37);
      AfterSession(t)
  }

  /** The extension bytes of a handshake record. None of the enclosing lengths is looked at. */
  function Extensions(p: seq<Byte>): (r: Option<seq<Byte>>)
    ensures r.Some? ==> |r.value| <= |p|
  {
    if |p| < 5 || p[0] != 0x16 then None else AfterHeader(p[5..])
  }

  /** An item of a list: a kind and a body behind a two-byte length. */
  datatype Item = Item(kind: nat, body: seq<Byte>)

  /** The item at the front, whose kind takes `w` bytes. */
  function Front(s: seq<Byte>, w: nat): Option<Item> {
    if |s| < w + 2 || |s| < w + 2 + Be(s[w..w + 2]) then None
    else Some(Item(Be(s[..w]), s[w + 2..w + 2 + Be(s[w..w + 2])]))
  }

  /** What follows the item at the front. */
  function Behind(s: seq<Byte>, w: nat): (t: seq<Byte>)
    requires Front(s, w).Some?
    ensures |t| < |s|
  {
    s[w + 2 + Be(s[w..w + 2])..]
  }

  /** The first acceptable host name in a list of names; a host name that is not UTF-8 ends
      the search, one that is no hostname is passed over. */
  function FirstHost(s: seq<Byte>): Option<seq<Byte>>
    decreases |s|
  {
    var name :- Front(s, 1);
    if name.kind == 0 && !Utf8(name.body) then None
    else if name.kind == 0 && Hostname(name.body) then Some(Lower(name.body))
    else FirstHost(Behind(s, 1))
  }

  function ServerName(ext: seq<Byte>): Option<seq<Byte>> {
    if |ext| < 2 then None else FirstHost(ext[2..])
  }

  /** The name in the first server_name extension. */
  function Scan(s: seq<Byte>): Option<seq<Byte>>
    decreases |s|
  {
    var ext :- Front(s, 2);
    if ext.kind == 0 then ServerName(ext.body) else Scan(Behind(s, 2))
  }

  function Sni(p: seq<Byte>): Option<seq<Byte>> {
    var exts :- Extensions(p);
    Scan(exts)
  }

  // ----- the parser -----

  class Cursor {
    const b: seq<Byte>
    var pos: nat

    ghost predicate Valid()
      reads this
    {
      pos <= |b|
    }

    ghost function Rest(): seq<Byte>
      reads this
      requires Valid()
    {
      b[pos..]
    }

    constructor (bytes: seq<Byte>)
      ensures Valid() && Rest() == bytes
    {
      b := bytes;
      pos := 0;
    }

    method Take(n: nat) returns (r: Option<seq<Byte>>)
      requires Valid()
      modifies this
      ensures Valid()
      ensures n > |old(Rest())| ==> r == None && Rest() == old(Rest())
      ensures n <= |old(Rest())| ==> r == Some(old(Rest())[..n]) && Rest() == old(Rest())[n..]
    {
      if |b| < pos + n {
        return None;
      }
      assert b[pos..pos + n] == Rest()[..n];
      r := Some(b[pos..pos + n]);
      pos := pos + n;
    }

    method Skip(n: nat) returns (r: Option<()>)
      requires Valid()
      modifies this
      ensures Valid()
      ensures n > |old(Rest())| ==> r == None && Rest() == old(Rest())
      ensures n <= |old(Rest())| ==> r == Some(()) && Rest() == old(Rest())[n..]
    {
      var s :- Take(n);
      r := Some(());
    }

    method U8() returns (r: Option<Byte>)
      requires Valid()
      modifies this
      ensures Valid()
      ensures |old(Rest())| < 1 ==> r == None && Rest() == old(Rest())
      ensures |old(Rest())| >= 1 ==> r == Some(old(Rest())[0]) && Rest() == old(Rest())[1..]
    {
      var s :- Take(1);
      r := Some(s[0]);
    }

    method U16() returns (r: Option<U16>)
      requires Valid()
      modifies this
      ensures Valid()
      ensures |old(Rest())| < 2 ==> r == None && Rest() == old(Rest())
      ensures |old(Rest())| >= 2 ==> r == Some(Be(old(Rest())[..2])) && Rest() == old(Rest())[2..]
    {
      var s :- Take(2);
      r := Some(BeU16(s));
    }

    method U24() returns (r: Option<nat>)
      requires Valid()
      modifies this
      ensures Valid()
      ensures |old(Rest())| < 3 ==> r == None && Rest() == old(Rest())
      ensures |old(Rest())| >= 3 ==> r == Some(Be(old(Rest())[..3])) && Rest() == old(Rest())[3..]
    {
      var s :- Take(3);
      r := Some(Be(s));
    }

    /** A one-byte length and that many bytes. */
    method SkipVec8() returns (r: Option<()>)
      requires Valid()
      modifies this
      ensures Valid()
      ensures AfterVec8(old(Rest())) == if r.Some? then Some(Rest()) else None
    {
      var len :- U8();
      r := Skip(len);
    }

    /** A two-byte length and that many bytes. */
    method SkipVec16() returns (r: Option<()>)
      requires Valid()
      modifies this
      ensures Valid()
      ensures AfterVec16(old(Rest())) == if r.Some? then Some(Rest()) else None
    {
      var len :- U16();
      r := Skip(len);
    }

    method NextName() returns (r: Option<Item>)
      requires Valid()
      modifies this
      ensures Valid() && r == Front(old(Rest()), 1)
      ensures r.Some? ==> Rest() == Behind(old(Rest()), 1)
    {
      ghost var s := Rest();
      var kind :- U8();
      var len :- U16();
      assert s[1..][..2] == s[1..3] && Rest() == s[3..];
      var body :- Take(len);
      assert s[3..][..len] == s[3..3 + len] && Rest() == s[3 + len..];
      assert Be(s[..1]) == s[0] by {
        assert s[..1][..0] == [];
      }
      r := Some(Item(kind, body));
    }

    method NextExtension() returns (r: Option<Item>)
      requires Valid()
      modifies this
      ensures Valid() && r == Front(old(Rest()), 2)
      ensures r.Some? ==> Rest() == Behind(old(Rest()), 2)
    {
      ghost var s := Rest();
      var kind :- U16();
      var len :- U16();
      assert s[2..][..2] == s[2..4] && Rest() == s[4..];
      var body :- Take(len);
      assert s[4..][..len] == s[4..4 + len] && Rest() == s[4 + len..];
      r := Some(Item(kind, body));
    }

    /** The handshake length, the version and the random. */
    method SkipFixed() returns (r: Option<()>)
      requires Valid()
      modifies this
      ensures Valid()
      ensures AfterBytes(old(Rest()), 37) == if r.Some? then Some(Rest()) else None
    {
      var helloLen :- U24();
      var version :- Skip(2);
      r := Skip(32);
    }

    /** Everything up to the extensions. */
    method SkipHeader() returns (r: Option<()>)
      requires Valid()
      modifies this
      ensures Valid()
      ensures AfterHeader(old(Rest())) == if r.Some? then Some(Rest()) else None
    {
      var kind :- U8();
      if kind != 0x01 {
        return None;
      }
      var fixed :- SkipFixed();
      var session :- SkipVec8();
      var ciphers :- SkipVec16();
      var compression :- SkipVec8();
      var total :- U16();
      r := Some(());
    }
  }

  method ParseServerName(ext: seq<Byte>) returns (r: Option<seq<Byte>>)
    ensures r == ServerName(ext)
  {
    var c := new Cursor(ext);
    var listLen :- c.U16();
    while true
      invariant c.Valid() && FirstHost(c.Rest()) == ServerName(ext)
      decreases |c.Rest()|
    {
      var name :- c.NextName();
      if name.kind == 0 {
        if !Utf8(name.body) {
          return None;
        }
        if Hostname(name.body) {
          return Some(Lower(name.body));
        }
      }
    }
  }

  method ParseClientHelloSni(payload: seq<Byte>) returns (r: Option<seq<Byte>>)
    ensures r == Sni(payload)
  {
    if |payload| == 0 || payload[0] != 0x16 || |payload| < 5 {
      return None;
    }
    var c := new Cursor(payload[5..]);
    var skipped :- c.SkipHeader();
    while true
      invariant c.Valid() && Scan(c.Rest()) == Sni(payload)
      decreases |c.Rest()|
    {
      var ext :- c.NextExtension();
      if ext.kind == 0x0000 {
        r := ParseServerName(ext.body);
        return;
      }
    }
  }
}
