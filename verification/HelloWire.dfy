// ClientHello messages as bytes: the parser accepts exactly these, and a cut or an addition
// changes nothing but what it must.
module HelloWire {
  import opened Options
  import opened Bytes
  import opened Sequences
  import opened ClientHello

  // ----- lists of items -----

  ghost predicate Fits(it: Item, w: nat) {
    it.kind < Pow256(w) && |it.body| < 0x1_0000
  }

  ghost function Put(it: Item, w: nat): (s: seq<Byte>)
    ensures |s| == w + 2 + |it.body|
  {
    BeBytes(it.kind, w) + BeBytes(|it.body|, 2) + it.body
  }

  ghost function PutAll(items: seq<Item>, w: nat): seq<Byte> {
    if items == [] then [] else Put(items[0], w) + PutAll(items[1..], w)
  }

  lemma FrontOfPut(it: Item, w: nat, tail: seq<Byte>)
    requires Fits(it, w)
    ensures Front(Put(it, w) + tail, w) == Some(it) && Behind(Put(it, w) + tail, w) == tail
  {
    var s := Put(it, w) + tail;
    Widths();
    BeOfBytes(it.kind, w);
    BeOfBytes(|it.body|, 2);
    assert s[..w] == BeBytes(it.kind, w) && s[w..w + 2] == BeBytes(|it.body|, 2);
    assert s[w + 2..w + 2 + |it.body|] == it.body && s[w + 2 + |it.body|..] == tail;
  }

  lemma PutOfFront(s: seq<Byte>, w: nat)
    requires Front(s, w).Some?
    ensures var it := Front(s, w).value; Fits(it, w) && s == Put(it, w) + Behind(s, w)
  {
    Widths();
    BytesOfBe(s[..w]);
    BytesOfBe(s[w..w + 2]);
    BeInRange(s[..w]);
    BeInRange(s[w..w + 2]);
    var it := Front(s, w).value;
    assert s == s[..w] + s[w..w + 2] + it.body + Behind(s, w);
  }

  // ----- messages -----

  /** A ClientHello with its server name. The fields named `...Len` and `record` carry the
      enclosing lengths, which the parser never compares with anything. */
  datatype Hello = Hello(
    record: seq<Byte>, helloLen: seq<Byte>, versionRandom: seq<Byte>,
    session: seq<Byte>, ciphers: seq<Byte>, compression: seq<Byte>, totalLen: seq<Byte>,
    before: seq<Item>, listLen: seq<Byte>, passed: seq<Item>, name: seq<Byte>, more: seq<Byte>, rest: seq<Byte>)

  /** Names the search goes past: another type, or UTF-8 that is no hostname. */
  ghost predicate PassedOver(it: Item) {
    Fits(it, 1) && (it.kind != 0 || (Utf8(it.body) && !Hostname(it.body)))
  }

  ghost predicate AllPassedOver(items: seq<Item>) {
    forall i {:trigger items[i]} :: 0 <= i < |items| ==> PassedOver(items[i])
  }

  ghost predicate AllOther(items: seq<Item>) {
    forall i {:trigger items[i]} :: 0 <= i < |items| ==> Fits(items[i], 2) && items[i].kind != 0
  }

  ghost predicate WellFormed(h: Hello) {
    && |h.record| == 4 && |h.helloLen| == 3 && |h.versionRandom| == 34
    && |h.session| < 0x100 && |h.ciphers| < 0x1_0000 && |h.compression| < 0x100 && |h.totalLen| == 2
    && AllOther(h.before)
    && |h.listLen| == 2 && AllPassedOver(h.passed) && Hostname(h.name)
    && |NameExt(h)| < 0x1_0000
  }

  /** The names, from the one that is found on. */
  ghost function Names(h: Hello): seq<Byte> {
    PutAll(h.passed, 1) + (Put(Item(0, h.name), 1) + h.more)
  }

  ghost function NameExt(h: Hello): seq<Byte> {
    h.listLen + Names(h)
  }

  ghost function Exts(h: Hello): seq<Byte> {
    PutAll(h.before, 2) + (Put(Item(0, NameExt(h)), 2) + h.rest)
  }

  ghost function Vec8(v: seq<Byte>): seq<Byte>
    requires |v| < 0x100
  {
    [|v|] + v
  }

  ghost function Vec16(v: seq<Byte>): seq<Byte> {
    BeBytes(|v|, 2) + v
  }

  ghost function Header(h: Hello, exts: seq<Byte>): seq<Byte>
    requires WellFormed(h)
  {
    [0x01] + ((h.helloLen + h.versionRandom)
              + (Vec8(h.session) + (Vec16(h.ciphers) + (Vec8(h.compression) + (h.totalLen + exts)))))
  }

  ghost function Wire(h: Hello): seq<Byte>
    requires WellFormed(h)
  {
    ([0x16] + h.record) + Header(h, Exts(h))
  }

  // ----- reading a message back -----

  lemma AfterVec8Of(v: seq<Byte>, tail: seq<Byte>)
    requires |v| < 0x100
    ensures AfterVec8(Vec8(v) + tail) == Some(tail)
  {
  }

  lemma AfterVec16Of(v: seq<Byte>, tail: seq<Byte>)
    requires |v| < 0x1_0000
    ensures AfterVec16(Vec16(v) + tail) == Some(tail)
  {
    var s := Vec16(v) + tail;
    Widths();
    BeOfBytes(|v|, 2);
    assert s[..2] == BeBytes(|v|, 2);
  }

  lemma AfterBytesOf(a: seq<Byte>, tail: seq<Byte>)
    ensures AfterBytes(a + tail, |a|) == Some(tail)
  {
  }

  lemma AfterHeaderOf(h: Hello, exts: seq<Byte>)
    requires WellFormed(h)
    ensures AfterHeader(Header(h, exts)) == Some(exts)
  {
    var d := h.totalLen + exts;
    var c := Vec8(h.compression) + d;
    var b := Vec16(h.ciphers) + c;
    var a := Vec8(h.session) + b;
    AfterBytesOf(h.totalLen, exts);
    AfterVec8Of(h.compression, d);
    assert AfterCompression(c) == Some(exts);
    AfterVec16Of(h.ciphers, c);
    assert AfterCiphers(b) == Some(exts);
    AfterVec8Of(h.session, b);
    assert AfterSession(a) == Some(exts);
    AfterBytesOf(h.helloLen + h.versionRandom, a);
    assert Header(h, exts)[1..] == (h.helloLen + h.versionRandom) + a;
  }

  lemma {:induction false} FirstHostOf(passed: seq<Item>, name: seq<Byte>, more: seq<Byte>)
    requires AllPassedOver(passed) && Hostname(name)
    ensures FirstHost(PutAll(passed, 1) + (Put(Item(0, name), 1) + more)) == Some(Lower(name))
  {
    var tail := Put(Item(0, name), 1) + more;
    if passed == [] {
      Widths();
      FrontOfPut(Item(0, name), 1, more);
      GraphicIsUtf8(name);
      assert [] + tail == tail;
    } else {
      Assoc(Put(passed[0], 1), PutAll(passed[1..], 1), tail);
      assert PassedOver(passed[0]);
      FrontOfPut(passed[0], 1, PutAll(passed[1..], 1) + tail);
      FirstHostOf(passed[1..], name, more);
    }
  }

  lemma {:induction false} ScanOf(before: seq<Item>, ext: seq<Byte>, rest: seq<Byte>)
    requires AllOther(before) && |ext| < 0x1_0000
    ensures Scan(PutAll(before, 2) + (Put(Item(0, ext), 2) + rest)) == ServerName(ext)
  {
    var tail := Put(Item(0, ext), 2) + rest;
    if before == [] {
      FrontOfPut(Item(0, ext), 2, rest);
      assert [] + tail == tail;
    } else {
      Assoc(Put(before[0], 2), PutAll(before[1..], 2), tail);
      assert Fits(before[0], 2);
      FrontOfPut(before[0], 2, PutAll(before[1..], 2) + tail);
      ScanOf(before[1..], ext, rest);
    }
  }

  lemma {:induction false} ExtensionsOf(h: Hello)
    requires WellFormed(h)
    ensures Extensions(Wire(h)) == Some(Exts(h))
  {
    AfterHeaderOf(h, Exts(h));
    assert Wire(h)[5..] == Header(h, Exts(h));
  }

  /** Any session id, cipher suites, compression methods, earlier extensions of other types,
      earlier names that are passed over, and any bytes after the name: the name comes back
      in lower case. */
  lemma {:induction false} RoundTrip(h: Hello)
    requires WellFormed(h)
    ensures Sni(Wire(h)) == Some(Lower(h.name))
  {
    ExtensionsOf(h);
    ScanOf(h.before, NameExt(h), h.rest);
    assert NameExt(h)[2..] == Names(h);
    FirstHostOf(h.passed, h.name, h.more);
  }

  // ----- only such messages are accepted -----

  lemma {:induction false} HostSplits(s: seq<Byte>) returns (passed: seq<Item>, name: seq<Byte>, more: seq<Byte>)
    requires FirstHost(s).Some?
    ensures AllPassedOver(passed) && Hostname(name) && FirstHost(s) == Some(Lower(name))
    ensures s == PutAll(passed, 1) + (Put(Item(0, name), 1) + more)
    decreases |s|
  {
    PutOfFront(s, 1);
    var it, behind := Front(s, 1).value, Behind(s, 1);
    if it.kind == 0 && Hostname(it.body) {
      passed, name, more := [], it.body, behind;
      assert [] + (Put(it, 1) + more) == Put(it, 1) + more;
    } else {
      var others;
      others, name, more := HostSplits(behind);
      assert PassedOver(it);
      passed := [it] + others;
      assert passed[1..] == others;
      Assoc(Put(it, 1), PutAll(others, 1), Put(Item(0, name), 1) + more);
    }
  }

  lemma {:induction false} ScanSplits(s: seq<Byte>) returns (before: seq<Item>, ext: seq<Byte>, rest: seq<Byte>)
    requires Scan(s).Some?
    ensures AllOther(before) && |ext| < 0x1_0000 && Scan(s) == ServerName(ext)
    ensures s == PutAll(before, 2) + (Put(Item(0, ext), 2) + rest)
    decreases |s|
  {
    PutOfFront(s, 2);
    var it, behind := Front(s, 2).value, Behind(s, 2);
    if it.kind == 0 {
      before, ext, rest := [], it.body, behind;
      assert [] + (Put(it, 2) + rest) == Put(it, 2) + rest;
    } else {
      var others;
      others, ext, rest := ScanSplits(behind);
      before := [it] + others;
      assert before[1..] == others;
      Assoc(Put(it, 2), PutAll(others, 2), Put(Item(0, ext), 2) + rest);
    }
  }

  lemma Vec8Splits(s: seq<Byte>) returns (v: seq<Byte>)
    requires AfterVec8(s).Some?
    ensures |v| < 0x100 && s == Vec8(v) + AfterVec8(s).value
  {
    v := s[1..1 + s[0] as int];
  }

  lemma Vec16Splits(s: seq<Byte>) returns (v: seq<Byte>)
    requires AfterVec16(s).Some?
    ensures |v| < 0x1_0000 && s == Vec16(v) + AfterVec16(s).value
  {
    Widths();
    BeInRange(s[..2]);
    BytesOfBe(s[..2]);
    v := s[2..2 + Be(s[..2])];
    assert s == s[..2] + v + AfterVec16(s).value;
  }

  lemma HeaderSplits(s: seq<Byte>) returns (session: seq<Byte>, ciphers: seq<Byte>, compression: seq<Byte>, total: seq<Byte>)
    requires AfterHeader(s).Some?
    ensures |s| >= 38 && s[0] == 0x01 && |total| == 2
    ensures |session| < 0x100 && |ciphers| < 0x1_0000 && |compression| < 0x100
    ensures s[38..] == Vec8(session) + (Vec16(ciphers) + (Vec8(compression) + (total + AfterHeader(s).value)))
  {
    var fixed := AfterBytes(s[1..], 37).value;
    session := Vec8Splits(fixed);
    var s1 := AfterVec8(fixed).value;
    ciphers := Vec16Splits(s1);
    var s2 := AfterVec16(s1).value;
    compression := Vec8Splits(s2);
    var s3 := AfterVec8(s2).value;
    total := s3[..2];
    assert s3 == total + AfterBytes(s3, 2).value;
    assert s[38..] == fixed;
  }

  lemma FixedParts(p: seq<Byte>)
    requires |p| >= 43
    ensures p == ([p[0]] + p[1..5]) + ([p[5]] + ((p[6..9] + p[9..43]) + p[43..]))
  {
  }

  lemma NameExtParts(ext: seq<Byte>)
    requires |ext| >= 2
    ensures ext == ext[..2] + ext[2..]
  {
  }

  /** An accepted payload is the wire form of some message with that name. */
  lemma {:induction false} AcceptedIsWire(p: seq<Byte>) returns (h: Hello)
    requires Sni(p).Some?
    ensures WellFormed(h) && Wire(h) == p && Sni(p) == Some(Lower(h.name))
  {
    var session, ciphers, compression, total := HeaderSplits(p[5..]);
    assert p[5..][38..] == p[43..];
    var before, ext, rest := ScanSplits(Extensions(p).value);
    NameExtParts(ext);
    var passed, name, more := HostSplits(ext[2..]);
    h := Hello(p[1..5], p[6..9], p[9..43], session, ciphers, compression, total, before, ext[..2], passed, name, more, rest);
    assert NameExt(h) == ext;
    FixedParts(p);
  }

  /** The parser accepts exactly the wire forms, and reads the lower-cased name off them. */
  lemma AcceptsExactlyWireForms(p: seq<Byte>, x: seq<Byte>)
    ensures Sni(p) == Some(x) <==> exists h: Hello :: WellFormed(h) && Wire(h) == p && Lower(h.name) == x
  {
    if Sni(p) == Some(x) {
      var h := AcceptedIsWire(p);
    }
    forall h: Hello | WellFormed(h) && Wire(h) == p && Lower(h.name) == x
      ensures Sni(p) == Some(x)
    {
      RoundTrip(h);
    }
  }

  // ----- cuts and additions -----

  /** What is left of `t`, the end of `s`, when only the first `c` bytes of `s` are there. */
  ghost function Cut(s: seq<Byte>, t: seq<Byte>, c: nat): Option<seq<Byte>>
    requires |t| <= |s| && c <= |s|
  {
    if c < |s| - |t| then None else Some(t[..c - (|s| - |t|)])
  }

  lemma TakeDrop(s: seq<Byte>, c: nat, k: nat)
    requires k <= c <= |s|
    ensures s[..c][k..] == s[k..][..c - k]
  {
  }

  lemma CutBytes(s: seq<Byte>, n: nat, c: nat)
    requires n <= |s| && c <= |s|
    ensures AfterBytes(s[..c], n) == Cut(s, s[n..], c)
  {
    if c >= n {
      TakeDrop(s, c, n);
    }
  }

  lemma CutVec8(s: seq<Byte>, c: nat)
    requires AfterVec8(s).Some? && c <= |s|
    ensures AfterVec8(s[..c]) == Cut(s, AfterVec8(s).value, c)
  {
    if c >= 1 + s[0] as int {
      TakeDrop(s, c, 1 + s[0] as int);
    }
  }

  lemma CutVec16(s: seq<Byte>, c: nat)
    requires AfterVec16(s).Some? && c <= |s|
    ensures AfterVec16(s[..c]) == Cut(s, AfterVec16(s).value, c)
  {
    if c >= 2 {
      assert s[..c][..2] == s[..2];
      if c >= 2 + Be(s[..2]) {
        TakeDrop(s, c, 2 + Be(s[..2]));
      }
    }
  }

  lemma CutCompression(s: seq<Byte>, c: nat)
    requires AfterCompression(s).Some? && c <= |s|
    ensures AfterCompression(s[..c]) == Cut(s, AfterCompression(s).value, c)
  {
    var t := AfterVec8(s).value;
    CutVec8(s, c);
    if c >= |s| - |t| {
      CutBytes(t, 2, c - (|s| - |t|));
    }
  }

  lemma CutCiphers(s: seq<Byte>, c: nat)
    requires AfterCiphers(s).Some? && c <= |s|
    ensures AfterCiphers(s[..c]) == Cut(s, AfterCiphers(s).value, c)
  {
    var t := AfterVec16(s).value;
    CutVec16(s, c);
    if c >= |s| - |t| {
      CutCompression(t, c - (|s| - |t|));
    }
  }

  lemma CutSession(s: seq<Byte>, c: nat)
    requires AfterSession(s).Some? && c <= |s|
    ensures AfterSession(s[..c]) == Cut(s, AfterSession(s).value, c)
  {
    var t := AfterVec8(s).value;
    CutVec8(s, c);
    if c >= |s| - |t| {
      CutCiphers(t, c - (|s| - |t|));
    }
  }

  lemma CutHeader(s: seq<Byte>, c: nat)
    requires AfterHeader(s).Some? && c <= |s|
    ensures AfterHeader(s[..c]) == Cut(s, AfterHeader(s).value, c)
  {
    if c >= 1 {
      TakeDrop(s, c, 1);
      CutBytes(s[1..], 37, c - 1);
      if c >= 38 {
        CutSession(s[1..][37..], c - 38);
      }
    }
  }

  /** Where the first server_name extension ends. */
  ghost function ScanEnd(s: seq<Byte>): (n: nat)
    requires Scan(s).Some?
    ensures n <= |s|
    decreases |s|
  {
    var here := |s| - |Behind(s, 2)|;
    if Front(s, 2).value.kind == 0 then here else here + ScanEnd(Behind(s, 2))
  }

  ghost function SniEnd(p: seq<Byte>): (n: nat)
    requires Sni(p).Some?
  {
    |p| - |Extensions(p).value| + ScanEnd(Extensions(p).value)
  }

  lemma CutFront(s: seq<Byte>, w: nat, c: nat)
    requires Front(s, w).Some? && c <= |s|
    ensures c < |s| - |Behind(s, w)| ==> Front(s[..c], w) == None
    ensures c >= |s| - |Behind(s, w)| ==>
              Front(s[..c], w) == Front(s, w) && Behind(s[..c], w) == Behind(s, w)[..c - (|s| - |Behind(s, w)|)]
  {
    if c >= w + 2 {
      assert s[..c][..w] == s[..w] && s[..c][w..w + 2] == s[w..w + 2];
      var n := Be(s[w..w + 2]);
      if c >= w + 2 + n {
        assert s[..c][w + 2..w + 2 + n] == s[w + 2..w + 2 + n];
      }
    }
  }

  lemma {:induction false} CutScan(s: seq<Byte>, c: nat)
    requires Scan(s).Some? && c <= |s|
    ensures Scan(s[..c]) == if c < ScanEnd(s) then None else Scan(s)
    decreases |s|
  {
    CutFront(s, 2, c);
    var here := |s| - |Behind(s, 2)|;
    if c >= here && Front(s, 2).value.kind != 0 {
      CutScan(Behind(s, 2), c - here);
    }
  }

  lemma CutExtensions(p: seq<Byte>, c: nat)
    requires Extensions(p).Some? && c <= |p|
    ensures Extensions(p[..c]) == Cut(p, Extensions(p).value, c)
  {
    if c >= 5 {
      TakeDrop(p, c, 5);
      CutHeader(p[5..], c - 5);
    }
  }

  /** A cut before the end of the server_name extension is rejected, any other cut leaves the
      name unchanged. */
  lemma {:induction false} CutExactly(p: seq<Byte>, c: nat)
    requires Sni(p).Some? && c <= |p|
    ensures Sni(p[..c]) == if c < SniEnd(p) then None else Sni(p)
  {
    var exts := Extensions(p).value;
    CutExtensions(p, c);
    if c >= |p| - |exts| {
      CutScan(exts, c - (|p| - |exts|));
    }
  }

  lemma {:induction false} ScanEndOf(before: seq<Item>, ext: seq<Byte>, rest: seq<Byte>)
    requires AllOther(before) && |ext| < 0x1_0000 && ServerName(ext).Some?
    ensures var s := PutAll(before, 2) + (Put(Item(0, ext), 2) + rest);
      Scan(s).Some? && ScanEnd(s) == |s| - |rest|
  {
    ScanOf(before, ext, rest);
    var tail := Put(Item(0, ext), 2) + rest;
    if before == [] {
      FrontOfPut(Item(0, ext), 2, rest);
      assert [] + tail == tail;
    } else {
      Assoc(Put(before[0], 2), PutAll(before[1..], 2), tail);
      assert Fits(before[0], 2);
      FrontOfPut(before[0], 2, PutAll(before[1..], 2) + tail);
      ScanEndOf(before[1..], ext, rest);
    }
  }

  /** In an encoded message the extension ends where the bytes after it begin. */
  lemma {:induction false} EndOfWire(h: Hello)
    requires WellFormed(h)
    ensures Sni(Wire(h)).Some? && SniEnd(Wire(h)) == |Wire(h)| - |h.rest|
  {
    RoundTrip(h);
    ExtensionsOf(h);
    assert NameExt(h)[2..] == Names(h);
    FirstHostOf(h.passed, h.name, h.more);
    ScanEndOf(h.before, NameExt(h), h.rest);
  }

  lemma HeaderAppend(h: Hello, exts: seq<Byte>, q: seq<Byte>)
    requires WellFormed(h)
    ensures Header(h, exts + q) == Header(h, exts) + q
  {
    var d := h.totalLen + exts;
    var c := Vec8(h.compression) + d;
    var b := Vec16(h.ciphers) + c;
    var a := Vec8(h.session) + b;
    Assoc(h.totalLen, exts, q);
    Assoc(Vec8(h.compression), d, q);
    Assoc(Vec16(h.ciphers), c, q);
    Assoc(Vec8(h.session), b, q);
    Assoc(h.helloLen + h.versionRandom, a, q);
    Assoc([0x01], (h.helloLen + h.versionRandom) + a, q);
  }

  /** More bytes at the end of a message. */
  lemma WireAppend(h: Hello, q: seq<Byte>)
    requires WellFormed(h)
    ensures var longer := h.(rest := h.rest + q);
      WellFormed(longer) && longer.name == h.name && Wire(longer) == Wire(h) + q
  {
    var longer := h.(rest := h.rest + q);
    var front, ext := PutAll(h.before, 2), Put(Item(0, NameExt(h)), 2);
    assert NameExt(longer) == NameExt(h);
    Assoc(ext, h.rest, q);
    Assoc(front, ext + h.rest, q);
    assert Exts(longer) == Exts(h) + q;
    HeaderAppend(h, Exts(h), q);
    assert Header(longer, Exts(longer)) == Header(h, Exts(h) + q);
    Assoc([0x16] + h.record, Header(h, Exts(h)), q);
  }

  /** Bytes behind an accepted payload change neither the name nor where its extension ends. */
  lemma {:induction false} AppendKeepsName(p: seq<Byte>, q: seq<Byte>)
    requires Sni(p).Some?
    ensures Sni(p + q) == Sni(p) && SniEnd(p + q) == SniEnd(p)
  {
    var h := AcceptedIsWire(p);
    WireAppend(h, q);
    RoundTrip(h.(rest := h.rest + q));
    EndOfWire(h);
    EndOfWire(h.(rest := h.rest + q));
  }

  /** For every accepted payload: cut before the end of its server_name extension it is rejected,
      and behind that end any bytes may take the place of the ones there. */
  lemma {:induction false} CutAndExtend(p: seq<Byte>, c: nat, q: seq<Byte>)
    requires Sni(p).Some? && c <= |p|
    ensures c < SniEnd(p) ==> Sni(p[..c]) == None
    ensures c >= SniEnd(p) ==> Sni(p[..c] + q) == Sni(p) && SniEnd(p[..c] + q) == SniEnd(p)
  {
    CutExactly(p, c);
    var front := p[..c];
    if c >= SniEnd(p) {
      assert front + p[c..] == p;
      AppendKeepsName(front, p[c..]);
      AppendKeepsName(front, q);
    }
  }

  /** Every result is one to 253 graphic bytes without an upper-case letter. */
  lemma {:induction false} ResultIsAHostname(p: seq<Byte>)
    requires Sni(p).Some?
    ensures 1 <= |Sni(p).value| <= 253
    ensures forall i :: 0 <= i < |Sni(p).value| ==> 0x21 <= Sni(p).value[i] <= 0x7E && !(0x41 <= Sni(p).value[i] <= 0x5A)
  {
    var h := AcceptedIsWire(p);
    var l := Lower(h.name);
    forall i | 0 <= i < |l|
      ensures 0x21 <= l[i] <= 0x7E && !(0x41 <= l[i] <= 0x5A)
    {
      assert l[i] == LowerByte(h.name[i]);
    }
  }
}
