/** What the DHCP parser makes of printed messages, of padding, and of bytes after the end marker. */
module DhcpRoundTrip {
  import opened Bytes
  import opened DhcpMsg

  /** An option that the wire format can carry. */
  predicate Encodable(o: Opt) { o.code != OPT_PADDING && o.code != OPT_END && |o.data| <= 0xff }

  predicate AllEncodable(os: seq<Opt>) { forall i | 0 <= i < |os| :: Encodable(os[i]) }

  /** The message as a decoder returns it: addresses in their 16-byte form, nil as 0.0.0.0. */
  function NormalMessage(m: Message): Message {
    m.(clientIP := Normal(m.clientIP), yourIP := Normal(m.yourIP), nextIP := Normal(m.nextIP), relayIP := Normal(m.relayIP))
  }

  /** Printed options, an end marker and anything after it parse to the same options. */
  lemma {:induction false} PrintedOptionsParse(os: seq<Opt>, tail: seq<u8>)
    requires AllEncodable(os)
    ensures ParseOptions(OptionsBytes(os) + ([OPT_END] + tail)) == Some(os)
    decreases |os|
  {
    PrintedPrefixParses(os, [OPT_END] + tail);
    PrependToNone(os, ParseOptions([OPT_END] + tail));
  }

  lemma PrependToNone(os: seq<Opt>, rest: Option<seq<Opt>>)
    requires rest == Some([])
    ensures Prepend(os, rest) == Some(os)
  {
    assert os + [] == os;
  }

  lemma {:induction false} PrintedPrefixParses(os: seq<Opt>, rest: seq<u8>)
    requires AllEncodable(os)
    ensures ParseOptions(OptionsBytes(os) + rest) == Prepend(os, ParseOptions(rest))
    decreases |os|
  {
    if os == [] {
      PrependNothing(ParseOptions(rest));
      assert OptionsBytes(os) + rest == rest;
    } else {
      var init, o := os[..|os| - 1], os[|os| - 1];
      PrintedPrefixParses(init, OptionBytes(o) + rest);
      Assoc(OptionsBytes(init), OptionBytes(o), rest);
      PrintedOptionParses(init, o, rest);
      assert init + [o] == os;
    }
  }

  lemma PrintedOptionParses(init: seq<Opt>, o: Opt, rest: seq<u8>)
    requires Encodable(o)
    ensures Prepend(init, ParseOptions(OptionBytes(o) + rest)) == Prepend(init + [o], ParseOptions(rest))
  {
    var b := OptionBytes(o) + rest;
    assert b[2..2 + |o.data|] == o.data && b[2 + |o.data|..] == rest;
    OneOption(init, b, |o.data|);
  }

  /** The parser never returns an option that the format cannot carry. */
  lemma {:induction false} ParsedIsEncodable(b: seq<u8>)
    ensures ParseOptions(b).Some? ==> AllEncodable(ParseOptions(b).value)
    decreases |b|
  {
    if b != [] && b[0] == OPT_PADDING {
      ParsedIsEncodable(b[1..]);
    } else if |b| >= 2 && b[0] != OPT_END && 2 + b[1] as int <= |b| {
      ParsedIsEncodable(b[2 + b[1] as int..]);
    }
  }

  predicate IsHeaderOf(b: seq<u8>, os: seq<Opt>, m: Message)
    requires |b| >= DHCP_MIN_LEN
  {
    Header(b, os) == NormalMessage(m).(options := os)
  }

  lemma HeaderRoundTrip(m: Message, rest: seq<u8>, os: seq<Opt>)
    requires |m.clientMAC| <= MAC_FIELD
    ensures IsHeaderOf(HeaderBytes(m) + rest, os, m)
  {
    HeaderParts(m, rest);
    HeaderFromParts(m, HeaderBytes(m) + rest, os);
  }

  lemma HeaderFromParts(m: Message, b: seq<u8>, os: seq<Opt>)
    requires |b| >= DHCP_MIN_LEN && |m.clientMAC| <= MAC_FIELD
    requires b[..12] == NumberBytes(m) && b[12..28] == AddressBytes(m) && b[28..44] == Fit(m.clientMAC, MAC_FIELD)
    requires b[44..108] == m.serverHostName && b[108..236] == m.bootFilename && b[236..240] == PutU32(m.cookie)
    ensures IsHeaderOf(b, os, m)
  {
    NumbersRoundTrip(m, b);
    AddressesRoundTrip(m, b);
    AddressRoundTrip(m.clientMAC, b);
    assert b[2] == |m.clientMAC|;
    assert U32(b[236..]) == m.cookie by {
      U32Slice(b, 236);
    }
    HeaderFromFields(m, b, os);
  }

  lemma HeaderFromFields(m: Message, b: seq<u8>, os: seq<Opt>)
    requires |b| >= DHCP_MIN_LEN
    requires b[0] == m.op && b[1] == m.htype && b[3] == m.hops
    requires U32(b[4..]) == m.xid && U16(b[8..]) == m.secs && U16(b[10..]) == m.flags
    requires b[12..16] == Wire4(m.clientIP) && b[16..20] == Wire4(m.yourIP)
    requires b[20..24] == Wire4(m.nextIP) && b[24..28] == Wire4(m.relayIP)
    requires Fit(b[28..], b[2]) == m.clientMAC
    requires b[44..108] == m.serverHostName && b[108..236] == m.bootFilename && U32(b[236..]) == m.cookie
    ensures IsHeaderOf(b, os, m)
  {
  }

  lemma HeaderParts(m: Message, rest: seq<u8>)
    ensures var b := HeaderBytes(m) + rest;
            && b[..12] == NumberBytes(m) && b[12..28] == AddressBytes(m) && b[28..44] == Fit(m.clientMAC, MAC_FIELD)
            && b[44..108] == m.serverHostName && b[108..236] == m.bootFilename && b[236..240] == PutU32(m.cookie)
  {
    SixParts(NumberBytes(m), AddressBytes(m), Fit(m.clientMAC, MAC_FIELD), m.serverHostName, m.bootFilename, PutU32(m.cookie), rest);
  }

  lemma SixParts(n: seq<u8>, a: seq<u8>, f: seq<u8>, s: seq<u8>, t: seq<u8>, c: seq<u8>, rest: seq<u8>)
    requires |n| == 12 && |a| == 16 && |f| == 16 && |s| == 64 && |t| == 128 && |c| == 4
    ensures var b := n + a + f + s + t + c + rest;
            && b[..12] == n && b[12..28] == a && b[28..44] == f && b[44..108] == s && b[108..236] == t && b[236..240] == c
  {
    var p2 := n + a;
    var p3 := p2 + f;
    var p4 := p3 + s;
    var p5 := p4 + t;
    var p6 := p5 + c;
    Append(n, a);
    Append(p2, f);
    Append(p3, s);
    Append(p4, t);
    Append(p5, c);
    Append(p6, rest);
  }

  lemma AddressRoundTrip(mac: seq<u8>, b: seq<u8>)
    requires |b| >= DHCP_MIN_LEN && |mac| <= MAC_FIELD && b[28..44] == Fit(mac, MAC_FIELD)
    ensures Fit(b[28..], |mac|) == mac
  {
    var f := Fit(mac, MAC_FIELD);
    assert forall i | 0 <= i < |mac| :: b[28..][i] == b[28..44][i] == f[i] == mac[i];
    assert b[28..][..|mac|] == mac;
  }

  lemma NumbersRoundTrip(m: Message, b: seq<u8>)
    requires |b| >= DHCP_MIN_LEN && b[..12] == NumberBytes(m)
    ensures b[0] == m.op && b[1] == m.htype && b[2] == |m.clientMAC| % 0x100 && b[3] == m.hops
    ensures U32(b[4..]) == m.xid && U16(b[8..]) == m.secs && U16(b[10..]) == m.flags
  {
    var n := b[..12];
    var p1 := [m.op, m.htype, |m.clientMAC| % 0x100, m.hops];
    var p2 := p1 + PutU32(m.xid);
    var p3 := p2 + PutU16(m.secs);
    Append(p1, PutU32(m.xid));
    Append(p2, PutU16(m.secs));
    Append(p3, PutU16(m.flags));
    assert n == p3 + PutU16(m.flags);
    assert n[4..8] == PutU32(m.xid) && n[8..10] == PutU16(m.secs) && n[10..12] == PutU16(m.flags);
    SubSlice(b, 0, 12, 4, 8);
    SubSlice(b, 0, 12, 8, 10);
    SubSlice(b, 0, 12, 10, 12);
    assert b[0] == n[0] && b[1] == n[1] && b[2] == n[2] && b[3] == n[3];
    U32Slice(b, 4);
    U16Slice(b, 8);
    U16Slice(b, 10);
  }

  lemma AddressesRoundTrip(m: Message, b: seq<u8>)
    requires |b| >= DHCP_MIN_LEN && b[12..28] == AddressBytes(m)
    ensures b[12..16] == Wire4(m.clientIP) && b[16..20] == Wire4(m.yourIP)
    ensures b[20..24] == Wire4(m.nextIP) && b[24..28] == Wire4(m.relayIP)
  {
    var a := b[12..28];
    FourParts(a, Wire4(m.clientIP), Wire4(m.yourIP), Wire4(m.nextIP), Wire4(m.relayIP));
    SubSlice(b, 12, 28, 0, 4);
    SubSlice(b, 12, 28, 4, 8);
    SubSlice(b, 12, 28, 8, 12);
    SubSlice(b, 12, 28, 12, 16);
  }

  lemma FourParts(a: seq<u8>, w: seq<u8>, x: seq<u8>, y: seq<u8>, z: seq<u8>)
    requires |w| == |x| == |y| == |z| == 4 && a == w + x + y + z
    ensures a[0..4] == w && a[4..8] == x && a[8..12] == y && a[12..16] == z
  {
    var p2 := w + x;
    var p3 := p2 + y;
    Append(w, x);
    Append(p2, y);
    Append(p3, z);
    assert a[0..4] == p3[0..4] == p2[0..4] == p2[..4];
  }

  /**
   Printing and parsing returns the message exactly when it has options and each of them can be encoded.
   Without options no end marker is written; a longer data field has its length cut.
   */
  lemma MessageRoundTrip(m: Message)
    requires |m.clientMAC| <= MAC_FIELD
    ensures ParseMessage(MessageBytes(m)) == Some(NormalMessage(m)) <==> m.options != [] && AllEncodable(m.options)
    ensures m.options == [] ==> ParseMessage(MessageBytes(m)) == None
  {
    var rest := OptionsBytes(m.options) + if m.options == [] then [] else [OPT_END];
    var b := MessageBytes(m);
    assert b == HeaderBytes(m) + rest;
    assert b[DHCP_MIN_LEN..] == rest;
    if m.options == [] {
      assert rest == [];
    } else if AllEncodable(m.options) {
      PrintedOptionsParse(m.options, []);
      assert rest == OptionsBytes(m.options) + ([OPT_END] + []);
      HeaderRoundTrip(m, rest, m.options);
    } else {
      ParsedIsEncodable(rest);
    }
  }

  /** The positions at which the parser reads an option code. */
  predicate AtCode(b: seq<u8>, c: nat)
    requires c <= |b|
    decreases |b|
  {
    if c == 0 then true
    else if b[0] == OPT_PADDING then AtCode(b[1..], c - 1)
    else b[0] != OPT_END && |b| >= 2 && 2 + b[1] as int <= c && AtCode(b[2 + b[1] as int..], c - 2 - b[1])
  }

  /** The length of the first item that is not an end marker: padding, or an option. */
  function ItemLength(b: seq<u8>): nat
    requires b != []
  {
    if b[0] == OPT_PADDING || |b| < 2 then 1 else 2 + b[1] as int
  }

  /** A parse depends on the first item and on the parse of the rest. */
  lemma SameFirstItem(b: seq<u8>, p: seq<u8>)
    requires b != [] && b[0] != OPT_END && ItemLength(b) <= |b| && ItemLength(b) <= |p|
    requires b[0] != OPT_PADDING ==> |b| >= 2
    requires b[..ItemLength(b)] == p[..ItemLength(b)]
    requires ParseOptions(p[ItemLength(b)..]) == ParseOptions(b[ItemLength(b)..])
    ensures ParseOptions(p) == ParseOptions(b)
  {
    var k := ItemLength(b);
    assert p[0] == p[..k][0] == b[..k][0] == b[0];
    if b[0] != OPT_PADDING {
      assert p[1] == p[..k][1] == b[..k][1] == b[1];
      assert p[2..k] == p[..k][2..] == b[..k][2..] == b[2..k];
    }
  }

  lemma Splice(b: seq<u8>, c: nat, k: nat, z: seq<u8>)
    requires k <= c <= |b|
    ensures var p := b[..c] + z + b[c..];
            && |p| >= k && p[..k] == b[..k] && p[k..] == b[k..][..c - k] + z + b[k..][c - k..]
  {
    Assoc(b[..c], z, b[c..]);
    CutFront(b, k, c, z + b[c..]);
    Assoc(b[k..][..c - k], z, b[c..]);
    assert b[k..][c - k..] == b[c..];
  }

  /** Padding before any option code or the end marker is ignored, whether or not the parse succeeds. */
  lemma {:induction false} PaddingIsIgnored(b: seq<u8>, c: nat, n: nat)
    requires c <= |b| && AtCode(b, c)
    ensures ParseOptions(b[..c] + Zeros(n) + b[c..]) == ParseOptions(b)
    decreases |b|
  {
    if c == 0 {
      ZerosAreSkipped(n, b);
      assert b[..c] + Zeros(n) + b[c..] == Zeros(n) + b;
    } else {
      var k := ItemLength(b);
      PaddingIsIgnored(b[k..], c - k, n);
      Splice(b, c, k, Zeros(n));
      SameFirstItem(b, b[..c] + Zeros(n) + b[c..]);
    }
  }

  lemma {:induction false} ZerosAreSkipped(n: nat, b: seq<u8>)
    ensures ParseOptions(Zeros(n) + b) == ParseOptions(b)
    decreases n
  {
    if n == 0 {
      assert Zeros(n) + b == b;
    } else {
      ZerosAreSkipped(n - 1, b);
      assert (Zeros(n) + b)[1..] == Zeros(n - 1) + b;
    }
  }

  /** Where a parse that succeeds ends. */
  function EndMarker(b: seq<u8>): (e: nat)
    requires ParseOptions(b).Some?
    ensures e < |b| && b[e] == OPT_END && AtCode(b, e)
    decreases |b|
  {
    if b[0] == OPT_END then 0 else ItemLength(b) + EndMarker(b[ItemLength(b)..])
  }

  lemma TailAfterItem(b: seq<u8>, k: nat, f: nat, t: seq<u8>)
    requires b != [] && b[0] != OPT_END && (b[0] != OPT_PADDING ==> |b| >= 2) && k == ItemLength(b) && k + f + 1 <= |b|
    requires ParseOptions(b[k..][..f + 1] + t) == ParseOptions(b[k..])
    ensures ParseOptions(b[..k + f + 1] + t) == ParseOptions(b)
  {
    CutFront(b, k, k + f + 1, t);
    SameFirstItem(b, b[..k + f + 1] + t);
  }

  lemma TailAfterEnd(b: seq<u8>, t: seq<u8>)
    requires b != [] && b[0] == OPT_END
    ensures ParseOptions(b[..1] + t) == ParseOptions(b)
  {
    assert (b[..1] + t)[0] == OPT_END;
  }

  lemma {:induction false} NothingAfter(b: seq<u8>, e: nat, t: seq<u8>)
    requires e < |b| && AtCode(b, e) && b[e] == OPT_END
    ensures ParseOptions(b[..e + 1] + t) == ParseOptions(b)
    decreases e
  {
    if e == 0 {
      TailAfterEnd(b, t);
    } else {
      var k := ItemLength(b);
      NothingAfter(b[k..], e - k, t);
      TailAfterItem(b, k, e - k, t);
    }
  }

  /** What follows the first end marker does not matter. */
  lemma NothingAfterEnd(b: seq<u8>, t: seq<u8>)
    requires ParseOptions(b).Some?
    ensures ParseOptions(b[..EndMarker(b) + 1] + t) == ParseOptions(b)
  {
    NothingAfter(b, EndMarker(b), t);
  }

  /** For a hardware address that ends inside the fixed part, padding leaves the decoded message unchanged. */
  lemma MessagePadding(b: seq<u8>, c: nat, n: nat)
    requires DHCP_MIN_LEN <= c <= |b| && AtCode(b[DHCP_MIN_LEN..], c - DHCP_MIN_LEN)
    requires b[2] <= 212
    ensures ParseMessage(b[..c] + Zeros(n) + b[c..]) == ParseMessage(b)
  {
    PaddingIsIgnored(b[DHCP_MIN_LEN..], c - DHCP_MIN_LEN, n);
    PaddingSpliced(b, c, Zeros(n));
  }

  lemma PaddingSpliced(b: seq<u8>, c: nat, z: seq<u8>)
    requires DHCP_MIN_LEN <= c <= |b| && b[2] <= 212
    requires ParseOptions(b[DHCP_MIN_LEN..][..c - DHCP_MIN_LEN] + z + b[DHCP_MIN_LEN..][c - DHCP_MIN_LEN..]) == ParseOptions(b[DHCP_MIN_LEN..])
    ensures ParseMessage(b[..c] + z + b[c..]) == ParseMessage(b)
  {
    Splice(b, c, DHCP_MIN_LEN, z);
    SameMessage(b, b[..c] + z + b[c..]);
  }

  /** So do arbitrary bytes in place of what follows the first end marker. */
  lemma MessageTail(b: seq<u8>, t: seq<u8>)
    requires ParseMessage(b).Some? && b[2] <= 212
    ensures ParseMessage(b[..DHCP_MIN_LEN + EndMarker(b[DHCP_MIN_LEN..]) + 1] + t) == ParseMessage(b)
  {
    var o := b[DHCP_MIN_LEN..];
    NothingAfterEnd(o, t);
    TailReplaced(b, EndMarker(o), t);
  }

  lemma TailReplaced(b: seq<u8>, e: nat, t: seq<u8>)
    requires DHCP_MIN_LEN + e < |b| && b[2] <= 212
    requires ParseOptions(b[DHCP_MIN_LEN..][..e + 1] + t) == ParseOptions(b[DHCP_MIN_LEN..])
    ensures ParseMessage(b[..DHCP_MIN_LEN + e + 1] + t) == ParseMessage(b)
  {
    CutFront(b, DHCP_MIN_LEN, DHCP_MIN_LEN + e + 1, t);
    SameMessage(b, b[..DHCP_MIN_LEN + e + 1] + t);
  }

  lemma SameMessage(b: seq<u8>, p: seq<u8>)
    requires |b| >= DHCP_MIN_LEN && |p| >= DHCP_MIN_LEN && b[..DHCP_MIN_LEN] == p[..DHCP_MIN_LEN] && b[2] <= 212
    requires ParseOptions(p[DHCP_MIN_LEN..]) == ParseOptions(b[DHCP_MIN_LEN..])
    ensures ParseMessage(p) == ParseMessage(b)
  {
    assert p[2] == p[..DHCP_MIN_LEN][2] == b[..DHCP_MIN_LEN][2] == b[2];
    if ParseOptions(b[DHCP_MIN_LEN..]).Some? {
      HeaderOnly(b, ParseOptions(b[DHCP_MIN_LEN..]).value);
      HeaderOnly(p, ParseOptions(b[DHCP_MIN_LEN..]).value);
    }
  }

  lemma HeaderOnly(b: seq<u8>, os: seq<Opt>)
    requires |b| >= DHCP_MIN_LEN && b[2] <= 212
    ensures Header(b, os) == Header(b[..DHCP_MIN_LEN], os)
  {
    var h := b[..DHCP_MIN_LEN];
    assert h[2] == b[2];
    assert Fit(h[28..], h[2]) == Fit(b[28..], b[2]);
    assert h[12..16] == b[12..16] && h[16..20] == b[16..20] && h[20..24] == b[20..24] && h[24..28] == b[24..28];
    assert h[44..108] == b[44..108] && h[108..236] == b[108..236];
    forall i | i in {4, 236}
      ensures U32(h[i..]) == U32(b[i..])
    {
      U32Slice(h, i);
      U32Slice(b, i);
      assert h[i..i + 4] == b[i..i + 4];
    }
    forall i | i in {8, 10}
      ensures U16(h[i..]) == U16(b[i..])
    {
      U16Slice(h, i);
      U16Slice(b, i);
      assert h[i..i + 2] == b[i..i + 2];
    }
  }

  /** For every longer hardware address there is a message that padding changes: the address reaches into the options. */
  lemma PaddingShiftsLongAddress(hlen: u8) returns (b: seq<u8>, c: nat)
    requires hlen > 212
    ensures DHCP_MIN_LEN <= c <= |b| && AtCode(b[DHCP_MIN_LEN..], c - DHCP_MIN_LEN) && b[2] == hlen
    ensures ParseMessage(b).Some? && ParseMessage(b[..c] + Zeros(1) + b[c..]) != ParseMessage(b)
  {
    var h := [0, 0, hlen] + Zeros(237);
    b, c := h + [OPT_END], DHCP_MIN_LEN;
    var p := h + [0, OPT_END];
    Append(h, [OPT_END]);
    Append(h, [0, OPT_END]);
    assert b[240..] == [OPT_END] && p[240..] == [0, OPT_END];
    assert b[..240] + Zeros(1) + b[240..] == p;
    MarkerOnly();
    LastAddressByte(b);
    LastAddressByte(p);
  }

  lemma MarkerOnly()
    ensures ParseOptions([OPT_END]) == ParseOptions([0, OPT_END]) == Some([])
  {
    assert [0, OPT_END][1..] == [OPT_END];
  }

  lemma LastAddressByte(b: seq<u8>)
    requires |b| > DHCP_MIN_LEN && b[2] > 212
    ensures Header(b, []).clientMAC[212] == b[240]
  {
    assert b[28..][212] == b[240];
  }

  /** Printed options are refused without an end marker, and when the last one is cut short, be it in its length or in its data. */
  lemma TruncatedIsRefused(os: seq<Opt>, code: u8, len: u8, data: seq<u8>)
    requires AllEncodable(os) && code != 0 && code != 255 && |data| < len
    ensures ParseOptions(OptionsBytes(os)) == None
    ensures ParseOptions(OptionsBytes(os) + [code]) == None
    ensures ParseOptions(OptionsBytes(os) + ([code, len] + data)) == None
  {
    PrintedPrefixParses(os, []);
    PrintedPrefixParses(os, [code]);
    PrintedPrefixParses(os, [code, len] + data);
    assert OptionsBytes(os) + [] == OptionsBytes(os);
  }

  /** And so is a message without its fixed fields. */
  lemma ShortIsRefused(b: seq<u8>)
    ensures |b| < 240 ==> ParseMessage(b) == None
    ensures |b| >= 240 ==> (ParseMessage(b).Some? <==> ParseOptions(b[240..]).Some?)
  {
  }
}
