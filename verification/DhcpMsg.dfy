/** DHCP messages (section 2 of RFC 2131): `dhcpmsg.Message`, its printer and its parser. */
module DhcpMsg {
  import opened Bytes
  import opened Buffer

  type Name64 = s: seq<u8> | |s| == 64 witness Zeros(64)
  type Name128 = s: seq<u8> | |s| == 128 witness Zeros(128)

  datatype Opt = Opt(code: u8, data: seq<u8>)

  datatype Message = Message(
    op: u8,
    htype: u8,
    hops: u8,
    xid: u32,
    secs: u16,
    flags: u16,
    clientIP: IP,
    yourIP: IP,
    nextIP: IP,
    relayIP: IP,
    clientMAC: seq<u8>,
    serverHostName: Name64,
    bootFilename: Name128,
    cookie: u32,
    options: seq<Opt>
  )

  const DHCP_MIN_LEN := 240
  const MAC_FIELD := 16
  const OPT_PADDING: u8 := 0
  const OPT_END: u8 := 255

  /** `copy` into a zeroed field of `n` bytes. */
  function Fit(x: seq<u8>, n: nat): (r: seq<u8>)
    ensures |r| == n
  {
    if |x| >= n then x[..n] else x + Zeros(n - |x|)
  }

  function NumberBytes(m: Message): (b: seq<u8>)
    ensures |b| == 12
  {
    [m.op, m.htype, |m.clientMAC| % 0x100, m.hops] + PutU32(m.xid) + PutU16(m.secs) + PutU16(m.flags)
  }

  function AddressBytes(m: Message): (b: seq<u8>)
    ensures |b| == 16
  {
    Wire4(m.clientIP) + Wire4(m.yourIP) + Wire4(m.nextIP) + Wire4(m.relayIP)
  }

  function HeaderBytes(m: Message): (b: seq<u8>)
    ensures |b| == DHCP_MIN_LEN
  {
    NumberBytes(m) + AddressBytes(m)
    + Fit(m.clientMAC, MAC_FIELD) + m.serverHostName + m.bootFilename + PutU32(m.cookie)
  }

  /** Code, length cut to 8 bits, and data. */
  function OptionBytes(o: Opt): seq<u8> { [o.code, |o.data| % 0x100] + o.data }

  function OptionsBytes(os: seq<Opt>): seq<u8> {
    if os == [] then [] else OptionsBytes(os[..|os| - 1]) + OptionBytes(os[|os| - 1])
  }

  /** The end marker is written only after at least one option. */
  function MessageBytes(m: Message): seq<u8> {
    HeaderBytes(m) + OptionsBytes(m.options) + if m.options == [] then [] else [OPT_END]
  }

  method Assemble(m: Message) returns (r: seq<u8>)
    ensures r == MessageBytes(m)
  {
    var buf := AssembleHeader(m);
    ghost var header := buf;
    for i := 0 to |m.options|
      invariant buf == header + OptionsBytes(m.options[..i])
    {
      var opt := m.options[i];
      OptionsOneMore(header, m.options, i);
      buf := buf + ([opt.code, |opt.data| % 0x100] + opt.data);
    }
    assert m.options[..|m.options|] == m.options;
    if |m.options| > 0 {
      buf := buf + [OPT_END];
    }
    r := buf;
  }

  lemma OptionsOneMore(header: seq<u8>, os: seq<Opt>, i: nat)
    requires i < |os|
    ensures header + OptionsBytes(os[..i + 1]) == header + OptionsBytes(os[..i]) + OptionBytes(os[i])
  {
    assert os[..i + 1][..i] == os[..i];
    assert header + (OptionsBytes(os[..i]) + OptionBytes(os[i])) == header + OptionsBytes(os[..i]) + OptionBytes(os[i]);
  }

  method AssembleHeader(m: Message) returns (r: seq<u8>)
    ensures r == HeaderBytes(m)
  {
    var b := NewBuffer(DHCP_MIN_LEN);
    ghost var w := WriteNumbers(m, b);
    w := WriteAddresses(m, b, w);
    w := Fill(b, 28, w, Fit(m.clientMAC, MAC_FIELD));
    w := Fill(b, 44, w, m.serverHostName);
    w := Fill(b, 108, w, m.bootFilename);
    w := Fill(b, 236, w, PutU32(m.cookie));
    r := b[..];
    assert r[..|w|] == r;
  }

  method WriteNumbers(m: Message, b: array<u8>) returns (ghost w: seq<u8>)
    requires b.Length == DHCP_MIN_LEN && Written(b[..], [])
    modifies b
    ensures w == NumberBytes(m) && Written(b[..], w)
  {
    w := Fill(b, 0, [], [m.op, m.htype, |m.clientMAC| % 0x100, m.hops]);
    assert w == [m.op, m.htype, |m.clientMAC| % 0x100, m.hops];
    w := Fill(b, 4, w, PutU32(m.xid));
    w := Fill(b, 8, w, PutU16(m.secs));
    w := Fill(b, 10, w, PutU16(m.flags));
  }

  method WriteAddresses(m: Message, b: array<u8>, ghost w0: seq<u8>) returns (ghost w: seq<u8>)
    requires b.Length == DHCP_MIN_LEN && |w0| == 12 && Written(b[..], w0)
    modifies b
    ensures w == w0 + AddressBytes(m) && Written(b[..], w)
  {
    w := Fill(b, 12, w0, Wire4(m.clientIP));
    w := Fill(b, 16, w, Wire4(m.yourIP));
    w := Fill(b, 20, w, Wire4(m.nextIP));
    w := Fill(b, 24, w, Wire4(m.relayIP));
    assert w == w0 + AddressBytes(m);
  }

  /** The options up to the first end marker; without one, or when one is cut short, there are none. */
  function ParseOptions(b: seq<u8>): Option<seq<Opt>> {
    if b == [] then None
    else if b[0] == OPT_PADDING then ParseOptions(b[1..])
    else if b[0] == OPT_END then Some([])
    else if |b| < 2 || 2 + b[1] as int > |b| then None
    else
      match ParseOptions(b[2 + b[1] as int..])
      case None => None
      case Some(os) => Some([Opt(b[0], b[2..2 + b[1] as int])] + os)
  }

  function ParseMessage(b: seq<u8>): Option<Message> {
    if |b| < DHCP_MIN_LEN then None
    else
      match ParseOptions(b[DHCP_MIN_LEN..])
      case None => None
      case Some(os) => Some(Header(b, os))
  }

  /** The fixed fields. A hardware address longer than its field reads on into whatever follows. */
  function Header(b: seq<u8>, os: seq<Opt>): Message
    requires |b| >= DHCP_MIN_LEN
  {
    Message(b[0], b[1], b[3], U32(b[4..]), U16(b[8..]), U16(b[10..]),
            V4_IN_V6_PREFIX + b[12..16], V4_IN_V6_PREFIX + b[16..20], V4_IN_V6_PREFIX + b[20..24], V4_IN_V6_PREFIX + b[24..28],
            Fit(b[28..], b[2]), b[44..108], b[108..236], U32(b[236..]), os)
  }

  /** The parser of the source: total, and within bounds on every byte string. */
  method Decode(b: seq<u8>) returns (r: Option<Message>)
    ensures r == ParseMessage(b)
  {
    var plen := |b|;
    if plen < DHCP_MIN_LEN {
      return None;
    }
    ghost var all := ParseOptions(b[DHCP_MIN_LEN..]);
    var options: seq<Opt> := [];
    var c := DHCP_MIN_LEN;
    var opt: u8 := 0;
    PrependNothing(all);
    while c < plen
      invariant DHCP_MIN_LEN <= c <= plen && opt != OPT_END
      invariant all == Prepend(options, ParseOptions(b[c..]))
    {
      ParseStep(options, b, c);
      opt := b[c];
      c := c + 1;
      if opt == OPT_PADDING {
        continue;
      }
      if !(c < plen) || opt == OPT_END {
        break;
      }
      var olen: int := b[c];
      c := c + 1;
      if !(c + olen <= plen) {
        break;
      }
      options := options + [Opt(opt, b[c..c + olen])];
      c := c + olen;
    }
    assert all == if opt == OPT_END then Some(options) else None;
    if opt != OPT_END {
      return None;
    }
    return Some(Header(b, options));
  }

  /** What the option at a cursor contributes, and where the parse goes on. */
  lemma ParseStep(os: seq<Opt>, b: seq<u8>, c: nat)
    requires c < |b|
    ensures Prepend(os, ParseOptions(b[c..])) ==
            if b[c] == OPT_PADDING then Prepend(os, ParseOptions(b[c + 1..]))
            else if b[c] == OPT_END then Some(os)
            else if c + 1 == |b| || c + 2 + b[c + 1] as int > |b| then None
            else
              var e := c + 2 + b[c + 1] as int;
              Prepend(os + [Opt(b[c], b[c + 2..e])], ParseOptions(b[e..]))
  {
    var r := b[c..];
    if b[c] == OPT_PADDING {
      assert r[1..] == b[c + 1..];
    } else if b[c] == OPT_END {
      assert os + [] == os;
    } else if c + 1 < |b| && c + 2 + b[c + 1] as int <= |b| {
      var e := c + 2 + b[c + 1] as int;
      assert r[e - c..] == b[e..] && r[2..e - c] == b[c + 2..e];
      OneOption(os, r, e - c - 2);
    }
  }

  lemma PrependNothing(rest: Option<seq<Opt>>)
    ensures Prepend([], rest) == rest
  {
    if rest.Some? {
      assert [] + rest.value == rest.value;
    }
  }

  lemma OneOption(os: seq<Opt>, b: seq<u8>, olen: nat)
    requires |b| >= 2 && b[0] != OPT_PADDING && b[0] != OPT_END && olen == b[1] && 2 + olen <= |b|
    ensures Prepend(os, ParseOptions(b)) == Prepend(os + [Opt(b[0], b[2..2 + olen])], ParseOptions(b[2 + olen..]))
  {
    var more := ParseOptions(b[2 + olen..]);
    if more.Some? {
      assert os + ([Opt(b[0], b[2..2 + olen])] + more.value) == os + [Opt(b[0], b[2..2 + olen])] + more.value;
    }
  }

  function Prepend(os: seq<Opt>, rest: Option<seq<Opt>>): Option<seq<Opt>> {
    match rest
    case None => None
    case Some(more) => Some(os + more)
  }
}
