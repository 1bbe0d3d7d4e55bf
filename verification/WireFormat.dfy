/** The packets of both ends byte by byte (RFC 791, RFC 768, RFC 2131 section 2, RFC 2132). */
module WireFormat {
  import opened Bytes
  import opened DhcpMsg
  import opened DhcpRoundTrip
  import opened Options
  import opened Packets
  import opened ServerConfig
  import opened Templates
  import Float64
  import Interop
  import Layer
  import Replies

  /** Where the fields of a message are. */
  lemma MessageLayout(m: Message)
    ensures var b := MessageBytes(m);
            && |b| >= 240
            && b[0] == m.op && b[1] == m.htype && b[2] == |m.clientMAC| % 256 && b[3] == m.hops
            && U32(b[4..8]) == m.xid && U16(b[8..10]) == m.secs && U16(b[10..12]) == m.flags
            && b[12..16] == Wire4(m.clientIP) && b[16..20] == Wire4(m.yourIP)
            && b[20..24] == Wire4(m.nextIP) && b[24..28] == Wire4(m.relayIP)
            && b[28..44] == Fit(m.clientMAC, 16)
            && b[44..108] == m.serverHostName && b[108..236] == m.bootFilename && U32(b[236..240]) == m.cookie
            && b[240..] == OptionsBytes(m.options) + if m.options == [] then [] else [255]
  {
    var rest := OptionsBytes(m.options) + if m.options == [] then [] else [OPT_END];
    var b := MessageBytes(m);
    Assoc(HeaderBytes(m), OptionsBytes(m.options), if m.options == [] then [] else [OPT_END]);
    assert b == HeaderBytes(m) + rest;
    HeaderParts(m, rest);
    NumbersRoundTrip(m, b);
    DhcpRoundTrip.AddressesRoundTrip(m, b);
    U32Slice(b, 4);
    U16Slice(b, 8);
    U16Slice(b, 10);
    Append(HeaderBytes(m), rest);
    assert b[240..] == rest;
  }

  lemma {:induction false} OptionsBytesAppend(a: seq<Opt>, b: seq<Opt>)
    ensures OptionsBytes(a + b) == OptionsBytes(a) + OptionsBytes(b)
    decreases |b|
  {
    if b == [] {
      assert a + b == a;
    } else {
      assert (a + b)[..|a + b| - 1] == a + b[..|b| - 1];
      OptionsBytesAppend(a, b[..|b| - 1]);
      Assoc(OptionsBytes(a), OptionsBytes(b[..|b| - 1]), OptionBytes(b[|b| - 1]));
    }
  }

  lemma OneOptionBytes(o: Opt)
    ensures OptionsBytes([o]) == [o.code, |o.data| % 256] + o.data
  {
    assert [o][..0] == [];
  }

  lemma FourOptionsBytes(a: Opt, b: Opt, c: Opt, d: Opt)
    ensures OptionsBytes([a, b, c, d]) == OptionBytes(a) + OptionBytes(b) + OptionBytes(c) + OptionBytes(d)
  {
    assert [a, b, c, d] == [a] + [b] + [c] + [d];
    OptionsBytesAppend([a] + [b] + [c], [d]);
    OptionsBytesAppend([a] + [b], [c]);
    OptionsBytesAppend([a], [b]);
    OneOptionBytes(a);
    OneOptionBytes(b);
    OneOptionBytes(c);
    OneOptionBytes(d);
  }

  /** The identifier of a client: type 255, the checksum of its address as IAID, DUID-LL over Ethernet, and six bytes of the address. */
  function IdentifierBytes(t: Template): seq<u8> { [255] + PutU32(t.crc) + [0, 3, 0, 1] + Fit(t.hwaddr, 6) }

  /** The four options of every request: type, identifier, message size 1500, and the wanted parameters. */
  lemma FixedOptionsBytes(t: Template, msgType: u8)
    ensures OptionsBytes(FixedOptions(t, msgType)) ==
            [53, 1, msgType] + ([61, 15] + IdentifierBytes(t)) + [57, 2, 5, 220] + [55, 9, 1, 3, 51, 54, 6, 15, 26, 58, 59]
  {
    var os := FixedOptions(t, msgType);
    FourOptionsBytes(os[0], os[1], os[2], os[3]);
    assert OptionBytes(os[0]) == [53, 1, msgType];
    assert OptionBytes(os[2]) == [57, 2, 5, 220];
    assert OptionBytes(os[3]) == [55, 9, 1, 3, 51, 54, 6, 15, 26, 58, 59];
  }

  lemma AddressOptionBytes(code: u8, ip: IP)
    ensures OptionsBytes([OptIP(code, [ip])]) == [code, 4] + Wire4(ip)
  {
    OneOptionBytes(OptIP(code, [ip]));
    OneAddressBytes(ip);
  }

  lemma RequestedBytes(ip: IP)
    ensures OptionsBytes(RequestedOptions(ip)) == if ip != [] then [50, 4] + Wire4(ip) else []
  {
    AddressOptionBytes(50, ip);
  }

  lemma ServerBytes(ip: IP)
    ensures OptionsBytes(ServerOptions(ip)) == if ip != [] then [54, 4] + Wire4(ip) else []
  {
    AddressOptionBytes(54, ip);
  }

  /** Requested address and server follow, if they are given. */
  function NamedBytes(requested: IP, server: IP): seq<u8> {
    (if requested != [] then [50, 4] + Wire4(requested) else []) + (if server != [] then [54, 4] + Wire4(server) else [])
  }

  lemma RequestOptionsBytes(t: Template, msgType: u8, requested: IP, server: IP)
    ensures OptionsBytes(RequestOptions(t, msgType, requested, server)) ==
            [53, 1, msgType] + ([61, 15] + IdentifierBytes(t)) + [57, 2, 5, 220] + [55, 9, 1, 3, 51, 54, 6, 15, 26, 58, 59]
            + NamedBytes(requested, server)
  {
    FixedOptionsBytes(t, msgType);
    OptionsBytesAppend(FixedOptions(t, msgType), RequestedOptions(requested) + ServerOptions(server));
    OptionsBytesAppend(RequestedOptions(requested), ServerOptions(server));
    RequestedBytes(requested);
    ServerBytes(server);
  }

  lemma OneAddressBytes(ip: IP)
    ensures AddressesBytes([ip]) == Wire4(ip)
  {
    assert AddressesBytes([ip])[4 * 0..4 * 0 + 4] == Wire4(ip);
  }

  /** A message whose names are not used, and which comes straight from its sender. */
  lemma PlainHeader(m: Message)
    requires m.hops == 0 && m.secs == 0 && m.nextIP == m.relayIP == [] && m.cookie == 0x63825363
    requires m.serverHostName == Zeros(64) && m.bootFilename == Zeros(128)
    ensures var b := MessageBytes(m);
            && |b| >= 240 && b[..4] == [m.op, m.htype, |m.clientMAC| % 256, 0] && U32(b[4..8]) == m.xid && b[8..10] == [0, 0]
            && U16(b[10..12]) == m.flags && b[12..16] == Wire4(m.clientIP) && b[16..20] == Wire4(m.yourIP)
            && b[20..28] == Zeros(8) && b[28..44] == Fit(m.clientMAC, 16) && b[44..236] == Zeros(192)
            && b[236..240] == [99, 130, 83, 99]
  {
    var b := MessageBytes(m);
    MessageLayout(m);
    assert b[20..28] == b[20..24] + b[24..28];
    assert b[44..236] == b[44..108] + b[108..236];
    U16IsZero(b[8..10]);
    CookieBytes(b[236..240]);
  }

  /** A request of a client: its header, and its options. */
  lemma RequestHeader(t: Template, msgType: u8, source: IP, requested: IP, server: IP)
    ensures var b := MessageBytes(RequestMessage(t, msgType, source, requested, server));
            && |b| >= 240 && b[..4] == [1, 1, |t.hwaddr| % 256, 0] && U32(b[4..8]) == t.xid && b[8..12] == Zeros(4)
            && b[12..16] == Wire4(source) && b[16..28] == Zeros(12)
            && b[28..44] == Fit(t.hwaddr, 16) && b[44..236] == Zeros(192) && b[236..240] == [99, 130, 83, 99]
  {
    var b := MessageBytes(RequestMessage(t, msgType, source, requested, server));
    PlainHeader(RequestMessage(t, msgType, source, requested, server));
    U16IsZero(b[10..12]);
    assert b[8..12] == b[8..10] + b[10..12];
    assert b[16..28] == b[16..20] + b[20..28];
  }

  lemma RequestTail(t: Template, msgType: u8, source: IP, requested: IP, server: IP)
    ensures var b := MessageBytes(RequestMessage(t, msgType, source, requested, server));
            && |b| >= 240
            && b[240..] ==
               [53, 1, msgType] + ([61, 15] + IdentifierBytes(t)) + [57, 2, 5, 220] + [55, 9, 1, 3, 51, 54, 6, 15, 26, 58, 59]
               + NamedBytes(requested, server) + [255]
  {
    MessageLayout(RequestMessage(t, msgType, source, requested, server));
    RequestOptionsBytes(t, msgType, requested, server);
  }

  /** A reply of a server, in the same way: flags, the client's address, and its hardware address. */
  lemma ReplyHeader(msgType: u8, xid: u32, flags: u16, yourIP: IP, server: IP, mac: seq<u8>, opts: seq<Opt>)
    ensures var b := MessageBytes(Replies.ReplyMessage(msgType, xid, flags, yourIP, server, mac, opts));
            && |b| >= 240 && b[..4] == [2, 1, |mac| % 256, 0] && U32(b[4..8]) == xid && b[8..10] == [0, 0] && U16(b[10..12]) == flags
            && b[12..16] == Zeros(4) && b[16..20] == Wire4(yourIP) && b[20..28] == Zeros(8)
            && b[28..44] == Fit(mac, 16) && b[44..236] == Zeros(192) && b[236..240] == [99, 130, 83, 99]
  {
    PlainHeader(Replies.ReplyMessage(msgType, xid, flags, yourIP, server, mac, opts));
  }

  /** Code, length and data. */
  function Tlv(code: u8, data: seq<u8>): seq<u8> { [code, |data| % 256] + data }

  /** An option that is only there if it has data. */
  function TlvIf(code: u8, data: seq<u8>): seq<u8> { if data == [] then [] else Tlv(code, data) }

  /** Lease in seconds and mask, and then router, DNS and NTP servers and domain if there are any. */
  function ConfiguredBytes(c: Config, mac: seq<u8>): seq<u8>
    requires c.lopts.leaseDuration >= 0
  {
    Tlv(51, PutU32(Float64.Seconds(c.lopts.leaseDuration) % U32_RANGE)) + Tlv(1, c.lopts.netmask)
    + (if RouterFor(c, mac) != [] then Tlv(3, Wire4(RouterFor(c, mac))) else [])
    + TlvIf(6, AddressesBytes(DnsFor(c, mac)))
    + TlvIf(42, AddressesBytes(NtpFor(c, mac)))
    + TlvIf(15, DomainFor(c, mac))
  }

  lemma LeaseAndMaskBytes(c: Config)
    requires c.lopts.leaseDuration >= 0
    ensures OptionsBytes(LeaseAndMask(c)) ==
            Tlv(51, PutU32(Float64.Seconds(c.lopts.leaseDuration) % U32_RANGE)) + Tlv(1, c.lopts.netmask)
  {
    var l, k := OptionLeaseDuration(c.lopts.leaseDuration), OptionSubnetMask(c.lopts.netmask);
    assert LeaseAndMask(c) == [l] + [k];
    OptionsBytesAppend([l], [k]);
    OneOptionBytes(l);
    OneOptionBytes(k);
  }

  lemma RouterBytes(c: Config, mac: seq<u8>)
    ensures OptionsBytes(RouterOptions(c, mac)) == if RouterFor(c, mac) != [] then Tlv(3, Wire4(RouterFor(c, mac))) else []
  {
    AddressOptionBytes(3, RouterFor(c, mac));
  }

  lemma ListBytes(c: Config, mac: seq<u8>)
    ensures OptionsBytes(DnsOptions(c, mac)) == TlvIf(6, AddressesBytes(DnsFor(c, mac)))
    ensures OptionsBytes(NtpOptions(c, mac)) == TlvIf(42, AddressesBytes(NtpFor(c, mac)))
    ensures OptionsBytes(DomainOptions(c, mac)) == TlvIf(15, DomainFor(c, mac))
  {
    OneOptionBytes(OptionDNS(DnsFor(c, mac)));
    OneOptionBytes(OptionNTP(NtpFor(c, mac)));
    OneOptionBytes(OptionDomainName(DomainFor(c, mac)));
  }

  lemma OptionsForBytes(c: Config, mac: seq<u8>)
    requires c.lopts.leaseDuration >= 0
    ensures OptionsBytes(OptionsFor(c, mac)) == ConfiguredBytes(c, mac)
  {
    var a, r, d, n, e := LeaseAndMask(c), RouterOptions(c, mac), DnsOptions(c, mac), NtpOptions(c, mac), DomainOptions(c, mac);
    OptionsBytesAppend(a + r + d + n, e);
    OptionsBytesAppend(a + r + d, n);
    OptionsBytesAppend(a + r, d);
    OptionsBytesAppend(a, r);
    LeaseAndMaskBytes(c);
    RouterBytes(c, mac);
    ListBytes(c, mac);
  }

  /** The options of an offer or an acknowledgement. */
  lemma ReplyTail(msgType: u8, xid: u32, flags: u16, yourIP: IP, server: IP, mac: seq<u8>, c: Config)
    requires c.lopts.leaseDuration >= 0
    ensures var b := MessageBytes(Replies.ReplyMessage(msgType, xid, flags, yourIP, server, mac, OptionsFor(c, mac)));
            |b| >= 240 && b[240..] == [53, 1, msgType] + ([54, 4] + Wire4(server)) + ConfiguredBytes(c, mac) + [255]
  {
    MessageLayout(Replies.ReplyMessage(msgType, xid, flags, yourIP, server, mac, OptionsFor(c, mac)));
    TypeAndServer(msgType, server, OptionsFor(c, mac));
    OptionsForBytes(c, mac);
  }

  lemma TypeAndServer(msgType: u8, server: IP, rest: seq<Opt>)
    ensures OptionsBytes([OptionType(msgType), OptionServerIdentifier(server)] + rest)
            == [53, 1, msgType] + ([54, 4] + Wire4(server)) + OptionsBytes(rest)
  {
    var t, s := OptionType(msgType), OptionServerIdentifier(server);
    OptionsBytesAppend([t, s], rest);
    assert [t, s] == [t] + [s];
    OptionsBytesAppend([t], [s]);
    OneOptionBytes(t);
    AddressOptionBytes(54, server);
  }

  /** And those of a refusal. */
  lemma RefusalTail(xid: u32, server: IP, mac: seq<u8>)
    ensures var b := MessageBytes(Replies.ReplyMessage(6, xid, 0, [], server, mac, []));
            |b| >= 240 && b[240..] == [53, 1, 6] + ([54, 4] + Wire4(server)) + [255]
  {
    MessageLayout(Replies.ReplyMessage(6, xid, 0, [], server, mac, []));
    TypeAndServer(6, server, []);
  }

  /** The datagram around it: UDP between these ports, with 64 hops to live. */
  lemma DatagramOnTheWire(id: u16, src: IP, dst: IP, srcPort: u16, dstPort: u16, payload: seq<u8>)
    requires 28 + |payload| <= 0xffff
    ensures var d := Layer.DecodeIPv4(Layer.Ipv4Bytes(Packet(id, src, dst, Segment(srcPort, dstPort, payload))));
            && d.Some? && d.value.protocol == 17 && d.value.ttl == 64 && d.value.identification == id && d.value.flags == 0
            && d.value.source == Normal(src) && d.value.destination == Normal(dst)
            && Layer.DecodeUDP(d.value.data) == Some(Layer.UDP(srcPort, dstPort, payload))
  {
    Layer.Ipv4RoundTrip(Packet(id, src, dst, Segment(srcPort, dstPort, payload)));
    Layer.UdpInIpv4RoundTrip(Packet(id, src, dst, Segment(srcPort, dstPort, payload)), Segment(srcPort, dstPort, payload));
  }

  /** This packet is a reply of a server, from port 67 to port 68; its message is described by `ReplyHeader` and `ReplyTail`. */
  predicate ReplyIs(packet: seq<u8>, from: IP, to: IP, m: Message) {
    var d := Layer.DecodeIPv4(packet);
    && d.Some? && d.value.source == from && d.value.destination == to
    && Layer.DecodeUDP(d.value.data) == Some(Layer.UDP(67, 68, MessageBytes(m)))
  }

  lemma ReplyDatagram(packet: seq<u8>, src: IP, dst: IP, to: IP, m: Message, payload: seq<u8>)
    requires payload == MessageBytes(m) && 28 + |payload| <= 0xffff && packet == Replies.AssembleUdp(src, dst, payload) && to == Normal(dst)
    ensures ReplyIs(packet, Normal(src), to, m)
  {
    DatagramOnTheWire(0, src, dst, 67, 68, payload);
  }

  /** A reply goes to everyone if the client has set the broadcast flag, the highest of sixteen, and else to its new address. */
  function ReplyTo(flags: u16, dst: IP): IP { if flags / 0x8000 % 2 == 1 then IPv4(255, 255, 255, 255) else Normal(dst) }

  lemma ReplyToIs(flags: u16, dst: IP)
    ensures Normal(Replies.DstFromFlag(flags, dst)) == ReplyTo(flags, dst)
  {
    BroadcastIsNormal();
  }

  lemma OfferDestination(xid: u32, flags: u16, src: IP, dst: IP, mac: seq<u8>, opts: seq<Opt>, m: Message, payload: seq<u8>)
    requires m == Replies.ReplyMessage(2, xid, flags, dst, src, mac, opts) && payload == MessageBytes(m) && 28 + |payload| <= 0xffff
    ensures ReplyIs(Replies.AssembleOffer(xid, flags, src, dst, mac, opts), Normal(src), ReplyTo(flags, dst), m)
  {
    ReplyToIs(flags, dst);
    ReplyDatagram(Replies.AssembleOffer(xid, flags, src, dst, mac, opts), src, Replies.DstFromFlag(flags, dst), ReplyTo(flags, dst), m, payload);
  }

  lemma AckDestination(xid: u32, flags: u16, src: IP, dst: IP, mac: seq<u8>, opts: seq<Opt>, m: Message, payload: seq<u8>)
    requires m == Replies.ReplyMessage(5, xid, flags, dst, src, mac, opts) && payload == MessageBytes(m) && 28 + |payload| <= 0xffff
    ensures ReplyIs(Replies.AssembleACK(xid, flags, src, dst, mac, opts), Normal(src), ReplyTo(flags, dst), m)
  {
    ReplyToIs(flags, dst);
    ReplyDatagram(Replies.AssembleACK(xid, flags, src, dst, mac, opts), src, Replies.DstFromFlag(flags, dst), ReplyTo(flags, dst), m, payload);
  }

  lemma BroadcastIsNormal()
    ensures Normal(IPv4(255, 255, 255, 255)) == IPv4(255, 255, 255, 255)
  {
    assert IPV4_BCAST[..12] == V4_IN_V6_PREFIX && IPV4_BCAST == V4_IN_V6_PREFIX + IPV4_BCAST[12..];
  }

  /** A refusal always goes to everyone. */
  lemma RefusalDestination(xid: u32, src: IP, mac: seq<u8>, m: Message, payload: seq<u8>)
    requires m == Replies.ReplyMessage(6, xid, 0, [], src, mac, []) && payload == MessageBytes(m) && 28 + |payload| <= 0xffff
    ensures ReplyIs(Replies.AssembleNACK(xid, src, mac), Normal(src), IPv4(255, 255, 255, 255), m)
  {
    BroadcastIsNormal();
    ReplyDatagram(Replies.AssembleNACK(xid, src, mac), src, IPV4_BCAST, IPV4_BCAST, m, payload);
  }

  /** The four packets of a client: their addresses, their ports, and what they say. */
  lemma RequestsOnTheWire(t: Template, id: u16, address: IP, server: IP)
    ensures RequestIs(t, Discover(t, id), IPv4(0, 0, 0, 0), IPv4(255, 255, 255, 255), 1, [], [])
    ensures RequestIs(t, RequestSelecting(t, id, address, server), IPv4(0, 0, 0, 0), IPv4(255, 255, 255, 255), 3, address, server)
    ensures RequestIs(t, RequestRenewing(t, id, address, server), Normal(address), Normal(server), 3, [], [])
    ensures RequestIs(t, RequestRebinding(t, id, address), Normal(address), IPv4(255, 255, 255, 255), 3, [], [])
  {
    BroadcastIsNormal();
    ZeroIsNormal();
    RequestDatagram(t, id, 1, IPv4(0, 0, 0, 0), IPv4(255, 255, 255, 255), [], []);
    RequestDatagram(t, id, 3, IPv4(0, 0, 0, 0), IPv4(255, 255, 255, 255), address, server);
    RequestDatagram(t, id, 3, address, server, [], []);
    RequestDatagram(t, id, 3, address, IPv4(255, 255, 255, 255), [], []);
  }

  lemma ZeroIsNormal()
    ensures Normal(IPv4(0, 0, 0, 0)) == IPv4(0, 0, 0, 0)
  {
    assert IPV4_ZERO[..12] == V4_IN_V6_PREFIX && IPV4_ZERO == V4_IN_V6_PREFIX + IPV4_ZERO[12..];
  }

  /** This packet is a request of this client, from port 68 to port 67; its message is described by `RequestHeader` and `RequestTail`. */
  predicate RequestIs(t: Template, packet: seq<u8>, from: IP, to: IP, msgType: u8, requested: IP, server: IP) {
    var d := Layer.DecodeIPv4(packet);
    && d.Some? && d.value.source == from && d.value.destination == to
    && Layer.DecodeUDP(d.value.data) == Some(Layer.UDP(68, 67, MessageBytes(RequestMessage(t, msgType, from, requested, server))))
  }

  lemma RequestDatagram(t: Template, id: u16, msgType: u8, source: IP, destination: IP, requested: IP, server: IP)
    ensures RequestIs(t, Request(t, id, msgType, source, destination, requested, server), Normal(source), Normal(destination),
                      msgType, requested, server)
  {
    var m := RequestMessage(t, msgType, source, requested, server);
    RequestTail(t, msgType, source, requested, server);
    assert |MessageBytes(m)| <= 1000;
    DatagramOnTheWire(id, source, destination, 68, 67, MessageBytes(m));
    SameHeader(m, m.(clientIP := Normal(source)));
  }

  /** An address and its normal form are printed alike. */
  lemma SameHeader(m: Message, n: Message)
    requires n == m.(clientIP := Normal(m.clientIP))
    ensures MessageBytes(n) == MessageBytes(m)
  {
    NormalIsEqual(m.clientIP);
  }

  lemma U16IsZero(x: seq<u8>)
    requires |x| == 2 && U16(x) == 0
    ensures x == [0, 0]
  {
  }

  lemma CookieBytes(x: seq<u8>)
    requires |x| == 4 && U32(x) == 0x63825363
    ensures x == [99, 130, 83, 99]
  {
    PutU32OfU32(x);
  }
}
