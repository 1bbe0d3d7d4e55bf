/** What a server prints and what a client accepts: the wire formats of both ends against each other. */
module Interop {
  import opened Bytes
  import opened DhcpMsg
  import opened DhcpRoundTrip
  import opened Options
  import opened Packets
  import opened Replies
  import opened ServerConfig
  import opened Verify
  import Float64
  import Layer

  /** Options of another code that follow do not change what is decoded for a code. */
  lemma {:induction false} LastBefore(p: seq<Opt>, q: seq<Opt>, code: u8)
    requires forall i | 0 <= i < |q| :: q[i].code != code
    ensures Last(p + q, code) == Last(p, code)
    decreases |q|
  {
    if q == [] {
      assert p + q == p;
    } else {
      assert (p + q)[..|p + q| - 1] == p + q[..|q| - 1];
      LastBefore(p, q[..|q| - 1], code);
    }
  }

  lemma LastAt(p: seq<Opt>, o: Opt, q: seq<Opt>)
    requires forall i | 0 <= i < |q| :: q[i].code != o.code
    ensures Last(p + [o] + q, o.code) == o.data
  {
    LastBefore(p + [o], q, o.code);
  }

  lemma TypeDecoded(os: seq<Opt>, t: Opt, rest: seq<Opt>)
    requires os == [] + [t] + rest && t.code == OPT_MESSAGE_TYPE && |t.data| == 1
    requires forall i | 0 <= i < |rest| :: rest[i].code != OPT_MESSAGE_TYPE
    ensures Decoded(os).messageType == t.data[0]
  {
    LastOccurrenceWins(os);
    LastAt([], t, rest);
  }

  lemma {:induction false} OptionsBytesBound(os: seq<Opt>)
    requires AllEncodable(os)
    ensures |OptionsBytes(os)| <= 257 * |os|
    decreases |os|
  {
    if os != [] {
      OptionsBytesBound(os[..|os| - 1]);
    }
  }

  /** Three printers and three parsers: a message comes back through the whole stack exactly if its packet fits 16 bits. */
  lemma WholeStackRoundTrip(id: u16, src: IP, dst: IP, srcPort: u16, dstPort: u16, m: Message)
    requires |m.clientMAC| <= MAC_FIELD && m.options != [] && AllEncodable(m.options)
    ensures var u := Segment(srcPort, dstPort, MessageBytes(m));
            var d := Layer.DecodeIPv4(Layer.Ipv4Bytes(Packet(id, src, dst, u)));
            && (d.Some? <==> Layer.IPV4_HLEN + Layer.UDP_HLEN + |MessageBytes(m)| <= Layer.MAX_PACKET)
            && (d.Some? ==>
                  && d.value.protocol == Layer.PROTO_UDP
                  && d.value.source == Normal(src) && d.value.destination == Normal(dst)
                  && Layer.DecodeUDP(d.value.data) == Some(u)
                  && ParseMessage(u.data) == Some(NormalMessage(m)))
  {
    Layer.UdpInIpv4RoundTrip(Packet(id, src, dst, Segment(srcPort, dstPort, MessageBytes(m))), Segment(srcPort, dstPort, MessageBytes(m)));
    MessageRoundTrip(m);
  }

  /** Up to fourteen options always fit the buffer of the reader. */
  lemma MessageArrives(id: u16, src: IP, dst: IP, srcPort: u16, dstPort: u16, m: Message)
    requires |m.clientMAC| <= MAC_FIELD && 0 < |m.options| <= 14 && AllEncodable(m.options)
    ensures var p := Opened(Read(Layer.Ipv4Bytes(Packet(id, src, dst, Segment(srcPort, dstPort, MessageBytes(m))))));
            && p == Some(Datagram(Layer.PROTO_UDP, Normal(src), Normal(dst), dstPort, MessageBytes(m)))
            && ParseMessage(p.value.payload) == Some(NormalMessage(m))
  {
    OptionsBytesBound(m.options);
    PacketArrives(id, src, dst, Segment(srcPort, dstPort, MessageBytes(m)));
    MessageRoundTrip(m);
  }

  /** The options of a reply, in the order in which they are printed. */
  function ReplyOptions(msgType: u8, server: IP, c: Config, mac: seq<u8>): seq<Opt>
    requires c.lopts.leaseDuration >= 0
  {
    [OptionType(msgType), OptionServerIdentifier(server)] + OptionsFor(c, mac)
  }

  function AfterRouter(c: Config, mac: seq<u8>): seq<Opt> { DnsOptions(c, mac) + NtpOptions(c, mac) + DomainOptions(c, mac) }

  lemma OptionsInOrder(msgType: u8, server: IP, c: Config, mac: seq<u8>)
    requires c.lopts.leaseDuration >= 0
    ensures ReplyOptions(msgType, server, c, mac)
            == [OptionType(msgType), OptionServerIdentifier(server), OptionLeaseDuration(c.lopts.leaseDuration),
                OptionSubnetMask(c.lopts.netmask)] + (RouterOptions(c, mac) + AfterRouter(c, mac))
  {
    Regroup(OptionType(msgType), OptionServerIdentifier(server), LeaseAndMask(c)[0], LeaseAndMask(c)[1],
            RouterOptions(c, mac), DnsOptions(c, mac), NtpOptions(c, mac), DomainOptions(c, mac));
  }

  lemma Regroup(t: Opt, s: Opt, l: Opt, k: Opt, r: seq<Opt>, d: seq<Opt>, n: seq<Opt>, e: seq<Opt>)
    ensures [t, s] + ([l, k] + r + d + n + e) == [t, s, l, k] + (r + (d + n + e))
  {
  }

  lemma RestEncodable(c: Config, mac: seq<u8>)
    requires EncodableFor(c, mac)
    ensures AllEncodable(RouterOptions(c, mac) + AfterRouter(c, mac)) && |RouterOptions(c, mac) + AfterRouter(c, mac)| <= 4
  {
    forall o | o in AfterRouter(c, mac)
      ensures Encodable(o)
    {
      assert o in DnsOptions(c, mac) || o in NtpOptions(c, mac) || o in DomainOptions(c, mac);
    }
  }

  lemma ReplyEncodable(msgType: u8, server: IP, c: Config, mac: seq<u8>)
    requires c.lopts.leaseDuration >= 0 && EncodableFor(c, mac)
    ensures AllEncodable(ReplyOptions(msgType, server, c, mac)) && 0 < |ReplyOptions(msgType, server, c, mac)| <= 14
  {
    OptionsInOrder(msgType, server, c, mac);
    RestEncodable(c, mac);
    FourAndRest(OptionType(msgType), OptionServerIdentifier(server), OptionLeaseDuration(c.lopts.leaseDuration),
                OptionSubnetMask(c.lopts.netmask), RouterOptions(c, mac) + AfterRouter(c, mac));
  }

  lemma FourAndRest(t: Opt, s: Opt, l: Opt, k: Opt, rest: seq<Opt>)
    requires Encodable(t) && Encodable(s) && Encodable(l) && Encodable(k) && AllEncodable(rest) && |rest| <= 4
    ensures AllEncodable([t, s, l, k] + rest) && 0 < |[t, s, l, k] + rest| <= 14
  {
  }

  /** The one occurrence of each option that every reply has. */
  lemma ReplyLast(msgType: u8, server: IP, c: Config, mac: seq<u8>)
    requires c.lopts.leaseDuration >= 0
    ensures var os := ReplyOptions(msgType, server, c, mac);
            && Last(os, OPT_MESSAGE_TYPE) == OptionType(msgType).data
            && Last(os, OPT_SERVER_IDENTIFIER) == OptionServerIdentifier(server).data
            && Last(os, OPT_LEASE_DURATION) == OptionLeaseDuration(c.lopts.leaseDuration).data
            && Last(os, OPT_SUBNET_MASK) == c.lopts.netmask
  {
    OptionsInOrder(msgType, server, c, mac);
    RestCodes(c, mac);
    LastOfFour(OptionType(msgType), OptionServerIdentifier(server), OptionLeaseDuration(c.lopts.leaseDuration),
               OptionSubnetMask(c.lopts.netmask), RouterOptions(c, mac) + AfterRouter(c, mac));
  }

  /** And of those that it has if they are configured. */
  lemma ReplyRest(msgType: u8, server: IP, c: Config, mac: seq<u8>)
    requires c.lopts.leaseDuration >= 0
    ensures var os := ReplyOptions(msgType, server, c, mac);
            && Last(os, OPT_ROUTER) == (if RouterFor(c, mac) != NIL_IP then OptionRouter(RouterFor(c, mac)).data else [])
            && Last(os, OPT_DNS) == (if DnsFor(c, mac) != [] then OptionDNS(DnsFor(c, mac)).data else [])
            && Last(os, OPT_DOMAIN_NAME) == DomainFor(c, mac)
  {
    OptionsInOrder(msgType, server, c, mac);
    RestOfFour(OptionType(msgType), OptionServerIdentifier(server), OptionLeaseDuration(c.lopts.leaseDuration),
               OptionSubnetMask(c.lopts.netmask), RouterOptions(c, mac), DnsOptions(c, mac), NtpOptions(c, mac), DomainOptions(c, mac));
  }

  /** The client's wishes for an MTU and for times of renewal and rebinding are never met. */
  lemma ReplyWithout(msgType: u8, server: IP, c: Config, mac: seq<u8>, code: u8)
    requires c.lopts.leaseDuration >= 0 && code in {OPT_INTERFACE_MTU, OPT_RENEWAL_DURATION, OPT_REBIND_DURATION}
    ensures Last(ReplyOptions(msgType, server, c, mac), code) == []
  {
    OptionsInOrder(msgType, server, c, mac);
    RestCodes(c, mac);
    NoneOfFour(OptionType(msgType), OptionServerIdentifier(server), OptionLeaseDuration(c.lopts.leaseDuration),
               OptionSubnetMask(c.lopts.netmask), RouterOptions(c, mac) + AfterRouter(c, mac), code);
  }

  lemma NoneOfFour(t: Opt, s: Opt, l: Opt, k: Opt, rest: seq<Opt>, code: u8)
    requires code !in {t.code, s.code, l.code, k.code} && forall o | o in rest :: o.code != code
    ensures Last([t, s, l, k] + rest, code) == []
  {
    var os := [t, s, l, k] + rest;
    assert os == [] + os;
    LastBefore([], os, code);
  }

  /** An optional option of this code, or none. */
  predicate AtMostOne(os: seq<Opt>, code: u8) { os == [] || (|os| == 1 && os[0].code == code) }

  predicate Without(os: seq<Opt>, code: u8) { forall i | 0 <= i < |os| :: os[i].code != code }

  lemma WithoutBoth(p: seq<Opt>, q: seq<Opt>, code: u8)
    requires Without(p, code) && Without(q, code)
    ensures Without(p + q, code)
  {
  }

  lemma Reassociated(f: seq<Opt>, r: seq<Opt>, d: seq<Opt>, n: seq<Opt>, e: seq<Opt>)
    ensures f + (r + (d + n + e)) == (f + r) + (d + (n + e)) == (f + r + d + n) + (e + [])
  {
  }

  lemma LastRouter(four: seq<Opt>, r: seq<Opt>, d: seq<Opt>, n: seq<Opt>, e: seq<Opt>)
    requires AtMostOne(r, OPT_ROUTER) && AtMostOne(d, OPT_DNS) && AtMostOne(n, OPT_NTP) && AtMostOne(e, OPT_DOMAIN_NAME)
    requires Without(four, OPT_ROUTER)
    ensures Last(four + (r + (d + n + e)), OPT_ROUTER) == if r == [] then [] else r[0].data
  {
    WithoutBoth(d, n, OPT_ROUTER);
    WithoutBoth(d + n, e, OPT_ROUTER);
    LastOptional(OPT_ROUTER, four, r, d + n + e);
  }

  lemma LastDns(four: seq<Opt>, r: seq<Opt>, d: seq<Opt>, n: seq<Opt>, e: seq<Opt>)
    requires AtMostOne(r, OPT_ROUTER) && AtMostOne(d, OPT_DNS) && AtMostOne(n, OPT_NTP) && AtMostOne(e, OPT_DOMAIN_NAME)
    requires Without(four, OPT_DNS)
    ensures Last(four + (r + (d + n + e)), OPT_DNS) == if d == [] then [] else d[0].data
  {
    Reassociated(four, r, d, n, e);
    WithoutBoth(four, r, OPT_DNS);
    WithoutBoth(n, e, OPT_DNS);
    LastOptional(OPT_DNS, four + r, d, n + e);
  }

  lemma LastDomain(four: seq<Opt>, r: seq<Opt>, d: seq<Opt>, n: seq<Opt>, e: seq<Opt>)
    requires AtMostOne(r, OPT_ROUTER) && AtMostOne(d, OPT_DNS) && AtMostOne(n, OPT_NTP) && AtMostOne(e, OPT_DOMAIN_NAME)
    requires Without(four, OPT_DOMAIN_NAME)
    ensures Last(four + (r + (d + n + e)), OPT_DOMAIN_NAME) == if e == [] then [] else e[0].data
  {
    Reassociated(four, r, d, n, e);
    WithoutBoth(four, r, OPT_DOMAIN_NAME);
    WithoutBoth(four + r, d, OPT_DOMAIN_NAME);
    WithoutBoth(four + r + d, n, OPT_DOMAIN_NAME);
    LastOptional(OPT_DOMAIN_NAME, four + r + d + n, e, []);
  }

  lemma RestOfFour(t: Opt, s: Opt, l: Opt, k: Opt, r: seq<Opt>, d: seq<Opt>, n: seq<Opt>, e: seq<Opt>)
    requires AtMostOne(r, OPT_ROUTER) && AtMostOne(d, OPT_DNS) && AtMostOne(n, OPT_NTP) && AtMostOne(e, OPT_DOMAIN_NAME)
    requires {t.code, s.code, l.code, k.code} !! {OPT_ROUTER, OPT_DNS, OPT_DOMAIN_NAME}
    ensures var os := [t, s, l, k] + (r + (d + n + e));
            && Last(os, OPT_ROUTER) == (if r == [] then [] else r[0].data)
            && Last(os, OPT_DNS) == (if d == [] then [] else d[0].data)
            && Last(os, OPT_DOMAIN_NAME) == (if e == [] then [] else e[0].data)
  {
    FourWithout(t, s, l, k, OPT_ROUTER);
    FourWithout(t, s, l, k, OPT_DNS);
    FourWithout(t, s, l, k, OPT_DOMAIN_NAME);
    LastRouter([t, s, l, k], r, d, n, e);
    LastDns([t, s, l, k], r, d, n, e);
    LastDomain([t, s, l, k], r, d, n, e);
  }

  lemma FourWithout(t: Opt, s: Opt, l: Opt, k: Opt, code: u8)
    requires code !in {t.code, s.code, l.code, k.code}
    ensures Without([t, s, l, k], code)
  {
  }

  lemma RestCodes(c: Config, mac: seq<u8>)
    ensures forall o | o in RouterOptions(c, mac) + AfterRouter(c, mac) :: o.code in {OPT_ROUTER, OPT_DNS, OPT_NTP, OPT_DOMAIN_NAME}
  {
    forall o | o in AfterRouter(c, mac)
      ensures o.code in {OPT_DNS, OPT_NTP, OPT_DOMAIN_NAME}
    {
      assert o in DnsOptions(c, mac) || o in NtpOptions(c, mac) || o in DomainOptions(c, mac);
    }
  }

  lemma LastOfFour(t: Opt, s: Opt, l: Opt, k: Opt, rest: seq<Opt>)
    requires t.code == OPT_MESSAGE_TYPE && s.code == OPT_SERVER_IDENTIFIER && l.code == OPT_LEASE_DURATION
    requires k.code == OPT_SUBNET_MASK && forall o | o in rest :: o.code !in {t.code, s.code, l.code, k.code}
    ensures var os := [t, s, l, k] + rest;
            Last(os, t.code) == t.data && Last(os, s.code) == s.data && Last(os, l.code) == l.data && Last(os, k.code) == k.data
  {
    var os := [t, s, l, k] + rest;
    assert os == [] + [t] + ([s, l, k] + rest);
    LastAt([], t, [s, l, k] + rest);
    assert os == [t] + [s] + ([l, k] + rest);
    LastAt([t], s, [l, k] + rest);
    assert os == [t, s] + [l] + ([k] + rest);
    LastAt([t, s], l, [k] + rest);
    assert os == [t, s, l] + [k] + rest;
    LastAt([t, s, l], k, rest);
  }

  lemma LastOptional(code: u8, p: seq<Opt>, r: seq<Opt>, a: seq<Opt>)
    requires AtMostOne(r, code) && Without(p, code) && Without(a, code)
    ensures Last(p + (r + a), code) == if r == [] then [] else r[0].data
  {
    if r == [] {
      WithoutBoth(p, a, code);
      assert p + (r + a) == [] + (p + a);
      LastBefore([], p + a, code);
    } else {
      assert p + (r + a) == p + [r[0]] + a;
      LastAt(p, r[0], a);
    }
  }

  /** A list of addresses in normal form. */
  function AllNormal(ips: seq<IP>): (r: seq<IP>) { seq(|ips|, k requires 0 <= k < |ips| => Normal(ips[k])) }

  /** Everything that a client reads in the options of a reply. */
  lemma ReplyDecoded(msgType: u8, server: IP, c: Config, mac: seq<u8>)
    requires c.lopts.leaseDuration >= 0
    ensures var opt := Decoded(ReplyOptions(msgType, server, c, mac));
            && opt.messageType == msgType
            && opt.serverIdentifier == Normal(server)
            && opt.leaseDuration == Float64.Seconds(c.lopts.leaseDuration) % U32_RANGE * SECOND
            && opt.subnetMask == ToNetmask(c.lopts.netmask)
            && opt.routers == (if RouterFor(c, mac) != NIL_IP then [Normal(RouterFor(c, mac))] else [])
            && opt.dns == AllNormal(DnsFor(c, mac))
            && opt.domainName == DomainFor(c, mac)
            && opt.interfaceMTU == 0 && opt.renewalDuration == 0 && opt.rebindDuration == 0
  {
    LastOccurrenceWins(ReplyOptions(msgType, server, c, mac));
    ReplyWithout(msgType, server, c, mac, OPT_INTERFACE_MTU);
    ReplyWithout(msgType, server, c, mac, OPT_RENEWAL_DURATION);
    ReplyWithout(msgType, server, c, mac, OPT_REBIND_DURATION);
    ReplyLast(msgType, server, c, mac);
    ReplyRest(msgType, server, c, mac);
    AddressOptionRoundTrip(OPT_SERVER_IDENTIFIER, server);
    AddressOptionRoundTrip(OPT_ROUTER, RouterFor(c, mac));
    LeaseOnTheWire(c.lopts.leaseDuration);
    DnsDecoded(DnsFor(c, mac));
  }

  lemma DnsDecoded(ips: seq<IP>)
    ensures ToAddresses(if ips != [] then OptionDNS(ips).data else []) == AllNormal(ips)
  {
    Options.AddressesRoundTrip(ips);
  }

  /** A reply reaches exactly the client whose hardware address it names. */
  lemma ReplyArrives(msgType: u8, xid: u32, flags: u16, src: IP, dst: IP, mac: seq<u8>, c: Config, hwaddr: seq<u8>)
    requires |mac| <= MAC_FIELD && c.lopts.leaseDuration >= 0 && EncodableFor(c, mac)
    ensures var m := ReplyMessage(msgType, xid, flags, dst, src, mac, OptionsFor(c, mac));
            Received(Read(AssembleUdp(src, DstFromFlag(flags, dst), MessageBytes(m))), hwaddr)
            == if mac == hwaddr then Some((NormalMessage(m), Decoded(m.options))) else None
  {
    ReplyEncodable(msgType, src, c, mac);
    var m := ReplyMessage(msgType, xid, flags, dst, src, mac, OptionsFor(c, mac));
    MessageArrives(0, src, DstFromFlag(flags, dst), SERVER_PORT, CLIENT_PORT, m);
  }

  lemma AssignableOnTheWire(ip: IP)
    ensures Assignable(Normal(ip)) <==> To4(ip) != NIL_IP && Assignable(ip)
  {
    NormalIsEqual(ip);
    EqualIffCanonical(Normal(ip), IPV4_ZERO);
    EqualIffCanonical(Normal(ip), IPV4_BCAST);
    EqualIffCanonical(ip, IPV4_ZERO);
    EqualIffCanonical(ip, IPV4_BCAST);
  }

  /** What makes a reply acceptable, in terms of the server's side only. */
  predicate Acceptable(c: Config, mac: seq<u8>, src: IP, dst: IP)
    requires c.lopts.leaseDuration >= 0
  {
    && RouterFor(c, mac) != NIL_IP
    && To4(src) != NIL_IP && Assignable(src)
    && To4(dst) != NIL_IP && Assignable(dst)
    && Float64.Seconds(c.lopts.leaseDuration) % U32_RANGE >= 60
  }

  lemma CommonVerdict(msgType: u8, xid: u32, flags: u16, src: IP, dst: IP, mac: seq<u8>, c: Config, asked: u32)
    requires c.lopts.leaseDuration >= 0
    ensures var m := ReplyMessage(msgType, xid, flags, dst, src, mac, OptionsFor(c, mac));
            VerifyCommon(asked, NormalMessage(m), Decoded(m.options)) == Passed <==> xid == asked && Acceptable(c, mac, src, dst)
  {
    ReplyDecoded(msgType, src, c, mac);
    AssignableOnTheWire(src);
    AssignableOnTheWire(dst);
  }

  /** An offer is accepted exactly by the client and for the question it is for, if a router is configured. */
  lemma OfferInterop(xid: u32, flags: u16, src: IP, dst: IP, mac: seq<u8>, c: Config, hwaddr: seq<u8>, asked: u32)
    requires |mac| <= MAC_FIELD && c.lopts.leaseDuration >= 0 && EncodableFor(c, mac)
    ensures var b := Read(AssembleOffer(xid, flags, src, dst, mac, OptionsFor(c, mac)));
            var r := Examined(Offers(asked), hwaddr, b);
            && (r.Accepted? <==> mac == hwaddr && xid == asked && Acceptable(c, mac, src, dst))
            && (r.Accepted? ==> r.m.yourIP == Normal(dst) && r.opt.serverIdentifier == Normal(src))
            && (r.Accepted? || r.NoReply?)
  {
    ReplyArrives(MSG_OFFER, xid, flags, src, dst, mac, c, hwaddr);
    ReplyDecoded(MSG_OFFER, src, c, mac);
    CommonVerdict(MSG_OFFER, xid, flags, src, dst, mac, c, asked);
  }

  /** An acknowledgement moreover has to be for the address, and in most states from the server, of the last reply. */
  lemma AckInterop(xid: u32, flags: u16, src: IP, dst: IP, mac: seq<u8>, c: Config, hwaddr: seq<u8>,
                   lm: Message, lopt: DecodedOptions, asked: u32, sameServer: bool)
    requires |mac| <= MAC_FIELD && c.lopts.leaseDuration >= 0 && EncodableFor(c, mac)
    ensures var b := Read(AssembleACK(xid, flags, src, dst, mac, OptionsFor(c, mac)));
            var r := Examined(Acks(lm, lopt, asked, sameServer), hwaddr, b);
            && (r.Accepted? <==>
                  && mac == hwaddr && xid == asked && Acceptable(c, mac, src, dst)
                  && Equal(dst, lm.yourIP) && (sameServer ==> Equal(src, lopt.serverIdentifier)))
            && (r.Accepted? ==> r.m.yourIP == Normal(dst) && r.opt == Decoded(ReplyOptions(MSG_ACK, src, c, mac)))
            && (r.Accepted? ==> r.opt.serverIdentifier == Normal(src))
            && (r.Accepted? || r.NoReply?)
  {
    var m := ReplyMessage(MSG_ACK, xid, flags, dst, src, mac, OptionsFor(c, mac));
    ReplyArrives(MSG_ACK, xid, flags, src, dst, mac, c, hwaddr);
    ReplyDecoded(MSG_ACK, src, c, mac);
    CommonVerdict(MSG_ACK, xid, flags, src, dst, mac, c, asked);
    AckVerdict(NormalMessage(m), Decoded(m.options), src, dst, lm, lopt, asked, sameServer);
  }

  lemma AckVerdict(m: Message, opt: DecodedOptions, src: IP, dst: IP, lm: Message, lopt: DecodedOptions, asked: u32, sameServer: bool)
    requires opt.messageType == MSG_ACK && m.yourIP == Normal(dst) && opt.serverIdentifier == Normal(src)
    ensures VerifyCommon(asked, m, opt) == Passed ==> To4(src) != NIL_IP && To4(dst) != NIL_IP
    ensures Judged(Acks(lm, lopt, asked, sameServer), m, opt) ==
            if VerifyCommon(asked, m, opt) == Passed && Equal(dst, lm.yourIP) && (sameServer ==> Equal(src, lopt.serverIdentifier))
            then Accepted(m, opt) else NoReply
  {
    AssignableOnTheWire(src);
    AssignableOnTheWire(dst);
    SameOnTheWire(dst, lm.yourIP);
    SameOnTheWire(src, lopt.serverIdentifier);
  }

  lemma EqualCommutes(a: IP, b: IP)
    ensures Equal(a, b) <==> Equal(b, a)
  {
    EqualIffCanonical(a, b);
    EqualIffCanonical(b, a);
  }

  lemma SameOnTheWire(ip: IP, other: IP)
    ensures To4(ip) != NIL_IP ==> (Equal(Normal(ip), other) <==> Equal(ip, other))
  {
    NormalIsEqual(ip);
    EqualIffCanonical(Normal(ip), ip);
    EqualIffCanonical(Normal(ip), other);
    EqualIffCanonical(ip, other);
  }

  lemma NackArrives(xid: u32, src: IP, mac: seq<u8>, hwaddr: seq<u8>)
    requires |mac| <= MAC_FIELD
    ensures var m := ReplyMessage(MSG_NACK, xid, 0, NIL_IP, src, mac, []);
            Received(Read(AssembleNACK(xid, src, mac)), hwaddr)
            == if mac == hwaddr then Some((NormalMessage(m), Decoded(m.options))) else None
  {
    var m := ReplyMessage(MSG_NACK, xid, 0, NIL_IP, src, mac, []);
    assert m.options == [OptionType(MSG_NACK), OptionServerIdentifier(src)];
    MessageArrives(0, src, IPV4_BCAST, SERVER_PORT, CLIENT_PORT, m);
  }

  lemma NackDecoded(src: IP)
    ensures Decoded([OptionType(MSG_NACK), OptionServerIdentifier(src)] + []).messageType == MSG_NACK
  {
    var t, s := OptionType(MSG_NACK), OptionServerIdentifier(src);
    TypeDecoded([t, s] + [], t, [s]);
  }

  /** A refusal is one for every question but the first, whatever the client has asked for. */
  lemma NackInterop(xid: u32, src: IP, mac: seq<u8>, hwaddr: seq<u8>, q: Question)
    requires |mac| <= MAC_FIELD
    ensures Examined(q, hwaddr, Read(AssembleNACK(xid, src, mac))) == if mac == hwaddr && q.Acks? then Nack else NoReply
  {
    NackArrives(xid, src, mac, hwaddr);
    NackDecoded(src);
  }
}
