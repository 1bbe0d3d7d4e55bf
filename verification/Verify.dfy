/** The verifiers of replies, and the loop that waits for a reply which one of them accepts. */
module Verify {
  import opened Bytes
  import opened DhcpMsg
  import opened Options
  import opened Packets
  import Layer

  datatype State = Failed | Passed | IsNack

  /** An address that a client can be given, or a server can have. */
  predicate Assignable(ip: IP) { ip != NIL_IP && !Equal(ip, IPV4_ZERO) && !Equal(ip, IPV4_BCAST) }

  function VerifyCommon(xid: u32, m: Message, opt: DecodedOptions): State {
    if m.xid != xid then Failed
    else if |opt.routers| == 0 || !Assignable(m.yourIP) then Failed
    else if !Assignable(opt.serverIdentifier) then Failed
    else if opt.leaseDuration < MINUTE then Failed
    else Passed
  }

  function VerifyOffer(xid: u32, m: Message, opt: DecodedOptions): State {
    if opt.messageType != MSG_OFFER then Failed else VerifyCommon(xid, m, opt)
  }

  /** A NACK is one whatever else it says. */
  function VerifyAck(lm: Message, lopt: DecodedOptions, xid: u32, sameServer: bool, m: Message, opt: DecodedOptions): State {
    if opt.messageType == MSG_NACK then IsNack
    else if opt.messageType != MSG_ACK then Failed
    else if !Equal(m.yourIP, lm.yourIP) then Failed
    else if sameServer && !Equal(opt.serverIdentifier, lopt.serverIdentifier) then Failed
    else VerifyCommon(xid, m, opt)
  }

  /** The question a client has asked, which decides what it takes for an answer. */
  datatype Question =
    | Offers(xid: u32)
    | Acks(lm: Message, lopt: DecodedOptions, xid: u32, sameServer: bool)

  function Verdict(q: Question, m: Message, opt: DecodedOptions): State {
    match q
    case Offers(xid) => VerifyOffer(xid, m, opt)
    case Acks(lm, lopt, xid, sameServer) => VerifyAck(lm, lopt, xid, sameServer, m, opt)
  }

  /** The DHCP message in a packet for this client, with its options; everything else is passed over. */
  function Received(b: seq<u8>, hwaddr: seq<u8>): Option<(Message, DecodedOptions)> {
    match Opened(b)
    case None => None
    case Some(p) =>
      if p.protocol != Layer.PROTO_UDP || p.dstPort != CLIENT_PORT then None
      else
        match ParseMessage(p.payload)
        case None => None
        case Some(m) => if m.clientMAC != hwaddr then None else Some((m, Decoded(m.options)))
  }

  datatype Reply = Accepted(m: Message, opt: DecodedOptions) | Nack | NoReply

  function Judged(q: Question, m: Message, opt: DecodedOptions): (r: Reply)
    ensures r.Accepted? ==> r == Accepted(m, opt) && Verdict(q, m, opt) == Passed
  {
    match Verdict(q, m, opt)
    case Passed => Accepted(m, opt)
    case IsNack => Nack
    case Failed => NoReply
  }

  /** What one packet is to a client that waits for an answer; `NoReply` when it is passed over. */
  function Examined(q: Question, hwaddr: seq<u8>, b: seq<u8>): (r: Reply)
    ensures r.Accepted? ==> Verdict(q, r.m, r.opt) == Passed
  {
    match Received(b, hwaddr)
    case None => NoReply
    case Some((m, opt)) => Judged(q, m, opt)
  }

  /** The first packet, of those read until the socket is closed, that is not passed over decides. */
  function Answer(packets: seq<seq<u8>>, examine: seq<u8> -> Reply): Reply {
    if packets == [] then NoReply
    else if !examine(packets[0]).NoReply? then examine(packets[0])
    else Answer(packets[1..], examine)
  }

  lemma {:induction false} AnswerIsFirst(packets: seq<seq<u8>>, examine: seq<u8> -> Reply) returns (n: nat)
    ensures n <= |packets| && (n == |packets| <==> Answer(packets, examine).NoReply?)
    ensures forall j | 0 <= j < n :: examine(packets[j]).NoReply?
    ensures n < |packets| ==> Answer(packets, examine) == examine(packets[n])
  {
    if packets == [] || !examine(packets[0]).NoReply? {
      n := 0;
    } else {
      n := AnswerIsFirst(packets[1..], examine);
      n := n + 1;
    }
  }

  /** The loop of `catchReply`. */
  method CatchReply(packets: seq<seq<u8>>, examine: seq<u8> -> Reply) returns (r: Reply)
    ensures r == Answer(packets, examine)
  {
    for i := 0 to |packets|
      invariant Answer(packets, examine) == Answer(packets[i..], examine)
    {
      r := examine(packets[i]);
      if !r.NoReply? {
        return r;
      }
    }
    return NoReply;
  }

  /** The body of the loop of `catchReply`, up to the verdict. */
  method Receive(b: seq<u8>, hwaddr: seq<u8>) returns (r: Option<(Message, DecodedOptions)>)
    ensures r == Received(b, hwaddr)
  {
    var v4 := Layer.DecodeIPv4(b);
    if v4.None? {
      return None;
    }
    if v4.value.protocol == Layer.PROTO_UDP {
      var udp := Layer.DecodeUDP(v4.value.data);
      if udp.Some? && udp.value.dstPort == CLIENT_PORT {
        var msg := Decode(udp.value.data);
        if msg.Some? && msg.value.clientMAC == hwaddr {
          var opts := DecodeOptions(msg.value.options);
          return Some((msg.value, opts));
        }
      }
    }
    return None;
  }

  /** An address that can be assigned is neither nil nor 0.0.0.0 nor 255.255.255.255. */
  lemma AssignableIsProper(ip: IP)
    ensures Assignable(ip) <==> ip != [] && !(To4(ip) != [] && (AsU32(ip) == 0 || AsU32(ip) == 0xffff_ffff))
  {
    assert IPV4_ZERO == ToV4(0) && IPV4_BCAST == ToV4(0xffff_ffff);
    EqualToV4(ip, 0);
    EqualToV4(ip, 0xffff_ffff);
  }

  /**
   What a client accepts, by the fields of the reply. It is for the transaction of the question, has a router, an
   address that can be assigned, a server, and a lease of at least a minute. An offer answers a discovery; an
   acknowledgement anything else, if it is for the address and, where this matters, from the server of the last
   reply. A refusal is one whatever else it says.
   */
  lemma VerdictIsExact(q: Question, m: Message, opt: DecodedOptions)
    ensures var usable := m.xid == q.xid && |opt.routers| > 0 && Assignable(m.yourIP) && Assignable(opt.serverIdentifier)
                          && opt.leaseDuration >= 60_000_000_000;
            && (Verdict(q, m, opt) == Passed <==>
                  && usable
                  && match q
                     case Offers(_) => opt.messageType == 2
                     case Acks(lm, lopt, _, sameServer) =>
                       && opt.messageType == 5 && Equal(m.yourIP, lm.yourIP)
                       && (sameServer ==> Equal(opt.serverIdentifier, lopt.serverIdentifier)))
            && (Verdict(q, m, opt) == IsNack <==> q.Acks? && opt.messageType == 6)
  {
  }

  /** Which packets are replies at all: UDP to port 68, with a message for this hardware address. */
  lemma ReceivedIsExact(b: seq<u8>, hwaddr: seq<u8>)
    ensures var v4 := Layer.DecodeIPv4(b);
            var udp := if v4.Some? then Layer.DecodeUDP(v4.value.data) else None;
            var msg := if udp.Some? then ParseMessage(udp.value.data) else None;
            Received(b, hwaddr) ==
            if msg.Some? && v4.value.protocol == 17 && udp.value.dstPort == 68 && msg.value.clientMAC == hwaddr
            then Some((msg.value, Decoded(msg.value.options))) else None
  {
  }
}
