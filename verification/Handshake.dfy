/** Both ends together: from an offer on the wire to the acknowledgement that the client accepts. */
module Handshake {
  import opened Answers
  import opened Bytes
  import opened Grants
  import opened Handlers
  import opened Keys
  import opened LeaseTable
  import opened Options
  import opened Requests
  import opened ServerConfig
  import opened ServerSafety
  import opened Templates
  import opened Verify
  import ClientInterop
  import ClientStates
  import DhcpMsg
  import DhcpRoundTrip
  import Float64
  import Interop
  import Network
  import Packets
  import Replies

  /** What the client makes of an offer of this server. */
  function OfferHeard(self: Self, conf: Config, xid: u32, flags: u16, ip: IP, mac: seq<u8>): Reply
    requires conf.lopts.leaseDuration >= 0
  {
    Examined(Offers(xid), mac, Packets.Read(Replies.AssembleOffer(xid, flags, self.ip, ip, mac, OptionsFor(conf, mac))))
  }

  /** What it makes of an acknowledgement, once it has asked for what the last reply said; of this server, or of any. */
  function AckHeard(self: Self, conf: Config, last: Reply, xid: u32, flags: u16, ip: IP, mac: seq<u8>, sameServer: bool): Reply
    requires conf.lopts.leaseDuration >= 0 && last.Accepted?
  {
    Examined(Acks(last.m, last.opt, xid, sameServer), mac,
             Packets.Read(Replies.AssembleACK(xid, flags, self.ip, ip, mac, OptionsFor(conf, mac))))
  }

  /** The client's request for an offer. */
  function RequestFor(t: Template, id: u16, offer: Reply): seq<u8>
    requires offer.Accepted?
  {
    Packets.Read(RequestSelecting(t, id, offer.m.yourIP, offer.opt.serverIdentifier))
  }

  lemma OfferIsAccepted(self: Self, conf: Config, xid: u32, flags: u16, ip: IP, mac: seq<u8>)
    requires |mac| <= DhcpMsg.MAC_FIELD && conf.lopts.leaseDuration >= 0 && EncodableFor(conf, mac)
    requires Interop.Acceptable(conf, mac, self.ip, ip)
    ensures var o := OfferHeard(self, conf, xid, flags, ip, mac);
            o.Accepted? && o.m.yourIP == Normal(ip) && o.opt.serverIdentifier == Normal(self.ip)
  {
    Interop.OfferInterop(xid, flags, self.ip, ip, mac, conf, mac, xid);
  }

  lemma NormalNormal(ip: IP)
    ensures Normal(Normal(ip)) == Normal(ip)
  {
    NormalIsEqual(ip);
  }

  lemma ManagedOnTheWire(self: Self, n: u32)
    ensures Normal(ToV4(n)) == ToV4(n)
  {
    ToV4IsRightInverse(n);
  }

  /** The request reaches the server, and no other, as one for the address of the offer. */
  lemma RequestIsForOffer(self: Self, t: Template, id: u16, n: u32, offer: Reply)
    requires |t.hwaddr| <= DhcpMsg.MAC_FIELD && t.hwaddr != self.mac
    requires To4(self.ip) != NIL_IP && Assignable(self.ip) && !Equal(self.ip, ToV4(n)) && self.net.from <= n <= self.net.to
    requires offer.Accepted? && offer.m.yourIP == ToV4(n) && offer.opt.serverIdentifier == Normal(self.ip)
    ensures ClientInterop.JobForBytes(self, RequestFor(t, id, offer)) == Job.Confirm(Selecting, ToV4(n))
  {
    ManagedOnTheWire(self, n);
    NormalNormal(self.ip);
    NormalIsEqual(self.ip);
    Network.ToUipIsExact(self.net, ToV4(n), n);
    EqualIffCanonical(ToV4(n), ToV4(n));
    ClientInterop.SelectingInterop(self, t, id, ToV4(n), Normal(self.ip));
  }

  /** A reply that the client has stored, about this address and, if it matters, from this server. */
  predicate Stored(self: Self, last: Reply, ip: IP, sameServer: bool) {
    last.Accepted? && last.m.yourIP == ip && (sameServer ==> last.opt.serverIdentifier == Normal(self.ip))
  }

  /** What a client accepts as an acknowledgement: the address that it has, and the options configured for it. */
  predicate AckFor(self: Self, conf: Config, mac: seq<u8>, ack: Reply, ip: IP)
    requires conf.lopts.leaseDuration >= 0
  {
    ack.Accepted? && ack.m.yourIP == ip && ack.opt == Decoded(Interop.ReplyOptions(MSG_ACK, self.ip, conf, mac))
  }

  lemma AckIsAccepted(self: Self, conf: Config, last: Reply, xid: u32, flags: u16, n: u32, mac: seq<u8>, sameServer: bool)
    requires |mac| <= DhcpMsg.MAC_FIELD && conf.lopts.leaseDuration >= 0 && EncodableFor(conf, mac)
    requires Interop.Acceptable(conf, mac, self.ip, ToV4(n)) && Stored(self, last, ToV4(n), sameServer)
    ensures AckFor(self, conf, mac, AckHeard(self, conf, last, xid, flags, ToV4(n), mac, sameServer), ToV4(n))
  {
    ManagedOnTheWire(self, n);
    NormalIsEqual(self.ip);
    EqualIffCanonical(ToV4(n), ToV4(n));
    Interop.EqualCommutes(Normal(self.ip), self.ip);
    Interop.AckInterop(xid, flags, self.ip, ToV4(n), mac, conf, mac, last.m, last.opt, xid, sameServer);
  }

  /** What a handler sends at its end. */
  function Sent(self: Self, conf: Config, x: Handler): Option<seq<u8>>
    requires conf.lopts.leaseDuration >= 0
  {
    var m := x.query.message;
    match x.pc
    case Offered(ip) => Some(Replies.AssembleOffer(m.xid, m.flags, self.ip, ip, m.clientMAC, OptionsFor(conf, m.clientMAC)))
    case Acked(ip) => Some(Replies.AssembleACK(m.xid, m.flags, self.ip, ip, m.clientMAC, OptionsFor(conf, m.clientMAC)))
    case Nacked => Some(Replies.AssembleNACK(m.xid, self.ip, m.clientMAC))
    case _ => None
  }

  /** What a handler sends is an offer, an acknowledgement or a refusal to its client, and nothing at all to any other. */
  lemma SentReachesItsClient(self: Self, conf: Config, x: Handler, q: Question, hwaddr: seq<u8>)
    requires |x.query.message.clientMAC| <= DhcpMsg.MAC_FIELD
    requires conf.lopts.leaseDuration >= 0 && EncodableFor(conf, x.query.message.clientMAC)
    ensures Sent(self, conf, x).Some? ==>
            var r := Examined(q, hwaddr, Packets.Read(Sent(self, conf, x).value));
            && (hwaddr != x.query.message.clientMAC ==> r.NoReply?)
            && (r.Nack? ==> x.pc.Nacked?)
            && (r.Accepted? ==> if q.Offers? then x.pc.Offered? && q.xid == x.query.message.xid && r.m.yourIP == Normal(x.pc.ip)
                                else x.pc.Acked? && q.xid == x.query.message.xid && r.m.yourIP == Normal(x.pc.ip))
  {
    var m := x.query.message;
    match x.pc {
      case Offered(ip) => SentIsReply(MSG_OFFER, self.ip, ip, conf, m, q, hwaddr);
      case Acked(ip) => SentIsReply(MSG_ACK, self.ip, ip, conf, m, q, hwaddr);
      case Nacked => Interop.NackInterop(m.xid, self.ip, m.clientMAC, hwaddr, q);
      case _ =>
    }
  }

  lemma SentIsReply(msgType: u8, src: IP, ip: IP, conf: Config, m: DhcpMsg.Message, q: Question, hwaddr: seq<u8>)
    requires msgType == MSG_OFFER || msgType == MSG_ACK
    requires |m.clientMAC| <= DhcpMsg.MAC_FIELD && conf.lopts.leaseDuration >= 0 && EncodableFor(conf, m.clientMAC)
    ensures var reply := Replies.ReplyMessage(msgType, m.xid, m.flags, ip, src, m.clientMAC, OptionsFor(conf, m.clientMAC));
            var b := Replies.AssembleUdp(src, Replies.DstFromFlag(m.flags, ip), DhcpMsg.MessageBytes(reply));
            var r := Examined(q, hwaddr, Packets.Read(b));
            && (hwaddr != m.clientMAC ==> r.NoReply?)
            && !r.Nack?
            && (r.Accepted? ==> (q.Offers? <==> msgType == MSG_OFFER) && q.xid == m.xid && r.m.yourIP == Normal(ip))
  {
    var reply := Replies.ReplyMessage(msgType, m.xid, m.flags, ip, src, m.clientMAC, OptionsFor(conf, m.clientMAC));
    Interop.ReplyArrives(msgType, m.xid, m.flags, src, ip, m.clientMAC, conf, hwaddr);
    Interop.ReplyDecoded(msgType, src, conf, m.clientMAC);
    JudgedByType(q, DhcpRoundTrip.NormalMessage(reply), Decoded(reply.options));
  }

  lemma JudgedByType(q: Question, m: DhcpMsg.Message, opt: DecodedOptions)
    requires opt.messageType == MSG_OFFER || opt.messageType == MSG_ACK
    ensures var r := Judged(q, m, opt);
            && !r.Nack?
            && (r.Accepted? ==> r.m == m && (q.Offers? <==> opt.messageType == MSG_OFFER) && q.xid == m.xid)
  {
  }

  /** What a client makes of what a handler sends. */
  function Answered(self: Self, conf: Config, x: Handler, q: Question, hwaddr: seq<u8>): Reply
    requires conf.lopts.leaseDuration >= 0
  {
    match Sent(self, conf, x)
    case Some(b) => Examined(q, hwaddr, Packets.Read(b))
    case None => NoReply
  }

  /** The request of a client for an offer, and its renewal, as a server hears them. */
  function RequestQuery(t: Template, requested: IP, server: IP): Query {
    Query(Normal(IPV4_ZERO), IPV4_BCAST, DhcpRoundTrip.NormalMessage(RequestMessage(t, MSG_REQUEST, IPV4_ZERO, requested, server)))
  }

  function RenewalQuery(t: Template, address: IP, server: IP): Query {
    Query(Normal(address), Normal(server), DhcpRoundTrip.NormalMessage(RequestMessage(t, MSG_REQUEST, address, NIL_IP, NIL_IP)))
  }

  /** A packet of this client that makes the server look for an address. */
  predicate AsksFor(self: Self, q: Query, t: Template, ip: IP) {
    && q.message.xid == t.xid && q.message.flags == 0 && q.message.clientMAC == t.hwaddr
    && Decoded(q.message.options).clientIdentifier == Cid(t)
    && PcFor(JobFor(self, q, Decoded(q.message.options))) == Looking(ip)
  }

  /** What the client hears from a handler that has ended: the acknowledgement of its address, or a refusal. */
  predicate Concluded(self: Self, conf: Config, y: Handler, known: bool, t: Template, last: Reply, ip: IP, sameServer: bool)
    requires conf.lopts.leaseDuration >= 0 && last.Accepted?
  {
    var answer := Answered(self, conf, y, Acks(last.m, last.opt, t.xid, sameServer), t.hwaddr);
    if known then y.pc == Acked(ip) && AckFor(self, conf, t.hwaddr, answer, ip) else y.pc.Nacked? && answer.Nack?
  }

  lemma AckIsAnswer(self: Self, conf: Config, y: Handler, t: Template, last: Reply, ip: IP, sameServer: bool)
    requires conf.lopts.leaseDuration >= 0 && last.Accepted? && y.pc == Acked(ip)
    requires y.query.message.xid == t.xid && y.query.message.flags == 0 && y.query.message.clientMAC == t.hwaddr
    ensures Answered(self, conf, y, Acks(last.m, last.opt, t.xid, sameServer), t.hwaddr)
            == AckHeard(self, conf, last, t.xid, 0, ip, t.hwaddr, sameServer)
  {
  }

  lemma NackIsAnswer(self: Self, conf: Config, y: Handler, q: Question, hwaddr: seq<u8>, xid: u32)
    requires |hwaddr| <= DhcpMsg.MAC_FIELD && conf.lopts.leaseDuration >= 0 && q.Acks?
    requires y.pc.Nacked? && y.query.message.xid == xid && y.query.message.clientMAC == hwaddr
    ensures Answered(self, conf, y, q, hwaddr) == Nack
  {
    var b := Replies.AssembleNACK(xid, self.ip, hwaddr);
    assert Sent(self, conf, y) == Some(b);
    RefusalIsNack(q, hwaddr, b, xid, self.ip);
  }

  lemma RefusalIsNack(q: Question, hwaddr: seq<u8>, b: seq<u8>, xid: u32, src: IP)
    requires |hwaddr| <= DhcpMsg.MAC_FIELD && q.Acks? && b == Replies.AssembleNACK(xid, src, hwaddr)
    ensures Examined(q, hwaddr, Packets.Read(b)) == Nack
  {
    Interop.NackInterop(xid, src, hwaddr, hwaddr, q);
  }

  lemma AckConcludes(self: Self, conf: Config, y: Handler, known: bool, t: Template, last: Reply, n: u32, sameServer: bool)
    requires |t.hwaddr| <= DhcpMsg.MAC_FIELD && conf.lopts.leaseDuration >= 0 && EncodableFor(conf, t.hwaddr)
    requires Interop.Acceptable(conf, t.hwaddr, self.ip, ToV4(n)) && Stored(self, last, ToV4(n), sameServer)
    requires y.query.message.xid == t.xid && y.query.message.flags == 0 && y.query.message.clientMAC == t.hwaddr
    requires y.pc == if known then Acked(ToV4(n)) else Nacked
    ensures Concluded(self, conf, y, known, t, last, ToV4(n), sameServer)
  {
    if known {
      AckIsAccepted(self, conf, last, t.xid, 0, n, t.hwaddr, sameServer);
      AckIsAnswer(self, conf, y, t, last, ToV4(n), sameServer);
    } else {
      NackIsAnswer(self, conf, y, Acks(last.m, last.opt, t.xid, sameServer), t.hwaddr, t.xid);
    }
  }

  /** The handler `h` has its packet, and has not ended without the step `run[j]` that has identified it. */
  ghost predicate Followed(c: Setup, s: Handlers.State, run: seq<Action>, h: nat, j: nat, q: Query)
    requires SetupOk(c) && Possible(c, s, run)
  {
    && h < |After(c, s, run).handlers| && After(c, s, run).handlers[h].query == q
    && (Ended(After(c, s, run).handlers[h].pc) ==> j < |run| && Possible(c, s, run[..j]) && Identifies(run[j], h))
  }

  /** The half of the server, from the packet that is read. */
  lemma RequestEnds(c: Setup, s: Handlers.State, q: Query, run: seq<Action>, p: Table, i: nat) returns (j: nat)
    requires SetupOk(c) && Safe(c, s, p) && Possible(c, Next(c, s, Receive(q)), run) && i < |s.db.log|
    requires PcFor(JobFor(c.self, q, Decoded(q.message.options))) == Looking(ToV4(s.db.log[i].ip))
    requires forall k | 0 <= k < |run| :: Calm(run[k], |s.handlers|)
    requires var after := After(c, Next(c, s, Receive(q)), run).db;
             s.db.log <= after.log && KeptUntil(after.log, i, after.clock)
    ensures var s1 := Next(c, s, Receive(q));
            && Followed(c, s1, run, |s.handlers|, j, q)
            && var pc := After(c, s1, run).handlers[|s.handlers|].pc;
               Ended(pc) ==> pc == if KnownAt(c, s1, run, j, q, s.db.log[i].duid) then Acked(ToV4(s.db.log[i].ip)) else Nacked
  {
    StepIsSafe(c, s, Receive(q), p);
    j := FreshRequestIsAcked(c, Next(c, s, Receive(q)), run, |s.handlers|, i, p, q);
  }

  /** From the packet that is read to the answer that is heard. */
  lemma RequestConcludes(c: Setup, conf: Config, s: Handlers.State, q: Query, run: seq<Action>, p: Table, i: nat, t: Template,
                         ip: IP, last: Reply, sameServer: bool) returns (j: nat)
    requires SetupOk(c) && Safe(c, s, p) && Possible(c, Next(c, s, Receive(q)), run)
    requires |t.hwaddr| <= DhcpMsg.MAC_FIELD && conf.lopts.leaseDuration >= 0 && EncodableFor(conf, t.hwaddr)
    requires Interop.Acceptable(conf, t.hwaddr, c.self.ip, ip) && Stored(c.self, last, ip, sameServer) && AsksFor(c.self, q, t, ip)
    requires i < |s.db.log| && ip == ToV4(s.db.log[i].ip)
    requires forall k | 0 <= k < |run| :: Calm(run[k], |s.handlers|)
    requires var after := After(c, Next(c, s, Receive(q)), run).db;
             s.db.log <= after.log && KeptUntil(after.log, i, after.clock)
    ensures var s1 := Next(c, s, Receive(q));
            && Followed(c, s1, run, |s.handlers|, j, q)
            && var y := After(c, s1, run).handlers[|s.handlers|];
               Ended(y.pc) ==> Concluded(c.self, conf, y, KnownAt(c, s1, run, j, q, s.db.log[i].duid), t, last, ip, sameServer)
  {
    j := RequestEnds(c, s, q, run, p, i);
    var s1 := Next(c, s, Receive(q));
    var y := After(c, s1, run).handlers[|s.handlers|];
    if Ended(y.pc) {
      AckConcludes(c.self, conf, y, KnownAt(c, s1, run, j, q, s.db.log[i].duid), t, last, s.db.log[i].ip, sameServer);
    }
  }

  lemma RequestAsks(self: Self, t: Template, id: u16, n: u32, offer: Reply)
    requires |t.hwaddr| <= DhcpMsg.MAC_FIELD && t.hwaddr != self.mac
    requires To4(self.ip) != NIL_IP && Assignable(self.ip) && !Equal(self.ip, ToV4(n)) && self.net.from <= n <= self.net.to
    requires Stored(self, offer, ToV4(n), true)
    ensures var q := RequestQuery(t, ToV4(n), Normal(self.ip));
            Heard(RequestFor(t, id, offer)) == Some(q) && AsksFor(self, q, t, ToV4(n))
  {
    ClientInterop.BroadcastOnTheWire();
    ClientInterop.RequestHeard(t, id, MSG_REQUEST, IPV4_ZERO, IPV4_BCAST, ToV4(n), Normal(self.ip));
    ClientInterop.RequestDecoded(t, MSG_REQUEST, ToV4(n), Normal(self.ip));
    RequestIsForOffer(self, t, id, n, offer);
  }

  /** This client is known under the internal DUID of its address, or under its identifier while that one has no lease. */
  lemma KnownUnder(c: Setup, s: Handlers.State, run: seq<Action>, j: nat, q: Query, t: Template, ip: IP, d: Duid)
    requires SetupOk(c) && j < |run| && Possible(c, s, run[..j]) && run[j].Identify? && AsksFor(c.self, q, t, ip)
    ensures KnownAt(c, s, run, j, q, d) <==>
            d == DuidFromHwAddr(t.hwaddr)
            || (d == Cid(t) && !HasLease(At(After(c, s, run[..j]).db.table, run[j].now), DuidFromHwAddr(t.hwaddr)))
  {
  }

  /**
   An offer becomes an acknowledgement. The client accepts what the handler `k` sends; its request, as the
   server reads it, gets a handler of its own; and if that one is not overwritten, and is done within fifteen
   seconds of the grant, then it sends an acknowledgement which the client accepts, whatever else the server does
   in the meantime. That is, if it still knows the client under the DUID of the offer, in particular if this is the
   internal one of its hardware address; otherwise it sends a refusal, which the client takes for one.
   */
  lemma OfferBecomesAck(c: Setup, conf: Config, s: Handlers.State, k: nat, run: seq<Action>, p: Table, i: nat, t: Template, id: u16,
                        ip: IP, q: Query) returns (offer: Reply, j: nat)
    requires SetupOk(c) && Safe(c, s, p) && Possible(c, Next(c, s, Receive(q)), run)
    requires |t.hwaddr| <= DhcpMsg.MAC_FIELD && t.hwaddr != c.self.mac
    requires conf.lopts.leaseDuration >= 0 && EncodableFor(conf, t.hwaddr)
    requires Interop.Acceptable(conf, t.hwaddr, c.self.ip, ip) && !Equal(c.self.ip, ip)
    requires k < |s.handlers| && s.handlers[k].pc == Offered(ip) && s.handlers[k].query.message.clientMAC == t.hwaddr
    requires i < |s.db.log| && ip == ToV4(s.db.log[i].ip) && s.handlers[k].duid == s.db.log[i].duid
    requires q == RequestQuery(t, ip, Normal(c.self.ip))
    requires forall j | 0 <= j < |run| :: Calm(run[j], |s.handlers|)
    requires After(c, Next(c, s, Receive(q)), run).db.clock <= s.db.log[i].at + OFFER_TIME
    ensures offer == Answered(c.self, conf, s.handlers[k], Offers(s.handlers[k].query.message.xid), t.hwaddr)
    ensures Stored(c.self, offer, ip, true) && Heard(RequestFor(t, id, offer)) == Some(q)
    ensures var s1 := Next(c, s, Receive(q));
            && Followed(c, s1, run, |s.handlers|, j, q)
            && var y := After(c, s1, run).handlers[|s.handlers|];
               Ended(y.pc) ==> Concluded(c.self, conf, y, KnownAt(c, s1, run, j, q, s.handlers[k].duid), t, offer, ip, true)
  {
    offer := OfferIsStored(c.self, conf, s.handlers[k], t.hwaddr, s.db.log[i].ip);
    RequestAsks(c.self, t, id, s.db.log[i].ip, offer);
    ReservedAfterReceive(c, s, q, run, i, p);
    j := RequestConcludes(c, conf, s, q, run, p, i, t, ip, offer, true);
  }

  lemma ReservedAfterReceive(c: Setup, s: Handlers.State, q: Query, run: seq<Action>, i: nat, p: Table)
    requires SetupOk(c) && Safe(c, s, p) && Possible(c, Next(c, s, Receive(q)), run) && i < |s.db.log|
    requires After(c, Next(c, s, Receive(q)), run).db.clock <= s.db.log[i].at + OFFER_TIME
    ensures var after := After(c, Next(c, s, Receive(q)), run).db;
            s.db.log <= after.log && KeptUntil(after.log, i, after.clock)
  {
    StepIsSafe(c, s, Receive(q), p);
    ReservedInRun(c, Next(c, s, Receive(q)), run, i, p);
  }

  lemma OfferIsStored(self: Self, conf: Config, x: Handler, mac: seq<u8>, n: u32) returns (offer: Reply)
    requires |mac| <= DhcpMsg.MAC_FIELD && conf.lopts.leaseDuration >= 0 && EncodableFor(conf, mac)
    requires Interop.Acceptable(conf, mac, self.ip, ToV4(n)) && x.pc == Offered(ToV4(n)) && x.query.message.clientMAC == mac
    ensures offer == Answered(self, conf, x, Offers(x.query.message.xid), mac) && Stored(self, offer, ToV4(n), true)
  {
    var m := x.query.message;
    offer := OfferHeard(self, conf, m.xid, m.flags, ToV4(n), mac);
    OfferIsAccepted(self, conf, m.xid, m.flags, ToV4(n), mac);
    ManagedOnTheWire(self, n);
  }

  /** The renewal of a client with a stored reply. */
  function RenewalFor(t: Template, id: u16, last: Reply): seq<u8>
    requires last.Accepted?
  {
    Packets.Read(RequestRenewing(t, id, last.m.yourIP, last.opt.serverIdentifier))
  }

  /** It reaches the server of the lease as one for the client's address. */
  lemma RenewalIsForLease(self: Self, t: Template, id: u16, n: u32, last: Reply)
    requires |t.hwaddr| <= DhcpMsg.MAC_FIELD && t.hwaddr != self.mac
    requires To4(self.ip) != NIL_IP && self.net.from <= n <= self.net.to
    requires last.Accepted? && last.m.yourIP == ToV4(n) && last.opt.serverIdentifier == Normal(self.ip)
    ensures ClientInterop.JobForBytes(self, RenewalFor(t, id, last)) == Job.Confirm(Renewing, ToV4(n))
  {
    ManagedOnTheWire(self, n);
    NormalNormal(self.ip);
    NormalIsEqual(self.ip);
    Network.ToUipIsExact(self.net, ToV4(n), n);
    EqualIffCanonical(ToV4(n), ToV4(n));
    ClientInterop.RenewingInterop(self, t, id, ToV4(n), Normal(self.ip));
  }

  lemma RenewalAsks(self: Self, t: Template, id: u16, n: u32, last: Reply)
    requires |t.hwaddr| <= DhcpMsg.MAC_FIELD && t.hwaddr != self.mac
    requires To4(self.ip) != NIL_IP && self.net.from <= n <= self.net.to && Stored(self, last, ToV4(n), true)
    ensures var q := RenewalQuery(t, ToV4(n), Normal(self.ip));
            Heard(RenewalFor(t, id, last)) == Some(q) && AsksFor(self, q, t, ToV4(n))
  {
    ClientInterop.RequestHeard(t, id, MSG_REQUEST, ToV4(n), Normal(self.ip), NIL_IP, NIL_IP);
    ClientInterop.RequestDecoded(t, MSG_REQUEST, NIL_IP, NIL_IP);
    RenewalIsForLease(self, t, id, n, last);
  }

  /**
   A renewal becomes an acknowledgement. While no grant of its pair is over, the renewal of a client, as the
   server of its lease reads it, gets a handler; and if that one is not overwritten, then it sends an
   acknowledgement which the client accepts if it still knows the client under the DUID of the lease, and a
   refusal otherwise.
   */
  lemma RenewalBecomesAck(c: Setup, conf: Config, s: Handlers.State, run: seq<Action>, p: Table, i: nat, t: Template, id: u16,
                          ip: IP, last: Reply, q: Query) returns (j: nat)
    requires SetupOk(c) && Safe(c, s, p) && Possible(c, Next(c, s, Receive(q)), run)
    requires |t.hwaddr| <= DhcpMsg.MAC_FIELD && t.hwaddr != c.self.mac
    requires conf.lopts.leaseDuration >= 0 && EncodableFor(conf, t.hwaddr)
    requires Interop.Acceptable(conf, t.hwaddr, c.self.ip, ip) && Stored(c.self, last, ip, true)
    requires i < |s.db.log| && ip == ToV4(s.db.log[i].ip) && q == RenewalQuery(t, ip, Normal(c.self.ip))
    requires forall j | 0 <= j < |run| :: Calm(run[j], |s.handlers|)
    requires var after := After(c, Next(c, s, Receive(q)), run).db;
             s.db.log <= after.log && KeptUntil(after.log, i, after.clock)
    ensures Heard(RenewalFor(t, id, last)) == Some(q)
    ensures var s1 := Next(c, s, Receive(q));
            && Followed(c, s1, run, |s.handlers|, j, q)
            && var y := After(c, s1, run).handlers[|s.handlers|];
               Ended(y.pc) ==> Concluded(c.self, conf, y, KnownAt(c, s1, run, j, q, s.db.log[i].duid), t, last, ip, true)
  {
    RenewalAsks(c.self, t, id, s.db.log[i].ip, last);
    j := RequestConcludes(c, conf, s, q, run, p, i, t, ip, last, true);
  }

  /** The rebinding of a client with a stored reply, to all servers. */
  function RebindingFor(t: Template, id: u16, last: Reply): seq<u8>
    requires last.Accepted?
  {
    Packets.Read(RequestRebinding(t, id, last.m.yourIP))
  }

  lemma RebindingAsks(self: Self, t: Template, id: u16, n: u32, last: Reply)
    requires |t.hwaddr| <= DhcpMsg.MAC_FIELD && t.hwaddr != self.mac
    requires self.ip != NIL_IP && self.net.from <= n <= self.net.to && Stored(self, last, ToV4(n), false)
    ensures var q := RenewalQuery(t, ToV4(n), IPV4_BCAST);
            Heard(RebindingFor(t, id, last)) == Some(q) && AsksFor(self, q, t, ToV4(n))
  {
    ManagedOnTheWire(self, n);
    Network.ToUipIsExact(self.net, ToV4(n), n);
    EqualIffCanonical(ToV4(n), ToV4(n));
    ClientInterop.RequestHeard(t, id, MSG_REQUEST, ToV4(n), IPV4_BCAST, NIL_IP, NIL_IP);
    ClientInterop.RequestDecoded(t, MSG_REQUEST, NIL_IP, NIL_IP);
    ClientInterop.RebindingInterop(self, t, id, ToV4(n));
  }

  /**
   A rebinding becomes an acknowledgement, at any server that has granted the address and whoever it was that
   sent the last reply: the client accepts it from everyone.
   */
  lemma RebindingBecomesAck(c: Setup, conf: Config, s: Handlers.State, run: seq<Action>, p: Table, i: nat, t: Template, id: u16,
                            ip: IP, last: Reply, q: Query) returns (j: nat)
    requires SetupOk(c) && Safe(c, s, p) && Possible(c, Next(c, s, Receive(q)), run)
    requires |t.hwaddr| <= DhcpMsg.MAC_FIELD && t.hwaddr != c.self.mac
    requires conf.lopts.leaseDuration >= 0 && EncodableFor(conf, t.hwaddr)
    requires Interop.Acceptable(conf, t.hwaddr, c.self.ip, ip) && Stored(c.self, last, ip, false)
    requires i < |s.db.log| && ip == ToV4(s.db.log[i].ip) && q == RenewalQuery(t, ip, IPV4_BCAST)
    requires forall j | 0 <= j < |run| :: Calm(run[j], |s.handlers|)
    requires var after := After(c, Next(c, s, Receive(q)), run).db;
             s.db.log <= after.log && KeptUntil(after.log, i, after.clock)
    ensures Heard(RebindingFor(t, id, last)) == Some(q)
    ensures var s1 := Next(c, s, Receive(q));
            && Followed(c, s1, run, |s.handlers|, j, q)
            && var y := After(c, s1, run).handlers[|s.handlers|];
               Ended(y.pc) ==> Concluded(c.self, conf, y, KnownAt(c, s1, run, j, q, s.db.log[i].duid), t, last, ip, false)
  {
    RebindingAsks(c.self, t, id, s.db.log[i].ip, last);
    j := RequestConcludes(c, conf, s, q, run, p, i, t, ip, last, false);
  }

  lemma ConfirmedUntil(c: Setup, s: Handlers.State, h: nat, now: Time, n: u32)
    requires SetupOk(c) && Enabled(c, s, Action.Confirm(h, now)) && s.handlers[h].pc.lease == ToV4(n)
    requires Next(c, s, Action.Confirm(h, now)).handlers[h].pc.Acked?
    ensures var t := Next(c, s, Action.Confirm(h, now)).db.table;
            n in t && t[n].until == now + c.leaseDuration
  {
    ToV4IsRightInverse(n);
  }

  /** The lease as the client reads it. */
  function LeaseSent(conf: Config): Time
    requires conf.lopts.leaseDuration >= 0
  {
    Float64.Seconds(conf.lopts.leaseDuration) % U32_RANGE * SECOND
  }

  lemma BoundUntil(self: Self, conf: Config, hwaddr: seq<u8>, client: ClientStates.Client, r: ClientStates.Round)
    requires conf.lopts.leaseDuration >= 0 && ClientStates.Sound(client) && client.phase.Bound?
    requires client.lastOpts == Decoded(Interop.ReplyOptions(MSG_ACK, self.ip, conf, hwaddr))
    ensures ClientStates.Step(hwaddr, client, r).deadlines.tx == r.now + LeaseSent(conf)
  {
    Interop.ReplyDecoded(MSG_ACK, self.ip, conf, hwaddr);
    ClientStates.BoundIsOrdered(hwaddr, client, r);
  }

  /**
   A client can go on using an address that the server has freed. Its lease counts from when it enters Bound,
   that of the server from the confirmation before: the client's ends later exactly if more time has passed in
   between than the lease is longer than what has been sent of it, in whole seconds. For leases of whole seconds
   this is any time at all.
   */
  lemma ClientOutlivesLease(c: Setup, conf: Config, s: Handlers.State, h: nat, now: Time, n: u32,
                            hwaddr: seq<u8>, client: ClientStates.Client, r: ClientStates.Round)
    requires SetupOk(c) && Enabled(c, s, Action.Confirm(h, now)) && s.handlers[h].pc.lease == ToV4(n)
    requires Next(c, s, Action.Confirm(h, now)).handlers[h].pc.Acked?
    requires conf.lopts.leaseDuration == c.leaseDuration && ClientStates.Sound(client) && client.phase.Bound?
    requires client.lastOpts == Decoded(Interop.ReplyOptions(MSG_ACK, c.self.ip, conf, hwaddr))
    ensures var t, tx := Next(c, s, Action.Confirm(h, now)).db.table, ClientStates.Step(hwaddr, client, r).deadlines.tx;
            && n in t
            && (tx > t[n].until <==> r.now - now > c.leaseDuration - LeaseSent(conf))
            && (c.leaseDuration % SECOND == 0 && c.leaseDuration / SECOND < U32_RANGE ==> (tx > t[n].until <==> r.now > now))
  {
    ConfirmedUntil(c, s, h, now, n);
    BoundUntil(c.self, conf, hwaddr, client, r);
    LeaseDurationRoundTrip(c.leaseDuration);
    LeaseOnTheWire(c.leaseDuration);
  }

  /** The lease sent can even be the longer one. */
  lemma LeaseIsRoundedUp(conf: Config)
    requires conf.lopts.leaseDuration == 0x100_0001 * 1_000_000_000 - 1
    ensures LeaseSent(conf) > conf.lopts.leaseDuration
  {
    Float64.SecondsRoundUp(conf.lopts.leaseDuration);
  }

  /** What an interface is configured with is what the server has been configured with for this client. */
  lemma NetconfigIsConfigured(self: Self, conf: Config, hwaddr: seq<u8>, client: ClientStates.Client, ack: Reply, n: u32)
    requires conf.lopts.leaseDuration >= 0 && AckFor(self, conf, hwaddr, ack, ToV4(n))
    requires ClientStates.Sound(client) && client.phase.Ifconfig? && client.lastMsg == ack.m && client.lastOpts == ack.opt
    ensures ClientStates.Netconfig(client) ==
            ClientStates.Config(
              ToV4(n),
              Normal(RouterFor(conf, hwaddr)),
              0,
              if ClientStates.ContiguousMask(conf.lopts.netmask) then conf.lopts.netmask else ClientStates.DefaultMask(ToV4(n)),
              Interop.AllNormal(DnsFor(conf, hwaddr)),
              DomainFor(conf, hwaddr),
              LeaseSent(conf))
  {
    Interop.ReplyDecoded(MSG_ACK, self.ip, conf, hwaddr);
  }
}
