/** A run of a server in which nothing is overwritten, and in which a client loses what it has been offered all the same. */
module Pretenders {
  import opened Bytes
  import opened Grants
  import opened Handlers
  import opened Ipdb
  import opened Keys
  import opened LeaseTable
  import opened Network
  import opened Options
  import opened Requests
  import opened Runs
  import opened Templates
  import ClientInterop
  import DhcpMsg
  import DhcpRoundTrip
  import Handshake
  import Interop
  import Layer
  import opened Packets
  import ServerConfig

  /** A packet of somebody who sends the DUID `e` as an identifier, and suggests the address `n`. */
  predicate Pretends(c: Setup, t: Table, q: Query, e: Duid, n: u32) {
    && PcFor(JobFor(c.self, q, Decoded(q.message.options))) == Finding(ToV4(n))
    && Decoded(q.message.options).clientIdentifier == e && |e| >= 4
    && !HasLease(t, ServerConfig.DuidFromHwAddr(q.message.clientMAC)) && !HasLease(t, e)
  }

  lemma FindSuggested(c: Setup, s: State, h: nat, n: u32)
    requires SetupOk(c) && AllAlive(s.db.table, s.db.clock) && h < |s.handlers| && s.handlers[h].pc == Finding(ToV4(n))
    requires !SearchDisabled(RangesOf(c)) && !HasLease(s.db.table, s.handlers[h].duid)
    requires c.self.net.from <= n <= c.self.net.to && ValidHost(n) && n !in s.db.table
    ensures var a := Find(h, Quiet(s.db.clock), Identity(1 + c.dyn.to - c.dyn.from));
            Enabled(c, s, a) && Next(c, s, a) == With(s, h, s.handlers[h].(pc := Offering(ToV4(n))))
  {
    AtSame(s.db.table, s.db.clock);
    ToUipIsExact(c.self.net, ToV4(n), n);
    EqualIffCanonical(ToV4(n), ToV4(n));
    SuggestionWins(s.db.table, RangesOf(c), Quiet(s.db.clock), Identity(1 + c.dyn.to - c.dyn.from), ToV4(n), n, s.handlers[h].duid);
  }

  /** The pairs that are there stay, and the new one is added. */
  lemma AcceptedTable(db: Database, n: u32, d: Duid, ttl: Time)
    requires AllAlive(db.table, db.clock) && OneAddressPerDuid(db.table) && ttl >= 0
    requires n !in db.table && !HasLease(db.table, d)
    ensures var after := Accepted(db, n, d, ttl).table;
            && AllAlive(after, db.clock) && OneAddressPerDuid(after) && Holds(after, n, d) && HasLease(after, d)
            && forall ip, e | Holds(db.table, ip, e) :: Holds(after, ip, e)
  {
    UpdateKeepsInvariants(db.table, db.clock, n, d, ttl);
    assert Holds(Accepted(db, n, d, ttl).table, n, d);
  }

  lemma OffersSuggested(c: Setup, s: State, run: seq<Action>, u: State, h: nat, n: u32) returns (r: seq<Action>)
    requires SetupOk(c) && Leads(c, s, run, u) && AllAlive(u.db.table, u.db.clock)
    requires h < |u.handlers| && u.handlers[h].pc == Finding(ToV4(n)) && !SearchDisabled(RangesOf(c))
    requires !HasLease(u.db.table, u.handlers[h].duid)
    requires c.self.net.from <= n <= c.self.net.to && ValidHost(n) && n !in u.db.table
    ensures Leads(c, s, r, State(Accepted(u.db, n, u.handlers[h].duid, OFFER_TIME),
                                 u.handlers[h := u.handlers[h].(pc := Offered(ToV4(n)))]))
    ensures Untouched(run) ==> Untouched(r)
  {
    FindSuggested(c, u, h, n);
    r := Go(c, s, run, u, Find(h, Quiet(u.db.clock), Identity(1 + c.dyn.to - c.dyn.from)));
    var v := With(u, h, u.handlers[h].(pc := Offering(ToV4(n))));
    r := Reserves(c, s, r, v, h, n);
    assert v.handlers[h := v.handlers[h].(pc := Offered(ToV4(n)))] == u.handlers[h := u.handlers[h].(pc := Offered(ToV4(n)))];
  }

  /** The discovery of a pretender: it is offered the address that it suggests. */
  lemma PretenderIsOffered(c: Setup, s: State, run: seq<Action>, u: State, q: Query, e: Duid, n: u32) returns (r: seq<Action>)
    requires SetupOk(c) && Leads(c, s, run, u) && AllAlive(u.db.table, u.db.clock) && OneAddressPerDuid(u.db.table)
    requires Pretends(c, u.db.table, q, e, n) && !SearchDisabled(RangesOf(c))
    requires c.self.net.from <= n <= c.self.net.to && ValidHost(n) && n !in u.db.table
    ensures Leads(c, s, r, State(Accepted(u.db, n, e, OFFER_TIME), u.handlers + [Received(q, e, Offered(ToV4(n)))]))
    ensures Untouched(run) ==> Untouched(r)
  {
    var h := |u.handlers|;
    r := Arrives(c, s, run, u, q, e, Finding(ToV4(n)));
    var v := State(u.db, u.handlers + [Received(q, e, Finding(ToV4(n)))]);
    r := OffersSuggested(c, s, r, v, h, n);
    assert v.handlers[h := Received(q, e, Offered(ToV4(n)))] == u.handlers + [Received(q, e, Offered(ToV4(n)))];
  }

  /** A packet of a client whose internal DUID has a lease is read and identified. */
  lemma ArrivesKnown(c: Setup, s: State, run: seq<Action>, u: State, q: Query, pc: Pc) returns (r: seq<Action>)
    requires SetupOk(c) && Leads(c, s, run, u) && AllAlive(u.db.table, u.db.clock)
    requires PcFor(JobFor(c.self, q, Decoded(q.message.options))) == pc
    requires HasLease(u.db.table, ServerConfig.DuidFromHwAddr(q.message.clientMAC))
    ensures Leads(c, s, r, State(u.db, u.handlers + [Internal(q, pc)]))
    ensures Untouched(run) ==> Untouched(r)
  {
    var u1 := Next(c, u, Receive(q));
    r := Go(c, s, run, u, Receive(q));
    IdentifyNow(c, u1, |u.handlers|);
    r := Go(c, s, r, u1, Identify(|u.handlers|, u.db.clock));
  }

  function Internal(q: Query, pc: Pc): Handler {
    Handler(q, Decoded(q.message.options), ServerConfig.DuidFromHwAddr(q.message.clientMAC), false, pc)
  }

  /**
   From the start of a server, an untouched request for what its client has just been offered is refused: someone
   else has meanwhile got a lease under the internal DUID of this client, by sending it as an identifier.
   */
  lemma OfferedAndDisowned(c: Setup, s: State, q: Query, q2: Query, q3: Query, d: Duid, n: u32) returns (r: seq<Action>, u: State)
    requires Ready(c, s) && q3.message.clientMAC == q.message.clientMAC
    requires Newcomer(c, s.db.table, q, d, Finding(NIL_IP)) && Newcomer(c, s.db.table, q3, d, Looking(ToV4(c.dyn.from)))
    requires Pretends(c, s.db.table, q2, ServerConfig.DuidFromHwAddr(q.message.clientMAC), n)
    requires c.self.net.from <= n <= c.self.net.to && ValidHost(n) && n !in s.db.table && n != c.dyn.from
    ensures Leads(c, s, r, u) && Untouched(r) && u.db.clock == s.db.clock
    ensures |u.handlers| == 3 && u.handlers[0] == Received(q, d, Offered(ToV4(c.dyn.from))) && u.handlers[2] == Internal(q3, Nacked)
  {
    var ip, e, db := ToV4(c.dyn.from), ServerConfig.DuidFromHwAddr(q.message.clientMAC), GrantedTo(c, s.db, d, OFFER_TIME);
    FirstIsVacant(c, s, d);
    GrantedTable(c, s.db, d, OFFER_TIME);
    assert e[0] == 0 && ServerConfig.DuidFromHwAddr(q2.message.clientMAC)[0] == 0;
    r := Discovered(c, s, q, d);
    u := State(db, [Received(q, d, Offered(ip))]);
    r := PretenderIsOffered(c, s, r, u, q2, e, n);
    AcceptedTable(db, n, e, OFFER_TIME);
    u := State(Accepted(db, n, e, OFFER_TIME), u.handlers + [Received(q2, e, Offered(ToV4(n)))]);
    r, u := Disowned(c, s, r, u, q3, Grant(db.clock, c.dyn.from, d, db.clock));
  }

  lemma Disowned(c: Setup, s: State, run: seq<Action>, u: State, q: Query, g: Grant) returns (r: seq<Action>, v: State)
    requires SetupOk(c) && Leads(c, s, run, u) && AllAlive(u.db.table, u.db.clock) && OneAddressPerDuid(u.db.table)
    requires PcFor(JobFor(c.self, q, Decoded(q.message.options))) == Looking(ToV4(g.ip)) && Holds(u.db.table, g.ip, g.duid)
    requires var e := ServerConfig.DuidFromHwAddr(q.message.clientMAC); HasLease(u.db.table, e) && e != g.duid
    ensures Leads(c, s, r, v) && v == State(u.db, u.handlers + [Internal(q, Nacked)])
    ensures Untouched(run) ==> Untouched(r)
  {
    var h := |u.handlers|;
    r := ArrivesKnown(c, s, run, u, q, Looking(ToV4(g.ip)));
    v := State(u.db, u.handlers + [Internal(q, Looking(ToV4(g.ip)))]);
    RefuseNow(c, v, h, g);
    r := Go(c, s, r, v, LookUp(h, v.db.clock));
    v := With(v, h, Internal(q, Nacked));
    assert v.handlers == u.handlers + [Internal(q, Nacked)];
  }

  /** Such a packet: a discovery with the internal DUID of another hardware address as its identifier. */
  function PretendOptions(mac: seq<u8>, n: u32): seq<DhcpMsg.Opt> {
    [OptionType(MSG_DISCOVER), DhcpMsg.Opt(OPT_CLIENT_IDENTIFIER, ServerConfig.DuidFromHwAddr(mac)), OptionRequestedIP(ToV4(n))]
  }

  function PretendMessage(z: Template, mac: seq<u8>, n: u32): DhcpMsg.Message {
    RequestMessage(z, MSG_DISCOVER, IPV4_ZERO, NIL_IP, NIL_IP).(options := PretendOptions(mac, n))
  }

  function PretendQuery(z: Template, mac: seq<u8>, n: u32): Query {
    Query(Normal(IPV4_ZERO), IPV4_BCAST, DhcpRoundTrip.NormalMessage(PretendMessage(z, mac, n)))
  }

  lemma ThreeDecoded(t: DhcpMsg.Opt, i: DhcpMsg.Opt, r: DhcpMsg.Opt)
    requires t.code == OPT_MESSAGE_TYPE && i.code == OPT_CLIENT_IDENTIFIER && r.code == OPT_REQUESTED_IP
    ensures var d := Decoded([t, i, r]);
            && d.messageType == ToUint8(t.data) && d.clientIdentifier == i.data && d.requestedIP == ToAddress(r.data)
            && d.serverIdentifier == NIL_IP
  {
    assert [t][..0] == [] && [t, i][..1] == [t] && [t, i, r][..2] == [t, i];
    assert Decoded([t]) == Apply(NOTHING, t);
    assert Decoded([t, i]) == Apply(Apply(NOTHING, t), i);
  }

  lemma PretendDecoded(mac: seq<u8>, n: u32)
    ensures var d := Decoded(PretendOptions(mac, n));
            && d.messageType == MSG_DISCOVER && d.clientIdentifier == ServerConfig.DuidFromHwAddr(mac)
            && d.requestedIP == ToV4(n) && d.serverIdentifier == NIL_IP
  {
    var os := PretendOptions(mac, n);
    ThreeDecoded(os[0], os[1], os[2]);
    AddressOptionRoundTrip(OPT_REQUESTED_IP, ToV4(n));
    ToV4IsRightInverse(n);
  }

  /** Anyone can send it: it is heard as such. */
  lemma PretendIsHeard(z: Template, id: u16, mac: seq<u8>, n: u32)
    requires |z.hwaddr| <= DhcpMsg.MAC_FIELD && |mac| <= DhcpMsg.MAC_FIELD
    ensures var u := Segment(CLIENT_PORT, SERVER_PORT, DhcpMsg.MessageBytes(PretendMessage(z, mac, n)));
            Heard(Read(Layer.Ipv4Bytes(Packet(id, IPV4_ZERO, IPV4_BCAST, u)))) == Some(PretendQuery(z, mac, n))
  {
    ClientInterop.BroadcastOnTheWire();
    Interop.MessageArrives(id, IPV4_ZERO, IPV4_BCAST, CLIENT_PORT, SERVER_PORT, PretendMessage(z, mac, n));
  }

  /** At the server of `Runs`, for any client but that server itself. */
  lemma SomePretender(z: Template, mac: seq<u8>, n: u32)
    requires z.hwaddr != OWN_MAC && mac != OWN_MAC && n == 0x0a00_0003
    ensures Pretends(SomeSetup(), SomeTable(), PretendQuery(z, mac, n), ServerConfig.DuidFromHwAddr(mac), n)
  {
    OnlyOwnLease(ServerConfig.DuidFromHwAddr(z.hwaddr));
    OnlyOwnLease(ServerConfig.DuidFromHwAddr(mac));
    if ServerConfig.DuidFromHwAddr(z.hwaddr) == ServerConfig.DuidFromHwAddr(OWN_MAC) {
      ServerConfig.DuidFromHwAddrInjective(z.hwaddr, OWN_MAC);
    }
    if ServerConfig.DuidFromHwAddr(mac) == ServerConfig.DuidFromHwAddr(OWN_MAC) {
      ServerConfig.DuidFromHwAddrInjective(mac, OWN_MAC);
    }
    PretendDecoded(mac, n);
    EqualToV4(SomeSetup().self.ip, n);
    OrdinaryAddress(0x0a00_0001);
    EqualIffCanonical(IPV4_BCAST, IPV4_BCAST);
  }

  /** The run from that server, with packets that clients of this repository send and one that anyone can. */
  lemma SomeClientIsDisowned(x: Template, z: Template, now: Time) returns (r: seq<Action>, u: State)
    requires |x.hwaddr| <= DhcpMsg.MAC_FIELD && x.hwaddr != OWN_MAC && z.hwaddr != OWN_MAC
    ensures var c := SomeSetup();
            && Leads(c, SomeStart(now), r, u) && Untouched(r) && u.db.clock == now && |u.handlers| == 3
            && u.handlers[0] == Received(DiscoverQuery(x), Cid(x), Offered(ToV4(c.dyn.from)))
            && u.handlers[2] == Internal(Handshake.RequestQuery(x, ToV4(c.dyn.from), Normal(c.self.ip)), Nacked)
  {
    var c, n := SomeSetup(), 0x0a00_0003;
    SomeServerIsReady(now);
    SomeClientIsNew(x);
    SomePretender(z, x.hwaddr, n);
    r, u := OfferedAndDisowned(c, SomeStart(now), DiscoverQuery(x), PretendQuery(z, x.hwaddr, n),
                               Handshake.RequestQuery(x, ToV4(c.dyn.from), Normal(c.self.ip)), Cid(x), n);
  }
}
