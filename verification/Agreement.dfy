/** A server and a client of this repository that come to an agreement, from the first packet to the last. */
module Agreement {
  import opened Bytes
  import opened Grants
  import opened Handlers
  import opened Handshake
  import opened Keys
  import opened LeaseTable
  import opened Options
  import opened Outlived
  import opened Requests
  import opened Runs
  import opened ServerSafety
  import opened Templates
  import Answers
  import ClientProgress
  import ClientStates
  import DhcpMsg
  import Interop
  import Packets
  import ServerConfig
  import Verify

  /** The discovery has been answered with an offer, to `d`. */
  predicate OfferedTo(c: Setup, s: Handlers.State, q: Query, d: Duid, start: Handlers.State) {
    s == State(GrantedTo(c, start.db, d, OFFER_TIME), [Received(q, d, Offered(ToV4(c.dyn.from)))])
  }

  /** The packet of a request that has been read is identified, checked and confirmed, in no time. */
  lemma Confirms(c: Setup, start: Handlers.State, s: Handlers.State, q: Query, q2: Query, d: Duid)
    returns (run: seq<Action>, u: Handlers.State)
    requires Ready(c, start) && OfferedTo(c, s, q, d, start)
    requires Newcomer(c, start.db.table, q, d, Finding(NIL_IP)) && Newcomer(c, start.db.table, q2, d, Looking(ToV4(c.dyn.from)))
    ensures Leads(c, Next(c, s, Receive(q2)), run, u) && Untouched(run) && u.db.clock == start.db.clock
    ensures |u.handlers| == 2 && u.handlers[1] == Received(q2, d, Acked(ToV4(c.dyn.from)))
  {
    var s1 := Next(c, s, Receive(q2));
    FirstIsVacant(c, start, d);
    GrantedTable(c, start.db, d, OFFER_TIME);
    assert ServerConfig.DuidFromHwAddr(q2.message.clientMAC)[0] == 0;
    run := Starts(c, s1);
    IdentifyNow(c, s1, 1);
    run := Go(c, s1, run, s1, Identify(1, s1.db.clock));
    var v := State(s.db, [s.handlers[0], Received(q2, d, Looking(ToV4(c.dyn.from)))]);
    run := Acknowledges(c, s1, run, v, 1, c.dyn.from);
    u := State(Accepted(v.db, c.dyn.from, d, c.leaseDuration), v.handlers[1 := Received(q2, d, Acked(ToV4(c.dyn.from)))]);
  }

  /** The state after the discovery has been answered is one that a run of the server leads to, so it is safe. */
  lemma OfferedIsSafe(c: Setup, start: Handlers.State, q: Query, d: Duid) returns (r: seq<Action>, s: Handlers.State)
    requires Ready(c, start) && Newcomer(c, start.db.table, q, d, Finding(NIL_IP))
    ensures OfferedTo(c, s, q, d, start) && Leads(c, start, r, s) && Safe(c, s, start.db.table)
    ensures s.db.clock == start.db.clock && s.db.log == [Grant(start.db.clock, c.dyn.from, d, start.db.clock + OFFER_TIME)]
  {
    r := Discovered(c, start, q, d);
    s := State(GrantedTo(c, start.db, d, OFFER_TIME), [Received(q, d, Offered(ToV4(c.dyn.from)))]);
    assert Safe(c, start, start.db.table);
    RunIsSafe(c, start, r, start.db.table);
  }

  lemma UntouchedIsCalm(run: seq<Action>, h: nat)
    requires Untouched(run)
    ensures forall k | 0 <= k < |run| :: Answers.Calm(run[k], h)
  {
    forall k | 0 <= k < |run|
      ensures Answers.Calm(run[k], h)
    {
      assert Smooth(run[k]);
    }
  }

  /** A server that has started, configured for this client, and a client that has no lease there. */
  ghost predicate Starting(c: Setup, conf: ServerConfig.Config, start: Handlers.State, x: Template, q: Query) {
    && Ready(c, start) && |x.hwaddr| <= DhcpMsg.MAC_FIELD && x.hwaddr != c.self.mac
    && conf.lopts.leaseDuration >= 0 && ServerConfig.EncodableFor(conf, x.hwaddr)
    && Interop.Acceptable(conf, x.hwaddr, c.self.ip, ToV4(c.dyn.from)) && !Equal(c.self.ip, ToV4(c.dyn.from))
    && q == RequestQuery(x, ToV4(c.dyn.from), Normal(c.self.ip))
    && Newcomer(c, start.db.table, DiscoverQuery(x), Cid(x), Finding(NIL_IP))
    && Newcomer(c, start.db.table, q, Cid(x), Looking(ToV4(c.dyn.from)))
  }

  /** The bytes of the offer, of the request and of the acknowledgement, each understood by the other end. */
  ghost predicate Concludes(c: Setup, conf: ServerConfig.Config, s: Handlers.State, x: Template, id: u16, q: Query,
                            offer: Verify.Reply, run: seq<Action>, u: Handlers.State)
    requires SetupOk(c) && conf.lopts.leaseDuration >= 0 && |s.handlers| == 1
  {
    && offer == Answered(c.self, conf, s.handlers[0], Verify.Offers(x.xid), x.hwaddr)
    && offer.Accepted? && offer.m.yourIP == ToV4(c.dyn.from)
    && Heard(RequestFor(x, id, offer)) == Some(q)
    && Leads(c, Next(c, s, Receive(q)), run, u) && |u.handlers| == 2 && u.handlers[1].query == q
    && var answer := Answered(c.self, conf, u.handlers[1], Verify.Acks(offer.m, offer.opt, x.xid, true), x.hwaddr);
       AckFor(c.self, conf, x.hwaddr, answer, ToV4(c.dyn.from))
  }

  /** The offer is accepted, asked for, and acknowledged. */
  lemma Agrees(c: Setup, conf: ServerConfig.Config, start: Handlers.State, s: Handlers.State, p: Table, x: Template, id: u16, q: Query)
    returns (offer: Verify.Reply, run: seq<Action>, u: Handlers.State)
    requires Starting(c, conf, start, x, q) && OfferedTo(c, s, DiscoverQuery(x), Cid(x), start) && Safe(c, s, p)
    requires s.db.clock == start.db.clock
    requires s.db.log == [Grant(start.db.clock, c.dyn.from, Cid(x), start.db.clock + OFFER_TIME)]
    ensures Concludes(c, conf, s, x, id, q, offer, run, u)
  {
    run, u := Confirms(c, start, s, DiscoverQuery(x), q, Cid(x));
    UntouchedIsCalm(run, 1);
    DiscoverIsOffered(c, x);
    var j;
    offer, j := OfferBecomesAck(c, conf, s, 0, run, p, 0, x, id, ToV4(c.dyn.from), q);
  }

  /**
   From the start of a server: the discovery is answered with an offer, which the client accepts and asks for, and
   the request with an acknowledgement, which the client accepts.
   */
  lemma NewcomerIsServed(c: Setup, conf: ServerConfig.Config, start: Handlers.State, x: Template, id: u16, q: Query)
    returns (r: seq<Action>, s: Handlers.State, offer: Verify.Reply, run: seq<Action>, u: Handlers.State)
    requires Starting(c, conf, start, x, q)
    ensures Leads(c, start, r, s) && OfferedTo(c, s, DiscoverQuery(x), Cid(x), start)
    ensures Concludes(c, conf, s, x, id, q, offer, run, u)
  {
    r, s := OfferedIsSafe(c, start, DiscoverQuery(x), Cid(x));
    offer, run, u := Agrees(c, conf, start, s, start.db.table, x, id, q);
  }

  /** What a handler has sent is the only packet of this round. */
  predicate Brings(c: Setup, conf: ServerConfig.Config, y: Handler, r: ClientStates.Round, xid: u32)
    requires conf.lopts.leaseDuration >= 0
  {
    r.xid == xid && Sent(c.self, conf, y).Some? && r.packets == [Packets.Read(Sent(c.self, conf, y).value)]
  }

  lemma IsHeard(c: Setup, conf: ServerConfig.Config, y: Handler, r: ClientStates.Round, q: Verify.Question, hwaddr: seq<u8>, a: Verify.Reply)
    requires conf.lopts.leaseDuration >= 0 && Brings(c, conf, y, r, q.xid) && a == Answered(c.self, conf, y, q, hwaddr) && !a.NoReply?
    ensures ClientProgress.Hears(hwaddr, r, q, a)
  {
    assert Verify.Examined(q, hwaddr, r.packets[0]) == a;
  }

  /**
   The client on the other end: with the packets of this server in its rounds, a client that starts gets to Bound,
   and its interface has exactly the address that the server has granted it.
   */
  lemma ServedIsBound(c: Setup, conf: ServerConfig.Config, s: Handlers.State, x: Template, id: u16, q: Query, offer: Verify.Reply,
                      run: seq<Action>, u: Handlers.State, client: ClientStates.Client, purge: ClientStates.Round,
                      discover: ClientStates.Round, select: ClientStates.Round, arp: ClientStates.Round, ifconfig: ClientStates.Round)
    requires SetupOk(c) && conf.lopts.leaseDuration >= 0 && |s.handlers| == 1 && Concludes(c, conf, s, x, id, q, offer, run, u)
    requires ClientStates.Sound(client) && client.phase.PurgeInterface?
    requires Brings(c, conf, s.handlers[0], discover, x.xid) && Brings(c, conf, u.handlers[1], select, x.xid)
    requires ClientProgress.NobodyElse(x.hwaddr, arp) && ifconfig.configured
    ensures var events := [ClientStates.Turn(purge)] + ClientProgress.Turns([])
                          + [ClientStates.Turn(discover), ClientStates.Turn(select), ClientStates.Turn(arp), ClientStates.Turn(ifconfig)];
            var y := ClientStates.Life(x.hwaddr, client, events);
            y.phase.Bound? && y.iface == {ToV4(c.dyn.from)}
  {
    var ack := Answered(c.self, conf, u.handlers[1], Verify.Acks(offer.m, offer.opt, x.xid, true), x.hwaddr);
    IsHeard(c, conf, s.handlers[0], discover, Verify.Offers(x.xid), x.hwaddr, offer);
    IsHeard(c, conf, u.handlers[1], select, Verify.Acks(offer.m, offer.opt, x.xid, true), x.hwaddr, ack);
    ClientProgress.GetsAnAddress(x.hwaddr, client, purge, [], discover, select, arp, ifconfig, offer, ack);
  }

  /** The server of `Runs` is such a one, for any client but itself. */
  lemma SomeStarting(x: Template, now: Time)
    requires |x.hwaddr| <= DhcpMsg.MAC_FIELD && x.hwaddr != OWN_MAC
    ensures var c := SomeSetup(); Starting(c, SomeConfig(), SomeStart(now), x, RequestQuery(x, ToV4(c.dyn.from), Normal(c.self.ip)))
  {
    var c := SomeSetup();
    SomeServerIsReady(now);
    SomeClientIsNew(x);
    SomeConfigIsAcceptable(SomeConfig(), x.hwaddr, c.self.ip, 0x0a00_0001, c.dyn.from);
    EqualToV4(c.self.ip, c.dyn.from);
    OrdinaryAddress(0x0a00_0001);
  }
}
