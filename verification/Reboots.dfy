/** A client that remembers its address and asks for it again after a reboot, without naming a server. */
module Reboots {
  import opened Answers
  import opened Bytes
  import opened Grants
  import opened Handlers
  import opened Keys
  import opened LeaseTable
  import opened Network
  import opened Options
  import opened Packets
  import opened Pretenders
  import opened Requests
  import opened Runs
  import opened ServerSafety
  import opened Templates
  import ClientInterop
  import DhcpMsg
  import DhcpRoundTrip
  import Handshake
  import Interop
  import Layer
  import ServerConfig

  /**
   An INIT-REBOOT request, broadcast for a granted address by a foreign client: untouched, and while no grant of
   the pair is over, it ends acknowledged if its client is known under the DUID of the grant, and else refused.
   */
  lemma RebootBecomesAck(c: Setup, s: State, q: Query, run: seq<Action>, p: Table, i: nat) returns (j: nat)
    requires SetupOk(c) && Safe(c, s, p) && Possible(c, Next(c, s, Receive(q)), run) && i < |s.db.log|
    requires q.message.clientMAC != c.self.mac && Equal(q.destination, IPv4(255, 255, 255, 255))
    requires var opts := Decoded(q.message.options);
             opts.messageType == 3 && opts.serverIdentifier == [] && opts.requestedIP == ToV4(s.db.log[i].ip)
    requires !Equal(c.self.ip, ToV4(s.db.log[i].ip))
    requires forall k | 0 <= k < |run| :: Calm(run[k], |s.handlers|)
    requires var after := After(c, Next(c, s, Receive(q)), run).db;
             s.db.log <= after.log && KeptUntil(after.log, i, after.clock)
    ensures var s1 := Next(c, s, Receive(q));
            && Handshake.Followed(c, s1, run, |s.handlers|, j, q)
            && var pc := After(c, s1, run).handlers[|s.handlers|].pc;
               Ended(pc) ==> pc == if KnownAt(c, s1, run, j, q, s.db.log[i].duid) then Acked(ToV4(s.db.log[i].ip)) else Nacked
  {
    ToV4IsRightInverse(s.db.log[i].ip);
    JobIsExact(c.self, q, Decoded(q.message.options), ToV4(s.db.log[i].ip));
    j := Handshake.RequestEnds(c, s, q, run, p, i);
  }

  /** Such a packet, as a client with this identifier would send it. */
  function RebootOptions(t: Template, n: u32): seq<DhcpMsg.Opt> {
    [OptionType(MSG_REQUEST), OptionClientIdentifier(t.hwaddr, t.crc), OptionRequestedIP(ToV4(n))]
  }

  function RebootMessage(t: Template, n: u32): DhcpMsg.Message {
    RequestMessage(t, MSG_REQUEST, IPV4_ZERO, NIL_IP, NIL_IP).(options := RebootOptions(t, n))
  }

  function RebootQuery(t: Template, n: u32): Query {
    Query(Normal(IPV4_ZERO), IPV4_BCAST, DhcpRoundTrip.NormalMessage(RebootMessage(t, n)))
  }

  lemma RebootIsHeard(t: Template, id: u16, n: u32)
    requires |t.hwaddr| <= DhcpMsg.MAC_FIELD
    ensures var u := Segment(CLIENT_PORT, SERVER_PORT, DhcpMsg.MessageBytes(RebootMessage(t, n)));
            Heard(Read(Layer.Ipv4Bytes(Packet(id, IPV4_ZERO, IPV4_BCAST, u)))) == Some(RebootQuery(t, n))
  {
    ClientInterop.BroadcastOnTheWire();
    Interop.MessageArrives(id, IPV4_ZERO, IPV4_BCAST, CLIENT_PORT, SERVER_PORT, RebootMessage(t, n));
  }

  lemma RebootDecoded(t: Template, n: u32)
    ensures var d := Decoded(RebootOptions(t, n));
            && d.messageType == 3 && d.clientIdentifier == Cid(t) && d.requestedIP == ToV4(n) && d.serverIdentifier == NIL_IP
  {
    var os := RebootOptions(t, n);
    ThreeDecoded(os[0], os[1], os[2]);
    AddressOptionRoundTrip(OPT_REQUESTED_IP, ToV4(n));
    ToV4IsRightInverse(n);
  }

  /** From the start of a server: a newcomer is offered the first address, reboots, asks for it, and gets it. */
  lemma SomeRebootIsAcked(x: Template, now: Time) returns (r: seq<Action>, u: State)
    requires |x.hwaddr| <= DhcpMsg.MAC_FIELD && x.hwaddr != OWN_MAC
    ensures var n := SomeSetup().dyn.from;
            && Leads(SomeSetup(), SomeStart(now), r, u) && |u.handlers| == 2
            && u.handlers[1] == Received(RebootQuery(x, n), Cid(x), Acked(ToV4(n)))
            && Holds(u.db.table, n, Cid(x))
  {
    var c, n, d := SomeSetup(), SomeSetup().dyn.from, Cid(x);
    SomeServerIsReady(now);
    SomeClientIsNew(x);
    RebootIsNewcomer(c, x, n);
    r := Acknowledged(c, SomeStart(now), DiscoverQuery(x), RebootQuery(x, n), d);
    u := State(AckedTo(c, SomeStart(now), d), [Received(DiscoverQuery(x), d, Offered(ToV4(n))), Received(RebootQuery(x, n), d, Acked(ToV4(n)))]);
    AckedTable(c, SomeStart(now), d);
  }

  lemma RebootIsNewcomer(c: Setup, x: Template, n: u32)
    requires c == SomeSetup() && n == c.dyn.from && x.hwaddr != OWN_MAC
    requires !HasLease(SomeTable(), ServerConfig.DuidFromHwAddr(x.hwaddr)) && !HasLease(SomeTable(), Cid(x))
    ensures Newcomer(c, SomeTable(), RebootQuery(x, n), Cid(x), Looking(ToV4(n)))
  {
    RebootDecoded(x, n);
    EqualToV4(c.self.ip, n);
    OrdinaryAddress(0x0a00_0001);
    ToV4IsRightInverse(n);
    EqualIffCanonical(IPV4_BCAST, IPV4_BCAST);
    JobIsExact(c.self, RebootQuery(x, n), Decoded(RebootOptions(x, n)), ToV4(n));
  }
}
