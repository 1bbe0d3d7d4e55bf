/** A server, a run of it, and a client that keeps its address for longer than the server does. */
module Outlived {
  import opened Bytes
  import opened Grants
  import opened Handlers
  import opened Handshake
  import opened LeaseTable
  import opened Options
  import opened Requests
  import opened Runs
  import opened ServerConfig
  import opened Templates
  import Verify
  import ClientStates
  import Deadlines
  import DhcpMsg
  import Float64
  import Interop
  import Keys
  import Packets
  import Replies

  /** What the server of `Runs` is configured to say: itself as the router, and a lease of a minute. */
  function SomeConfig(): Config {
    Config(LeaseOptions(NIL_IP, [], [255, 255, 255, 0], ToV4(0x0a00_0001), [], [], MINUTE), map[])
  }

  lemma SixtySeconds(d: Time)
    requires d == 60 * Float64.NANOS
    ensures Float64.Seconds(d) == 60
  {
    Float64.SecondsBelow(d);
  }

  lemma SomeConfigIsAcceptable(conf: Config, mac: seq<u8>, self: IP, own: u32, n: u32)
    requires 0 < own < 0xffff_ffff && 0 < n < 0xffff_ffff && self == ToV4(own) && conf == SomeConfig()
    ensures EncodableFor(conf, mac) && Interop.Acceptable(conf, mac, self, ToV4(n))
  {
    OrdinaryAddress(own);
    OrdinaryAddress(n);
    SixtySeconds(conf.lopts.leaseDuration);
  }

  /** A client that has accepted an acknowledgement, checked and configured its address, and is about to set its deadlines. */
  function Settled(ack: Verify.Reply): ClientStates.Client
    requires ack.Accepted?
  {
    ClientStates.Client(
      ClientStates.Phase.Bound, ack.m, ack.opt, Deadlines.BoundDeadlines(0, 0, 0), {ack.m.yourIP}, Some(ack.m.yourIP))
  }

  lemma SettledIsSound(self: Self, conf: Config, last: Verify.Reply, xid: u32, n: u32, mac: seq<u8>) returns (ack: Verify.Reply)
    requires |mac| <= DhcpMsg.MAC_FIELD && conf.lopts.leaseDuration >= 0 && EncodableFor(conf, mac)
    requires Interop.Acceptable(conf, mac, self.ip, ToV4(n)) && Stored(self, last, ToV4(n), true)
    ensures AckFor(self, conf, mac, ack, ToV4(n)) && ClientStates.Sound(Settled(ack))
  {
    ack := AckHeard(self, conf, last, xid, 0, ToV4(n), mac, true);
    AckIsAccepted(self, conf, last, xid, 0, n, mac, true);
    Interop.ReplyDecoded(MSG_ACK, self.ip, conf, mac);
    ClientStates.AcceptedIsUsable(
      Verify.Acks(last.m, last.opt, xid, true), mac,
      Packets.Read(Replies.AssembleACK(xid, 0, self.ip, ToV4(n), mac, OptionsFor(conf, mac))));
  }

  /** An untouched request of a newcomer, up to the point where it is about to be confirmed. */
  lemma AboutToConfirm(c: Setup, s: Handlers.State, q: Query, q2: Query, d: Keys.Duid) returns (r: seq<Action>, u: Handlers.State)
    requires Ready(c, s)
    requires Newcomer(c, s.db.table, q, d, Finding(NIL_IP)) && Newcomer(c, s.db.table, q2, d, Looking(ToV4(c.dyn.from)))
    ensures Leads(c, s, r, u) && u.db.clock == s.db.clock && |u.handlers| == 2
    ensures u.handlers[1] == Received(q2, d, Confirming(ToV4(c.dyn.from)))
    ensures var a := Action.Confirm(1, s.db.clock); Enabled(c, u, a) && Next(c, u, a).handlers[1].pc == Acked(ToV4(c.dyn.from))
  {
    var ip, db := ToV4(c.dyn.from), GrantedTo(c, s.db, d, OFFER_TIME);
    FirstIsVacant(c, s, d);
    GrantedTable(c, s.db, d, OFFER_TIME);
    r := SecondArrives(c, s, q, d, q2, d, Looking(ip));
    u := State(db, [Received(q, d, Offered(ip)), Received(q2, d, Looking(ip))]);
    r := Checks(c, s, r, u, 1, c.dyn.from);
    u := With(u, 1, Received(q2, d, Confirming(ip)));
    ConfirmNow(c, u, 1, c.dyn.from);
  }

  /**
   From the start of a server: its lease ends a minute after the confirmation, that of the client a minute after it
   has entered Bound, however soon that was.
   */
  lemma SomeClientOutlivesLease(x: Template, now: Time, r: ClientStates.Round)
    returns (run: seq<Action>, u: Handlers.State, ack: Verify.Reply)
    requires |x.hwaddr| <= DhcpMsg.MAC_FIELD && x.hwaddr != OWN_MAC && now < r.now
    ensures var c, a := SomeSetup(), Action.Confirm(1, now);
            && Leads(c, SomeStart(now), run, u) && Enabled(c, u, a) && Next(c, u, a).handlers[1].pc == Acked(ToV4(c.dyn.from))
            && AckFor(c.self, SomeConfig(), x.hwaddr, ack, ToV4(c.dyn.from)) && ClientStates.Sound(Settled(ack))
            && c.dyn.from in Next(c, u, a).db.table
            && Next(c, u, a).db.table[c.dyn.from].until < ClientStates.Step(x.hwaddr, Settled(ack), r).deadlines.tx
  {
    var c := SomeSetup();
    var n := c.dyn.from;
    SomeServerIsReady(now);
    SomeClientIsNew(x);
    SomeConfigIsAcceptable(SomeConfig(), x.hwaddr, c.self.ip, 0x0a00_0001, n);
    run, u := AboutToConfirm(c, SomeStart(now), DiscoverQuery(x), RequestQuery(x, ToV4(n), Normal(c.self.ip)), Cid(x));
    var offer := Verify.Accepted(DiscoverQuery(x).message.(yourIP := ToV4(n)), NOTHING.(serverIdentifier := Normal(c.self.ip)));
    ack := SettledIsSound(c.self, SomeConfig(), offer, x.xid, n, x.hwaddr);
    ClientOutlivesLease(c, SomeConfig(), u, 1, now, n, x.hwaddr, Settled(ack), r);
  }
}
