/** What a client gets to when the others play along, and what it falls back to when they do not. */
module ClientProgress {
  import opened Bytes
  import opened ClientStates
  import opened Deadlines
  import opened DhcpMsg
  import opened LeaseTable
  import opened Options
  import opened Verify

  /** Of the packets of a round, the first that counts is this answer to the question. */
  predicate Hears(hwaddr: seq<u8>, r: Round, q: Question, a: Reply) {
    && !a.NoReply?
    && exists n :: 0 <= n < |r.packets| && Examined(q, hwaddr, r.packets[n]) == a
                   && forall j | 0 <= j < n :: Examined(q, hwaddr, r.packets[j]).NoReply?
  }

  /** None of them counts. */
  predicate HearsNothing(hwaddr: seq<u8>, r: Round, q: Question) {
    forall n | 0 <= n < |r.packets| :: Examined(q, hwaddr, r.packets[n]).NoReply?
  }

  lemma HeardIs(hwaddr: seq<u8>, r: Round, q: Question, a: Reply)
    ensures Hears(hwaddr, r, q, a) ==> Heard(hwaddr, r, q) == a
    ensures HearsNothing(hwaddr, r, q) ==> Heard(hwaddr, r, q).NoReply?
  {
    var k := AnswerIsFirst(r.packets, b => Examined(q, hwaddr, b));
    if Hears(hwaddr, r, q, a) {
      var n :| 0 <= n < |r.packets| && Examined(q, hwaddr, r.packets[n]) == a
               && forall j | 0 <= j < n :: Examined(q, hwaddr, r.packets[j]).NoReply?;
      assert k == n;
    }
  }

  lemma OneTurn(hwaddr: seq<u8>, x: Client, r: Round)
    requires Sound(x)
    ensures Life(hwaddr, x, [Turn(r)]) == Step(hwaddr, x, r)
  {
    assert [Turn(r)][..0] == [];
  }

  /** A life goes on from where it has come to. */
  lemma {:induction false} LifeGoesOn(hwaddr: seq<u8>, x: Client, before: seq<Event>, after: seq<Event>)
    requires Sound(x)
    ensures Life(hwaddr, x, before + after) == Life(hwaddr, Life(hwaddr, x, before), after)
    decreases |after|
  {
    if after == [] {
      assert before + after == before;
    } else {
      assert (before + after)[..|before + after| - 1] == before + after[..|after| - 1];
      LifeGoesOn(hwaddr, x, before, after[..|after| - 1]);
    }
  }

  lemma OneByOne(hwaddr: seq<u8>, x: Client, a: Event, b: Event, c: Event, d: Event)
    requires Sound(x)
    ensures Life(hwaddr, x, [a, b, c, d]) == Life(hwaddr, Life(hwaddr, Life(hwaddr, x, [a]), [b]), [c, d])
  {
    assert [a, b, c, d] == [a] + [b, c, d];
    LifeGoesOn(hwaddr, x, [a], [b, c, d]);
    FirstOfThree(hwaddr, Life(hwaddr, x, [a]), b, c, d);
  }

  lemma FirstOfThree(hwaddr: seq<u8>, x: Client, a: Event, b: Event, c: Event)
    requires Sound(x)
    ensures Life(hwaddr, x, [a, b, c]) == Life(hwaddr, Life(hwaddr, x, [a]), [b, c])
  {
    assert [a, b, c] == [a] + [b, c];
    LifeGoesOn(hwaddr, x, [a], [b, c]);
  }

  /** The ARP check of a round finds nobody, or the client itself. */
  predicate NobodyElse(hwaddr: seq<u8>, r: Round) { r.arp == None || r.arp == Some(hwaddr) }

  /** A purge takes all addresses away, and a search begins. */
  lemma PurgeRound(hwaddr: seq<u8>, x: Client, r: Round)
    requires Sound(x) && x.phase == PurgeInterface
    ensures Life(hwaddr, x, [Turn(r)]) == x.(phase := Discovering, iface := {})
  {
    OneTurn(hwaddr, x, r);
  }

  /** An accepted offer is stored and asked for; without one, the search goes on. */
  lemma DiscoveringRound(hwaddr: seq<u8>, x: Client, r: Round, offer: Reply)
    requires Sound(x) && x.phase == Discovering
    ensures Hears(hwaddr, r, Offers(r.xid), offer) && offer.Accepted? ==>
              Life(hwaddr, x, [Turn(r)])
              == x.(phase := Selecting, lastMsg := offer.m, lastOpts := offer.opt, offered := Some(offer.m.yourIP))
    ensures HearsNothing(hwaddr, r, Offers(r.xid)) ==> Life(hwaddr, x, [Turn(r)]) == x.(offered := None)
  {
    OneTurn(hwaddr, x, r);
    HeardIs(hwaddr, r, Offers(r.xid), offer);
  }

  /** An accepted acknowledgement is stored and checked; a refusal, or none, leads back to the search. */
  lemma SelectingRound(hwaddr: seq<u8>, x: Client, r: Round, a: Reply)
    requires Sound(x) && x.phase == Selecting
    ensures var q, y := Acks(x.lastMsg, x.lastOpts, r.xid, true), Life(hwaddr, x, [Turn(r)]);
            && (Hears(hwaddr, r, q, a) && a.Accepted? ==> y == x.(phase := ArpCheck, lastMsg := a.m, lastOpts := a.opt))
            && (Hears(hwaddr, r, q, Nack) || HearsNothing(hwaddr, r, q) ==> y == x.(phase := Discovering))
  {
    OneTurn(hwaddr, x, r);
    HeardIs(hwaddr, r, Acks(x.lastMsg, x.lastOpts, r.xid, true), a);
    HeardIs(hwaddr, r, Acks(x.lastMsg, x.lastOpts, r.xid, true), Nack);
  }

  /** An address that nobody else uses is configured; one that somebody else uses is given up. */
  lemma ArpCheckRound(hwaddr: seq<u8>, x: Client, r: Round)
    requires Sound(x) && x.phase == ArpCheck
    ensures Life(hwaddr, x, [Turn(r)])
            == if NobodyElse(hwaddr, r) then x.(phase := Ifconfig) else x.(phase := PurgeInterface, iface := {})
  {
    OneTurn(hwaddr, x, r);
  }

  lemma IfconfigRound(hwaddr: seq<u8>, x: Client, r: Round)
    requires Sound(x) && x.phase == Ifconfig
    ensures Life(hwaddr, x, [Turn(r)])
            == if r.configured then x.(phase := Bound, iface := {x.lastMsg.yourIP}) else x.(phase := PurgeInterface, iface := {})
  {
    OneTurn(hwaddr, x, r);
    assert x.iface + {x.lastMsg.yourIP} == {x.lastMsg.yourIP};
  }

  /**
   The deadlines of a lease: half of it, seven eighths of it up to 256 nanoseconds, and all of it; or the server's
   times, if they are in order and the first is more than a minute.
   */
  lemma BoundRound(hwaddr: seq<u8>, x: Client, r: Round)
    requires Sound(x) && x.phase == Bound
    ensures var y, o := Life(hwaddr, x, [Turn(r)]), x.lastOpts;
            && y == x.(phase := Renewing, deadlines := y.deadlines)
            && y.deadlines.tx == r.now + o.leaseDuration
            && if 60_000_000_000 < o.renewalDuration < o.rebindDuration < o.leaseDuration then
                 y.deadlines.t1 == r.now + o.renewalDuration && y.deadlines.t2 == r.now + o.rebindDuration
               else
                 && y.deadlines.t1 == r.now + o.leaseDuration / 2
                 && -256 <= y.deadlines.t2 - (r.now + o.leaseDuration * 7 / 8) <= 256
  {
    OneTurn(hwaddr, x, r);
    WireIsExact(x.lastOpts.leaseDuration);
    SevenEighths(x.lastOpts.leaseDuration);
  }

  /** An accepted renewal is checked like an acknowledgement, a refusal ends the lease, and silence leads to rebinding. */
  lemma RenewingRound(hwaddr: seq<u8>, x: Client, r: Round, a: Reply)
    requires Sound(x) && x.phase == Renewing
    ensures var q, y := Acks(x.lastMsg, x.lastOpts, r.xid, true), Life(hwaddr, x, [Turn(r)]);
            && (Hears(hwaddr, r, q, a) && a.Accepted? ==> y == x.(phase := ArpCheck, lastMsg := a.m, lastOpts := a.opt))
            && (Hears(hwaddr, r, q, Nack) ==> y == x.(phase := PurgeInterface))
            && (HearsNothing(hwaddr, r, q) ==> y == x.(phase := Rebinding))
  {
    OneTurn(hwaddr, x, r);
    HeardIs(hwaddr, r, Acks(x.lastMsg, x.lastOpts, r.xid, true), a);
    HeardIs(hwaddr, r, Acks(x.lastMsg, x.lastOpts, r.xid, true), Nack);
  }

  /** The same from any server, and silence ends the lease. */
  lemma RebindingRound(hwaddr: seq<u8>, x: Client, r: Round, a: Reply)
    requires Sound(x) && x.phase == Rebinding
    ensures var q, y := Acks(x.lastMsg, x.lastOpts, r.xid, false), Life(hwaddr, x, [Turn(r)]);
            && (Hears(hwaddr, r, q, a) && a.Accepted? ==> y == x.(phase := ArpCheck, lastMsg := a.m, lastOpts := a.opt))
            && (Hears(hwaddr, r, q, Nack) || HearsNothing(hwaddr, r, q) ==> y == x.(phase := PurgeInterface))
  {
    OneTurn(hwaddr, x, r);
    HeardIs(hwaddr, r, Acks(x.lastMsg, x.lastOpts, r.xid, false), a);
    HeardIs(hwaddr, r, Acks(x.lastMsg, x.lastOpts, r.xid, false), Nack);
  }

  /** A client that is resumed with an address has five seconds to have it acknowledged; any other one starts over. */
  lemma ResumeRound(hwaddr: seq<u8>, x: Client, now: Time)
    requires Sound(x)
    ensures var y, d := Life(hwaddr, x, [Resume(now)]), now + 5_000_000_000;
            y == if x.phase == Bound || x.phase == Renewing || x.phase == Rebinding
                 then x.(phase := Rebinding, deadlines := BoundDeadlines(d, d, d))
                 else x.(phase := PurgeInterface)
  {
    assert [Resume(now)][..0] == [];
  }

  /** However many rounds of a search bring nothing, the client goes on searching. */
  lemma {:induction false} KeepsSearching(hwaddr: seq<u8>, x: Client, waits: seq<Round>)
    requires Sound(x) && x.phase == Discovering
    requires forall i | 0 <= i < |waits| :: HearsNothing(hwaddr, waits[i], Offers(waits[i].xid))
    ensures var y := Life(hwaddr, x, Turns(waits)); y.phase == Discovering && y.iface == {}
    decreases |waits|
  {
    if waits != [] {
      var init, r := waits[..|waits| - 1], waits[|waits| - 1];
      KeepsSearching(hwaddr, x, init);
      assert Turns(waits) == Turns(init) + [Turn(r)];
      LifeGoesOn(hwaddr, x, Turns(init), [Turn(r)]);
      DiscoveringRound(hwaddr, Life(hwaddr, x, Turns(init)), r, NoReply);
    }
  }

  function Turns(rounds: seq<Round>): (events: seq<Event>) { seq(|rounds|, i requires 0 <= i < |rounds| => Turn(rounds[i])) }

  /** From a stored acknowledgement to its use, in two rounds. */
  lemma Configures(hwaddr: seq<u8>, x: Client, arp: Round, ifconfig: Round)
    requires Sound(x) && x.phase == ArpCheck && NobodyElse(hwaddr, arp) && ifconfig.configured
    ensures Life(hwaddr, x, [Turn(arp), Turn(ifconfig)]) == x.(phase := Bound, iface := {x.lastMsg.yourIP})
  {
    ArpCheckRound(hwaddr, x, arp);
    IfconfigRound(hwaddr, Life(hwaddr, x, [Turn(arp)]), ifconfig);
    assert [Turn(arp), Turn(ifconfig)] == [Turn(arp)] + [Turn(ifconfig)];
    LifeGoesOn(hwaddr, x, [Turn(arp)], [Turn(ifconfig)]);
  }

  lemma AckedAddress(q: Question, hwaddr: seq<u8>, r: Round, a: Reply, last: Message)
    requires Hears(hwaddr, r, q, a) && a.Accepted? && q.Acks? && q.lm == last && |last.yourIP| == 16
    ensures a.m.yourIP == last.yourIP
  {
    HeardIs(hwaddr, r, q, a);
    HeardIsUsable(hwaddr, r, q);
    AckIsForOffer(q, a.m, a.opt);
  }

  /** From an offer to the address of this offer. */
  lemma Selects(hwaddr: seq<u8>, x: Client, discover: Round, select: Round, arp: Round, ifconfig: Round, offer: Reply, ack: Reply)
    requires Sound(x) && x.phase == Discovering
    requires Hears(hwaddr, discover, Offers(discover.xid), offer) && offer.Accepted?
    requires Hears(hwaddr, select, Acks(offer.m, offer.opt, select.xid, true), ack) && ack.Accepted?
    requires NobodyElse(hwaddr, arp) && ifconfig.configured
    ensures var y := Life(hwaddr, x, [Turn(discover), Turn(select), Turn(arp), Turn(ifconfig)]);
            && y.phase == Bound && y.iface == {offer.m.yourIP} && y.lastMsg == ack.m && y.lastOpts == ack.opt
            && y.offered == Some(offer.m.yourIP)
  {
    DiscoveringRound(hwaddr, x, discover, offer);
    var s := Life(hwaddr, x, [Turn(discover)]);
    SelectingRound(hwaddr, s, select, ack);
    AckedAddress(Acks(offer.m, offer.opt, select.xid, true), hwaddr, select, ack, offer.m);
    var t := Life(hwaddr, s, [Turn(select)]);
    Configures(hwaddr, t, arp, ifconfig);
    OneByOne(hwaddr, x, Turn(discover), Turn(select), Turn(arp), Turn(ifconfig));
  }

  /**
   A client that starts gets an address: after a purge and any number of rounds without an offer, an offer that is
   accepted, an acknowledgement of it, nobody else who uses the address, and a configuration that succeeds lead to
   Bound, with exactly the offered address.
   */
  lemma GetsAnAddress(hwaddr: seq<u8>, x: Client, purge: Round, waits: seq<Round>, discover: Round, select: Round, arp: Round,
                      ifconfig: Round, offer: Reply, ack: Reply)
    requires Sound(x) && x.phase == PurgeInterface
    requires forall i | 0 <= i < |waits| :: HearsNothing(hwaddr, waits[i], Offers(waits[i].xid))
    requires Hears(hwaddr, discover, Offers(discover.xid), offer) && offer.Accepted?
    requires Hears(hwaddr, select, Acks(offer.m, offer.opt, select.xid, true), ack) && ack.Accepted?
    requires NobodyElse(hwaddr, arp) && ifconfig.configured
    ensures var y := Life(hwaddr, x, [Turn(purge)] + Turns(waits) + [Turn(discover), Turn(select), Turn(arp), Turn(ifconfig)]);
            y.phase == Bound && y.iface == {offer.m.yourIP} && y.lastMsg == ack.m && y.lastOpts == ack.opt
  {
    PurgeRound(hwaddr, x, purge);
    var s := Life(hwaddr, x, [Turn(purge)]);
    KeepsSearching(hwaddr, s, waits);
    LifeGoesOn(hwaddr, x, [Turn(purge)], Turns(waits));
    Selects(hwaddr, Life(hwaddr, s, Turns(waits)), discover, select, arp, ifconfig, offer, ack);
    LifeGoesOn(hwaddr, x, [Turn(purge)] + Turns(waits), [Turn(discover), Turn(select), Turn(arp), Turn(ifconfig)]);
  }

  /** A bound client whose renewal is accepted is bound again, with the same address. */
  lemma Renews(hwaddr: seq<u8>, x: Client, bound: Round, renew: Round, arp: Round, ifconfig: Round, ack: Reply)
    requires Sound(x) && x.phase == Bound
    requires Hears(hwaddr, renew, Acks(x.lastMsg, x.lastOpts, renew.xid, true), ack) && ack.Accepted?
    requires NobodyElse(hwaddr, arp) && ifconfig.configured
    ensures var y := Life(hwaddr, x, [Turn(bound), Turn(renew), Turn(arp), Turn(ifconfig)]);
            y.phase == Bound && y.iface == x.iface == {x.lastMsg.yourIP} && y.lastMsg == ack.m && y.lastOpts == ack.opt
  {
    BoundRound(hwaddr, x, bound);
    var s := Life(hwaddr, x, [Turn(bound)]);
    RenewingRound(hwaddr, s, renew, ack);
    AckedAddress(Acks(x.lastMsg, x.lastOpts, renew.xid, true), hwaddr, renew, ack, x.lastMsg);
    var t := Life(hwaddr, s, [Turn(renew)]);
    Configures(hwaddr, t, arp, ifconfig);
    OneByOne(hwaddr, x, Turn(bound), Turn(renew), Turn(arp), Turn(ifconfig));
  }

  /** One whose renewal is not answered keeps its address and rebinds; an accepted answer of any server makes it bound again. */
  lemma Rebinds(hwaddr: seq<u8>, x: Client, bound: Round, renew: Round, rebind: Round, arp: Round, ifconfig: Round, ack: Reply)
    requires Sound(x) && x.phase == Bound
    requires HearsNothing(hwaddr, renew, Acks(x.lastMsg, x.lastOpts, renew.xid, true))
    requires Hears(hwaddr, rebind, Acks(x.lastMsg, x.lastOpts, rebind.xid, false), ack) && ack.Accepted?
    requires NobodyElse(hwaddr, arp) && ifconfig.configured
    ensures var y := Life(hwaddr, x, [Turn(bound), Turn(renew)]);
            y.phase == Rebinding && y.iface == x.iface == {x.lastMsg.yourIP} && y.lastMsg == x.lastMsg
    ensures var y := Life(hwaddr, x, [Turn(bound), Turn(renew)] + [Turn(rebind), Turn(arp), Turn(ifconfig)]);
            y.phase == Bound && y.iface == {x.lastMsg.yourIP} && y.lastMsg == ack.m && y.lastOpts == ack.opt
  {
    Unanswered(hwaddr, x, bound, renew);
    IsRebound(hwaddr, Life(hwaddr, x, [Turn(bound), Turn(renew)]), rebind, arp, ifconfig, ack);
    LifeGoesOn(hwaddr, x, [Turn(bound), Turn(renew)], [Turn(rebind), Turn(arp), Turn(ifconfig)]);
  }

  lemma IsRebound(hwaddr: seq<u8>, t: Client, rebind: Round, arp: Round, ifconfig: Round, ack: Reply)
    requires Sound(t) && t.phase == Rebinding
    requires Hears(hwaddr, rebind, Acks(t.lastMsg, t.lastOpts, rebind.xid, false), ack) && ack.Accepted?
    requires NobodyElse(hwaddr, arp) && ifconfig.configured
    ensures var y := Life(hwaddr, t, [Turn(rebind), Turn(arp), Turn(ifconfig)]);
            y.phase == Bound && y.iface == {t.lastMsg.yourIP} && y.lastMsg == ack.m && y.lastOpts == ack.opt
  {
    RebindingRound(hwaddr, t, rebind, ack);
    AckedAddress(Acks(t.lastMsg, t.lastOpts, rebind.xid, false), hwaddr, rebind, ack, t.lastMsg);
    Configures(hwaddr, Life(hwaddr, t, [Turn(rebind)]), arp, ifconfig);
    FirstOfThree(hwaddr, t, Turn(rebind), Turn(arp), Turn(ifconfig));
  }

  lemma Unanswered(hwaddr: seq<u8>, x: Client, bound: Round, renew: Round)
    requires Sound(x) && x.phase == Bound && HearsNothing(hwaddr, renew, Acks(x.lastMsg, x.lastOpts, renew.xid, true))
    ensures var y := Life(hwaddr, x, [Turn(bound), Turn(renew)]);
            && y == x.(phase := Rebinding, deadlines := y.deadlines) && y.iface == {x.lastMsg.yourIP}
            && |x.lastMsg.yourIP| == 16
  {
    BoundRound(hwaddr, x, bound);
    RenewingRound(hwaddr, Life(hwaddr, x, [Turn(bound)]), renew, NoReply);
    assert [Turn(bound), Turn(renew)] == [Turn(bound)] + [Turn(renew)];
    LifeGoesOn(hwaddr, x, [Turn(bound)], [Turn(renew)]);
  }
}
