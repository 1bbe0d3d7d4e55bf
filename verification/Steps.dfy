/** What each step of a handler comes to, by the fields of its packet and the entries of the database. */
module Steps {
  import opened Bytes
  import opened Keys
  import opened LeaseTable
  import opened Grants
  import opened Handlers
  import opened Ipdb
  import opened Network
  import opened Options
  import opened Requests

  /** This entry of the table is there at this time. */
  predicate Live(t: Table, n: u32, d: Duid, now: Time) {
    n in t && t[n].duid == d && (t[n].permanent || now <= t[n].until)
  }

  /**
   Where the identification of a packet leads, by its fields: to the lookup of an address, to a search, or nowhere.
   The address of a request is the one that it names, or else the one that it comes from.
   */
  lemma IdentifyIsExact(c: Setup, s: State, a: Action, ip: IP)
    requires SetupOk(c) && Enabled(c, s, a) && a.Identify?
    ensures var x, pc := s.handlers[a.h], Next(c, s, a).handlers[a.h].pc;
            var dst, server, requested := x.query.destination, x.opts.serverIdentifier, x.opts.requestedIP;
            var broadcast := Equal(dst, IPv4(255, 255, 255, 255));
            var heard := c.self.mac != x.query.message.clientMAC && !Equal(c.self.ip, requested);
            var ours := To4(ip) != [] && c.self.net.from <= AsU32(ip) <= c.self.net.to;
            && (pc == Looking(ip) <==>
                  && x.opts.messageType == 3 && heard && ours
                  && if requested != [] then ip == requested && broadcast && (server == [] || Equal(server, c.self.ip))
                     else ip == x.query.source && server == [] && (broadcast || Equal(dst, c.self.ip)))
            && (pc == Finding(ip) <==> x.opts.messageType == 1 && heard && broadcast && server == [] && ip == requested)
            && (pc.Looking? || pc.Finding? || pc.Dropped?)
  {
    JobIsExact(c.self, s.handlers[a.h].query, s.handlers[a.h].opts, ip);
  }

  /**
   Under which DUID: the internal one of its hardware address, if that one has a lease or the client sent fewer than
   four bytes, and else what it sent.
   */
  lemma IdentityIsExact(c: Setup, s: State, a: Action)
    requires SetupOk(c) && Enabled(c, s, a) && a.Identify?
    ensures var x, y := s.handlers[a.h], Next(c, s, a).handlers[a.h];
            var internal, sent := [0, 3, 0, 0] + x.query.message.clientMAC, x.opts.clientIdentifier;
            var known := exists n :: Live(s.db.table, n, internal, a.now);
            && y == x.(duid := y.duid, shared := y.shared, pc := y.pc)
            && y.duid == (if known || |sent| < 4 then internal else sent)
            && (y.shared <==> !known && |sent| >= 4)
  {
    var t, x := At(s.db.table, a.now), s.handlers[a.h];
    var internal := [0, 3, 0, 0] + x.query.message.clientMAC;
    assert HasLease(t, internal) <==> exists n :: Live(s.db.table, n, internal, a.now) by {
      forall n
        ensures n in t && Holds(t, n, internal) <==> Live(s.db.table, n, internal, a.now)
      {
      }
      if n :| Live(s.db.table, n, internal, a.now) {
        assert Holds(t, n, internal);
      }
    }
  }

  /** A lookup finds the one live entry of the DUID. It goes on with it if it is the desired address, and refuses otherwise. */
  lemma LookUpIsExact(c: Setup, s: State, a: Action, n: u32)
    requires SetupOk(c) && Enabled(c, s, a) && a.LookUp? && OneAddressPerDuid(s.db.table)
    ensures var x, pc := s.handlers[a.h], Next(c, s, a).handlers[a.h].pc;
            && (Live(s.db.table, n, x.duid, a.now) ==> pc == if Equal(x.pc.desired, ToV4(n)) then Probing(ToV4(n)) else Nacked)
            && ((forall m :: !Live(s.db.table, m, x.duid, a.now)) ==> pc == Nacked)
  {
    var x, t := s.handlers[a.h], At(s.db.table, a.now);
    if Live(s.db.table, n, x.duid, a.now) {
      AddressIsUnique(t, n, x.duid);
    }
    if AddressOf(t, x.duid).Some? {
      assert Live(s.db.table, AddressOf(t, x.duid).value, x.duid, a.now);
    }
  }

  /** An ARP check sends the lease on to its confirmation if it passes, and refuses otherwise. */
  lemma ArpIsExact(c: Setup, s: State, a: Action)
    requires SetupOk(c) && Enabled(c, s, a) && a.Arp?
    ensures var x := s.handlers[a.h];
            Next(c, s, a) == s.(handlers := s.handlers[a.h := x.(pc := if a.free then Confirming(x.pc.lease) else Nacked)])
  {
  }

  /** The table once time has passed: the entries that are alive, as they were. */
  predicate Aged(before: Table, after: Table, now: Time) {
    forall m: u32 :: (m in after <==> m in before && (before[m].permanent || now <= before[m].until)) && (m in after ==> after[m] == before[m])
  }

  /** An update of an address for a DUID is in order if they have each other, or nobody at all, and the address is managed. */
  ghost predicate InOrder(c: Setup, t: Table, ip: IP, d: Duid, now: Time) {
    && To4(ip) != [] && c.self.net.from <= AsU32(ip) <= c.self.net.to
    && (Live(t, AsU32(ip), d, now)
        || ((forall e :: !Live(t, AsU32(ip), e, now)) && forall m :: !Live(t, m, d, now)))
  }

  /** It then lasts for `ttl` from now on; a permanent entry stays permanent, and other addresses keep theirs. */
  ghost predicate Extended(before: Database, after: Database, n: u32, d: Duid, now: Time, ttl: Time) {
    && after.clock == now && after.log == before.log + [Grant(now, n, d, now + ttl)]
    && n in after.table
    && after.table[n] == Lease(d, now + ttl, n in before.table && before.table[n].permanent)
    && Aged(before.table - {n}, after.table - {n}, now)
  }

  lemma UpdateIsInOrder(c: Setup, db: Database, ip: IP, d: Duid, now: Time, ttl: Time)
    requires ttl >= 0
    ensures var e := UpdateEffect(c, now, ip, d, ttl);
            && (Granting(db, e) <==> InOrder(c, db.table, ip, d, now))
            && (InOrder(c, db.table, ip, d, now) ==> Extended(db, Touched(db, e), AsU32(ip), d, now, ttl))
            && (!InOrder(c, db.table, ip, d, now) ==>
                  Touched(db, e).log == db.log && Touched(db, e).clock == now && Aged(db.table, Touched(db, e).table, now))
  {
    var t, e := At(db.table, now), UpdateEffect(c, now, ip, d, ttl);
    forall m, x
      ensures m in t && Holds(t, m, x) <==> Live(db.table, m, x, now)
    {
    }
    if To4(ip) != [] {
      var n := AsU32(ip);
      assert n !in t <==> forall x :: !Live(db.table, n, x, now) by {
        if n in t {
          assert Live(db.table, n, t[n].duid, now);
        }
      }
    }
    assert HasLease(t, d) <==> exists m :: Live(db.table, m, d, now) by {
      if m :| Live(db.table, m, d, now) {
        assert Holds(t, m, d);
      }
    }
  }

  /** The reservation of an offer, for fifteen seconds. */
  lemma ReserveIsExact(c: Setup, s: State, a: Action)
    requires SetupOk(c) && Enabled(c, s, a) && a.Reserve?
    ensures var x, u := s.handlers[a.h], Next(c, s, a);
            if InOrder(c, s.db.table, x.pc.ip, x.duid, a.now) then
              && u.handlers == s.handlers[a.h := x.(pc := Offered(x.pc.ip))]
              && Extended(s.db, u.db, AsU32(x.pc.ip), x.duid, a.now, 15_000_000_000)
            else
              && u.handlers == s.handlers[a.h := x.(pc := Dropped)]
              && u.db.log == s.db.log && u.db.clock == a.now && Aged(s.db.table, u.db.table, a.now)
  {
    UpdateIsInOrder(c, s.db, s.handlers[a.h].pc.ip, s.handlers[a.h].duid, a.now, OFFER_TIME);
  }

  /** The confirmation of a lease, for as long as the server gives leases. */
  lemma ConfirmIsExact(c: Setup, s: State, a: Action)
    requires SetupOk(c) && Enabled(c, s, a) && a.Confirm?
    ensures var x, u := s.handlers[a.h], Next(c, s, a);
            if InOrder(c, s.db.table, x.pc.lease, x.duid, a.now) then
              && u.handlers == s.handlers[a.h := x.(pc := Acked(x.pc.lease))]
              && Extended(s.db, u.db, AsU32(x.pc.lease), x.duid, a.now, c.leaseDuration)
            else
              && u.handlers == s.handlers[a.h := x.(pc := Dropped)]
              && u.db.log == s.db.log && u.db.clock == a.now && Aged(s.db.table, u.db.table, a.now)
  {
    UpdateIsInOrder(c, s.db, s.handlers[a.h].pc.lease, s.handlers[a.h].duid, a.now, c.leaseDuration);
  }

  /** A search goes on with what it has found, or drops the packet; the database only gets older. */
  lemma FindIsExact(c: Setup, s: State, a: Action)
    requires SetupOk(c) && Enabled(c, s, a) && a.Find?
    ensures var x, u := s.handlers[a.h], Next(c, s, a);
            var (found, last) := Found(s.db.table, AddressRanges(c.self.net, c.dyn), a.world, a.perm, x.pc.suggestion, x.duid);
            && u.handlers == s.handlers[a.h := x.(pc := match found case Some(n) => Offering(ToV4(n)) case None => Dropped)]
            && u.db.log == s.db.log && u.db.clock == a.world.now(last) && Aged(s.db.table, u.db.table, a.world.now(last))
  {
  }
}
