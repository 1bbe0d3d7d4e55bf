/** Runs of a server, from its start, in which things happen that the theorems leave room for. */
module Runs {
  import opened Answers
  import opened Bytes
  import opened Grants
  import opened Handlers
  import opened Ipdb
  import opened Keys
  import opened LeaseTable
  import opened Network
  import opened Options
  import opened Requests
  import opened ServerSafety
  import opened Templates
  import ClientInterop
  import DhcpMsg
  import DhcpRoundTrip
  import Handshake
  import ServerConfig
  import Verify

  ghost predicate Leads(c: Setup, s: State, run: seq<Action>, u: State)
    requires SetupOk(c)
  {
    Possible(c, s, run) && After(c, s, run) == u
  }

  /** Nothing is overwritten, and every ARP check passes. */
  predicate Untouched(run: seq<Action>) { forall k | 0 <= k < |run| :: Smooth(run[k]) }

  predicate Smooth(a: Action) { !a.Overwrite? && (a.Arp? ==> a.free) }

  lemma Go(c: Setup, s: State, run: seq<Action>, u: State, a: Action) returns (r: seq<Action>)
    requires SetupOk(c) && Leads(c, s, run, u) && Enabled(c, u, a)
    ensures Leads(c, s, r, Next(c, u, a)) && r == run + [a]
    ensures Untouched(run) && Smooth(a) ==> Untouched(r)
  {
    r := run + [a];
    RunExtended(c, s, run, a);
  }

  /** A world in which no time passes, every address is free, and nothing is cancelled. */
  function Quiet(now: Time): World { World(_ => now, (_, _) => true, _ => false) }

  function Identity(n: nat): (p: seq<nat>)
    ensures IsPermutation(p, n) && forall i | 0 <= i < n :: p[i] == i
  {
    var p := seq(n, i => i);
    assert forall v: nat | v < n :: v in p by {
      forall v: nat | v < n
        ensures v in p
      {
        assert p[v] == v;
      }
    }
    p
  }

  function With(s: State, h: nat, x: Handler): State
    requires h < |s.handlers|
  {
    s.(handlers := s.handlers[h := x])
  }

  /** The steps of a handler when no time passes. */
  lemma IdentifyNow(c: Setup, s: State, h: nat)
    requires SetupOk(c) && AllAlive(s.db.table, s.db.clock) && h < |s.handlers| && s.handlers[h].pc.Fresh?
    ensures var x := s.handlers[h];
            var hw, cid := x.query.message.clientMAC, x.opts.clientIdentifier;
            Next(c, s, Identify(h, s.db.clock))
            == With(s, h, x.(duid := DuidFor(s.db.table, hw, cid), shared := !InternalDuid(s.db.table, hw, cid),
                             pc := PcFor(JobFor(c.self, x.query, x.opts))))
  {
    AtSame(s.db.table, s.db.clock);
  }

  lemma FoundNow(t: Table, r: AddressRanges, now: Time, d: Duid)
    requires AllAlive(t, now) && RangesOk(r) && !SearchDisabled(r) && !HasLease(t, d)
    requires ValidHost(r.dyn.from) && r.dyn.from !in t
    ensures Found(t, r, Quiet(now), Identity(1 + r.dyn.to - r.dyn.from), NIL_IP, d).0 == Some(r.dyn.from)
  {
    AtSame(t, now);
    var perm := Identity(1 + r.dyn.to - r.dyn.from);
    var cs := Candidates(0, 0 in t, r, perm);
    assert !Passes(t, Quiet(now), 1, 0);
    if 0 !in t {
      assert cs[0] == 0 && cs[1] == r.dyn.from;
      FirstPasses(t, now, r.dyn.from, cs[1..], 2);
    } else {
      assert cs[0] == r.dyn.from;
      FirstPasses(t, now, r.dyn.from, cs, 1);
    }
  }

  lemma FirstPasses(t: Table, now: Time, n: u32, cs: seq<u32>, i: nat)
    requires AllAlive(t, now) && ValidHost(n) && n !in t && cs != [] && cs[0] == n && i >= 1
    ensures Search(t, Quiet(now), cs, i).0 == Some(n)
  {
    AtSame(t, now);
  }

  lemma FindNow(c: Setup, s: State, h: nat, n: u32)
    requires SetupOk(c) && AllAlive(s.db.table, s.db.clock) && OneAddressPerDuid(s.db.table)
    requires h < |s.handlers| && s.handlers[h].pc == Finding(NIL_IP) && !SearchDisabled(RangesOf(c))
    requires if HasLease(s.db.table, s.handlers[h].duid) then Holds(s.db.table, n, s.handlers[h].duid)
             else n == c.dyn.from && ValidHost(n) && n !in s.db.table
    ensures var a := Find(h, Quiet(s.db.clock), Identity(1 + c.dyn.to - c.dyn.from));
            Enabled(c, s, a) && Next(c, s, a) == With(s, h, s.handlers[h].(pc := Offering(ToV4(n))))
  {
    var t, d := s.db.table, s.handlers[h].duid;
    AtSame(t, s.db.clock);
    if HasLease(t, d) {
      AddressIsUnique(t, n, d);
    } else {
      FoundNow(t, RangesOf(c), s.db.clock, d);
    }
  }

  lemma ReserveNow(c: Setup, s: State, h: nat, n: u32)
    requires SetupOk(c) && AllAlive(s.db.table, s.db.clock) && h < |s.handlers| && s.handlers[h].pc == Offering(ToV4(n))
    requires c.self.net.from <= n <= c.self.net.to && UpdateAccepted(s.db.table, n, s.handlers[h].duid, OFFER_TIME)
    ensures Next(c, s, Reserve(h, s.db.clock)) == State(Accepted(s.db, n, s.handlers[h].duid, OFFER_TIME),
                                                        s.handlers[h := s.handlers[h].(pc := Offered(ToV4(n)))])
  {
    AtSame(s.db.table, s.db.clock);
    ToV4IsRightInverse(n);
  }

  lemma LookUpNow(c: Setup, s: State, h: nat, n: u32)
    requires SetupOk(c) && AllAlive(s.db.table, s.db.clock) && h < |s.handlers| && s.handlers[h].pc == Looking(ToV4(n))
    requires AddressOf(s.db.table, s.handlers[h].duid) == Some(n)
    ensures Next(c, s, LookUp(h, s.db.clock)) == With(s, h, s.handlers[h].(pc := Probing(ToV4(n))))
  {
    AtSame(s.db.table, s.db.clock);
    EqualIffCanonical(ToV4(n), ToV4(n));
  }

  lemma ConfirmNow(c: Setup, s: State, h: nat, n: u32)
    requires SetupOk(c) && AllAlive(s.db.table, s.db.clock) && h < |s.handlers| && s.handlers[h].pc == Confirming(ToV4(n))
    requires c.self.net.from <= n <= c.self.net.to && UpdateAccepted(s.db.table, n, s.handlers[h].duid, c.leaseDuration)
    ensures Next(c, s, Action.Confirm(h, s.db.clock)) == State(Accepted(s.db, n, s.handlers[h].duid, c.leaseDuration),
                                                               s.handlers[h := s.handlers[h].(pc := Acked(ToV4(n)))])
  {
    AtSame(s.db.table, s.db.clock);
    ToV4IsRightInverse(n);
  }

  /** A server that has started, with a first address to give away. */
  ghost predicate Ready(c: Setup, s: State) {
    Initial(c, s) && !SearchDisabled(RangesOf(c)) && ValidHost(c.dyn.from) && c.dyn.from !in s.db.table
  }

  /** A packet of a client that has no lease: it goes by the identifier `d` that it has sent, and is to be dealt with at `pc`. */
  predicate Newcomer(c: Setup, t: Table, q: Query, d: Duid, pc: Pc) {
    && PcFor(JobFor(c.self, q, Decoded(q.message.options))) == pc
    && Decoded(q.message.options).clientIdentifier == d && |d| == 15 && d[0] == 0xff
    && !HasLease(t, ServerConfig.DuidFromHwAddr(q.message.clientMAC)) && !HasLease(t, d)
  }

  function Received(q: Query, d: Duid, pc: Pc): Handler { Handler(q, Decoded(q.message.options), d, true, pc) }

  /** Its packet is read and identified. */
  lemma Arrives(c: Setup, s: State, run: seq<Action>, u: State, q: Query, d: Duid, pc: Pc) returns (r: seq<Action>)
    requires SetupOk(c) && Leads(c, s, run, u) && AllAlive(u.db.table, u.db.clock)
    requires PcFor(JobFor(c.self, q, Decoded(q.message.options))) == pc
    requires Decoded(q.message.options).clientIdentifier == d && |d| >= 4
    requires !HasLease(u.db.table, ServerConfig.DuidFromHwAddr(q.message.clientMAC))
    ensures Leads(c, s, r, State(u.db, u.handlers + [Received(q, d, pc)]))
    ensures Untouched(run) ==> Untouched(r)
  {
    var u1 := Next(c, u, Receive(q));
    r := Go(c, s, run, u, Receive(q));
    IdentifyNow(c, u1, |u.handlers|);
    r := Go(c, s, r, u1, Identify(|u.handlers|, u.db.clock));
  }

  /** A handler that searches finds its address, and reserves it. */
  lemma Finds(c: Setup, s: State, run: seq<Action>, u: State, h: nat, n: u32) returns (r: seq<Action>)
    requires SetupOk(c) && Leads(c, s, run, u) && AllAlive(u.db.table, u.db.clock) && OneAddressPerDuid(u.db.table)
    requires h < |u.handlers| && u.handlers[h].pc == Finding(NIL_IP) && !SearchDisabled(RangesOf(c))
    requires if HasLease(u.db.table, u.handlers[h].duid) then Holds(u.db.table, n, u.handlers[h].duid)
             else n == c.dyn.from && ValidHost(n) && n !in u.db.table
    ensures Leads(c, s, r, With(u, h, u.handlers[h].(pc := Offering(ToV4(n)))))
    ensures Untouched(run) ==> Untouched(r)
  {
    FindNow(c, u, h, n);
    r := Go(c, s, run, u, Find(h, Quiet(u.db.clock), Identity(1 + c.dyn.to - c.dyn.from)));
  }

  lemma Reserves(c: Setup, s: State, run: seq<Action>, u: State, h: nat, n: u32) returns (r: seq<Action>)
    requires SetupOk(c) && Leads(c, s, run, u) && AllAlive(u.db.table, u.db.clock)
    requires h < |u.handlers| && u.handlers[h].pc == Offering(ToV4(n)) && c.self.net.from <= n <= c.self.net.to
    requires UpdateAccepted(u.db.table, n, u.handlers[h].duid, OFFER_TIME)
    ensures Leads(c, s, r, State(Accepted(u.db, n, u.handlers[h].duid, OFFER_TIME),
                                 u.handlers[h := u.handlers[h].(pc := Offered(ToV4(n)))]))
    ensures Untouched(run) ==> Untouched(r)
  {
    ReserveNow(c, u, h, n);
    r := Go(c, s, run, u, Reserve(h, u.db.clock));
  }

  /** A search and a reservation together. */
  lemma Offers(c: Setup, s: State, run: seq<Action>, u: State, h: nat, n: u32) returns (r: seq<Action>)
    requires SetupOk(c) && Leads(c, s, run, u) && AllAlive(u.db.table, u.db.clock) && OneAddressPerDuid(u.db.table)
    requires h < |u.handlers| && u.handlers[h].pc == Finding(NIL_IP) && !SearchDisabled(RangesOf(c))
    requires if HasLease(u.db.table, u.handlers[h].duid) then Holds(u.db.table, n, u.handlers[h].duid)
             else n == c.dyn.from && ValidHost(n) && n !in u.db.table
    requires c.self.net.from <= n <= c.self.net.to
    ensures Leads(c, s, r, State(Accepted(u.db, n, u.handlers[h].duid, OFFER_TIME),
                                 u.handlers[h := u.handlers[h].(pc := Offered(ToV4(n)))]))
    ensures Untouched(run) ==> Untouched(r)
  {
    r := Finds(c, s, run, u, h, n);
    var v := With(u, h, u.handlers[h].(pc := Offering(ToV4(n))));
    r := Reserves(c, s, r, v, h, n);
    assert v.handlers[h := v.handlers[h].(pc := Offered(ToV4(n)))] == u.handlers[h := u.handlers[h].(pc := Offered(ToV4(n)))];
  }

  lemma Overwritten(c: Setup, s: State, run: seq<Action>, u: State, h: nat, opts: DecodedOptions, d: Duid) returns (r: seq<Action>)
    requires SetupOk(c) && Leads(c, s, run, u) && h < |u.handlers| && |d| == |u.handlers[h].duid|
    requires u.handlers[h].shared && !Ended(u.handlers[h].pc) && !u.handlers[h].pc.Fresh?
    ensures Leads(c, s, r, With(u, h, u.handlers[h].(duid := d))) && r == run + [Overwrite(h, opts, d)]
  {
    r := Go(c, s, run, u, Overwrite(h, opts, d));
  }

  /** What the database says once `d` has been granted the first address for a while. */
  function GrantedTo(c: Setup, db: Database, d: Duid, ttl: Time): Database { Accepted(db, c.dyn.from, d, ttl) }

  lemma GrantedTable(c: Setup, db: Database, d: Duid, ttl: Time)
    requires SetupOk(c) && AllAlive(db.table, db.clock) && OneAddressPerDuid(db.table) && ttl >= 0
    requires UpdateAccepted(db.table, c.dyn.from, d, ttl) && (c.dyn.from in db.table ==> !db.table[c.dyn.from].permanent)
    ensures var n, after := c.dyn.from, GrantedTo(c, db, d, ttl).table;
            && after == db.table[n := Lease(d, db.clock + ttl, false)]
            && AllAlive(after, db.clock) && OneAddressPerDuid(after) && AddressOf(after, d) == Some(n)
            && Holds(after, n, d) && forall e | !HasLease(db.table, e) && e != d :: !HasLease(after, e)
  {
    var n, after := c.dyn.from, GrantedTo(c, db, d, ttl).table;
    UpdateKeepsInvariants(db.table, db.clock, n, d, ttl);
    assert Holds(after, n, d);
    AddressIsUnique(after, n, d);
    forall e | !HasLease(db.table, e) && e != d
      ensures !HasLease(after, e)
    {
      assert forall ip | ip in after :: Holds(after, ip, e) ==> Holds(db.table, ip, e);
    }
  }

  /** The first address is managed, and vacant for a newcomer. */
  lemma FirstIsVacant(c: Setup, s: State, d: Duid)
    requires Ready(c, s) && !HasLease(s.db.table, d)
    ensures c.self.net.from <= c.dyn.from <= c.self.net.to && AllAlive(s.db.table, s.db.clock)
    ensures UpdateAccepted(s.db.table, c.dyn.from, d, OFFER_TIME)
  {
  }

  lemma Starts(c: Setup, s: State) returns (r: seq<Action>)
    requires SetupOk(c)
    ensures r == [] && Leads(c, s, r, s) && Untouched(r)
  {
    r := [];
  }

  /** A discovery from the start: the first address is reserved and offered. */
  lemma Discovered(c: Setup, s: State, q: Query, d: Duid) returns (r: seq<Action>)
    requires Ready(c, s) && Newcomer(c, s.db.table, q, d, Finding(NIL_IP))
    ensures Leads(c, s, r, State(GrantedTo(c, s.db, d, OFFER_TIME), [Received(q, d, Offered(ToV4(c.dyn.from)))]))
    ensures Untouched(r)
  {
    FirstIsVacant(c, s, d);
    r := Starts(c, s);
    r := Arrives(c, s, r, s, q, d, Finding(NIL_IP));
    var u := State(s.db, [Received(q, d, Finding(NIL_IP))]);
    assert s.handlers + u.handlers == u.handlers;
    r := Offers(c, s, r, u, 0, c.dyn.from);
    assert u.handlers[0 := u.handlers[0].(pc := Offered(ToV4(c.dyn.from)))] == [Received(q, d, Offered(ToV4(c.dyn.from)))];
  }

  /** And then a second packet is read and identified. */
  lemma SecondArrives(c: Setup, s: State, q: Query, d: Duid, q2: Query, d2: Duid, pc: Pc) returns (r: seq<Action>)
    requires Ready(c, s) && Newcomer(c, s.db.table, q, d, Finding(NIL_IP)) && Newcomer(c, s.db.table, q2, d2, pc)
    ensures Leads(c, s, r, State(GrantedTo(c, s.db, d, OFFER_TIME),
                                 [Received(q, d, Offered(ToV4(c.dyn.from))), Received(q2, d2, pc)]))
  {
    FirstIsVacant(c, s, d);
    GrantedTable(c, s.db, d, OFFER_TIME);
    r := Discovered(c, s, q, d);
    var first := [Received(q, d, Offered(ToV4(c.dyn.from)))];
    assert ServerConfig.DuidFromHwAddr(q2.message.clientMAC)[0] == 0;
    r := Arrives(c, s, r, State(GrantedTo(c, s.db, d, OFFER_TIME), first), q2, d2, pc);
    assert first + [Received(q2, d2, pc)] == [first[0], Received(q2, d2, pc)];
  }

  /** Two newcomers, one address: from the start of a server, a single read in between offers it to both. */
  lemma TwoClientsOneAddress(c: Setup, s: State, q: Query, d: Duid, q2: Query, d2: Duid) returns (r: seq<Action>, u: State)
    requires Ready(c, s) && d != d2
    requires Newcomer(c, s.db.table, q, d, Finding(NIL_IP)) && Newcomer(c, s.db.table, q2, d2, Finding(NIL_IP))
    ensures Leads(c, s, r, u) && u.db.clock == s.db.clock
    ensures u.handlers == [Received(q, d, Offered(ToV4(c.dyn.from))), Received(q2, d, Offered(ToV4(c.dyn.from)))]
  {
    var ip, db := ToV4(c.dyn.from), GrantedTo(c, s.db, d, OFFER_TIME);
    FirstIsVacant(c, s, d);
    GrantedTable(c, s.db, d, OFFER_TIME);
    r := SecondArrives(c, s, q, d, q2, d2, Finding(NIL_IP));
    u := State(db, [Received(q, d, Offered(ip)), Received(q2, d2, Finding(NIL_IP))]);
    r := Overwritten(c, s, r, u, 1, NOTHING, d);
    u := With(u, 1, Received(q2, d, Finding(NIL_IP)));
    r := Offers(c, s, r, u, 1, c.dyn.from);
    u := State(Accepted(db, c.dyn.from, d, OFFER_TIME), u.handlers[1 := Received(q2, d, Offered(ip))]);
  }

  lemma RefuseNow(c: Setup, s: State, h: nat, g: Grant)
    requires SetupOk(c) && AllAlive(s.db.table, s.db.clock) && OneAddressPerDuid(s.db.table)
    requires h < |s.handlers| && s.handlers[h].pc == Looking(ToV4(g.ip))
    requires Holds(s.db.table, g.ip, g.duid) && s.handlers[h].duid != g.duid
    ensures Next(c, s, LookUp(h, s.db.clock)) == With(s, h, s.handlers[h].(pc := Nacked))
  {
    AtSame(s.db.table, s.db.clock);
    EqualIffCanonical(ToV4(g.ip), ToV4(g.ip));
    OthersAreRefused(s.db.table, g, s.handlers[h].duid, ToV4(g.ip), 0);
  }

  /** From the start of a server, a client asks at once for what it has been offered, and is refused. */
  lemma OfferedAndRefused(c: Setup, s: State, q: Query, q2: Query, d: Duid, e: Duid) returns (r: seq<Action>, u: State)
    requires Ready(c, s) && |e| == 15 && e != d
    requires Newcomer(c, s.db.table, q, d, Finding(NIL_IP)) && Newcomer(c, s.db.table, q2, d, Looking(ToV4(c.dyn.from)))
    ensures Leads(c, s, r, u) && u.db == GrantedTo(c, s.db, d, OFFER_TIME)
    ensures u.handlers == [Received(q, d, Offered(ToV4(c.dyn.from))), Received(q2, e, Nacked)]
  {
    var ip, db := ToV4(c.dyn.from), GrantedTo(c, s.db, d, OFFER_TIME);
    FirstIsVacant(c, s, d);
    GrantedTable(c, s.db, d, OFFER_TIME);
    r := SecondArrives(c, s, q, d, q2, d, Looking(ip));
    u := State(db, [Received(q, d, Offered(ip)), Received(q2, d, Looking(ip))]);
    r := Overwritten(c, s, r, u, 1, NOTHING, e);
    u := With(u, 1, Received(q2, e, Looking(ip)));
    RefuseNow(c, u, 1, Grant(db.clock, c.dyn.from, d, db.clock));
    r := Go(c, s, r, u, LookUp(1, u.db.clock));
    u := With(u, 1, Received(q2, e, Nacked));
  }

  /** A request, from its lookup to the point where it is about to be confirmed. */
  lemma Checks(c: Setup, s: State, run: seq<Action>, u: State, h: nat, n: u32) returns (r: seq<Action>)
    requires SetupOk(c) && Leads(c, s, run, u) && AllAlive(u.db.table, u.db.clock) && OneAddressPerDuid(u.db.table)
    requires h < |u.handlers| && u.handlers[h].pc == Looking(ToV4(n)) && Holds(u.db.table, n, u.handlers[h].duid)
    ensures Leads(c, s, r, With(u, h, u.handlers[h].(pc := Confirming(ToV4(n)))))
    ensures Untouched(run) ==> Untouched(r)
  {
    var x := u.handlers[h];
    AddressIsUnique(u.db.table, n, x.duid);
    LookUpNow(c, u, h, n);
    r := Go(c, s, run, u, LookUp(h, u.db.clock));
    var v := With(u, h, x.(pc := Probing(ToV4(n))));
    r := Go(c, s, r, v, Arp(h, true));
    assert Next(c, v, Arp(h, true)) == With(u, h, x.(pc := Confirming(ToV4(n))));
  }

  /** And to its acknowledgement. */
  lemma Acknowledges(c: Setup, s: State, run: seq<Action>, u: State, h: nat, n: u32) returns (r: seq<Action>)
    requires SetupOk(c) && Leads(c, s, run, u) && AllAlive(u.db.table, u.db.clock) && OneAddressPerDuid(u.db.table)
    requires h < |u.handlers| && u.handlers[h].pc == Looking(ToV4(n)) && c.self.net.from <= n <= c.self.net.to
    requires Holds(u.db.table, n, u.handlers[h].duid)
    ensures Leads(c, s, r, State(Accepted(u.db, n, u.handlers[h].duid, c.leaseDuration),
                                 u.handlers[h := u.handlers[h].(pc := Acked(ToV4(n)))]))
    ensures Untouched(run) ==> Untouched(r)
  {
    var x := u.handlers[h];
    r := Checks(c, s, run, u, h, n);
    var w := With(u, h, x.(pc := Confirming(ToV4(n))));
    ConfirmNow(c, w, h, n);
    r := Go(c, s, r, w, Action.Confirm(h, w.db.clock));
    assert w.handlers[h := x.(pc := Acked(ToV4(n)))] == u.handlers[h := x.(pc := Acked(ToV4(n)))];
  }

  /** What the database says once the offer has been acknowledged. */
  function AckedTo(c: Setup, s: State, d: Duid): Database {
    GrantedTo(c, GrantedTo(c, s.db, d, OFFER_TIME), d, c.leaseDuration)
  }

  lemma AckedTable(c: Setup, s: State, d: Duid)
    requires Ready(c, s) && !HasLease(s.db.table, d)
    ensures var n, after := c.dyn.from, AckedTo(c, s, d).table;
            && n in after && after[n] == Lease(d, s.db.clock + c.leaseDuration, false)
            && AllAlive(after, s.db.clock) && OneAddressPerDuid(after) && Holds(after, n, d) && HasLease(after, d)
            && forall e | !HasLease(s.db.table, e) && e != d :: !HasLease(after, e)
  {
    FirstIsVacant(c, s, d);
    GrantedTable(c, s.db, d, OFFER_TIME);
    GrantedTable(c, GrantedTo(c, s.db, d, OFFER_TIME), d, c.leaseDuration);
  }

  lemma Acknowledged(c: Setup, s: State, q: Query, q2: Query, d: Duid) returns (r: seq<Action>)
    requires Ready(c, s)
    requires Newcomer(c, s.db.table, q, d, Finding(NIL_IP)) && Newcomer(c, s.db.table, q2, d, Looking(ToV4(c.dyn.from)))
    ensures Leads(c, s, r, State(AckedTo(c, s, d), [Received(q, d, Offered(ToV4(c.dyn.from))), Received(q2, d, Acked(ToV4(c.dyn.from)))]))
  {
    var ip, db := ToV4(c.dyn.from), GrantedTo(c, s.db, d, OFFER_TIME);
    FirstIsVacant(c, s, d);
    GrantedTable(c, s.db, d, OFFER_TIME);
    r := SecondArrives(c, s, q, d, q2, d, Looking(ip));
    var u := State(db, [Received(q, d, Offered(ip)), Received(q2, d, Looking(ip))]);
    r := Acknowledges(c, s, r, u, 1, c.dyn.from);
    assert u.handlers[1 := Received(q2, d, Acked(ip))] == [u.handlers[0], Received(q2, d, Acked(ip))];
  }

  /** From the start of a server, an acknowledged lease is cut down to fifteen seconds by the next discovery of its holder. */
  lemma AcknowledgedAndShortened(c: Setup, s: State, q: Query, q2: Query, d: Duid) returns (r: seq<Action>, u: State)
    requires Ready(c, s)
    requires Newcomer(c, s.db.table, q, d, Finding(NIL_IP)) && Newcomer(c, s.db.table, q2, d, Looking(ToV4(c.dyn.from)))
    ensures Leads(c, s, r, u) && u.db == AckedTo(c, s, d)
    ensures |u.handlers| == 3 && u.handlers[1] == Received(q2, d, Acked(ToV4(c.dyn.from)))
    ensures var n, last := c.dyn.from, Reserve(2, s.db.clock);
            && Enabled(c, u, last) && n in u.db.table && n in Next(c, u, last).db.table
            && Next(c, u, last).db.table[n].until == s.db.clock + OFFER_TIME < s.db.clock + c.leaseDuration == u.db.table[n].until
  {
    var n, ip := c.dyn.from, ToV4(c.dyn.from);
    var two := [Received(q, d, Offered(ip)), Received(q2, d, Acked(ip))];
    AckedTable(c, s, d);
    FirstIsVacant(c, s, d);
    r := Acknowledged(c, s, q, q2, d);
    assert ServerConfig.DuidFromHwAddr(q.message.clientMAC)[0] == 0;
    r := Arrives(c, s, r, State(AckedTo(c, s, d), two), q, d, Finding(NIL_IP));
    u := State(AckedTo(c, s, d), two + [Received(q, d, Finding(NIL_IP))]);
    r := Finds(c, s, r, u, 2, n);
    u := With(u, 2, Received(q, d, Offering(ip)));
    ReserveNow(c, u, 2, n);
  }

  /** The clients of this repository send such packets: a discovery, and a request for what they have been offered. */
  lemma ClientsAreNewcomers(c: Setup, t: Table, x: Template)
    requires |x.hwaddr| <= DhcpMsg.MAC_FIELD && x.hwaddr != c.self.mac
    requires To4(c.self.ip) != NIL_IP && Verify.Assignable(c.self.ip) && !Equal(c.self.ip, ToV4(c.dyn.from))
    requires SetupOk(c) && !SearchDisabled(RangesOf(c))
    requires !HasLease(t, ServerConfig.DuidFromHwAddr(x.hwaddr)) && !HasLease(t, Cid(x))
    ensures Newcomer(c, t, DiscoverQuery(x), Cid(x), Finding(NIL_IP))
    ensures Newcomer(c, t, Handshake.RequestQuery(x, ToV4(c.dyn.from), Normal(c.self.ip)), Cid(x), Looking(ToV4(c.dyn.from)))
  {
    DiscoverIsOffered(c, x);
    RequestIsLookedUp(c, x);
  }

  function DiscoverQuery(t: Template): Query {
    Query(Normal(IPV4_ZERO), IPV4_BCAST, DhcpRoundTrip.NormalMessage(RequestMessage(t, MSG_DISCOVER, IPV4_ZERO, NIL_IP, NIL_IP)))
  }

  lemma DiscoverIsOffered(c: Setup, t: Template)
    requires |t.hwaddr| <= DhcpMsg.MAC_FIELD && t.hwaddr != c.self.mac && c.self.ip != NIL_IP
    ensures var q := DiscoverQuery(t);
            && PcFor(JobFor(c.self, q, Decoded(q.message.options))) == Finding(NIL_IP)
            && Decoded(q.message.options).clientIdentifier == Cid(t) && q.message.clientMAC == t.hwaddr
  {
    ClientInterop.BroadcastOnTheWire();
    ClientInterop.DiscoverInterop(c.self, t, 0);
    ClientInterop.RequestHeard(t, 0, MSG_DISCOVER, IPV4_ZERO, IPV4_BCAST, NIL_IP, NIL_IP);
    ClientInterop.RequestDecoded(t, MSG_DISCOVER, NIL_IP, NIL_IP);
  }

  lemma RequestIsLookedUp(c: Setup, t: Template)
    requires |t.hwaddr| <= DhcpMsg.MAC_FIELD && t.hwaddr != c.self.mac && SetupOk(c) && !SearchDisabled(RangesOf(c))
    requires To4(c.self.ip) != NIL_IP && Verify.Assignable(c.self.ip) && !Equal(c.self.ip, ToV4(c.dyn.from))
    ensures var q := Handshake.RequestQuery(t, ToV4(c.dyn.from), Normal(c.self.ip));
            && PcFor(JobFor(c.self, q, Decoded(q.message.options))) == Looking(ToV4(c.dyn.from))
            && Decoded(q.message.options).clientIdentifier == Cid(t) && q.message.clientMAC == t.hwaddr
  {
    var n := c.dyn.from;
    var offer := Verify.Accepted(DiscoverQuery(t).message.(yourIP := ToV4(n)), NOTHING.(serverIdentifier := Normal(c.self.ip)));
    Handshake.RequestAsks(c.self, t, 0, n, offer);
    ClientInterop.RequestDecoded(t, MSG_REQUEST, ToV4(n), Normal(c.self.ip));
  }

  /**
   An overwritten DUID sends an offer astray: a client whose handler is about to search is offered an address
   that is in force for another, if that one's DUID has been read into the place of its own.
   */
  lemma OverwrittenOfferGoesAstray(c: Setup, s: State, h: nat, i: nat, opts: DecodedOptions, w: World, perm: seq<nat>, now: Time)
    returns (run: seq<Action>, u: State)
    requires SetupOk(c) && Sound(s.db) && LogManaged(c.self.net, s.db.log) && i < |s.db.log|
    requires h < |s.handlers| && Enabled(c, s, Find(h, w, perm)) && s.handlers[h].shared
    requires |s.handlers[h].duid| == |s.db.log[i].duid| && s.handlers[h].duid != s.db.log[i].duid
    requires w.now(0) <= now && KeptUntil(s.db.log, i, now)
    ensures run == [Overwrite(h, opts, s.db.log[i].duid), Find(h, w, perm), Reserve(h, now)] && Leads(c, s, run, u)
    ensures h < |u.handlers|
            && u.handlers[h] == s.handlers[h].(duid := s.db.log[i].duid, pc := Offered(ToV4(s.db.log[i].ip)))
  {
    var g := s.db.log[i];
    run := Starts(c, s);
    run := Overwritten(c, s, run, s, h, opts, g.duid);
    u := With(s, h, s.handlers[h].(duid := g.duid));
    run, u := OffersHeld(c, s, run, u, h, i, w, perm, now);
  }

  /** A handler that searches under the DUID of a pair that is kept. */
  lemma OffersHeld(c: Setup, s: State, run: seq<Action>, u: State, h: nat, i: nat, w: World, perm: seq<nat>, now: Time)
    returns (r: seq<Action>, v: State)
    requires SetupOk(c) && Leads(c, s, run, u) && Sound(u.db) && LogManaged(c.self.net, u.db.log) && i < |u.db.log|
    requires h < |u.handlers| && Enabled(c, u, Find(h, w, perm)) && u.handlers[h].duid == u.db.log[i].duid
    requires w.now(0) <= now && KeptUntil(u.db.log, i, now)
    ensures Leads(c, s, r, v) && r == run + [Find(h, w, perm), Reserve(h, now)]
    ensures h < |v.handlers| && v.handlers[h] == u.handlers[h].(pc := Offered(ToV4(u.db.log[i].ip)))
  {
    r, v := FindsHeld(c, s, run, u, h, i, w, perm, now);
    r, v := ReservesHeld(c, s, r, v, h, u.db.log[i], now);
  }

  lemma FindsHeld(c: Setup, s: State, run: seq<Action>, u: State, h: nat, i: nat, w: World, perm: seq<nat>, now: Time)
    returns (r: seq<Action>, v: State)
    requires SetupOk(c) && Leads(c, s, run, u) && Sound(u.db) && i < |u.db.log|
    requires h < |u.handlers| && Enabled(c, u, Find(h, w, perm)) && u.handlers[h].duid == u.db.log[i].duid
    requires w.now(0) <= now && KeptUntil(u.db.log, i, now)
    ensures Leads(c, s, r, v) && r == run + [Find(h, w, perm)]
    ensures h < |v.handlers| && v.handlers[h] == u.handlers[h].(pc := Offering(ToV4(u.db.log[i].ip)))
    ensures v.db.clock == w.now(0) && Holds(At(v.db.table, now), u.db.log[i].ip, u.db.log[i].duid)
  {
    KeptBefore(u.db.log, u.db.log, i, w.now(0), now);
    FindHeld(c, u, h, i, w, perm);
    r := Go(c, s, run, u, Find(h, w, perm));
    v := Next(c, u, Find(h, w, perm));
    KeptIsHeld(u.db, i, now);
    AtAt(u.db.table, w.now(0), now);
  }

  lemma ReservesHeld(c: Setup, s: State, run: seq<Action>, u: State, h: nat, g: Grant, now: Time) returns (r: seq<Action>, v: State)
    requires SetupOk(c) && Leads(c, s, run, u) && h < |u.handlers| && Enabled(c, u, Reserve(h, now))
    requires c.self.net.from <= g.ip <= c.self.net.to
    requires u.handlers[h].pc == Offering(ToV4(g.ip)) && Holds(At(u.db.table, now), g.ip, u.handlers[h].duid)
    ensures Leads(c, s, r, v) && r == run + [Reserve(h, now)]
    ensures h < |v.handlers| && v.handlers[h] == u.handlers[h].(pc := Offered(ToV4(g.ip)))
  {
    ReserveHeld(c, u, h, g, now);
    r := Go(c, s, run, u, Reserve(h, now));
    v := Next(c, u, Reserve(h, now));
  }

  lemma FindHeld(c: Setup, s: State, h: nat, i: nat, w: World, perm: seq<nat>)
    requires SetupOk(c) && Sound(s.db) && i < |s.db.log| && h < |s.handlers| && Enabled(c, s, Find(h, w, perm))
    requires s.handlers[h].duid == s.db.log[i].duid && KeptUntil(s.db.log, i, w.now(0))
    ensures Next(c, s, Find(h, w, perm)) == State(Database(At(s.db.table, w.now(0)), w.now(0), s.db.log),
                                                  s.handlers[h := s.handlers[h].(pc := Offering(ToV4(s.db.log[i].ip)))])
  {
    KeptIsHeld(s.db, i, w.now(0));
    AddressIsUnique(At(s.db.table, w.now(0)), s.db.log[i].ip, s.db.log[i].duid);
  }

  lemma ReserveHeld(c: Setup, s: State, h: nat, g: Grant, now: Time)
    requires SetupOk(c) && h < |s.handlers| && Enabled(c, s, Reserve(h, now)) && c.self.net.from <= g.ip <= c.self.net.to
    requires s.handlers[h].pc == Offering(ToV4(g.ip)) && Holds(At(s.db.table, now), g.ip, s.handlers[h].duid)
    ensures Next(c, s, Reserve(h, now)).handlers[h] == s.handlers[h].(pc := Offered(ToV4(g.ip)))
  {
    ToUipIsExact(c.self.net, ToV4(g.ip), g.ip);
    EqualIffCanonical(ToV4(g.ip), ToV4(g.ip));
  }

  const OWN_MAC: seq<u8> := [2, 0, 0, 0, 0, 1]

  /** A server at 10.0.0.1 that gives away the rest of its own network, and starts with its own entry only. */
  function SomeSetup(): Setup {
    Setup(Self(OWN_MAC, ToV4(0x0a00_0001), Range(0x0a00_0001, 0x0a00_00fe)), Range(0x0a00_0002, 0x0a00_00fe), MINUTE)
  }

  function SomeTable(): Table { map[0x0a00_0001 := Lease(ServerConfig.DuidFromHwAddr(OWN_MAC), 0, true)] }

  function SomeStart(now: Time): State { State(Database(SomeTable(), now, []), []) }

  lemma SomeServerIsReady(now: Time)
    ensures Ready(SomeSetup(), SomeStart(now))
  {
  }

  /** There are such clients: any one with another hardware address. */
  lemma SomeClientIsNew(x: Template)
    requires |x.hwaddr| <= DhcpMsg.MAC_FIELD && x.hwaddr != OWN_MAC
    ensures var c := SomeSetup();
            && Newcomer(c, SomeTable(), DiscoverQuery(x), Cid(x), Finding(NIL_IP))
            && Newcomer(c, SomeTable(), Handshake.RequestQuery(x, ToV4(c.dyn.from), Normal(c.self.ip)), Cid(x), Looking(ToV4(c.dyn.from)))
  {
    OnlyOwnLease(ServerConfig.DuidFromHwAddr(x.hwaddr));
    OnlyOwnLease(Cid(x));
    if ServerConfig.DuidFromHwAddr(x.hwaddr) == ServerConfig.DuidFromHwAddr(OWN_MAC) {
      ServerConfig.DuidFromHwAddrInjective(x.hwaddr, OWN_MAC);
    }
    assert ServerConfig.DuidFromHwAddr(OWN_MAC)[0] == 0;
    OrdinaryAddress(0x0a00_0001);
    EqualToV4(SomeSetup().self.ip, 0x0a00_0002);
    ClientsAreNewcomers(SomeSetup(), SomeTable(), x);
  }

  lemma OnlyOwnLease(d: Duid)
    ensures HasLease(SomeTable(), d) ==> d == ServerConfig.DuidFromHwAddr(OWN_MAC)
  {
  }

  lemma OrdinaryAddress(n: u32)
    requires 0 < n < 0xffff_ffff
    ensures To4(ToV4(n)) != NIL_IP && AsU32(ToV4(n)) == n && Verify.Assignable(ToV4(n))
  {
    ToV4IsRightInverse(n);
    assert IPV4_ZERO == ToV4(0) && IPV4_BCAST == ToV4(0xffff_ffff);
    EqualToV4(ToV4(n), 0);
    EqualToV4(ToV4(n), 0xffff_ffff);
  }
}
