/** What becomes of the discovery of a client that has an address: when it is offered that one, in every run. */
module Discoveries {
  import opened Answers
  import opened Bytes
  import opened Grants
  import opened Handlers
  import opened Ipdb
  import opened Keys
  import opened LeaseTable
  import opened Network
  import opened Options
  import opened Requests
  import opened ServerSafety

  /** A printed address. */
  predicate Printed(ip: IP) { To4(ip) != NIL_IP && ip == ToV4(AsU32(ip)) }

  /**
   How far a discovery has come. It has the granted address if every access to the database has been a proper
   one, and otherwise another address, or none.
   */
  predicate Searched(y: Handler, g: Grant, proper: bool) {
    match y.pc
    case Finding(_) => proper
    case Offering(ip) => Printed(ip) && (ip == ToV4(g.ip) <==> proper)
    case Offered(ip) => ip == ToV4(g.ip) <==> proper
    case Dropped => !proper
    case _ => false
  }

  /** A pair that is held throughout a search is found under its own DUID and under no other. */
  lemma OwnIsFound(t: Table, r: AddressRanges, w: World, perm: seq<nat>, ip: IP, d: Duid, g: Grant)
    requires RangesOk(r) && (!SearchDisabled(r) ==> IsPermutation(perm, 1 + r.dyn.to - r.dyn.from))
    requires OneAddressPerDuid(t) && forall j: nat | j <= Found(t, r, w, perm, ip, d).1 :: Holds(At(t, w.now(j)), g.ip, g.duid)
    ensures Found(t, r, w, perm, ip, d).0 == Some(g.ip) <==> d == g.duid
  {
    var (found, last) := Found(t, r, w, perm, ip, d);
    FindIPSound(t, r, w, perm, ip, d);
    assert Holds(At(t, w.now(0)), g.ip, g.duid) && Holds(At(t, w.now(last)), g.ip, g.duid);
    if d == g.duid {
      AddressIsUnique(At(t, w.now(0)), g.ip, d);
    }
  }

  lemma FindStep(c: Setup, s: State, a: Action, i: nat)
    requires SetupOk(c) && Enabled(c, s, a) && Sound(s.db) && a.Find? && i < |s.db.log|
    requires KeptUntil(s.db.log, i, Next(c, s, a).db.clock)
    ensures Searched(Moved(c, s, a), s.db.log[i], s.handlers[a.h].duid == s.db.log[i].duid)
  {
    var x, g, w := s.handlers[a.h], s.db.log[i], a.world;
    var (found, last) := Found(s.db.table, RangesOf(c), w, a.perm, x.pc.suggestion, x.duid);
    forall j: nat | j <= last
      ensures Holds(At(s.db.table, w.now(j)), g.ip, g.duid)
    {
      assert s.db.clock <= w.now(0) <= w.now(j) <= w.now(last);
      KeptBefore(s.db.log, s.db.log, i, w.now(j), w.now(last));
      KeptIsHeld(s.db, i, w.now(j));
    }
    OwnIsFound(s.db.table, RangesOf(c), w, a.perm, x.pc.suggestion, x.duid, g);
    if found.Some? {
      ToV4IsRightInverse(found.value);
      ToV4IsRightInverse(g.ip);
    }
  }

  /** A pair that is held is updated under its own DUID, and neither half of it under another one. */
  lemma OwnIsReserved(t: Table, net: Range, g: Grant, ip: IP, d: Duid)
    requires OneAddressPerDuid(t) && Holds(t, g.ip, g.duid) && net.from <= g.ip <= net.to && Printed(ip)
    ensures var n := ToUip(net, ip);
            (n.Some? && UpdateAccepted(t, n.value, d, OFFER_TIME)) ==> (ip == ToV4(g.ip) <==> d == g.duid)
    ensures ip == ToV4(g.ip) && d == g.duid ==> ToUip(net, ip) == Some(g.ip) && UpdateAccepted(t, g.ip, d, OFFER_TIME)
  {
    ToV4IsRightInverse(g.ip);
    ToUipIsExact(net, ip, AsU32(ip));
    EqualIffCanonical(ip, ip);
  }

  lemma ReserveStep(c: Setup, s: State, a: Action, i: nat, proper: bool)
    requires SetupOk(c) && Enabled(c, s, a) && Sound(s.db) && LogManaged(c.self.net, s.db.log) && a.Reserve? && i < |s.db.log|
    requires Searched(s.handlers[a.h], s.db.log[i], proper) && KeptUntil(s.db.log, i, a.now)
    ensures Searched(Moved(c, s, a), s.db.log[i], proper && s.handlers[a.h].duid == s.db.log[i].duid)
  {
    KeptIsHeld(s.db, i, a.now);
    OwnIsReserved(At(s.db.table, a.now), c.self.net, s.db.log[i], s.handlers[a.h].pc.ip, s.handlers[a.h].duid);
  }

  /** One step of a discovery, according to that step alone. */
  lemma SearchedStep(c: Setup, s: State, a: Action, h: nat, i: nat, proper: bool)
    requires SetupOk(c) && Enabled(c, s, a) && Sound(s.db) && LogManaged(c.self.net, s.db.log)
    requires h < |s.handlers| && i < |s.db.log| && Searched(s.handlers[h], s.db.log[i], proper)
    requires KeptUntil(s.db.log, i, Next(c, s, a).db.clock)
    ensures h < |Next(c, s, a).handlers|
    ensures Searched(Next(c, s, a).handlers[h], s.db.log[i], proper && Proper(a, h, s.handlers[h].duid, s.db.log[i].duid))
  {
    StepKeepsQuery(c, s, a, h);
    if !a.Receive? && a.h == h {
      if a.Find? {
        FindStep(c, s, a, i);
      } else if a.Reserve? {
        ReserveStep(c, s, a, i, proper);
      }
    }
  }

  /** How far a discovery of this client has come in a run. */
  predicate Progressed(x: Handler, y: Handler, g: Grant, run: seq<Action>, h: nat) {
    y.query == x.query && y.duid == LastWritten(run, h, g.duid) && Searched(y, g, AllProper(run, h, g.duid))
  }

  lemma ProgressedStep(c: Setup, s: State, before: State, run: seq<Action>, h: nat, i: nat)
    requires SetupOk(c) && |run| > 0 && Enabled(c, before, run[|run| - 1])
    requires Sound(before.db) && LogManaged(c.self.net, before.db.log)
    requires h < |s.handlers| && i < |s.db.log| && s.db.log <= before.db.log
    requires h < |before.handlers| && Progressed(s.handlers[h], before.handlers[h], s.db.log[i], run[..|run| - 1], h)
    requires KeptUntil(before.db.log, i, Next(c, before, run[|run| - 1]).db.clock)
    ensures h < |Next(c, before, run[|run| - 1]).handlers|
    ensures Progressed(s.handlers[h], Next(c, before, run[|run| - 1]).handlers[h], s.db.log[i], run, h)
  {
    var a := run[|run| - 1];
    StepKeepsQuery(c, before, a, h);
    SearchedStep(c, before, a, h, i, AllProper(run[..|run| - 1], h, s.db.log[i].duid));
  }

  /**
   While no grant of its pair is over, a discovery under the DUID of a grant that has ended is an offer of the
   granted address if and only if the DUID read as it should at the search and at the reservation. Otherwise it is
   dropped, or an offer of another address. This holds in every interleaving, so a client that comes back is
   offered its own address.
   */
  lemma {:induction false} OfferIsOwnIff(c: Setup, s: State, run: seq<Action>, h: nat, i: nat, p: Table)
    requires SetupOk(c) && Possible(c, s, run) && Safe(c, s, p)
    requires h < |s.handlers| && i < |s.db.log| && s.handlers[h].pc.Finding? && s.handlers[h].duid == s.db.log[i].duid
    requires s.db.log <= After(c, s, run).db.log && KeptUntil(After(c, s, run).db.log, i, After(c, s, run).db.clock)
    ensures h < |After(c, s, run).handlers|
    ensures Progressed(s.handlers[h], After(c, s, run).handlers[h], s.db.log[i], run, h)
    ensures var pc, g := After(c, s, run).handlers[h].pc, s.db.log[i];
            Ended(pc) ==> (pc.Offered? || pc.Dropped?) && (pc == Offered(ToV4(g.ip)) <==> AllProper(run, h, g.duid))
    decreases |run|
  {
    if |run| > 0 {
      KeptEarlier(c, s, run, i);
      OfferIsOwnIff(c, s, run[..|run| - 1], h, i, p);
      RunIsSafe(c, s, run[..|run| - 1], p);
      ProgressedStep(c, s, After(c, s, run[..|run| - 1]), run, h, i);
    }
  }

  /** For fifteen seconds after a grant, all this holds of itself. */
  lemma ReservedOfferIsOwnIff(c: Setup, s: State, run: seq<Action>, h: nat, i: nat, p: Table)
    requires SetupOk(c) && Possible(c, s, run) && Safe(c, s, p)
    requires h < |s.handlers| && i < |s.db.log| && s.handlers[h].pc.Finding? && s.handlers[h].duid == s.db.log[i].duid
    requires After(c, s, run).db.clock <= s.db.log[i].at + OFFER_TIME
    ensures h < |After(c, s, run).handlers|
    ensures var pc, g := After(c, s, run).handlers[h].pc, s.db.log[i];
            Ended(pc) ==> (pc.Offered? || pc.Dropped?) && (pc == Offered(ToV4(g.ip)) <==> AllProper(run, h, g.duid))
  {
    ReservedInRun(c, s, run, i, p);
    OfferIsOwnIff(c, s, run, h, i, p);
  }

  /** What a discovery has come to since it was read: identified, it finds the address if it goes by its DUID. */
  predicate Sought(y: Handler, q: Query, g: Grant) {
    && y.query == q
    && if y.pc.Fresh? then y.opts == Decoded(q.message.options)
       else y.pc.Finding? || Searched(y, g, y.duid == g.duid)
  }

  lemma SoughtStep(c: Setup, s: State, a: Action, h: nat, i: nat, q: Query)
    requires SetupOk(c) && Enabled(c, s, a) && Calm(a, h) && Sound(s.db) && LogManaged(c.self.net, s.db.log)
    requires h < |s.handlers| && i < |s.db.log| && Sought(s.handlers[h], q, s.db.log[i])
    requires PcFor(JobFor(c.self, q, Decoded(q.message.options))).Finding?
    requires KeptUntil(s.db.log, i, Next(c, s, a).db.clock)
    ensures h < |Next(c, s, a).handlers| && Sought(Next(c, s, a).handlers[h], q, s.db.log[i])
  {
    StepKeepsQuery(c, s, a, h);
    if s.handlers[h].pc.Finding? {
      if a.Find? && a.h == h {
        FindStep(c, s, a, i);
      }
    } else if !s.handlers[h].pc.Fresh? {
      SearchedStep(c, s, a, h, i, s.handlers[h].duid == s.db.log[i].duid);
    }
  }

  /** The same, with the step that has identified it. */
  ghost predicate SoughtSince(c: Setup, s: State, run: seq<Action>, h: nat, j: nat, y: Handler, q: Query, g: Grant)
    requires SetupOk(c)
  {
    Sought(y, q, g) && (!y.pc.Fresh? ==> Recognised(c, s, run, h, j, q, g.duid, y.duid == g.duid))
  }

  lemma SoughtSinceStep(c: Setup, s: State, run: seq<Action>, h: nat, j: nat, a: Action, t: State, i: nat, q: Query) returns (k: nat)
    requires SetupOk(c) && Possible(c, s, run) && After(c, s, run) == t && Enabled(c, t, a) && Calm(a, h)
    requires Sound(t.db) && LogManaged(c.self.net, t.db.log) && h < |t.handlers| && i < |t.db.log|
    requires SoughtSince(c, s, run, h, j, t.handlers[h], q, t.db.log[i])
    requires PcFor(JobFor(c.self, q, Decoded(q.message.options))).Finding?
    requires KeptUntil(t.db.log, i, Next(c, t, a).db.clock)
    ensures h < |Next(c, t, a).handlers| && SoughtSince(c, s, run + [a], h, k, Next(c, t, a).handlers[h], q, t.db.log[i])
  {
    var d := t.db.log[i].duid;
    k := j;
    SoughtStep(c, t, a, h, i, q);
    if !t.handlers[h].pc.Fresh? {
      StepKeepsQuery(c, t, a, h);
      RecognisedBefore(c, s, run, h, j, q, d, t.handlers[h].duid == d, a);
    } else if Identifies(a, h) {
      RecognisedNow(c, s, run, h, a, t, i);
      k := |run|;
    } else {
      StepKeepsFresh(c, t, a, h);
    }
  }

  lemma {:induction false} DiscoveryIsServed(c: Setup, s: State, run: seq<Action>, h: nat, i: nat, p: Table, q: Query) returns (j: nat)
    requires SetupOk(c) && Possible(c, s, run) && Safe(c, s, p) && h < |s.handlers| && i < |s.db.log|
    requires s.handlers[h].pc.Fresh? && Sought(s.handlers[h], q, s.db.log[i])
    requires PcFor(JobFor(c.self, q, Decoded(q.message.options))).Finding?
    requires forall k | 0 <= k < |run| :: Calm(run[k], h)
    requires s.db.log <= After(c, s, run).db.log && KeptUntil(After(c, s, run).db.log, i, After(c, s, run).db.clock)
    ensures h < |After(c, s, run).handlers| && SoughtSince(c, s, run, h, j, After(c, s, run).handlers[h], q, s.db.log[i])
    decreases |run|
  {
    j := 0;
    if |run| > 0 {
      var init, a := run[..|run| - 1], run[|run| - 1];
      LastApart(run);
      KeptEarlier(c, s, run, i);
      j := DiscoveryIsServed(c, s, init, h, i, p, q);
      RunIsSafe(c, s, init, p);
      j := SoughtSinceStep(c, s, init, h, j, a, After(c, s, init), i, q);
    }
  }

  /**
   From the packet to its answer: an untouched discovery is answered with the granted address if and only if its
   client is known under the DUID of the grant when it is identified.
   */
  lemma FreshDiscoveryIsOffered(c: Setup, s: State, run: seq<Action>, h: nat, i: nat, p: Table, q: Query) returns (j: nat)
    requires SetupOk(c) && Possible(c, s, run) && Safe(c, s, p) && h < |s.handlers| && i < |s.db.log|
    requires s.handlers[h].pc.Fresh? && s.handlers[h].query == q && s.handlers[h].opts == Decoded(q.message.options)
    requires PcFor(JobFor(c.self, q, Decoded(q.message.options))).Finding?
    requires forall k | 0 <= k < |run| :: Calm(run[k], h)
    requires s.db.log <= After(c, s, run).db.log && KeptUntil(After(c, s, run).db.log, i, After(c, s, run).db.clock)
    ensures h < |After(c, s, run).handlers| && After(c, s, run).handlers[h].query == q
    ensures var y, g := After(c, s, run).handlers[h], s.db.log[i];
            Ended(y.pc) ==>
              && j < |run| && Possible(c, s, run[..j]) && Identifies(run[j], h)
              && (y.pc.Offered? || y.pc.Dropped?)
              && (y.pc == Offered(ToV4(g.ip)) <==> KnownAt(c, s, run, j, q, g.duid))
  {
    j := DiscoveryIsServed(c, s, run, h, i, p, q);
  }
}
