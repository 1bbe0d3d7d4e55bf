/** What holds in every run of a server, in whichever order its handlers take their steps. */
module ServerSafety {
  import opened Bytes
  import opened Keys
  import opened LeaseTable
  import opened Grants
  import opened Handlers
  import opened Ipdb
  import opened Network
  import opened Requests
  import ServerConfig

  /** The grant of an address, as a reply names it. */
  predicate GrantOf(g: Grant, ip: IP, d: Duid) { To4(ip) != NIL_IP && AsU32(ip) == g.ip && d == g.duid }

  predicate WasGranted(log: seq<Grant>, ip: IP, d: Duid) { exists i | 0 <= i < |log| :: GrantOf(log[i], ip, d) }

  /**
   Nobody is told of an address without a grant of it to the DUID that the handler goes by in the end. That is
   the client's own unless it has been overwritten; `Answers.AnswersItsClient` makes up the difference.
   */
  ghost predicate Backed(s: State) {
    forall h | 0 <= h < |s.handlers| ::
      var x := s.handlers[h];
      (x.pc.Offered? || x.pc.Acked?) ==> WasGranted(s.db.log, x.pc.ip, x.duid)
  }

  ghost predicate LogManaged(net: Range, log: seq<Grant>) { forall i | 0 <= i < |log| :: net.from <= log[i].ip <= net.to }

  ghost predicate Safe(c: Setup, s: State, p: Table) {
    && Sound(s.db) && Backed(s) && LogManaged(c.self.net, s.db.log)
    && Fixed(s.db.table, p) && Respects(s.db.log, p)
  }

  lemma DatabaseStep(c: Setup, s: State, a: Action, p: Table)
    requires SetupOk(c) && Enabled(c, s, a) && Safe(c, s, p)
    ensures var db := Next(c, s, a).db;
            Sound(db) && LogManaged(c.self.net, db.log) && Fixed(db.table, p) && Respects(db.log, p)
  {
    var e := EffectOf(c, s, a);
    if e.Some? {
      EffectIsTimely(c, s, a);
      EffectIsSound(s.db, e.value);
      EffectKeepsPermanent(s.db, e.value, p);
      EffectStaysManaged(c, s, a);
    }
  }

  lemma EffectStaysManaged(c: Setup, s: State, a: Action)
    requires SetupOk(c) && Enabled(c, s, a) && LogManaged(c.self.net, s.db.log) && EffectOf(c, s, a).Some?
    ensures LogManaged(c.self.net, Touched(s.db, EffectOf(c, s, a).value).log)
  {
  }

  /** A grant stays in the history. */
  lemma LogGrows(c: Setup, s: State, a: Action)
    requires SetupOk(c) && Enabled(c, s, a)
    ensures s.db.log <= Next(c, s, a).db.log && s.db.clock <= Next(c, s, a).db.clock
    ensures forall ip, d | WasGranted(s.db.log, ip, d) :: WasGranted(Next(c, s, a).db.log, ip, d)
  {
    if EffectOf(c, s, a).Some? {
      EffectIsTimely(c, s, a);
    }
    var before, after := s.db.log, Next(c, s, a).db.log;
    forall ip, d | WasGranted(before, ip, d)
      ensures WasGranted(after, ip, d)
    {
      var i :| 0 <= i < |before| && GrantOf(before[i], ip, d);
      assert GrantOf(after[i], ip, d);
    }
  }

  lemma AnswerIsBacked(c: Setup, s: State, a: Action)
    requires SetupOk(c) && Enabled(c, s, a) && (a.Reserve? || a.Confirm?)
    ensures var x := Moved(c, s, a);
            x.pc.Offered? || x.pc.Acked? ==> WasGranted(Next(c, s, a).db.log, x.pc.ip, x.duid)
  {
    var x := Moved(c, s, a);
    if x.pc.Offered? || x.pc.Acked? {
      var log := Next(c, s, a).db.log;
      assert GrantOf(log[|log| - 1], x.pc.ip, x.duid);
    }
  }

  lemma StepIsSafe(c: Setup, s: State, a: Action, p: Table)
    requires SetupOk(c) && Enabled(c, s, a) && Safe(c, s, p)
    ensures Safe(c, Next(c, s, a), p)
  {
    DatabaseStep(c, s, a, p);
    LogGrows(c, s, a);
    if a.Reserve? || a.Confirm? {
      AnswerIsBacked(c, s, a);
    }
  }

  lemma {:induction false} RunIsSafe(c: Setup, s: State, run: seq<Action>, p: Table)
    requires SetupOk(c) && Possible(c, s, run) && Safe(c, s, p)
    ensures Safe(c, After(c, s, run), p)
    decreases |run|
  {
    if run != [] {
      RunIsSafe(c, s, run[..|run| - 1], p);
      StepIsSafe(c, After(c, s, run[..|run| - 1]), run[|run| - 1], p);
    }
  }

  /**
   In every run: an address granted to one DUID is granted to another, or that DUID granted another address,
   only after the end of the latest grant; offers and acknowledgements have grants; permanent entries stay
   as they are, and nobody else is granted their addresses.
   */
  lemma EveryRunIsSafe(c: Setup, s: State, run: seq<Action>)
    requires Initial(c, s) && Possible(c, s, run)
    ensures var after := After(c, s, run);
            && OneAddressPerDuid(after.db.table) && Exclusive(after.db.log) && Backed(after)
            && Fixed(after.db.table, s.db.table) && Respects(after.db.log, s.db.table)
  {
    assert Safe(c, s, s.db.table);
    RunIsSafe(c, s, run, s.db.table);
  }

  /** For fifteen seconds after a grant the pair is in the table, and exclusively so, in every run. */
  lemma EveryGrantIsReserved(c: Setup, s: State, run: seq<Action>, i: nat)
    requires Initial(c, s) && Possible(c, s, run)
    requires var db := After(c, s, run).db; i < |db.log| && db.clock <= db.log[i].at + OFFER_TIME
    ensures var db := After(c, s, run).db;
            AddressOf(db.table, db.log[i].duid) == Some(db.log[i].ip) && db.table[db.log[i].ip].duid == db.log[i].duid
  {
    var db := After(c, s, run).db;
    assert Safe(c, s, s.db.table);
    RunIsSafe(c, s, run, s.db.table);
    ReservedForOfferTime(db, i, db.clock);
    AtSame(db.table, db.clock);
    AddressIsUnique(db.table, db.log[i].ip, db.log[i].duid);
  }

  /** In every run, a pair whose latest grant is not over is exclusively in the table. */
  lemma EveryLeaseIsKept(c: Setup, s: State, run: seq<Action>, i: nat)
    requires Initial(c, s) && Possible(c, s, run)
    requires var db := After(c, s, run).db; i < |db.log| && LatestBefore(db.log, i, |db.log|) && db.clock <= db.log[i].until
    ensures var db := After(c, s, run).db;
            AddressOf(db.table, db.log[i].duid) == Some(db.log[i].ip) && db.table[db.log[i].ip].duid == db.log[i].duid
  {
    var db := After(c, s, run).db;
    assert Safe(c, s, s.db.table);
    RunIsSafe(c, s, run, s.db.table);
    assert InForce(db.table, db.log[i]);
    AddressIsUnique(db.table, db.log[i].ip, db.log[i].duid);
  }

  lemma KeptBefore(log: seq<Grant>, after: seq<Grant>, i: nat, now: Time, later: Time)
    requires i < |log| && log <= after && now <= later && KeptUntil(after, i, later)
    ensures KeptUntil(log, i, now)
  {
    forall k | i <= k < |log| && SamePair(log[k], log[i])
      ensures now <= log[k].until
    {
      assert SamePair(after[k], after[i]);
    }
  }

  lemma {:induction false} HistoryGrows(c: Setup, s: State, run: seq<Action>)
    requires SetupOk(c) && Possible(c, s, run)
    ensures s.db.log <= After(c, s, run).db.log && s.db.clock <= After(c, s, run).db.clock
    decreases |run|
  {
    if run != [] {
      HistoryGrows(c, s, run[..|run| - 1]);
      LogGrows(c, After(c, s, run[..|run| - 1]), run[|run| - 1]);
    }
  }

  /** An address that a handler is about to touch is one of `p`. */
  predicate Among(p: Table, ip: IP) { To4(ip) != NIL_IP && AsU32(ip) in p }

  predicate HandlerAmong(p: Table, x: Handler) {
    match x.pc
    case Offering(ip) => Among(p, ip)
    case Probing(lease) => Among(p, lease)
    case Confirming(lease) => Among(p, lease)
    case _ => true
  }

  ghost predicate Static(s: State, p: Table) {
    && s.db.table.Keys == p.Keys && Fixed(s.db.table, p)
    && forall h | 0 <= h < |s.handlers| :: HandlerAmong(p, s.handlers[h])
  }

  lemma FoundIsAmong(t: Table, now: Time, p: Table, d: Duid)
    requires t.Keys == p.Keys && Fixed(t, p)
    ensures AddressOf(At(t, now), d).Some? ==> Among(p, ToV4(AddressOf(At(t, now), d).value))
  {
    var a := AddressOf(At(t, now), d);
    if a.Some? {
      ToV4IsRightInverse(a.value);
      assert Holds(t, a.value, d);
    }
  }

  lemma StaticTable(t: Table, now: Time, p: Table)
    requires t.Keys == p.Keys && Fixed(t, p)
    ensures At(t, now) == t
  {
    forall ip | ip in t
      ensures AliveAt(t[ip], now)
    {
      assert ip in p;
    }
  }

  lemma StaticEffect(db: Database, e: Effect, p: Table)
    requires db.table.Keys == p.Keys && Fixed(db.table, p)
    requires e.Update? ==> e.ip in p
    ensures Touched(db, e).table.Keys == p.Keys && Fixed(Touched(db, e).table, p)
  {
    StaticTable(db.table, e.now, p);
    if e.Update? {
      assert Holds(db.table, e.ip, p[e.ip].duid) && db.table[e.ip].permanent;
    }
  }

  lemma StepStaysStatic(c: Setup, s: State, a: Action, p: Table)
    requires SetupOk(c) && Enabled(c, s, a) && SearchDisabled(RangesOf(c)) && Static(s, p)
    ensures Static(Next(c, s, a), p)
  {
    var e := EffectOf(c, s, a);
    if !a.Receive? {
      assert HandlerAmong(p, s.handlers[a.h]);
    }
    if e.Some? {
      StaticEffect(s.db, e.value, p);
    }
    if a.LookUp? {
      FoundIsAmong(s.db.table, a.now, p, s.handlers[a.h].duid);
    } else if a.Find? {
      FoundIsAmong(s.db.table, a.world.now(0), p, s.handlers[a.h].duid);
    }
    if !a.Receive? {
      assert HandlerAmong(p, Moved(c, s, a));
    }
  }

  /** With `static_only`, the pairs in the table are the same permanent ones in every run. */
  lemma {:induction false} StaticOnly(c: Setup, s: State, run: seq<Action>)
    requires Initial(c, s) && Possible(c, s, run) && SearchDisabled(RangesOf(c))
    ensures Static(After(c, s, run), s.db.table)
    ensures var t := After(c, s, run).db.table;
            t.Keys == s.db.table.Keys && forall ip | ip in t :: t[ip].duid == s.db.table[ip].duid && t[ip].permanent
    decreases |run|
  {
    if run != [] {
      StaticOnly(c, s, run[..|run| - 1]);
      StepStaysStatic(c, After(c, s, run[..|run| - 1]), run[|run| - 1], s.db.table);
    }
    StaticPairs(After(c, s, run).db.table, s.db.table);
  }

  lemma StaticPairs(t: Table, p: Table)
    requires t.Keys == p.Keys && Fixed(t, p)
    ensures forall ip | ip in t :: ip in p && t[ip].duid == p[ip].duid && t[ip].permanent
  {
    forall ip | ip in t
      ensures ip in p && t[ip].duid == p[ip].duid && t[ip].permanent
    {
      assert Holds(t, ip, p[ip].duid);
    }
  }

  /** The entries of `p` are what every lookup finds, at any time. */
  lemma FixedIsFound(t: Table, now: Time, p: Table, ip: u32)
    requires OneAddressPerDuid(t) && Fixed(t, p) && ip in p
    ensures Holds(At(t, now), ip, p[ip].duid) && AddressOf(At(t, now), p[ip].duid) == Some(ip)
  {
    assert Holds(t, ip, p[ip].duid);
    AddressIsUnique(At(t, now), ip, p[ip].duid);
  }

  /**
   In every run, a client with a static entry is known by its hardware address whatever identifier it sends,
   is offered its own address, and is never refused it.
   */
  lemma StaticClientKeepsItsAddress(c: Setup, s: State, run: seq<Action>, hw: seq<u8>, ip: u32, cid: seq<u8>, now: Time)
    requires Initial(c, s) && Possible(c, s, run) && Holds(s.db.table, ip, ServerConfig.DuidFromHwAddr(hw))
    ensures var t, d := At(After(c, s, run).db.table, now), ServerConfig.DuidFromHwAddr(hw);
            && DuidFor(t, hw, cid) == d
            && AddressOf(t, d) == Some(ip)
            && forall ttl: Time :: UpdateAccepted(t, ip, d, ttl)
  {
    EveryRunIsSafe(c, s, run);
    FixedIsFound(After(c, s, run).db.table, now, s.db.table, ip);
  }

  /** No run grants the server's own address to anyone but the server's internal DUID. */
  lemma OwnAddressIsNeverGranted(c: Setup, s: State, run: seq<Action>, own: u32, d: Duid)
    requires Initial(c, s) && Possible(c, s, run)
    requires Holds(s.db.table, own, ServerConfig.DuidFromHwAddr(c.self.mac)) && d != ServerConfig.DuidFromHwAddr(c.self.mac)
    ensures !WasGranted(After(c, s, run).db.log, ToV4(own), d)
    ensures Holds(After(c, s, run).db.table, own, ServerConfig.DuidFromHwAddr(c.self.mac))
  {
    EveryRunIsSafe(c, s, run);
    ToV4IsRightInverse(own);
  }

  /** No lease runs for longer than the server grants. */
  predicate LeasesBounded(c: Setup, db: Database) {
    forall ip | ip in db.table && !db.table[ip].permanent :: db.table[ip].until <= db.clock + c.leaseDuration
  }

  lemma StepKeepsBounded(c: Setup, s: State, a: Action)
    requires SetupOk(c) && Enabled(c, s, a) && LeasesBounded(c, s.db)
    ensures LeasesBounded(c, Next(c, s, a).db)
  {
    if EffectOf(c, s, a).Some? {
      EffectIsTimely(c, s, a);
    }
  }

  lemma {:induction false} LeasesStayBounded(c: Setup, s: State, run: seq<Action>)
    requires Initial(c, s) && Possible(c, s, run)
    ensures LeasesBounded(c, After(c, s, run).db)
    decreases |run|
  {
    if run != [] {
      LeasesStayBounded(c, s, run[..|run| - 1]);
      StepKeepsBounded(c, After(c, s, run[..|run| - 1]), run[|run| - 1]);
    }
  }

  /** The step reserves an address for the DUID that holds it. */
  predicate Reoffers(c: Setup, s: State, a: Action, ip: u32)
    requires ip in s.db.table && (a.Reserve? ==> a.h < |s.handlers| && s.handlers[a.h].pc.Offering?)
  {
    a.Reserve? && ToUip(c.self.net, s.handlers[a.h].pc.ip) == Some(ip) && s.handlers[a.h].duid == s.db.table[ip].duid
  }

  /**
   An acknowledged lease can be cut short. No step does so but an offer to its holder, and that one exactly
   if the lease has more than fifteen seconds to run.
   */
  lemma OfferResetsLease(c: Setup, s: State, a: Action, ip: u32)
    requires SetupOk(c) && Enabled(c, s, a) && OneAddressPerDuid(s.db.table) && LeasesBounded(c, s.db)
    requires ip in s.db.table && !s.db.table[ip].permanent && AliveAt(s.db.table[ip], Next(c, s, a).db.clock)
    ensures var before, after := s.db.table, Next(c, s, a).db.table;
            && ip in after && after[ip].duid == before[ip].duid
            && (after[ip].until < before[ip].until <==> Reoffers(c, s, a, ip) && a.now + OFFER_TIME < before[ip].until)
  {
    if EffectOf(c, s, a).Some? {
      EffectIsTimely(c, s, a);
    }
  }

  /** A handler is doing, or has done, what the options ask for that it has read. */
  predicate Matches(self: Self, x: Handler) {
    var job := JobFor(self, x.query, x.opts);
    match x.pc
    case Fresh => true
    case Finding(suggestion) => job == Job.Offer(suggestion)
    case Offering(_) => job.Offer?
    case Offered(_) => job.Offer?
    case Looking(desired) => job.Confirm? && job.desired == desired
    case Probing(lease) => job.Confirm? && Equal(job.desired, lease)
    case Confirming(lease) => job.Confirm? && Equal(job.desired, lease)
    case Acked(ip) => job.Confirm? && Equal(job.desired, ip)
    case Nacked => job.Confirm?
    case Dropped => true
  }

  ghost predicate AllMatch(c: Setup, s: State) { forall h | 0 <= h < |s.handlers| :: Matches(c.self, s.handlers[h]) }

  lemma MovedMatches(c: Setup, s: State, a: Action)
    requires SetupOk(c) && Enabled(c, s, a) && !a.Receive? && Matches(c.self, s.handlers[a.h])
    ensures Matches(c.self, Moved(c, s, a))
  {
  }

  lemma StepMatches(c: Setup, s: State, a: Action)
    requires SetupOk(c) && Enabled(c, s, a) && AllMatch(c, s)
    ensures AllMatch(c, Next(c, s, a))
  {
    if !a.Receive? {
      assert Matches(c.self, s.handlers[a.h]);
      MovedMatches(c, s, a);
    }
  }

  /**
   In every run, by the options that its handler has read, an offer answers a discovery, a refusal answers a
   request, and an acknowledgement answers a request for the very address that it names.
   */
  lemma {:induction false} EveryAnswerMatches(c: Setup, s: State, run: seq<Action>)
    requires Initial(c, s) && Possible(c, s, run)
    ensures AllMatch(c, After(c, s, run))
    decreases |run|
  {
    if run != [] {
      EveryAnswerMatches(c, s, run[..|run| - 1]);
      StepMatches(c, After(c, s, run[..|run| - 1]), run[|run| - 1]);
    }
  }
}
