/** What becomes of a single handler in every run: whom it answers, and when a request ends acknowledged. */
module Answers {
  import opened Bytes
  import opened Keys
  import opened LeaseTable
  import opened Grants
  import opened Handlers
  import opened Network
  import opened Options
  import opened Requests
  import opened ServerConfig
  import opened ServerSafety

  /** A step of the system leaves the packet of a handler alone, and a handler that has ended altogether. */
  lemma StepKeepsQuery(c: Setup, s: State, a: Action, h: nat)
    requires SetupOk(c) && Enabled(c, s, a) && h < |s.handlers|
    ensures h < |Next(c, s, a).handlers|
    ensures var x, y := s.handlers[h], Next(c, s, a).handlers[h];
            && y.query == x.query
            && (Ended(x.pc) || a.Receive? || a.h != h ==> y == x)
            && (!x.pc.Fresh? ==> y.opts == x.opts && y.shared == x.shared && !y.pc.Fresh?)
            && (!x.pc.Fresh? ==> y.duid == if Overwrites(a, h) then a.duid else x.duid)
  {
  }

  predicate Overwrites(a: Action, h: nat) { a.Overwrite? && a.h == h }

  /** The options that a run leaves under a handler that is not identified yet. */
  function LastRead(run: seq<Action>, h: nat, opts: DecodedOptions): DecodedOptions
    decreases |run|
  {
    if |run| == 0 then opts
    else if Overwrites(run[|run| - 1], h) then run[|run| - 1].opts
    else LastRead(run[..|run| - 1], h, opts)
  }

  /** The DUID that a run leaves in the hands of a handler. */
  function LastWritten(run: seq<Action>, h: nat, d: Duid): Duid
    decreases |run|
  {
    if |run| == 0 then d
    else if Overwrites(run[|run| - 1], h) then run[|run| - 1].duid
    else LastWritten(run[..|run| - 1], h, d)
  }

  lemma {:induction false} NothingWritten(run: seq<Action>, h: nat, opts: DecodedOptions, d: Duid)
    requires forall k | 0 <= k < |run| :: !Overwrites(run[k], h)
    ensures LastRead(run, h, opts) == opts && LastWritten(run, h, d) == d
    decreases |run|
  {
    if |run| > 0 {
      NothingWritten(run[..|run| - 1], h, opts, d);
    }
  }

  /** A packet that is yet to come has no options in the buffer. */
  lemma {:induction false} NotReadYet(c: Setup, s: State, run: seq<Action>, h: nat, opts: DecodedOptions)
    requires SetupOk(c) && Possible(c, s, run) && h >= |After(c, s, run).handlers|
    ensures LastRead(run, h, opts) == opts
    decreases |run|
  {
    if |run| > 0 {
      NotReadYet(c, s, run[..|run| - 1], h, opts);
    }
  }

  lemma LastApart(run: seq<Action>)
    requires |run| > 0
    ensures run == run[..|run| - 1] + [run[|run| - 1]]
  {
  }

  predicate Identifies(a: Action, h: nat) { a.Identify? && a.h == h }

  /** The DUID that a packet with these options gets when it is identified now. */
  function DuidAt(s: State, now: Time, q: Query, opts: DecodedOptions): Duid {
    DuidFor(At(s.db.table, now), q.message.clientMAC, opts.clientIdentifier)
  }

  /** The handler has been identified by the step `run[j]`, and what it goes by has been written last in this run. */
  ghost predicate IdentifiedBy(c: Setup, s: State, run: seq<Action>, h: nat, j: nat, x: Handler)
    requires SetupOk(c)
  {
    && j < |run| && Possible(c, s, run[..j]) && Identifies(run[j], h)
    && x.opts == LastRead(run[..j], h, Decoded(x.query.message.options))
    && x.duid == LastWritten(run[j + 1..], h, DuidAt(After(c, s, run[..j]), run[j].now, x.query, x.opts))
  }

  lemma IdentifiedNow(c: Setup, s: State, run: seq<Action>, h: nat, a: Action, t: State)
    requires SetupOk(c) && Possible(c, s, run) && After(c, s, run) == t && Enabled(c, t, a) && Identifies(a, h)
    requires t.handlers[h].opts == LastRead(run, h, Decoded(t.handlers[h].query.message.options))
    ensures IdentifiedBy(c, s, run + [a], h, |run|, Next(c, t, a).handlers[h])
  {
    assert (run + [a])[..|run|] == run && (run + [a])[|run| + 1..] == [];
  }

  lemma WrittenSince(run: seq<Action>, a: Action, h: nat, j: nat, d: Duid)
    requires j < |run|
    ensures (run + [a])[..j] == run[..j] && (run + [a])[j] == run[j]
    ensures LastWritten((run + [a])[j + 1..], h, d) == if Overwrites(a, h) then a.duid else LastWritten(run[j + 1..], h, d)
  {
    assert (run + [a])[j + 1..] == run[j + 1..] + [a];
    assert (run[j + 1..] + [a])[..|run[j + 1..]|] == run[j + 1..];
  }

  lemma IdentifiedBefore(c: Setup, s: State, run: seq<Action>, h: nat, a: Action, j: nat, x: Handler, y: Handler)
    requires SetupOk(c) && IdentifiedBy(c, s, run, h, j, x)
    requires y.query == x.query && y.opts == x.opts && y.duid == if Overwrites(a, h) then a.duid else x.duid
    ensures IdentifiedBy(c, s, run + [a], h, j, y)
  {
    WrittenSince(run, a, h, j, DuidAt(After(c, s, run[..j]), run[j].now, x.query, x.opts));
  }

  /** A handler that is not identified yet has the options of its packet, or those read into their place. */
  lemma StepKeepsFresh(c: Setup, s: State, a: Action, h: nat)
    requires SetupOk(c) && Enabled(c, s, a) && h < |Next(c, s, a).handlers| && !Identifies(a, h)
    requires h < |s.handlers| ==> s.handlers[h].pc.Fresh?
    ensures var y := Next(c, s, a).handlers[h];
            && y.pc.Fresh?
            && if h < |s.handlers| then
                 y.query == s.handlers[h].query && y.opts == if Overwrites(a, h) then a.opts else s.handlers[h].opts
               else !Overwrites(a, h) && y.opts == Decoded(y.query.message.options)
  {
  }

  /**
   In every run, what a handler goes by: the options that were read last before it was identified, its own
   unless the buffer has been overwritten, and the DUID that was written last since.
   */
  lemma {:induction false} IdentityOf(c: Setup, s: State, run: seq<Action>, h: nat) returns (j: nat)
    requires Initial(c, s) && Possible(c, s, run) && h < |After(c, s, run).handlers|
    ensures var x := After(c, s, run).handlers[h];
            if x.pc.Fresh? then x.opts == LastRead(run, h, Decoded(x.query.message.options))
            else IdentifiedBy(c, s, run, h, j, x)
    decreases |run|
  {
    j := 0;
    if run != [] {
      var init, a := run[..|run| - 1], run[|run| - 1];
      var before := After(c, s, init);
      LastApart(run);
      if h < |before.handlers| {
        j := IdentityOf(c, s, init, h);
      } else {
        NotReadYet(c, s, init, h, Decoded(After(c, s, run).handlers[h].query.message.options));
      }
      if h < |before.handlers| && !before.handlers[h].pc.Fresh? {
        StepKeepsQuery(c, before, a, h);
        IdentifiedBefore(c, s, init, h, a, j, before.handlers[h], After(c, s, run).handlers[h]);
      } else if Identifies(a, h) {
        IdentifiedNow(c, s, init, h, a, before);
        j := |init|;
      } else {
        StepKeepsFresh(c, before, a, h);
      }
    }
  }

  /** A handler that is not overwritten goes by the options and the DUID of its own packet. */
  lemma OwnIdentity(c: Setup, s: State, run: seq<Action>, h: nat) returns (j: nat)
    requires Initial(c, s) && Possible(c, s, run) && h < |After(c, s, run).handlers|
    requires forall k | 0 <= k < |run| :: !Overwrites(run[k], h)
    ensures var x := After(c, s, run).handlers[h];
            && x.opts == Decoded(x.query.message.options)
            && (!x.pc.Fresh? ==>
                  && j < |run| && Possible(c, s, run[..j]) && Identifies(run[j], h)
                  && x.duid == DuidAt(After(c, s, run[..j]), run[j].now, x.query, x.opts))
  {
    j := IdentityOf(c, s, run, h);
    var x := After(c, s, run).handlers[h];
    if x.pc.Fresh? {
      NothingWritten(run, h, Decoded(x.query.message.options), []);
    } else {
      NothingWritten(run[..j], h, Decoded(x.query.message.options), []);
      NothingWritten(run[j + 1..], h, x.opts, DuidAt(After(c, s, run[..j]), run[j].now, x.query, x.opts));
    }
  }

  predicate Answering(pc: Pc) { pc.Offered? || pc.Acked? }

  /** The step that answers leaves its address to the DUID that the handler goes by, and to no other. */
  lemma AnswerIsHeld(c: Setup, s: State, a: Action, e: Duid)
    requires SetupOk(c) && Enabled(c, s, a) && (a.Reserve? || a.Confirm?) && Answering(Moved(c, s, a).pc)
    ensures var ip := Moved(c, s, a).pc.ip;
            To4(ip) != NIL_IP && (Holds(Next(c, s, a).db.table, AsU32(ip), e) <==> e == s.handlers[a.h].duid)
  {
  }

  /** The step `run[k]` has given the handler its answer, under the DUID that it goes by since. */
  ghost predicate AnsweredBy(c: Setup, s: State, run: seq<Action>, h: nat, k: nat, x: Handler)
    requires SetupOk(c)
  {
    && k < |run| && Possible(c, s, run[..k]) && Enabled(c, After(c, s, run[..k]), run[k])
    && (run[k].Reserve? || run[k].Confirm?) && run[k].h == h
    && Moved(c, After(c, s, run[..k]), run[k]) == x
  }

  lemma AnsweredBefore(c: Setup, s: State, run: seq<Action>, h: nat, k: nat, x: Handler, a: Action)
    requires SetupOk(c) && AnsweredBy(c, s, run, h, k, x)
    ensures AnsweredBy(c, s, run + [a], h, k, x)
  {
    assert (run + [a])[..k] == run[..k];
  }

  lemma AnsweredNow(c: Setup, s: State, run: seq<Action>, h: nat, a: Action, t: State)
    requires SetupOk(c) && Possible(c, s, run) && After(c, s, run) == t && Enabled(c, t, a)
    requires h < |Next(c, t, a).handlers| && Answering(Next(c, t, a).handlers[h].pc)
    requires h < |t.handlers| ==> !Ended(t.handlers[h].pc)
    ensures AnsweredBy(c, s, run + [a], h, |run|, Next(c, t, a).handlers[h])
  {
    assert (run + [a])[..|run|] == run;
  }

  lemma {:induction false} AnswerOf(c: Setup, s: State, run: seq<Action>, h: nat) returns (k: nat)
    requires Initial(c, s) && Possible(c, s, run) && h < |After(c, s, run).handlers|
    requires Answering(After(c, s, run).handlers[h].pc)
    ensures AnsweredBy(c, s, run, h, k, After(c, s, run).handlers[h])
    decreases |run|
  {
    var init, a := run[..|run| - 1], run[|run| - 1];
    var before := After(c, s, init);
    LastApart(run);
    if h < |before.handlers| && Ended(before.handlers[h].pc) {
      StepKeepsQuery(c, before, a, h);
      k := AnswerOf(c, s, init, h);
      AnsweredBefore(c, s, init, h, k, before.handlers[h], a);
    } else {
      AnsweredNow(c, s, init, h, a, before);
      k := |init|;
    }
  }

  /** The DUID of the client that sent the packet, at the time of its identification. */
  ghost function OwnDuid(c: Setup, s: State, run: seq<Action>, j: nat, q: Query): Duid
    requires SetupOk(c) && j < |run| && Possible(c, s, run[..j]) && run[j].Identify?
  {
    DuidAt(After(c, s, run[..j]), run[j].now, q, Decoded(q.message.options))
  }

  /**
   In every run, an offer or acknowledgement names an address that the database has just given to the client of
   its packet if and only if the handler goes by the DUID of this client in the end. It goes by what has been
   written last: into its options before it was identified, or into its DUID since.
   */
  lemma AnswersItsClient(c: Setup, s: State, run: seq<Action>, h: nat) returns (j: nat, k: nat)
    requires Initial(c, s) && Possible(c, s, run) && h < |After(c, s, run).handlers|
    requires Answering(After(c, s, run).handlers[h].pc)
    ensures var x := After(c, s, run).handlers[h];
            && IdentifiedBy(c, s, run, h, j, x) && AnsweredBy(c, s, run, h, k, x)
            && var own := OwnDuid(c, s, run, j, x.query);
               Holds(Next(c, After(c, s, run[..k]), run[k]).db.table, AsU32(x.pc.ip), own) <==> x.duid == own
  {
    j := IdentityOf(c, s, run, h);
    k := AnswerOf(c, s, run, h);
    AnswerIsHeld(c, After(c, s, run[..k]), run[k], OwnDuid(c, s, run, j, After(c, s, run).handlers[h].query));
  }

  /**
   In particular, the answer of a handler that is not overwritten has a grant to the DUID of its own client, and
   does what its own packet asks for.
   */
  lemma UntouchedAnswersItsClient(c: Setup, s: State, run: seq<Action>, h: nat) returns (j: nat)
    requires Initial(c, s) && Possible(c, s, run) && h < |After(c, s, run).handlers|
    requires forall k | 0 <= k < |run| :: !Overwrites(run[k], h)
    requires Answering(After(c, s, run).handlers[h].pc)
    ensures j < |run| && Possible(c, s, run[..j]) && Identifies(run[j], h)
    ensures var x := After(c, s, run).handlers[h];
            && x.duid == OwnDuid(c, s, run, j, x.query)
            && WasGranted(After(c, s, run).db.log, x.pc.ip, x.duid)
            && x.opts == Decoded(x.query.message.options) && Matches(c.self, x)
  {
    j := OwnIdentity(c, s, run, h);
    EveryRunIsSafe(c, s, run);
    EveryAnswerMatches(c, s, run);
  }

  /** A request for a granted address, on the way to its acknowledgement. */
  predicate OnCourse(x: Handler, g: Grant) {
    match x.pc
    case Looking(desired) => Equal(desired, ToV4(g.ip))
    case Probing(lease) => lease == ToV4(g.ip)
    case Confirming(lease) => lease == ToV4(g.ip)
    case Acked(ip) => ip == ToV4(g.ip)
    case _ => false
  }

  /** It goes by the DUID that has been granted the address. */
  predicate OnTrack(x: Handler, g: Grant) { x.duid == g.duid && OnCourse(x, g) }

  /** The step takes the DUID of its handler to the database. */
  predicate Asks(a: Action) { a.Find? || a.Reserve? || a.LookUp? || a.Confirm? }

  /** The database is asked under the right DUID, and the ARP check passes. */
  predicate Proper(a: Action, h: nat, duid: Duid, d: Duid) {
    && (Asks(a) && a.h == h ==> duid == d)
    && (a.Arp? && a.h == h ==> a.free)
  }

  predicate Failed(x: Handler) { x.pc.Nacked? || x.pc.Dropped? }

  /** A pair that is in the table is nobody else's to find or to update. */
  lemma OthersAreRefused(t: Table, g: Grant, d: Duid, desired: IP, ttl: Time)
    requires OneAddressPerDuid(t) && Holds(t, g.ip, g.duid) && d != g.duid && Equal(desired, ToV4(g.ip))
    ensures !UpdateAccepted(t, g.ip, d, ttl)
    ensures AddressOf(t, d).Some? ==> !Equal(desired, ToV4(AddressOf(t, d).value))
  {
    EqualToV4(desired, g.ip);
    if AddressOf(t, d).Some? {
      EqualToV4(desired, AddressOf(t, d).value);
    }
  }

  /** One step of a request on course: it stays on course, is refused, or is dropped, according to that step alone. */
  lemma CourseStep(c: Setup, s: State, a: Action, h: nat, i: nat)
    requires SetupOk(c) && Enabled(c, s, a) && Sound(s.db) && LogManaged(c.self.net, s.db.log)
    requires h < |s.handlers| && i < |s.db.log| && OnCourse(s.handlers[h], s.db.log[i])
    requires s.db.clock <= Next(c, s, a).db.clock && KeptUntil(s.db.log, i, Next(c, s, a).db.clock)
    ensures h < |Next(c, s, a).handlers|
    ensures var y := Next(c, s, a).handlers[h];
            if Proper(a, h, s.handlers[h].duid, s.db.log[i].duid) then OnCourse(y, s.db.log[i])
            else y.pc == if a.Confirm? then Dropped else Nacked
  {
    if (a.LookUp? || a.Confirm?) && a.h == h {
      var g, t := s.db.log[i], At(s.db.table, a.now);
      KeptIsHeld(s.db, i, a.now);
      AddressIsUnique(t, g.ip, g.duid);
      ToUipIsExact(c.self.net, ToV4(g.ip), g.ip);
      EqualIffCanonical(ToV4(g.ip), ToV4(g.ip));
      if s.handlers[h].duid != g.duid {
        OthersAreRefused(t, g, s.handlers[h].duid, if a.LookUp? then s.handlers[h].pc.desired else ToV4(g.ip), c.leaseDuration);
      }
    }
  }

  /** Each time that the database is asked, the DUID reads as it should, though it may not in between. */
  predicate AllProper(run: seq<Action>, h: nat, d: Duid)
    decreases |run|
  {
    |run| == 0 || (
      && AllProper(run[..|run| - 1], h, d)
      && Proper(run[|run| - 1], h, LastWritten(run[..|run| - 1], h, d), d))
  }

  /** How far a request has come since `x`. */
  predicate Progress(x: Handler, y: Handler, g: Grant, run: seq<Action>, h: nat) {
    && y.query == x.query && y.duid == LastWritten(run, h, g.duid)
    && if AllProper(run, h, g.duid) then OnCourse(y, g) else Failed(y)
  }

  lemma ProgressStep(c: Setup, s: State, before: State, run: seq<Action>, h: nat, i: nat)
    requires SetupOk(c) && |run| > 0 && Enabled(c, before, run[|run| - 1])
    requires Sound(before.db) && LogManaged(c.self.net, before.db.log)
    requires h < |s.handlers| && i < |s.db.log| && s.db.log <= before.db.log
    requires h < |before.handlers| && Progress(s.handlers[h], before.handlers[h], s.db.log[i], run[..|run| - 1], h)
    requires KeptUntil(before.db.log, i, Next(c, before, run[|run| - 1]).db.clock)
    ensures h < |Next(c, before, run[|run| - 1]).handlers|
    ensures Progress(s.handlers[h], Next(c, before, run[|run| - 1]).handlers[h], s.db.log[i], run, h)
  {
    var a := run[|run| - 1];
    StepKeepsQuery(c, before, a, h);
    LogGrows(c, before, a);
    if AllProper(run[..|run| - 1], h, s.db.log[i].duid) {
      CourseStep(c, before, a, h, i);
    }
  }

  /**
   While no grant of its pair is over, a request for a granted address that has ended is acknowledged if and
   only if the ARP check has passed and, whenever the database was asked, the DUID read as it should;
   otherwise it is refused or dropped. What other handlers do in between does not matter, not even those of
   the same client.
   */
  lemma {:induction false} RequestIsAckedIff(c: Setup, s: State, run: seq<Action>, h: nat, i: nat, p: Table)
    requires SetupOk(c) && Possible(c, s, run) && Safe(c, s, p)
    requires h < |s.handlers| && i < |s.db.log| && OnTrack(s.handlers[h], s.db.log[i])
    requires s.db.log <= After(c, s, run).db.log && KeptUntil(After(c, s, run).db.log, i, After(c, s, run).db.clock)
    ensures h < |After(c, s, run).handlers|
    ensures Progress(s.handlers[h], After(c, s, run).handlers[h], s.db.log[i], run, h)
    ensures var pc, g := After(c, s, run).handlers[h].pc, s.db.log[i];
            Ended(pc) ==> (pc == Acked(ToV4(g.ip)) <==> AllProper(run, h, g.duid))
    decreases |run|
  {
    if |run| > 0 {
      var init, a := run[..|run| - 1], run[|run| - 1];
      KeptEarlier(c, s, run, i);
      RequestIsAckedIff(c, s, init, h, i, p);
      RunIsSafe(c, s, init, p);
      ProgressStep(c, s, After(c, s, init), run, h, i);
    }
  }

  /** What is kept until the end of a run is kept until its last step. */
  lemma KeptEarlier(c: Setup, s: State, run: seq<Action>, i: nat)
    requires SetupOk(c) && |run| > 0 && Possible(c, s, run) && i < |s.db.log|
    requires s.db.log <= After(c, s, run).db.log && KeptUntil(After(c, s, run).db.log, i, After(c, s, run).db.clock)
    ensures var before := After(c, s, run[..|run| - 1]).db;
            && s.db.log <= before.log
            && KeptUntil(before.log, i, before.clock) && KeptUntil(before.log, i, After(c, s, run).db.clock)
  {
    var init := run[..|run| - 1];
    var before, after := After(c, s, init).db, After(c, s, run).db;
    LogGrows(c, After(c, s, init), run[|run| - 1]);
    HistoryGrows(c, s, init);
    KeptBefore(before.log, after.log, i, after.clock, after.clock);
    KeptBefore(before.log, after.log, i, before.clock, after.clock);
  }

  /** For fifteen seconds after a grant, all this holds of itself. */
  lemma ReservedInRun(c: Setup, s: State, run: seq<Action>, i: nat, p: Table)
    requires SetupOk(c) && Possible(c, s, run) && Safe(c, s, p) && i < |s.db.log|
    requires After(c, s, run).db.clock <= s.db.log[i].at + OFFER_TIME
    ensures s.db.log <= After(c, s, run).db.log && KeptUntil(After(c, s, run).db.log, i, After(c, s, run).db.clock)
  {
    RunIsSafe(c, s, run, p);
    HistoryGrows(c, s, run);
    var after := After(c, s, run).db;
    ReservedIsKept(after.log, after.clock, i, after.clock);
  }

  /** The ARP check of a handler passes, and its DUID, if it lies in the shared buffer, is not overwritten. */
  predicate Undisturbed(a: Action, h: nat, shared: bool) {
    (a.Arp? && a.h == h ==> a.free) && (shared ==> !Overwrites(a, h))
  }

  lemma {:induction false} UndisturbedIsProper(c: Setup, s: State, run: seq<Action>, h: nat)
    requires SetupOk(c) && Possible(c, s, run) && h < |s.handlers| && !s.handlers[h].pc.Fresh?
    requires forall k | 0 <= k < |run| :: Undisturbed(run[k], h, s.handlers[h].shared)
    ensures AllProper(run, h, s.handlers[h].duid) && LastWritten(run, h, s.handlers[h].duid) == s.handlers[h].duid
    ensures h < |After(c, s, run).handlers|
    ensures !After(c, s, run).handlers[h].pc.Fresh? && After(c, s, run).handlers[h].shared == s.handlers[h].shared
    decreases |run|
  {
    if |run| > 0 {
      var init := run[..|run| - 1];
      UndisturbedIsProper(c, s, init, h);
      StepKeepsQuery(c, After(c, s, init), run[|run| - 1], h);
    }
  }

  /**
   In particular, a request is acknowledged, and neither refused nor dropped, if its ARP check passes and its
   DUID, unless it is an internal one, is not overwritten.
   */
  lemma LeasedRequestIsAcked(c: Setup, s: State, run: seq<Action>, h: nat, i: nat, p: Table)
    requires SetupOk(c) && Possible(c, s, run) && Safe(c, s, p)
    requires h < |s.handlers| && i < |s.db.log| && OnTrack(s.handlers[h], s.db.log[i])
    requires forall k | 0 <= k < |run| :: Undisturbed(run[k], h, s.handlers[h].shared)
    requires s.db.log <= After(c, s, run).db.log && KeptUntil(After(c, s, run).db.log, i, After(c, s, run).db.clock)
    ensures h < |After(c, s, run).handlers|
    ensures OnTrack(After(c, s, run).handlers[h], s.db.log[i]) && After(c, s, run).handlers[h].query == s.handlers[h].query
  {
    UndisturbedIsProper(c, s, run, h);
    RequestIsAckedIff(c, s, run, h, i, p);
  }

  /** The same for fifteen seconds after any grant, an offer for example. */
  lemma ReservedRequestIsAcked(c: Setup, s: State, run: seq<Action>, h: nat, i: nat, p: Table)
    requires SetupOk(c) && Possible(c, s, run) && Safe(c, s, p)
    requires h < |s.handlers| && i < |s.db.log| && OnTrack(s.handlers[h], s.db.log[i])
    requires forall k | 0 <= k < |run| :: Undisturbed(run[k], h, s.handlers[h].shared)
    requires After(c, s, run).db.clock <= s.db.log[i].at + OFFER_TIME
    ensures h < |After(c, s, run).handlers|
    ensures OnTrack(After(c, s, run).handlers[h], s.db.log[i]) && After(c, s, run).handlers[h].query == s.handlers[h].query
  {
    ReservedInRun(c, s, run, i, p);
    LeasedRequestIsAcked(c, s, run, h, i, p);
  }

  /**
   A DUID in the shared buffer is overwritten when the next packet is read. A request for a reserved address
   that asks the database with other bytes is never acknowledged, at whichever step that happens.
   */
  lemma OverwrittenRequestIsRefused(c: Setup, s: State, run: seq<Action>, h: nat, i: nat, p: Table)
    requires SetupOk(c) && Possible(c, s, run) && Safe(c, s, p)
    requires h < |s.handlers| && i < |s.db.log| && OnTrack(s.handlers[h], s.db.log[i])
    requires !AllProper(run, h, s.db.log[i].duid)
    requires After(c, s, run).db.clock <= s.db.log[i].at + OFFER_TIME
    ensures h < |After(c, s, run).handlers| && Failed(After(c, s, run).handlers[h])
  {
    ReservedInRun(c, s, run, i, p);
    RequestIsAckedIff(c, s, run, h, i, p);
  }

  /** The ARP check of a handler passes, and nothing of it is overwritten. */
  predicate Calm(a: Action, h: nat) { (a.Arp? && a.h == h ==> a.free) && !Overwrites(a, h) }

  /**
   The client is known under this DUID: it is the internal one of its hardware address, or the identifier that it
   has sent, while the internal one has no lease.
   */
  predicate Known(t: Table, hw: seq<u8>, cid: seq<u8>, d: Duid) {
    d == DuidFromHwAddr(hw) || (d == cid && |cid| >= 4 && !HasLease(t, DuidFromHwAddr(hw)))
  }

  /** A DUID that has a lease is the one that `getDuid` chooses exactly if the client is known under it. */
  lemma KnownByLease(t: Table, hw: seq<u8>, cid: seq<u8>, d: Duid)
    requires HasLease(t, d)
    ensures DuidFor(t, hw, cid) == d <==> Known(t, hw, cid, d)
  {
  }

  /** Whether a client is known under a DUID when the step `run[j]` identifies its packet. */
  ghost predicate KnownAt(c: Setup, s: State, run: seq<Action>, j: nat, q: Query, d: Duid)
    requires SetupOk(c) && j < |run| && Possible(c, s, run[..j]) && run[j].Identify?
  {
    var t := At(After(c, s, run[..j]).db.table, run[j].now);
    Known(t, q.message.clientMAC, Decoded(q.message.options).clientIdentifier, d)
  }

  /** The step `run[j]` has identified a handler, and this DUID was its client's if `own` says so. */
  ghost predicate Recognised(c: Setup, s: State, run: seq<Action>, h: nat, j: nat, q: Query, d: Duid, own: bool)
    requires SetupOk(c)
  {
    && j < |run| && Possible(c, s, run[..j]) && Identifies(run[j], h)
    && (own <==> KnownAt(c, s, run, j, q, d))
  }

  lemma RecognisedBefore(c: Setup, s: State, run: seq<Action>, h: nat, j: nat, q: Query, d: Duid, own: bool, a: Action)
    requires SetupOk(c) && Recognised(c, s, run, h, j, q, d, own)
    ensures Recognised(c, s, run + [a], h, j, q, d, own)
  {
    assert (run + [a])[..j] == run[..j];
  }

  lemma RecognisedNow(c: Setup, s: State, run: seq<Action>, h: nat, a: Action, t: State, i: nat)
    requires SetupOk(c) && Possible(c, s, run) && After(c, s, run) == t && Enabled(c, t, a) && Identifies(a, h)
    requires t.handlers[h].opts == Decoded(t.handlers[h].query.message.options)
    requires Sound(t.db) && i < |t.db.log| && KeptUntil(t.db.log, i, a.now)
    ensures var x, d := t.handlers[h], t.db.log[i].duid;
            Recognised(c, s, run + [a], h, |run|, x.query, d, Next(c, t, a).handlers[h].duid == d)
  {
    assert (run + [a])[..|run|] == run;
    var x, now := t.handlers[h], At(t.db.table, a.now);
    KeptIsHeld(t.db, i, a.now);
    assert Holds(now, t.db.log[i].ip, t.db.log[i].duid);
    KnownByLease(now, x.query.message.clientMAC, x.opts.clientIdentifier, t.db.log[i].duid);
  }

  /**
   What a request has come to since it was read: identified as the holder of the address, it is on course, and
   otherwise it is refused.
   */
  predicate Served(y: Handler, q: Query, g: Grant) {
    && y.query == q
    && if y.pc.Fresh? then y.opts == Decoded(q.message.options)
       else if y.duid == g.duid then OnCourse(y, g)
       else y.pc == Looking(ToV4(g.ip)) || y.pc.Nacked?
  }

  lemma ServedStep(c: Setup, s: State, a: Action, h: nat, i: nat, q: Query)
    requires SetupOk(c) && Enabled(c, s, a) && Calm(a, h) && Sound(s.db) && LogManaged(c.self.net, s.db.log)
    requires h < |s.handlers| && i < |s.db.log| && Served(s.handlers[h], q, s.db.log[i])
    requires PcFor(JobFor(c.self, q, Decoded(q.message.options))) == Looking(ToV4(s.db.log[i].ip))
    requires KeptUntil(s.db.log, i, Next(c, s, a).db.clock)
    ensures h < |Next(c, s, a).handlers| && Served(Next(c, s, a).handlers[h], q, s.db.log[i])
  {
    StepKeepsQuery(c, s, a, h);
    LogGrows(c, s, a);
    EqualIffCanonical(ToV4(s.db.log[i].ip), ToV4(s.db.log[i].ip));
    if OnCourse(s.handlers[h], s.db.log[i]) {
      CourseStep(c, s, a, h, i);
    }
  }

  /** The same, with the step that has identified it. */
  ghost predicate ServedSince(c: Setup, s: State, run: seq<Action>, h: nat, j: nat, y: Handler, q: Query, g: Grant)
    requires SetupOk(c)
  {
    Served(y, q, g) && (!y.pc.Fresh? ==> Recognised(c, s, run, h, j, q, g.duid, y.duid == g.duid))
  }

  lemma ServedSinceStep(c: Setup, s: State, run: seq<Action>, h: nat, j: nat, a: Action, t: State, i: nat, q: Query) returns (k: nat)
    requires SetupOk(c) && Possible(c, s, run) && After(c, s, run) == t && Enabled(c, t, a) && Calm(a, h)
    requires Sound(t.db) && LogManaged(c.self.net, t.db.log) && h < |t.handlers| && i < |t.db.log|
    requires ServedSince(c, s, run, h, j, t.handlers[h], q, t.db.log[i])
    requires PcFor(JobFor(c.self, q, Decoded(q.message.options))) == Looking(ToV4(t.db.log[i].ip))
    requires KeptUntil(t.db.log, i, Next(c, t, a).db.clock)
    ensures h < |Next(c, t, a).handlers| && ServedSince(c, s, run + [a], h, k, Next(c, t, a).handlers[h], q, t.db.log[i])
  {
    var d := t.db.log[i].duid;
    k := j;
    ServedStep(c, t, a, h, i, q);
    if !t.handlers[h].pc.Fresh? {
      StepKeepsQuery(c, t, a, h);
      RecognisedBefore(c, s, run, h, j, q, d, t.handlers[h].duid == d, a);
    } else if Identifies(a, h) {
      RecognisedNow(c, s, run, h, a, t, i);
      k := |run|;
    } else {
      StepKeepsFresh(c, t, a, h);
    }
  }

  /** A packet for this address is in the hands of a handler that has not looked at it yet. */
  predicate Requested(c: Setup, x: Handler, q: Query, ip: IP) {
    x.query == q && x.pc.Fresh? && x.opts == Decoded(q.message.options) && PcFor(JobFor(c.self, q, x.opts)) == Looking(ip)
  }

  lemma {:induction false} RequestIsServed(c: Setup, s: State, run: seq<Action>, h: nat, i: nat, p: Table, q: Query) returns (j: nat)
    requires SetupOk(c) && Possible(c, s, run) && Safe(c, s, p)
    requires h < |s.handlers| && i < |s.db.log| && Requested(c, s.handlers[h], q, ToV4(s.db.log[i].ip))
    requires forall k | 0 <= k < |run| :: Calm(run[k], h)
    requires s.db.log <= After(c, s, run).db.log && KeptUntil(After(c, s, run).db.log, i, After(c, s, run).db.clock)
    ensures h < |After(c, s, run).handlers| && ServedSince(c, s, run, h, j, After(c, s, run).handlers[h], q, s.db.log[i])
    decreases |run|
  {
    j := 0;
    if |run| > 0 {
      var init, a := run[..|run| - 1], run[|run| - 1];
      LastApart(run);
      KeptEarlier(c, s, run, i);
      j := RequestIsServed(c, s, init, h, i, p, q);
      RunIsSafe(c, s, init, p);
      j := ServedSinceStep(c, s, init, h, j, a, After(c, s, init), i, q);
    }
  }

  /**
   From the packet to its answer: an untouched request for a granted address that has ended is acknowledged if
   and only if its client is known under the DUID of the grant when it is identified, and otherwise refused.
   */
  lemma FreshRequestIsAcked(c: Setup, s: State, run: seq<Action>, h: nat, i: nat, p: Table, q: Query) returns (j: nat)
    requires SetupOk(c) && Possible(c, s, run) && Safe(c, s, p)
    requires h < |s.handlers| && i < |s.db.log| && Requested(c, s.handlers[h], q, ToV4(s.db.log[i].ip))
    requires forall k | 0 <= k < |run| :: Calm(run[k], h)
    requires s.db.log <= After(c, s, run).db.log && KeptUntil(After(c, s, run).db.log, i, After(c, s, run).db.clock)
    ensures h < |After(c, s, run).handlers| && After(c, s, run).handlers[h].query == q
    ensures var y, g := After(c, s, run).handlers[h], s.db.log[i];
            Ended(y.pc) ==>
              && j < |run| && Possible(c, s, run[..j]) && Identifies(run[j], h)
              && y.pc == if KnownAt(c, s, run, j, q, g.duid) then Acked(ToV4(g.ip)) else Nacked
  {
    j := RequestIsServed(c, s, run, h, i, p, q);
  }
}
