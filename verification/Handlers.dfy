/**
 The handlers of a server as a transition system. Each packet gets a handler of its own; between two steps
 of a handler any steps of others may come. A step is what runs under one hold of the database lock, the
 outcome of an ARP check, or a read into the buffer that packets share.
 */
module Handlers {
  import opened Bytes
  import opened Keys
  import opened LeaseTable
  import opened Grants
  import opened Ipdb
  import opened Network
  import opened Options
  import opened Requests
  import ServerConfig

  /** What a server is set up with: who it is, where it searches for addresses, and how long its leases are. */
  datatype Setup = Setup(self: Self, dyn: Range, leaseDuration: Time)

  function RangesOf(c: Setup): AddressRanges { AddressRanges(c.self.net, c.dyn) }

  predicate SetupOk(c: Setup) { c.leaseDuration >= MINUTE && RangesOk(RangesOf(c)) }

  /** Where a handler is. The last four are the ends: an offer, an acknowledgement, a refusal, or no answer. */
  datatype Pc =
    | Fresh
    | Finding(suggestion: IP)
    | Offering(ip: IP)
    | Looking(desired: IP)
    | Probing(lease: IP)
    | Confirming(lease: IP)
    | Offered(ip: IP)
    | Acked(ip: IP)
    | Nacked
    | Dropped

  /**
   The options of a packet, and a DUID that the client has sent, lie in the buffer that the next packet is
   read into. `shared` says that the DUID is of that kind.
   */
  datatype Handler = Handler(query: Query, opts: DecodedOptions, duid: Duid, shared: bool, pc: Pc)

  predicate Ended(pc: Pc) { pc.Offered? || pc.Acked? || pc.Nacked? || pc.Dropped? }

  datatype State = State(db: Database, handlers: seq<Handler>)

  datatype Action =
    | Receive(query: Query)
    | Identify(h: nat, now: Time)
    | Find(h: nat, world: World, perm: seq<nat>)
    | Reserve(h: nat, now: Time)
    | LookUp(h: nat, now: Time)
    | Arp(h: nat, free: bool)
    | Confirm(h: nat, now: Time)
    | Overwrite(h: nat, opts: DecodedOptions, duid: Duid)

  /** `getDuid`: the internal DUID if it has a lease or the client sent nonsense, and else what the client sent. */
  predicate InternalDuid(t: Table, hwaddr: seq<u8>, cid: seq<u8>) {
    HasLease(t, ServerConfig.DuidFromHwAddr(hwaddr)) || |cid| < 4
  }

  function DuidFor(t: Table, hwaddr: seq<u8>, cid: seq<u8>): Duid {
    if InternalDuid(t, hwaddr, cid) then ServerConfig.DuidFromHwAddr(hwaddr) else cid
  }

  function PcFor(job: Job): Pc {
    match job
    case Drop => Dropped
    case Offer(suggestion) => Finding(suggestion)
    case Confirm(_, desired) => Looking(desired)
  }

  /** The lock is free, the handler is where the step starts, and the clock has not gone back. */
  ghost predicate Enabled(c: Setup, s: State, a: Action)
    requires SetupOk(c)
  {
    a.Receive? || (
      && a.h < |s.handlers|
      && var pc := s.handlers[a.h].pc;
         match a
         case Identify(_, now) => pc.Fresh? && s.db.clock <= now
         case Find(_, w, perm) =>
           && pc.Finding? && ClockRuns(w, s.db.clock)
           && (!SearchDisabled(RangesOf(c)) ==> IsPermutation(perm, 1 + c.dyn.to - c.dyn.from))
         case Reserve(_, now) => pc.Offering? && s.db.clock <= now
         case LookUp(_, now) => pc.Looking? && s.db.clock <= now
         case Arp(_, _) => pc.Probing?
         case Confirm(_, now) => pc.Confirming? && s.db.clock <= now
         case Overwrite(_, _, d) => pc.Fresh? || (!Ended(pc) && s.handlers[a.h].shared && |d| == |s.handlers[a.h].duid|)
         case Receive(_) => true)
  }

  /** What `UpdateClient` does, and whether it succeeds. */
  function UpdateEffect(c: Setup, now: Time, ip: IP, d: Duid, ttl: Time): Effect {
    match ToUip(c.self.net, ip)
    case Some(n) => Update(now, n, d, ttl)
    case None => Look(now)
  }

  predicate Granting(db: Database, e: Effect) { e.Update? && UpdateAccepted(At(db.table, e.now), e.ip, e.duid, e.ttl) }

  ghost function EffectOf(c: Setup, s: State, a: Action): (e: Option<Effect>)
    requires SetupOk(c) && Enabled(c, s, a)
  {
    match a
    case Receive(_) => None
    case Arp(_, _) => None
    case Overwrite(_, _, _) => None
    case Identify(_, now) => Some(Look(now))
    case LookUp(_, now) => Some(Look(now))
    case Find(h, w, perm) =>
      var (_, last) := Found(s.db.table, RangesOf(c), w, perm, s.handlers[h].pc.suggestion, s.handlers[h].duid);
      Some(Look(w.now(last)))
    case Reserve(h, now) => Some(UpdateEffect(c, now, s.handlers[h].pc.ip, s.handlers[h].duid, OFFER_TIME))
    case Confirm(h, now) => Some(UpdateEffect(c, now, s.handlers[h].pc.lease, s.handlers[h].duid, c.leaseDuration))
  }

  /** Where a step leaves its handler. */
  ghost function Moved(c: Setup, s: State, a: Action): Handler
    requires SetupOk(c) && Enabled(c, s, a) && !a.Receive?
  {
    var x := s.handlers[a.h];
    match a
    case Identify(_, now) =>
      x.(duid := DuidFor(At(s.db.table, now), x.query.message.clientMAC, x.opts.clientIdentifier),
         shared := !InternalDuid(At(s.db.table, now), x.query.message.clientMAC, x.opts.clientIdentifier),
         pc := PcFor(JobFor(c.self, x.query, x.opts)))
    case Find(_, w, perm) =>
      (match Found(s.db.table, RangesOf(c), w, perm, x.pc.suggestion, x.duid).0
       case Some(n) => x.(pc := Offering(ToV4(n)))
       case None => x.(pc := Dropped))
    case Reserve(_, now) =>
      x.(pc := if Granting(s.db, EffectOf(c, s, a).value) then Offered(x.pc.ip) else Dropped)
    case LookUp(_, now) =>
      (match AddressOf(At(s.db.table, now), x.duid)
       case Some(n) => x.(pc := if Equal(x.pc.desired, ToV4(n)) then Probing(ToV4(n)) else Nacked)
       case None => x.(pc := Nacked))
    case Overwrite(_, opts, d) => if x.pc.Fresh? then x.(opts := opts) else x.(duid := d)
    case Arp(_, free) => x.(pc := if free then Confirming(x.pc.lease) else Nacked)
    case Confirm(_, now) =>
      x.(pc := if Granting(s.db, EffectOf(c, s, a).value) then Acked(x.pc.lease) else Dropped)
  }

  ghost function Next(c: Setup, s: State, a: Action): State
    requires SetupOk(c) && Enabled(c, s, a)
  {
    State(match EffectOf(c, s, a) case Some(e) => Touched(s.db, e) case None => s.db,
          if a.Receive? then s.handlers + [Handler(a.query, Decoded(a.query.message.options), [], false, Fresh)]
          else s.handlers[a.h := Moved(c, s, a)])
  }

  ghost predicate Possible(c: Setup, s: State, run: seq<Action>)
    requires SetupOk(c)
    decreases |run|, 0
  {
    run == [] || (Possible(c, s, run[..|run| - 1]) && Enabled(c, After(c, s, run[..|run| - 1]), run[|run| - 1]))
  }

  ghost function After(c: Setup, s: State, run: seq<Action>): State
    requires SetupOk(c) && Possible(c, s, run)
    decreases |run|, 1
  {
    if run == [] then s else Next(c, After(c, s, run[..|run| - 1]), run[|run| - 1])
  }

  lemma RunExtended(c: Setup, s: State, run: seq<Action>, a: Action)
    requires SetupOk(c) && Possible(c, s, run) && Enabled(c, After(c, s, run), a)
    ensures Possible(c, s, run + [a]) && After(c, s, run + [a]) == Next(c, After(c, s, run), a)
  {
    assert (run + [a])[..|run|] == run;
  }

  /** A server that starts: permanent entries only, and nothing else. */
  ghost predicate Initial(c: Setup, s: State) {
    && SetupOk(c)
    && s.handlers == [] && s.db.log == []
    && OneAddressPerDuid(s.db.table)
    && forall ip | ip in s.db.table :: s.db.table[ip].permanent
  }

  lemma EffectIsTimely(c: Setup, s: State, a: Action)
    requires SetupOk(c) && Enabled(c, s, a) && EffectOf(c, s, a).Some?
    ensures Timely(s.db, EffectOf(c, s, a).value)
  {
    if a.Find? {
      var (_, last) := Found(s.db.table, RangesOf(c), a.world, a.perm, s.handlers[a.h].pc.suggestion, s.handlers[a.h].duid);
      assert a.world.now(0) <= a.world.now(last);
    }
  }
}
