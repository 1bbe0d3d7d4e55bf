/**
 The lease database with the history of its grants. Whatever the handlers of a server do, and in whichever
 order, comes down to a sequence of looks and updates of this database at non-decreasing times.
 */
module Grants {
  import opened Bytes
  import opened Keys
  import opened LeaseTable
  import opened Options

  /** For how long an offer is reserved; no grant is shorter. */
  const OFFER_TIME: Time := 15 * SECOND

  /** A successful `UpdateClient`: when, what, to whom, and up to when. */
  datatype Grant = Grant(at: Time, ip: u32, duid: Duid, until: Time)

  datatype Database = Database(table: Table, clock: Time, log: seq<Grant>)

  datatype Effect =
    | Look(now: Time)
    | Update(now: Time, ip: u32, duid: Duid, ttl: Time)

  predicate Timely(db: Database, e: Effect) { db.clock <= e.now && (e.Update? ==> e.ttl >= OFFER_TIME) }

  function Touched(db: Database, e: Effect): Database {
    var t := At(db.table, e.now);
    match e
    case Look(now) => Database(t, now, db.log)
    case Update(now, ip, d, ttl) =>
      Database(Updated(t, now, ip, d, ttl), now,
               if UpdateAccepted(t, ip, d, ttl) then db.log + [Grant(now, ip, d, now + ttl)] else db.log)
  }

  predicate SamePair(g: Grant, h: Grant) { g.ip == h.ip && g.duid == h.duid }

  /** One address for two DUIDs, or two addresses for one DUID. */
  predicate Conflicts(g: Grant, h: Grant) { (g.ip == h.ip || g.duid == h.duid) && !SamePair(g, h) }

  /** No grant of the same pair between `i` and `j`. */
  predicate LatestBefore(log: seq<Grant>, i: nat, j: nat)
    requires i < j <= |log|
  {
    forall k | i < k < j :: !SamePair(log[k], log[i])
  }

  /** A grant that conflicts with the latest grant of another pair comes after the end of that one. */
  ghost predicate Exclusive(log: seq<Grant>) {
    forall i, j {:trigger LatestBefore(log, i, j)} | 0 <= i < j < |log| && Conflicts(log[i], log[j]) && LatestBefore(log, i, j) ::
      log[i].until < log[j].at
  }

  ghost predicate Chronological(log: seq<Grant>, clock: Time) {
    && (forall i, j | 0 <= i <= j < |log| :: log[i].at <= log[j].at)
    && (forall i | 0 <= i < |log| :: log[i].at <= clock && log[i].at + OFFER_TIME <= log[i].until)
  }

  /** The table entry of a grant: until its end, or for ever. */
  predicate InForce(t: Table, g: Grant) { Holds(t, g.ip, g.duid) && (t[g.ip].permanent || t[g.ip].until == g.until) }

  /** The latest grant of each pair that is not over is what the table says. */
  ghost predicate Covered(db: Database) {
    forall i {:trigger LatestBefore(db.log, i, |db.log|)} | 0 <= i < |db.log| && LatestBefore(db.log, i, |db.log|) ::
      db.clock <= db.log[i].until ==> InForce(db.table, db.log[i])
  }

  ghost predicate Sound(db: Database) {
    && OneAddressPerDuid(db.table) && AllAlive(db.table, db.clock)
    && Chronological(db.log, db.clock) && Covered(db) && Exclusive(db.log)
  }

  /** Time passes: only what is over goes. */
  lemma LookIsSound(db: Database, now: Time)
    requires Sound(db) && db.clock <= now
    ensures Sound(Touched(db, Look(now)))
  {
  }

  lemma RefusedIsSound(db: Database, e: Effect)
    requires Sound(db) && e.Update? && db.clock == e.now && !UpdateAccepted(db.table, e.ip, e.duid, e.ttl)
    ensures Touched(db, e) == db
  {
    AtSame(db.table, e.now);
  }

  /** A grant that is in force keeps everyone else out. */
  lemma NoConflictInForce(t: Table, g: Grant, now: Time, ip: u32, d: Duid, ttl: Time)
    requires OneAddressPerDuid(t) && InForce(t, g) && UpdateAccepted(t, ip, d, ttl)
    ensures !Conflicts(g, Grant(now, ip, d, now + ttl))
  {
  }

  lemma LatestInPrefix(log: seq<Grant>, g: Grant, i: nat, j: nat)
    requires i < j <= |log|
    ensures LatestBefore(log + [g], i, j) <==> LatestBefore(log, i, j)
  {
    forall k | i < k < j
      ensures (log + [g])[k] == log[k]
    {
    }
    if LatestBefore(log + [g], i, j) {
      forall k | i < k < j
        ensures !SamePair(log[k], log[i])
      {
        assert !SamePair((log + [g])[k], (log + [g])[i]);
      }
    }
  }

  /** The database after an update that is accepted at the current time. */
  function Accepted(db: Database, ip: u32, d: Duid, ttl: Time): Database {
    Database(Updated(db.table, db.clock, ip, d, ttl), db.clock, db.log + [Grant(db.clock, ip, d, db.clock + ttl)])
  }

  lemma TouchedIsAccepted(db: Database, e: Effect)
    requires AllAlive(db.table, db.clock) && e.Update? && db.clock == e.now && UpdateAccepted(db.table, e.ip, e.duid, e.ttl)
    ensures Touched(db, e) == Accepted(db, e.ip, e.duid, e.ttl)
  {
    AtSame(db.table, e.now);
  }

  lemma AcceptedIsSound(db: Database, ip: u32, d: Duid, ttl: Time)
    requires Sound(db) && ttl >= OFFER_TIME && UpdateAccepted(db.table, ip, d, ttl)
    ensures Sound(Accepted(db, ip, d, ttl))
  {
    var g := Grant(db.clock, ip, d, db.clock + ttl);
    UpdateKeepsInvariants(db.table, db.clock, ip, d, ttl);
    NewGrantIsExclusive(db, g, ttl);
    CoveredExtended(db, g, ttl);
    ChronologicalExtended(db.log, g, db.clock);
  }

  lemma NewGrantIsExclusive(db: Database, g: Grant, ttl: Time)
    requires Sound(db) && g.at == db.clock && g.until == g.at + ttl && UpdateAccepted(db.table, g.ip, g.duid, ttl)
    ensures Exclusive(db.log + [g])
  {
    forall i | 0 <= i < |db.log| && LatestBefore(db.log, i, |db.log|) && db.clock <= db.log[i].until
      ensures !Conflicts(db.log[i], g)
    {
      NoConflictInForce(db.table, db.log[i], db.clock, g.ip, g.duid, ttl);
    }
    ExclusiveExtended(db.log, g);
  }

  lemma ChronologicalExtended(log: seq<Grant>, g: Grant, clock: Time)
    requires Chronological(log, clock) && g.at == clock && g.at + OFFER_TIME <= g.until
    ensures Chronological(log + [g], clock)
  {
  }

  lemma ExclusiveExtended(log: seq<Grant>, g: Grant)
    requires Exclusive(log)
    requires forall i {:trigger LatestBefore(log, i, |log|)} | 0 <= i < |log| && LatestBefore(log, i, |log|) ::
               g.at <= log[i].until ==> !Conflicts(log[i], g)
    ensures Exclusive(log + [g])
  {
    var after := log + [g];
    forall i, j | 0 <= i < j < |after| && Conflicts(after[i], after[j]) && LatestBefore(after, i, j)
      ensures after[i].until < after[j].at
    {
      LatestInPrefix(log, g, i, j);
    }
  }

  lemma CoveredExtended(db: Database, g: Grant, ttl: Time)
    requires Covered(db) && OneAddressPerDuid(db.table) && AllAlive(db.table, db.clock)
    requires ttl >= 0 && g.at == db.clock && g.until == g.at + ttl && UpdateAccepted(db.table, g.ip, g.duid, ttl)
    ensures Covered(Accepted(db, g.ip, g.duid, ttl))
  {
    var n, log := |db.log|, db.log + [g];
    var t := Updated(db.table, g.at, g.ip, g.duid, ttl);
    assert InForce(t, g);
    forall i | 0 <= i < n && LatestBefore(log, i, n + 1) && g.at <= log[i].until
      ensures InForce(t, log[i])
    {
      assert !SamePair(log[n], log[i]);
      assert LatestBefore(log, i, n);
      LatestInPrefix(db.log, g, i, n);
      NoConflictInForce(db.table, db.log[i], g.at, g.ip, g.duid, ttl);
    }
  }

  /** Every effect keeps the database sound. */
  lemma EffectIsSound(db: Database, e: Effect)
    requires Sound(db) && Timely(db, e)
    ensures Sound(Touched(db, e))
  {
    LookIsSound(db, e.now);
    if e.Update? {
      var now := Touched(db, Look(e.now));
      AtSame(now.table, e.now);
      assert Touched(now, e) == Touched(db, e);
      if UpdateAccepted(now.table, e.ip, e.duid, e.ttl) {
        TouchedIsAccepted(now, e);
        AcceptedIsSound(now, e.ip, e.duid, e.ttl);
      } else {
        RefusedIsSound(now, e);
      }
    }
  }

  /** The latest grant of the pair that `i` grants. */
  lemma {:induction false} LatestOf(log: seq<Grant>, i: nat) returns (k: nat)
    requires i < |log|
    ensures i <= k < |log| && SamePair(log[k], log[i]) && LatestBefore(log, k, |log|)
    decreases |log| - i
  {
    if j :| i < j < |log| && SamePair(log[j], log[i]) {
      k := LatestOf(log, j);
    } else {
      k := i;
    }
  }

  /** No grant of the pair, from the `i`-th on, is over. */
  ghost predicate KeptUntil(log: seq<Grant>, i: nat, now: Time)
    requires i < |log|
  {
    forall k | i <= k < |log| && SamePair(log[k], log[i]) :: now <= log[k].until
  }

  /** For as long as no grant of a pair is over, the pair is in the table, whatever else has been granted since. */
  lemma KeptIsHeld(db: Database, i: nat, now: Time)
    requires Sound(db) && i < |db.log| && db.clock <= now && KeptUntil(db.log, i, now)
    ensures Holds(At(db.table, now), db.log[i].ip, db.log[i].duid)
  {
    var k := LatestOf(db.log, i);
    assert InForce(db.table, db.log[k]);
  }

  /** Nothing that is granted is over within fifteen seconds. */
  lemma ReservedIsKept(log: seq<Grant>, clock: Time, i: nat, now: Time)
    requires Chronological(log, clock) && i < |log| && now <= log[i].at + OFFER_TIME
    ensures KeptUntil(log, i, now)
  {
    forall k | i <= k < |log| && SamePair(log[k], log[i])
      ensures now <= log[k].until
    {
      assert log[i].at <= log[k].at;
    }
  }

  /** For fifteen seconds after a grant its pair is in the table, whatever has been granted since. */
  lemma ReservedForOfferTime(db: Database, i: nat, now: Time)
    requires Sound(db) && i < |db.log| && db.clock <= now <= db.log[i].at + OFFER_TIME
    ensures Holds(At(db.table, now), db.log[i].ip, db.log[i].duid)
  {
    ReservedIsKept(db.log, db.clock, i, now);
    KeptIsHeld(db, i, now);
  }

  /** The permanent entries of `p` are there, and permanent. */
  predicate Fixed(t: Table, p: Table) { forall ip | ip in p :: Holds(t, ip, p[ip].duid) && t[ip].permanent }

  /** No address of `p` is granted to another DUID, and no DUID of `p` another address. */
  predicate Respects(log: seq<Grant>, p: Table) {
    forall i, ip | 0 <= i < |log| && ip in p :: log[i].ip == ip <==> log[i].duid == p[ip].duid
  }

  lemma EffectKeepsPermanent(db: Database, e: Effect, p: Table)
    requires OneAddressPerDuid(db.table) && Fixed(db.table, p) && Respects(db.log, p)
    ensures Fixed(Touched(db, e).table, p) && Respects(Touched(db, e).log, p)
  {
    var t := At(db.table, e.now);
    forall ip | ip in p
      ensures Holds(t, ip, p[ip].duid) && t[ip].permanent
    {
    }
    if e.Update? && UpdateAccepted(t, e.ip, e.duid, e.ttl) {
      forall ip | ip in p
        ensures e.ip == ip <==> e.duid == p[ip].duid
      {
        assert Holds(t, ip, p[ip].duid);
      }
    }
  }
}
