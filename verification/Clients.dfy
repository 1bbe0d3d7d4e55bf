/**
 `Clients`: one map holds every record under two keys, its address and its DUID, and both entries share
 the record object. Expiry is lazy and removes only the key that was looked up.
 */
module Clients {
  import opened Bytes
  import opened Keys
  import opened LeaseTable

  class Client {
    const ip: u32
    const duid: Duid
    const permanent: bool
    var leasedUntil: Time

    constructor (ip: u32, duid: Duid, leasedUntil: Time, permanent: bool)
      ensures this.ip == ip && this.duid == duid
      ensures this.leasedUntil == leasedUntil && this.permanent == permanent
    {
      this.ip, this.duid := ip, duid;
      this.leasedUntil, this.permanent := leasedUntil, permanent;
    }

    function Lease(): Lease
      reads this
    {
      LeaseOf(this, leasedUntil)
    }
  }

  /** The key map, and the deadline of every record in it. */
  type Records = map<string, Client>
  type Deadlines = map<Client, Time>

  function LeaseOf(c: Client, until: Time): Lease { Lease(c.duid, until, c.permanent) }

  /** The record is reachable under both its keys. */
  predicate Linked(m: Records, c: Client) {
    && UipString(c.ip) in m && m[UipString(c.ip)] == c
    && DuidString(c.duid) in m && m[DuidString(c.duid)] == c
  }

  /** An entry of the table is a doubly linked record. */
  predicate Entry(m: Records, u: Deadlines, t: Table, ip: u32)
    requires ip in t
  {
    && UipString(ip) in m
    && var c := m[UipString(ip)];
    && c in u && c.ip == ip && LeaseOf(c, u[c]) == t[ip]
    && DuidString(c.duid) in m && m[DuidString(c.duid)] == c
  }

  /** A key holds a record of the table, or one that is past its deadline and half of which may be gone. */
  predicate Accounted(m: Records, u: Deadlines, t: Table, clock: Time, k: string)
    requires k in m
  {
    var c := m[k];
    && c in u && (k == UipString(c.ip) || k == DuidString(c.duid))
    && ((c.ip in t && UipString(c.ip) in m && m[UipString(c.ip)] == c) || !AliveAt(LeaseOf(c, u[c]), clock))
  }

  ghost predicate Consistent(m: Records, u: Deadlines, t: Table, clock: Time) {
    && AllAlive(t, clock)
    && (forall ip {:trigger Entry(m, u, t, ip)} | ip in t :: Entry(m, u, t, ip))
    && (forall k {:trigger Accounted(m, u, t, clock, k)} | k in m :: Accounted(m, u, t, clock, k))
  }

  /** Time passes: entries past their deadline leave the table and stay in the map as stale records. */
  lemma TimePasses(m: Records, u: Deadlines, t: Table, clock: Time, now: Time)
    requires Consistent(m, u, t, clock) && clock <= now
    ensures Consistent(m, u, At(t, now), now)
  {
    var t' := At(t, now);
    forall ip | ip in t'
      ensures Entry(m, u, t', ip)
    {
      assert Entry(m, u, t, ip);
    }
    forall k | k in m
      ensures Accounted(m, u, t', now, k)
    {
      assert Accounted(m, u, t, clock, k);
      assert m[k].ip in t ==> Entry(m, u, t, m[k].ip);
    }
  }

  /** Deleting one key of a stale record leaves the other key, if there still is one, behind. */
  lemma DeletingStale(m: Records, u: Deadlines, t: Table, clock: Time, k: string)
    requires Consistent(m, u, t, clock)
    requires k in m && m[k] in u && !AliveAt(LeaseOf(m[k], u[m[k]]), clock)
    ensures Consistent(m - {k}, u, t, clock)
  {
    forall ip | ip in t
      ensures Entry(m - {k}, u, t, ip)
    {
      assert Entry(m, u, t, ip);
    }
    forall j | j in m - {k}
      ensures Accounted(m - {k}, u, t, clock, j)
    {
      assert Accounted(m, u, t, clock, j);
      assert m[j].ip in t ==> Entry(m, u, t, m[j].ip);
    }
  }

  lemma Inserting(m: Records, u: Deadlines, t: Table, clock: Time, c: Client, until: Time)
    requires Consistent(m, u, t, clock) && c !in m.Values
    requires UipString(c.ip) !in m && DuidString(c.duid) !in m
    ensures Consistent(m[UipString(c.ip) := c][DuidString(c.duid) := c], u[c := until], Set(t, clock, c.ip, LeaseOf(c, until)), clock)
  {
    var a, d := UipString(c.ip), DuidString(c.duid);
    UipIsNotDuid(c.ip, c.duid);
    var m', u', t' := m[a := c][d := c], u[c := until], Set(t, clock, c.ip, LeaseOf(c, until));
    forall ip | ip in t'
      ensures Entry(m', u', t', ip)
    {
      assert ip != c.ip ==> Entry(m, u, t, ip);
    }
    forall k | k in m'
      ensures Accounted(m', u', t', clock, k)
    {
      if k in m {
        assert Accounted(m, u, t, clock, k);
      }
    }
  }

  lemma Extending(m: Records, u: Deadlines, t: Table, clock: Time, ip: u32, until: Time)
    requires Consistent(m, u, t, clock) && ip in t && UipString(ip) in m
    ensures Consistent(m, u[m[UipString(ip)] := until], Granted(t, clock, ip, t[ip].duid, until), clock)
  {
    assert Entry(m, u, t, ip);
    var c := m[UipString(ip)];
    var u', t' := u[c := until], Granted(t, clock, ip, t[ip].duid, until);
    forall i | i in t'
      ensures Entry(m, u', t', i)
    {
      assert Entry(m, u, t, i);
    }
    forall k | k in m
      ensures Accounted(m, u', t', clock, k)
    {
      assert Accounted(m, u, t, clock, k);
    }
  }

  /** Only the deadlines of records in the map matter. */
  lemma FewerDeadlines(m: Records, u: Deadlines, v: Deadlines, t: Table, clock: Time)
    requires Consistent(m, u, t, clock)
    requires forall c | c in m.Values && c in u :: c in v && v[c] == u[c]
    ensures Consistent(m, v, t, clock)
  {
    forall ip | ip in t
      ensures Entry(m, v, t, ip)
    {
      assert Entry(m, u, t, ip);
    }
    forall k | k in m
      ensures Accounted(m, v, t, clock, k)
    {
      assert Accounted(m, u, t, clock, k);
    }
  }

  /** What a key of the address or of the DUID holds belongs to it. */
  lemma KeyOwner(m: Records, u: Deadlines, t: Table, clock: Time, k: string, ip: u32, d: Duid)
    requires Consistent(m, u, t, clock) && k in m
    ensures k == UipString(ip) ==> m[k].ip == ip
    ensures k == DuidString(d) ==> m[k].duid == d
  {
    var c := m[k];
    assert Accounted(m, u, t, clock, k);
    UipIsNotDuid(ip, c.duid);
    UipIsNotDuid(c.ip, d);
    if k == UipString(ip) {
      UipStringInjective(c.ip, ip);
    }
    if k == DuidString(d) {
      DuidStringInjective(c.duid, d);
    }
  }

  lemma LiveKey(m: Records, u: Deadlines, t: Table, clock: Time, k: string)
    requires Consistent(m, u, t, clock) && k in m
    ensures m[k] in u
    ensures AliveAt(LeaseOf(m[k], u[m[k]]), clock) ==>
              m[k].ip in t && LeaseOf(m[k], u[m[k]]) == t[m[k].ip] && Linked(m, m[k])
  {
    assert Accounted(m, u, t, clock, k);
    assert m[k].ip in t ==> Entry(m, u, t, m[k].ip);
  }

  /** Finding an address is finding its key, unless the record there is stale. */
  lemma FindByIp(m: Records, u: Deadlines, t: Table, clock: Time, ip: u32)
    requires Consistent(m, u, t, clock)
    ensures var k := UipString(ip); k in m ==> m[k] in u
    ensures var k := UipString(ip); ip in t <==> k in m && AliveAt(LeaseOf(m[k], u[m[k]]), clock)
    ensures var k := UipString(ip); ip in t ==> m[k].ip == ip && LeaseOf(m[k], u[m[k]]) == t[ip] && Linked(m, m[k])
  {
    var k := UipString(ip);
    if k in m {
      KeyOwner(m, u, t, clock, k, ip, []);
      LiveKey(m, u, t, clock, k);
    }
    assert ip in t ==> Entry(m, u, t, ip);
  }

  lemma FindByDuid(m: Records, u: Deadlines, t: Table, clock: Time, d: Duid)
    requires Consistent(m, u, t, clock)
    ensures var k := DuidString(d); k in m ==> m[k] in u
    ensures var k := DuidString(d); HasLease(t, d) <==> k in m && AliveAt(LeaseOf(m[k], u[m[k]]), clock)
    ensures var k := DuidString(d);
            HasLease(t, d) ==> Holds(t, m[k].ip, d) && LeaseOf(m[k], u[m[k]]) == t[m[k].ip] && Linked(m, m[k])
  {
    var k := DuidString(d);
    if k in m {
      KeyOwner(m, u, t, clock, k, 0, d);
      LiveKey(m, u, t, clock, k);
    }
    forall ip | Holds(t, ip, d)
      ensures k in m && m[k].ip == ip && AliveAt(LeaseOf(m[k], u[m[k]]), clock)
    {
      assert Entry(m, u, t, ip);
    }
    if k in m && AliveAt(LeaseOf(m[k], u[m[k]]), clock) {
      assert Holds(t, m[k].ip, d);
    }
  }

  /** An entry of the table is one record under both keys. */
  lemma BothKeys(m: Records, u: Deadlines, t: Table, clock: Time, ip: u32, d: Duid)
    requires Consistent(m, u, t, clock) && Holds(t, ip, d)
    ensures var k, j := UipString(ip), DuidString(d);
            k in m && j in m && m[j] == m[k] && m[k].ip == ip && m[k] in u && LeaseOf(m[k], u[m[k]]) == t[ip]
  {
    assert Entry(m, u, t, ip);
  }

  lemma ConsistentIsInjective(m: Records, u: Deadlines, t: Table, clock: Time)
    requires Consistent(m, u, t, clock)
    ensures OneAddressPerDuid(t)
  {
    forall a, b | a in t && b in t && t[a].duid == t[b].duid
      ensures a == b
    {
      assert Entry(m, u, t, a) && Entry(m, u, t, b);
    }
  }

  /**
   At every time from the latest call on, the table says exactly which records of the map are alive: each
   of them is reachable under both its keys, and no stale record, half-linked or not, is among them.
   */
  lemma LiveView(m: Records, u: Deadlines, t: Table, clock: Time, now: Time)
    requires Consistent(m, u, t, clock) && clock <= now
    ensures m.Values <= u.Keys
    ensures forall k | k in m && AliveAt(LeaseOf(m[k], u[m[k]]), now) ::
              m[k].ip in At(t, now) && At(t, now)[m[k].ip] == LeaseOf(m[k], u[m[k]]) && Linked(m, m[k])
    ensures forall ip | ip in At(t, now) ::
              UipString(ip) in m && var c := m[UipString(ip)]; c.ip == ip && Linked(m, c) && LeaseOf(c, u[c]) == At(t, now)[ip]
  {
    TimePasses(m, u, t, clock, now);
    forall k | k in m
      ensures m[k] in u
      ensures AliveAt(LeaseOf(m[k], u[m[k]]), now) ==>
                m[k].ip in At(t, now) && LeaseOf(m[k], u[m[k]]) == At(t, now)[m[k].ip] && Linked(m, m[k])
    {
      LiveKey(m, u, At(t, now), now, k);
    }
    forall ip | ip in At(t, now)
      ensures UipString(ip) in m && var c := m[UipString(ip)]; c.ip == ip && Linked(m, c) && LeaseOf(c, u[c]) == At(t, now)[ip]
    {
      FindByIp(m, u, At(t, now), now, ip);
    }
  }

  /** A record that lost one of its keys is past its deadline for good. */
  lemma HalfDeletedIsStale(m: Records, u: Deadlines, t: Table, clock: Time, k: string, now: Time)
    requires Consistent(m, u, t, clock) && clock <= now
    requires k in m && m[k] in u && !Linked(m, m[k])
    ensures !AliveAt(LeaseOf(m[k], u[m[k]]), now)
  {
    LiveKey(m, u, t, clock, k);
  }

  /** Why an operation failed. */
  datatype Status = Done | IpExists | DuidExists | NoSuchIp | NoSuchDuid | Mismatch

  const UNIX_EPOCH: Time := 0

  class Clients {
    var m: Records
    /** The time of the latest call, and what the map says from then on. */
    ghost var clock: Time
    ghost var table: Table

    ghost function Deadlines(): Deadlines
      reads this`m, m.Values
    {
      map c | c in m.Values :: c.leasedUntil
    }

    ghost predicate Valid()
      reads this, m.Values
    {
      Consistent(m, Deadlines(), table, clock)
    }

    constructor (ghost now: Time)
      ensures Valid() && table == map[] && clock == now && m == map[]
    {
      m := map[];
      clock := now;
      table := map[];
    }

    /** Time passes before a call. */
    ghost method Advance(now: Time)
      requires Valid() && clock <= now
      modifies this`clock, this`table
      ensures Valid() && clock == now && table == At(old(table), now)
    {
      TimePasses(m, Deadlines(), table, clock, now);
      table := At(table, now);
      clock := now;
    }

    /** One iteration of the loop in `Lookup`. */
    method LookupKey(now: Time, k: string) returns (p: Client?)
      requires Valid() && clock == now
      modifies this`m
      ensures Valid()
      ensures m == if p == null then old(m) - {k} else old(m)
      ensures p == null <==> k !in old(m) || !AliveAt(old(m)[k].Lease(), now)
      ensures p != null ==> p == old(m)[k]
    {
      if k in m {
        p := m[k];
        if !p.permanent && now > p.leasedUntil {
          ghost var u := Deadlines();
          DeletingStale(m, u, table, clock, k);
          m := m - {k};
          FewerDeadlines(m, u, Deadlines(), table, clock);
          p := null;
        }
      } else {
        p := null;
        assert m - {k} == m;
      }
    }

    /** Deletes expired keys on the way, which nobody will ever notice: the table does not change. */
    method Lookup(now: Time, ip: u32, duid: Duid) returns (byIp: Client?, byDuid: Client?)
      requires Valid() && clock == now
      modifies this`m
      ensures Valid() && m.Values <= old(m).Values
      ensures byIp != null <==> ip in table
      ensures byIp != null ==> byIp.ip == ip && UipString(ip) in m && m[UipString(ip)] == byIp
      ensures byIp == null ==> UipString(ip) !in m
      ensures byDuid != null <==> HasLease(table, duid)
      ensures byDuid != null ==> Holds(table, byDuid.ip, duid)
      ensures byDuid == null ==> DuidString(duid) !in m
      ensures byIp != null && byIp == byDuid <==> Holds(table, ip, duid)
    {
      byIp := LookupKey(now, UipString(ip));
      FindByIp(m, Deadlines(), table, now, ip);
      byDuid := LookupKey(now, DuidString(duid));
      FindByIp(m, Deadlines(), table, now, ip);
      FindByDuid(m, Deadlines(), table, now, duid);
      ConsistentIsInjective(m, Deadlines(), table, now);
    }

    method InjectInternal(now: Time, ip: u32, duid: Duid, leasedUntil: Time, permanent: bool) returns (r: Status)
      requires Valid() && clock == now
      modifies this`m, this`table
      ensures Valid() && fresh(m.Values - old(m).Values)
      ensures r == if ip in old(table) then IpExists else if HasLease(old(table), duid) then DuidExists else Done
      ensures table == if r == Done then Set(old(table), now, ip, Lease(duid, leasedUntil, permanent)) else old(table)
    {
      var byIp, byDuid := Lookup(now, ip, duid);
      if byIp != null {
        return IpExists;
      } else if byDuid != null {
        return DuidExists;
      }
      var c := new Client(ip, duid, leasedUntil, permanent);
      ghost var u := Deadlines();
      Inserting(m, u, table, clock, c, leasedUntil);
      table := Set(table, now, ip, Lease(duid, leasedUntil, permanent));
      m := m[UipString(c.ip) := c];
      m := m[DuidString(c.duid) := c];
      FewerDeadlines(m, u[c := leasedUntil], Deadlines(), table, clock);
      return Done;
    }

    method InjectPermanent(now: Time, ip: u32, duid: Duid) returns (r: Status)
      requires Valid() && clock == now
      modifies this`m, this`table
      ensures Valid() && fresh(m.Values - old(m).Values)
      ensures r == Done <==> Vacant(old(table), ip, duid)
      ensures table == if r == Done then old(table)[ip := Lease(duid, UNIX_EPOCH, true)] else old(table)
    {
      r := InjectInternal(now, ip, duid, UNIX_EPOCH, true);
    }

    method Inject(now: Time, ip: u32, duid: Duid, leasedUntil: Time) returns (r: Status)
      requires Valid() && clock == now
      modifies this`m, this`table
      ensures Valid() && fresh(m.Values - old(m).Values)
      ensures r == Done <==> Vacant(old(table), ip, duid)
      ensures table == if r == Done then Granted(old(table), now, ip, duid, leasedUntil) else old(table)
    {
      r := InjectInternal(now, ip, duid, leasedUntil, false);
    }

    /** Sets the deadline through the record that both keys share. */
    method SetLease(now: Time, ip: u32, duid: Duid, leasedUntil: Time) returns (r: Status)
      requires Valid() && clock == now
      modifies this`m, this`table, m.Values
      ensures Valid() && m.Values <= old(m).Values
      ensures forall c | c in old(m).Values && !old(AliveAt(c.Lease(), now)) :: c.leasedUntil == old(c.leasedUntil)
      ensures r == if ip !in old(table) then NoSuchIp else if !HasLease(old(table), duid) then NoSuchDuid
                   else if !Holds(old(table), ip, duid) then Mismatch else Done
      ensures table == if r == Done then Granted(old(table), now, ip, duid, leasedUntil) else old(table)
    {
      var byIp, byDuid := Lookup(now, ip, duid);
      if byIp == null {
        return NoSuchIp;
      } else if byDuid == null {
        return NoSuchDuid;
      } else if byIp != byDuid {
        return Mismatch;
      }
      assert Entry(m, Deadlines(), table, ip);
      assert AliveAt(byIp.Lease(), now);
      Extend(byIp, leasedUntil);
      return Done;
    }

    /** The assignment through the shared pointer. */
    method Extend(c: Client, leasedUntil: Time)
      requires Valid() && c.ip in table && UipString(c.ip) in m && m[UipString(c.ip)] == c
      modifies this`table, c`leasedUntil
      ensures Valid() && table == Granted(old(table), clock, c.ip, old(table)[c.ip].duid, leasedUntil)
    {
      ghost var u := Deadlines();
      Extending(m, u, table, clock, c.ip, leasedUntil);
      table := Granted(table, clock, c.ip, table[c.ip].duid, leasedUntil);
      c.leasedUntil := leasedUntil;
      FewerDeadlines(m, u[c := leasedUntil], Deadlines(), table, clock);
    }

    method Expire(now: Time, ip: u32, duid: Duid) returns (r: Status)
      requires Valid() && clock == now
      modifies this`m, this`table, m.Values
      ensures Valid() && m.Values <= old(m).Values
      ensures r == Done <==> Holds(old(table), ip, duid)
      ensures r != Done ==> table == old(table)
      ensures r == Done && now > UNIX_EPOCH ==>
                table == if old(table)[ip].permanent then old(table)[ip := Lease(duid, UNIX_EPOCH, true)] else old(table) - {ip}
    {
      r := SetLease(now, ip, duid, UNIX_EPOCH);
    }

    /** Serves one call at its time, whichever it is. */
    method Serve(call: Call)
      requires Valid() && clock <= call.now
      modifies this, m.Values
      ensures Valid() && clock == call.now && fresh(m.Values - old(m).Values)
      ensures forall c | c in old(m).Values && !old(AliveAt(c.Lease(), clock)) :: c.leasedUntil == old(c.leasedUntil)
    {
      Advance(call.now);
      if call.Find? {
        var _, _ := Lookup(call.now, call.ip, call.duid);
      } else if call.Add? {
        var _ := InjectInternal(call.now, call.ip, call.duid, call.until, call.permanent);
      } else {
        var _ := SetLease(call.now, call.ip, call.duid, call.until);
      }
    }

    /** Whatever calls come, a record that is over never gets a new deadline, and one that lost a key is over for good. */
    method ServeAll(calls: seq<Call>)
      requires Valid() && InOrder(calls, clock)
      modifies this, m.Values
      ensures Valid() && old(clock) <= clock
      ensures forall c | c in old(m).Values && !old(AliveAt(c.Lease(), clock)) :: c.leasedUntil == old(c.leasedUntil)
      ensures forall k | k in old(m) && !Linked(old(m), old(m)[k]) :: !AliveAt(old(m)[k].Lease(), clock)
    {
      ghost var start, over := clock, set c | c in m.Values && !AliveAt(c.Lease(), clock);
      forall k | k in m && !Linked(m, m[k])
        ensures m[k] in over
      {
        HalfDeletedIsStale(m, Deadlines(), table, clock, k, clock);
      }
      for i := 0 to |calls|
        invariant Valid() && start <= clock && fresh(m.Values - old(m).Values)
        invariant InOrder(calls[i..], clock)
        invariant forall c | c in over :: c.leasedUntil == old(c.leasedUntil)
      {
        Serve(calls[i]);
      }
    }
  }

  /** A database with a single record. */
  method OneRecord(now: Time, ip: u32, duid: Duid, until: Time) returns (db: Clients)
    requires now <= until
    ensures fresh(db) && db.Valid() && db.clock == now
    ensures UipString(ip) in db.m && DuidString(duid) in db.m && db.m[DuidString(duid)] == db.m[UipString(ip)]
    ensures db.m[UipString(ip)].ip == ip && db.m[UipString(ip)].Lease() == Lease(duid, until, false)
  {
    db := new Clients(now);
    var _ := db.Inject(now, ip, duid, until);
    BothKeys(db.m, db.Deadlines(), db.table, now, ip, duid);
  }

  /**
   A record can lose one of its keys and keep the other: a lookup of its address with another DUID, after its
   end, is enough. This is a reachable state, and a valid one.
   */
  method LosesAKey(now: Time, ip: u32, duid: Duid, until: Time, other: Duid, later: Time) returns (db: Clients)
    requires now <= until < later && DuidString(other) != DuidString(duid)
    ensures db.Valid() && db.clock == later
    ensures DuidString(duid) in db.m && UipString(ip) !in db.m && !Linked(db.m, db.m[DuidString(duid)])
  {
    db := OneRecord(now, ip, duid, until);
    db.Advance(later);
    UipIsNotDuid(ip, duid);
    UipIsNotDuid(ip, other);
    var _ := db.LookupKey(later, UipString(ip));
    var _ := db.LookupKey(later, DuidString(other));
  }

  /** A call of the database, at its time. */
  datatype Call =
    | Find(now: Time, ip: u32, duid: Duid)
    | Add(now: Time, ip: u32, duid: Duid, until: Time, permanent: bool)
    | Extend(now: Time, ip: u32, duid: Duid, until: Time)

  predicate InOrder(calls: seq<Call>, start: Time) {
    calls == [] || (start <= calls[0].now && InOrder(calls[1..], calls[0].now))
  }
}
