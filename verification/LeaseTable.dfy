/**
 The lease database seen from outside: a time-filtered partial bijection between addresses and DUIDs.
 The classes `Clients` and `IPDB` are proved to implement these functions; every safety property of the
 server is stated about them.
 */
module LeaseTable {
  import opened Bytes
  import opened Keys

  /** Points in time and durations, in nanoseconds. */
  type Time = int

  datatype Lease = Lease(duid: Duid, until: Time, permanent: bool)

  type Table = map<u32, Lease>

  /** A permanent entry never expires; any other one is alive up to and including its deadline. */
  predicate AliveAt(l: Lease, now: Time) { l.permanent || now <= l.until }

  predicate AllAlive(t: Table, now: Time) { forall ip | ip in t :: AliveAt(t[ip], now) }

  /** What is left of a table at a later time. */
  function At(t: Table, now: Time): (r: Table)
    ensures AllAlive(r, now)
  {
    map ip | ip in t && AliveAt(t[ip], now) :: t[ip]
  }

  ghost predicate OneAddressPerDuid(t: Table) {
    forall a, b | a in t && b in t && t[a].duid == t[b].duid :: a == b
  }

  predicate Holds(t: Table, ip: u32, d: Duid) { ip in t && t[ip].duid == d }

  predicate HasLease(t: Table, d: Duid) { exists ip | ip in t :: Holds(t, ip, d) }

  ghost function AddressOf(t: Table, d: Duid): (r: Option<u32>)
    ensures r.Some? <==> HasLease(t, d)
    ensures r.Some? ==> Holds(t, r.value, d)
  {
    if HasLease(t, d) then
      var ip :| Holds(t, ip, d);
      Some(ip)
    else None
  }

  /** Neither half of the pair is taken. */
  predicate Vacant(t: Table, ip: u32, d: Duid) { ip !in t && !HasLease(t, d) }

  /** The table once the lease of an address is set; a lease that is over already leaves nothing. */
  function Set(t: Table, now: Time, ip: u32, l: Lease): Table {
    if AliveAt(l, now) then t[ip := l] else t - {ip}
  }

  /** A permanent entry stays permanent when its deadline is set. */
  function Granted(t: Table, now: Time, ip: u32, d: Duid, until: Time): Table {
    Set(t, now, ip, Lease(d, until, ip in t && t[ip].permanent))
  }

  /** `IPDB.UpdateClient` on a managed address: the pair is a lease or vacant, and is not born expired. */
  predicate UpdateAccepted(t: Table, ip: u32, d: Duid, ttl: Time) {
    Holds(t, ip, d) || (Vacant(t, ip, d) && ttl >= 0)
  }

  function Updated(t: Table, now: Time, ip: u32, d: Duid, ttl: Time): Table {
    if UpdateAccepted(t, ip, d, ttl) then Granted(t, now, ip, d, now + ttl) else t
  }

  /** Looking at the table now does not change what it will say later. */
  lemma AtAt(t: Table, now: Time, later: Time)
    requires now <= later
    ensures At(At(t, now), later) == At(t, later)
  {
    assert At(At(t, now), later).Keys == At(t, later).Keys;
  }

  lemma AtSame(t: Table, now: Time)
    requires AllAlive(t, now)
    ensures At(t, now) == t
  {
  }

  lemma UpdateKeepsInvariants(t: Table, now: Time, ip: u32, d: Duid, ttl: Time)
    requires OneAddressPerDuid(t) && AllAlive(t, now)
    ensures OneAddressPerDuid(Updated(t, now, ip, d, ttl)) && AllAlive(Updated(t, now, ip, d, ttl), now)
  {
  }

  lemma AddressIsUnique(t: Table, ip: u32, d: Duid)
    requires OneAddressPerDuid(t) && Holds(t, ip, d)
    ensures AddressOf(t, d) == Some(ip)
  {
  }

  /**
   For a lease that is not over before it starts, an update succeeds exactly when the table maps address and
   DUID to each other, or holds neither. It sets the end of this pair, and leaves every other pair alone.
   */
  lemma UpdateIsExact(t: Table, now: Time, ip: u32, d: Duid, ttl: Time)
    requires OneAddressPerDuid(t) && ttl >= 0
    ensures UpdateAccepted(t, ip, d, ttl) <==>
            (AddressOf(t, d) == Some(ip)) || (AddressOf(t, d) == None && ip !in t)
    ensures var r := Updated(t, now, ip, d, ttl);
            && (UpdateAccepted(t, ip, d, ttl) ==> Holds(r, ip, d) && r[ip].until == now + ttl)
            && (forall x | x != ip :: (x in r <==> x in t) && (x in t ==> r[x] == t[x]))
            && (!UpdateAccepted(t, ip, d, ttl) ==> r == t)
  {
    if Holds(t, ip, d) {
      AddressIsUnique(t, ip, d);
    }
  }
}
