/** `IPDB`: range checks and the address search on top of `Clients`. Every method runs under one lock. */
module Ipdb {
  import opened Bytes
  import opened Keys
  import opened LeaseTable
  import opened Network
  import Clients

  /** The ranges of a database: what it manages, and where it searches. */
  datatype AddressRanges = AddressRanges(net: Range, dyn: Range)

  /** The search range lies inside the managed one, or searches are disabled. */
  predicate RangesOk(r: AddressRanges) {
    (r.dyn.from == 0 && r.dyn.to == 0) || r.net.from <= r.dyn.from <= r.dyn.to <= r.net.to
  }

  predicate SearchDisabled(r: AddressRanges) { r.dyn.from == 0 && r.dyn.to == 0 }

  /**
   What an address search meets: the clock, the ARP check of an address and the cancellation of the
   context, each as found at the `i`-th look.
   */
  datatype World = World(now: nat -> Time, free: (nat, u32) -> bool, cancelled: nat -> bool)

  ghost predicate ClockRuns(w: World, start: Time) {
    && start <= w.now(0)
    && forall i: nat, j: nat | i <= j :: w.now(i) <= w.now(j)
  }

  /** A result of `rand.Perm(n)`. */
  ghost predicate IsPermutation(p: seq<nat>, n: nat) {
    && |p| == n
    && (forall i | 0 <= i < n :: p[i] < n)
    && (forall v: nat | v < n :: v in p)
  }

  predicate Passes(t: Table, w: World, i: nat, ip: u32) {
    ip !in At(t, w.now(i)) && ValidHost(ip) && w.free(i, ip)
  }

  /** The first candidate that passes before the context is cancelled, and the number of the last look. */
  function Search(t: Table, w: World, cs: seq<u32>, i: nat): (r: (Option<u32>, nat))
    requires i >= 1
    decreases |cs|
  {
    if cs == [] || w.cancelled(i) then (None, i - 1)
    else if Passes(t, w, i, cs[0]) then (Some(cs[0]), i)
    else Search(t, w, cs[1..], i + 1)
  }

  /** The suggestion, unless it is taken, and then the search range in random order. */
  function Candidates(n: u32, taken: bool, r: AddressRanges, perm: seq<nat>): (cs: seq<u32>)
    ensures |cs| == |perm| + if taken then 0 else 1
  {
    (if taken then [] else [n]) + seq(|perm|, i requires 0 <= i < |perm| => (r.dyn.from + perm[i]) % U32_RANGE)
  }

  /** An unmanaged suggestion is replaced by address zero. */
  function Suggestion(r: AddressRanges, ip: IP): u32 {
    match ToUip(r.net, ip)
    case Some(n) => n
    case None => 0
  }

  /** What `FindIP` returns, and the number of its last look at the clock. */
  ghost function Found(t: Table, r: AddressRanges, w: World, perm: seq<nat>, ip: IP, d: Duid): (f: (Option<u32>, nat)) {
    var now := At(t, w.now(0));
    if HasLease(now, d) then (AddressOf(now, d), 0)
    else if SearchDisabled(r) then (None, 0)
    else Search(t, w, Candidates(Suggestion(r, ip), Suggestion(r, ip) in now, r, perm), 1)
  }

  /** What stands at the `j`-th look was passed over. */
  predicate Refused(t: Table, w: World, cs: seq<u32>, i: nat, j: nat)
    requires 0 <= j - i < |cs|
  {
    !w.cancelled(j) && !Passes(t, w, j, cs[j - i])
  }

  lemma {:induction false} SearchSound(t: Table, w: World, cs: seq<u32>, i: nat)
    requires i >= 1
    ensures var (found, last) := Search(t, w, cs, i);
            && i - 1 <= last <= i - 1 + |cs|
            && (found.Some? ==> last >= i && cs[last - i] == found.value && Passes(t, w, last, found.value))
            && (forall j | i <= j <= last && (found.None? || j < last) :: Refused(t, w, cs, i, j))
            && (found.None? && last < i - 1 + |cs| ==> w.cancelled(last + 1))
    decreases |cs|
  {
    if cs != [] && !w.cancelled(i) && !Passes(t, w, i, cs[0]) {
      SearchSound(t, w, cs[1..], i + 1);
      var (found, last) := Search(t, w, cs[1..], i + 1);
      forall j | i <= j <= last && (found.None? || j < last)
        ensures Refused(t, w, cs, i, j)
      {
        if j > i {
          assert Refused(t, w, cs[1..], i + 1, j);
        }
      }
    }
  }

  /** Each candidate other than the suggestion lies in the search range. */
  lemma OthersAreInRange(n: u32, taken: bool, r: AddressRanges, perm: seq<nat>, i: nat)
    requires RangesOk(r) && !SearchDisabled(r) && IsPermutation(perm, 1 + r.dyn.to - r.dyn.from)
    requires i < |Candidates(n, taken, r, perm)| && (i > 0 || taken)
    ensures r.dyn.from <= Candidates(n, taken, r, perm)[i] <= r.dyn.to
  {
    var k := if taken then i else i - 1;
    assert perm[k] < 1 + r.dyn.to - r.dyn.from;
    assert Candidates(n, taken, r, perm)[i] == (r.dyn.from + perm[k]) % U32_RANGE == r.dyn.from + perm[k];
  }

  /** The candidates are the suggestion, when it is not taken, and exactly the search range. */
  lemma CandidatesInRange(n: u32, taken: bool, r: AddressRanges, perm: seq<nat>)
    requires RangesOk(r) && !SearchDisabled(r) && IsPermutation(perm, 1 + r.dyn.to - r.dyn.from)
    ensures var cs := Candidates(n, taken, r, perm);
            && (forall i | 0 <= i < |cs| :: (cs[i] == n && !taken) || r.dyn.from <= cs[i] <= r.dyn.to)
            && (!taken ==> cs[0] == n)
  {
    var cs := Candidates(n, taken, r, perm);
    forall i | 0 <= i < |cs| && (i > 0 || taken)
      ensures r.dyn.from <= cs[i] <= r.dyn.to
    {
      OthersAreInRange(n, taken, r, perm, i);
    }
  }

  lemma CandidatesCoverRange(n: u32, taken: bool, r: AddressRanges, perm: seq<nat>, x: u32) returns (i: nat)
    requires RangesOk(r) && !SearchDisabled(r) && IsPermutation(perm, 1 + r.dyn.to - r.dyn.from)
    requires r.dyn.from <= x <= r.dyn.to
    ensures i < |Candidates(n, taken, r, perm)| && Candidates(n, taken, r, perm)[i] == x
  {
    var v: nat := x - r.dyn.from;
    assert v in perm;
    var k :| 0 <= k < |perm| && perm[k] == v;
    i := if taken then k else k + 1;
  }

  /**
   A client with a live lease gets its address. Anyone else gets an address that was not held, valid and
   free when it was probed, and that is the managed suggestion or lies in the search range.
   */
  lemma FindIPSound(t: Table, r: AddressRanges, w: World, perm: seq<nat>, ip: IP, d: Duid)
    requires RangesOk(r) && (!SearchDisabled(r) ==> IsPermutation(perm, 1 + r.dyn.to - r.dyn.from))
    ensures var (found, last) := Found(t, r, w, perm, ip, d);
            if HasLease(At(t, w.now(0)), d) then
              found.Some? && Holds(At(t, w.now(0)), found.value, d)
            else
              found.Some? ==>
                && !SearchDisabled(r)
                && found.value !in At(t, w.now(last)) && found.value % 256 != 0 && found.value % 256 != 255
                && w.free(last, found.value)
                && (ToUip(r.net, ip) == Some(found.value) || r.dyn.from <= found.value <= r.dyn.to)
  {
    var now := At(t, w.now(0));
    if !HasLease(now, d) && !SearchDisabled(r) {
      var n := Suggestion(r, ip);
      CandidatesInRange(n, n in now, r, perm);
      SearchSound(t, w, Candidates(n, n in now, r, perm), 1);
      assert !ValidHost(0);
    }
  }

  /** A free and valid suggestion wins, although its distance from the search range wraps around. */
  lemma SuggestionWins(t: Table, r: AddressRanges, w: World, perm: seq<nat>, ip: IP, n: u32, d: Duid)
    requires RangesOk(r) && !SearchDisabled(r) && IsPermutation(perm, 1 + r.dyn.to - r.dyn.from)
    requires ToUip(r.net, ip) == Some(n) && n !in At(t, w.now(0)) && !HasLease(At(t, w.now(0)), d)
    requires n !in At(t, w.now(1)) && n % 256 != 0 && n % 256 != 255 && w.free(1, n) && !w.cancelled(1)
    ensures Found(t, r, w, perm, ip, d) == (Some(n), 1)
  {
    CandidatesInRange(n, false, r, perm);
  }

  /**
   The search leaves its range for one address only. A client without a lease gets an address outside if and
   only if it has suggested this very one, nobody holds it at either look, and it is valid and free at the first.
   */
  lemma OutsideIsSuggested(t: Table, r: AddressRanges, w: World, perm: seq<nat>, ip: IP, n: u32, d: Duid)
    requires RangesOk(r) && !SearchDisabled(r) && IsPermutation(perm, 1 + r.dyn.to - r.dyn.from)
    requires !HasLease(At(t, w.now(0)), d) && !(r.dyn.from <= n <= r.dyn.to)
    ensures Found(t, r, w, perm, ip, d).0 == Some(n) <==>
            && ToUip(r.net, ip) == Some(n) && n !in At(t, w.now(0))
            && !w.cancelled(1) && n !in At(t, w.now(1)) && n % 256 != 0 && n % 256 != 255 && w.free(1, n)
  {
    var x, now := Suggestion(r, ip), At(t, w.now(0));
    var cs := Candidates(x, x in now, r, perm);
    var (found, last) := Found(t, r, w, perm, ip, d);
    if found == Some(n) {
      SearchSound(t, w, cs, 1);
      if last > 1 || x in now {
        OthersAreInRange(x, x in now, r, perm, last - 1);
      }
      assert !ValidHost(0);
    } else if ToUip(r.net, ip) == Some(n) && n !in now && !w.cancelled(1) && Passes(t, w, 1, n) {
      SuggestionWins(t, r, w, perm, ip, n, d);
      assert false;
    }
  }

  /** A managed address outside the range of a search, and a world in which it is found. */
  lemma SomeAddressOutside(t: Table, w: World, perm: seq<nat>, d: Duid)
    requires !HasLease(At(t, w.now(0)), d) && 0x0a00_0002 !in t && w.free(1, 0x0a00_0002) && !w.cancelled(1)
    requires IsPermutation(perm, 101)
    ensures var r := AddressRanges(Range(0x0a00_0001, 0x0a00_00fe), Range(0x0a00_0064, 0x0a00_00c8));
            RangesOk(r) && Found(t, r, w, perm, ToV4(0x0a00_0002), d) == (Some(0x0a00_0002), 1)
  {
    var r, n := AddressRanges(Range(0x0a00_0001, 0x0a00_00fe), Range(0x0a00_0064, 0x0a00_00c8)), 0x0a00_0002;
    ToUipIsExact(r.net, ToV4(n), n);
    EqualIffCanonical(ToV4(n), ToV4(n));
    SuggestionWins(t, r, w, perm, ToV4(n), n, d);
  }

  /** It stopped at the `last` look, at this candidate, and refused each one before. */
  predicate Stops(t: Table, w: World, cs: seq<u32>, i: nat, n: u32, last: nat) {
    && i <= last < i + |cs| && cs[last - i] == n && !w.cancelled(last) && Passes(t, w, last, n)
    && forall j | i <= j < last :: Refused(t, w, cs, i, j)
  }

  lemma StopsLater(t: Table, w: World, cs: seq<u32>, i: nat, n: u32, last: nat)
    requires cs != [] && Refused(t, w, cs, i, i)
    ensures Stops(t, w, cs, i, n, last) <==> Stops(t, w, cs[1..], i + 1, n, last)
  {
    if Stops(t, w, cs, i, n, last) {
      assert last > i;
      forall j: nat {:trigger Refused(t, w, cs[1..], i + 1, j)} | i < j < last
        ensures Refused(t, w, cs[1..], i + 1, j)
      {
        assert Refused(t, w, cs, i, j);
      }
      assert Stops(t, w, cs[1..], i + 1, n, last);
    }
    if Stops(t, w, cs[1..], i + 1, n, last) {
      forall j | i <= j < last
        ensures Refused(t, w, cs, i, j)
      {
        assert j > i ==> Refused(t, w, cs[1..], i + 1, j);
      }
    }
  }

  lemma {:induction false} SearchIsFirst(t: Table, w: World, cs: seq<u32>, i: nat, n: u32, last: nat)
    requires i >= 1
    ensures Search(t, w, cs, i) == (Some(n), last) <==> Stops(t, w, cs, i, n, last)
    decreases |cs|
  {
    if cs != [] {
      if Refused(t, w, cs, i, i) {
        SearchIsFirst(t, w, cs[1..], i + 1, n, last);
        StopsLater(t, w, cs, i, n, last);
      }
    }
  }

  /**
   What a search is for. Of its candidates, the suggestion if it is managed and nobody holds it, and then the
   search range in the order of the permutation, a client without a lease gets the first that is not held, whose
   last byte is neither 0 nor 255, and whose ARP probe finds nobody else, all at the time when it is looked at;
   unless the search is cancelled before. An unmanaged suggestion is a look at address zero.
   */
  lemma FoundIsFirst(t: Table, r: AddressRanges, w: World, perm: seq<nat>, ip: IP, d: Duid, s: u32, cs: seq<u32>, n: u32, last: nat)
    requires RangesOk(r) && (r.dyn.from > 0 || r.dyn.to > 0) && IsPermutation(perm, 1 + r.dyn.to - r.dyn.from)
    requires forall a | a in t && t[a].duid == d :: !t[a].permanent && t[a].until < w.now(0)
    requires s == if To4(ip) != NIL_IP && r.net.from <= AsU32(ip) <= r.net.to then AsU32(ip) else 0
    requires var held := s in t && (t[s].permanent || w.now(0) <= t[s].until);
             && |cs| == |perm| + (if held then 0 else 1) && (!held ==> cs[0] == s)
             && forall k | 0 <= k < |perm| :: cs[k + if held then 0 else 1] == r.dyn.from + perm[k]
    ensures Found(t, r, w, perm, ip, d) == (Some(n), last) <==>
            && 1 <= last <= |cs| && cs[last - 1] == n
            && !w.cancelled(last)
            && !(n in t && (t[n].permanent || w.now(last) <= t[n].until)) && n % 256 != 0 && n % 256 != 255 && w.free(last, n)
            && forall j | 1 <= j < last ::
                 && !w.cancelled(j)
                 && var x := cs[j - 1];
                    (x in t && (t[x].permanent || w.now(j) <= t[x].until)) || x % 256 == 0 || x % 256 == 255 || !w.free(j, x)
  {
    FoundBySearch(t, r, w, perm, ip, d, s, cs);
    SearchIsFirst(t, w, cs, 1, n, last);
    StopsIs(t, w, cs, n, last);
  }

  lemma FoundBySearch(t: Table, r: AddressRanges, w: World, perm: seq<nat>, ip: IP, d: Duid, s: u32, cs: seq<u32>)
    requires RangesOk(r) && !SearchDisabled(r) && IsPermutation(perm, 1 + r.dyn.to - r.dyn.from)
    requires forall a | a in t && t[a].duid == d :: !t[a].permanent && t[a].until < w.now(0)
    requires s == if To4(ip) != NIL_IP && r.net.from <= AsU32(ip) <= r.net.to then AsU32(ip) else 0
    requires var held := s in t && (t[s].permanent || w.now(0) <= t[s].until);
             && |cs| == |perm| + (if held then 0 else 1) && (!held ==> cs[0] == s)
             && forall k | 0 <= k < |perm| :: cs[k + if held then 0 else 1] == r.dyn.from + perm[k]
    ensures Found(t, r, w, perm, ip, d) == Search(t, w, cs, 1)
  {
    CandidatesAre(t, r, w, perm, s, cs);
    assert !HasLease(At(t, w.now(0)), d);
  }

  lemma StopsIs(t: Table, w: World, cs: seq<u32>, n: u32, last: nat)
    ensures Stops(t, w, cs, 1, n, last) <==>
            && 1 <= last <= |cs| && cs[last - 1] == n
            && !w.cancelled(last)
            && !(n in t && (t[n].permanent || w.now(last) <= t[n].until)) && n % 256 != 0 && n % 256 != 255 && w.free(last, n)
            && forall j | 1 <= j < last ::
                 && !w.cancelled(j)
                 && var x := cs[j - 1];
                    (x in t && (t[x].permanent || w.now(j) <= t[x].until)) || x % 256 == 0 || x % 256 == 255 || !w.free(j, x)
  {
    forall j | 1 <= j < last && j <= |cs|
      ensures Refused(t, w, cs, 1, j) <==>
              && !w.cancelled(j)
              && var x := cs[j - 1];
                 (x in t && (t[x].permanent || w.now(j) <= t[x].until)) || x % 256 == 0 || x % 256 == 255 || !w.free(j, x)
    {
    }
  }

  lemma CandidatesAre(t: Table, r: AddressRanges, w: World, perm: seq<nat>, s: u32, cs: seq<u32>)
    requires RangesOk(r) && !SearchDisabled(r) && IsPermutation(perm, 1 + r.dyn.to - r.dyn.from)
    requires var held := s in t && (t[s].permanent || w.now(0) <= t[s].until);
             && |cs| == |perm| + (if held then 0 else 1) && (!held ==> cs[0] == s)
             && forall k | 0 <= k < |perm| :: cs[k + if held then 0 else 1] == r.dyn.from + perm[k]
    ensures cs == Candidates(s, s in At(t, w.now(0)), r, perm)
  {
    var taken := s in At(t, w.now(0));
    forall i | 0 <= i < |cs|
      ensures cs[i] == Candidates(s, taken, r, perm)[i]
    {
      if i > 0 || taken {
        OthersAreInRange(s, taken, r, perm, i);
        var k := if taken then i else i - 1;
        assert cs[k + if taken then 0 else 1] == r.dyn.from + perm[k];
      }
    }
  }

  /** A client with a lease gets its address at the first look; without a lease, and without a search range, nothing is found. */
  lemma FoundWithoutSearch(t: Table, r: AddressRanges, w: World, perm: seq<nat>, ip: IP, d: Duid, n: u32)
    requires OneAddressPerDuid(t)
    ensures n in t && t[n].duid == d && (t[n].permanent || w.now(0) <= t[n].until) ==> Found(t, r, w, perm, ip, d) == (Some(n), 0)
    ensures r.dyn.from == r.dyn.to == 0 && (forall a | a in t && t[a].duid == d :: !t[a].permanent && t[a].until < w.now(0)) ==>
              Found(t, r, w, perm, ip, d) == (None, 0)
  {
    var now := At(t, w.now(0));
    if n in t && t[n].duid == d && (t[n].permanent || w.now(0) <= t[n].until) {
      assert Holds(now, n, d);
      AddressIsUnique(now, n, d);
    }
  }

  /** A search that fails without being cancelled found each address of the range held, invalid or not free. */
  lemma FindIPComplete(t: Table, r: AddressRanges, w: World, perm: seq<nat>, ip: IP, d: Duid, x: u32) returns (i: nat)
    requires RangesOk(r) && !SearchDisabled(r) && IsPermutation(perm, 1 + r.dyn.to - r.dyn.from)
    requires Found(t, r, w, perm, ip, d).0.None?
    requires forall i: nat :: !w.cancelled(i)
    requires r.dyn.from <= x <= r.dyn.to
    ensures !HasLease(At(t, w.now(0)), d)
    ensures 1 <= i <= Found(t, r, w, perm, ip, d).1
    ensures x in At(t, w.now(i)) || !ValidHost(x) || !w.free(i, x)
  {
    var now := At(t, w.now(0));
    var n := Suggestion(r, ip);
    var cs := Candidates(n, n in now, r, perm);
    SearchSound(t, w, cs, 1);
    i := CandidatesCoverRange(n, n in now, r, perm, x);
    i := i + 1;
    assert Refused(t, w, cs, 1, i);
  }

  /** Adding an offset to the start of the search range recovers the candidate, wrap-around included. */
  lemma OffsetsAreCandidates(n: u32, taken: bool, r: AddressRanges, perm: seq<nat>)
    ensures var p := if taken then perm else [SubU32(n, r.dyn.from)] + perm;
            var cs := Candidates(n, taken, r, perm);
            |cs| == |p| && forall i | 0 <= i < |p| :: cs[i] == (r.dyn.from + p[i]) % U32_RANGE
  {
  }

  class IPDB {
    const net: Range
    var dyn: Range
    const clients: Clients.Clients

    ghost predicate Valid()
      reads this, clients, clients.m.Values
    {
      clients.Valid()
    }

    ghost function Table(): Table
      reads clients
    {
      clients.table
    }

    ghost function Clock(): Time
      reads clients
    {
      clients.clock
    }

    function Ranges(): AddressRanges
      reads this
    {
      AddressRanges(net, dyn)
    }

    constructor FromRange(r: Range, ghost now: Time)
      ensures Valid() && fresh(clients) && clients.m == map[]
      ensures net == r && dyn == r && Table() == map[] && Clock() == now
    {
      net, dyn := r, r;
      clients := new Clients.Clients(now);
    }

    /** `New`. The search range is the managed one; only a mask with exactly one host bit leaves it inverted. */
    static method New(network: IP, netmask: seq<u8>, ghost now: Time) returns (db: IPDB?)
      ensures db != null <==> FromTo(network, netmask).Some?
      ensures db != null ==>
                && fresh(db) && fresh(db.clients) && db.clients.m == map[] && db.Valid() && db.Table() == map[]
                && db.Clock() == now
                && db.net == db.dyn == FromTo(network, netmask).value
                && (RangesOk(db.Ranges()) <==> U32(netmask) != U32_RANGE - 2)
    {
      var r := FromTo(network, netmask);
      if r.None? {
        return null;
      }
      db := new IPDB.FromRange(r.value, now);
      FromToNeverWraps(network, netmask);
    }

    method SetDynamicRange(begin: IP, end: IP) returns (ok: bool)
      modifies this`dyn
      ensures var b, e := ToUip(net, begin), ToUip(net, end);
              && (ok <==> b.Some? && e.Some? && b.value <= e.value)
              && dyn == if ok then Range(b.value, e.value) else old(dyn)
      ensures ok || RangesOk(old(Ranges())) ==> RangesOk(Ranges())
    {
      var b := ToUip(net, begin);
      if b.None? {
        return false;
      }
      var e := ToUip(net, end);
      if e.None? {
        return false;
      }
      if b.value > e.value {
        return false;
      }
      dyn := Range(b.value, e.value);
      return true;
    }

    method DisableDynamic()
      modifies this`dyn
      ensures SearchDisabled(Ranges()) && RangesOk(Ranges())
    {
      dyn := Range(0, 0);
    }

    method LookupClientByDuid(now: Time, duid: Duid) returns (r: Option<IP>)
      requires Valid() && Clock() <= now
      modifies clients
      ensures Valid() && Clock() == now && Table() == At(old(Table()), now)
      ensures clients.m.Values <= old(clients.m).Values
      ensures r == match AddressOf(Table(), duid) case Some(ip) => Some(ToV4(ip)) case None => None
    {
      clients.Advance(now);
      var _, c := clients.Lookup(now, 0, duid);
      if c == null {
        return None;
      }
      Clients.ConsistentIsInjective(clients.m, clients.Deadlines(), clients.table, clients.clock);
      AddressIsUnique(Table(), c.ip, duid);
      return Some(ToV4(c.ip));
    }

    method AddPermanentClient(now: Time, ip: IP, duid: Duid) returns (ok: bool)
      requires Valid() && Clock() <= now
      modifies clients
      ensures Valid() && Clock() == now && fresh(clients.m.Values - old(clients.m).Values)
      ensures var t, n := At(old(Table()), now), ToUip(net, ip);
              && (ok <==> n.Some? && Vacant(t, n.value, duid))
              && Table() == if ok then t[n.value := Lease(duid, Clients.UNIX_EPOCH, true)] else t
    {
      clients.Advance(now);
      var n := ToUip(net, ip);
      if n.None? {
        return false;
      }
      var r := clients.InjectPermanent(now, n.value, duid);
      return r == Clients.Done;
    }

    /**
     First an optimistic set, then an insertion and another set. Succeeds exactly on a managed address that
     the DUID holds, or that is vacant for it and would not be born expired.
     */
    method UpdateClient(now: Time, ip: IP, duid: Duid, ttl: Time) returns (ok: bool)
      requires Valid() && Clock() <= now
      modifies clients, clients.m.Values
      ensures Valid() && Clock() == now && fresh(clients.m.Values - old(clients.m).Values)
      ensures var t, n := At(old(Table()), now), ToUip(net, ip);
              && (ok <==> n.Some? && UpdateAccepted(t, n.value, duid, ttl))
              && Table() == if n.Some? then Updated(t, now, n.value, duid, ttl) else t
    {
      clients.Advance(now);
      var n := ToUip(net, ip);
      if n.None? {
        return false;
      }
      var ltime := now + ttl;
      var r := clients.SetLease(now, n.value, duid, ltime);
      if r == Clients.Done {
        return true;
      }
      ok := InjectAndSet(now, n.value, duid, ltime);
    }

    /** The second set cannot fail, unless the lease is over before it starts. */
    method InjectAndSet(now: Time, n: u32, duid: Duid, ltime: Time) returns (ok: bool)
      requires Valid() && Clock() == now
      modifies clients, clients.m.Values
      ensures Valid() && Clock() == now && fresh(clients.m.Values - old(clients.m).Values)
      ensures ok <==> Vacant(old(Table()), n, duid) && now <= ltime
      ensures Table() == if ok then Granted(old(Table()), now, n, duid, ltime) else old(Table())
    {
      var r := clients.Inject(now, n, duid, ltime);
      if r != Clients.Done {
        return false;
      }
      r := clients.SetLease(now, n, duid, ltime);
      return r == Clients.Done;
    }

    /** Every look at the database happens at its own time; the search stops at the first candidate that passes. */
    method FindIP(w: World, perm: seq<nat>, ip: IP, duid: Duid) returns (r: Option<IP>)
      requires Valid() && RangesOk(Ranges()) && ClockRuns(w, Clock())
      requires !SearchDisabled(Ranges()) ==> IsPermutation(perm, 1 + dyn.to - dyn.from)
      modifies clients
      ensures Valid() && clients.m.Values <= old(clients.m).Values
      ensures var (found, last) := Found(old(Table()), Ranges(), w, perm, ip, duid);
              && r == (match found case Some(n) => Some(ToV4(n)) case None => None)
              && Table() == At(old(Table()), w.now(last)) && Clock() == w.now(last)
    {
      clients.Advance(w.now(0));
      var n := Suggestion(Ranges(), ip);
      var oip, oduid := clients.Lookup(w.now(0), n, duid);
      if oduid != null {
        Clients.ConsistentIsInjective(clients.m, clients.Deadlines(), clients.table, clients.clock);
        AddressIsUnique(Table(), oduid.ip, duid);
        return Some(ToV4(oduid.ip));
      }
      if dyn.to == 0 && dyn.from == 0 {
        return None;
      }
      r := ProbeAll(w, perm, n, oip != null, old(Table()));
    }

    /** The list of offsets to probe: the suggestion's, when it is not taken, and the permutation. */
    method ProbeAll(w: World, perm: seq<nat>, n: u32, taken: bool, ghost t: Table) returns (r: Option<IP>)
      requires Valid() && ClockRuns(w, w.now(0)) && Clock() == w.now(0) && Table() == At(t, w.now(0))
      modifies clients
      ensures Valid() && clients.m.Values <= old(clients.m).Values
      ensures var (found, last) := Search(t, w, Candidates(n, taken, Ranges(), perm), 1);
              && r == (match found case Some(n) => Some(ToV4(n)) case None => None)
              && Table() == At(t, w.now(last)) && Clock() == w.now(last)
    {
      var p := perm;
      if !taken {
        p := [SubU32(n, dyn.from)] + perm;
      }
      OffsetsAreCandidates(n, taken, Ranges(), perm);
      r := Probe(w, p, t, Candidates(n, taken, Ranges(), perm));
    }

    /** The loop of `FindIP` over offsets from the start of the search range. */
    method Probe(w: World, p: seq<nat>, ghost t: Table, ghost cs: seq<u32>) returns (r: Option<IP>)
      requires Valid() && ClockRuns(w, w.now(0)) && Clock() == w.now(0) && Table() == At(t, w.now(0))
      requires |cs| == |p| && forall i | 0 <= i < |p| :: cs[i] == (dyn.from + p[i]) % U32_RANGE
      modifies clients
      ensures Valid() && clients.m.Values <= old(clients.m).Values
      ensures var (found, last) := Search(t, w, cs, 1);
              && r == (match found case Some(n) => Some(ToV4(n)) case None => None)
              && Table() == At(t, w.now(last)) && Clock() == w.now(last)
    {
      for j := 0 to |p|
        invariant Valid() && clients.m.Values <= old(clients.m).Values
        invariant Clock() == w.now(j) && Table() == At(t, w.now(j))
        invariant Search(t, w, cs, 1) == Search(t, w, cs[j..], j + 1)
      {
        if w.cancelled(j + 1) {
          return None;
        }
        var picked: u32 := (dyn.from + p[j]) % U32_RANGE;
        var hit := ProbeOne(w, j + 1, picked, t);
        if hit {
          return Some(ToV4(picked));
        }
      }
      return None;
    }

    method ProbeOne(w: World, i: nat, picked: u32, ghost t: Table) returns (hit: bool)
      requires Valid() && i > 0 && w.now(i - 1) <= w.now(i)
      requires Clock() == w.now(i - 1) && Table() == At(t, w.now(i - 1))
      modifies clients
      ensures Valid() && clients.m.Values <= old(clients.m).Values
      ensures Clock() == w.now(i) && Table() == At(t, w.now(i))
      ensures hit <==> Passes(t, w, i, picked)
    {
      AtAt(t, w.now(i - 1), w.now(i));
      clients.Advance(w.now(i));
      var e, _ := clients.Lookup(w.now(i), picked, []);
      hit := e == null && ValidHost(picked) && w.free(i, picked);
    }
  }
}
