/** The server: every step of a handler as the code performs it on the lease database. */
module Server {
  import opened Bytes
  import opened Keys
  import opened LeaseTable
  import opened Grants
  import opened Handlers
  import opened Ipdb
  import opened Network
  import opened Options
  import opened Requests
  import opened Clients
  import ServerConfig
  import ServerSafety

  class Server {
    const setup: Setup
    const ipdb: IPDB
    var handlers: seq<Handler>
    ghost var log: seq<Grant>

    ghost predicate Valid()
      reads this, ipdb, ipdb.clients, ipdb.clients.m.Values
    {
      ipdb.Valid() && ipdb.net == setup.self.net && ipdb.dyn == setup.dyn && SetupOk(setup)
    }

    ghost function Db(): Database
      reads this, ipdb, ipdb.clients
    {
      Database(ipdb.Table(), ipdb.Clock(), log)
    }

    ghost function View(): State
      reads this, ipdb, ipdb.clients
    {
      State(Db(), handlers)
    }

    constructor (setup: Setup, db: IPDB)
      requires db.Valid() && db.net == setup.self.net && db.dyn == setup.dyn && SetupOk(setup)
      ensures this.setup == setup && ipdb == db && Valid()
      ensures View() == State(Database(db.Table(), db.Clock(), []), [])
    {
      this.setup, ipdb, handlers, log := setup, db, [], [];
    }

    /** The read loop: a request gets a handler, anything else is skipped. */
    method Receive(b: seq<u8>)
      requires Valid()
      modifies this
      ensures Valid()
      ensures View() == match Heard(b)
                        case Some(q) => Next(setup, old(View()), Action.Receive(q))
                        case None => old(View())
    {
      var q := Heard(b);
      if q.Some? {
        var opts := DecodeOptions(q.value.message.options);
        handlers := handlers + [Handler(q.value, opts, [], false, Fresh)];
      }
    }

    /** The DUID of the client, and then the guards of `handleMsg`, `handleDiscover` and `handleRequest`. */
    method Identify(h: nat, now: Time)
      requires Valid() && Enabled(setup, View(), Action.Identify(h, now))
      modifies this, ipdb.clients
      ensures Valid() && View() == Next(setup, old(View()), Action.Identify(h, now))
    {
      var x := handlers[h];
      var duid, shared := GetDuid(now, x.query.message.clientMAC, x.opts.clientIdentifier);
      handlers := handlers[h := x.(duid := duid, shared := shared, pc := PcFor(JobFor(setup.self, x.query, x.opts)))];
    }

    method GetDuid(now: Time, hwaddr: seq<u8>, cid: seq<u8>) returns (d: Duid, shared: bool)
      requires Valid() && Db().clock <= now
      modifies ipdb.clients
      ensures Valid() && Db() == Touched(old(Db()), Look(now))
      ensures d == DuidFor(At(old(ipdb.Table()), now), hwaddr, cid)
      ensures shared == !InternalDuid(At(old(ipdb.Table()), now), hwaddr, cid)
    {
      var sduid := ServerConfig.DuidFromHwAddr(hwaddr);
      var known := ipdb.LookupClientByDuid(now, sduid);
      if known.Some? {
        return sduid, false;
      }
      if |cid| < 4 {
        return sduid, false;
      }
      return cid, true;
    }

    /** What the next read does to the options of a packet that nobody has looked at yet, or to a DUID in use. */
    method Overwrite(h: nat, opts: DecodedOptions, duid: Duid)
      requires Valid() && Enabled(setup, View(), Action.Overwrite(h, opts, duid))
      modifies this
      ensures Valid() && View() == Next(setup, old(View()), Action.Overwrite(h, opts, duid))
    {
      var x := handlers[h];
      handlers := handlers[h := if x.pc.Fresh? then x.(opts := opts) else x.(duid := duid)];
    }

    method Find(h: nat, w: World, perm: seq<nat>)
      requires Valid() && Enabled(setup, View(), Action.Find(h, w, perm))
      modifies this, ipdb.clients
      ensures Valid() && View() == Next(setup, old(View()), Action.Find(h, w, perm))
    {
      var x := handlers[h];
      var found := ipdb.FindIP(w, perm, x.pc.suggestion, x.duid);
      handlers := handlers[h := x.(pc := if found.Some? then Offering(found.value) else Dropped)];
    }

    method Reserve(h: nat, now: Time)
      requires Valid() && Enabled(setup, View(), Action.Reserve(h, now))
      modifies this, ipdb.clients, ipdb.clients.m.Values
      ensures Valid() && View() == Next(setup, old(View()), Action.Reserve(h, now))
    {
      var x := handlers[h];
      var ok := Update(now, x.pc.ip, x.duid, OFFER_TIME);
      handlers := handlers[h := x.(pc := if ok then Offered(x.pc.ip) else Dropped)];
    }

    method LookUp(h: nat, now: Time)
      requires Valid() && Enabled(setup, View(), Action.LookUp(h, now))
      modifies this, ipdb.clients
      ensures Valid() && View() == Next(setup, old(View()), Action.LookUp(h, now))
    {
      var x := handlers[h];
      var lease := ipdb.LookupClientByDuid(now, x.duid);
      if lease.None? || !Equal(x.pc.desired, lease.value) {
        handlers := handlers[h := x.(pc := Nacked)];
      } else {
        handlers := handlers[h := x.(pc := Probing(lease.value))];
      }
    }

    /** `arpVerify`: the first answer, of up to three attempts, has to come from the client itself. */
    method ArpVerify(answers: nat -> Option<seq<u8>>, hw: seq<u8>) returns (free: bool)
      ensures free <==> forall i: nat | i < 3 && answers(i).Some? && (forall j: nat | j < i :: answers(j).None?) ::
                          answers(i) == Some(hw)
    {
      for i := 0 to 3
        invariant forall j: nat | j < i :: answers(j).None?
      {
        var v := answers(i);
        if v.Some? {
          return v.value == hw;
        }
      }
      return true;
    }

    method Arp(h: nat, answers: nat -> Option<seq<u8>>) returns (free: bool)
      requires Valid() && Enabled(setup, View(), Action.Arp(h, true))
      modifies this
      ensures Valid() && View() == Next(setup, old(View()), Action.Arp(h, free))
    {
      var x := handlers[h];
      free := ArpVerify(answers, x.query.message.clientMAC);
      handlers := handlers[h := x.(pc := if free then Confirming(x.pc.lease) else Nacked)];
    }

    method Confirm(h: nat, now: Time)
      requires Valid() && Enabled(setup, View(), Action.Confirm(h, now))
      modifies this, ipdb.clients, ipdb.clients.m.Values
      ensures Valid() && View() == Next(setup, old(View()), Action.Confirm(h, now))
    {
      var x := handlers[h];
      var ok := Update(now, x.pc.lease, x.duid, setup.leaseDuration);
      handlers := handlers[h := x.(pc := if ok then Acked(x.pc.lease) else Dropped)];
    }

    /** `UpdateClient`, with its entry in the history. */
    method Update(now: Time, ip: IP, d: Duid, ttl: Time) returns (ok: bool)
      requires Valid() && Db().clock <= now
      modifies this`log, ipdb.clients, ipdb.clients.m.Values
      ensures Valid() && Db() == Touched(old(Db()), UpdateEffect(setup, now, ip, d, ttl))
      ensures ok == Granting(old(Db()), UpdateEffect(setup, now, ip, d, ttl))
    {
      ok := ipdb.UpdateClient(now, ip, d, ttl);
      if ok {
        log := log + [Grant(now, ToUip(setup.self.net, ip).value, d, now + ttl)];
      }
    }
  }

  /** A client of the configuration, with its overrides applied to the defaults; `opts.ip` is its static address, if any. */
  datatype StaticClient = StaticClient(hwaddr: seq<u8>, opts: ServerConfig.LeaseOptions)

  function WithPermanent(net: Range, t: Table, ip: IP, d: Duid): Option<Table> {
    match ToUip(net, ip)
    case Some(n) => if Vacant(t, n, d) then Some(t[n := Lease(d, UNIX_EPOCH, true)]) else None
    case None => None
  }

  /** The permanent entries of the clients with a static address, unless two of them collide or one is not managed. */
  function Installed(net: Range, cs: seq<StaticClient>): Option<Table> {
    if cs == [] then Some(map[])
    else
      var c := cs[|cs| - 1];
      match Installed(net, cs[..|cs| - 1])
      case None => None
      case Some(t) => if c.opts.ip == NIL_IP then Some(t) else WithPermanent(net, t, c.opts.ip, ServerConfig.DuidFromHwAddr(c.hwaddr))
  }

  /** With the server's own entry, which comes last. */
  function InstalledWithSelf(self: Self, cs: seq<StaticClient>): Option<Table> {
    match Installed(self.net, cs)
    case None => None
    case Some(t) => WithPermanent(self.net, t, self.ip, ServerConfig.DuidFromHwAddr(self.mac))
  }

  ghost predicate Permanents(t: Table) { OneAddressPerDuid(t) && forall ip | ip in t :: t[ip].permanent }

  lemma WithPermanentKeeps(net: Range, t: Table, ip: IP, d: Duid, now: Time)
    requires Permanents(t)
    ensures At(t, now) == t
    ensures var r := WithPermanent(net, t, ip, d);
            r.Some? ==> Permanents(r.value) && To4(ip) != NIL_IP && Holds(r.value, AsU32(ip), d)
  {
  }

  /** What is installed is permanent, and one address per DUID; own address included. */
  lemma {:induction false} InstalledIsPermanent(net: Range, cs: seq<StaticClient>)
    ensures Installed(net, cs).Some? ==> Permanents(Installed(net, cs).value)
    decreases |cs|
  {
    if cs != [] {
      InstalledIsPermanent(net, cs[..|cs| - 1]);
    }
  }

  /** This client has this static address, and this is its internal DUID. */
  predicate HasEntry(c: StaticClient, n: u32, d: Duid) {
    c.opts.ip != NIL_IP && To4(c.opts.ip) != NIL_IP && AsU32(c.opts.ip) == n && d == [0, 3, 0, 0] + c.hwaddr
  }

  predicate Listed(cs: seq<StaticClient>, n: u32, d: Duid) { exists k :: 0 <= k < |cs| && HasEntry(cs[k], n, d) }

  /** The static addresses are managed; no two of them are the same, and no two are for the same hardware address. */
  ghost predicate Compatible(net: Range, cs: seq<StaticClient>) {
    && (forall k | 0 <= k < |cs| && cs[k].opts.ip != NIL_IP ::
          To4(cs[k].opts.ip) != NIL_IP && net.from <= AsU32(cs[k].opts.ip) <= net.to)
    && (forall j, k | 0 <= j < k < |cs| && cs[j].opts.ip != NIL_IP && cs[k].opts.ip != NIL_IP ::
          AsU32(cs[j].opts.ip) != AsU32(cs[k].opts.ip) && cs[j].hwaddr != cs[k].hwaddr)
  }

  /** The table has the entries of these clients, all of them permanent, and no others. */
  ghost predicate Describes(cs: seq<StaticClient>, t: Table) {
    && (forall n, d :: Holds(t, n, d) <==> Listed(cs, n, d))
    && (forall n | n in t :: t[n].permanent)
  }

  lemma ListedOneMore(cs: seq<StaticClient>, c: StaticClient, n: u32, d: Duid)
    ensures Listed(cs + [c], n, d) <==> Listed(cs, n, d) || HasEntry(c, n, d)
  {
    if k :| 0 <= k < |cs| && HasEntry(cs[k], n, d) {
      assert HasEntry((cs + [c])[k], n, d);
    }
    if HasEntry(c, n, d) {
      assert HasEntry((cs + [c])[|cs|], n, d);
    }
  }

  lemma CompatibleOneMore(net: Range, cs: seq<StaticClient>, c: StaticClient)
    ensures Compatible(net, cs + [c]) <==>
            && Compatible(net, cs)
            && (c.opts.ip != NIL_IP ==>
                  && To4(c.opts.ip) != NIL_IP && net.from <= AsU32(c.opts.ip) <= net.to
                  && forall k | 0 <= k < |cs| && cs[k].opts.ip != NIL_IP ::
                       To4(cs[k].opts.ip) != NIL_IP && AsU32(cs[k].opts.ip) != AsU32(c.opts.ip) && cs[k].hwaddr != c.hwaddr)
  {
    var all := cs + [c];
    assert all[|cs|] == c && forall k | 0 <= k < |cs| :: all[k] == cs[k];
  }

  /** Neither half of an entry is taken exactly if nobody listed has the address or the hardware address. */
  lemma VacantIffUnlisted(net: Range, cs: seq<StaticClient>, t: Table, n: u32, hwaddr: seq<u8>)
    requires Compatible(net, cs) && Describes(cs, t)
    ensures Vacant(t, n, ServerConfig.DuidFromHwAddr(hwaddr)) <==>
            forall k | 0 <= k < |cs| && cs[k].opts.ip != NIL_IP :: AsU32(cs[k].opts.ip) != n && cs[k].hwaddr != hwaddr
  {
    var d := ServerConfig.DuidFromHwAddr(hwaddr);
    if Vacant(t, n, d) {
      forall k | 0 <= k < |cs| && cs[k].opts.ip != NIL_IP
        ensures AsU32(cs[k].opts.ip) != n && cs[k].hwaddr != hwaddr
      {
        assert HasEntry(cs[k], AsU32(cs[k].opts.ip), [0, 3, 0, 0] + cs[k].hwaddr);
        assert Holds(t, AsU32(cs[k].opts.ip), [0, 3, 0, 0] + cs[k].hwaddr);
      }
    }
    if n in t {
      assert Holds(t, n, t[n].duid);
    }
    forall m | Holds(t, m, d)
      ensures exists k :: 0 <= k < |cs| && cs[k].opts.ip != NIL_IP && cs[k].hwaddr == hwaddr
    {
      var k :| 0 <= k < |cs| && HasEntry(cs[k], m, d);
      ServerConfig.DuidFromHwAddrInjective(cs[k].hwaddr, hwaddr);
    }
  }

  lemma DescribesOneMore(net: Range, cs: seq<StaticClient>, t: Table, c: StaticClient, n: u32)
    requires Describes(cs, t) && HasEntry(c, n, ServerConfig.DuidFromHwAddr(c.hwaddr)) && n !in t
    ensures Describes(cs + [c], t[n := Lease(ServerConfig.DuidFromHwAddr(c.hwaddr), UNIX_EPOCH, true)])
  {
    forall m, d
      ensures Listed(cs + [c], m, d) <==> Listed(cs, m, d) || HasEntry(c, m, d)
    {
      ListedOneMore(cs, c, m, d);
    }
  }

  /** The loop succeeds exactly for compatible clients, and leaves exactly their entries. */
  lemma {:induction false} InstalledIsExact(net: Range, cs: seq<StaticClient>)
    ensures Installed(net, cs).Some? <==> Compatible(net, cs)
    ensures Installed(net, cs).Some? ==> Describes(cs, Installed(net, cs).value)
    decreases |cs|
  {
    if cs != [] {
      var init, c := cs[..|cs| - 1], cs[|cs| - 1];
      assert cs == init + [c];
      InstalledIsExact(net, init);
      CompatibleOneMore(net, init, c);
      if Installed(net, init).Some? {
        var t := Installed(net, init).value;
        if c.opts.ip == NIL_IP {
          forall n, d
            ensures Listed(cs, n, d) <==> Listed(init, n, d)
          {
            ListedOneMore(init, c, n, d);
          }
        } else if To4(c.opts.ip) != NIL_IP {
          VacantIffUnlisted(net, init, t, AsU32(c.opts.ip), c.hwaddr);
          if AsU32(c.opts.ip) !in t {
            DescribesOneMore(net, init, t, c, AsU32(c.opts.ip));
          }
        }
      }
    }
  }

  /** The server itself, as the last of the static clients. */
  function Me(self: Self): StaticClient {
    StaticClient(self.mac, ServerConfig.LeaseOptions(self.ip, [], [], NIL_IP, [], [], 0))
  }

  lemma InstalledWithSelfIsExact(self: Self, cs: seq<StaticClient>)
    ensures InstalledWithSelf(self, cs).Some? <==> self.ip != NIL_IP && Compatible(self.net, cs + [Me(self)])
    ensures InstalledWithSelf(self, cs).Some? ==> Describes(cs + [Me(self)], InstalledWithSelf(self, cs).value)
  {
    InstalledIsExact(self.net, cs + [Me(self)]);
    InstalledIsExact(self.net, cs);
    CompatibleOneMore(self.net, cs, Me(self));
    assert (cs + [Me(self)])[..|cs|] == cs;
  }

  /** The search range of the configuration; none if it is not a range of managed addresses. */
  function ConfiguredRange(r: AddressRanges, dynamicRange: Option<(IP, IP)>, staticOnly: bool): Option<Range> {
    match dynamicRange
    case None => Some(if staticOnly then Range(0, 0) else r.dyn)
    case Some((begin, end)) =>
      match (ToUip(r.net, begin), ToUip(r.net, end))
      case (Some(b), Some(e)) => if b <= e then Some(if staticOnly then Range(0, 0) else Range(b, e)) else None
      case _ => None
  }

  /** A range has to be one of managed addresses in order; `staticOnly` wins over it. */
  lemma ConfiguredRangeIsExact(r: AddressRanges, dynamicRange: Option<(IP, IP)>, staticOnly: bool)
    ensures var c := ConfiguredRange(r, dynamicRange, staticOnly);
            match dynamicRange
            case None => c == Some(if staticOnly then Range(0, 0) else r.dyn)
            case Some((begin, end)) =>
              && (c.Some? <==>
                    && To4(begin) != NIL_IP && To4(end) != NIL_IP
                    && r.net.from <= AsU32(begin) <= AsU32(end) <= r.net.to)
              && (c.Some? ==> c.value == if staticOnly then Range(0, 0) else Range(AsU32(begin), AsU32(end)))
  {
  }

  method SearchRange(db: IPDB, dynamicRange: Option<(IP, IP)>, staticOnly: bool) returns (ok: bool)
    modifies db`dyn
    ensures ok <==> ConfiguredRange(old(db.Ranges()), dynamicRange, staticOnly).Some?
    ensures ok ==> db.dyn == ConfiguredRange(old(db.Ranges()), dynamicRange, staticOnly).value
    ensures ok && staticOnly ==> SearchDisabled(db.Ranges())
    ensures RangesOk(old(db.Ranges())) ==> RangesOk(db.Ranges())
  {
    if dynamicRange.Some? {
      var (begin, end) := dynamicRange.value;
      ok := db.SetDynamicRange(begin, end);
      if !ok {
        return false;
      }
    }
    if staticOnly {
      db.DisableDynamic();
    }
    return true;
  }

  function OverrideKey(hwaddr: seq<u8>): string { DuidString(ServerConfig.DuidFromHwAddr(hwaddr)) }

  /** The keys of the override map are strings of DUIDs. */
  predicate DuidKeys(overrides: map<string, ServerConfig.LeaseOptions>) { forall k | k in overrides :: k != "" && k[..1] == "<" }

  function OverridesOf(cs: seq<StaticClient>): (r: map<string, ServerConfig.LeaseOptions>) {
    if cs == [] then map[]
    else OverridesOf(cs[..|cs| - 1])[OverrideKey(cs[|cs| - 1].hwaddr) := cs[|cs| - 1].opts]
  }

  /** What is configured for a hardware address, by the last entry for it. */
  function LastFor(cs: seq<StaticClient>, hwaddr: seq<u8>): Option<ServerConfig.LeaseOptions> {
    if cs == [] then None
    else if cs[|cs| - 1].hwaddr == hwaddr then Some(cs[|cs| - 1].opts)
    else LastFor(cs[..|cs| - 1], hwaddr)
  }

  /** A client gets what is configured for its own hardware address, and nothing of any other. */
  lemma {:induction false} OverrideIsOwn(lopts: ServerConfig.LeaseOptions, cs: seq<StaticClient>, mac: seq<u8>)
    ensures ServerConfig.Override(ServerConfig.Config(lopts, OverridesOf(cs)), mac) == LastFor(cs, mac)
    decreases |cs|
  {
    if cs != [] {
      OverrideIsOwn(lopts, cs[..|cs| - 1], mac);
      var last := cs[|cs| - 1].hwaddr;
      if OverrideKey(last) == OverrideKey(mac) {
        DuidStringInjective(ServerConfig.DuidFromHwAddr(last), ServerConfig.DuidFromHwAddr(mac));
        ServerConfig.DuidFromHwAddrInjective(last, mac);
      }
    }
  }

  lemma {:induction false} LastForIsLast(cs: seq<StaticClient>, hwaddr: seq<u8>, k: nat)
    requires forall j | k < j < |cs| :: cs[j].hwaddr != hwaddr
    ensures k < |cs| && cs[k].hwaddr == hwaddr ==> LastFor(cs, hwaddr) == Some(cs[k].opts)
    ensures (forall j | 0 <= j <= k && j < |cs| :: cs[j].hwaddr != hwaddr) ==> LastFor(cs, hwaddr) == None
    decreases |cs|
  {
    if cs != [] && cs[|cs| - 1].hwaddr != hwaddr {
      LastForIsLast(cs[..|cs| - 1], hwaddr, k);
    }
  }

  /** The options of a client are those of the last entry for its hardware address, and there are none without an entry. */
  lemma OverrideIsLast(lopts: ServerConfig.LeaseOptions, cs: seq<StaticClient>, mac: seq<u8>, k: nat)
    requires forall j | k < j < |cs| :: cs[j].hwaddr != mac
    ensures var ov := ServerConfig.Override(ServerConfig.Config(lopts, OverridesOf(cs)), mac);
            && (k < |cs| && cs[k].hwaddr == mac ==> ov == Some(cs[k].opts))
            && ((forall j | 0 <= j < |cs| :: cs[j].hwaddr != mac) ==> ov == None)
  {
    OverrideIsOwn(lopts, cs, mac);
    LastForIsLast(cs, mac, k);
  }

  /** The loop over the configured clients. The check for a second override of an address never finds one. */
  method InstallClients(db: IPDB, cs: seq<StaticClient>, now: Time) returns (ok: bool, overrides: map<string, ServerConfig.LeaseOptions>)
    requires db.Valid() && db.Table() == map[] && db.Clock() <= now
    modifies db.clients
    ensures db.Valid() && db.Clock() <= now && fresh(db.clients.m.Values - old(db.clients.m).Values)
    ensures ok <==> Installed(db.net, cs).Some?
    ensures ok ==> db.Table() == Installed(db.net, cs).value
    ensures ok ==> overrides == OverridesOf(cs)
    ensures ok <==> Compatible(db.net, cs)
    ensures ok ==> Describes(cs, db.Table())
  {
    overrides := map[];
    InstalledIsExact(db.net, cs);
    for i := 0 to |cs|
      invariant db.Valid() && db.Clock() <= now && fresh(db.clients.m.Values - old(db.clients.m).Values)
      invariant Installed(db.net, cs[..i]) == Some(db.Table())
      invariant DuidKeys(overrides) && overrides == OverridesOf(cs[..i])
    {
      assert cs[..i + 1][..i] == cs[..i];
      ok := InstallOne(db, cs, i, now);
      if !ok {
        return false, overrides;
      }
      overrides := AddOverride(overrides, cs[i]);
    }
    assert cs[..|cs|] == cs;
    ok := true;
  }

  method AddOverride(overrides: map<string, ServerConfig.LeaseOptions>, c: StaticClient)
    returns (r: map<string, ServerConfig.LeaseOptions>)
    requires DuidKeys(overrides)
    ensures DuidKeys(r) && r == overrides[OverrideKey(c.hwaddr) := c.opts]
  {
    HwStringIsNoDuid(c.hwaddr, ServerConfig.DuidFromHwAddr(c.hwaddr));
    if HwString(c.hwaddr) in overrides {
      assert false;
    }
    r := overrides[OverrideKey(c.hwaddr) := c.opts];
  }

  lemma {:induction false} FailureStays(net: Range, cs: seq<StaticClient>, i: nat)
    requires i <= |cs| && Installed(net, cs[..i]).None?
    ensures Installed(net, cs).None?
    decreases |cs| - i
  {
    if i < |cs| {
      assert cs[..i + 1][..i] == cs[..i];
      FailureStays(net, cs, i + 1);
    } else {
      assert cs[..i] == cs;
    }
  }

  method InstallOne(db: IPDB, cs: seq<StaticClient>, i: nat, now: Time) returns (ok: bool)
    requires db.Valid() && i < |cs| && Installed(db.net, cs[..i]) == Some(db.Table()) && db.Clock() <= now
    modifies db.clients
    ensures db.Valid() && db.Clock() <= now && fresh(db.clients.m.Values - old(db.clients.m).Values)
    ensures ok ==> Installed(db.net, cs[..i + 1]) == Some(db.Table())
    ensures !ok ==> Installed(db.net, cs).None?
  {
    var c := cs[i];
    assert cs[..i + 1][..i] == cs[..i];
    InstalledIsPermanent(db.net, cs[..i]);
    ok := true;
    if c.opts.ip != NIL_IP {
      WithPermanentKeeps(db.net, db.Table(), c.opts.ip, ServerConfig.DuidFromHwAddr(c.hwaddr), now);
      ok := db.AddPermanentClient(now, c.opts.ip, ServerConfig.DuidFromHwAddr(c.hwaddr));
    }
    if !ok {
      FailureStays(db.net, cs, i + 1);
    }
  }

  method Populate(db: IPDB, cs: seq<StaticClient>, self: Self, now: Time) returns (ok: bool, overrides: map<string, ServerConfig.LeaseOptions>)
    requires db.Valid() && db.Table() == map[] && db.Clock() <= now && db.net == self.net
    modifies db.clients
    ensures db.Valid() && fresh(db.clients.m.Values - old(db.clients.m).Values)
    ensures ok <==> InstalledWithSelf(self, cs).Some?
    ensures ok ==> db.Table() == InstalledWithSelf(self, cs).value && Permanents(db.Table()) && overrides == OverridesOf(cs)
    ensures ok ==> To4(self.ip) != NIL_IP && Holds(db.Table(), AsU32(self.ip), ServerConfig.DuidFromHwAddr(self.mac))
  {
    ok, overrides := InstallClients(db, cs, now);
    if !ok {
      return false, overrides;
    }
    InstalledIsPermanent(db.net, cs);
    WithPermanentKeeps(db.net, db.Table(), self.ip, ServerConfig.DuidFromHwAddr(self.mac), now);
    ok := db.AddPermanentClient(now, self.ip, ServerConfig.DuidFromHwAddr(self.mac));
  }

  /** An address that is managed shows that the managed range is not inverted. */
  lemma ManagedRange(self: Self, cs: seq<StaticClient>)
    requires InstalledWithSelf(self, cs).Some?
    ensures self.net.from <= self.net.to
  {
  }

  /** When a server starts. */
  ghost predicate Startable(network: IP, netmask: seq<u8>, dynamicRange: Option<(IP, IP)>, selfIP: IP, selfMAC: seq<u8>, cs: seq<StaticClient>) {
    && To4(network) != NIL_IP && |netmask| == 4
    && var net := FromTo(network, netmask).value;
    && (match dynamicRange
        case None => true
        case Some((begin, end)) =>
          To4(begin) != NIL_IP && To4(end) != NIL_IP && net.from <= AsU32(begin) <= AsU32(end) <= net.to)
    && selfIP != NIL_IP && Compatible(net, cs + [Me(Self(selfMAC, selfIP, net))])
  }

  lemma StartsIffStartable(network: IP, netmask: seq<u8>, dynamicRange: Option<(IP, IP)>, staticOnly: bool, selfIP: IP, selfMAC: seq<u8>,
                           cs: seq<StaticClient>)
    ensures Startable(network, netmask, dynamicRange, selfIP, selfMAC, cs) <==>
            && FromTo(network, netmask).Some?
            && var net := FromTo(network, netmask).value;
            && ConfiguredRange(AddressRanges(net, net), dynamicRange, staticOnly).Some?
            && InstalledWithSelf(Self(selfMAC, selfIP, net), cs).Some?
  {
    if FromTo(network, netmask).Some? {
      var net := FromTo(network, netmask).value;
      ConfiguredRangeIsExact(AddressRanges(net, net), dynamicRange, staticOnly);
      InstalledWithSelfIsExact(Self(selfMAC, selfIP, net), cs);
    }
  }

  /**
   `New`. A server that starts has the permanent entries of the configuration and its own, and no others;
   with `staticOnly` it never searches.
   */
  method New(network: IP, netmask: seq<u8>, dynamicRange: Option<(IP, IP)>, staticOnly: bool, cs: seq<StaticClient>,
             selfIP: IP, selfMAC: seq<u8>, leaseDuration: Time, now: Time)
    returns (s: Server?, overrides: map<string, ServerConfig.LeaseOptions>)
    requires leaseDuration >= MINUTE
    ensures s != null ==> fresh(s) && fresh(s.ipdb) && fresh(s.ipdb.clients) && fresh(s.ipdb.clients.m.Values)
    ensures s != null <==> Startable(network, netmask, dynamicRange, selfIP, selfMAC, cs)
    ensures s != null ==> s.Valid() && Initial(s.setup, s.View()) && overrides == OverridesOf(cs)
    ensures s != null ==>
              && FromTo(network, netmask) == Some(s.setup.self.net)
              && Some(s.setup.dyn) == ConfiguredRange(AddressRanges(s.setup.self.net, s.setup.self.net), dynamicRange, staticOnly)
              && s.setup == Setup(Self(selfMAC, selfIP, s.setup.self.net), s.setup.dyn, leaseDuration)
              && (staticOnly ==> SearchDisabled(RangesOf(s.setup)))
    ensures s != null ==> Some(s.View().db.table) == InstalledWithSelf(s.setup.self, cs)
    ensures s != null ==> selfIP != NIL_IP && Compatible(s.setup.self.net, cs + [Me(s.setup.self)])
    ensures s != null ==> Describes(cs + [Me(s.setup.self)], s.View().db.table)
    ensures s != null ==> To4(selfIP) != NIL_IP && Holds(s.View().db.table, AsU32(selfIP), ServerConfig.DuidFromHwAddr(selfMAC))
  {
    overrides := map[];
    StartsIffStartable(network, netmask, dynamicRange, staticOnly, selfIP, selfMAC, cs);
    var db := IPDB.New(network, netmask, now);
    if db == null {
      return null, overrides;
    }
    var ok := SearchRange(db, dynamicRange, staticOnly);
    if !ok {
      return null, overrides;
    }
    var self := Self(selfMAC, selfIP, db.net);
    ok, overrides := Populate(db, cs, self, now);
    if !ok {
      return null, overrides;
    }
    ManagedRange(self, cs);
    InstalledWithSelfIsExact(self, cs);
    s := new Server(Setup(self, db.dyn, leaseDuration), db);
  }

  /**
   In every run from such a start, a client with a static address is known by its hardware address whatever it
   sends, and each search finds its address at the first look, without a probe.
   */
  lemma StaticClientIsFound(c: Setup, s: State, cs: seq<StaticClient>, run: seq<Action>, k: nat, n: u32, sent: seq<u8>,
                            now: Time, w: World, perm: seq<nat>, suggestion: IP)
    requires Initial(c, s) && Describes(cs, s.db.table) && Possible(c, s, run)
    requires k < |cs| && cs[k].opts.ip != NIL_IP && To4(cs[k].opts.ip) != NIL_IP && AsU32(cs[k].opts.ip) == n
    ensures var t, d := After(c, s, run).db.table, [0, 3, 0, 0] + cs[k].hwaddr;
            && DuidFor(At(t, now), cs[k].hwaddr, sent) == d
            && Found(t, RangesOf(c), w, perm, suggestion, d) == (Some(n), 0)
            && n in t && t[n].duid == d && t[n].permanent
  {
    var t, d := After(c, s, run).db.table, ServerConfig.DuidFromHwAddr(cs[k].hwaddr);
    assert HasEntry(cs[k], n, d);
    assert Holds(s.db.table, n, d);
    ServerSafety.StaticClientKeepsItsAddress(c, s, run, cs[k].hwaddr, n, sent, now);
    ServerSafety.EveryRunIsSafe(c, s, run);
    FoundWithoutSearch(t, RangesOf(c), w, perm, suggestion, d, n);
  }
}
