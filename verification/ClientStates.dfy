/**
 The states of a client (section 4.4 and figure 5 of RFC 2131). A step is one round of the main loop; what
 the network, the neighbours and the operating system do in that round is its input.
 */
module ClientStates {
  import opened Bytes
  import opened LeaseTable
  import opened DhcpMsg
  import opened Options
  import opened Deadlines
  import opened Network
  import opened Verify

  datatype Phase = PurgeInterface | Discovering | Selecting | ArpCheck | Ifconfig | Bound | Renewing | Rebinding

  /** `iface` holds the addresses of the interface, `offered` the address offered since the last discovery. */
  datatype Client = Client(
    phase: Phase,
    lastMsg: Message,
    lastOpts: DecodedOptions,
    deadlines: BoundDeadlines,
    iface: set<IP>,
    offered: Option<IP>
  )

  /**
   One round: when it starts and ends, the transaction of the question asked in it, the packets read until its
   deadline or its cancellation, who answers an ARP request for the address, whether the configuration of the
   interface succeeds, and whether the address has been set when it fails.
   */
  datatype Round = Round(
    now: Time,
    end: Time,
    xid: u32,
    packets: seq<seq<u8>>,
    arp: Option<seq<u8>>,
    configured: bool,
    addressSet: bool
  )

  /** The answer to a question, out of the packets of a round. */
  function Heard(hwaddr: seq<u8>, r: Round, q: Question): Reply { Answer(r.packets, b => Examined(q, hwaddr, b)) }

  function Take(c: Client, phase: Phase, r: Reply): Client
    requires r.Accepted?
  {
    c.(phase := phase, lastMsg := r.m, lastOpts := r.opt)
  }

  /** The interface loses its addresses, and the client starts all over. */
  function PanicReset(c: Client): Client { c.(phase := PurgeInterface, iface := {}) }

  function Asked(c: Client, xid: u32): Question {
    match c.phase
    case Rebinding => Acks(c.lastMsg, c.lastOpts, xid, false)
    case Selecting => Acks(c.lastMsg, c.lastOpts, xid, true)
    case Renewing => Acks(c.lastMsg, c.lastOpts, xid, true)
    case _ => Offers(xid)
  }

  function Step(hwaddr: seq<u8>, c: Client, r: Round): Client
    requires Sound(c)
  {
    match c.phase
    case PurgeInterface => c.(phase := Discovering, iface := {})
    case Discovering =>
      var a := Heard(hwaddr, r, Asked(c, r.xid));
      if a.Accepted? then Take(c, Selecting, a).(offered := Some(a.m.yourIP)) else c.(offered := None)
    case Selecting =>
      var a := Heard(hwaddr, r, Asked(c, r.xid));
      if a.Accepted? then Take(c, ArpCheck, a) else c.(phase := Discovering)
    case ArpCheck =>
      if r.arp.Some? && r.arp.value != hwaddr then PanicReset(c) else c.(phase := Ifconfig)
    case Ifconfig =>
      if r.configured then c.(phase := Bound, iface := c.iface + {Netconfig(c).ip}) else PanicReset(c)
    case Bound =>
      c.(phase := Renewing,
         deadlines := DeadlinesFrom(r.now, c.lastOpts.leaseDuration, c.lastOpts.renewalDuration, c.lastOpts.rebindDuration))
    case Renewing =>
      var a := Heard(hwaddr, r, Asked(c, r.xid));
      if a.Accepted? then Take(c, ArpCheck, a)
      else c.(phase := if a.Nack? then PurgeInterface else Rebinding)
    case Rebinding =>
      var a := Heard(hwaddr, r, Asked(c, r.xid));
      if a.Accepted? then Take(c, ArpCheck, a) else c.(phase := PurgeInterface)
  }

  /** A cancelled client is resumed: one with an address tries to keep it for five seconds. */
  function Resumed(c: Client, now: Time): Client {
    if c.phase in {Bound, Renewing, Rebinding} then
      c.(phase := Rebinding, deadlines := BoundDeadlines(now + RESUME_TIME, now + RESUME_TIME, now + RESUME_TIME))
    else c.(phase := PurgeInterface)
  }

  /** What an interface is configured with. */
  datatype Config = Config(ip: IP, router: IP, mtu: u16, netmask: seq<u8>, dns: seq<IP>, domainName: seq<u8>, lease: Time)

  /** The mask of the class that an address belongs to. */
  function DefaultMask(ip: IP): seq<u8> {
    if To4(ip) == NIL_IP then []
    else if To4(ip)[0] < 0x80 then [255, 0, 0, 0]
    else if To4(ip)[0] < 0xC0 then [255, 255, 0, 0]
    else [255, 255, 255, 0]
  }

  predicate ContiguousMask(mask: seq<u8>) { |mask| == 4 && exists k | 0 <= k <= 32 :: U32(mask) == HostMask(k) }

  /** The first router is always there. */
  function Netconfig(c: Client): Config
    requires Sound(c) && c.phase.Ifconfig?
  {
    Config(c.lastMsg.yourIP, c.lastOpts.routers[0], c.lastOpts.interfaceMTU,
           if ContiguousMask(c.lastOpts.subnetMask) then c.lastOpts.subnetMask else DefaultMask(c.lastMsg.yourIP),
           c.lastOpts.dns, c.lastOpts.domainName, c.lastOpts.leaseDuration)
  }

  /** Up to 32 one bits, and zeros behind them. */
  predicate OnesThenZeros(mask: seq<u8>) { |mask| == 4 && exists k: nat :: k <= 32 && U32(mask) == 0x1_0000_0000 - Pow2(k) }

  lemma MaskIs(mask: seq<u8>)
    ensures ContiguousMask(mask) <==> OnesThenZeros(mask)
  {
    if |mask| == 4 {
      if k :| 0 <= k <= 32 && U32(mask) == HostMask(k) {
        assert U32(mask) == 0x1_0000_0000 - Pow2(k);
      }
      if k: nat :| k <= 32 && U32(mask) == 0x1_0000_0000 - Pow2(k) {
        assert U32(mask) == HostMask(k);
      }
    }
  }

  lemma DefaultMaskIs(n: u32)
    ensures DefaultMask(ToV4(n)) ==
            if n < 0x8000_0000 then [255, 0, 0, 0] else if n < 0xC000_0000 then [255, 255, 0, 0] else [255, 255, 255, 0]
  {
    ToV4IsRightInverse(n);
    assert PutU32(n)[0] == n / 0x1_0000 / 0x100;
  }

  /**
   What an interface is configured with, by the fields of the acknowledgement: its address, its first router, MTU,
   DNS and domain, and its mask if this is one of up to 32 one bits in front of zeros; otherwise that of the class
   of the address, whose first byte is below 128, below 192, or neither.
   */
  lemma NetconfigIsExact(c: Client, n: u32)
    requires Sound(c) && c.phase.Ifconfig? && c.lastMsg.yourIP == ToV4(n)
    ensures var f, mask := Netconfig(c), c.lastOpts.subnetMask;
            && f.ip == c.lastMsg.yourIP && f.router == c.lastOpts.routers[0] && f.mtu == c.lastOpts.interfaceMTU
            && f.dns == c.lastOpts.dns && f.domainName == c.lastOpts.domainName && f.lease == c.lastOpts.leaseDuration
            && f.netmask ==
               if OnesThenZeros(mask) then mask
               else if n < 0x8000_0000 then [255, 0, 0, 0]
               else if n < 0xC000_0000 then [255, 255, 0, 0]
               else [255, 255, 255, 0]
  {
    DefaultMaskIs(n);
    MaskIs(c.lastOpts.subnetMask);
  }

  /** A reply that a client can live on. */
  predicate Usable(m: Message, opt: DecodedOptions) {
    && |opt.routers| > 0
    && |m.yourIP| == 16 && Assignable(m.yourIP)
    && Assignable(opt.serverIdentifier)
    && OnWire(opt.leaseDuration) && opt.leaseDuration >= MINUTE
    && OnWire(opt.renewalDuration) && OnWire(opt.rebindDuration)
  }

  predicate HasAck(c: Client) {
    Usable(c.lastMsg, c.lastOpts) && c.lastOpts.messageType == MSG_ACK && c.offered == Some(c.lastMsg.yourIP)
  }

  /** What holds in each phase, of the last reply and of the interface. */
  ghost predicate Sound(c: Client) {
    match c.phase
    case PurgeInterface => true
    case Discovering => c.iface == {}
    case Selecting =>
      && Usable(c.lastMsg, c.lastOpts) && c.lastOpts.messageType == MSG_OFFER
      && c.offered == Some(c.lastMsg.yourIP) && c.iface == {}
    case ArpCheck => HasAck(c) && c.iface <= {c.lastMsg.yourIP}
    case Ifconfig => HasAck(c) && c.iface <= {c.lastMsg.yourIP}
    case Bound => HasAck(c) && c.iface == {c.lastMsg.yourIP}
    case Renewing => HasAck(c) && c.iface == {c.lastMsg.yourIP} && c.deadlines.t1 <= c.deadlines.t2 <= c.deadlines.tx
    case Rebinding => HasAck(c) && c.iface == {c.lastMsg.yourIP} && c.deadlines.t1 <= c.deadlines.t2 <= c.deadlines.tx
  }

  lemma DurationsOnWire(x: seq<u8>)
    ensures OnWire(ToDuration(x))
  {
    if |x| == 4 {
      assert ToDuration(x) == U32(x) as int * 1_000_000_000;
    }
  }

  lemma DecodedOnWire(os: seq<Opt>)
    ensures var d := Decoded(os);
            OnWire(d.leaseDuration) && OnWire(d.renewalDuration) && OnWire(d.rebindDuration)
  {
    LastOccurrenceWins(os);
    DurationsOnWire(Last(os, OPT_LEASE_DURATION));
    DurationsOnWire(Last(os, OPT_RENEWAL_DURATION));
    DurationsOnWire(Last(os, OPT_REBIND_DURATION));
  }

  lemma ReceivedIsDecoded(b: seq<u8>, hwaddr: seq<u8>)
    ensures var r := Received(b, hwaddr);
            r.Some? ==> |r.value.0.yourIP| == 16 && r.value.1 == Decoded(r.value.0.options)
  {
  }

  /** Whatever comes off the wire and passes a verifier is a reply that a client can live on. */
  lemma AcceptedIsUsable(q: Question, hwaddr: seq<u8>, b: seq<u8>)
    ensures var a := Examined(q, hwaddr, b);
            a.Accepted? ==> Usable(a.m, a.opt) && Verdict(q, a.m, a.opt) == Passed
  {
    ReceivedIsDecoded(b, hwaddr);
    var r := Received(b, hwaddr);
    if r.Some? {
      DecodedOnWire(r.value.0.options);
    }
  }

  lemma HeardIsUsable(hwaddr: seq<u8>, r: Round, q: Question)
    ensures var a := Heard(hwaddr, r, q);
            a.Accepted? ==> Usable(a.m, a.opt) && Verdict(q, a.m, a.opt) == Passed
  {
    var n := AnswerIsFirst(r.packets, b => Examined(q, hwaddr, b));
    if n < |r.packets| {
      AcceptedIsUsable(q, hwaddr, r.packets[n]);
    }
  }

  /** A verified acknowledgement is for the address of the last reply. */
  lemma AckIsForOffer(q: Question, m: Message, opt: DecodedOptions)
    requires q.Acks? && Verdict(q, m, opt) == Passed && |m.yourIP| == 16 && |q.lm.yourIP| == 16
    ensures opt.messageType == MSG_ACK && m.yourIP == q.lm.yourIP
  {
  }

  lemma StepKeepsSound(hwaddr: seq<u8>, c: Client, r: Round)
    requires Sound(c)
    ensures Sound(Step(hwaddr, c, r))
  {
    var q := Asked(c, r.xid);
    HeardIsUsable(hwaddr, r, q);
    if Heard(hwaddr, r, q).Accepted? && q.Acks? {
      AckIsForOffer(q, Heard(hwaddr, r, q).m, Heard(hwaddr, r, q).opt);
    }
    if c.phase.Bound? {
      DeadlinesAreOrdered(r.now, c.lastOpts.leaseDuration, c.lastOpts.renewalDuration, c.lastOpts.rebindDuration);
    }
  }

  lemma ResumedKeepsSound(c: Client, now: Time)
    requires Sound(c)
    ensures Sound(Resumed(c, now))
  {
  }

  datatype Event = Turn(round: Round) | Resume(now: Time)

  /** A client after any rounds, resumptions among them; it is sound at every point of its life. */
  function Life(hwaddr: seq<u8>, c: Client, events: seq<Event>): (after: Client)
    requires Sound(c)
    ensures Sound(after)
  {
    if events == [] then c
    else
      var before := Life(hwaddr, c, events[..|events| - 1]);
      match events[|events| - 1]
      case Turn(r) => StepKeepsSound(hwaddr, before, r); Step(hwaddr, before, r)
      case Resume(now) => ResumedKeepsSound(before, now); Resumed(before, now)
  }

  /**
   From any start: a client that has an address is using the one of the offer that it accepted, which the
   server has acknowledged since, and no other; one that looks for an address has none.
   */
  lemma EveryLifeIsSound(hwaddr: seq<u8>, c: Client, events: seq<Event>)
    requires c.phase.PurgeInterface?
    ensures var x := Life(hwaddr, c, events);
            && (x.phase in {Selecting, ArpCheck, Ifconfig, Bound, Renewing, Rebinding} ==>
                  && |x.lastOpts.routers| > 0 && Assignable(x.lastMsg.yourIP) && x.offered == Some(x.lastMsg.yourIP))
            && (x.phase in {ArpCheck, Ifconfig, Bound, Renewing, Rebinding} ==> x.lastOpts.messageType == MSG_ACK)
            && (x.phase in {Bound, Renewing, Rebinding} ==> x.iface == {x.lastMsg.yourIP})
            && (x.phase in {Discovering, Selecting} ==> x.iface == {})
  {
    assert Sound(c);
    assert Sound(Life(hwaddr, c, events));
  }

  /** An address is never replaced in place: it goes before another comes. */
  lemma AddressesDoNotMix(hwaddr: seq<u8>, c: Client, r: Round)
    requires Sound(c)
    ensures var after := Step(hwaddr, c, r);
            c.iface == {} || after.iface == {} || after.iface == c.iface
  {
    if c.phase.Ifconfig? && c.iface != {} {
      assert c.iface == {c.lastMsg.yourIP};
    }
  }

  /** The deadlines of every bound client are in order. */
  lemma BoundIsOrdered(hwaddr: seq<u8>, c: Client, r: Round)
    requires Sound(c) && c.phase.Bound?
    ensures var b := Step(hwaddr, c, r).deadlines;
            r.now < b.t1 < b.t2 < b.tx == r.now + c.lastOpts.leaseDuration
  {
    DeadlinesAreOrdered(r.now, c.lastOpts.leaseDuration, c.lastOpts.renewalDuration, c.lastOpts.rebindDuration);
  }
}
