/** DHCP options (sections 3.3 to 9 of RFC 2132): the builders and `DecodeOptions`. */
module Options {
  import opened Bytes
  import opened DhcpMsg
  import opened LeaseTable
  import Float64

  const OPT_SUBNET_MASK: u8 := 1
  const OPT_ROUTER: u8 := 3
  const OPT_DNS: u8 := 6
  const OPT_DOMAIN_NAME: u8 := 15
  const OPT_INTERFACE_MTU: u8 := 26
  const OPT_BROADCAST_ADDRESS: u8 := 28
  const OPT_NTP: u8 := 42
  const OPT_REQUESTED_IP: u8 := 50
  const OPT_LEASE_DURATION: u8 := 51
  const OPT_MESSAGE_TYPE: u8 := 53
  const OPT_SERVER_IDENTIFIER: u8 := 54
  const OPT_PARAMETERS_LIST: u8 := 55
  const OPT_MESSAGE: u8 := 56
  const OPT_MAX_MESSAGE_SIZE: u8 := 57
  const OPT_RENEWAL_DURATION: u8 := 58
  const OPT_REBIND_DURATION: u8 := 59
  const OPT_CLIENT_IDENTIFIER: u8 := 61

  const MSG_DISCOVER: u8 := 1
  const MSG_OFFER: u8 := 2
  const MSG_REQUEST: u8 := 3
  const MSG_ACK: u8 := 5
  const MSG_NACK: u8 := 6

  const SECOND: Time := 1_000_000_000
  const MINUTE: Time := 60 * SECOND

  datatype DecodedOptions = DecodedOptions(
    messageType: u8,
    maxMessageSize: u16,
    interfaceMTU: u16,
    requestedIP: IP,
    serverIdentifier: IP,
    broadcastAddress: IP,
    subnetMask: seq<u8>,
    routers: seq<IP>,
    dns: seq<IP>,
    leaseDuration: Time,
    renewalDuration: Time,
    rebindDuration: Time,
    domainName: seq<u8>,
    clientIdentifier: seq<u8>,
    message: seq<u8>,
    parametersList: seq<u8>
  )

  const NOTHING := DecodedOptions(0, 0, 0, [], [], [], [], [], [], 0, 0, 0, [], [], [], [])

  function ToUint8(x: seq<u8>): u8 { if |x| == 1 then x[0] else 0 }

  function ToUint16(x: seq<u8>): u16 { if |x| == 2 then U16(x) else 0 }

  function ToDuration(x: seq<u8>): Time { if |x| == 4 then U32(x) as int * SECOND else 0 }

  function ToNetmask(x: seq<u8>): seq<u8> { if |x| != 4 then [] else x }

  /** The address in the `k`-th group of four bytes. */
  function Quad(x: seq<u8>, k: nat): IP
    requires 4 * k + 4 <= |x|
  {
    IPv4(x[4 * k], x[4 * k + 1], x[4 * k + 2], x[4 * k + 3])
  }

  /** A list of addresses; data that is not made of whole addresses gives none. */
  function ToAddresses(x: seq<u8>): (v: seq<IP>) {
    if |x| % 4 == 0 then seq(|x| / 4, k requires 0 <= k < |x| / 4 => Quad(x, k)) else []
  }

  /** The loop of `toV4A`. */
  method ToV4A(x: seq<u8>) returns (v: seq<IP>)
    ensures v == ToAddresses(x)
  {
    v := [];
    if |x| >= 4 && |x| % 4 == 0 {
      var i := 0;
      while i < |x|
        invariant 0 <= i <= |x| && i == 4 * |v| && forall k | 0 <= k < |v| :: v[k] == Quad(x, k)
      {
        v := v + [IPv4(x[i], x[i + 1], x[i + 2], x[i + 3])];
        i := i + 4;
      }
    }
  }

  /** An address, when the data is exactly one. */
  function ToAddress(x: seq<u8>): IP {
    var v := ToAddresses(x);
    if |v| == 1 then v[0] else NIL_IP
  }

  /** One option sets one field; an unknown code none. */
  function Apply(d: DecodedOptions, o: Opt): DecodedOptions {
    if o.code == OPT_SUBNET_MASK then d.(subnetMask := ToNetmask(o.data))
    else if o.code == OPT_ROUTER then d.(routers := ToAddresses(o.data))
    else if o.code == OPT_DNS then d.(dns := ToAddresses(o.data))
    else if o.code == OPT_DOMAIN_NAME then d.(domainName := o.data)
    else if o.code == OPT_BROADCAST_ADDRESS then d.(broadcastAddress := ToAddress(o.data))
    else if o.code == OPT_REQUESTED_IP then d.(requestedIP := ToAddress(o.data))
    else if o.code == OPT_LEASE_DURATION then d.(leaseDuration := ToDuration(o.data))
    else if o.code == OPT_MESSAGE_TYPE then d.(messageType := ToUint8(o.data))
    else if o.code == OPT_MAX_MESSAGE_SIZE then d.(maxMessageSize := ToUint16(o.data))
    else if o.code == OPT_INTERFACE_MTU then d.(interfaceMTU := ToUint16(o.data))
    else if o.code == OPT_SERVER_IDENTIFIER then d.(serverIdentifier := ToAddress(o.data))
    else if o.code == OPT_MESSAGE then d.(message := o.data)
    else if o.code == OPT_RENEWAL_DURATION then d.(renewalDuration := ToDuration(o.data))
    else if o.code == OPT_REBIND_DURATION then d.(rebindDuration := ToDuration(o.data))
    else if o.code == OPT_CLIENT_IDENTIFIER then d.(clientIdentifier := o.data)
    else if o.code == OPT_PARAMETERS_LIST then d.(parametersList := o.data)
    else d
  }

  function Decoded(os: seq<Opt>): DecodedOptions {
    if os == [] then NOTHING else Apply(Decoded(os[..|os| - 1]), os[|os| - 1])
  }

  method DecodeOptions(opts: seq<Opt>) returns (d: DecodedOptions)
    ensures d == Decoded(opts)
  {
    d := NOTHING;
    for i := 0 to |opts|
      invariant d == Decoded(opts[..i])
    {
      assert opts[..i + 1][..i] == opts[..i];
      d := Apply(d, opts[i]);
    }
    assert opts[..|opts|] == opts;
  }

  /** The data of the last option with a code; no data when there is none. */
  function Last(os: seq<Opt>, code: u8): seq<u8> {
    if os == [] then [] else if os[|os| - 1].code == code then os[|os| - 1].data else Last(os[..|os| - 1], code)
  }

  /** The fields, each computed from the data found for its own code. */
  function Fields(data: u8 -> seq<u8>): DecodedOptions {
    DecodedOptions(
      ToUint8(data(OPT_MESSAGE_TYPE)),
      ToUint16(data(OPT_MAX_MESSAGE_SIZE)),
      ToUint16(data(OPT_INTERFACE_MTU)),
      ToAddress(data(OPT_REQUESTED_IP)),
      ToAddress(data(OPT_SERVER_IDENTIFIER)),
      ToAddress(data(OPT_BROADCAST_ADDRESS)),
      ToNetmask(data(OPT_SUBNET_MASK)),
      ToAddresses(data(OPT_ROUTER)),
      ToAddresses(data(OPT_DNS)),
      ToDuration(data(OPT_LEASE_DURATION)),
      ToDuration(data(OPT_RENEWAL_DURATION)),
      ToDuration(data(OPT_REBIND_DURATION)),
      data(OPT_DOMAIN_NAME),
      data(OPT_CLIENT_IDENTIFIER),
      data(OPT_MESSAGE),
      data(OPT_PARAMETERS_LIST))
  }

  lemma ApplySetsOneField(data: u8 -> seq<u8>, later: u8 -> seq<u8>, o: Opt)
    requires later(o.code) == o.data && forall c: u8 | c != o.code :: later(c) == data(c)
    ensures Apply(Fields(data), o) == Fields(later)
  {
    var d := Fields(data);
    assert o.code != OPT_ROUTER ==> Fields(later).routers == d.routers;
    assert o.code != OPT_DNS ==> Fields(later).dns == d.dns;
  }

  /** Each field is decoded from the last occurrence of its own option, and from nothing else. */
  lemma {:induction false} LastOccurrenceWins(os: seq<Opt>)
    ensures Decoded(os) == Fields(c => Last(os, c))
    decreases |os|
  {
    if os != [] {
      var init := os[..|os| - 1];
      LastOccurrenceWins(init);
      ApplySetsOneField(c => Last(init, c), c => Last(os, c), os[|os| - 1]);
    }
  }

  /** The address in these four bytes, and none in any other number of them. */
  function OneAddress(x: seq<u8>): IP { if |x| == 4 then IPv4(x[0], x[1], x[2], x[3]) else [] }

  /** Which option (RFC 2132) each field comes from, and how its bytes are read; data of the wrong length counts as nothing. */
  lemma FieldsAre(os: seq<Opt>)
    ensures var d := Decoded(os);
            && d.messageType == (if |Last(os, 53)| == 1 then Last(os, 53)[0] else 0)
            && d.subnetMask == (if |Last(os, 1)| == 4 then Last(os, 1) else [])
            && d.domainName == Last(os, 15) && d.message == Last(os, 56)
            && d.parametersList == Last(os, 55) && d.clientIdentifier == Last(os, 61)
  {
    LastOccurrenceWins(os);
  }

  lemma AddressesAre(os: seq<Opt>)
    ensures var d := Decoded(os);
            && d.requestedIP == OneAddress(Last(os, 50)) && d.serverIdentifier == OneAddress(Last(os, 54))
            && d.broadcastAddress == OneAddress(Last(os, 28))
  {
    LastOccurrenceWins(os);
    OneAddressIs(Last(os, 50));
    OneAddressIs(Last(os, 54));
    OneAddressIs(Last(os, 28));
  }

  lemma OneAddressIs(x: seq<u8>)
    ensures ToAddress(x) == OneAddress(x)
  {
  }

  /** Numbers are big-endian, and durations are whole seconds. */
  lemma NumbersAre(os: seq<Opt>)
    ensures var d, size, mtu := Decoded(os), Last(os, 57), Last(os, 26);
            && d.maxMessageSize == (if |size| == 2 then size[0] as int * 256 + size[1] as int else 0)
            && d.interfaceMTU == (if |mtu| == 2 then mtu[0] as int * 256 + mtu[1] as int else 0)
    ensures var d, l, t1, t2 := Decoded(os), Last(os, 51), Last(os, 58), Last(os, 59);
            && d.leaseDuration == (if |l| == 4 then BigEndian(l) * 1_000_000_000 else 0)
            && d.renewalDuration == (if |t1| == 4 then BigEndian(t1) * 1_000_000_000 else 0)
            && d.rebindDuration == (if |t2| == 4 then BigEndian(t2) * 1_000_000_000 else 0)
  {
    LastOccurrenceWins(os);
  }

  function BigEndian(x: seq<u8>): nat
    requires |x| == 4
  {
    ((x[0] as int * 256 + x[1] as int) * 256 + x[2] as int) * 256 + x[3] as int
  }

  /** Address lists are read in groups of four bytes. */
  lemma ListsAre(os: seq<Opt>)
    ensures var d, r, n := Decoded(os), Last(os, 3), Last(os, 6);
            && |d.routers| == (if |r| % 4 == 0 then |r| / 4 else 0)
            && (forall k | 0 <= k < |d.routers| :: d.routers[k] == IPv4(r[4 * k], r[4 * k + 1], r[4 * k + 2], r[4 * k + 3]))
            && |d.dns| == (if |n| % 4 == 0 then |n| / 4 else 0)
            && (forall k | 0 <= k < |d.dns| :: d.dns[k] == IPv4(n[4 * k], n[4 * k + 1], n[4 * k + 2], n[4 * k + 3]))
  {
    LastOccurrenceWins(os);
  }

  function OptionType(t: u8): Opt { Opt(OPT_MESSAGE_TYPE, [t]) }

  function OptionDomainName(n: seq<u8>): Opt { Opt(OPT_DOMAIN_NAME, n) }

  function OptionServerIdentifier(ip: IP): Opt { OptIP(OPT_SERVER_IDENTIFIER, [ip]) }

  function OptionRequestedIP(ip: IP): Opt { OptIP(OPT_REQUESTED_IP, [ip]) }

  function OptionRouter(ip: IP): Opt { OptIP(OPT_ROUTER, [ip]) }

  function OptionDNS(ips: seq<IP>): Opt { OptIP(OPT_DNS, ips) }

  function OptionNTP(ips: seq<IP>): Opt { OptIP(OPT_NTP, ips) }

  function OptionMaxMessageSize(size: u16): Opt { Opt(OPT_MAX_MESSAGE_SIZE, PutU16(size)) }

  function OptionParametersList(params: seq<u8>): Opt { Opt(OPT_PARAMETERS_LIST, params) }

  /** The number of seconds, by way of floating-point arithmetic, cut to 32 bits. */
  function OptionLeaseDuration(d: Time): Opt
    requires d >= 0
  {
    Opt(OPT_LEASE_DURATION, PutU32(Float64.Seconds(d) % U32_RANGE))
  }

  function OptionSubnetMask(mask: seq<u8>): Opt { Opt(OPT_SUBNET_MASK, mask) }

  /** An opaque identifier: type, a checksum of the address as IAID, and up to six bytes of the address. */
  function OptionClientIdentifier(hwaddr: seq<u8>, crc: u32): (o: Opt)
    ensures |o.data| == 15
  {
    Opt(OPT_CLIENT_IDENTIFIER, [0xff] + PutU32(crc) + [0, 3, 0, 1] + Fit(hwaddr, 6))
  }

  function AddressesBytes(ips: seq<IP>): (b: seq<u8>)
    ensures |b| == 4 * |ips|
    ensures forall k | 0 <= k < |ips| :: b[4 * k..4 * k + 4] == Wire4(ips[k])
  {
    var ws: seq<Word> := seq(|ips|, k requires 0 <= k < |ips| => Wire4(ips[k]));
    assert forall k | 0 <= k < |ips| :: ws[k] == Wire4(ips[k]);
    Concat(ws)
  }

  type Word = w: seq<u8> | |w| == 4 witness [0, 0, 0, 0]

  function Concat(ws: seq<Word>): (b: seq<u8>)
    ensures |b| == 4 * |ws|
    ensures forall k | 0 <= k < |ws| :: b[4 * k..4 * k + 4] == ws[k]
  {
    if ws == [] then [] else
    var init, last := Concat(ws[..|ws| - 1]), ws[|ws| - 1];
    Append(init, last);
    init + last
  }

  function OptIP(code: u8, ips: seq<IP>): (o: Opt)
    ensures o.code == code && |o.data| == 4 * |ips|
  {
    Opt(code, AddressesBytes(ips))
  }

  lemma AddressesOneMore(ips: seq<IP>, i: nat)
    requires i < |ips|
    ensures AddressesBytes(ips[..i + 1]) == AddressesBytes(ips[..i]) + Wire4(ips[i])
  {
    var ws := seq(i + 1, k requires 0 <= k < i + 1 => Wire4(ips[..i + 1][k]));
    assert ws[..i] == seq(i, k requires 0 <= k < i => Wire4(ips[..i][k]));
  }

  /** Copies the 4-byte form of an address, if it has one, over the zeros of a buffer. */
  method SetIPv4(b: array<u8>, at: nat, ip: IP)
    requires at + 4 <= b.Length && b[at] == b[at + 1] == b[at + 2] == b[at + 3] == 0
    modifies b
    ensures b[..at + 4] == old(b[..at]) + Wire4(ip)
    ensures forall k | at + 4 <= k < b.Length :: b[k] == old(b[k])
  {
    var v4 := To4(ip);
    if v4 != NIL_IP {
      b[at], b[at + 1], b[at + 2], b[at + 3] := v4[0], v4[1], v4[2], v4[3];
    }
  }

  /** `optIP` as written: a zeroed buffer, and a copy of each address that has a 4-byte form. */
  method BuildOptIP(code: u8, ips: seq<IP>) returns (o: Opt)
    ensures o == OptIP(code, ips)
  {
    var b := new u8[4 * |ips|](_ => 0);
    for i := 0 to |ips|
      invariant b[..4 * i] == AddressesBytes(ips[..i])
      invariant forall k | 4 * i <= k < b.Length :: b[k] == 0
    {
      SetIPv4(b, 4 * i, ips[i]);
      AddressesOneMore(ips, i);
      assert b[..4 * (i + 1)] == AddressesBytes(ips[..i]) + Wire4(ips[i]);
    }
    assert ips[..|ips|] == ips && b[..b.Length] == b[..];
    o := Opt(code, b[..]);
  }

  /** Decoding an address option returns its addresses in normal form. */
  lemma AddressesRoundTrip(ips: seq<IP>)
    ensures var v := ToAddresses(AddressesBytes(ips));
            |v| == |ips| && forall k | 0 <= k < |ips| :: v[k] == Normal(ips[k])
  {
    forall k | 0 <= k < |ips|
      ensures Quad(AddressesBytes(ips), k) == Normal(ips[k])
    {
      AddressAt(AddressesBytes(ips), k, Wire4(ips[k]));
    }
  }

  lemma AddressAt(b: seq<u8>, k: nat, w: Word)
    requires 4 * k + 4 <= |b| && b[4 * k..4 * k + 4] == w
    ensures Quad(b, k) == V4_IN_V6_PREFIX + w
  {
    assert b[4 * k..4 * k + 4] == [b[4 * k], b[4 * k + 1], b[4 * k + 2], b[4 * k + 3]];
  }

  lemma AddressOptionRoundTrip(code: u8, ip: IP)
    ensures ToAddress(OptIP(code, [ip]).data) == Normal(ip)
    ensures ToAddresses(OptIP(code, [ip]).data) == [Normal(ip)]
  {
    AddressesRoundTrip([ip]);
  }

  lemma LeaseOnTheWire(d: Time)
    requires d >= 0
    ensures ToDuration(OptionLeaseDuration(d).data) == Float64.Seconds(d) % U32_RANGE * SECOND
  {
  }

  /** What is left of a lease that is `f` longer than `q` seconds when `v` seconds of it are printed. */
  lemma LeaseRounded(d: Time, q: nat, f: nat, v: nat)
    requires d == q * SECOND + f && f < SECOND && (f == 0 && q < U32_RANGE ==> v == q)
    ensures v % U32_RANGE * SECOND == d <==> f == 0 && q < U32_RANGE
    ensures q <= v <= q + 1 < U32_RANGE ==> v % U32_RANGE * SECOND == v * SECOND && -SECOND < v * SECOND - d < SECOND
    ensures v == q < U32_RANGE ==> v % U32_RANGE * SECOND == d - f
  {
  }

  /**
   A lease of whole seconds comes back as it was, if their number fits 32 bits. Of any other one the fraction of
   a second is cut off, below 2^24 seconds for certain; above, a second may be made of it.
   */
  lemma LeaseDurationRoundTrip(d: Time)
    requires d >= 0
    ensures var r := ToDuration(OptionLeaseDuration(d).data);
            && (r == d <==> d % SECOND == 0 && d / SECOND < U32_RANGE)
            && (d / SECOND + 1 < U32_RANGE ==> r == Float64.Seconds(d) * SECOND && -SECOND < r - d < SECOND)
            && (d / SECOND < 0x100_0000 ==> r == d - d % SECOND)
  {
    LeaseOnTheWire(d);
    if d / SECOND < 0x100_0000 {
      Float64.SecondsBelow(d);
    }
    if d / SECOND + 1 < U32_RANGE {
      Float64.SecondsNear(d);
    }
    LeaseRounded(d, d / SECOND, d % SECOND, Float64.Seconds(d));
  }
}
