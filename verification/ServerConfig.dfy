/** What a server is configured to tell its clients: `LeaseOptions` and `dhcpOptions`. */
module ServerConfig {
  import opened Bytes
  import opened Keys
  import opened LeaseTable
  import opened DhcpMsg
  import opened Options

  datatype LeaseOptions = LeaseOptions(
    ip: IP,
    domain: seq<u8>,
    netmask: seq<u8>,
    router: IP,
    dns: seq<IP>,
    ntp: seq<IP>,
    leaseDuration: Time
  )

  /** The defaults, and the overrides of single clients under the strings of their internal DUIDs. */
  datatype Config = Config(lopts: LeaseOptions, overrides: map<string, LeaseOptions>)

  /** The internal DUID of a hardware address: type DUID-LL with an invalid hardware type. */
  function DuidFromHwAddr(hw: seq<u8>): (d: Duid)
    ensures |d| == 4 + |hw|
  {
    [0, 3, 0, 0] + hw
  }

  lemma DuidFromHwAddrInjective(a: seq<u8>, b: seq<u8>)
    requires DuidFromHwAddr(a) == DuidFromHwAddr(b)
    ensures a == b
  {
    assert DuidFromHwAddr(a)[4..] == a && DuidFromHwAddr(b)[4..] == b;
  }

  function Override(c: Config, mac: seq<u8>): Option<LeaseOptions> {
    var key := DuidString(DuidFromHwAddr(mac));
    if key in c.overrides then Some(c.overrides[key]) else None
  }

  /** What the client's own override says, or else the default. */
  function RouterFor(c: Config, mac: seq<u8>): IP {
    var ov := Override(c, mac);
    if ov.Some? && ov.value.router != NIL_IP then ov.value.router else c.lopts.router
  }

  function DnsFor(c: Config, mac: seq<u8>): seq<IP> {
    var ov := Override(c, mac);
    if ov.Some? && ov.value.dns != [] then ov.value.dns else c.lopts.dns
  }

  function NtpFor(c: Config, mac: seq<u8>): seq<IP> {
    var ov := Override(c, mac);
    if ov.Some? && ov.value.ntp != [] then ov.value.ntp else c.lopts.ntp
  }

  function DomainFor(c: Config, mac: seq<u8>): seq<u8> {
    var ov := Override(c, mac);
    if ov.Some? && ov.value.domain != [] then ov.value.domain else c.lopts.domain
  }

  function RouterOptions(c: Config, mac: seq<u8>): (os: seq<Opt>)
    ensures |os| <= 1 && forall o | o in os :: o.code == OPT_ROUTER && |o.data| == 4
  {
    if RouterFor(c, mac) != NIL_IP then [OptionRouter(RouterFor(c, mac))] else []
  }

  function DnsOptions(c: Config, mac: seq<u8>): (os: seq<Opt>)
    ensures |os| <= 1 && forall o | o in os :: o.code == OPT_DNS && |o.data| == 4 * |DnsFor(c, mac)|
  {
    if DnsFor(c, mac) != [] then [OptionDNS(DnsFor(c, mac))] else []
  }

  function NtpOptions(c: Config, mac: seq<u8>): (os: seq<Opt>)
    ensures |os| <= 1 && forall o | o in os :: o.code == OPT_NTP && |o.data| == 4 * |NtpFor(c, mac)|
  {
    if NtpFor(c, mac) != [] then [OptionNTP(NtpFor(c, mac))] else []
  }

  function DomainOptions(c: Config, mac: seq<u8>): (os: seq<Opt>)
    ensures |os| <= 1 && forall o | o in os :: o.code == OPT_DOMAIN_NAME && |o.data| == |DomainFor(c, mac)|
  {
    if DomainFor(c, mac) != [] then [OptionDomainName(DomainFor(c, mac))] else []
  }

  function LeaseAndMask(c: Config): seq<Opt>
    requires c.lopts.leaseDuration >= 0
  {
    [OptionLeaseDuration(c.lopts.leaseDuration), OptionSubnetMask(c.lopts.netmask)]
  }

  /** Lease and mask always come from the defaults; the rest is what applies to the client, if there is any. */
  function OptionsFor(c: Config, mac: seq<u8>): seq<Opt>
    requires c.lopts.leaseDuration >= 0
  {
    LeaseAndMask(c) + RouterOptions(c, mac) + DnsOptions(c, mac) + NtpOptions(c, mac) + DomainOptions(c, mac)
  }

  method DhcpOptions(c: Config, mac: seq<u8>) returns (opts: seq<Opt>)
    requires c.lopts.leaseDuration >= 0
    ensures opts == OptionsFor(c, mac)
  {
    opts := LeaseAndMask(c);
    var ov := Override(c, mac);
    if ov.Some? && ov.value.router != NIL_IP {
      opts := opts + [OptionRouter(ov.value.router)];
    } else if c.lopts.router != NIL_IP {
      opts := opts + [OptionRouter(c.lopts.router)];
    }
    ghost var p1 := LeaseAndMask(c) + RouterOptions(c, mac);
    assert opts == p1;
    if ov.Some? && ov.value.dns != [] {
      opts := opts + [OptionDNS(ov.value.dns)];
    } else if c.lopts.dns != [] {
      opts := opts + [OptionDNS(c.lopts.dns)];
    }
    ghost var p2 := p1 + DnsOptions(c, mac);
    assert opts == p2;
    if ov.Some? && ov.value.ntp != [] {
      opts := opts + [OptionNTP(ov.value.ntp)];
    } else if c.lopts.ntp != [] {
      opts := opts + [OptionNTP(c.lopts.ntp)];
    }
    ghost var p3 := p2 + NtpOptions(c, mac);
    assert opts == p3;
    if ov.Some? && ov.value.domain != [] {
      opts := opts + [OptionDomainName(ov.value.domain)];
    } else if c.lopts.domain != [] {
      opts := opts + [OptionDomainName(c.lopts.domain)];
    }
  }

  /** Every option for a client fits the one-byte length field. */
  predicate EncodableFor(c: Config, mac: seq<u8>) {
    |c.lopts.netmask| <= 255 && |DnsFor(c, mac)| <= 63 && |NtpFor(c, mac)| <= 63 && |DomainFor(c, mac)| <= 255
  }
}
