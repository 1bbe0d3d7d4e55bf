/** What the server tells each of its clients, from the configuration to the options that the client decodes. */
module Configured {
  import opened Bytes
  import opened DhcpMsg
  import opened Options
  import opened ServerConfig
  import opened Server
  import Float64
  import Interop

  /** The NTP servers, which the client of this repository does not ask for. */
  lemma ReplyNtp(msgType: u8, server: IP, c: Config, mac: seq<u8>)
    requires c.lopts.leaseDuration >= 0
    ensures Last(Interop.ReplyOptions(msgType, server, c, mac), 42) == AddressesBytes(NtpFor(c, mac))
  {
    Interop.OptionsInOrder(msgType, server, c, mac);
    NtpOfFour(OptionType(msgType), OptionServerIdentifier(server), OptionLeaseDuration(c.lopts.leaseDuration),
              OptionSubnetMask(c.lopts.netmask), RouterOptions(c, mac), DnsOptions(c, mac), NtpOptions(c, mac), DomainOptions(c, mac));
  }

  lemma {:induction false} NtpOfFour(t: Opt, s: Opt, l: Opt, k: Opt, r: seq<Opt>, d: seq<Opt>, n: seq<Opt>, e: seq<Opt>)
    requires Interop.AtMostOne(r, OPT_ROUTER) && Interop.AtMostOne(d, OPT_DNS)
    requires Interop.AtMostOne(n, OPT_NTP) && Interop.AtMostOne(e, OPT_DOMAIN_NAME)
    requires OPT_NTP !in {t.code, s.code, l.code, k.code}
    ensures Last([t, s, l, k] + (r + (d + n + e)), OPT_NTP) == if n == [] then [] else n[0].data
  {
    var four := [t, s, l, k];
    Interop.FourWithout(t, s, l, k, OPT_NTP);
    Interop.WithoutBoth(four, r, OPT_NTP);
    Interop.WithoutBoth(four + r, d, OPT_NTP);
    assert four + (r + (d + n + e)) == (four + r + d) + (n + e);
    Interop.LastOptional(OPT_NTP, four + r + d, n, e);
  }

  /**
   A client with an entry of its own, and the last one for its hardware address, gets the router, the DNS and NTP
   servers and the domain of that entry where it has them, and the defaults otherwise; lease and mask are always
   the defaults.
   */
  lemma {:induction false} ClientIsToldItsOwn(msgType: u8, server: IP, lopts: LeaseOptions, cs: seq<StaticClient>, k: nat)
    requires lopts.leaseDuration >= 0 && k < |cs| && forall j | k < j < |cs| :: cs[j].hwaddr != cs[k].hwaddr
    ensures var os := Interop.ReplyOptions(msgType, server, Config(lopts, OverridesOf(cs)), cs[k].hwaddr);
            var told, own := Decoded(os), cs[k].opts;
            && told.routers == (if own.router != [] then [Normal(own.router)]
                                else if lopts.router != [] then [Normal(lopts.router)] else [])
            && told.dns == Interop.AllNormal(if own.dns != [] then own.dns else lopts.dns)
            && Last(os, 42) == AddressesBytes(if own.ntp != [] then own.ntp else lopts.ntp)
            && told.domainName == (if own.domain != [] then own.domain else lopts.domain)
            && told.subnetMask == (if |lopts.netmask| == 4 then lopts.netmask else [])
            && told.leaseDuration == Float64.Seconds(lopts.leaseDuration) % 0x1_0000_0000 * 1_000_000_000
  {
    var c, mac := Config(lopts, OverridesOf(cs)), cs[k].hwaddr;
    OverrideIsLast(lopts, cs, mac, k);
    Interop.ReplyDecoded(msgType, server, c, mac);
    ReplyNtp(msgType, server, c, mac);
  }

  /** A client without an entry gets the defaults. */
  lemma {:induction false} ClientIsToldDefaults(msgType: u8, server: IP, lopts: LeaseOptions, cs: seq<StaticClient>, mac: seq<u8>)
    requires lopts.leaseDuration >= 0 && forall j | 0 <= j < |cs| :: cs[j].hwaddr != mac
    ensures var os := Interop.ReplyOptions(msgType, server, Config(lopts, OverridesOf(cs)), mac);
            var told := Decoded(os);
            && told.routers == (if lopts.router != [] then [Normal(lopts.router)] else [])
            && told.dns == Interop.AllNormal(lopts.dns)
            && Last(os, 42) == AddressesBytes(lopts.ntp)
            && told.domainName == lopts.domain
  {
    var c := Config(lopts, OverridesOf(cs));
    OverrideIsLast(lopts, cs, mac, |cs|);
    Interop.ReplyDecoded(msgType, server, c, mac);
    ReplyNtp(msgType, server, c, mac);
  }
}
