/** The packets a client sends: `request` and the four message templates built on it. */
module Templates {
  import opened Bytes
  import opened DhcpMsg
  import opened Options
  import opened Packets
  import Layer
  import Replies

  const MAX_MSG_SIZE: u16 := 1500

  /** A template: transaction, hardware address, and the checksum of that address. */
  datatype Template = Template(xid: u32, hwaddr: seq<u8>, crc: u32)

  /** The identifier that a client sends. */
  function Cid(t: Template): (d: seq<u8>)
    ensures |d| == 15 && d[0] == 0xff
  {
    OptionClientIdentifier(t.hwaddr, t.crc).data
  }

  function WantedParameters(): seq<u8> {
    [OPT_SUBNET_MASK, OPT_ROUTER, OPT_LEASE_DURATION, OPT_SERVER_IDENTIFIER, OPT_DNS, OPT_DOMAIN_NAME, OPT_INTERFACE_MTU,
     OPT_RENEWAL_DURATION, OPT_REBIND_DURATION]
  }

  function FixedOptions(t: Template, msgType: u8): (os: seq<Opt>)
    ensures |os| == 4
  {
    [OptionType(msgType), OptionClientIdentifier(t.hwaddr, t.crc), OptionMaxMessageSize(MAX_MSG_SIZE),
     OptionParametersList(WantedParameters())]
  }

  function RequestedOptions(requested: IP): seq<Opt> { if requested != NIL_IP then [OptionRequestedIP(requested)] else [] }

  function ServerOptions(server: IP): seq<Opt> { if server != NIL_IP then [OptionServerIdentifier(server)] else [] }

  function RequestOptions(t: Template, msgType: u8, requested: IP, server: IP): seq<Opt> {
    FixedOptions(t, msgType) + (RequestedOptions(requested) + ServerOptions(server))
  }

  function RequestMessage(t: Template, msgType: u8, source: IP, requested: IP, server: IP): Message {
    Message(Replies.OP_REQUEST, Replies.HTYPE_ETHER, 0, t.xid, 0, 0, source, NIL_IP, NIL_IP, NIL_IP, t.hwaddr, Zeros(64), Zeros(128),
            Replies.DHCP_COOKIE, RequestOptions(t, msgType, requested, server))
  }

  function Request(t: Template, id: u16, msgType: u8, source: IP, destination: IP, requested: IP, server: IP): seq<u8> {
    var m := RequestMessage(t, msgType, source, requested, server);
    Layer.Ipv4Bytes(Packet(id, source, destination, Segment(CLIENT_PORT, SERVER_PORT, MessageBytes(m))))
  }

  /** `request` as written: the optional options are appended one after the other. */
  method BuildRequest(t: Template, id: u16, msgType: u8, source: IP, destination: IP, requested: IP, server: IP) returns (b: seq<u8>)
    ensures b == Request(t, id, msgType, source, destination, requested, server)
  {
    var opts := FixedOptions(t, msgType);
    if requested != NIL_IP {
      opts := opts + [OptionRequestedIP(requested)];
    }
    if server != NIL_IP {
      opts := opts + [OptionServerIdentifier(server)];
    }
    assert opts == RequestOptions(t, msgType, requested, server);
    b := Send(t, id, source, destination, opts);
  }

  method Send(t: Template, id: u16, source: IP, destination: IP, opts: seq<Opt>) returns (b: seq<u8>)
    ensures var m := Message(Replies.OP_REQUEST, Replies.HTYPE_ETHER, 0, t.xid, 0, 0, source, NIL_IP, NIL_IP, NIL_IP, t.hwaddr,
                             Zeros(64), Zeros(128), Replies.DHCP_COOKIE, opts);
            b == Layer.Ipv4Bytes(Packet(id, source, destination, Segment(CLIENT_PORT, SERVER_PORT, MessageBytes(m))))
  {
    var message := Assemble(Message(Replies.OP_REQUEST, Replies.HTYPE_ETHER, 0, t.xid, 0, 0, source, NIL_IP, NIL_IP, NIL_IP, t.hwaddr,
                                    Zeros(64), Zeros(128), Replies.DHCP_COOKIE, opts));
    var segment := Layer.AssembleUDP(Segment(CLIENT_PORT, SERVER_PORT, message));
    b := Layer.AssembleIPv4(Layer.IPv4(id, 0, TTL, Layer.PROTO_UDP, 0, source, destination, segment));
  }

  /** An unconfigured client, to everyone. */
  function Discover(t: Template, id: u16): seq<u8> { Request(t, id, MSG_DISCOVER, IPV4_ZERO, IPV4_BCAST, NIL_IP, NIL_IP) }

  /** An unconfigured client that has picked a server and an address, to everyone. */
  function RequestSelecting(t: Template, id: u16, requested: IP, server: IP): seq<u8> {
    Request(t, id, MSG_REQUEST, IPV4_ZERO, IPV4_BCAST, requested, server)
  }

  /** A configured client, to its server. */
  function RequestRenewing(t: Template, id: u16, address: IP, server: IP): seq<u8> {
    Request(t, id, MSG_REQUEST, address, server, NIL_IP, NIL_IP)
  }

  /** A configured client, to everyone. */
  function RequestRebinding(t: Template, id: u16, address: IP): seq<u8> {
    Request(t, id, MSG_REQUEST, address, IPV4_BCAST, NIL_IP, NIL_IP)
  }
}
