/** What both ends do with a datagram before they look at the DHCP message in it. */
module Packets {
  import opened Bytes
  import opened Layer

  const SERVER_PORT: u16 := 67
  const CLIENT_PORT: u16 := 68
  const TTL: u8 := 64

  /** The size of the buffer that both ends read packets into; what does not fit is lost. */
  const READ_BUFFER := 4096

  datatype Datagram = Datagram(protocol: u8, source: IP, destination: IP, dstPort: u16, payload: seq<u8>)

  function Segment(srcPort: u16, dstPort: u16, payload: seq<u8>): UDP { UDP(srcPort, dstPort, payload) }

  function Packet(id: u16, source: IP, destination: IP, u: UDP): IPv4 {
    IPv4(id, 0, TTL, PROTO_UDP, 0, source, destination, UdpBytes(u))
  }

  function Read(b: seq<u8>): seq<u8> { if |b| > READ_BUFFER then b[..READ_BUFFER] else b }

  /** Both decoders, one after the other. */
  function Opened(b: seq<u8>): Option<Datagram> {
    match DecodeIPv4(b)
    case None => None
    case Some(v4) =>
      match DecodeUDP(v4.data)
      case None => None
      case Some(udp) => Some(Datagram(v4.protocol, v4.source, v4.destination, udp.dstPort, udp.data))
  }

  /** Of all datagrams that IPv4 can carry, exactly those arrive that fit the 4096 bytes of the buffer, and they arrive whole. */
  lemma PacketArrives(id: u16, source: IP, destination: IP, u: UDP)
    requires 28 + |u.data| <= 0xffff
    ensures Opened(Read(Ipv4Bytes(Packet(id, source, destination, u)))) ==
            if 28 + |u.data| <= 4096 then Some(Datagram(17, Normal(source), Normal(destination), u.dstPort, u.data)) else None
  {
    var h := Packet(id, source, destination, u);
    if 28 + |u.data| > 4096 {
      PacketLength(h, u);
      CutIsRefused(h, Ipv4Bytes(h)[..READ_BUFFER]);
    } else {
      PacketLength(h, u);
      UdpInIpv4RoundTrip(h, u);
    }
  }

  lemma PacketLength(h: IPv4, u: UDP)
    requires h.data == UdpBytes(u)
    ensures |Ipv4Bytes(h)| == 28 + |u.data|
  {
    Ipv4Fields(h);
  }

  /** The length in its header gives away a packet that is cut. */
  lemma CutIsRefused(h: IPv4, b: seq<u8>)
    requires IPV4_HLEN <= |b| < |Ipv4Bytes(h)| <= 0xffff && b == Ipv4Bytes(h)[..|b|]
    ensures DecodeIPv4(b) == None
  {
    Ipv4Fields(h);
    assert b[2] == Ipv4Bytes(h)[2] && b[3] == Ipv4Bytes(h)[3];
  }
}
