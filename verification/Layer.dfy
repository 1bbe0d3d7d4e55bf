/** IPv4 and UDP packets: `layer.IPv4` and `layer.UDP`. */
module Layer {
  import opened Bytes
  import opened Buffer
  import opened Checksum

  const PROTO_UDP: u8 := 0x11
  const IPV4_HLEN := 20
  const UDP_HLEN := 8
  const MAX_PACKET := 0xffff

  datatype IPv4 = IPv4(
    identification: u16,
    flags: u16,
    ttl: u8,
    protocol: u8,
    checksum: u16,
    source: IP,
    destination: IP,
    data: seq<u8>
  )

  datatype UDP = UDP(srcPort: u16, dstPort: u16, data: seq<u8>)

  /** The packet before its checksums are set; lengths are cut to 16 bits. */
  function Ipv4Header(h: IPv4): (b: seq<u8>)
    ensures |b| == IPV4_HLEN
  {
    [0x45, 0] + PutU16((IPV4_HLEN + |h.data|) % 0x1_0000) + PutU16(h.identification) + PutU16(h.flags)
    + [h.ttl, h.protocol] + Zeros(2) + Wire4(h.source) + Wire4(h.destination)
  }

  function Ipv4Bytes(h: IPv4): seq<u8> { Checksummed(Ipv4Header(h) + h.data).0 }

  method AssembleIPv4(h: IPv4) returns (r: seq<u8>)
    ensures r == Ipv4Bytes(h)
  {
    var dlen := |h.data|;
    var b := NewBuffer(IPV4_HLEN + dlen);
    ghost var w := Fill(b, 0, [], [0x45, 0]);
    assert w == [0x45, 0];
    w := Fill(b, 2, w, PutU16((IPV4_HLEN + dlen) % 0x1_0000));
    w := Fill(b, 4, w, PutU16(h.identification));
    w := Fill(b, 6, w, PutU16(h.flags));
    w := Fill(b, 8, w, [h.ttl, h.protocol]);
    w := Skip(b, w, 2);
    w := Fill(b, 12, w, Wire4(h.source));
    w := Fill(b, 16, w, Wire4(h.destination));
    assert w == Ipv4Header(h);
    w := Fill(b, 20, w, h.data);
    assert b[..] == w;
    var _ := SetV4Checksum(b);
    r := b[..];
  }

  function DecodeIPv4(b: seq<u8>): Option<IPv4> {
    if |b| < IPV4_HLEN then None
    else
      var version, ihl := b[0] as int / 16, b[0] as int % 16 * 4;
      if version != 4 || |b| < ihl || ihl < IPV4_HLEN then None
      else if U16(b[2..]) != |b| then None
      else Some(IPv4(U16(b[4..]), U16(b[6..]), b[8], b[9], U16(b[10..]),
                     V4_IN_V6_PREFIX + b[12..16], V4_IN_V6_PREFIX + b[16..20], b[ihl..]))
  }

  function UdpBytes(u: UDP): seq<u8> {
    PutU16(u.srcPort) + PutU16(u.dstPort) + PutU16((UDP_HLEN + |u.data|) % 0x1_0000) + Zeros(2) + u.data
  }

  method AssembleUDP(u: UDP) returns (r: seq<u8>)
    ensures r == UdpBytes(u)
  {
    var dlen := |u.data|;
    var b := NewBuffer(UDP_HLEN + dlen);
    ghost var w := Fill(b, 0, [], PutU16(u.srcPort));
    assert w == PutU16(u.srcPort);
    w := Fill(b, 2, w, PutU16(u.dstPort));
    w := Fill(b, 4, w, PutU16((UDP_HLEN + dlen) % 0x1_0000));
    w := Skip(b, w, 2);
    w := Fill(b, 8, w, u.data);
    assert b[..] == w;
    r := b[..];
  }

  function DecodeUDP(b: seq<u8>): Option<UDP> {
    if |b| < UDP_HLEN then None
    else if U16(b[4..]) != |b| then None
    else Some(UDP(U16(b), U16(b[2..]), b[UDP_HLEN..]))
  }

  /** The payload as the receiver sees it: a UDP segment comes with its checksum. */
  function Delivered(h: IPv4): seq<u8> {
    var b := Ipv4Header(h) + h.data;
    Checksummed(b).0[IPV4_HLEN..]
  }

  lemma HeaderFields(h: IPv4)
    ensures var b := Ipv4Header(h) + h.data;
            && b[0] == 0x45 && b[8] == h.ttl && b[9] == h.protocol && b[10] == b[11] == 0
            && b[2..4] == PutU16((IPV4_HLEN + |h.data|) % 0x1_0000)
            && b[4..6] == PutU16(h.identification) && b[6..8] == PutU16(h.flags)
            && b[12..16] == Wire4(h.source) && b[16..20] == Wire4(h.destination) && b[20..] == h.data
  {
  }

  predicate ChecksumByte(i: int) { i == 10 || i == 11 || i == 26 || i == 27 }

  /** Setting the checksums touches the bytes 10, 11, 26 and 27 only. */
  lemma ChecksummedElsewhere(b: seq<u8>, i: nat)
    requires |b| >= 20 && b[0] == 0x45 && i < |b| && !ChecksumByte(i)
    ensures Checksummed(b).0[i] == b[i]
  {
    var h := Patch(b, 10, Csum(b[..20], 0));
    PatchElsewhere(b, 10, Csum(b[..20], 0), i);
    if h[9] == 0x11 && |h| >= 28 {
      PatchElsewhere(h, 26, Csum(h[20..], SegmentStart(h, 20)), i);
    }
  }

  lemma ChecksummedFields(b: seq<u8>)
    requires |b| >= 20 && b[0] == 0x45
    ensures var r := Checksummed(b).0;
            && r[0] == b[0] && r[2..4] == b[2..4] && r[4..6] == b[4..6] && r[6..8] == b[6..8]
            && r[8] == b[8] && r[9] == b[9] && r[12..16] == b[12..16] && r[16..20] == b[16..20]
  {
    forall i: nat | i < |b| && !ChecksumByte(i)
      ensures Checksummed(b).0[i] == b[i]
    {
      ChecksummedElsewhere(b, i);
    }
  }

  lemma Ipv4Fields(h: IPv4)
    ensures var r := Ipv4Bytes(h);
            && |r| == IPV4_HLEN + |h.data| && r[0] == 0x45 && r[8] == h.ttl && r[9] == h.protocol
            && U16(r[2..]) == (IPV4_HLEN + |h.data|) % 0x1_0000 && U16(r[4..]) == h.identification && U16(r[6..]) == h.flags
            && r[12..16] == Wire4(h.source) && r[16..20] == Wire4(h.destination) && r[20..] == Delivered(h)
  {
    var r := Ipv4Bytes(h);
    HeaderFields(h);
    ChecksummedFields(Ipv4Header(h) + h.data);
    U16Slice(r, 2);
    U16Slice(r, 4);
    U16Slice(r, 6);
  }

  /** A packet is decoded to what was assembled, up to its checksums, exactly when its length fits 16 bits. */
  lemma Ipv4RoundTrip(h: IPv4)
    ensures var d := DecodeIPv4(Ipv4Bytes(h));
            && (d.Some? <==> IPV4_HLEN + |h.data| <= MAX_PACKET)
            && (d.Some? ==> d.value == h.(checksum := d.value.checksum, source := Normal(h.source),
                                         destination := Normal(h.destination), data := Delivered(h)))
  {
    Ipv4Fields(h);
  }

  /** The bytes 6 and 7 of a segment are its checksum, which `DecodeUDP` does not look at. */
  predicate SameButChecksum(s: seq<u8>, t: seq<u8>) {
    |s| == |t| && forall i | 0 <= i < |s| && i != 6 && i != 7 :: s[i] == t[i]
  }

  lemma DecodeSegment(u: UDP, s: seq<u8>)
    requires SameButChecksum(s, UdpBytes(u))
    ensures DecodeUDP(s) == if UDP_HLEN + |u.data| <= MAX_PACKET then Some(u) else None
  {
    var b := UdpBytes(u);
    assert b[0..2] == PutU16(u.srcPort) && b[2..4] == PutU16(u.dstPort) && b[8..] == u.data;
    assert b[4..6] == PutU16(|s| % 0x1_0000);
    assert s[0..2] == b[0..2] && s[2..4] == b[2..4] && s[4..6] == b[4..6] && s[8..] == b[8..];
    U16Slice(s, 0);
    U16Slice(s, 2);
    U16Slice(s, 4);
  }

  lemma UdpRoundTrip(u: UDP)
    ensures DecodeUDP(UdpBytes(u)) == if UDP_HLEN + |u.data| <= MAX_PACKET then Some(u) else None
  {
    DecodeSegment(u, UdpBytes(u));
  }

  /** A segment inside a packet: what both decoders return, although the checksum overwrote part of the payload. */
  lemma UdpInIpv4RoundTrip(h: IPv4, u: UDP)
    requires h.protocol == PROTO_UDP && h.data == UdpBytes(u)
    ensures var d := DecodeIPv4(Ipv4Bytes(h));
            && (d.Some? <==> IPV4_HLEN + UDP_HLEN + |u.data| <= MAX_PACKET)
            && (d.Some? ==>
                  && d.value.protocol == PROTO_UDP
                  && d.value.source == Normal(h.source) && d.value.destination == Normal(h.destination)
                  && DecodeUDP(d.value.data) == Some(u))
  {
    Ipv4RoundTrip(h);
    DeliveredSegment(h);
    DecodeSegment(u, Delivered(h));
  }

  lemma DeliveredSegment(h: IPv4)
    ensures SameButChecksum(Delivered(h), h.data)
  {
    var b := Ipv4Header(h) + h.data;
    forall i | 0 <= i < |h.data| && i != 6 && i != 7
      ensures Delivered(h)[i] == h.data[i]
    {
      ChecksummedElsewhere(b, 20 + i);
      assert Delivered(h)[i] == Checksummed(b).0[20 + i];
    }
  }

  /** Both sums of an assembled UDP packet come out at the receiver, that of the segment with both addresses. */
  lemma AssembledPacketVerifies(h: IPv4, u: UDP)
    requires h.protocol == PROTO_UDP && h.data == UdpBytes(u) && IPV4_HLEN + UDP_HLEN + |u.data| <= MAX_PACKET
    ensures var r := Ipv4Bytes(h);
            && Fold(WordSum(r[..20])) == 0xffff
            && Fold(WordSum(Wire4(h.source) + Wire4(h.destination) + [0, 17] + PutU16(8 + |u.data|) + r[20..])) == 0xffff
  {
    HeaderFields(h);
    assert h.data[6] == h.data[7] == 0;
    AssembledSums(h);
  }

  lemma AssembledSums(h: IPv4)
    requires Blank(Ipv4Header(h) + h.data, 20)
    ensures var r := Ipv4Bytes(h);
            && Fold(WordSum(r[..20])) == 0xffff
            && Fold(WordSum(Wire4(h.source) + Wire4(h.destination) + [0, h.protocol] + PutU16(|h.data|) + r[20..])) == 0xffff
  {
    var r := Ipv4Bytes(h);
    ChecksumsVerify(Ipv4Header(h) + h.data, 20);
    Ipv4Fields(h);
    SumOfAddresses(r, Wire4(h.source), Wire4(h.destination), h.protocol, |h.data|);
  }

  lemma SumOfAddresses(r: seq<u8>, source: seq<u8>, destination: seq<u8>, protocol: u8, n: u16)
    requires |r| == 20 + n && r[12..16] == source && r[16..20] == destination && r[9] == protocol
    requires Fold(WordSum(r[12..20] + [0, r[9]] + PutU16(|r| - 20) + r[20..])) == 0xffff
    ensures Fold(WordSum(source + destination + [0, protocol] + PutU16(n) + r[20..])) == 0xffff
  {
    assert r[12..20] == r[12..16] + r[16..20];
  }

  /** Which bytes are an IPv4 packet, and what is where in them; what follows the header, options included, is the payload. */
  lemma DecodedPacket(b: seq<u8>)
    ensures var d := DecodeIPv4(b);
            && (d.Some? <==>
                  |b| >= 20 && b[0] as int / 16 == 4 && 20 <= b[0] as int % 16 * 4 <= |b| && b[2] as int * 256 + b[3] as int == |b|)
            && (d.Some? ==>
                  && d.value.ttl == b[8] && d.value.protocol == b[9]
                  && d.value.identification == b[4] as int * 256 + b[5] as int
                  && d.value.source == Bytes.IPv4(b[12], b[13], b[14], b[15]) && d.value.destination == Bytes.IPv4(b[16], b[17], b[18], b[19])
                  && d.value.data == b[b[0] as int % 16 * 4..])
  {
  }

  /** And which are a UDP segment. */
  lemma DecodedSegment(b: seq<u8>)
    ensures var d := DecodeUDP(b);
            && (d.Some? <==> |b| >= 8 && b[4] as int * 256 + b[5] as int == |b|)
            && (d.Some? ==>
                  && d.value.srcPort == b[0] as int * 256 + b[1] as int && d.value.dstPort == b[2] as int * 256 + b[3] as int
                  && d.value.data == b[8..])
  {
  }
}
