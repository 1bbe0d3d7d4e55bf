/** What a server makes of a packet before it touches the lease database: `Run`, and the guards of `netio.go`. */
module Requests {
  import opened Bytes
  import opened DhcpMsg
  import opened Network
  import opened Options
  import opened Packets
  import Layer
  import Replies

  /** A DHCP request as the read loop hands it to a handler. */
  datatype Query = Query(source: IP, destination: IP, message: Message)

  function Heard(b: seq<u8>): Option<Query> {
    match Opened(b)
    case None => None
    case Some(p) =>
      match ParseMessage(p.payload)
      case None => None
      case Some(m) => if m.op != Replies.OP_REQUEST then None else Some(Query(p.source, p.destination, m))
  }

  /** What the read loop makes a handler for: whatever decodes at every layer, and is a request; ports are left to the socket. */
  lemma HeardIsExact(b: seq<u8>)
    ensures var v4 := Layer.DecodeIPv4(b);
            var udp := if v4.Some? then Layer.DecodeUDP(v4.value.data) else None;
            var msg := if udp.Some? then ParseMessage(udp.value.data) else None;
            Heard(b) == if msg.Some? && msg.value.op == 1 then Some(Query(v4.value.source, v4.value.destination, msg.value)) else None
  {
  }

  /** The table of section 4.3.2 of RFC 2131. */
  datatype Kind = InitReboot | Selecting | Renewing | Rebinding

  datatype Job =
    | Drop
    | Offer(suggestion: IP)
    | Confirm(kind: Kind, desired: IP)

  function Classified(selfIP: IP, src: IP, dst: IP, opts: DecodedOptions): Option<(Kind, IP)> {
    if Equal(dst, IPV4_BCAST) && opts.serverIdentifier == NIL_IP && opts.requestedIP != NIL_IP then
      Some((InitReboot, opts.requestedIP))
    else if Equal(dst, IPV4_BCAST) && Equal(opts.serverIdentifier, selfIP) && opts.requestedIP != NIL_IP then
      Some((Selecting, opts.requestedIP))
    else if Equal(dst, selfIP) && opts.serverIdentifier == NIL_IP && opts.requestedIP == NIL_IP then
      Some((Renewing, src))
    else if Equal(dst, IPV4_BCAST) && opts.serverIdentifier == NIL_IP && opts.requestedIP == NIL_IP then
      Some((Rebinding, src))
    else None
  }

  /** A server: its own hardware and IP address, and the range it manages. */
  datatype Self = Self(mac: seq<u8>, ip: IP, net: Range)

  function JobFor(self: Self, q: Query, opts: DecodedOptions): Job {
    if self.mac == q.message.clientMAC then Drop
    else if Equal(self.ip, opts.requestedIP) then Drop
    else if opts.messageType == MSG_DISCOVER then
      if !Equal(q.destination, IPV4_BCAST) || opts.serverIdentifier != NIL_IP then Drop else Offer(opts.requestedIP)
    else if opts.messageType == MSG_REQUEST then
      match Classified(self.ip, q.source, q.destination, opts)
      case None => Drop
      case Some((kind, desired)) => if ToUip(self.net, desired).None? then Drop else Confirm(kind, desired)
    else Drop
  }

  /** The branches of the table are exclusive, and the panic on a request without an address is out of reach. */
  lemma ClassificationIsExact(self: Self, src: IP, dst: IP, opts: DecodedOptions)
    requires src != NIL_IP && self.ip != NIL_IP
    ensures var broadcast, unicast := Equal(dst, IPV4_BCAST), Equal(dst, self.ip);
            var server, requested := opts.serverIdentifier != NIL_IP, opts.requestedIP != NIL_IP;
            var c := Classified(self.ip, src, dst, opts);
            && (c == Some((InitReboot, opts.requestedIP)) <==> broadcast && !server && requested)
            && (c == Some((Selecting, opts.requestedIP)) <==> broadcast && Equal(opts.serverIdentifier, self.ip) && requested)
            && (c == Some((Renewing, src)) <==> unicast && !server && !requested)
            && (c == Some((Rebinding, src)) <==> broadcast && !unicast && !server && !requested)
            && (c.Some? ==> c.value.1 != NIL_IP)
  {
  }

  /**
   What a server takes up, by the fields of the packet. A discovery is one to everyone without a server; what it
   suggests is what it requests. The four kinds of requests are the rows of the table, for a managed address. A
   packet from the server's own hardware address, or that requests the server's own IP address, and everything
   else is dropped.
   */
  lemma JobIsExact(self: Self, q: Query, opts: DecodedOptions, ip: IP)
    ensures var job, dst, server, requested := JobFor(self, q, opts), q.destination, opts.serverIdentifier, opts.requestedIP;
            var broadcast := Equal(dst, IPv4(255, 255, 255, 255));
            var heard := self.mac != q.message.clientMAC && !Equal(self.ip, requested);
            var ours := To4(ip) != [] && self.net.from <= AsU32(ip) <= self.net.to;
            && (job == Offer(ip) <==> opts.messageType == 1 && heard && broadcast && server == [] && ip == requested)
            && (job == Confirm(InitReboot, ip) <==>
                  opts.messageType == 3 && heard && ours && broadcast && server == [] && requested != [] && ip == requested)
            && (job == Confirm(Selecting, ip) <==>
                  opts.messageType == 3 && heard && ours && broadcast && server != [] && Equal(server, self.ip)
                  && requested != [] && ip == requested)
            && (job == Confirm(Renewing, ip) <==>
                  opts.messageType == 3 && heard && ours && Equal(dst, self.ip) && server == [] && requested == [] && ip == q.source)
            && (job == Confirm(Rebinding, ip) <==>
                  opts.messageType == 3 && heard && ours && broadcast && !Equal(dst, self.ip) && server == [] && requested == []
                  && ip == q.source)
  {
  }
}
