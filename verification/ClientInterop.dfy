/** What a client prints and what a server makes of it. */
module ClientInterop {
  import opened Bytes
  import opened DhcpMsg
  import opened DhcpRoundTrip
  import opened Options
  import opened Packets
  import opened Requests
  import opened Templates
  import Interop
  import Network

  lemma RequestEncodable(t: Template, msgType: u8, requested: IP, server: IP)
    ensures var os := RequestOptions(t, msgType, requested, server);
            AllEncodable(os) && 0 < |os| <= 14
  {
    var tail := RequestedOptions(requested) + ServerOptions(server);
    forall o | o in tail
      ensures Encodable(o)
    {
      assert o in RequestedOptions(requested) || o in ServerOptions(server);
    }
  }

  lemma RequestHeard(t: Template, id: u16, msgType: u8, source: IP, destination: IP, requested: IP, server: IP)
    requires |t.hwaddr| <= MAC_FIELD
    ensures var m := RequestMessage(t, msgType, source, requested, server);
            Heard(Read(Request(t, id, msgType, source, destination, requested, server)))
            == Some(Query(Normal(source), Normal(destination), NormalMessage(m)))
  {
    RequestEncodable(t, msgType, requested, server);
    Interop.MessageArrives(id, source, destination, CLIENT_PORT, SERVER_PORT, RequestMessage(t, msgType, source, requested, server));
  }

  /** The four options that every request starts with. */
  lemma FixedLast(t: Template, msgType: u8, tail: seq<Opt>)
    requires forall o | o in tail :: o.code == OPT_REQUESTED_IP || o.code == OPT_SERVER_IDENTIFIER
    ensures var os := FixedOptions(t, msgType) + tail;
            && Last(os, OPT_MESSAGE_TYPE) == [msgType]
            && Last(os, OPT_CLIENT_IDENTIFIER) == OptionClientIdentifier(t.hwaddr, t.crc).data
            && Last(os, OPT_REQUESTED_IP) == Last(tail, OPT_REQUESTED_IP)
            && Last(os, OPT_SERVER_IDENTIFIER) == Last(tail, OPT_SERVER_IDENTIFIER)
  {
    var f := FixedOptions(t, msgType);
    assert f + tail == [] + [f[0]] + (f[1..] + tail);
    Interop.LastAt([], f[0], f[1..] + tail);
    assert f + tail == [f[0]] + [f[1]] + (f[2..] + tail);
    Interop.LastAt([f[0]], f[1], f[2..] + tail);
    LastAfter(f, tail, OPT_REQUESTED_IP);
    LastAfter(f, tail, OPT_SERVER_IDENTIFIER);
  }

  /** Options of another code that come before do not matter. */
  lemma {:induction false} LastAfter(p: seq<Opt>, q: seq<Opt>, code: u8)
    requires forall i | 0 <= i < |p| :: p[i].code != code
    ensures Last(p + q, code) == Last(q, code)
    decreases |q|
  {
    if q == [] {
      assert p + q == [] + p;
      Interop.LastBefore([], p, code);
    } else {
      assert (p + q)[..|p + q| - 1] == p + q[..|q| - 1];
      LastAfter(p, q[..|q| - 1], code);
    }
  }

  lemma TailLast(requested: IP, server: IP)
    ensures var tail := RequestedOptions(requested) + ServerOptions(server);
            && Last(tail, OPT_REQUESTED_IP) == (if requested != NIL_IP then OptionRequestedIP(requested).data else [])
            && Last(tail, OPT_SERVER_IDENTIFIER) == (if server != NIL_IP then OptionServerIdentifier(server).data else [])
  {
    var r, s := RequestedOptions(requested), ServerOptions(server);
    Interop.LastBefore(r, s, OPT_REQUESTED_IP);
    LastAfter(r, s, OPT_SERVER_IDENTIFIER);
  }

  /** An option that is not there decodes to nil. */
  function OrNil(ip: IP): IP { if ip == NIL_IP then NIL_IP else Normal(ip) }

  lemma RequestDecoded(t: Template, msgType: u8, requested: IP, server: IP)
    ensures var d := Decoded(RequestOptions(t, msgType, requested, server));
            && d.messageType == msgType
            && d.clientIdentifier == OptionClientIdentifier(t.hwaddr, t.crc).data
            && d.requestedIP == OrNil(requested)
            && d.serverIdentifier == OrNil(server)
  {
    LastOccurrenceWins(RequestOptions(t, msgType, requested, server));
    FixedLast(t, msgType, RequestedOptions(requested) + ServerOptions(server));
    TailLast(requested, server);
    AddressOptionRoundTrip(OPT_REQUESTED_IP, requested);
    AddressOptionRoundTrip(OPT_SERVER_IDENTIFIER, server);
  }

  /** What a server makes of bytes: drop them, or take up a job. */
  function JobForBytes(self: Self, b: seq<u8>): Job {
    match Heard(b)
    case None => Drop
    case Some(q) => JobFor(self, q, Decoded(q.message.options))
  }

  lemma JobForRequest(self: Self, t: Template, id: u16, msgType: u8, source: IP, destination: IP, requested: IP, server: IP)
    requires |t.hwaddr| <= MAC_FIELD
    ensures var m := RequestMessage(t, msgType, source, requested, server);
            JobForBytes(self, Read(Request(t, id, msgType, source, destination, requested, server)))
            == JobFor(self, Query(Normal(source), Normal(destination), NormalMessage(m)), Decoded(m.options))
  {
    RequestHeard(t, id, msgType, source, destination, requested, server);
  }

  /** `desired`, if this server manages it. */
  function IfManaged(self: Self, kind: Kind, desired: IP): Job {
    if Network.ToUip(self.net, desired).None? then Drop else Confirm(kind, desired)
  }

  lemma BroadcastOnTheWire()
    ensures Normal(IPV4_BCAST) == IPV4_BCAST
  {
    assert IPV4_BCAST[..12] == V4_IN_V6_PREFIX && IPV4_BCAST == V4_IN_V6_PREFIX + IPV4_BCAST[12..];
  }

  /** A discovery starts a search, without a suggestion, at every other server. */
  lemma DiscoverInterop(self: Self, t: Template, id: u16)
    requires |t.hwaddr| <= MAC_FIELD && self.ip != NIL_IP
    ensures JobForBytes(self, Read(Discover(t, id))) == if t.hwaddr == self.mac then Drop else Offer(NIL_IP)
  {
    BroadcastOnTheWire();
    JobForRequest(self, t, id, MSG_DISCOVER, IPV4_ZERO, IPV4_BCAST, NIL_IP, NIL_IP);
    RequestDecoded(t, MSG_DISCOVER, NIL_IP, NIL_IP);
  }

  /** A selection is for the server it names, and no other server answers it. */
  lemma SelectingInterop(self: Self, t: Template, id: u16, requested: IP, server: IP)
    requires |t.hwaddr| <= MAC_FIELD && requested != NIL_IP && server != NIL_IP
    ensures JobForBytes(self, Read(RequestSelecting(t, id, requested, server))) ==
            if t.hwaddr == self.mac || Equal(self.ip, Normal(requested)) || !Equal(Normal(server), self.ip) then Drop
            else IfManaged(self, Selecting, Normal(requested))
  {
    BroadcastOnTheWire();
    JobForRequest(self, t, id, MSG_REQUEST, IPV4_ZERO, IPV4_BCAST, requested, server);
    RequestDecoded(t, MSG_REQUEST, requested, server);
    var m := RequestMessage(t, MSG_REQUEST, IPV4_ZERO, requested, server);
    SelectingJob(self, Normal(IPV4_ZERO), NormalMessage(m), Decoded(m.options));
  }

  lemma SelectingJob(self: Self, src: IP, m: Message, opts: DecodedOptions)
    requires opts.messageType == MSG_REQUEST && opts.requestedIP != NIL_IP && opts.serverIdentifier != NIL_IP
    ensures JobFor(self, Query(src, IPV4_BCAST, m), opts) ==
            if m.clientMAC == self.mac || Equal(self.ip, opts.requestedIP) || !Equal(opts.serverIdentifier, self.ip) then Drop
            else IfManaged(self, Selecting, opts.requestedIP)
  {
  }

  /** A request that names neither a server nor an address, by where it is sent to. */
  lemma ConfiguredJob(self: Self, src: IP, dst: IP, m: Message, opts: DecodedOptions)
    requires opts.messageType == MSG_REQUEST && opts.requestedIP == NIL_IP && opts.serverIdentifier == NIL_IP && self.ip != NIL_IP
    ensures JobFor(self, Query(src, dst, m), opts) ==
            if m.clientMAC == self.mac then Drop
            else if Equal(dst, self.ip) then IfManaged(self, Renewing, src)
            else if Equal(dst, IPV4_BCAST) then IfManaged(self, Rebinding, src)
            else Drop
  {
  }

  /** A renewal is for the server it is sent to, and desires the address it is sent from. */
  lemma RenewingInterop(self: Self, t: Template, id: u16, address: IP, server: IP)
    requires |t.hwaddr| <= MAC_FIELD && self.ip != NIL_IP
    ensures JobForBytes(self, Read(RequestRenewing(t, id, address, server))) ==
            if t.hwaddr == self.mac then Drop
            else if Equal(Normal(server), self.ip) then IfManaged(self, Renewing, Normal(address))
            else if Equal(Normal(server), IPV4_BCAST) then IfManaged(self, Rebinding, Normal(address))
            else Drop
  {
    JobForRequest(self, t, id, MSG_REQUEST, address, server, NIL_IP, NIL_IP);
    RequestDecoded(t, MSG_REQUEST, NIL_IP, NIL_IP);
    var m := RequestMessage(t, MSG_REQUEST, address, NIL_IP, NIL_IP);
    ConfiguredJob(self, Normal(address), Normal(server), NormalMessage(m), Decoded(m.options));
  }

  /** A rebinding is for every server, and desires the address it is sent from. */
  lemma RebindingInterop(self: Self, t: Template, id: u16, address: IP)
    requires |t.hwaddr| <= MAC_FIELD && self.ip != NIL_IP
    ensures JobForBytes(self, Read(RequestRebinding(t, id, address))) ==
            if t.hwaddr == self.mac then Drop
            else IfManaged(self, if Equal(IPV4_BCAST, self.ip) then Renewing else Rebinding, Normal(address))
  {
    BroadcastOnTheWire();
    JobForRequest(self, t, id, MSG_REQUEST, address, IPV4_BCAST, NIL_IP, NIL_IP);
    RequestDecoded(t, MSG_REQUEST, NIL_IP, NIL_IP);
    var m := RequestMessage(t, MSG_REQUEST, address, NIL_IP, NIL_IP);
    ConfiguredJob(self, Normal(address), IPV4_BCAST, NormalMessage(m), Decoded(m.options));
  }
}
