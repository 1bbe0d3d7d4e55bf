/** The packets a server sends: `AssembleOffer`, `AssembleACK` and `AssembleNACK`. */
module Replies {
  import opened Bytes
  import opened DhcpMsg
  import opened Options
  import opened Packets
  import Layer

  const OP_REQUEST: u8 := 1
  const OP_REPLY: u8 := 2
  const HTYPE_ETHER: u8 := 1
  const DHCP_COOKIE: u32 := 0x63825363
  const FLAG_BROADCAST := 0x8000

  function DstFromFlag(flags: u16, dst: IP): IP { if flags >= FLAG_BROADCAST then IPV4_BCAST else dst }

  function ReplyMessage(msgType: u8, xid: u32, flags: u16, yourIP: IP, server: IP, mac: seq<u8>, opts: seq<Opt>): Message {
    Message(OP_REPLY, HTYPE_ETHER, 0, xid, 0, flags, NIL_IP, yourIP, NIL_IP, NIL_IP, mac, Zeros(64), Zeros(128), DHCP_COOKIE,
            [OptionType(msgType), OptionServerIdentifier(server)] + opts)
  }

  function AssembleUdp(src: IP, dst: IP, payload: seq<u8>): seq<u8> {
    Layer.Ipv4Bytes(Packet(0, src, dst, Segment(SERVER_PORT, CLIENT_PORT, payload)))
  }

  function AssembleOffer(xid: u32, flags: u16, src: IP, dst: IP, mac: seq<u8>, opts: seq<Opt>): seq<u8> {
    AssembleUdp(src, DstFromFlag(flags, dst), MessageBytes(ReplyMessage(MSG_OFFER, xid, flags, dst, src, mac, opts)))
  }

  function AssembleACK(xid: u32, flags: u16, src: IP, dst: IP, mac: seq<u8>, opts: seq<Opt>): seq<u8> {
    AssembleUdp(src, DstFromFlag(flags, dst), MessageBytes(ReplyMessage(MSG_ACK, xid, flags, dst, src, mac, opts)))
  }

  function AssembleNACK(xid: u32, src: IP, mac: seq<u8>): seq<u8> {
    AssembleUdp(src, IPV4_BCAST, MessageBytes(ReplyMessage(MSG_NACK, xid, 0, NIL_IP, src, mac, [])))
  }
}
