// Building wire frames and unwrapping them, layer by layer (fpga/tb/frames.py): the reference for the
// streaming front end. Ethernet II with IEEE 802.1Q tags, IPv4 (section 3.1 of RFC 791), UDP (RFC 768)
// and MoldUDP64.
module FrameRef {
  import opened Options
  import opened Bytes
  import opened Checksums

  const ETHERTYPE_IPV4: nat := 0x0800
  const ETHERTYPE_VLAN: nat := 0x8100
  const IP_PROTO_UDP: nat := 17
  const FEED_PORT: nat := 26477
  const COUNT_END_SESS: nat := 0xFFFF

  // ---- unwrapping ----

  function UnwrapEth(f: seq<Byte>): Option<seq<Byte>> {
    if |f| < 14 then None
    else if U16(f, 12) == ETHERTYPE_VLAN then
      if |f| < 18 then None
      else if U16(f, 16) == ETHERTYPE_IPV4 then Some(f[18..]) else None
    else if U16(f, 12) == ETHERTYPE_IPV4 then Some(f[14..]) else None
  }

  function Ihl(p: seq<Byte>): nat
    requires p != []
  {
    (p[0] % 16) * 4
  }

  function UnwrapIpv4(p: seq<Byte>): Option<seq<Byte>> {
    if |p| < 20 || p[0] / 16 != 4 then None
    else if Ihl(p) < 20 || |p| < Ihl(p) then None
    else
      var total := U16(p, 2);
      if p[9] != IP_PROTO_UDP || total < Ihl(p) || total > |p| then None
      else if StepSum(p[..Ihl(p)], 0) != 65535 then None
      else Some(p[Ihl(p)..total])
  }

  function UnwrapUdp(s: seq<Byte>, port: nat): Option<seq<Byte>> {
    if |s| < 8 then None
    else if U16(s, 2) != port || U16(s, 4) < 8 || U16(s, 4) > |s| then None
    else Some(s[8..U16(s, 4)])
  }

  datatype Mold = Mold(sequence: nat, count: nat, payload: seq<Byte>)

  function UnwrapMold(d: seq<Byte>): Option<Mold> {
    if |d| < 20 then None else Some(Mold(Be(d[10..18]), U16(d, 18), d[20..]))
  }

  function MoldPayload(d: seq<Byte>): seq<Byte> {
    match UnwrapMold(d)
    case None => []
    case Some(m) => if m.count == 0 || m.count == COUNT_END_SESS then [] else m.payload
  }

  // The length-prefixed blocks a frame carries; nothing if any layer rejects it.
  function UnwrapFrame(f: seq<Byte>): seq<Byte> {
    match UnwrapEth(f)
    case None => []
    case Some(p) =>
      match UnwrapIpv4(p)
      case None => []
      case Some(s) =>
        match UnwrapUdp(s, FEED_PORT)
        case None => []
        case Some(d) => MoldPayload(d)
  }
}
