// Inputs on which hardware and reference, or the two forms of an operation, part.
module Divergences {
  import opened Options
  import opened Bytes
  import opened Checksums
  import opened Axis
  import opened FrameRef
  import opened FrameBuild
  import opened ItchLaws
  import opened EthParsers
  import opened Ipv4Parsers
  import opened UdpParsers
  import opened FeedTops
  import opened FeedLaws

  // An IPv4 frame of sixteen bytes: the reference finds two bytes of payload, the hardware drops it with
  // the beats it sniffs. Likewise with a tag and twenty-four bytes.
  lemma ShortFrame() returns (f: seq<Byte>, g: seq<Byte>)
    ensures |f| == 16 && UnwrapEth(f) == Some([0x45, 0]) && EthOut(f) == []
    ensures |g| == 24 && UnwrapEth(g) == Some([0x45, 0, 0, 28, 0, 0]) && EthOut(g) == []
  {
    f := [2, 0, 0, 0, 0, 1, 2, 0, 0, 0, 0, 2, 0x08, 0, 0x45, 0];
    g := [2, 0, 0, 0, 0, 1, 2, 0, 0, 0, 0, 2, 0x81, 0, 0, 5, 0x08, 0, 0x45, 0, 0, 28, 0, 0];
  }

  const PLAIN_IP: Ip := Ip([10, 0, 0, 1], [239, 1, 1, 1], 5, 17, false)

  // A header of twenty bytes with a good checksum, declaring this total length, and some data.
  function Declares(total: nat, data: seq<Byte>): seq<Byte> {
    IpHeader(PLAIN_IP, total, IpChecksum(PLAIN_IP, total)) + data
  }

  lemma DeclaresGood(total: nat, data: seq<Byte>)
    requires total < 65536
    ensures var p := Declares(total, data);
            |p| == 20 + |data| && Ipv4Scope(p) && GoodHeader(p) && Ihl(p) == 20 && U16(p, 2) == total && p[20..] == data
  {
    hide IpHeader, IpChecksum, StepSum, U16;
    HeaderFields(PLAIN_IP, total, IpChecksum(PLAIN_IP, total), data);
    ChecksumOf(PLAIN_IP, total);
  }

  // One packet for each way the IPv4 layer parts from the reference: four bytes of payload in the header's
  // last beat; a total length equal to the header's; a total length one beyond the data.
  lemma PartedPackets(data: seq<Byte>)
    requires |data| == 8
    ensures var p := Declares(24, data[..4]);
            UnwrapIpv4(p) == Some(data[..4]) && Ipv4Out(p) == []
    ensures var p := Declares(20, data); UnwrapIpv4(p) == Some([]) && Ipv4Out(p) == data
    ensures var p := Declares(29, data); UnwrapIpv4(p) == None && Ipv4Out(p) == data
  {
    hide Declares, StepSum, WordSum, CsumOk, U16;
    DeclaresGood(24, data[..4]);
    DeclaresGood(20, data);
    DeclaresGood(29, data);
    var p := Declares(24, data[..4]);
    Unwraps(p);
    assert p[20..24] == p[20..];
    Unwraps(Declares(20, data));
    assert Declares(20, data)[20..20] == [];
    Unwraps(Declares(29, data));
  }

  // What both sides make of a good header.
  lemma Unwraps(p: seq<Byte>)
    requires Ipv4Scope(p) && GoodHeader(p) && Ihl(p) == 20
    ensures var total := U16(p, 2);
            && UnwrapIpv4(p) == (if 20 <= total <= |p| then Some(p[20..total]) else None)
            && Ipv4Out(p) ==
               if |p| <= 24 || total < 20 then []
               else if 20 < total < |p| then p[20..total] else p[20..]
  {
    hide StepSum, WordSum, CsumOk, U16;
    ChecksumsAgree(p[..20]);
  }

  // A segment for the feed port that declares one byte more than there is.
  lemma LongSegment() returns (s: seq<Byte>)
    ensures UnwrapUdp(s, FEED_PORT) == None && UdpOut(s) == [7]
  {
    s := [0, 0, 0x67, 0x6D, 0, 10, 0, 0, 7];
    assert s[8..] == [7];
  }

  // A header whose words, the checksum field apart, already fold to one's-complement zero: a packet built
  // with a deliberately bad checksum is accepted.
  lemma BadChecksumAccepted(payload: seq<Byte>) returns (ip: Ip)
    requires |payload| == 8
    ensures IpOk(ip) && ip.badChecksum && UnwrapIpv4(Ipv4(payload, ip)) == Some(payload)
  {
    ip := Ip([0x7A, 0xD2, 0, 0], [0, 0, 0, 0], 5, 17, true);
    hide IpHeader, Ipv4, UnwrapIpv4;
    FoldsToZero(ip);
    UnwrapIpv4Of(payload, ip, []);
    assert Ipv4(payload, ip) + [] == Ipv4(payload, ip);
  }

  lemma FoldsToZero(ip: Ip)
    requires ip == Ip([0x7A, 0xD2, 0, 0], [0, 0, 0, 0], 5, 17, true)
    ensures StepSum(IpHeader(ip, 28, 0), 0) == 65535
  {
    hide StepSum, WordSum, CsumOk;
    EncTwo(28);
    EncTwo(0);
    HeaderSumParts(IpHead(ip, 28), 0, IpTail(ip));
    var a, t: seq<Byte> := [0x45, 0, 0, 28, 0, 0, 0, 0, 64, 17], [0x7A, 0xD2, 0, 0, 0, 0, 0, 0];
    assert IpHead(ip, 28) == a && IpTail(ip) == t;
    WordSumConcat(a[..8], a[8..]);
    assert a[..8] + a[8..] == a;
    SumOfBeat(a[..8]);
    SumOfBeat(t);
    SumNext(a[8..]);
    SumNext(a[8..][2..]);
    assert WordSum(IpHeader(ip, 28, 0)) == 65535;
    ChecksumsAgree(IpHeader(ip, 28, 0));
  }

  // An untagged frame that claims a tag, of the total length that reads as the IPv4 ethertype.
  lemma MisreadFrame() returns (d: seq<Byte>, w: Wire)
    ensures WireOk(w) && FitsDatagram(d, w.ip.words) && !Agreed(Framed(d, w))
  {
    hide Agreed, Framed;
    d := seq(2020, _ => 0);
    w := Wire(seq(10, _ => 0), 4000, FEED_PORT, PLAIN_IP, Mac(seq(6, _ => 0), seq(6, _ => 0), None, ETHERTYPE_VLAN));
    FramedAgreedIff(d, w);
  }

  // A message behind a zero length: the software has stopped, the hardware shows it.
  lemma MessageBehindPadding(b: Byte)
    ensures Split([0, 0, 0, 1, b]) == [] && Bodies([0, 0, 0, 1, b]) == [[b]]
  {
    hide Bodies;
    var s: seq<Byte> := [0, 0, 0, 1, b];
    var r: seq<Byte> := [0, 1, b];
    assert s[2..] == r && r[2..3] == [b] && r[3..] == [];
    BodiesNext(s);
    BodiesNext(r);
    BodiesNext([]);
  }

  // Sixty-five thousand five hundred and thirty-five messages in one datagram carry nothing.
  lemma FullPacketIsMarker(session: seq<Byte>, m: seq<Byte>)
    requires |session| == 10
    ensures var ms := seq(65535, _ => m);
            Blocks(ms) != [] && MoldPayload(MoldPacket(ms, 1, session)) == []
  {
    hide Blocks, MoldPacket, Pow256;
    var ms := seq(65535, _ => m);
    BlocksLength(ms);
    OneIsSmall();
    MoldPayloadOf(ms, 1, session);
  }

  lemma OneIsSmall()
    ensures 1 < Pow256(8)
  {
  }
}
