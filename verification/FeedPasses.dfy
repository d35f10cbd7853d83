// What the front end lets through, in the numbers of the standards: the converse of its filtering. Byte
// offsets are those of the frame.
module FeedPasses {
  import opened Options
  import opened Bytes
  import opened Checksums
  import opened Axis
  import opened Gearboxes
  import opened Layers
  import opened FrameRef
  import opened EthParsers
  import opened Ipv4Parsers
  import opened UdpParsers
  import opened MoldParsers
  import opened FeedTops

  // The Ethernet layer hands on what follows an IPv4 ethertype, at offset 12 or behind one 802.1Q tag.
  lemma EthPasses(f: seq<Byte>) returns (a: nat)
    requires EthOut(f) != []
    ensures a < |f| && EthOut(f) == f[a..]
    ensures (a == 14 && U16(f, 12) == 0x0800) || (a == 18 && U16(f, 12) == 0x8100 && U16(f, 16) == 0x0800)
  {
    hide U16;
    a := if U16(f, 12) == 0x8100 then 18 else 14;
  }

  // The IPv4 layer hands on what follows a version 4 header of five words or more for UDP, whose sixteen-bit
  // words sum to one's-complement zero, up to the total length.
  lemma Ipv4Passes(p: seq<Byte>)
    requires Ipv4Scope(p) && Ipv4Out(p) != []
    ensures |p| > 20 && p[0] / 16 == 4 && p[0] % 16 >= 5 && |p| > 4 * (p[0] % 16) && p[9] == 17
    ensures var h, total := 4 * (p[0] % 16), U16(p, 2);
            && h <= total && WordSum(p[..h]) > 0 && WordSum(p[..h]) % 65535 == 0
            && Ipv4Out(p) == if h < total <= |p| then p[h..total] else p[h..]
  {
    hide U16, WordSum, CsumOk, StepSum;
    ChecksumsAgree(p[..Ihl(p)]);
  }

  // The UDP layer hands on what follows a header for the feed's port, up to the length it declares.
  lemma UdpPasses(s: seq<Byte>)
    requires UdpOut(s) != []
    ensures |s| > 8 && U16(s, 2) == 26477 && U16(s, 4) > 8
    ensures UdpOut(s) == if U16(s, 4) <= |s| then s[8..U16(s, 4)] else s[8..]
  {
    hide U16;
  }

  // The MoldUDP64 layer hands on what follows a header that counts messages.
  lemma MoldPasses(d: seq<Byte>)
    requires MoldPayload(d) != []
    ensures |d| > 20 && U16(d, 18) != 0 && U16(d, 18) != 65535 && MoldPayload(d) == d[20..]
  {
    hide U16, Be;
  }

  // Where the bytes of the datagram are in the frame.
  lemma Nested(f: seq<Byte>, b: nat, u: seq<Byte>, d: seq<Byte>)
    requires b <= |f| && u <= f[b..] && |u| > 8 && d <= u[8..] && |d| > 20
    ensures b + 28 < |f| && U16(u, 2) == U16(f, b + 2) && U16(d, 18) == U16(f, b + 26) && d[20..] <= f[b + 28..]
  {
    assert u[2] == f[b + 2] && u[3] == f[b + 3];
    assert forall k | 0 <= k < |d| :: d[k] == u[8 + k] == f[b + 8 + k];
    assert d[18] == f[b + 26] && d[19] == f[b + 27];
    hide U16;
    assert forall k | 0 <= k < |d| - 20 :: d[20..][k] == d[20 + k] == f[b + 28..][k];
  }

  // So whatever comes out of the chain follows the headers of the feed in its frame.
  lemma OnlyFeedPasses(f: seq<Byte>) returns (a: nat, b: nat)
    requires Ipv4Scope(EthOut(f)) && FrontEnd(f) != []
    ensures (a == 14 && U16(f, 12) == 0x0800) || (a == 18 && U16(f, 12) == 0x8100 && U16(f, 16) == 0x0800)
    ensures a < b && b + 28 < |f|
    ensures b == a + 4 * (f[a] % 16) && f[a] / 16 == 4 && f[a] % 16 >= 5 && f[a + 9] == 17
    ensures WordSum(f[a..b]) > 0 && WordSum(f[a..b]) % 65535 == 0
    ensures U16(f, b + 2) == 26477 && U16(f, b + 26) != 0 && U16(f, b + 26) != 65535
    ensures FrontEnd(f) <= f[b + 28..]
  {
    hide EthOut, Ipv4Out, UdpOut, MoldPayload, MoldDecide, Slice, Ipv4Scope, WordSum, U16;
    NothingPasses();
    var p := EthOut(f);
    var u := Ipv4Out(p);
    var d := UdpOut(u);
    MoldAgrees(d);
    MoldPasses(d);
    UdpPasses(u);
    Ipv4Passes(p);
    a := EthPasses(f);
    b := a + 4 * (p[0] % 16);
    assert p[..b - a] == f[a..b] && p[b - a..] == f[b..];
    Nested(f, b, u, d);
  }

  lemma NothingPasses()
    ensures Ipv4Out([]) == [] && UdpOut([]) == [] && MoldPayload([]) == []
  {
  }
}
