// The frame builders (fpga/tb/frames.py), and their round trip with the unwrapping functions.
module FrameBuild {
  import opened Options
  import opened Bytes
  import opened Messages
  import opened Axis
  import opened Checksums
  import opened FrameRef

  const ETH_MIN_PAYLOAD: nat := 46

  // ---- length-prefixed blocks ----

  function Block(m: seq<Byte>): seq<Byte> {
    Enc(2, |m|) + m
  }

  function Blocks(ms: seq<seq<Byte>>): seq<Byte> {
    if ms == [] then [] else Block(ms[0]) + Blocks(ms[1..])
  }

  // What split_messages should return: bodies as long as a non-empty length is followed by that many bytes.
  function Split(s: seq<Byte>): seq<seq<Byte>> {
    if |s| < 2 then []
    else
      var n := U16(s, 0);
      if n == 0 || 2 + n > |s| then [] else [s[2..2 + n]] + Split(s[2 + n..])
  }

  lemma SplitShort(s: seq<Byte>)
    requires |s| < 2
    ensures Split(s) == []
  {
  }

  lemma SplitNext(data: seq<Byte>, off: nat)
    requires off + 2 <= |data|
    ensures var n := U16(data, off);
            Split(data[off..]) ==
            if n == 0 || off + 2 + n > |data| then []
            else [data[off + 2..off + 2 + n]] + Split(data[off + 2 + n..])
  {
    var s, n := data[off..], U16(data, off);
    assert U16(s, 0) == n;
    hide U16;
    if n != 0 && off + 2 + n <= |data| {
      assert s[2..2 + n] == data[off + 2..off + 2 + n];
      assert s[2 + n..] == data[off + 2 + n..];
    }
  }

  method SplitMessages(framed: seq<Byte>) returns (out: seq<seq<Byte>>)
    ensures out == Split(framed)
  {
    hide Split;
    out := [];
    var off := 0;
    assert framed[0..] == framed;
    while off + 2 <= |framed|
      invariant off <= |framed| && Split(framed) == out + Split(framed[off..])
    {
      var n := U16(framed, off);
      SplitNext(framed, off);
      if n == 0 || off + 2 + n > |framed| {
        return;
      }
      out := out + [framed[off + 2..off + 2 + n]];
      off := off + 2 + n;
    }
    SplitShort(framed[off..]);
  }

  lemma NoBlocks()
    ensures Blocks([]) == []
  {
  }

  predicate Body(m: seq<Byte>) {
    0 < |m| < 65536
  }

  lemma U16Block(m: seq<Byte>, rest: seq<Byte>)
    requires |m| < 65536
    ensures U16(Block(m) + rest, 0) == |m|
    ensures (Block(m) + rest)[2..2 + |m|] == m && (Block(m) + rest)[2 + |m|..] == rest
  {
    U16OfEnc(|m|);
  }

  lemma SplitBlock(m: seq<Byte>, rest: seq<Byte>)
    requires Body(m)
    ensures Split(Block(m) + rest) == [m] + Split(rest)
  {
    U16Block(m, rest);
    assert |Block(m)| == 2 + |m|;
    hide Block, U16;
  }

  // Splitting undoes framing: complete for non-empty bodies, whatever follows them.
  lemma {:induction false} SplitOfBlocks(ms: seq<seq<Byte>>, rest: seq<Byte>)
    requires forall k | 0 <= k < |ms| :: Body(ms[k])
    ensures Split(Blocks(ms) + rest) == ms + Split(rest)
  {
    hide Split, Block;
    if ms == [] {
      assert [] + rest == rest && [] + Split(rest) == Split(rest);
    } else {
      var more := Blocks(ms[1..]) + rest;
      assert Blocks(ms) + rest == Block(ms[0]) + more;
      SplitBlock(ms[0], more);
      SplitOfBlocks(ms[1..], rest);
      assert [ms[0]] + (ms[1..] + Split(rest)) == ms + Split(rest);
    }
  }

  // An empty body stops the splitting: what came before it is all there is.
  lemma EmptyBodyStops(ms: seq<seq<Byte>>, rest: seq<Byte>)
    requires forall k | 0 <= k < |ms| :: Body(ms[k])
    ensures Split(Blocks(ms) + Block([]) + rest) == ms
  {
    U16Block([], rest);
    SplitOfBlocks(ms, Block([]) + rest);
    assert ms + [] == ms;
    assert Blocks(ms) + Block([]) + rest == Blocks(ms) + (Block([]) + rest);
  }

  lemma {:induction false} BlocksConcat(a: seq<seq<Byte>>, b: seq<seq<Byte>>)
    ensures Blocks(a + b) == Blocks(a) + Blocks(b)
  {
    if a == [] {
      assert a + b == b;
    } else {
      assert (a + b)[1..] == a[1..] + b;
      BlocksConcat(a[1..], b);
    }
  }

  // ---- MoldUDP64 ----

  function MoldHeader(session: seq<Byte>, sequence: nat, count: nat): (h: seq<Byte>)
    requires |session| == 10
    ensures |h| == 20
  {
    session + Enc(8, sequence) + Enc(2, count)
  }

  function MoldPacket(ms: seq<seq<Byte>>, sequence: nat, session: seq<Byte>): seq<Byte>
    requires |session| == 10
  {
    MoldHeader(session, sequence, |ms|) + Blocks(ms)
  }

  function MoldHeartbeat(sequence: nat, session: seq<Byte>): seq<Byte>
    requires |session| == 10
  {
    MoldHeader(session, sequence, 0)
  }

  function MoldEndOfSession(sequence: nat, session: seq<Byte>): seq<Byte>
    requires |session| == 10
  {
    MoldHeader(session, sequence, COUNT_END_SESS)
  }

  // The field at |a| of a concatenation.
  lemma U16At(a: seq<Byte>, v: nat, rest: seq<Byte>)
    requires v < 65536
    ensures U16(a + Enc(2, v) + rest, |a|) == v
  {
    U16OfEnc(v);
  }

  lemma UnwrapMoldOf(session: seq<Byte>, sequence: nat, count: nat, body: seq<Byte>)
    requires |session| == 10 && sequence < Pow256(8) && count < 65536
    ensures UnwrapMold(MoldHeader(session, sequence, count) + body) == Some(Mold(sequence, count, body))
  {
    var d := MoldHeader(session, sequence, count) + body;
    BeOfEnc(8, sequence);
    U16At(session + Enc(8, sequence), count, body);
    hide Be, Enc, U16, Pow256;
    assert d[10..18] == Enc(8, sequence);
    assert d[20..] == body;
  }

  // ---- UDP ----

  function Udp(payload: seq<Byte>, sport: nat, dport: nat): seq<Byte> {
    Enc(2, sport) + Enc(2, dport) + Enc(2, 8 + |payload|) + Enc(2, 0) + payload
  }

  lemma UdpFields(payload: seq<Byte>, sport: nat, dport: nat)
    requires dport < 65536 && 8 + |payload| < 65536
    ensures var s := Udp(payload, sport, dport);
            |s| == 8 + |payload| && U16(s, 2) == dport && U16(s, 4) == |s| && s[8..] == payload
  {
    hide Enc, U16;
    U16At(Enc(2, sport), dport, Enc(2, 8 + |payload|) + Enc(2, 0) + payload);
    U16At(Enc(2, sport) + Enc(2, dport), 8 + |payload|, Enc(2, 0) + payload);
    var s := Udp(payload, sport, dport);
    assert s == Enc(2, sport) + Enc(2, dport) + (Enc(2, 8 + |payload|) + Enc(2, 0) + payload);
    assert s == Enc(2, sport) + Enc(2, dport) + Enc(2, 8 + |payload|) + (Enc(2, 0) + payload);
  }

  // ---- IPv4 ----

  datatype Ip = Ip(src: seq<Byte>, dst: seq<Byte>, words: nat, proto: Byte, badChecksum: bool)

  predicate IpOk(ip: Ip) {
    |ip.src| == 4 && |ip.dst| == 4 && 5 <= ip.words <= 15
  }

  // The header before and after its checksum field; options are NOPs.
  function IpHead(ip: Ip, total: nat): (h: seq<Byte>)
    requires IpOk(ip)
    ensures |h| == 10
  {
    [64 + ip.words, 0] + Enc(2, total) + [0, 0, 0, 0, 64, ip.proto]
  }

  function IpTail(ip: Ip): (t: seq<Byte>)
    requires IpOk(ip)
    ensures |t| == 4 * ip.words - 12
  {
    ip.src + ip.dst + seq((ip.words - 5) * 4, _ => 1)
  }

  function IpHeader(ip: Ip, total: nat, csum: nat): (h: seq<Byte>)
    requires IpOk(ip)
    ensures |h| == 4 * ip.words
  {
    IpHead(ip, total) + Enc(2, csum) + IpTail(ip)
  }

  function IpChecksum(ip: Ip, total: nat): (c: nat)
    requires IpOk(ip)
  {
    var m := StepSum(IpHeader(ip, total, 0), 0);
    if ip.badChecksum then m else if m <= 65535 then 65535 - m else 0
  }

  function Ipv4(payload: seq<Byte>, ip: Ip): seq<Byte>
    requires IpOk(ip)
  {
    var total := 4 * ip.words + |payload|;
    IpHeader(ip, total, IpChecksum(ip, total)) + payload
  }

  lemma HeaderSum(ip: Ip, total: nat, csum: nat)
    requires IpOk(ip) && csum < 65536
    ensures WordSum(IpHeader(ip, total, csum)) == WordSum(IpHeader(ip, total, 0)) + csum
    ensures WordSum(IpHeader(ip, total, csum)) > 0
  {
    hide Enc, WordSum;
    HeaderSumParts(IpHead(ip, total), csum, IpTail(ip));
    HeaderSumParts(IpHead(ip, total), 0, IpTail(ip));
    SumNext(IpHead(ip, total));
  }

  lemma HeaderSumParts(a: seq<Byte>, csum: nat, t: seq<Byte>)
    requires |a| % 2 == 0 && csum < 65536
    ensures WordSum(a + Enc(2, csum) + t) == WordSum(a) + csum + WordSum(t)
  {
    hide WordSum;
    EncTwo(csum);
    WordSumConcat(a + Enc(2, csum), t);
    WordSumConcat(a, Enc(2, csum));
    SumNext(Enc(2, csum));
    SumNext(Enc(2, csum)[2..]);
  }

  // The built checksum verifies; a deliberately bad one does exactly when the other words already folded
  // to one's-complement zero.
  lemma ChecksumOf(ip: Ip, total: nat)
    requires IpOk(ip)
    ensures IpChecksum(ip, total) < 65536
    ensures StepSum(IpHeader(ip, total, IpChecksum(ip, total)), 0) == 65535 <==>
            !ip.badChecksum || StepSum(IpHeader(ip, total, 0), 0) == 65535
  {
    hide IpHeader, WordSum, StepSum, FoldsTo, CsumOk;
    var h0, c := IpHeader(ip, total, 0), IpChecksum(ip, total);
    NoSum();
    StepSumResidue(h0, 0, 0);
    ResidueRange(WordSum(h0), StepSum(h0, 0));
    HeaderSum(ip, total, c);
    HeaderSum(ip, total, 0);
    CompletesToZero(WordSum(h0), StepSum(h0, 0));
    ChecksumsAgree(IpHeader(ip, total, c));
  }

  lemma ResidueRange(s: nat, m: nat)
    requires FoldsTo(s, m)
    ensures m < 65536
  {
  }

  // A built header, whatever total length it declares and whatever follows it.
  lemma HeaderFields(ip: Ip, total: nat, csum: nat, rest: seq<Byte>)
    requires IpOk(ip) && total < 65536
    ensures var p := IpHeader(ip, total, csum) + rest;
            && |p| == 4 * ip.words + |rest| && p[0] / 16 == 4 && p[0] % 16 == ip.words && p[9] == ip.proto
            && p[4] == p[5] == p[6] == p[7] == 0 && U16(p, 2) == total
            && p[..4 * ip.words] == IpHeader(ip, total, csum) && p[4 * ip.words..] == rest
  {
    hide IpTail, U16, Enc;
    var a: seq<Byte>, b: seq<Byte> := [64 + ip.words, 0], [0, 0, 0, 0, 64, ip.proto];
    var more := b + Enc(2, csum) + IpTail(ip) + rest;
    U16At(a, total, more);
    assert IpHeader(ip, total, csum) + rest == a + Enc(2, total) + more;
  }

  lemma IpFields(payload: seq<Byte>, ip: Ip, pad: seq<Byte>)
    requires IpOk(ip) && 4 * ip.words + |payload| < 65536
    ensures var p, total := Ipv4(payload, ip) + pad, 4 * ip.words + |payload|;
            && |p| == total + |pad| && p[0] / 16 == 4 && p[0] % 16 == ip.words && p[9] == ip.proto
            && p[4] == p[5] == p[6] == p[7] == 0
            && U16(p, 2) == total && p[..4 * ip.words] == IpHeader(ip, total, IpChecksum(ip, total))
            && p[4 * ip.words..total] == payload
  {
    hide IpChecksum, IpHeader, U16, Enc;
    var total := 4 * ip.words + |payload|;
    var h := IpHeader(ip, total, IpChecksum(ip, total));
    HeaderFields(ip, total, IpChecksum(ip, total), payload + pad);
    assert h + (payload + pad) == Ipv4(payload, ip) + pad;
    assert (h + (payload + pad))[4 * ip.words..total] == (payload + pad)[..|payload|] == payload;
  }

  // ---- Ethernet ----

  datatype Mac = Mac(dst: seq<Byte>, src: seq<Byte>, vlan: Option<nat>, ethertype: nat)

  predicate MacOk(e: Mac) {
    |e.dst| == 6 && |e.src| == 6 && e.ethertype < 65536 && (e.vlan.Some? ==> e.vlan.value < 65536)
  }

  // Short payloads are zero-padded.
  function Padding(n: nat): seq<Byte> {
    if n < ETH_MIN_PAYLOAD then Zeros(ETH_MIN_PAYLOAD - n) else []
  }

  function Tag(vlan: Option<nat>): seq<Byte> {
    match vlan
    case None => []
    case Some(v) => Enc(2, ETHERTYPE_VLAN) + Enc(2, v)
  }

  function Eth(payload: seq<Byte>, e: Mac): seq<Byte>
    requires MacOk(e)
  {
    e.dst + e.src + Tag(e.vlan) + Enc(2, e.ethertype) + (payload + Padding(|payload|))
  }

  // The ethertype decides; but an untagged frame whose ethertype claims a tag is read as tagged, with the
  // payload's second word for its ethertype.
  lemma UnwrapEthOf(payload: seq<Byte>, e: Mac)
    requires MacOk(e)
    ensures |Eth(payload, e)| >= 60
    ensures var body := payload + Padding(|payload|);
            && |body| >= 46
            && UnwrapEth(Eth(payload, e)) ==
               if e.vlan.None? && e.ethertype == ETHERTYPE_VLAN then
                 if U16(body, 2) == ETHERTYPE_IPV4 then Some(body[4..]) else None
               else if e.ethertype == ETHERTYPE_IPV4 then Some(body)
               else None
  {
    hide U16, Enc;
    var f, body := Eth(payload, e), payload + Padding(|payload|);
    var a := e.dst + e.src;
    match e.vlan
    case None =>
      U16At(a, e.ethertype, body);
      assert f == a + Enc(2, e.ethertype) + body;
      assert f[18..] == body[4..];
      U16Shift(f, 14, body, 2);
    case Some(v) =>
      U16At(a, ETHERTYPE_VLAN, Enc(2, v) + Enc(2, e.ethertype) + body);
      U16At(a + Enc(2, ETHERTYPE_VLAN) + Enc(2, v), e.ethertype, body);
      assert f == a + Enc(2, ETHERTYPE_VLAN) + (Enc(2, v) + Enc(2, e.ethertype) + body);
      assert f == a + Enc(2, ETHERTYPE_VLAN) + Enc(2, v) + Enc(2, e.ethertype) + body;
  }

  lemma U16Shift(f: seq<Byte>, n: nat, body: seq<Byte>, i: nat)
    requires n <= |f| && f[n..] == body && i + 2 <= |body|
    ensures U16(f, n + i) == U16(body, i)
  {
    assert f[n + i] == body[i] && f[n + i + 1] == body[i + 1];
  }

  // ---- the built bytes, field by field at their offsets ----

  lemma MoldBytes(ms: seq<seq<Byte>>, sequence: nat, session: seq<Byte>)
    requires |session| == 10 && sequence < Pow256(8) && |ms| < 65536
    ensures var d := MoldPacket(ms, sequence, session);
            && |d| == 20 + |Blocks(ms)| && d[..10] == session && Be(d[10..18]) == sequence && U16(d, 18) == |ms|
            && d[20..] == Blocks(ms)
  {
    hide Blocks, Enc, U16, Be, Pow256;
    UnwrapMoldOf(session, sequence, |ms|, Blocks(ms));
  }

  lemma UdpBytes(payload: seq<Byte>, sport: nat, dport: nat)
    requires sport < 65536 && dport < 65536 && 8 + |payload| < 65536
    ensures var s := Udp(payload, sport, dport);
            && |s| == 8 + |payload| && U16(s, 0) == sport && U16(s, 2) == dport && U16(s, 4) == 8 + |payload|
            && U16(s, 6) == 0 && s[8..] == payload
  {
    hide Enc, U16;
    UdpFields(payload, sport, dport);
    var s, n := Udp(payload, sport, dport), 8 + |payload|;
    assert s == [] + Enc(2, sport) + (Enc(2, dport) + Enc(2, n) + Enc(2, 0) + payload);
    U16At([], sport, Enc(2, dport) + Enc(2, n) + Enc(2, 0) + payload);
    U16At(Enc(2, sport) + Enc(2, dport) + Enc(2, n), 0, payload);
  }

  // Version and header length, service type, total length, identification, flags and fragment offset, time to
  // live, protocol, checksum, the two addresses, options of NOPs, and the payload.
  lemma Ipv4Bytes(payload: seq<Byte>, ip: Ip)
    requires IpOk(ip) && 4 * ip.words + |payload| < 65536
    ensures var p, n := Ipv4(payload, ip), 4 * ip.words;
            && |p| == n + |payload| && p[0] == 0x40 + ip.words && p[1] == 0 && U16(p, 2) == n + |payload|
            && U16(p, 4) == 0 && U16(p, 6) == 0 && p[8] == 64 && p[9] == ip.proto
            && U16(p, 10) == IpChecksum(ip, n + |payload|) && p[12..16] == ip.src && p[16..20] == ip.dst
            && (forall k | 20 <= k < n :: p[k] == 1) && p[n..] == payload
  {
    hide Enc, U16, IpChecksum, StepSum;
    var n := 4 * ip.words;
    var total := n + |payload|;
    var c := IpChecksum(ip, total);
    ChecksumOf(ip, total);
    HeaderFields(ip, total, c, payload);
    var p, more := Ipv4(payload, ip), IpTail(ip) + payload;
    assert p == IpHead(ip, total) + Enc(2, c) + more;
    U16At(IpHead(ip, total), c, more);
    assert p[12..] == more;
    ZeroWord(p, 4);
    ZeroWord(p, 6);
  }

  lemma ZeroWord(p: seq<Byte>, i: nat)
    requires i + 2 <= |p| && p[i] == p[i + 1] == 0
    ensures U16(p, i) == 0
  {
  }

  // Destination, source, the tag if there is one, the ethertype, the payload and zeros up to 46 bytes of it.
  lemma EthBytes(payload: seq<Byte>, e: Mac)
    requires MacOk(e)
    ensures var f, n := Eth(payload, e), if e.vlan.Some? then 18 else 14;
            && |f| == n + (if |payload| < 46 then 46 else |payload|)
            && f[..6] == e.dst && f[6..12] == e.src
            && (e.vlan.Some? ==> U16(f, 12) == 0x8100 && U16(f, 14) == e.vlan.value)
            && U16(f, n - 2) == e.ethertype && f[n..n + |payload|] == payload
            && forall k | n + |payload| <= k < |f| :: f[k] == 0
  {
    hide Enc, U16;
    var f, body, a := Eth(payload, e), payload + Padding(|payload|), e.dst + e.src;
    match e.vlan
    case None =>
      U16At(a, e.ethertype, body);
      assert f == a + Enc(2, e.ethertype) + body;
      assert f[14..] == body;
    case Some(v) =>
      var tag := a + Enc(2, ETHERTYPE_VLAN);
      U16At(a, ETHERTYPE_VLAN, Enc(2, v) + Enc(2, e.ethertype) + body);
      U16At(tag, v, Enc(2, e.ethertype) + body);
      U16At(tag + Enc(2, v), e.ethertype, body);
      assert f == a + Enc(2, ETHERTYPE_VLAN) + (Enc(2, v) + Enc(2, e.ethertype) + body);
      assert f == tag + Enc(2, v) + (Enc(2, e.ethertype) + body);
      assert f == tag + Enc(2, v) + Enc(2, e.ethertype) + body;
      assert f[18..] == body;
  }

  // ---- the whole stack ----

  datatype Wire = Wire(session: seq<Byte>, sport: nat, dport: nat, ip: Ip, mac: Mac)

  predicate WireOk(w: Wire) {
    |w.session| == 10 && w.sport < 65536 && w.dport < 65536 && IpOk(w.ip) && MacOk(w.mac)
  }

  // The length fields hold the lengths.
  predicate FitsDatagram(d: seq<Byte>, words: nat) {
    4 * words + 8 + |d| < 65536
  }

  predicate FitsWire(ms: seq<seq<Byte>>, words: nat) {
    (forall k | 0 <= k < |ms| :: |ms[k]| < 65536) && 4 * words + 28 + |Blocks(ms)| < 65536
  }

  lemma {:induction false} BlocksLength(ms: seq<seq<Byte>>)
    ensures |Blocks(ms)| >= 2 * |ms|
  {
    if ms != [] { BlocksLength(ms[1..]); }
  }

  // Any datagram below the feed's layers.
  function Framed(d: seq<Byte>, w: Wire): seq<Byte>
    requires WireOk(w)
  {
    Eth(Ipv4(Udp(d, w.sport, w.dport), w.ip), w.mac)
  }

  function WireFrame(ms: seq<seq<Byte>>, sequence: nat, w: Wire): seq<Byte>
    requires WireOk(w)
  {
    Framed(MoldPacket(ms, sequence, w.session), w)
  }

  // The variants that a receiver rejects.
  predicate Accepted(w: Wire, payload: nat)
    requires WireOk(w)
  {
    && w.mac.ethertype == ETHERTYPE_IPV4 && w.ip.proto == IP_PROTO_UDP && w.dport == FEED_PORT
    && (w.ip.badChecksum ==> StepSum(IpHeader(w.ip, 4 * w.ip.words + payload, 0), 0) == 65535)
  }

  lemma UnwrapIpv4Of(payload: seq<Byte>, ip: Ip, pad: seq<Byte>)
    requires IpOk(ip) && 4 * ip.words + |payload| < 65536
    ensures UnwrapIpv4(Ipv4(payload, ip) + pad) ==
            if ip.proto == IP_PROTO_UDP &&
               (ip.badChecksum ==> StepSum(IpHeader(ip, 4 * ip.words + |payload|, 0), 0) == 65535)
            then Some(payload) else None
  {
    hide StepSum, IpHeader, IpChecksum, Ipv4, U16;
    IpFields(payload, ip, pad);
    ChecksumOf(ip, 4 * ip.words + |payload|);
  }

  lemma UnwrapUdpOf(payload: seq<Byte>, sport: nat, dport: nat)
    requires dport < 65536 && 8 + |payload| < 65536
    ensures UnwrapUdp(Udp(payload, sport, dport), FEED_PORT) == if dport == FEED_PORT then Some(payload) else None
  {
    hide Udp, U16;
    UdpFields(payload, sport, dport);
    var u := Udp(payload, sport, dport);
    assert u[8..|u|] == u[8..];
  }

  // No variant: what every layer accepts.
  predicate Plain(w: Wire) {
    && w.mac.ethertype == ETHERTYPE_IPV4 && w.ip.proto == IP_PROTO_UDP && w.dport == FEED_PORT
    && !w.ip.badChecksum
  }

  // Unwrapping any framed datagram, markers included, gives its payload if no layer rejects the variant;
  // otherwise nothing.
  lemma UnwrapOfFramed(d: seq<Byte>, w: Wire)
    requires WireOk(w) && FitsDatagram(d, w.ip.words)
    ensures UnwrapFrame(Framed(d, w)) == if Accepted(w, 8 + |d|) then MoldPayload(d) else []
  {
    hide UnwrapEth, UnwrapIpv4, UnwrapUdp, MoldPayload, Eth, Ipv4, Udp, U16, IpHeader, StepSum, Padding, IpOk,
         MacOk;
    var u := Udp(d, w.sport, w.dport);
    var p := Ipv4(u, w.ip);
    UdpFields(d, w.sport, w.dport);
    UnwrapEthOf(p, w.mac);
    UnwrapIpv4Of(u, w.ip, Padding(|p|));
    UnwrapUdpOf(d, w.sport, w.dport);
    MisreadHeader(u, w.ip, Padding(|p|));
  }

  // What a misread tag leaves of a packet is not IPv4.
  lemma MisreadHeader(payload: seq<Byte>, ip: Ip, pad: seq<Byte>)
    requires IpOk(ip) && 4 * ip.words + |payload| < 65536
    ensures var p := Ipv4(payload, ip) + pad;
            && |p| >= 20 && U16(p, 2) == 4 * ip.words + |payload|
            && p[4] == p[5] == p[6] == p[7] == 0 && UnwrapIpv4(p[4..]) == None
  {
    hide IpHeader, IpChecksum, Ipv4, U16, StepSum;
    IpFields(payload, ip, pad);
  }

  // A packet built from a message list carries the list's blocks, except that 65535 messages read as the
  // end-of-session marker; the two markers carry nothing.
  lemma MoldPayloadOf(ms: seq<seq<Byte>>, sequence: nat, session: seq<Byte>)
    requires |session| == 10 && sequence < Pow256(8) && |ms| < 65536
    ensures MoldPayload(MoldPacket(ms, sequence, session)) == if |ms| == COUNT_END_SESS then [] else Blocks(ms)
    ensures MoldPayload(MoldHeartbeat(sequence, session)) == []
    ensures MoldPayload(MoldEndOfSession(sequence, session)) == []
  {
    hide Blocks, MoldHeader, UnwrapMold, Pow256;
    NoBlocks();
    UnwrapMoldOf(session, sequence, |ms|, Blocks(ms));
    UnwrapMoldOf(session, sequence, 0, []);
    UnwrapMoldOf(session, sequence, COUNT_END_SESS, []);
    assert forall c :: MoldHeader(session, sequence, c) + [] == MoldHeader(session, sequence, c);
  }

  // So unwrapping a built frame gives exactly the framed messages back if no layer rejects the variant, and
  // marker frames give nothing.
  lemma UnwrapOfWireFrame(ms: seq<seq<Byte>>, sequence: nat, w: Wire)
    requires WireOk(w) && FitsWire(ms, w.ip.words) && sequence < Pow256(8)
    ensures UnwrapFrame(WireFrame(ms, sequence, w)) == if Accepted(w, 28 + |Blocks(ms)|) then Blocks(ms) else []
    ensures UnwrapFrame(Framed(MoldHeartbeat(sequence, w.session), w)) == []
    ensures UnwrapFrame(Framed(MoldEndOfSession(sequence, w.session), w)) == []
  {
    hide UnwrapFrame, Framed, MoldPayload, MoldHeader, Blocks, Accepted, WireOk, Pow256;
    SessionOk(w);
    BlocksLength(ms);
    MoldPayloadOf(ms, sequence, w.session);
    UnwrapOfFramed(MoldPacket(ms, sequence, w.session), w);
    UnwrapOfFramed(MoldHeartbeat(sequence, w.session), w);
    UnwrapOfFramed(MoldEndOfSession(sequence, w.session), w);
  }

  lemma SessionOk(w: Wire)
    requires WireOk(w)
    ensures |w.session| == 10 && IpOk(w.ip)
  {
  }

  // ---- splitting a message list into datagrams ----

  // The k-th group takes sizes(k) messages, as the random source drew them.
  function Packets(ms: seq<seq<Byte>>, sizes: nat -> nat, k: nat, sequence: nat, w: Wire): seq<seq<Byte>>
    requires WireOk(w) && forall j :: sizes(j) >= 1
    decreases |ms|
  {
    if ms == [] then []
    else
      var n := if sizes(k) <= |ms| then sizes(k) else |ms|;
      [WireFrame(ms[..n], sequence, w)] + Packets(ms[n..], sizes, k + 1, sequence + n, w)
  }

  method Packetize(messages: seq<seq<Byte>>, sizes: nat -> nat, seq0: nat, w: Wire)
    returns (frames: seq<seq<Byte>>, expected: seq<Byte>)
    requires WireOk(w) && forall j :: sizes(j) >= 1
    ensures frames == Packets(messages, sizes, 0, seq0, w) && expected == Blocks(messages)
  {
    hide WireFrame, Packets, Blocks, WireOk;
    frames, expected := [], [];
    var i: nat, k: nat, sequence: nat := 0, 0, seq0;
    assert messages[0..] == messages && messages[..0] == [];
    NoPackets(sizes, 0, seq0, w);
    while i < |messages|
      invariant i <= |messages| && expected == Blocks(messages[..i])
      invariant frames + Packets(messages[i..], sizes, k, sequence, w) == Packets(messages, sizes, 0, seq0, w)
    {
      var n := if sizes(k) <= |messages| - i then sizes(k) else |messages| - i;
      var group := messages[i..i + n];
      PacketsNext(messages[i..], sizes, k, sequence, w);
      assert messages[i..][..n] == group && messages[i..][n..] == messages[i + n..];
      assert messages[..i + n] == messages[..i] + group;
      BlocksConcat(messages[..i], group);
      frames, expected := frames + [WireFrame(group, sequence, w)], expected + Blocks(group);
      i, k, sequence := i + n, k + 1, sequence + n;
    }
    NoPackets(sizes, k, sequence, w);
    assert messages[..i] == messages && messages[i..] == [];
  }

  lemma NoPackets(sizes: nat -> nat, k: nat, sequence: nat, w: Wire)
    requires WireOk(w) && forall j :: sizes(j) >= 1
    ensures Packets([], sizes, k, sequence, w) == [] && Blocks([]) == []
  {
  }

  lemma PacketsNext(ms: seq<seq<Byte>>, sizes: nat -> nat, k: nat, sequence: nat, w: Wire)
    requires WireOk(w) && (forall j :: sizes(j) >= 1) && ms != []
    ensures var n := if sizes(k) <= |ms| then sizes(k) else |ms|;
            Packets(ms, sizes, k, sequence, w) ==
            [WireFrame(ms[..n], sequence, w)] + Packets(ms[n..], sizes, k + 1, sequence + n, w)
  {
    hide WireFrame, WireOk;
  }

  // Any group of up to `most` neighbouring messages fits a frame.
  ghost predicate GroupsFit(ms: seq<seq<Byte>>, most: nat, words: nat) {
    forall a, b | 0 <= a <= b <= |ms| && b - a <= most :: FitsWire(ms[a..b], words)
  }

  function UnwrapAll(fs: seq<seq<Byte>>): seq<Byte> {
    if fs == [] then [] else UnwrapFrame(fs[0]) + UnwrapAll(fs[1..])
  }

  lemma GroupsFitTail(ms: seq<seq<Byte>>, most: nat, words: nat, n: nat)
    requires GroupsFit(ms, most, words) && n <= |ms|
    ensures GroupsFit(ms[n..], most, words)
    ensures n <= most ==> FitsWire(ms[..n], words)
  {
    hide FitsWire;
    assert ms[..n] == ms[0..n];
    forall a, b | 0 <= a <= b <= |ms[n..]| && b - a <= most ensures FitsWire(ms[n..][a..b], words) {
      assert ms[n..][a..b] == ms[n + a..n + b];
    }
  }

  // However a message list is grouped, unwrapping the frames and joining the results gives its framed
  // stream back.
  lemma {:induction false} PacketsUnwrap(ms: seq<seq<Byte>>, sizes: nat -> nat, k: nat, sequence: nat, w: Wire,
                                         most: nat)
    requires WireOk(w) && GroupsFit(ms, most, w.ip.words) && sequence + |ms| < Pow256(8)
    requires forall j :: 1 <= sizes(j) <= most
    requires Plain(w)
    ensures UnwrapAll(Packets(ms, sizes, k, sequence, w)) == Blocks(ms)
    decreases |ms|
  {
    hide WireFrame, UnwrapFrame, Framed, FitsWire, WireOk, Pow256, Block, GroupsFit, IpHeader, StepSum;
    if ms != [] {
      var n := if sizes(k) <= |ms| then sizes(k) else |ms|;
      var fs := Packets(ms[n..], sizes, k + 1, sequence + n, w);
      GroupsFitTail(ms, most, w.ip.words, n);
      UnwrapOfWireFrame(ms[..n], sequence, w);
      PacketsUnwrap(ms[n..], sizes, k + 1, sequence + n, w, most);
      BlocksConcat(ms[..n], ms[n..]);
      assert ms[..n] + ms[n..] == ms;
      assert ([WireFrame(ms[..n], sequence, w)] + fs)[1..] == fs;
    }
  }
}
