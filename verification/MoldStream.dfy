// The gap strobe on the datagrams of a real sender: message packets, heartbeats and end-of-session markers,
// each numbered by the messages sent before it.
module MoldStreams {
  import opened Options
  import opened Bytes
  import opened FrameRef
  import opened FrameBuild
  import opened Layers
  import opened EthParsers
  import opened MoldParsers

  datatype Sending = Packet(ms: seq<seq<Byte>>) | Heartbeat | EndOfSession

  // The number of messages in a datagram.
  function Sends(x: Sending): nat {
    if x.Packet? then |x.ms| else 0
  }

  function SendsAll(xs: seq<Sending>): nat {
    if xs == [] then 0 else Sends(xs[0]) + SendsAll(xs[1..])
  }

  // The count that 65535 messages would have is the end-of-session marker's.
  ghost predicate Countable(xs: seq<Sending>) {
    forall k | 0 <= k < |xs| && xs[k].Packet? :: |xs[k].ms| < 65535
  }

  function Datagram(x: Sending, n: nat, session: seq<Byte>): seq<Byte>
    requires |session| == 10
  {
    match x
    case Packet(ms) => MoldPacket(ms, n % 0x1_0000_0000_0000_0000, session)
    case Heartbeat => MoldHeartbeat(n % 0x1_0000_0000_0000_0000, session)
    case EndOfSession => MoldEndOfSession(n % 0x1_0000_0000_0000_0000, session)
  }

  // Each datagram carries the number of its first message, or of the one to come.
  function Datagrams(xs: seq<Sending>, n: nat, session: seq<Byte>): (ds: seq<seq<Byte>>)
    requires |session| == 10
    ensures |ds| == |xs|
  {
    if xs == [] then [] else [Datagram(xs[0], n, session)] + Datagrams(xs[1..], n + Sends(xs[0]), session)
  }

  lemma Pow256Eight()
    ensures Pow256(8) == 0x1_0000_0000_0000_0000
  {
    assert Pow256(4) == 0x1_0000_0000;
  }

  // What the receiver reads of one.
  lemma DatagramFields(x: Sending, n: nat, session: seq<Byte>)
    requires |session| == 10 && (x.Packet? ==> |x.ms| < 65535)
    ensures var d := Datagram(x, n, session);
            && |d| >= 20 && Be(d[10..18]) == n % 0x1_0000_0000_0000_0000
            && U16(d, 18) == (match x case Packet(ms) => |ms| case Heartbeat => 0 case EndOfSession => 65535)
            && MessagesIn(U16(d, 18)) == Sends(x)
  {
    hide Blocks, Be, U16, Pow256, Enc;
    Pow256Eight();
    var s := n % 0x1_0000_0000_0000_0000;
    match x
    case Packet(ms) => UnwrapMoldOf(session, s, |ms|, Blocks(ms));
    case Heartbeat =>
      UnwrapMoldOf(session, s, 0, []);
      assert MoldHeader(session, s, 0) + [] == MoldHeader(session, s, 0);
    case EndOfSession =>
      UnwrapMoldOf(session, s, 65535, []);
      assert MoldHeader(session, s, 65535) + [] == MoldHeader(session, s, 65535);
  }

  lemma DatagramsNext(xs: seq<Sending>, n: nat, session: seq<Byte>)
    requires |session| == 10 && xs != []
    ensures Datagrams(xs, n, session)[0] == Datagram(xs[0], n, session)
    ensures Datagrams(xs, n, session)[1..] == Datagrams(xs[1..], n + Sends(xs[0]), session)
  {
    hide Datagram, Sends;
  }

  lemma {:induction false} DatagramsAt(xs: seq<Sending>, n: nat, session: seq<Byte>, k: nat)
    requires |session| == 10 && k < |xs|
    ensures Datagrams(xs, n, session)[k] == Datagram(xs[k], n + SendsAll(xs[..k]), session)
  {
    hide Datagram, Sends;
    if k > 0 {
      DatagramsAt(xs[1..], n + Sends(xs[0]), session, k - 1);
      assert xs[..k][1..] == xs[1..][..k - 1];
    }
  }

  // A sender numbers as the tracker expects, and the messages add up.
  lemma {:induction false} SenderNumbers(xs: seq<Sending>, n: nat, session: seq<Byte>)
    requires |session| == 10 && Countable(xs)
    ensures var ds := Datagrams(xs, n, session);
            && (forall k | 0 <= k < |ds| :: |ds[k]| >= 20)
            && Numbered(ds, n) && MessageCount(ds) == SendsAll(xs)
  {
    hide Datagram, MessagesIn, Be, U16;
    if xs != [] {
      DatagramFields(xs[0], n, session);
      var rest := Datagrams(xs[1..], n + Sends(xs[0]), session);
      SenderNumbers(xs[1..], n + Sends(xs[0]), session);
      assert Datagrams(xs, n, session)[1..] == rest;
    }
  }

  // ---- the strobe of one delivered datagram ----

  // How many of the datagrams before the j-th are delivered.
  function Rank(mask: seq<bool>, j: nat): nat
    requires j <= |mask|
  {
    if j == 0 then 0 else (if mask[0] then 1 else 0) + Rank(mask[1..], j - 1)
  }

  // A message packet is withheld between i and j.
  ghost predicate Withheld(xs: seq<Sending>, i: int, j: nat) {
    exists k | i < k < j && 0 <= k < |xs| :: xs[k].Packet? && xs[k].ms != []
  }

  lemma {:induction false} NoneSent(xs: seq<Sending>)
    ensures SendsAll(xs) == 0 <==> forall k | 0 <= k < |xs| :: Sends(xs[k]) == 0
  {
    hide Sends;
    if xs != [] {
      NoneSent(xs[1..]);
      assert forall k | 0 <= k < |xs| - 1 :: xs[1..][k] == xs[k + 1];
      assert forall k | 1 <= k < |xs| :: xs[k] == xs[1..][k - 1];
    }
  }

  lemma WithheldIs(xs: seq<Sending>, i: nat, j: nat)
    requires i <= j <= |xs|
    ensures SendsAll(xs[i..j]) > 0 <==> Withheld(xs, i - 1, j)
  {
    NoneSent(xs[i..j]);
    if k :| 0 <= k < j - i && Sends(xs[i..j][k]) > 0 {
      assert xs[i..j][k] == xs[i + k];
    }
    if k :| i - 1 < k < j && xs[k].Packet? && xs[k].ms != [] {
      assert xs[i..j][k - i] == xs[k];
    }
  }

  lemma SendsNext(xs: seq<Sending>, j: nat)
    requires 0 < j <= |xs|
    ensures SendsAll(xs[..j]) == Sends(xs[0]) + SendsAll(xs[1..][..j - 1])
  {
    assert xs[..j][1..] == xs[1..][..j - 1];
  }

  // The loss shown with the j-th datagram, none before it being delivered.
  lemma {:induction false} FirstLoss(xs: seq<Sending>, n: nat, session: seq<Byte>, mask: seq<bool>, seen: bool,
                                     lost: nat, j: nat)
    requires |session| == 10 && Countable(xs) && |mask| == |xs| && j < |xs| && mask[j]
    requires forall k | 0 <= k < |xs| :: |Datagrams(xs, n, session)[k]| >= 20
    requires forall k | 0 <= k < j :: !mask[k]
    ensures var d, ls := Datagrams(xs, n, session)[j], Losses(Datagrams(xs, n, session), mask, seen, lost);
            && Rank(mask, j) == 0 && ls != []
            && ls[0] == Header(Be(d[10..18]), U16(d, 18), seen && lost + SendsAll(xs[..j]) > 0)
    decreases |xs|
  {
    hide Be, U16, Datagrams, Datagram, MessagesIn, SendsAll, Losses, Delivered, Sends;
    DeliveredNext(Datagrams(xs, n, session), mask, seen, lost);
    DatagramFields(xs[0], n, session);
    DatagramsNext(xs, n, session);
    if j == 0 {
      NoneSent([]);
      assert xs[..0] == [];
    } else {
      var m := n + Sends(xs[0]);
      FirstLoss(xs[1..], m, session, mask[1..], seen, lost + Sends(xs[0]), j - 1);
      SendsNext(xs, j);
    }
  }

  // The loss shown with the j-th datagram, the i-th being the last one delivered before it.
  lemma {:induction false} LaterLoss(xs: seq<Sending>, n: nat, session: seq<Byte>, mask: seq<bool>, seen: bool,
                                     lost: nat, i: nat, j: nat)
    requires |session| == 10 && Countable(xs) && |mask| == |xs| && i < j < |xs| && mask[i] && mask[j]
    requires forall k | 0 <= k < |xs| :: |Datagrams(xs, n, session)[k]| >= 20
    requires forall k | i < k < j :: !mask[k]
    ensures var d, ls := Datagrams(xs, n, session)[j], Losses(Datagrams(xs, n, session), mask, seen, lost);
            var r := Rank(mask, j);
            && 0 < r < |ls| && ls[r] == Header(Be(d[10..18]), U16(d, 18), SendsAll(xs[i + 1..j]) > 0)
    decreases |xs|
  {
    hide Be, U16, Datagrams, Datagram, MessagesIn, SendsAll, Losses, Delivered, Sends;
    var ds := Datagrams(xs, n, session);
    DeliveredNext(ds, mask, seen, lost);
    DatagramFields(xs[0], n, session);
    DatagramsNext(xs, n, session);
    var m := n + Sends(xs[0]);
    if i == 0 {
      FirstLoss(xs[1..], m, session, mask[1..], true, 0, j - 1);
      assert xs[1..][..j - 1] == xs[1..j];
    } else {
      assert xs[1..][i..j - 1] == xs[i + 1..j];
      LaterLoss(xs[1..], m, session, mask[1..], if mask[0] then true else seen,
                if mask[0] then 0 else lost + Sends(xs[0]), i - 1, j - 1);
    }
  }

  // ---- the law of the gap strobe ----

  // The header shown for the j-th datagram of a sender, whatever was delivered before it: its own number, its
  // own count, and a gap exactly when a packet with messages was withheld since the last delivery. The first
  // header shown never has one.
  lemma GapIffWithheld(xs: seq<Sending>, n: nat, session: seq<Byte>, mask: seq<bool>, j: nat)
    requires |session| == 10 && Countable(xs) && SendsAll(xs) < 0x1_0000_0000_0000_0000
    requires |mask| == |xs| && j < |xs| && mask[j]
    ensures var hs, r := Headers(None, Delivered(Datagrams(xs, n, session), mask)), Rank(mask, j);
            && r < |hs|
            && hs[r].sequence == (n + SendsAll(xs[..j])) % 0x1_0000_0000_0000_0000
            && hs[r].count == (match xs[j] case Packet(ms) => |ms| case Heartbeat => 0 case EndOfSession => 65535)
            && (forall i | 0 <= i < j && mask[i] && (forall k | i < k < j :: !mask[k]) ::
                  hs[r].gap <==> exists k | i < k < j :: xs[k].Packet? && xs[k].ms != [])
            && ((forall k | 0 <= k < j :: !mask[k]) ==> !hs[r].gap)
  {
    hide Be, U16, Datagram, SendsAll, Losses, Headers, Numbered, MessageCount, Delivered, Rank;
    var ds := Datagrams(xs, n, session);
    SenderNumbers(xs, n, session);
    GapIsLoss(ds, mask, n, 0, None);
    DatagramsAt(xs, n, session, j);
    DatagramFields(xs[j], n + SendsAll(xs[..j]), session);
    if forall k | 0 <= k < j :: !mask[k] {
      FirstLoss(xs, n, session, mask, false, 0, j);
    } else {
      var i := LastBefore(mask, j);
      LaterLoss(xs, n, session, mask, false, 0, i, j);
      WithheldIs(xs, i + 1, j);
    }
  }

  lemma {:induction false} LastBefore(mask: seq<bool>, j: nat) returns (i: nat)
    requires j <= |mask| && exists k | 0 <= k < j :: mask[k]
    ensures i < j && mask[i] && forall k | i < k < j :: !mask[k]
  {
    i := j - 1;
    while !mask[i]
      invariant 0 <= i < j && forall k | i < k < j :: !mask[k]
      decreases i
    {
      i := i - 1;
    }
  }

  // With everything delivered there is no gap.
  lemma NothingWithheld(xs: seq<Sending>, n: nat, session: seq<Byte>, mask: seq<bool>, j: nat)
    requires |session| == 10 && Countable(xs) && SendsAll(xs) < 0x1_0000_0000_0000_0000
    requires |mask| == |xs| && j < |xs| && forall k | 0 <= k < |xs| :: mask[k]
    ensures var hs := Headers(None, Delivered(Datagrams(xs, n, session), mask)); j < |hs| && !hs[j].gap
  {
    hide Headers, Delivered, Datagrams, SendsAll;
    GapIffWithheld(xs, n, session, mask, j);
    RankOfAll(mask, j);
    if j > 0 { assert mask[j - 1]; }
  }

  lemma {:induction false} RankOfAll(mask: seq<bool>, j: nat)
    requires j <= |mask| && forall k | 0 <= k < |mask| :: mask[k]
    ensures Rank(mask, j) == j
  {
    if j > 0 { RankOfAll(mask[1..], j - 1); }
  }

  lemma {:induction false} LossesCount(ds: seq<seq<Byte>>, mask: seq<bool>, seen: bool, lost: nat)
    requires |mask| == |ds| && forall k | 0 <= k < |ds| :: |ds[k]| >= 20
    ensures |Losses(ds, mask, seen, lost)| == Rank(mask, |mask|)
    decreases |ds|
  {
    hide Be, U16, MessagesIn;
    if ds != [] {
      LossesCount(ds[1..], mask[1..], if mask[0] then true else seen,
                  if mask[0] then 0 else lost + MessagesIn(U16(ds[0], 18)));
    }
  }

  // And these are the strobes of the module: in every run from reset, however the delivered datagrams are
  // cut, idled and stalled, the strobes shown so far are the first of those headers, one for each delivery.
  lemma StrobesOfSender(xs: seq<Sending>, n: nat, session: seq<Byte>, mask: seq<bool>, tr: seq<LayerIn>)
    requires |session| == 10 && Countable(xs) && |mask| == |xs| && SendsAll(xs) < 0x1_0000_0000_0000_0000
    requires LayerFeeds(MoldSniff, ResetMold().layer, tr, Input([], 0, Delivered(Datagrams(xs, n, session), mask)))
    ensures var hs := Headers(None, Delivered(Datagrams(xs, n, session), mask));
            var z := LayerEndInput(MoldSniff, ResetMold().layer, tr,
                                   Input([], 0, Delivered(Datagrams(xs, n, session), mask)));
            && Strobes(ResetMold(), tr) <= hs && |hs| == Rank(mask, |mask|)
            && (Undecoded(MoldEnd(ResetMold(), tr).layer, z) == [] ==> Strobes(ResetMold(), tr) == hs)
  {
    hide LayerStep, MoldSniff, MoldDecide, MoldGood, Datagrams, Numbered, Losses, Headers, Rank, SendsAll;
    var ds := Datagrams(xs, n, session);
    SenderNumbers(xs, n, session);
    GapIsLoss(ds, mask, n, 0, None);
    LossesCount(ds, mask, false, 0);
    DeliveredSizes(ds, mask);
    ResetOk(MoldDecide, AnyFrame, MoldGood, MoldRegs(0, 0, false, 0, 0), Delivered(ds, mask));
    HeadersOfRun(ResetMold(), tr, Input([], 0, Delivered(ds, mask)));
    NoHeaders(Expectation(MoldEnd(ResetMold(), tr).layer.x));
    assert Strobes(ResetMold(), tr) + [] == Strobes(ResetMold(), tr);
  }

  // ---- the packetizer is such a sender ----

  function Joined(xs: seq<Sending>): seq<seq<Byte>> {
    if xs == [] then [] else (if xs[0].Packet? then xs[0].ms else []) + Joined(xs[1..])
  }

  // Its frames are the framed datagrams of a sender whose packets, none of them empty and none larger than
  // drawn, hold the message list, cut in order.
  lemma {:induction false} PacketsAreDatagrams(ms: seq<seq<Byte>>, sizes: nat -> nat, k: nat, n: nat, w: Wire)
    returns (xs: seq<Sending>)
    requires WireOk(w) && (forall j :: sizes(j) >= 1) && n + |ms| < 0x1_0000_0000_0000_0000
    ensures Joined(xs) == ms && SendsAll(xs) == |ms|
    ensures forall j | 0 <= j < |xs| :: xs[j].Packet? && 1 <= |xs[j].ms| <= sizes(k + j) && |xs[j].ms| <= |ms|
    ensures |Packets(ms, sizes, k, n, w)| == |xs|
    ensures var ps, ds := Packets(ms, sizes, k, n, w), Datagrams(xs, n, w.session);
            forall j | 0 <= j < |xs| :: ps[j] == Framed(ds[j], w)
    decreases |ms|
  {
    hide Framed, WireOk, Packets, MoldPacket, Datagrams;
    SessionOk(w);
    if ms == [] {
      NoPackets(sizes, k, n, w);
      xs := [];
    } else {
      var m := if sizes(k) <= |ms| then sizes(k) else |ms|;
      PacketsNext(ms, sizes, k, n, w);
      var rest := PacketsAreDatagrams(ms[m..], sizes, k + 1, n + m, w);
      xs := [Packet(ms[..m])] + rest;
      assert xs[1..] == rest && ms == ms[..m] + ms[m..];
      DatagramsNext(xs, n, w.session);
      forall j | 0 <= j < |xs|
        ensures xs[j].Packet? && 1 <= |xs[j].ms| <= sizes(k + j) && |xs[j].ms| <= |ms|
        ensures Packets(ms, sizes, k, n, w)[j] == Framed(Datagrams(xs, n, w.session)[j], w)
      {
        if j > 0 {
          assert xs[j] == rest[j - 1] && sizes(k + j) == sizes((k + 1) + (j - 1));
          assert Datagrams(xs, n, w.session)[j] == Datagrams(xs, n, w.session)[1..][j - 1];
          assert Packets(ms, sizes, k, n, w)[j] == Packets(ms[m..], sizes, k + 1, n + m, w)[j - 1];
        } else {
          FirstPacket(ms[..m], n, w);
        }
      }
    }
  }

  lemma FirstPacket(ms: seq<seq<Byte>>, n: nat, w: Wire)
    requires WireOk(w) && n < 0x1_0000_0000_0000_0000
    ensures |w.session| == 10 && WireFrame(ms, n, w) == Framed(Datagram(Packet(ms), n, w.session), w)
  {
    hide Framed, MoldPacket;
  }
}
