// The gap strobe at the end of the whole front end: the headers shown are those of the accepted datagrams,
// and on a stream that arrives complete and in order none of them has a gap.
module GapFeeds {
  import opened Options
  import opened Bytes
  import opened Axis
  import opened Checksums
  import opened Gearboxes
  import opened GearTheorems
  import opened Layers
  import opened FrameRef
  import opened FrameBuild
  import opened EthParsers
  import opened Ipv4Parsers
  import opened UdpParsers
  import opened MoldParsers
  import opened MoldStreams
  import opened FeedTops
  import opened FeedLaws

  // The headers shown over a run of the chain.
  function FeedStrobes(t: Feed, tr: seq<LayerIn>): seq<Header>
    requires Sized(t)
    decreases |tr|
  {
    if tr == [] then [] else Strobe(FeedStep(t, tr[0]).mold) + FeedStrobes(FeedStep(t, tr[0]), tr[1..])
  }

  // Those still to be shown.
  function HeadersLeft(t: Feed, s: Inputs): seq<Header> {
    Headers(Expectation(t.mold.layer.x), Undecoded(t.mold.layer, s.m))
  }

  // What the UDP layer offers is the next beat of the datagrams.
  lemma UdpOffers(g: Gear, s: Input, next: Input)
    requires UdpOk(g, s) && InputOk(next) && RestBeats(next) == UdpFuture(g, s) && g.mValid
    ensures Brings(next, g.mBeat)
  {
    hide RestBeats, KeptFrom, Brings, Aligned, Future, UdpRem;
    FutureHead(g, UdpRem(s));
    OfferAligned(g);
    var fut := UdpFuture(g, s);
    assert fut == [See(g.mBeat)] + fut[1..];
    Link(next, g.mBeat, fut[1..]);
  }

  lemma MoldPart(t: Feed, s: Inputs)
    requires FeedOk(t, s)
    ensures LayerOk(MoldDecide, AnyFrame, MoldGood, t.mold.layer, s.m)
    ensures UdpOk(t.udp, s.u) && InputOk(s.m) && RestBeats(s.m) == UdpFuture(t.udp, s.u)
  {
    hide KeptFrom, HeldOk, RestBeats, UdpFuture, LayerFuture;
  }

  lemma StrobeLeaves(t: Feed, i: LayerIn, s: Inputs)
    requires FeedOk(t, s) && Sized(t)
    ensures HeadersLeft(t, s) == Strobe(FeedStep(t, i).mold) + HeadersLeft(FeedStep(t, i), FeedAfter(t, i, s))
  {
    hide Headers, LayerStep, UdpStep, LayerOk, UdpOk, InputOk, RestBeats, UdpFuture, Brings, Strobe, Expectation,
         Undecoded, MoldStep;
    MoldPart(t, s);
    if t.udp.mValid { UdpOffers(t.udp, s.u, s.m); }
    StrobeConserves(t.mold, MoldIn(t, i), s.m);
    MoldStepIs(t.mold, MoldIn(t, i));
  }

  lemma MoldStepIs(m: MoldModule, i: LayerIn)
    requires |m.layer.gear.buf| == 16
    ensures MoldStep(m, i).layer == LayerStep(MoldSniff, m.layer, i)
  {
    hide LayerStep;
  }

  lemma {:induction false} StrobesLeave(t: Feed, tr: seq<LayerIn>, s: Inputs)
    requires FeedOk(t, s) && Sized(t) && FeedFeeds(t, tr, s)
    ensures HeadersLeft(t, s) == FeedStrobes(t, tr) + HeadersLeft(FeedEnd(t, tr), FeedEndInputs(t, tr, s))
    decreases |tr|
  {
    hide FeedStep, FeedOk, FeedAfter, Sized, HeadersLeft, Brings, Strobe;
    if tr != [] {
      FeedConserves(t, tr[0], s);
      StrobeLeaves(t, tr[0], s);
      StrobesLeave(FeedStep(t, tr[0]), tr[1..], FeedAfter(t, tr[0], s));
    }
  }

  // ---- the datagrams that reach the MoldUDP64 layer ----

  function DatagramOf(f: seq<Byte>): seq<Byte> {
    UdpOut(Ipv4Out(EthOut(f)))
  }

  function DatagramsOf(fs: seq<seq<Byte>>): (ds: seq<seq<Byte>>)
    ensures |ds| == |fs|
  {
    seq(|fs|, k requires 0 <= k < |fs| => DatagramOf(fs[k]))
  }

  lemma MoldReceives(fs: seq<seq<Byte>>)
    ensures StartInputs(fs).m == Input([], 0, NonEmpty(DatagramsOf(fs)))
  {
    hide EthDecide, Ipv4Decide, UdpDecide, Slice;
    var e := Outs(EthDecide, fs);
    var i := Outs(Ipv4Decide, e);
    OutsNonEmpty(Ipv4Decide, e);
    OutsNonEmpty(UdpDecide, i);
    OutsNonEmpty(UdpDecide, Outs(Ipv4Decide, NonEmpty(e)));
    assert DatagramsOf(fs) == Outs(UdpDecide, i);
  }

  // A framed datagram reaches it if every layer accepts the variant; otherwise nothing does.
  lemma DatagramOfFramed(d: seq<Byte>, w: Wire)
    requires WireOk(w) && FitsDatagram(d, w.ip.words) && !Misread(d, w)
    ensures DatagramOf(Framed(d, w)) == if Accepted(w, 8 + |d|) then d else []
  {
    hide Eth, Ipv4, Udp, EthOut, Ipv4Out, UdpOut, UnwrapEth, UnwrapIpv4, UnwrapUdp, Ipv4Parts, Ipv4Scope, U16,
         Padding, IpHeader, StepSum;
    var u := Udp(d, w.sport, w.dport);
    var p := Ipv4(u, w.ip);
    var f := Framed(d, w);
    FramedAgreedIff(d, w);
    UdpFields(d, w.sport, w.dport);
    UnwrapEthOf(p, w.mac);
    UnwrapIpv4Of(u, w.ip, Padding(|p|));
    UnwrapUdpOf(d, w.sport, w.dport);
    MisreadHeader(u, w.ip, Padding(|p|));
    EthAgreesIff(f);
    Ipv4AgreesIff(EthOut(f));
    UdpAgreesIff(Ipv4Out(EthOut(f)));
    NothingUnwraps();
  }

  // The accepted datagrams of mixed traffic.
  ghost function Received(xs: seq<Sent>): seq<seq<Byte>>
    requires AllSentOk(xs)
  {
    if xs == [] then []
    else (if Accepted(xs[0].w, 8 + |xs[0].d|) && xs[0].d != [] then [xs[0].d] else []) + Received(xs[1..])
  }

  lemma {:induction false} TrafficReceived(xs: seq<Sent>)
    requires AllSentOk(xs)
    ensures NonEmpty(DatagramsOf(OnWire(xs))) == Received(xs)
  {
    hide DatagramOf, DatagramsOf, Framed, Accepted, Misread, WireOk, NonEmpty;
    if xs == [] {
      NoDatagrams();
    } else {
      assert SentOk(xs[0]);
      var f := Framed(xs[0].d, xs[0].w);
      DatagramOfFramed(xs[0].d, xs[0].w);
      TrafficReceived(xs[1..]);
      DatagramsNext(f, OnWire(xs[1..]));
      NonEmptyNext(DatagramOf(f), DatagramsOf(OnWire(xs[1..])));
    }
  }

  lemma NoDatagrams()
    ensures NonEmpty(DatagramsOf([])) == []
  {
  }

  lemma DatagramsNext(f: seq<Byte>, fs: seq<seq<Byte>>)
    ensures DatagramsOf([f] + fs) == [DatagramOf(f)] + DatagramsOf(fs)
  {
    hide DatagramOf;
  }

  // ---- end to end ----

  // Whatever datagrams, rejected variants and markers are sent: in every run from reset the headers shown so
  // far are the first of those of the accepted datagrams, and all of them once every header is decoded.
  lemma TrafficHeaders(xs: seq<Sent>, tr: seq<LayerIn>)
    requires AllSentOk(xs) && FeedFeeds(ResetFeed(), tr, StartInputs(OnWire(xs)))
    ensures var t := FeedEnd(ResetFeed(), tr);
            var s := FeedEndInputs(ResetFeed(), tr, StartInputs(OnWire(xs)));
            && FeedStrobes(ResetFeed(), tr) <= Headers(None, Received(xs))
            && (Undecoded(t.mold.layer, s.m) == [] ==> FeedStrobes(ResetFeed(), tr) == Headers(None, Received(xs)))
  {
    hide FeedOk, FeedStep, FeedFeeds, FeedEnd, FeedEndInputs, StartInputs, OnWire, Received, AllAgreed, Clean,
         DatagramsOf, NonEmpty, FeedStrobes;
    var fs := OnWire(xs);
    TrafficUnwraps(xs);
    AgreedClean(fs);
    StartOk(fs);
    StrobesLeave(ResetFeed(), tr, StartInputs(fs));
    MoldReceives(fs);
    TrafficReceived(xs);
    var t := FeedEnd(ResetFeed(), tr);
    NoHeaders(Expectation(t.mold.layer.x));
    assert FeedStrobes(ResetFeed(), tr) + [] == FeedStrobes(ResetFeed(), tr);
  }

  // The packetizer's datagrams, all of them received.
  lemma {:induction false} PacketsReceived(ds: seq<seq<Byte>>, w: Wire) returns (xs: seq<Sent>)
    requires WireOk(w) && Plain(w)
    requires forall k | 0 <= k < |ds| :: ds[k] != [] && FitsDatagram(ds[k], w.ip.words)
    ensures AllSentOk(xs) && Received(xs) == ds && |OnWire(xs)| == |ds|
    ensures forall k | 0 <= k < |ds| :: OnWire(xs)[k] == Framed(ds[k], w)
  {
    hide Framed, WireOk;
    if ds == [] {
      xs := [];
    } else {
      var rest := PacketsReceived(ds[1..], w);
      xs := [Sent(ds[0], w)] + rest;
      assert SentOk(xs[0]) && xs[1..] == rest;
      assert forall k | 1 <= k < |xs| :: xs[k] == rest[k - 1];
      forall k | 0 <= k < |ds|
        ensures OnWire(xs)[k] == Framed(ds[k], w)
      {
        if k > 0 { assert OnWire(xs)[k] == OnWire(rest)[k - 1]; }
      }
    }
  }

  // A message list, packetized and sent in order through the chain: in every run, no header has a gap.
  lemma InOrderNoGap(ms: seq<seq<Byte>>, sizes: nat -> nat, sequence: nat, w: Wire, most: nat, tr: seq<LayerIn>)
    requires WireOk(w) && GroupsFit(ms, most, w.ip.words) && sequence + |ms| < Pow256(8)
    requires forall j :: 1 <= sizes(j) <= most
    requires Plain(w)
    requires FeedFeeds(ResetFeed(), tr, StartInputs(Packets(ms, sizes, 0, sequence, w)))
    ensures forall h | h in FeedStrobes(ResetFeed(), tr) :: !h.gap
  {
    hide FeedFeeds, FeedStrobes, StartInputs, Packets, OnWire, Received, Headers, WireOk, GroupsFit, Pow256,
         Plain, Delivered, Framed, SendsAll;
    Pow256Eight();
    SessionOk(w);
    var ys := PacketsAreDatagrams(ms, sizes, 0, sequence, w);
    var ds := Datagrams(ys, sequence, w.session);
    DatagramsFit(ms, ys, sizes, sequence, w, most);
    forall k | 0 <= k < |ds| ensures ds[k] != [] && FitsDatagram(ds[k], w.ip.words) {
      assert Datagrams(ys, sequence, w.session)[k] != [];
    }
    var xs := PacketsReceived(ds, w);
    assert OnWire(xs) == Packets(ms, sizes, 0, sequence, w);
    TrafficHeaders(xs, tr);
    var all := seq(|ds|, _ => true);
    AllDelivered(ds, all);
    var hs := Headers(None, ds);
    HeadersBound(None, ds);
    forall h | h in FeedStrobes(ResetFeed(), tr)
      ensures !h.gap
    {
      assert h in hs;
      var j :| 0 <= j < |hs| && hs[j] == h;
      NothingWithheld(ys, sequence, w.session, all, j);
    }
  }

  lemma {:induction false} AllDelivered(ds: seq<seq<Byte>>, mask: seq<bool>)
    requires |mask| == |ds| && forall k | 0 <= k < |mask| :: mask[k]
    ensures Delivered(ds, mask) == ds
  {
    if ds != [] { AllDelivered(ds[1..], mask[1..]); }
  }

  lemma {:induction false} HeadersBound(e: Option<nat>, ds: seq<seq<Byte>>)
    ensures |Headers(e, ds)| <= |ds|
    decreases |ds|
  {
    hide Be, U16, Next;
    if ds != [] {
      HeadersBound(e, ds[1..]);
      if |ds[0]| >= 20 { HeadersBound(Some(MoldParsers.Next(ds[0])), ds[1..]); }
    }
  }

  // Its packets fit their frames, and none has a marker's count.
  lemma DatagramsFit(ms: seq<seq<Byte>>, ys: seq<Sending>, sizes: nat -> nat, n: nat, w: Wire, most: nat)
    requires WireOk(w) && GroupsFit(ms, most, w.ip.words) && Joined(ys) == ms
    requires forall j | 0 <= j < |ys| :: ys[j].Packet? && |ys[j].ms| <= sizes(0 + j)
    requires forall j :: sizes(j) <= most
    ensures Countable(ys)
    ensures var ds := Datagrams(ys, n, w.session);
            forall k | 0 <= k < |ds| :: ds[k] != [] && FitsDatagram(ds[k], w.ip.words)
  {
    hide WireOk, Blocks, Datagrams, Enc, GroupsFit, FitsWire;
    SessionOk(w);
    forall k | 0 <= k < |ys|
      ensures |ys[k].ms| < 65535
      ensures var d := Datagrams(ys, n, w.session)[k]; d != [] && FitsDatagram(d, w.ip.words)
    {
      var a := JoinedAt(ys, k);
      GroupFits(ms, most, w.ip.words, a, a + |ys[k].ms|);
      BlocksLength(ys[k].ms);
      DatagramsAt(ys, n, w.session, k);
    }
  }

  lemma GroupFits(ms: seq<seq<Byte>>, most: nat, words: nat, a: nat, b: nat)
    requires GroupsFit(ms, most, words) && a <= b <= |ms| && b - a <= most
    ensures 4 * words + 28 + |Blocks(ms[a..b])| < 65536
  {
    hide Blocks;
  }

  lemma {:induction false} JoinedAt(ys: seq<Sending>, k: nat) returns (a: nat)
    requires k < |ys| && ys[k].Packet?
    ensures a + |ys[k].ms| <= |Joined(ys)| && Joined(ys)[a..a + |ys[k].ms|] == ys[k].ms
  {
    var first := if ys[0].Packet? then ys[0].ms else [];
    if k == 0 {
      a := 0;
    } else {
      a := JoinedAt(ys[1..], k - 1);
      assert Joined(ys) == first + Joined(ys[1..]);
      a := |first| + a;
    }
  }
}
