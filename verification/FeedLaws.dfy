// The front end on wire frames, end to end; and that it never gets stuck.
module FeedLaws {
  import opened Options
  import opened Bytes
  import opened Axis
  import opened Checksums
  import opened Gearboxes
  import opened GearTheorems
  import opened Layers
  import opened FrameRef
  import opened FrameBuild
  import opened EthParsers
  import opened Ipv4Parsers
  import opened UdpParsers
  import opened MoldParsers
  import opened FeedTops

  // ---- built frames are frames on which hardware and reference agree, rejected variants included ----

  lemma PacketAgreed(payload: seq<Byte>, ip: Ip, pad: seq<Byte>)
    requires IpOk(ip) && 0 < |payload| && 4 * ip.words + |payload| < 65536 && |payload| >= 8
    ensures var p := Ipv4(payload, ip) + pad;
            && Ipv4Scope(p) && !Ipv4Parts(p) && (Ipv4Out(p) == payload || Ipv4Out(p) == [])
  {
    hide Ipv4, IpHeader, IpChecksum, U16, Ipv4Out, UnwrapIpv4;
    var p := Ipv4(payload, ip) + pad;
    IpFields(payload, ip, pad);
    assert Ihl(p) == 4 * ip.words;
    Ipv4AgreesIff(p);
    UnwrapIpv4Of(payload, ip, pad);
  }

  // The one frame that parts them: an untagged frame whose ethertype claims a tag and whose total length,
  // read as the ethertype behind it, says IPv4.
  predicate Misread(d: seq<Byte>, w: Wire) {
    w.mac.vlan.None? && w.mac.ethertype == ETHERTYPE_VLAN && 4 * w.ip.words + 8 + |d| == ETHERTYPE_IPV4
  }

  // On every framed datagram, markers and rejected variants included, hardware and reference agree unless
  // it is misread.
  lemma FramedAgreedIff(d: seq<Byte>, w: Wire)
    requires WireOk(w) && FitsDatagram(d, w.ip.words)
    ensures Framed(d, w) != [] && (Agreed(Framed(d, w)) <==> !Misread(d, w))
  {
    hide Eth, Ipv4, Udp, EthOut, Ipv4Out, UnwrapEth, UnwrapIpv4, Ipv4Parts, U16, Padding;
    var u := Udp(d, w.sport, w.dport);
    var p := Ipv4(u, w.ip);
    UdpFields(d, w.sport, w.dport);
    UnwrapEthOf(p, w.mac);
    EthAgreesIff(Framed(d, w));
    MisreadHeader(u, w.ip, Padding(|p|));
    PacketAgreed(u, w.ip, Padding(|p|));
    NothingComes();
  }

  lemma WireFrameAgreed(ms: seq<seq<Byte>>, sequence: nat, w: Wire)
    requires WireOk(w) && FitsWire(ms, w.ip.words) && Plain(w)
    ensures Agreed(WireFrame(ms, sequence, w)) && WireFrame(ms, sequence, w) != []
  {
    hide Framed, Agreed, MoldHeader, Blocks;
    FramedAgreedIff(MoldPacket(ms, sequence, w.session), w);
  }

  // Nothing comes of a misread frame either way: whatever the IPv4 layer decides on it, from whatever
  // registers, the UDP layer finds no feed port, and the reference no IPv4.
  lemma MisreadIsHarmless(d: seq<Byte>, w: Wire, x: IpRegs)
    requires WireOk(w) && FitsDatagram(d, w.ip.words) && Misread(d, w)
    ensures var p := EthOut(Framed(d, w));
            ShortHeader(p) && UdpOut(Slice(JobOf(ShortDecide(x, p), p))) == []
    ensures UnwrapFrame(Framed(d, w)) == []
  {
    hide Eth, Ipv4, Udp, EthOut, UnwrapEth, UnwrapIpv4, U16, Padding, IpHeader, StepSum, MoldPayload, UnwrapFrame;
    var u := Udp(d, w.sport, w.dport);
    var p := Ipv4(u, w.ip);
    UdpFields(d, w.sport, w.dport);
    UnwrapEthOf(p, w.mac);
    EthAgreesIff(Framed(d, w));
    MisreadHeader(u, w.ip, Padding(|p|));
    UnwrapOfFramed(d, w);
    NoFeedPort(x, (p + Padding(|p|))[4..]);
  }

  lemma NoFeedPort(x: IpRegs, p: seq<Byte>)
    requires |p| > 8 && p[0] == p[1] == p[2] == p[3] == 0
    ensures ShortHeader(p) && UdpOut(Slice(JobOf(ShortDecide(x, p), p))) == []
  {
    hide CsumOk, WordSum;
  }

  lemma NothingComes()
    ensures Ipv4Scope([]) && !Ipv4Parts([]) && Ipv4Out([]) == []
  {
  }

  // ---- end to end ----

  predicate AllAgreed(fs: seq<seq<Byte>>) {
    forall k | 0 <= k < |fs| :: fs[k] != [] && Agreed(fs[k])
  }

  lemma {:induction false} FlowOfFrontEnds(fs: seq<seq<Byte>>)
    requires AllAgreed(fs)
    ensures Flow(PackAll(FrontEnds(fs))) == UnwrapAll(fs)
  {
    hide FrontEnd, UnwrapFrame, Agreed;
    FlowOfPackAll(FrontEnds(fs));
    if fs != [] {
      AgreedUnwraps(fs[0]);
      FlowOfFrontEnds(fs[1..]);
      FlowOfPackAll(FrontEnds(fs[1..]));
      assert FrontEnds(fs)[1..] == FrontEnds(fs[1..]);
    }
  }

  // For every list of frames on which the layers agree with the reference, in every run from reset: the
  // bytes taken, followed by those still to leave, are the reference's unwrapped frames, joined.
  lemma FeedUnwraps(fs: seq<seq<Byte>>, tr: seq<LayerIn>)
    requires AllAgreed(fs) && FeedFeeds(ResetFeed(), tr, StartInputs(fs))
    ensures var t, s := FeedEnd(ResetFeed(), tr), FeedEndInputs(ResetFeed(), tr, StartInputs(fs));
            && FeedOk(t, s)
            && Flow(FeedTaken(ResetFeed(), tr)) + Flow(FeedFuture(t, s)) == UnwrapAll(fs)
  {
    hide FeedOk, FeedStep, FeedFeeds, FeedEnd, FeedEndInputs, FeedTaken, FeedFuture, FrontEnds, StartInputs,
         PackAll, Outs;
    AgreedClean(fs);
    FrontEndContract(fs, tr);
    FlowOfFrontEnds(fs);
    var t, s := FeedEnd(ResetFeed(), tr), FeedEndInputs(ResetFeed(), tr, StartInputs(fs));
    FlowConcat(FeedTaken(ResetFeed(), tr), FeedFuture(t, s));
  }

  lemma AgreedClean(fs: seq<seq<Byte>>)
    requires AllAgreed(fs)
    ensures Clean(fs)
  {
  }

  lemma {:induction false} PacketsAgreed(ms: seq<seq<Byte>>, sizes: nat -> nat, k: nat, sequence: nat, w: Wire,
                                         most: nat)
    requires WireOk(w) && GroupsFit(ms, most, w.ip.words) && Plain(w) && forall j :: 1 <= sizes(j) <= most
    ensures AllAgreed(Packets(ms, sizes, k, sequence, w))
    decreases |ms|
  {
    hide WireFrame, Agreed, FitsWire, WireOk, GroupsFit;
    if ms != [] {
      var n := if sizes(k) <= |ms| then sizes(k) else |ms|;
      GroupsFitTail(ms, most, w.ip.words, n);
      WireFrameAgreed(ms[..n], sequence, w);
      PacketsAgreed(ms[n..], sizes, k + 1, sequence + n, w, most);
    }
  }

  // A message list, grouped at random into wire frames and sent through the hardware, in any run from
  // reset: the bytes taken are a prefix of the framed message stream, and all of it once nothing is left.
  lemma MessagesComeThrough(ms: seq<seq<Byte>>, sizes: nat -> nat, sequence: nat, w: Wire, most: nat, tr: seq<LayerIn>)
    requires WireOk(w) && GroupsFit(ms, most, w.ip.words) && sequence + |ms| < Pow256(8)
    requires forall j :: 1 <= sizes(j) <= most
    requires Plain(w)
    requires FeedFeeds(ResetFeed(), tr, StartInputs(Packets(ms, sizes, 0, sequence, w)))
    ensures var fs := Packets(ms, sizes, 0, sequence, w);
            var t, s := FeedEnd(ResetFeed(), tr), FeedEndInputs(ResetFeed(), tr, StartInputs(fs));
            && FeedOk(t, s)
            && Flow(FeedTaken(ResetFeed(), tr)) <= Blocks(ms)
            && (FeedFuture(t, s) == [] ==> Flow(FeedTaken(ResetFeed(), tr)) == Blocks(ms))
  {
    hide FeedOk, FeedStep, FeedFeeds, FeedEnd, FeedEndInputs, FeedTaken, FeedFuture, StartInputs, Packets,
         WireOk, GroupsFit, Pow256;
    var fs := Packets(ms, sizes, 0, sequence, w);
    PacketsAgreed(ms, sizes, 0, sequence, w, most);
    PacketsUnwrap(ms, sizes, 0, sequence, w, most);
    FeedUnwraps(fs, tr);
  }

  // ---- mixed traffic ----

  // A datagram and the layers it is sent under.
  datatype Sent = Sent(d: seq<Byte>, w: Wire)

  ghost predicate SentOk(x: Sent) {
    WireOk(x.w) && FitsDatagram(x.d, x.w.ip.words) && !Misread(x.d, x.w)
  }

  ghost predicate AllSentOk(xs: seq<Sent>) {
    forall k | 0 <= k < |xs| :: SentOk(xs[k])
  }

  ghost function OnWire(xs: seq<Sent>): seq<seq<Byte>>
    requires AllSentOk(xs)
  {
    if xs == [] then [] else [Framed(xs[0].d, xs[0].w)] + OnWire(xs[1..])
  }

  // The payloads of the datagrams that no layer rejects.
  ghost function Carried(xs: seq<Sent>): seq<Byte>
    requires AllSentOk(xs)
  {
    if xs == [] then []
    else (if Accepted(xs[0].w, 8 + |xs[0].d|) then MoldPayload(xs[0].d) else []) + Carried(xs[1..])
  }

  lemma {:induction false} TrafficUnwraps(xs: seq<Sent>)
    requires AllSentOk(xs)
    ensures AllAgreed(OnWire(xs)) && UnwrapAll(OnWire(xs)) == Carried(xs)
  {
    hide Framed, Agreed, UnwrapFrame, Accepted, MoldPayload, WireOk, Misread;
    if xs != [] {
      assert SentOk(xs[0]);
      FramedAgreedIff(xs[0].d, xs[0].w);
      UnwrapOfFramed(xs[0].d, xs[0].w);
      TrafficUnwraps(xs[1..]);
      assert OnWire(xs)[0] == Framed(xs[0].d, xs[0].w) && OnWire(xs)[1..] == OnWire(xs[1..]);
    }
  }

  // Rejected variants and markers between datagrams of messages leave no trace: in every run from reset the
  // bytes taken, followed by those still to leave, are the payloads of the accepted datagrams, joined.
  lemma MixedTraffic(xs: seq<Sent>, tr: seq<LayerIn>)
    requires AllSentOk(xs) && FeedFeeds(ResetFeed(), tr, StartInputs(OnWire(xs)))
    ensures var fs := OnWire(xs);
            var t, s := FeedEnd(ResetFeed(), tr), FeedEndInputs(ResetFeed(), tr, StartInputs(fs));
            FeedOk(t, s) && Flow(FeedTaken(ResetFeed(), tr)) + Flow(FeedFuture(t, s)) == Carried(xs)
  {
    hide FeedOk, FeedStep, FeedFeeds, FeedEnd, FeedEndInputs, FeedTaken, FeedFuture, StartInputs, AllAgreed,
         OnWire, Carried;
    TrafficUnwraps(xs);
    FeedUnwraps(OnWire(xs), tr);
  }

  // ---- progress ----

  // Work inside a layer: held beats to replay, and a residue to flush.
  function GearWork(g: Gear): nat {
    if g.cnt > 0 then 1 else 0
  }

  function HeldWork<X>(l: Layer<X>): nat {
    if !l.emit then |l.held| else if Draining(l) then |l.held| - l.idx else 0
  }

  function Work<X>(l: Layer<X>): nat {
    2 * HeldWork(l) + GearWork(l.gear)
  }

  lemma GearProgress(g: Gear, i: In)
    requires GearOk(g)
    ensures var g' := Step(g, i);
            && (!Accepts(g, i) ==> GearWork(g') <= GearWork(g))
            && (Residue(g) && OutFree(g, i.mReady) ==> GearWork(g') < GearWork(g))
  {
    hide Gather;
  }

  // Something moves inside the layer.
  predicate Moves<X>(l: Layer<X>, mReady: bool) {
    || (l.emit && Draining(l) && SReady(l.gear, mReady))
    || (Residue(l.gear) && OutFree(l.gear, mReady))
  }

  lemma LayerProgress<X>(sniff: Sniffer<X>, l: Layer<X>, i: LayerIn)
    requires GearOk(l.gear)
    ensures var l' := LayerStep(sniff, l, i);
            && Work(l') <= Work(l) + (if LayerAccepts(l, i) then 2 else 0)
            && (Moves(l, i.mReady) && !LayerAccepts(l, i) ==> Work(l') < Work(l))
  {
    hide Step, GearOk;
    GearProgress(l.gear, GearIn(l, i));
  }

  // An idle layer has nothing more to send once it has nothing more to receive.
  lemma LayerRunsDry<X>(decide: seq<Byte> -> Ctl, scope: seq<Byte> -> bool, good: (X, nat, seq<Byte>) -> bool,
                        l: Layer<X>, s: Input)
    requires LayerOk(decide, scope, good, l, s) && RestBeats(s) == []
    requires !l.gear.mValid && !Residue(l.gear) && !(l.emit && Draining(l))
    ensures LayerFuture(decide, l, s) == []
  {
    hide HeldOk, KeptFrom, InScope, Aligned, Future;
    RestEmpty(s);
    FutureOfIdle(l.gear, GearRem(decide, l, s));
  }

  lemma RestEmpty(s: Input)
    requires InputOk(s) && RestBeats(s) == []
    ensures s.n == |s.f| && s.later == []
  {
    if s.n < |s.f| { PackUnfold(s.f[s.n..]); }
    if s.later != [] { PackUnfold(s.later[0]); }
  }

  lemma UdpRunsDry(g: Gear, s: Input)
    requires UdpOk(g, s) && RestBeats(s) == [] && !g.mValid && !Residue(g)
    ensures UdpFuture(g, s) == []
  {
    hide KeptFrom, Aligned, Future;
    RestEmpty(s);
    FutureOfIdle(g, UdpRem(s));
  }

  // Beats to cross each hop, and work inside each layer.
  function FeedWork(t: Feed, s: Inputs): nat
    requires FeedOk(t, s)
  {
    3 * (|RestBeats(s.e)| + |RestBeats(s.i)| + |RestBeats(s.u)| + |RestBeats(s.m)| + |FeedFuture(t, s)|)
    + Work(t.eth) + Work(t.ip) + GearWork(t.udp) + Work(t.mold.layer)
  }

  function Count(b: bool): nat {
    if b then 1 else 0
  }

  // A beat accepted is one fewer to come.
  lemma AcceptOne(s: Input, b: Beat)
    requires InputOk(s) && Brings(s, b)
    ensures After(s).n <= |After(s).f| && |RestBeats(After(s))| == |RestBeats(s)| - 1
  {
    hide KeptFrom, Aligned;
    if s.n < |s.f| {
      PackUnfold(s.f[s.n..]);
      PackEmpty();
      hide Pack;
      assert s.f[Move(s.f, s.n)..] == if |s.f| - s.n <= 8 then [] else s.f[s.n..][8..];
    } else {
      var f := s.later[0];
      PackUnfold(f);
      PackEmpty();
      hide Pack;
      assert f[Move(f, 0)..] == if |f| <= 8 then [] else f[8..];
      assert s.f[s.n..] == [];
      assert |PackAll(s.later)| == |Pack(f)| + |PackAll(s.later[1..])|;
    }
  }

  // Who moves a beat in this cycle: across the four hops, and out at the end.
  datatype Moved = Moved(e: bool, i: bool, u: bool, m: bool, o: bool)

  function MovedIn(t: Feed, i: LayerIn): Moved {
    Moved(LayerAccepts(t.eth, EthIn(t, i)), LayerAccepts(t.ip, IpIn(t, i)),
          t.ip.gear.mValid && UdpReady(t, i.mReady), LayerAccepts(t.mold.layer, MoldIn(t, i)),
          t.mold.layer.gear.mValid && i.mReady)
  }

  lemma HopsCount(t: Feed, i: LayerIn, s: Inputs)
    requires FeedOk(t, s) && (i.valid ==> Brings(s.e, i.beat))
    ensures Sized(t) && FeedOk(FeedStep(t, i), FeedAfter(t, i, s))
    ensures var s', v := FeedAfter(t, i, s), MovedIn(t, i);
            && |RestBeats(s'.e)| == |RestBeats(s.e)| - Count(v.e)
            && |RestBeats(s'.i)| == |RestBeats(s.i)| - Count(v.i)
            && |RestBeats(s'.u)| == |RestBeats(s.u)| - Count(v.u)
            && |RestBeats(s'.m)| == |RestBeats(s.m)| - Count(v.m)
            && |FeedFuture(FeedStep(t, i), s')| == |FeedFuture(t, s)| - Count(v.o)
  {
    hide LayerStep, UdpStep, LayerReady, SReady, RestBeats, LayerFuture, UdpFuture, Brings, After, Sound,
         LayerOk, UdpOk, KeptFrom;
    FeedConserves(t, i, s);
    Parts(t, s);
    FeedOffers(t, s);
    if i.valid { AcceptOne(s.e, i.beat); }
    if t.eth.gear.mValid { AcceptOne(s.i, t.eth.gear.mBeat); }
    if t.ip.gear.mValid { AcceptOne(s.u, t.ip.gear.mBeat); }
    if t.udp.mValid { AcceptOne(s.m, t.udp.mBeat); }
  }

  // What each register offers is what the next layer expects.
  lemma FeedOffers(t: Feed, s: Inputs)
    requires FeedOk(t, s)
    ensures t.eth.gear.mValid ==> Brings(s.i, t.eth.gear.mBeat)
    ensures t.ip.gear.mValid ==> Brings(s.u, t.ip.gear.mBeat)
    ensures t.udp.mValid ==> Brings(s.m, t.udp.mBeat)
  {
    hide RestBeats, Future, Brings, GearRem, HeldOk, InScope, KeptFrom, GearOk;
    Offer(t.eth.gear, GearRem(EthDecide, t.eth, s.e), s.i);
    Offer(t.ip.gear, GearRem(Ipv4Decide, t.ip, s.i), s.u);
    Offer(t.udp, UdpRem(s.u), s.m);
  }

  lemma Offer(g: Gear, r: Rem, next: Input)
    requires GearOk(g) && InputOk(next) && RestBeats(next) == Future(g, r)
    ensures g.mValid ==> Brings(next, g.mBeat)
  {
    hide RestBeats, Future, Brings, KeptFrom, Aligned;
    if g.mValid {
      FutureHead(g, r);
      assert Future(g, r) == [See(g.mBeat)] + Future(g, r)[1..];
      OfferAligned(g);
      Link(next, g.mBeat, Future(g, r)[1..]);
    }
  }

  // If nothing moves although sink and source are willing, there is nothing left to move.
  lemma StillMeansDone(t: Feed, i: LayerIn, s: Inputs)
    requires FeedOk(t, s) && i.mReady && (RestBeats(s.e) != [] ==> i.valid)
    requires MovedIn(t, i) == Moved(false, false, false, false, false)
    requires !Moves(t.eth, IpReady(t, true)) && !Moves(t.ip, UdpReady(t, true)) && !Moves(t.mold.layer, true)
    requires !(Residue(t.udp) && OutFree(t.udp, MoldReady(t, true)))
    ensures RestBeats(s.e) == [] && FeedFuture(t, s) == []
  {
    hide RestBeats, Future, GearRem, UdpRem, HeldOk, InScope, KeptFrom, Aligned, InputOk;
    LayerRunsDry(EthDecide, AnyFrame, EthGood, t.eth, s.e);
    LayerRunsDry(Ipv4Decide, Ipv4Scope, Ipv4Good, t.ip, s.i);
    UdpRunsDry(t.udp, s.u);
    LayerRunsDry(MoldDecide, AnyFrame, MoldGood, t.mold.layer, s.m);
  }

  // With the sink ready and the source offering what it has, every cycle leaves less to do, until nothing
  // is left: no layer waits for another forever.
  lemma FeedProgress(t: Feed, i: LayerIn, s: Inputs)
    requires FeedOk(t, s) && (i.valid ==> Brings(s.e, i.beat)) && i.mReady && (RestBeats(s.e) != [] ==> i.valid)
    ensures Sized(t) && FeedOk(FeedStep(t, i), FeedAfter(t, i, s))
    ensures || FeedWork(FeedStep(t, i), FeedAfter(t, i, s)) < FeedWork(t, s)
            || (RestBeats(s.e) == [] && FeedFuture(t, s) == [])
  {
    hide LayerStep, Step, LayerReady, SReady, RestBeats, FeedFuture, Brings, After, Work, GearWork, Moves,
         FeedOk, MoldStep;
    HopsCount(t, i, s);
    GearsOk(t, s);
    LayerProgress(EthSniff, t.eth, EthIn(t, i));
    LayerProgress(Ipv4Sniff, t.ip, IpIn(t, i));
    GearProgress(t.udp, UdpIn(UdpLayerIn(t, i)));
    UdpWork(t.udp, UdpLayerIn(t, i));
    LayerProgress(MoldSniff, t.mold.layer, MoldIn(t, i));
    MoldLayer(t.mold, MoldIn(t, i));
    if MovedIn(t, i) == Moved(false, false, false, false, false)
       && !Moves(t.eth, IpReady(t, true)) && !Moves(t.ip, UdpReady(t, true)) && !Moves(t.mold.layer, true)
       && !(Residue(t.udp) && OutFree(t.udp, MoldReady(t, true)))
    {
      StillMeansDone(t, i, s);
    }
  }

  lemma GearsOk(t: Feed, s: Inputs)
    requires FeedOk(t, s)
    ensures GearOk(t.eth.gear) && GearOk(t.ip.gear) && GearOk(t.udp) && GearOk(t.mold.layer.gear)
  {
    hide GearOk, InputOk, InScope, HeldOk, RestBeats;
  }

  lemma UdpWork(g: Gear, i: LayerIn)
    requires GearOk(g)
    ensures GearWork(UdpStep(g, i)) <= GearWork(g) + 1
  {
  }

  lemma MoldLayer(m: MoldModule, i: LayerIn)
    requires |m.layer.gear.buf| == 16
    ensures MoldStep(m, i).layer == LayerStep(MoldSniff, m.layer, i)
  {
  }

  // A source that always offers what it has and a sink that is always ready, for as many cycles as there
  // is work, empty the chain.
  ghost predicate Eager(t: Feed, tr: seq<LayerIn>, s: Inputs)
    requires Sized(t)
    decreases |tr|
  {
    tr == [] ||
    (tr[0].mReady && (s.e.n <= |s.e.f| && RestBeats(s.e) != [] ==> tr[0].valid) &&
     Eager(FeedStep(t, tr[0]), tr[1..], FeedAfter(t, tr[0], s)))
  }

  lemma {:induction false} FeedDrains(t: Feed, tr: seq<LayerIn>, s: Inputs)
    requires FeedOk(t, s) && Sized(t) && FeedFeeds(t, tr, s) && Eager(t, tr, s) && |tr| >= FeedWork(t, s)
    ensures FeedOk(FeedEnd(t, tr), FeedEndInputs(t, tr, s))
    ensures FeedFuture(FeedEnd(t, tr), FeedEndInputs(t, tr, s)) == []
    decreases |tr|
  {
    hide FeedStep, FeedOk, FeedAfter, Sized, FeedFuture, Brings, FeedWork, RestBeats;
    RunConserves(t, tr, s);
    SourceOk(t, s);
    if tr == [] {
      NoWork(t, s);
    } else {
      FeedProgress(t, tr[0], s);
      var t', s' := FeedStep(t, tr[0]), FeedAfter(t, tr[0], s);
      if FeedWork(t', s') < FeedWork(t, s) {
        FeedDrains(t', tr[1..], s');
      }
    }
  }

  lemma SourceOk(t: Feed, s: Inputs)
    requires FeedOk(t, s)
    ensures s.e.n <= |s.e.f|
  {
    Parts(t, s);
  }

  lemma NoWork(t: Feed, s: Inputs)
    requires FeedOk(t, s) && FeedWork(t, s) == 0
    ensures FeedFuture(t, s) == []
  {
    hide FeedOk, RestBeats, FeedFuture, Work, GearWork;
  }

  // ---- how long that takes: at most fifteen cycles a beat ----

  lemma {:induction false} PackLength(p: seq<Byte>)
    ensures |Pack(p)| == (|p| + 7) / 8
  {
    if |p| > 8 { PackLength(p[8..]); }
  }

  lemma SliceIsShorter(j: Job)
    ensures |Pack(Slice(j))| <= |Pack(j.frame)|
  {
    PackLength(Slice(j));
    PackLength(j.frame);
    hide Pack;
  }

  lemma {:induction false} OutsAreShorter(decide: seq<Byte> -> Ctl, ps: seq<seq<Byte>>)
    ensures |PackAll(Outs(decide, ps))| <= |PackAll(ps)|
  {
    hide Slice, Pack, Outs;
    if ps == [] {
      NoOuts(decide);
    } else {
      OutsAreShorter(decide, ps[1..]);
      OutsNext(decide, ps);
      SliceIsShorter(JobOf(decide(ps[0]), ps[0]));
      assert Outs(decide, ps)[1..] == Outs(decide, ps[1..]);
    }
  }

  lemma NoOuts(decide: seq<Byte> -> Ctl)
    ensures Outs(decide, []) == []
  {
  }

  lemma StartWork(fs: seq<seq<Byte>>)
    requires Clean(fs)
    ensures FeedOk(ResetFeed(), StartInputs(fs))
    ensures FeedWork(ResetFeed(), StartInputs(fs)) <= 15 * |PackAll(fs)|
  {
    hide EthDecide, Ipv4Decide, UdpDecide, MoldDecide, PackAll, Outs, Clean, FeedOk, FeedFuture, RestBeats, NonEmpty;
    StartOk(fs);
    var s := StartInputs(fs);
    RestIsAll(fs);
    RestIsAll(s.i.later);
    RestIsAll(s.u.later);
    RestIsAll(s.m.later);
    OutsAreShorter(EthDecide, fs);
    PackNonEmpty(Outs(EthDecide, fs));
    OutsAreShorter(Ipv4Decide, s.i.later);
    PackNonEmpty(Outs(Ipv4Decide, s.i.later));
    OutsAreShorter(UdpDecide, s.u.later);
    PackNonEmpty(Outs(UdpDecide, s.u.later));
    OutsAreShorter(MoldDecide, s.m.later);
  }

  // Any number of messages, however grouped into frames: the front end hands on exactly their framed
  // stream, within fifteen cycles for each beat of the frames.
  lemma MessagesArrive(ms: seq<seq<Byte>>, sizes: nat -> nat, sequence: nat, w: Wire, most: nat, tr: seq<LayerIn>)
    requires WireOk(w) && GroupsFit(ms, most, w.ip.words) && sequence + |ms| < Pow256(8)
    requires forall j :: 1 <= sizes(j) <= most
    requires Plain(w)
    requires FeedFeeds(ResetFeed(), tr, StartInputs(Packets(ms, sizes, 0, sequence, w)))
    requires Eager(ResetFeed(), tr, StartInputs(Packets(ms, sizes, 0, sequence, w)))
    requires |tr| >= 15 * |PackAll(Packets(ms, sizes, 0, sequence, w))|
    ensures Flow(FeedTaken(ResetFeed(), tr)) == Blocks(ms)
  {
    hide FeedOk, FeedStep, FeedFeeds, FeedEnd, FeedEndInputs, FeedTaken, FeedFuture, FeedWork, Eager,
         StartInputs, Packets,
         WireOk, GroupsFit, Pow256, PackAll, Clean, AllAgreed;
    var fs := Packets(ms, sizes, 0, sequence, w);
    PacketsAgreed(ms, sizes, 0, sequence, w, most);
    AgreedClean(fs);
    StartWork(fs);
    MessagesComeThrough(ms, sizes, sequence, w, most, tr);
    FeedDrains(ResetFeed(), tr, StartInputs(fs));
  }
}
