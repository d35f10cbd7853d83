// The front end (fpga/rtl/feed_top.v): Ethernet, IPv4, UDP and MoldUDP64 layers in a chain, ready
// flowing upstream.
module FeedTops {
  import opened Options
  import opened Bytes
  import opened Axis
  import opened Gearboxes
  import opened GearTheorems
  import opened Layers
  import opened HoldReplays
  import opened FrameRef
  import opened FrameBuild
  import opened EthParsers
  import opened Ipv4Parsers
  import opened UdpParsers
  import opened MoldParsers

  datatype Feed = Feed(eth: Layer<()>, ip: Layer<IpRegs>, udp: Gear, mold: MoldModule)

  ghost predicate Sized(t: Feed) {
    |t.eth.gear.buf| == |t.ip.gear.buf| == |t.udp.buf| == |t.mold.layer.gear.buf| == 16
  }

  // ---- ready, from the sink up ----

  predicate MoldReady(t: Feed, mReady: bool) {
    LayerReady(t.mold.layer, mReady)
  }

  predicate UdpReady(t: Feed, mReady: bool) {
    SReady(t.udp, MoldReady(t, mReady))
  }

  predicate IpReady(t: Feed, mReady: bool) {
    LayerReady(t.ip, UdpReady(t, mReady))
  }

  // ---- what each layer is given: the register outputs of the one before ----

  function EthIn(t: Feed, i: LayerIn): LayerIn {
    i.(mReady := IpReady(t, i.mReady))
  }

  function IpIn(t: Feed, i: LayerIn): LayerIn {
    LayerIn(t.eth.gear.mValid, t.eth.gear.mBeat, UdpReady(t, i.mReady))
  }

  function UdpLayerIn(t: Feed, i: LayerIn): LayerIn {
    LayerIn(t.ip.gear.mValid, t.ip.gear.mBeat, MoldReady(t, i.mReady))
  }

  function MoldIn(t: Feed, i: LayerIn): LayerIn {
    LayerIn(t.udp.mValid, t.udp.mBeat, i.mReady)
  }

  function FeedStep(t: Feed, i: LayerIn): (r: Feed)
    requires Sized(t)
    ensures Sized(r)
  {
    Feed(LayerStep(EthSniff, t.eth, EthIn(t, i)), LayerStep(Ipv4Sniff, t.ip, IpIn(t, i)),
         UdpStep(t.udp, UdpLayerIn(t, i)), MoldStep(t.mold, MoldIn(t, i)))
  }

  function ResetFeed(): Feed {
    Feed(ResetLayer(()), ResetLayer(RESET_REGS), ResetGear(), ResetMold())
  }

  // The wiring, clocked: every module sees its neighbours' registers as they were before the edge.
  class FeedTop {
    const eth: EthParser
    const ip: Ipv4Parser
    const udp: AxisSkipAlign
    const mold: MoldParser

    ghost predicate Apart() {
      && eth.core.gear != ip.core.gear && eth.core.gear != udp && eth.core.gear != mold.core.gear
      && ip.core.gear != udp && ip.core.gear != mold.core.gear && udp != mold.core.gear
      && eth.core.hb != ip.core.hb && eth.core.hb != mold.core.hb && ip.core.hb != mold.core.hb
    }

    ghost predicate Valid()
      reads this, eth, eth.core, eth.core.hb, eth.core.gear, ip, ip.core, ip.core.hb, ip.core.gear,
            udp, mold, mold.core, mold.core.hb, mold.core.gear
    {
      Apart() && eth.Valid() && ip.Valid() && |udp.buf| == 16 && mold.Valid()
    }

    function State(): (t: Feed)
      requires Valid()
      reads this, eth, eth.core, eth.core.hb, eth.core.gear, ip, ip.core, ip.core.hb, ip.core.gear,
            udp, mold, mold.core, mold.core.hb, mold.core.gear
      ensures Sized(t)
    {
      Feed(eth.core.State(), ip.core.State(), udp.Regs(), mold.Module())
    }

    constructor ()
      ensures Valid() && State() == ResetFeed()
      ensures fresh(eth.core) && fresh(eth.core.hb) && fresh(eth.core.gear)
      ensures fresh(ip.core) && fresh(ip.core.hb) && fresh(ip.core.gear) && fresh(udp)
      ensures fresh(mold) && fresh(mold.core) && fresh(mold.core.hb) && fresh(mold.core.gear)
    {
      hide EthParser.Valid, Ipv4Parser.Valid, MoldParser.Valid, HoldReplay.Valid, HoldReplay.State, MoldParser.Module;
      eth := new EthParser();
      ip := new Ipv4Parser();
      udp := new AxisSkipAlign();
      mold := new MoldParser();
    }

    method Clock(i: LayerIn)
      requires Valid()
      modifies eth.core, eth.core.hb, eth.core.gear, ip.core, ip.core.hb, ip.core.gear, udp,
               mold, mold.core, mold.core.hb, mold.core.gear
      ensures Valid() && State() == FeedStep(old(State()), i)
    {
      hide *;
      Wires(i);
      ghost var t := State();
      var moldReady := mold.core.Ready(i.mReady);
      var udpReady := SReady(udp.Regs(), moldReady);
      var ipReady := ip.core.Ready(udpReady);
      var ethOut := LayerIn(eth.core.gear.mValid, eth.core.gear.mBeat, udpReady);
      var ipOut := LayerIn(ip.core.gear.mValid, ip.core.gear.mBeat, moldReady);
      var udpOut := LayerIn(udp.mValid, udp.mBeat, i.mReady);
      assert ethOut == IpIn(t, i) && ipOut == UdpLayerIn(t, i) && udpOut == MoldIn(t, i);
      assert i.(mReady := ipReady) == EthIn(t, i);
      Edge(i.(mReady := ipReady), ethOut, ipOut, udpOut);
      StepIs(t, i);
    }

    // Every register loads at the same edge.
    method Edge(e: LayerIn, p: LayerIn, u: LayerIn, m: LayerIn)
      requires Valid()
      modifies eth.core, eth.core.hb, eth.core.gear, ip.core, ip.core.hb, ip.core.gear, udp,
               mold, mold.core, mold.core.hb, mold.core.gear
      ensures Valid()
      ensures var t := old(State());
              State() == Feed(LayerStep(EthSniff, t.eth, e), LayerStep(Ipv4Sniff, t.ip, p), UdpStep(t.udp, u),
                              MoldStep(t.mold, m))
    {
      hide LayerStep, MoldStep, Step, UdpIn, HoldReplay.Valid, HoldReplay.State, EthParser.Valid, Ipv4Parser.Valid,
           MoldParser.Valid, MoldParser.Module, AxisSkipAlign.Regs;
      eth.Shape();
      ip.Shape();
      mold.Shape();
      eth.Clock(e);
      ip.Clock(p);
      udp.Clock(UdpIn(u));
      mold.Clock(m);
      eth.Shape();
      ip.Shape();
    }

    // The wires between the modules show the registers of the state, and ready is the state's.
    lemma Wires(i: LayerIn)
      requires Valid()
      ensures eth.core.Valid() && ip.core.Valid() && mold.core.Valid() && |udp.buf| == 16
      ensures var t := State();
              var u := SReady(udp.Regs(), mold.core.Ready(i.mReady));
              && LayerIn(eth.core.gear.mValid, eth.core.gear.mBeat, u) == IpIn(t, i)
              && LayerIn(ip.core.gear.mValid, ip.core.gear.mBeat, mold.core.Ready(i.mReady)) == UdpLayerIn(t, i)
              && LayerIn(udp.mValid, udp.mBeat, i.mReady) == MoldIn(t, i)
              && i.(mReady := ip.core.Ready(u)) == EthIn(t, i)
    {
      hide SReady;
    }
  }

  lemma StepIs(t: Feed, i: LayerIn)
    requires Sized(t)
    ensures FeedStep(t, i) == Feed(LayerStep(EthSniff, t.eth, EthIn(t, i)), LayerStep(Ipv4Sniff, t.ip, IpIn(t, i)),
                                   UdpStep(t.udp, UdpLayerIn(t, i)), MoldStep(t.mold, MoldIn(t, i)))
  {
  }

  // ---- the invariant: what each layer has still to receive is what the one before has still to send ----

  datatype Inputs = Inputs(e: Input, i: Input, u: Input, m: Input)

  ghost predicate EthOk(l: Layer<()>, s: Input) {
    LayerOk(EthDecide, AnyFrame, EthGood, l, s)
  }

  ghost predicate Ipv4Ok(l: Layer<IpRegs>, s: Input) {
    LayerOk(Ipv4Decide, Ipv4Scope, Ipv4Good, l, s)
  }

  ghost predicate MoldOk(l: Layer<MoldRegs>, s: Input) {
    LayerOk(MoldDecide, AnyFrame, MoldGood, l, s)
  }

  ghost predicate FeedOk(t: Feed, s: Inputs) {
    && EthOk(t.eth, s.e) && Ipv4Ok(t.ip, s.i) && UdpOk(t.udp, s.u) && MoldOk(t.mold.layer, s.m)
    && RestBeats(s.i) == LayerFuture(EthDecide, t.eth, s.e)
    && RestBeats(s.u) == LayerFuture(Ipv4Decide, t.ip, s.i)
    && RestBeats(s.m) == UdpFuture(t.udp, s.u)
  }

  function FeedAfter(t: Feed, i: LayerIn, s: Inputs): Inputs {
    Inputs(LayerAfter(t.eth, EthIn(t, i), s.e), LayerAfter(t.ip, IpIn(t, i), s.i),
           UdpAfter(t.udp, UdpLayerIn(t, i), s.u), LayerAfter(t.mold.layer, MoldIn(t, i), s.m))
  }

  // What is to leave starts with the beat on offer.
  lemma FutureHead(g: Gear, r: Rem)
    requires |g.buf| == 16 && g.cnt <= 16 && g.mValid
    ensures Future(g, r) != [] && Future(g, r)[0] == See(g.mBeat)
  {
    hide Pack, PackAll, Todo, KeptFrom;
  }

  // A hop: the receiver's next beat is the one on offer, and it moves exactly when both sides agree.
  lemma Hop(g: Gear, ready: bool, s: Input, fut: seq<Out>, fut': seq<Out>)
    requires GearOk(g) && InputOk(s) && RestBeats(s) == fut && fut == Takes(g, ready) + fut'
    requires g.mValid ==> fut != [] && fut[0] == See(g.mBeat)
    ensures g.mValid ==> Brings(s, g.mBeat)
    ensures var s' := if g.mValid && ready then After(s) else s;
            s'.n <= |s'.f| && RestBeats(s') == fut'
  {
    hide RestBeats, KeptFrom, Brings, Aligned;
    if g.mValid {
      assert fut == [See(g.mBeat)] + fut[1..];
      OfferAligned(g);
      Link(s, g.mBeat, fut[1..]);
    }
  }

  lemma OfferAligned(g: Gear)
    requires GearOk(g) && g.mValid
    ensures Aligned(g.mBeat)
  {
  }

  lemma LayerHop<X(!new)>(sniff: Sniffer<X>, decide: seq<Byte> -> Ctl, scope: seq<Byte> -> bool,
                          good: (X, nat, seq<Byte>) -> bool, l: Layer<X>, i: LayerIn, s: Input, next: Input)
    requires Sound(sniff, decide, scope, good) && LayerOk(decide, scope, good, l, s)
    requires i.valid ==> Brings(s, i.beat)
    requires InputOk(next) && RestBeats(next) == LayerFuture(decide, l, s)
    ensures l.gear.mValid ==> Brings(next, l.gear.mBeat)
    ensures var l', s', next' := LayerStep(sniff, l, i), LayerAfter(l, i, s),
              if l.gear.mValid && i.mReady then After(next) else next;
            && LayerOk(decide, scope, good, l', s')
            && next'.n <= |next'.f| && RestBeats(next') == LayerFuture(decide, l', s')
  {
    hide LayerStep, RestBeats, Future, Takes, Brings, After, Sound, GearRem, HeldOk, InScope, LayerReady,
         KeptFrom, InputOk;
    LayerConserves(sniff, decide, scope, good, l, i, s);
    if l.gear.mValid { FutureHead(l.gear, GearRem(decide, l, s)); }
    Hop(l.gear, i.mReady, next, LayerFuture(decide, l, s),
        LayerFuture(decide, LayerStep(sniff, l, i), LayerAfter(l, i, s)));
  }

  lemma UdpHop(g: Gear, i: LayerIn, s: Input, next: Input)
    requires UdpOk(g, s) && (i.valid ==> Brings(s, i.beat))
    requires InputOk(next) && RestBeats(next) == UdpFuture(g, s)
    ensures g.mValid ==> Brings(next, g.mBeat)
    ensures var g', s', next' := UdpStep(g, i), UdpAfter(g, i, s), if g.mValid && i.mReady then After(next) else next;
            && UdpOk(g', s')
            && next'.n <= |next'.f| && RestBeats(next') == UdpFuture(g', s')
  {
    hide UdpStep, RestBeats, Future, Takes, Brings, After, UdpRem, UdpAfter, KeptFrom;
    UdpConserves(g, i, s);
    if g.mValid { FutureHead(g, UdpRem(s)); }
    Hop(g, i.mReady, next, UdpFuture(g, s), UdpFuture(UdpStep(g, i), UdpAfter(g, i, s)));
  }

  // Every cycle of the chain conserves every hop and the stream at its end.
  lemma FeedConserves(t: Feed, i: LayerIn, s: Inputs)
    requires FeedOk(t, s) && (i.valid ==> Brings(s.e, i.beat))
    ensures Sized(t)
    ensures var t', s' := FeedStep(t, i), FeedAfter(t, i, s);
            && FeedOk(t', s')
            && LayerFuture(MoldDecide, t.mold.layer, s.m) ==
               Takes(t.mold.layer.gear, i.mReady) + LayerFuture(MoldDecide, t'.mold.layer, s'.m)
  {
    hide LayerStep, UdpStep, LayerReady, SReady, RestBeats, LayerFuture, UdpFuture, Takes, Brings, After,
         Sound, LayerOk, UdpOk;
    Parts(t, s);
    EthSound();
    LayerHop(EthSniff, EthDecide, AnyFrame, EthGood, t.eth, EthIn(t, i), s.e, s.i);
    Ipv4Sound();
    LayerHop(Ipv4Sniff, Ipv4Decide, Ipv4Scope, Ipv4Good, t.ip, IpIn(t, i), s.i, s.u);
    UdpHop(t.udp, UdpLayerIn(t, i), s.u, s.m);
    MoldSound();
    LayerConserves(MoldSniff, MoldDecide, AnyFrame, MoldGood, t.mold.layer, MoldIn(t, i), s.m);
  }

  lemma Parts(t: Feed, s: Inputs)
    requires FeedOk(t, s)
    ensures Sized(t) && InputOk(s.e) && InputOk(s.i) && InputOk(s.u) && InputOk(s.m)
    ensures GearOk(t.mold.layer.gear)
  {
    hide KeptFrom, InputOk, InScope, HeldOk;
  }

  // ---- whole runs ----

  // Along the trace, the source offers the next beat of its frames whenever it offers one.
  ghost predicate FeedFeeds(t: Feed, tr: seq<LayerIn>, s: Inputs)
    requires Sized(t)
    decreases |tr|
  {
    tr == [] ||
    ((tr[0].valid ==> Brings(s.e, tr[0].beat)) && FeedFeeds(FeedStep(t, tr[0]), tr[1..], FeedAfter(t, tr[0], s)))
  }

  function FeedEnd(t: Feed, tr: seq<LayerIn>): (e: Feed)
    requires Sized(t)
    ensures Sized(e)
    decreases |tr|
  {
    if tr == [] then t else FeedEnd(FeedStep(t, tr[0]), tr[1..])
  }

  function FeedEndInputs(t: Feed, tr: seq<LayerIn>, s: Inputs): Inputs
    requires Sized(t)
    decreases |tr|
  {
    if tr == [] then s else FeedEndInputs(FeedStep(t, tr[0]), tr[1..], FeedAfter(t, tr[0], s))
  }

  // The beats the sink took, in order.
  function FeedTaken(t: Feed, tr: seq<LayerIn>): seq<Out>
    requires Sized(t)
    decreases |tr|
  {
    if tr == [] then [] else Takes(t.mold.layer.gear, tr[0].mReady) + FeedTaken(FeedStep(t, tr[0]), tr[1..])
  }

  function FeedFuture(t: Feed, s: Inputs): seq<Out>
    requires FeedOk(t, s)
  {
    LayerFuture(MoldDecide, t.mold.layer, s.m)
  }

  lemma {:induction false} RunConserves(t: Feed, tr: seq<LayerIn>, s: Inputs)
    requires FeedOk(t, s) && Sized(t) && FeedFeeds(t, tr, s)
    ensures FeedOk(FeedEnd(t, tr), FeedEndInputs(t, tr, s))
    ensures FeedFuture(t, s) == FeedTaken(t, tr) + FeedFuture(FeedEnd(t, tr), FeedEndInputs(t, tr, s))
    decreases |tr|
  {
    if tr != [] {
      hide FeedStep, FeedOk, FeedAfter, Sized, Takes, LayerFuture, Brings;
      FeedConserves(t, tr[0], s);
      var t', s' := FeedStep(t, tr[0]), FeedAfter(t, tr[0], s);
      RunConserves(t', tr[1..], s');
      Associate(Takes(t.mold.layer.gear, tr[0].mReady), FeedTaken(t', tr[1..]),
                FeedFuture(FeedEnd(t', tr[1..]), FeedEndInputs(t', tr[1..], s')));
    }
  }

  // ---- what the whole chain makes of a list of frames ----

  function Outs(decide: seq<Byte> -> Ctl, ps: seq<seq<Byte>>): seq<seq<Byte>> {
    Slices(Jobs(decide, ps))
  }

  lemma OutsNext(decide: seq<Byte> -> Ctl, ps: seq<seq<Byte>>)
    requires ps != []
    ensures Outs(decide, ps) == [Slice(JobOf(decide(ps[0]), ps[0]))] + Outs(decide, ps[1..])
  {
    hide Slice;
    JobsFirst(decide, ps);
    PackFirstSlice(JobOf(decide(ps[0]), ps[0]), Jobs(decide, ps[1..]));
  }

  lemma PackFirstSlice(j: Job, js: seq<Job>)
    ensures Slices([j] + js) == [Slice(j)] + Slices(js)
  {
    hide Slice;
  }

  // Nothing comes of nothing, so empty packets between layers do not matter.
  lemma {:induction false} OutsNonEmpty(decide: seq<Byte> -> Ctl, ps: seq<seq<Byte>>)
    ensures NonEmpty(Outs(decide, NonEmpty(ps))) == NonEmpty(Outs(decide, ps))
  {
    if ps != [] {
      OutsNonEmpty(decide, ps[1..]);
      OutsNext(decide, ps);
      NonEmptyNext(Slice(JobOf(decide(ps[0]), ps[0])), Outs(decide, ps[1..]));
      if ps[0] == [] {
        assert Slice(JobOf(decide(ps[0]), ps[0])) == [];
      } else {
        OutsNext(decide, NonEmpty(ps));
        assert NonEmpty(ps)[1..] == NonEmpty(ps[1..]);
        NonEmptyNext(Slice(JobOf(decide(ps[0]), ps[0])), Outs(decide, NonEmpty(ps[1..])));
      }
    }
  }

  lemma NonEmptyNext(p: seq<Byte>, ps: seq<seq<Byte>>)
    ensures NonEmpty([p] + ps) == (if p == [] then [] else [p]) + NonEmpty(ps)
  {
    assert ([p] + ps)[1..] == ps;
  }

  lemma {:induction false} NonEmptyFrom(ps: seq<seq<Byte>>)
    ensures forall k | 0 <= k < |NonEmpty(ps)| :: NonEmpty(ps)[k] != [] && NonEmpty(ps)[k] in ps
  {
    if ps != [] { NonEmptyFrom(ps[1..]); }
  }

  // One frame through the four layers.
  function FrontEnd(f: seq<Byte>): seq<Byte> {
    Slice(JobOf(MoldDecide(UdpOut(Ipv4Out(EthOut(f)))), UdpOut(Ipv4Out(EthOut(f)))))
  }

  function FrontEnds(fs: seq<seq<Byte>>): seq<seq<Byte>> {
    seq(|fs|, k requires 0 <= k < |fs| => FrontEnd(fs[k]))
  }

  function StartInputs(fs: seq<seq<Byte>>): Inputs {
    var e := NonEmpty(Outs(EthDecide, fs));
    var i := NonEmpty(Outs(Ipv4Decide, e));
    var u := NonEmpty(Outs(UdpDecide, i));
    Inputs(Input([], 0, fs), Input([], 0, e), Input([], 0, i), Input([], 0, u))
  }

  // Frames the hardware decides on their own bytes.
  predicate Clean(fs: seq<seq<Byte>>) {
    forall k | 0 <= k < |fs| :: fs[k] != [] && Ipv4Scope(EthOut(fs[k]))
  }

  lemma StartOk(fs: seq<seq<Byte>>)
    requires Clean(fs)
    ensures FeedOk(ResetFeed(), StartInputs(fs))
    ensures FeedFuture(ResetFeed(), StartInputs(fs)) == PackAll(Outs(MoldDecide, StartInputs(fs).m.later))
  {
    hide EthDecide, Ipv4Decide, UdpDecide, MoldDecide, PackAll, LayerOk, UdpOk, Slice, Ipv4Scope;
    var s := StartInputs(fs);
    var e, i, u := Outs(EthDecide, fs), Outs(Ipv4Decide, s.i.later), Outs(UdpDecide, s.u.later);
    NonEmptyFrom(e);
    NonEmptyFrom(i);
    NonEmptyFrom(u);
    PackNonEmpty(e);
    PackNonEmpty(i);
    PackNonEmpty(u);
    EthScoped(fs);
    ResetOk(EthDecide, AnyFrame, EthGood, (), fs);
    ResetOk(Ipv4Decide, Ipv4Scope, Ipv4Good, RESET_REGS, s.i.later);
    UdpResetOk(s.u.later);
    ResetOk(MoldDecide, AnyFrame, MoldGood, MoldRegs(0, 0, false, 0, 0), s.m.later);
    RestIsAll(s.i.later);
    RestIsAll(s.u.later);
    RestIsAll(s.m.later);
  }

  lemma EthScoped(fs: seq<seq<Byte>>)
    requires Clean(fs)
    ensures forall p | p in Outs(EthDecide, fs) :: Ipv4Scope(p)
  {
    hide Ipv4Scope, EthDecide;
    forall k | 0 <= k < |fs| ensures Outs(EthDecide, fs)[k] == EthOut(fs[k]) { }
  }

  lemma RestIsAll(ps: seq<seq<Byte>>)
    ensures RestBeats(Input([], 0, ps)) == PackAll(ps)
  {
    PackEmpty();
  }

  lemma ChainIsFrontEnds(fs: seq<seq<Byte>>)
    ensures PackAll(Outs(MoldDecide, StartInputs(fs).m.later)) == PackAll(FrontEnds(fs))
  {
    hide EthDecide, Ipv4Decide, UdpDecide, MoldDecide, Slice, PackAll;
    var e := Outs(EthDecide, fs);
    var i := Outs(Ipv4Decide, e);
    var u := Outs(UdpDecide, i);
    var s := StartInputs(fs);
    OutsNonEmpty(Ipv4Decide, e);
    OutsNonEmpty(UdpDecide, i);
    OutsNonEmpty(MoldDecide, u);
    PackNonEmpty(Outs(MoldDecide, NonEmpty(u)));
    PackNonEmpty(Outs(MoldDecide, u));
    assert FrontEnds(fs) == Outs(MoldDecide, u);
  }

  // From reset, for every list of frames, every idle schedule of the source and every stall schedule of
  // the sink: what the sink took, followed by what is still to leave, is each frame's payload, packed.
  lemma FrontEndContract(fs: seq<seq<Byte>>, tr: seq<LayerIn>)
    requires Clean(fs) && FeedFeeds(ResetFeed(), tr, StartInputs(fs))
    ensures var t, s := FeedEnd(ResetFeed(), tr), FeedEndInputs(ResetFeed(), tr, StartInputs(fs));
            && FeedOk(t, s)
            && FeedTaken(ResetFeed(), tr) + FeedFuture(t, s) == PackAll(FrontEnds(fs))
  {
    hide FeedOk, FeedStep, FeedFeeds, FeedEnd, FeedEndInputs, FeedTaken, FeedFuture, FrontEnds, StartInputs,
         PackAll, Outs;
    StartOk(fs);
    RunConserves(ResetFeed(), tr, StartInputs(fs));
    ChainIsFrontEnds(fs);
  }

  // ---- against the reference ----

  // The four layers agree with the reference on this frame (one condition per layer).
  predicate Agreed(f: seq<Byte>) {
    var p := EthOut(f);
    var u := Ipv4Out(p);
    && !(15 <= |f| <= 16 && U16(f, 12) == ETHERTYPE_IPV4)
    && !(19 <= |f| <= 24 && U16(f, 12) == ETHERTYPE_VLAN && U16(f, 16) == ETHERTYPE_IPV4)
    && Ipv4Scope(p) && !Ipv4Parts(p)
    && !(|u| > 8 && U16(u, 2) == FEED_PORT && U16(u, 4) > |u|)
  }

  lemma AgreedUnwraps(f: seq<Byte>)
    requires Agreed(f)
    ensures FrontEnd(f) == UnwrapFrame(f)
  {
    hide EthOut, Ipv4Out, UdpOut, UnwrapEth, UnwrapIpv4, UnwrapUdp, MoldDecide, Slice, Ipv4Scope, Ipv4Parts, U16;
    EthAgreesIff(f);
    Ipv4AgreesIff(EthOut(f));
    UdpAgreesIff(Ipv4Out(EthOut(f)));
    MoldAgrees(UdpOut(Ipv4Out(EthOut(f))));
    NothingUnwraps();
  }

  lemma NothingUnwraps()
    ensures UnwrapIpv4([]) == None && UnwrapUdp([], FEED_PORT) == None && MoldPayload([]) == []
  {
  }
}
