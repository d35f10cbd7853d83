// The UDP layer (fpga/rtl/udp_parser.v): no register of its own, the control word is wired from the
// header in beat 0 straight into a gearbox.
module UdpParsers {
  import opened Options
  import opened Bytes
  import opened Axis
  import opened Gearboxes
  import opened GearTheorems
  import opened Layers
  import opened FrameRef
  import opened EthParsers

  // The control word wired from a beat.
  function UdpCtl(b: Beat): Ctl {
    var ulen := Word(b.lanes[4], b.lanes[5]);
    var runt := b.last && !b.keep[7];
    Ctl(8, if ulen > 8 then ulen - 8 else 0, Word(b.lanes[2], b.lanes[3]) != FEED_PORT || ulen <= 8 || runt)
  }

  function UdpIn(i: LayerIn): In {
    var c := UdpCtl(i.beat);
    In(i.valid, i.beat, c.skip, c.keepLen, c.drop, i.mReady)
  }

  function UdpStep(g: Gear, i: LayerIn): (r: Gear)
    requires |g.buf| == 16
    ensures |r.buf| == 16
  {
    Step(g, UdpIn(i))
  }

  // The decision as a function of the whole segment.
  function UdpDecide(s: seq<Byte>): Ctl {
    if |s| < 8 then Ctl(8, 0, true)
    else
      var ulen := U16(s, 4);
      Ctl(8, if ulen > 8 then ulen - 8 else 0, U16(s, 2) != FEED_PORT || ulen <= 8)
  }

  function UdpRem(s: Input): Rem
    requires s.n <= |s.f|
  {
    Rem(s.f[s.n..], Jobs(UdpDecide, s.later))
  }

  ghost predicate UdpOk(g: Gear, s: Input) {
    GearOk(g) && InputOk(s) && (g.inFrame <==> s.n < |s.f|)
  }

  function UdpFuture(g: Gear, s: Input): seq<Out>
    requires |g.buf| == 16 && g.cnt <= 16 && s.n <= |s.f|
  {
    Future(g, UdpRem(s))
  }

  function UdpAfter(g: Gear, i: LayerIn, s: Input): Input {
    if i.valid && SReady(g, i.mReady) then After(s) else s
  }

  lemma UdpCtlIs(s: seq<Byte>, b: Beat)
    requires Aligned(b) && s != [] && See(b) == NextBeat(s, 0)
    ensures UdpCtl(b).drop == UdpDecide(s).drop
    ensures !UdpCtl(b).drop ==> UdpCtl(b) == UdpDecide(s)
  {
    hide KeptFrom;
    LastIs(s, 0, b);
    if |s| >= 8 {
      LanesAre(s, 0, b, 2);
      LanesAre(s, 0, b, 3);
      LanesAre(s, 0, b, 4);
      LanesAre(s, 0, b, 5);
    }
  }

  lemma UdpDelivers(g: Gear, i: LayerIn, s: Input)
    requires UdpOk(g, s) && (i.valid ==> Brings(s, i.beat)) && Accepts(g, UdpIn(i))
    ensures Delivers(g, UdpIn(i), UdpRem(s))
    ensures InputOk(UdpAfter(g, i, s)) && Advance(g, UdpIn(i), UdpRem(s)) == UdpRem(UdpAfter(g, i, s))
  {
    hide KeptFrom, GearOk, UdpCtl, UdpDecide, Aligned, NextBeat, Slice;
    if g.inFrame {
      NextIsPrefix(s.f, s.n, i.beat);
    } else {
      var f := s.later[0];
      JobsFirst(UdpDecide, s.later);
      UdpCtlIs(f, i.beat);
      NextIsPrefix(f, 0, i.beat);
      assert f[0..] == f;
    }
  }

  // Every cycle of the layer conserves its stream.
  lemma UdpConserves(g: Gear, i: LayerIn, s: Input)
    requires UdpOk(g, s) && (i.valid ==> Brings(s, i.beat))
    ensures var g', s' := UdpStep(g, i), UdpAfter(g, i, s);
            UdpOk(g', s') && UdpFuture(g, s) == Takes(g, i.mReady) + UdpFuture(g', s')
  {
    hide Step, KeptFrom, GearOk, UdpCtl, UdpDecide, Future, Delivers, Takes, Brings, Move, Jobs;
    UdpFits(g, s);
    if Accepts(g, UdpIn(i)) { UdpDelivers(g, i, s); }
    StepConserves(g, UdpIn(i), UdpRem(s));
  }

  lemma UdpFits(g: Gear, s: Input)
    requires UdpOk(g, s)
    ensures Fits(g, UdpRem(s))
  {
    hide GearOk;
    JobsFrames(UdpDecide, s.later);
    assert |UdpRem(s).cur| == |s.f| - s.n;
  }

  lemma UdpResetOk(ss: seq<seq<Byte>>)
    requires forall k | 0 <= k < |ss| :: ss[k] != []
    ensures UdpOk(ResetGear(), Input([], 0, ss))
    ensures UdpFuture(ResetGear(), Input([], 0, ss)) == PackAll(Slices(Jobs(UdpDecide, ss)))
  {
    FutureOfIdle(ResetGear(), UdpRem(Input([], 0, ss)));
  }

  // ---- against the reference ----

  function UdpOut(s: seq<Byte>): seq<Byte> {
    Slice(JobOf(UdpDecide(s), s))
  }

  // The hardware does not check that the data reaches as far as the length field claims.
  lemma UdpAgreesIff(s: seq<Byte>)
    ensures UdpOut(s) == OrEmpty(UnwrapUdp(s, FEED_PORT)) <==> !(|s| > 8 && U16(s, 2) == FEED_PORT && U16(s, 4) > |s|)
  {
  }
}
