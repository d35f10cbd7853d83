// The MoldUDP64 layer (fpga/rtl/mold_parser.v): strip the session header, drop datagrams without
// messages, and watch the sequence numbers across datagrams.
module MoldParsers {
  import opened Options
  import opened Bytes
  import opened Axis
  import opened Gearboxes
  import opened GearTheorems
  import opened Layers
  import opened HoldReplays
  import opened FrameRef
  import opened EthParsers

  const WORD64: nat := 0x1_0000_0000_0000_0000

  datatype MoldRegs = MoldRegs(seqHi: nat, expected: nat, haveExpect: bool, pktSeq: nat, pktCount: nat)

  function SeqNow(x: MoldRegs, b: Beat): nat {
    x.seqHi * 65536 + Word(b.lanes[0], b.lanes[1])
  }

  function CountNow(b: Beat): nat {
    Word(b.lanes[2], b.lanes[3])
  }

  // End of session is a marker, not 65535 messages: it advances nothing.
  function MessagesIn(count: nat): nat {
    if count == COUNT_END_SESS then 0 else count
  }

  function MoldRegsNext(x: MoldRegs, n: nat, b: Beat): MoldRegs {
    if n == 1 then x.(seqHi := Be(b.lanes[2..]))
    else if n == 2 && b.keep[3] then
      x.(expected := (SeqNow(x, b) + MessagesIn(CountNow(b))) % WORD64, haveExpect := true,
         pktSeq := SeqNow(x, b), pktCount := CountNow(b))
    else x
  }

  // The header is complete only if its last byte, in lane 3 of beat 2, arrived.
  function MoldSniff(x: MoldRegs, n: nat, b: Beat): (MoldRegs, Option<Ctl>) {
    (MoldRegsNext(x, n, b),
     if n == 2 then Some(Ctl(20, 0, !b.keep[3] || CountNow(b) == 0 || CountNow(b) == COUNT_END_SESS))
     else if b.last then Some(Ctl(20, 0, true))
     else None)
  }

  // ---- the module: the hold-and-replay machine and two strobes ----

  datatype MoldModule = MoldModule(layer: Layer<MoldRegs>, hdrValid: bool, seqGap: bool)

  predicate DecodesHeader(l: Layer<MoldRegs>, i: LayerIn) {
    !l.emit && i.valid && |l.held| == 2 && i.beat.keep[3]
  }

  function MoldStep(m: MoldModule, i: LayerIn): (r: MoldModule)
    requires |m.layer.gear.buf| == 16
    ensures |r.layer.gear.buf| == 16
  {
    var h := DecodesHeader(m.layer, i);
    MoldModule(LayerStep(MoldSniff, m.layer, i), h,
               h && m.layer.x.haveExpect && SeqNow(m.layer.x, i.beat) != m.layer.x.expected)
  }

  function ResetMold(): MoldModule {
    MoldModule(ResetLayer(MoldRegs(0, 0, false, 0, 0)), false, false)
  }

  class MoldParser {
    const core: HoldReplay<MoldRegs>
    var hdrValid: bool
    var seqGap: bool

    ghost predicate Valid()
      reads this, core, core.hb, core.gear
    {
      core.Valid() && core.sniff == MoldSniff && core.hb.Length == 3 && Roomy(core.State(), 3)
    }

    function Module(): (m: MoldModule)
      requires Valid()
      reads this, core, core.hb, core.gear
      ensures |m.layer.gear.buf| == 16
    {
      MoldModule(core.State(), hdrValid, seqGap)
    }

    lemma Shape()
      requires Valid()
      ensures core.Valid()
    {
    }

    constructor ()
      ensures Valid() && Module() == ResetMold() && fresh(core) && fresh(core.hb) && fresh(core.gear)
    {
      core := new HoldReplay<MoldRegs>(MoldSniff, 3, MoldRegs(0, 0, false, 0, 0));
      hdrValid, seqGap := false, false;
    }

    method Clock(i: LayerIn)
      requires Valid()
      modifies this, core, core.hb, core.gear
      ensures Valid() && Module() == MoldStep(old(Module()), i)
    {
      hide LayerStep;
      MoldKeepsRoom(core.State(), i);
      hdrValid, seqGap := false, false;
      if !core.emit && i.valid && core.nheld == 2 && i.beat.keep[3] {
        hdrValid := true;
        seqGap := core.x.haveExpect && SeqNow(core.x, i.beat) != core.x.expected;
      }
      core.Clock(i);
    }
  }

  lemma MoldKeepsRoom(l: Layer<MoldRegs>, i: LayerIn)
    requires |l.gear.buf| == 16 && Roomy(l, 3)
    ensures Roomy(LayerStep(MoldSniff, l, i), 3)
  {
    hide Step, MoldRegsNext;
  }

  // ---- the payload ----

  function MoldDecide(d: seq<Byte>): Ctl {
    Ctl(20, 0, |d| < 20 || U16(d, 18) == 0 || U16(d, 18) == COUNT_END_SESS)
  }

  ghost predicate MoldGood(x: MoldRegs, j: nat, d: seq<Byte>) {
    8 * j < |d| && (j == 1 || (j == 2 && x.seqHi == Be(d[10..16])))
  }

  lemma MoldSniffRight(x: MoldRegs, j: nat, d: seq<Byte>, b: Beat)
    requires j == 0 || MoldGood(x, j, d)
    requires 8 * j < |d| && Aligned(b) && See(b) == NextBeat(d, 8 * j)
    ensures var (x', c) := MoldSniff(x, j, b);
            if c.Some? then c.value == MoldDecide(d) else !b.last && MoldGood(x', j + 1, d)
    ensures j == 2 ==> (b.keep[3] <==> |d| >= 20)
    ensures j == 2 && b.keep[3] ==> SeqNow(x, b) == Be(d[10..18]) && CountNow(b) == U16(d, 18)
  {
    hide KeptFrom, NextBeat, Be, Aligned;
    LastIs(d, 8 * j, b);
    if j == 1 && !b.last {
      HighBytes(d, b);
    } else if j == 2 && b.keep[3] {
      LanesAre(d, 16, b, 0);
      LanesAre(d, 16, b, 1);
      LanesAre(d, 16, b, 2);
      LanesAre(d, 16, b, 3);
      BeSplit(d, 10, 18);
    }
  }

  lemma HighBytes(d: seq<Byte>, b: Beat)
    requires |d| > 16 && Aligned(b) && See(b) == NextBeat(d, 8) && !b.last
    ensures b.lanes[2..] == d[10..16]
  {
    AlignedKept(b, 0);
    assert b.lanes == d[8..16];
  }

  // The last two bytes of a field are its low sixteen bits.
  lemma BeSplit(d: seq<Byte>, i: nat, k: nat)
    requires i + 2 <= k <= |d|
    ensures Be(d[i..k]) == Be(d[i..k - 2]) * 65536 + Word(d[k - 2], d[k - 1])
  {
    var f := d[i..k];
    assert f[..|f| - 1] == d[i..k - 1];
    assert d[i..k - 1][..|f| - 2] == d[i..k - 2];
  }

  lemma MoldSound()
    ensures Sound(MoldSniff, MoldDecide, AnyFrame, MoldGood)
  {
    hide MoldSniff, MoldDecide, MoldGood, NextBeat, KeptFrom, Aligned;
    forall x: MoldRegs, j: nat, f, b | AnyFrame(f)
      ensures SniffRight(MoldSniff, MoldDecide, MoldGood, x, j, f, b)
    {
      if (j == 0 || MoldGood(x, j, f)) && 8 * j < |f| && Aligned(b) && See(b) == NextBeat(f, 8 * j) {
        MoldSniffRight(x, j, f, b);
      }
    }
  }

  // Hardware and reference agree on every datagram.
  lemma MoldAgrees(d: seq<Byte>)
    ensures Slice(JobOf(MoldDecide(d), d)) == MoldPayload(d)
  {
  }

  // ---- the headers ----

  datatype Header = Header(sequence: nat, count: nat, gap: bool)

  // What the side-band shows in a cycle.
  function Strobe(m: MoldModule): seq<Header> {
    if m.hdrValid then [Header(m.layer.x.pktSeq, m.layer.x.pktCount, m.seqGap)] else []
  }

  function Expectation(x: MoldRegs): Option<nat> {
    if x.haveExpect then Some(x.expected) else None
  }

  function Next(d: seq<Byte>): nat
    requires |d| >= 20
  {
    (Be(d[10..18]) + MessagesIn(U16(d, 18))) % WORD64
  }

  // The headers a list of datagrams should show: a gap where the number is not the expected one.
  function Headers(e: Option<nat>, ds: seq<seq<Byte>>): seq<Header>
    decreases |ds|
  {
    if ds == [] then []
    else if |ds[0]| < 20 then Headers(e, ds[1..])
    else
      var n := Be(ds[0][10..18]);
      [Header(n, U16(ds[0], 18), e.Some? && e.value != n)] + Headers(Some(Next(ds[0])), ds[1..])
  }

  // Datagrams whose header is still to be decoded.
  function Undecoded(l: Layer<MoldRegs>, s: Input): seq<seq<Byte>> {
    if !l.emit && l.held != [] then [s.f] + s.later else s.later
  }

  lemma HeadersNext(e: Option<nat>, d: seq<Byte>, ds: seq<seq<Byte>>)
    ensures Headers(e, [d] + ds) ==
            if |d| < 20 then Headers(e, ds)
            else [Header(Be(d[10..18]), U16(d, 18), e.Some? && e.value != Be(d[10..18]))] + Headers(Some(Next(d)), ds)
  {
    assert ([d] + ds)[1..] == ds;
  }

  // A cycle shows a header exactly when it decodes one.
  lemma StrobeConserves(m: MoldModule, i: LayerIn, s: Input)
    requires LayerOk(MoldDecide, AnyFrame, MoldGood, m.layer, s) && (i.valid ==> Brings(s, i.beat))
    ensures var m', s' := MoldStep(m, i), LayerAfter(m.layer, i, s);
            Headers(Expectation(m.layer.x), Undecoded(m.layer, s)) ==
            Strobe(m') + Headers(Expectation(m'.layer.x), Undecoded(m'.layer, s'))
  {
    hide Step, Headers, Be, GearOk, Aligned, KeptFrom, NextBeat, HeldOk, MoldDecide, Next, U16, Word;
    var l := m.layer;
    if !l.emit && i.valid {
      var s' := After(s);
      MoldSniffRight(l.x, |l.held|, s'.f, i.beat);
      assert Undecoded(l, s) == [s'.f] + s'.later;
      HeadersNext(Expectation(l.x), s'.f, s'.later);
      if |l.held| < 2 {
        Short(l, i, s'.f);
      } else if i.beat.keep[3] {
        ExpectNext(l.x, i.beat, s'.f);
      }
    }
  }

  lemma ExpectNext(x: MoldRegs, b: Beat, d: seq<Byte>)
    requires |d| >= 20 && SeqNow(x, b) == Be(d[10..18]) && CountNow(b) == U16(d, 18)
    ensures (SeqNow(x, b) + MessagesIn(CountNow(b))) % WORD64 == Next(d)
  {
  }

  // A datagram that ends before beat 2 has no header.
  lemma Short(l: Layer<MoldRegs>, i: LayerIn, f: seq<Byte>)
    requires 8 * |l.held| < |f| && Aligned(i.beat) && See(i.beat) == NextBeat(f, 8 * |l.held|)
    ensures i.beat.last && |l.held| < 2 ==> |f| < 20
  {
  }

  // ---- whole runs ----

  function Strobes(m: MoldModule, tr: seq<LayerIn>): seq<Header>
    requires |m.layer.gear.buf| == 16
    decreases |tr|
  {
    if tr == [] then [] else Strobe(MoldStep(m, tr[0])) + Strobes(MoldStep(m, tr[0]), tr[1..])
  }

  function MoldEnd(m: MoldModule, tr: seq<LayerIn>): (e: MoldModule)
    requires |m.layer.gear.buf| == 16
    ensures |e.layer.gear.buf| == 16
    decreases |tr|
  {
    if tr == [] then m else MoldEnd(MoldStep(m, tr[0]), tr[1..])
  }

  lemma {:induction false} HeadersOfRun(m: MoldModule, tr: seq<LayerIn>, s: Input)
    requires LayerOk(MoldDecide, AnyFrame, MoldGood, m.layer, s) && LayerFeeds(MoldSniff, m.layer, tr, s)
    ensures var e, z := MoldEnd(m, tr), LayerEndInput(MoldSniff, m.layer, tr, s);
            Headers(Expectation(m.layer.x), Undecoded(m.layer, s)) ==
            Strobes(m, tr) + Headers(Expectation(e.layer.x), Undecoded(e.layer, z))
    decreases |tr|
  {
    if tr != [] {
      hide MoldDecide, MoldGood, MoldSniff, Brings, LayerOk, GearOk, LayerStep, Headers, Strobe, Expectation,
           Undecoded;
      MoldSound();
      LayerConserves(MoldSniff, MoldDecide, AnyFrame, MoldGood, m.layer, tr[0], s);
      StrobeConserves(m, tr[0], s);
      var m', s' := MoldStep(m, tr[0]), LayerAfter(m.layer, tr[0], s);
      HeadersOfRun(m', tr[1..], s');
      var e, z := MoldEnd(m, tr), LayerEndInput(MoldSniff, m.layer, tr, s);
      Associate(Strobe(m'), Strobes(m', tr[1..]), Headers(Expectation(e.layer.x), Undecoded(e.layer, z)));
    }
  }

  // ---- what a gap means ----

  // Sequence numbers are 64 bits wide.
  function Wire64(n: nat): nat {
    n % WORD64
  }

  // Datagrams numbered as a sender numbers them: each carries the number of its first message, and
  // heartbeats and end-of-session markers the number of the message to come.
  ghost predicate Numbered(ds: seq<seq<Byte>>, n: nat)
    decreases |ds|
  {
    ds == [] ||
    (|ds[0]| >= 20 && Be(ds[0][10..18]) == Wire64(n) && Numbered(ds[1..], n + MessagesIn(U16(ds[0], 18))))
  }

  function MessageCount(ds: seq<seq<Byte>>): nat
    requires forall k | 0 <= k < |ds| :: |ds[k]| >= 20
  {
    if ds == [] then 0 else MessagesIn(U16(ds[0], 18)) + MessageCount(ds[1..])
  }

  // The network delivers some of the datagrams, in order.
  function Delivered(ds: seq<seq<Byte>>, mask: seq<bool>): seq<seq<Byte>>
    requires |mask| == |ds|
  {
    if ds == [] then [] else (if mask[0] then [ds[0]] else []) + Delivered(ds[1..], mask[1..])
  }

  // For every delivered datagram: was a message lost since the previous one? Never so for the first.
  function Losses(ds: seq<seq<Byte>>, mask: seq<bool>, seen: bool, lost: nat): seq<Header>
    requires |mask| == |ds| && forall k | 0 <= k < |ds| :: |ds[k]| >= 20
    decreases |ds|
  {
    if ds == [] then []
    else if mask[0] then
      [Header(Be(ds[0][10..18]), U16(ds[0], 18), seen && lost > 0)] + Losses(ds[1..], mask[1..], true, 0)
    else Losses(ds[1..], mask[1..], seen, lost + MessagesIn(U16(ds[0], 18)))
  }

  lemma Wraps(n: nat, lost: nat)
    requires lost <= n && lost < WORD64
    ensures Wire64(n) == Wire64(n - lost) <==> lost == 0
  {
    if n % WORD64 == (n - lost) % WORD64 {
      assert lost == WORD64 * (n / WORD64 - (n - lost) / WORD64);
    }
  }

  lemma NextIs(d: seq<Byte>, n: nat)
    requires |d| >= 20 && Be(d[10..18]) == Wire64(n)
    ensures Next(d) == Wire64(n + MessagesIn(U16(d, 18)))
  {
    hide Be, U16, MessagesIn;
    assert n == WORD64 * (n / WORD64) + n % WORD64;
  }

  lemma NoHeaders(e: Option<nat>)
    ensures Headers(e, []) == []
  {
  }

  // The expectation after a gap is the number that would have come next: n less the messages lost.
  lemma {:induction false} GapIsLoss(ds: seq<seq<Byte>>, mask: seq<bool>, n: nat, lost: nat, e: Option<nat>)
    requires Numbered(ds, n) && |mask| == |ds| && lost <= n
    requires forall k | 0 <= k < |ds| :: |ds[k]| >= 20
    requires lost + MessageCount(ds) < WORD64
    requires e.Some? ==> e.value == Wire64(n - lost)
    ensures Headers(e, Delivered(ds, mask)) == Losses(ds, mask, e.Some?, lost)
    decreases |ds|
  {
    hide Be, Headers, U16, Next, MessagesIn, Wire64, Losses, Delivered, Numbered, MessageCount;
    if ds == [] {
      NoHeaders(e);
      NothingDelivered(e.Some?, lost);
    } else {
      var d, c := ds[0], MessagesIn(U16(ds[0], 18));
      NumberedNext(ds, n);
      DeliveredNext(ds, mask, e.Some?, lost);
      if mask[0] {
        Wraps(n, lost);
        NextIs(d, n);
        HeadersNext(e, d, Delivered(ds[1..], mask[1..]));
        GapIsLoss(ds[1..], mask[1..], n + c, 0, Some(Next(d)));
      } else {
        assert n + c - (lost + c) == n - lost;
        GapIsLoss(ds[1..], mask[1..], n + c, lost + c, e);
      }
    }
  }

  lemma NothingDelivered(seen: bool, lost: nat)
    ensures Delivered([], []) == [] && Losses([], [], seen, lost) == []
  {
  }

  lemma NumberedNext(ds: seq<seq<Byte>>, n: nat)
    requires Numbered(ds, n) && ds != [] && forall k | 0 <= k < |ds| :: |ds[k]| >= 20
    ensures Be(ds[0][10..18]) == Wire64(n) && Numbered(ds[1..], n + MessagesIn(U16(ds[0], 18)))
    ensures MessageCount(ds) == MessagesIn(U16(ds[0], 18)) + MessageCount(ds[1..])
  {
    hide Be, U16, MessagesIn, Wire64;
  }

  lemma DeliveredNext(ds: seq<seq<Byte>>, mask: seq<bool>, seen: bool, lost: nat)
    requires |mask| == |ds| && ds != [] && forall k | 0 <= k < |ds| :: |ds[k]| >= 20
    ensures Delivered(ds, mask) ==
            if mask[0] then [ds[0]] + Delivered(ds[1..], mask[1..]) else Delivered(ds[1..], mask[1..])
    ensures Losses(ds, mask, seen, lost) ==
            if mask[0] then
              [Header(Be(ds[0][10..18]), U16(ds[0], 18), seen && lost > 0)] + Losses(ds[1..], mask[1..], true, 0)
            else Losses(ds[1..], mask[1..], seen, lost + MessagesIn(U16(ds[0], 18)))
  {
    hide Be, U16, MessagesIn;
    assert [] + Delivered(ds[1..], mask[1..]) == Delivered(ds[1..], mask[1..]);
  }

  // From reset, whatever subset of a numbered stream arrives and however it is cut, idled and stalled:
  // the strobes shown so far are the first of one header per delivered datagram, with a gap exactly where
  // messages were lost since the previous one; all of them once every datagram is decoded.
  lemma SeqGapMeansLoss(ds: seq<seq<Byte>>, mask: seq<bool>, n: nat, tr: seq<LayerIn>)
    requires Numbered(ds, n) && |mask| == |ds|
    requires forall k | 0 <= k < |ds| :: |ds[k]| >= 20
    requires MessageCount(ds) < WORD64
    requires LayerFeeds(MoldSniff, ResetMold().layer, tr, Input([], 0, Delivered(ds, mask)))
    ensures Strobes(ResetMold(), tr) <= Losses(ds, mask, false, 0)
    ensures var z := LayerEndInput(MoldSniff, ResetMold().layer, tr, Input([], 0, Delivered(ds, mask)));
            Undecoded(MoldEnd(ResetMold(), tr).layer, z) == [] ==>
              Strobes(ResetMold(), tr) == Losses(ds, mask, false, 0)
  {
    hide LayerStep, MoldSniff, MoldDecide, MoldGood;
    var s := Delivered(ds, mask);
    DeliveredSizes(ds, mask);
    ResetOk(MoldDecide, AnyFrame, MoldGood, MoldRegs(0, 0, false, 0, 0), s);
    HeadersOfRun(ResetMold(), tr, Input([], 0, s));
    GapIsLoss(ds, mask, n, 0, None);
  }

  lemma {:induction false} DeliveredSizes(ds: seq<seq<Byte>>, mask: seq<bool>)
    requires |mask| == |ds| && forall k | 0 <= k < |ds| :: |ds[k]| >= 20
    ensures forall k | 0 <= k < |Delivered(ds, mask)| :: Delivered(ds, mask)[k] != []
  {
    if ds != [] { DeliveredSizes(ds[1..], mask[1..]); }
  }
}
