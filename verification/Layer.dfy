// The hold-and-replay machine shared by the Ethernet, IPv4 and MoldUDP64 layers: hold the opening beats
// of a frame while sniffing them, decide, replay them into a gearbox, then pass the rest through.
module Layers {
  import opened Options
  import opened Bytes
  import opened Axis
  import opened Gearboxes
  import opened GearTheorems

  // The control word a layer decides on.
  datatype Ctl = Ctl(skip: nat, keepLen: nat, drop: bool)

  // Registers: the held beats, the next one to release, the decision, and the sniffer's own.
  datatype Layer<X> = Layer(emit: bool, held: seq<Beat>, idx: nat, ctl: Ctl, x: X, gear: Gear)

  // The sniffer: from its registers, the number of beats held and the beat being accepted.
  type Sniffer<!X> = (X, nat, Beat) -> (X, Option<Ctl>)

  datatype LayerIn = LayerIn(valid: bool, beat: Beat, mReady: bool)

  predicate Draining<X>(l: Layer<X>) {
    l.idx < |l.held|
  }

  predicate LayerReady<X>(l: Layer<X>, mReady: bool) {
    if !l.emit then true else if Draining(l) then false else SReady(l.gear, mReady)
  }

  // What drives the gearbox this cycle.
  function GearIn<X>(l: Layer<X>, i: LayerIn): In {
    if !l.emit then In(false, i.beat, l.ctl.skip, l.ctl.keepLen, l.ctl.drop, i.mReady)
    else if Draining(l) then In(true, l.held[l.idx], l.ctl.skip, l.ctl.keepLen, l.ctl.drop, i.mReady)
    else In(i.valid, i.beat, l.ctl.skip, l.ctl.keepLen, l.ctl.drop, i.mReady)
  }

  function LayerStep<X>(sniff: Sniffer<X>, l: Layer<X>, i: LayerIn): (r: Layer<X>)
    requires |l.gear.buf| == 16
    ensures |r.gear.buf| == 16
  {
    var n := l.(gear := Step(l.gear, GearIn(l, i)));
    if !l.emit then
      if !i.valid then n
      else
        var (x, d) := sniff(l.x, |l.held|, i.beat);
        var h := n.(held := l.held + [i.beat], x := x);
        if d.Some? then h.(emit := true, idx := 0, ctl := d.value) else h
    else if Draining(l) then
      if !SReady(l.gear, i.mReady) then n
      else if l.held[l.idx].last then n.(emit := false, held := [], idx := 0)
      else n.(idx := l.idx + 1)
    else if i.valid && SReady(l.gear, i.mReady) && i.beat.last then n.(emit := false, held := [], idx := 0)
    else n
  }

  // ---- the input still to come: the frame under way, how much of it has arrived, and later frames ----

  datatype Input = Input(f: seq<Byte>, n: nat, later: seq<seq<Byte>>)

  // The next beat of f when n bytes of it have gone.
  function NextBeat(f: seq<Byte>, n: nat): Out
    requires n < |f|
  {
    if |f| - n <= 8 then Out(f[n..], true) else Out(f[n..n + 8], false)
  }

  ghost predicate InputOk(s: Input) {
    s.n <= |s.f| && (s.n < |s.f| ==> s.n % 8 == 0) && forall k | 0 <= k < |s.later| :: s.later[k] != []
  }

  // The beat is the next one of a packed stream of these frames.
  ghost predicate Brings(s: Input, b: Beat) {
    && Aligned(b)
    && if s.n < |s.f| then See(b) == NextBeat(s.f, s.n)
       else s.later != [] && s.later[0] != [] && See(b) == NextBeat(s.later[0], 0)
  }

  function Move(f: seq<Byte>, n: nat): nat {
    if n + 8 < |f| then n + 8 else |f|
  }

  function After(s: Input): Input {
    if s.n < |s.f| then s.(n := Move(s.f, s.n))
    else if s.later != [] then Input(s.later[0], Move(s.later[0], 0), s.later[1..])
    else s
  }

  function RestBeats(s: Input): seq<Out>
    requires s.n <= |s.f|
  {
    Pack(s.f[s.n..]) + PackAll(s.later)
  }

  // ---- what the layer makes of a frame ----

  function JobOf(c: Ctl, f: seq<Byte>): Job {
    Job(c.skip, c.keepLen, c.drop, f)
  }

  function Jobs(decide: seq<Byte> -> Ctl, fs: seq<seq<Byte>>): seq<Job> {
    seq(|fs|, k requires 0 <= k < |fs| => JobOf(decide(fs[k]), fs[k]))
  }

  // The sniffer is right about one beat: a decision is the one for the frame, and while there is none
  // the frame has more beats.
  ghost predicate SniffRight<X>(sniff: Sniffer<X>, decide: seq<Byte> -> Ctl, good: (X, nat, seq<Byte>) -> bool,
                                x: X, j: nat, f: seq<Byte>, b: Beat)
  {
    (j == 0 || good(x, j, f)) && 8 * j < |f| && Aligned(b) && See(b) == NextBeat(f, 8 * j) ==>
      var (x', d) := sniff(x, j, b);
      if d.Some? then d.value == decide(f) else !b.last && good(x', j + 1, f)
  }

  ghost predicate Sound<X(!new)>(sniff: Sniffer<X>, decide: seq<Byte> -> Ctl, scope: seq<Byte> -> bool,
                                 good: (X, nat, seq<Byte>) -> bool)
  {
    forall x, j, f, b | scope(f) :: SniffRight(sniff, decide, good, x, j, f, b)
  }

  ghost predicate InScope(scope: seq<Byte> -> bool, s: Input, whole: bool) {
    (whole ==> scope(s.f)) && forall k | 0 <= k < |s.later| :: scope(s.later[k])
  }

  // ---- the invariant ----

  ghost predicate HeldOk(held: seq<Beat>, f: seq<Byte>) {
    forall j | 0 <= j < |held| :: 8 * j < |f| && Aligned(held[j]) && See(held[j]) == NextBeat(f, 8 * j)
  }

  ghost predicate LayerOk<X>(decide: seq<Byte> -> Ctl, scope: seq<Byte> -> bool, good: (X, nat, seq<Byte>) -> bool,
                             l: Layer<X>, s: Input)
  {
    && GearOk(l.gear) && InputOk(s) && HeldOk(l.held, s.f)
    && InScope(scope, s, l.held != [])
    && if !l.emit then
         && !l.gear.inFrame
         && if l.held == [] then s.n == |s.f| else s.n == 8 * |l.held| < |s.f| && good(l.x, |l.held|, s.f)
       else
         && l.held != [] && l.idx <= |l.held| && l.ctl == decide(s.f)
         && (l.gear.inFrame <==> l.idx > 0)
         && if Draining(l) then s.n == Move(s.f, 8 * (|l.held| - 1)) else s.n < |s.f| && 8 * |l.held| <= s.n
  }

  // The layer's input as its gearbox will get it.
  function GearRem<X>(decide: seq<Byte> -> Ctl, l: Layer<X>, s: Input): Rem
    requires s.n <= |s.f|
  {
    var js := Jobs(decide, s.later);
    if l.held == [] then Rem([], js)
    else if !l.emit || l.idx == 0 then Rem([], [JobOf(decide(s.f), s.f)] + js)
    else if Draining(l) then Rem(if 8 * l.idx <= |s.f| then s.f[8 * l.idx..] else [], js)
    else Rem(s.f[s.n..], js)
  }

  function LayerFuture<X>(decide: seq<Byte> -> Ctl, l: Layer<X>, s: Input): seq<Out>
    requires |l.gear.buf| == 16 && l.gear.cnt <= 16 && s.n <= |s.f|
  {
    Future(l.gear, GearRem(decide, l, s))
  }

  predicate LayerAccepts<X>(l: Layer<X>, i: LayerIn) {
    i.valid && LayerReady(l, i.mReady)
  }

  function LayerAfter<X>(l: Layer<X>, i: LayerIn, s: Input): Input {
    if LayerAccepts(l, i) then After(s) else s
  }

  // A cycle in which the layer is sniffing: the gearbox is idle, and its input to come is the same.
  lemma SniffStep<X(!new)>(sniff: Sniffer<X>, decide: seq<Byte> -> Ctl, scope: seq<Byte> -> bool,
                           good: (X, nat, seq<Byte>) -> bool, l: Layer<X>, i: LayerIn, s: Input)
    requires Sound(sniff, decide, scope, good) && LayerOk(decide, scope, good, l, s) && !l.emit
    requires i.valid ==> Brings(s, i.beat)
    ensures var l', s' := LayerStep(sniff, l, i), LayerAfter(l, i, s);
            && s'.n <= |s'.f| && GearRem(decide, l', s') == GearRem(decide, l, s)
            && (GearOk(l'.gear) && !l'.gear.inFrame ==> LayerOk(decide, scope, good, l', s'))
  {
    hide Step, KeptFrom, GearOk, Aligned, NextBeat, Sound, JobOf;
    if i.valid {
      var s' := After(s);
      SoundAt(sniff, decide, scope, good, l.x, |l.held|, s'.f, i.beat);
      NextIsPrefix(s'.f, 8 * |l.held|, i.beat);
      if l.held == [] {
        JobsFirst(decide, s.later);
      }
    }
  }

  lemma SoundAt<X(!new)>(sniff: Sniffer<X>, decide: seq<Byte> -> Ctl, scope: seq<Byte> -> bool,
                         good: (X, nat, seq<Byte>) -> bool, x: X, j: nat, f: seq<Byte>, b: Beat)
    requires Sound(sniff, decide, scope, good)
    ensures scope(f) ==> SniffRight(sniff, decide, good, x, j, f, b)
  {
  }

  lemma JobsFirst(decide: seq<Byte> -> Ctl, fs: seq<seq<Byte>>)
    requires fs != []
    ensures Jobs(decide, fs) == [JobOf(decide(fs[0]), fs[0])] + Jobs(decide, fs[1..])
  {
  }

  lemma JobsFrames(decide: seq<Byte> -> Ctl, fs: seq<seq<Byte>>)
    ensures forall k | 0 <= k < |fs| :: Jobs(decide, fs)[k].frame == fs[k]
  {
  }

  lemma NextIsPrefix(f: seq<Byte>, n: nat, b: Beat)
    requires n < |f| && See(b) == NextBeat(f, n)
    ensures Kept(b) <= f[n..] && (b.last <==> Kept(b) == f[n..])
    ensures f[n..][|Kept(b)|..] == f[Move(f, n)..]
    ensures b.last <==> Move(f, n) == |f|
  {
  }

  // A cycle in which a held beat is offered to the gearbox.
  lemma DrainStep<X(!new)>(sniff: Sniffer<X>, decide: seq<Byte> -> Ctl, scope: seq<Byte> -> bool,
                           good: (X, nat, seq<Byte>) -> bool, l: Layer<X>, i: LayerIn, s: Input)
    requires LayerOk(decide, scope, good, l, s) && l.emit && Draining(l)
    ensures var l', gi, r := LayerStep(sniff, l, i), GearIn(l, i), GearRem(decide, l, s);
            && (Accepts(l.gear, gi) ==> Delivers(l.gear, gi, r))
            && GearRem(decide, l', s) == Advance(l.gear, gi, r)
            && (GearOk(l'.gear) && (l'.gear.inFrame <==> GearRem(decide, l', s).cur != []) ==>
                  LayerOk(decide, scope, good, l', s))
  {
    hide Step, KeptFrom, GearOk, Move, Jobs, Aligned, NextBeat;
    var b := l.held[l.idx];
    assert See(b) == NextBeat(s.f, 8 * l.idx);
    NextIsPrefix(s.f, 8 * l.idx, b);
    DrainEnd(l.held, l.idx, s.f);
    assert s.f[0..] == s.f;
    MoveIs(s.f, 8 * l.idx);
  }

  lemma MoveIs(f: seq<Byte>, n: nat)
    ensures Move(f, n) == if n + 8 < |f| then n + 8 else |f|
  {
  }

  // Only the last held beat can end the frame.
  lemma DrainEnd(held: seq<Beat>, k: nat, f: seq<Byte>)
    requires HeldOk(held, f) && k < |held|
    ensures held[k].last <==> Move(f, 8 * k) == |f|
    ensures held[k].last ==> k == |held| - 1
    ensures !held[k].last ==> Move(f, 8 * k) == 8 * (k + 1) < |f|
  {
    assert See(held[k]) == NextBeat(f, 8 * k);
    if k < |held| - 1 { assert 8 * (k + 1) < |f|; }
  }

  // A cycle in which the input passes through.
  lemma PassStep<X(!new)>(sniff: Sniffer<X>, decide: seq<Byte> -> Ctl, scope: seq<Byte> -> bool,
                          good: (X, nat, seq<Byte>) -> bool, l: Layer<X>, i: LayerIn, s: Input)
    requires LayerOk(decide, scope, good, l, s) && l.emit && !Draining(l) && (i.valid ==> Brings(s, i.beat))
    ensures var l', s', gi, r := LayerStep(sniff, l, i), LayerAfter(l, i, s), GearIn(l, i), GearRem(decide, l, s);
            && s'.n <= |s'.f|
            && (Accepts(l.gear, gi) ==> Delivers(l.gear, gi, r))
            && GearRem(decide, l', s') == Advance(l.gear, gi, r)
            && (GearOk(l'.gear) && (l'.gear.inFrame <==> GearRem(decide, l', s').cur != []) ==>
                  LayerOk(decide, scope, good, l', s'))
  {
    hide Step, KeptFrom, GearOk, Jobs;
    if i.valid { NextIsPrefix(s.f, s.n, i.beat); }
  }

  // Every cycle of a layer conserves its stream.
  lemma LayerConserves<X(!new)>(sniff: Sniffer<X>, decide: seq<Byte> -> Ctl, scope: seq<Byte> -> bool,
                                good: (X, nat, seq<Byte>) -> bool, l: Layer<X>, i: LayerIn, s: Input)
    requires Sound(sniff, decide, scope, good) && LayerOk(decide, scope, good, l, s)
    requires i.valid ==> Brings(s, i.beat)
    ensures var l', s' := LayerStep(sniff, l, i), LayerAfter(l, i, s);
            && LayerOk(decide, scope, good, l', s')
            && LayerFuture(decide, l, s) == Takes(l.gear, i.mReady) + LayerFuture(decide, l', s')
  {
    hide Step, KeptFrom, Move, Jobs, Future, Delivers, Advance, Takes, Sound, NextBeat, HeldOk;
    var gi, r := GearIn(l, i), GearRem(decide, l, s);
    LayerFits(decide, scope, good, l, s);
    if !l.emit {
      SniffStep(sniff, decide, scope, good, l, i, s);
      NoAdvance(l.gear, gi, r);
    } else if Draining(l) {
      DrainStep(sniff, decide, scope, good, l, i, s);
    } else {
      PassStep(sniff, decide, scope, good, l, i, s);
    }
    StepConserves(l.gear, gi, r);
  }

  lemma NoAdvance(g: Gear, i: In, r: Rem)
    requires !i.valid
    ensures Advance(g, i, r) == r
  {
  }

  lemma LayerFits<X>(decide: seq<Byte> -> Ctl, scope: seq<Byte> -> bool, good: (X, nat, seq<Byte>) -> bool,
                     l: Layer<X>, s: Input)
    requires LayerOk(decide, scope, good, l, s)
    ensures Fits(l.gear, GearRem(decide, l, s))
  {
    hide GearOk, KeptFrom, Aligned, NextBeat, InScope;
    if l.held != [] { assert 8 * (|l.held| - 1) < |s.f|; }
    if l.emit && Draining(l) { assert 8 * l.idx < |s.f|; }
  }

  // ---- whole traces of one layer ----

  ghost predicate LayerFeeds<X>(sniff: Sniffer<X>, l: Layer<X>, tr: seq<LayerIn>, s: Input)
    requires |l.gear.buf| == 16
    decreases |tr|
  {
    tr == [] ||
    ((tr[0].valid ==> Brings(s, tr[0].beat)) &&
     LayerFeeds(sniff, LayerStep(sniff, l, tr[0]), tr[1..], LayerAfter(l, tr[0], s)))
  }

  function LayerEnd<X>(sniff: Sniffer<X>, l: Layer<X>, tr: seq<LayerIn>): (e: Layer<X>)
    requires |l.gear.buf| == 16
    ensures |e.gear.buf| == 16
    decreases |tr|
  {
    if tr == [] then l else LayerEnd(sniff, LayerStep(sniff, l, tr[0]), tr[1..])
  }

  function LayerEndInput<X>(sniff: Sniffer<X>, l: Layer<X>, tr: seq<LayerIn>, s: Input): Input
    requires |l.gear.buf| == 16
    decreases |tr|
  {
    if tr == [] then s else LayerEndInput(sniff, LayerStep(sniff, l, tr[0]), tr[1..], LayerAfter(l, tr[0], s))
  }

  function LayerTaken<X>(sniff: Sniffer<X>, l: Layer<X>, tr: seq<LayerIn>): seq<Out>
    requires |l.gear.buf| == 16
    decreases |tr|
  {
    if tr == [] then [] else Takes(l.gear, tr[0].mReady) + LayerTaken(sniff, LayerStep(sniff, l, tr[0]), tr[1..])
  }

  // For every list of frames in scope, every idle and stall schedule: what was taken, followed by what
  // is still to leave, is what was to leave at the start.
  lemma {:induction false} LayerTraceConserves<X(!new)>(
      sniff: Sniffer<X>, decide: seq<Byte> -> Ctl, scope: seq<Byte> -> bool, good: (X, nat, seq<Byte>) -> bool,
      l: Layer<X>, tr: seq<LayerIn>, s: Input)
    requires Sound(sniff, decide, scope, good) && LayerOk(decide, scope, good, l, s) && LayerFeeds(sniff, l, tr, s)
    ensures var e, z := LayerEnd(sniff, l, tr), LayerEndInput(sniff, l, tr, s);
            && LayerOk(decide, scope, good, e, z)
            && LayerFuture(decide, l, s) == LayerTaken(sniff, l, tr) + LayerFuture(decide, e, z)
    decreases |tr|
  {
    hide LayerStep, LayerFuture, Takes, Brings, LayerOk, Sound, LayerAfter;
    LayerSized(decide, scope, good, l, s);
    if tr != [] {
      LayerConserves(sniff, decide, scope, good, l, tr[0], s);
      var l', s' := LayerStep(sniff, l, tr[0]), LayerAfter(l, tr[0], s);
      LayerTraceConserves(sniff, decide, scope, good, l', tr[1..], s');
      var e, z := LayerEnd(sniff, l', tr[1..]), LayerEndInput(sniff, l', tr[1..], s');
      LayerSized(decide, scope, good, e, z);
      Associate(Takes(l.gear, tr[0].mReady), LayerTaken(sniff, l', tr[1..]), LayerFuture(decide, e, z));
    }
  }

  lemma LayerSized<X>(decide: seq<Byte> -> Ctl, scope: seq<Byte> -> bool, good: (X, nat, seq<Byte>) -> bool,
                      l: Layer<X>, s: Input)
    requires LayerOk(decide, scope, good, l, s)
    ensures |l.gear.buf| == 16 && l.gear.cnt <= 16 && s.n <= |s.f|
  {
    hide HeldOk, InScope, Aligned;
  }

  // A layer at reset, with a stream of whole frames in front of it.
  function ResetLayer<X>(x: X): Layer<X> {
    Layer(false, [], 0, Ctl(0, 0, false), x, ResetGear())
  }

  lemma ResetOk<X>(decide: seq<Byte> -> Ctl, scope: seq<Byte> -> bool, good: (X, nat, seq<Byte>) -> bool,
                   x: X, fs: seq<seq<Byte>>)
    requires forall k | 0 <= k < |fs| :: fs[k] != [] && scope(fs[k])
    ensures LayerOk(decide, scope, good, ResetLayer(x), Input([], 0, fs))
    ensures LayerFuture(decide, ResetLayer(x), Input([], 0, fs)) == PackAll(Slices(Jobs(decide, fs)))
  {
    FutureOfIdle(ResetGear(), Rem([], Jobs(decide, fs)));
  }

  // ---- from one layer to the next ----

  // The stream still to come starts with the beat on offer: it is the next beat the receiver expects.
  lemma Link(s: Input, b: Beat, rest: seq<Out>)
    requires InputOk(s) && Aligned(b) && RestBeats(s) == [See(b)] + rest
    ensures Brings(s, b) && After(s).n <= |After(s).f| && InputOk(After(s)) && RestBeats(After(s)) == rest
  {
    hide KeptFrom, Pack, PackAll;
    if s.n < |s.f| {
      LinkFrame(s.f, s.n, See(b), PackAll(s.later), rest);
    } else {
      PackEmpty();
      assert s.f[s.n..] == [];
      assert [] + PackAll(s.later) == PackAll(s.later);
      LinkLater(s.later, See(b), rest);
    }
  }

  lemma LinkFrame(f: seq<Byte>, n: nat, o: Out, more: seq<Out>, rest: seq<Out>)
    requires n < |f| && n % 8 == 0 && Pack(f[n..]) + more == [o] + rest
    ensures o == NextBeat(f, n) && Pack(f[Move(f, n)..]) + more == rest
    ensures Move(f, n) < |f| ==> Move(f, n) % 8 == 0
  {
    var p := f[n..];
    PackUnfold(p);
    PackEmpty();
    hide Pack;
    assert f[Move(f, n)..] == if |p| <= 8 then [] else p[8..];
    assert (Pack(p) + more)[0] == o && (Pack(p) + more)[1..] == rest;
    if |p| <= 8 {
      assert ([Out(p, true)] + more)[1..] == more == [] + more;
    } else {
      assert f[n..n + 8] == p[..8];
      assert ([Out(p[..8], false)] + Pack(p[8..]) + more)[1..] == Pack(p[8..]) + more;
    }
  }

  lemma LinkLater(later: seq<seq<Byte>>, o: Out, rest: seq<Out>)
    requires (forall k | 0 <= k < |later| :: later[k] != []) && PackAll(later) == [o] + rest
    ensures later != [] && o == NextBeat(later[0], 0)
    ensures Pack(later[0][Move(later[0], 0)..]) + PackAll(later[1..]) == rest
    ensures Move(later[0], 0) < |later[0]| ==> Move(later[0], 0) % 8 == 0
  {
    assert later != [];
    assert later[0][0..] == later[0];
    LinkFrame(later[0], 0, o, PackAll(later[1..]), rest);
  }
}
