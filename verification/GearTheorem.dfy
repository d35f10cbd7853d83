// The gearbox on every input trace and every stall schedule.
module GearTheorems {
  import opened Bytes
  import opened Axis
  import opened Gearboxes

  function Staged(g: Gear): seq<Byte>
    requires |g.buf| == 16 && g.cnt <= 16
  {
    g.buf[..g.cnt]
  }

  // What holds in every reachable state: less than a beat stays staged.
  ghost predicate GearOk(g: Gear) {
    && |g.buf| == 16 && g.cnt < 8
    && (!g.inFrame && g.cnt > 0 ==> g.doneQ)
    && (g.inFrame && g.skipQ > 0 ==> g.cnt == 0)
    && (g.dropQ ==> g.cnt == 0)
    && (g.inFrame ==> (g.doneQ <==> g.boundedQ && g.leftQ == 0))
    && (g.mValid ==> Aligned(g.mBeat))
  }

  // ---- the input still to come: the rest of the open frame, then whole frames ----

  datatype Rem = Rem(cur: seq<Byte>, jobs: seq<Job>)

  function Slices(js: seq<Job>): seq<seq<Byte>> {
    seq(|js|, k requires 0 <= k < |js| => Slice(js[k]))
  }

  // A frame is open exactly while it has bytes to come; a frame that has not begun is not empty.
  ghost predicate Fits(g: Gear, r: Rem) {
    (g.inFrame <==> r.cur != []) && forall k | 0 <= k < |r.jobs| :: r.jobs[k].frame != []
  }

  // The accepted beat carries the next bytes, and ends the frame exactly when they are its last; the
  // first beat comes with the frame's control word, of which only `drop` matters when it is set.
  ghost predicate Delivers(g: Gear, i: In, r: Rem) {
    var k := Kept(i.beat);
    if g.inFrame then k <= r.cur && (i.beat.last <==> k == r.cur)
    else
      && r.jobs != [] && k <= r.jobs[0].frame && (i.beat.last <==> k == r.jobs[0].frame)
      && i.drop == r.jobs[0].drop && (!i.drop ==> i.skip == r.jobs[0].skip && i.keepLen == r.jobs[0].keepLen)
  }

  function Advance(g: Gear, i: In, r: Rem): Rem {
    var k := |Kept(i.beat)|;
    if !Accepts(g, i) then r
    else if g.inFrame then (if k <= |r.cur| then r.(cur := r.cur[k..]) else r)
    else if r.jobs != [] && k <= |r.jobs[0].frame| then Rem(r.jobs[0].frame[k..], r.jobs[1..])
    else r
  }

  // ---- the output still to come ----

  function Offered(g: Gear): seq<Out> {
    if g.mValid then [See(g.mBeat)] else []
  }

  // Payload bytes of the current frame that are not emitted: staged already, or still to come.
  function Todo(g: Gear, cur: seq<Byte>): seq<Byte>
    requires |g.buf| == 16 && g.cnt <= 16
  {
    Staged(g) + Payload(cur, g.skipQ, g.boundedQ, g.leftQ, g.dropQ)
  }

  function Future(g: Gear, r: Rem): seq<Out>
    requires |g.buf| == 16 && g.cnt <= 16
  {
    Offered(g) + Pack(Todo(g, r.cur)) + PackAll(Slices(r.jobs))
  }

  // The beat that changes hands in this cycle.
  function Takes(g: Gear, mReady: bool): seq<Out> {
    if g.mValid && mReady then [See(g.mBeat)] else []
  }

  // ---- gathering ----

  // n has gathered what arrived; t is the payload still to come in the current frame.
  ghost predicate Collected(n: Gear, t: seq<Byte>) {
    && |n.buf| == 16 && n.cnt <= 16
    && (n.doneQ ==> t == []) && (!n.doneQ && n.cnt > 0 ==> t != []) && (n.dropQ ==> n.cnt == 0)
  }

  function Rest(n: Gear, cur: seq<Byte>): seq<Byte> {
    Payload(cur, n.skipQ, n.boundedQ, n.leftQ, n.dropQ)
  }

  lemma PayloadNone(skip: nat, bounded: bool, left: nat, drop: bool)
    ensures Payload([], skip, bounded, left, drop) == []
  {
  }

  lemma PayloadEmptiness(y: seq<Byte>, skip: nat, bounded: bool, left: nat, drop: bool)
    ensures y == [] || drop || (bounded && left == 0) || |y| <= skip ==> Payload(y, skip, bounded, left, drop) == []
    ensures y != [] && skip == 0 && !drop && !(bounded && left == 0) ==> Payload(y, skip, bounded, left, drop) != []
  {
  }

  // c after gathering a beat.
  function TakeIn(c: Gear, b: Beat): Gear {
    var a := Gather(Acc(c.buf, c.cnt, c.skipQ, c.leftQ), b, 0, c.dropQ, c.boundedQ);
    c.(buf := a.buf, cnt := a.cnt, skipQ := a.skip, leftQ := a.left,
       doneQ := c.doneQ || (c.boundedQ && a.left == 0) || b.last)
  }

  // What gathering does to the bytes and to the counters.
  lemma TakeBytes(c: Gear, b: Beat, x: seq<Byte>)
    requires |c.buf| == 16 && c.cnt < 8 && Kept(b) <= x
    ensures var n, k, y := TakeIn(c, b), Kept(b), x[|Kept(b)|..];
            var p := Payload(k, c.skipQ, c.boundedQ, c.leftQ, c.dropQ);
            && |n.buf| == 16 && n.cnt == c.cnt + |p| && |p| <= 8
            && Staged(n) + Rest(n, y) == Staged(c) + Rest(c, x)
            && n.skipQ == (if |k| < c.skipQ then c.skipQ - |k| else 0)
            && (c.boundedQ ==> |p| <= c.leftQ) && n.leftQ == if c.boundedQ then c.leftQ - |p| else c.leftQ
  {
    hide Gather, KeptFrom, Payload;
    var k, y := Kept(b), x[|Kept(b)|..];
    GatherIsPayload(Acc(c.buf, c.cnt, c.skipQ, c.leftQ), b, 0, c.dropQ, c.boundedQ);
    PayloadSize(k, c.skipQ, c.boundedQ, c.leftQ, c.dropQ);
    PayloadCut(k, y, c.skipQ, c.boundedQ, c.leftQ, c.dropQ);
    assert x == k + y;
    Associate(c.buf[..c.cnt], Payload(k, c.skipQ, c.boundedQ, c.leftQ, c.dropQ), Rest(TakeIn(c, b), y));
  }

  lemma Associate<T>(a: seq<T>, b: seq<T>, c: seq<T>)
    ensures a + (b + c) == (a + b) + c
  {
  }

  lemma PayloadSize(k: seq<Byte>, skip: nat, bounded: bool, left: nat, drop: bool)
    ensures |Payload(k, skip, bounded, left, drop)| <= |k|
  {
  }

  lemma TakeBeat(c: Gear, b: Beat, x: seq<Byte>)
    requires |c.buf| == 16 && c.cnt < 8 && Kept(b) <= x
    requires c.skipQ > 0 || c.dropQ ==> c.cnt == 0
    requires c.doneQ ==> c.boundedQ && c.leftQ == 0
    requires b.last <==> Kept(b) == x
    ensures var n, y := TakeIn(c, b), x[|Kept(b)|..];
            && n.cnt < 16 && Collected(n, Rest(n, y)) && Staged(n) + Rest(n, y) == Staged(c) + Rest(c, x)
            && (n.skipQ > 0 ==> n.cnt == 0)
            && (b.last <==> y == [])
            && (!b.last ==> (n.doneQ <==> n.boundedQ && n.leftQ == 0))
  {
    var n, k, y := TakeIn(c, b), Kept(b), x[|Kept(b)|..];
    TakeBytes(c, b, x);
    PayloadEmptiness(k, c.skipQ, c.boundedQ, c.leftQ, c.dropQ);
    PayloadEmptiness(y, n.skipQ, n.boundedQ, n.leftQ, n.dropQ);
    hide Payload, Gather, KeptFrom, Staged;
  }

  // ---- emitting ----

  // The head of a packed frame, given that t is empty exactly when s is all that is left.
  lemma PackHead(s: seq<Byte>, t: seq<Byte>)
    requires |s| >= 8
    ensures Pack(s + t) == [Out(s[..8], s[8..] + t == [])] + Pack(s[8..] + t)
  {
    hide Pack;
    var x := s + t;
    assert x[..8] == s[..8] && x[8..] == s[8..] + t;
    PackUnfold(x);
    if |x| == 8 {
      assert x[..8] == x && x[8..] == [];
      PackEmpty();
    }
  }

  lemma PackEmpty()
    ensures Pack([]) == []
  {
  }

  lemma KeptFirst(lanes: seq<Byte>, n: nat, last: bool)
    requires |lanes| == 8 && 0 < n <= 8 && (n < 8 ==> last)
    ensures var b: Beat := RawBeat(lanes, KeepMask(n), last);
            See(b) == Out(lanes[..n], last) && Aligned(b)
  {
    var b: Beat := RawBeat(lanes, KeepMask(n), last);
    AlignedKept(b, 0);
    assert |Kept(b)| == n by {
      assert n < 8 ==> !b.keep[n];
      assert b.keep[n - 1];
    }
  }

  // The conclusion of the three cases of emitting.
  ghost predicate EmitOk(n: Gear, e: Gear, t: seq<Byte>, mReady: bool) {
    && |n.buf| == 16 && n.cnt <= 16 && |e.buf| == 16 && e.cnt <= 16
    && Offered(n) + Pack(Staged(n) + t) == Takes(n, mReady) + (Offered(e) + Pack(Staged(e) + t))
    && (OutFree(n, mReady) ==> e.cnt < 8 && (e.cnt > 0 ==> n.cnt > 0))
    && (!OutFree(n, mReady) ==> e == n)
    && (e.mValid ==> Aligned(e.mBeat))
  }

  lemma EmitFull(n: Gear, t: seq<Byte>, mReady: bool)
    requires Collected(n, t) && 8 <= n.cnt < 16 && OutFree(n, mReady)
    ensures EmitOk(n, Emitted(n, true, mReady), t, mReady)
  {
    hide Pack, KeptFrom;
    var e, s := Emitted(n, true, mReady), Staged(n);
    PackHead(s, t);
    KeptFirst(n.buf[..8], 8, n.doneQ && n.cnt == 8);
    assert n.buf[..8][..8] == s[..8];
    assert Staged(e) == s[8..];
    assert n.doneQ && n.cnt == 8 <==> s[8..] + t == [];
    assert Offered(e) == [Out(s[..8], s[8..] + t == [])];
    assert Offered(n) == Takes(n, mReady);
  }

  lemma EmitTail(n: Gear, t: seq<Byte>, mReady: bool)
    requires Collected(n, t) && 0 < n.cnt < 8 && n.doneQ && OutFree(n, mReady)
    ensures EmitOk(n, Emitted(n, true, mReady), t, mReady)
  {
    hide Pack, KeptFrom;
    var e, s := Emitted(n, true, mReady), Staged(n);
    KeptFirst(n.buf[..8], n.cnt, true);
    assert n.buf[..8][..n.cnt] == s;
    PackUnfold(s);
    PackEmpty();
    assert s + t == s && Staged(e) + t == [];
  }

  lemma EmitNone(n: Gear, t: seq<Byte>, mReady: bool)
    requires Collected(n, t) && (n.mValid ==> Aligned(n.mBeat)) && n.cnt < 16
    requires OutFree(n, mReady) ==> n.cnt == 0 || (n.cnt < 8 && !n.doneQ)
    ensures EmitOk(n, Emitted(n, OutFree(n, mReady), mReady), t, mReady)
  {
    hide Pack, KeptFrom;
  }

  lemma EmitStep(n: Gear, t: seq<Byte>, mReady: bool)
    requires Collected(n, t) && n.cnt < 16 && (n.mValid ==> Aligned(n.mBeat))
    ensures EmitOk(n, Emitted(n, OutFree(n, mReady), mReady), t, mReady)
  {
    hide Emitted, EmitOk;
    if OutFree(n, mReady) && n.cnt >= 8 {
      EmitFull(n, t, mReady);
    } else if OutFree(n, mReady) && n.doneQ && n.cnt != 0 {
      EmitTail(n, t, mReady);
    } else {
      EmitNone(n, t, mReady);
    }
  }

  // ---- one cycle ----

  // Every cycle conserves the stream: what leaves, and what is still to leave afterwards, is what was to leave.
  lemma StepConserves(g: Gear, i: In, r: Rem)
    requires GearOk(g) && Fits(g, r) && (Accepts(g, i) ==> Delivers(g, i, r))
    ensures var g', r' := Step(g, i), Advance(g, i, r);
            && GearOk(g') && Fits(g', r')
            && Future(g, r) == Takes(g, i.mReady) + Future(g', r')
  {
    hide Pack, PackAll, Payload, KeptFrom, Gather, Emitted;
    var n, r' := Gathered(g, i), Advance(g, i, r);
    CollectStep(g, i, r);
    EmitStep(n, Rest(n, r'.cur), i.mReady);
    var e := Emitted(n, OutFree(g, i.mReady), i.mReady);
    EmitKeeps(n, OutFree(g, i.mReady), i.mReady);
    hide Offered, Takes, Slices;
    Regroup(Offered(g), Pack(Todo(g, r.cur)), PackAll(Slices(r.jobs)), Pack(Staged(n) + Rest(n, r'.cur)),
            PackAll(Slices(r'.jobs)), Takes(g, i.mReady), Offered(e), Pack(Staged(e) + Rest(n, r'.cur)));
    RestAfter(Step(g, i), n, r'.cur, Accepts(g, i) && i.beat.last);
  }

  lemma Regroup<T>(o: seq<T>, p: seq<T>, a: seq<T>, pn: seq<T>, a': seq<T>, t: seq<T>, o': seq<T>, p': seq<T>)
    requires p + a == pn + a' && o + pn == t + (o' + p')
    ensures o + p + a == t + (o' + p' + a')
  {
    assert o + p + a == o + (p + a);
    assert o + (pn + a') == (o + pn) + a';
    assert (t + (o' + p')) + a' == t + (o' + p' + a');
  }

  // Closing a frame clears two registers nobody looks at until the next one.
  lemma RestAfter(g: Gear, n: Gear, cur: seq<Byte>, last: bool)
    requires g.boundedQ == n.boundedQ && g.dropQ == n.dropQ
    requires if last then cur == [] else g.skipQ == n.skipQ && g.leftQ == n.leftQ
    ensures Rest(g, cur) == Rest(n, cur)
  {
  }

  lemma EmitKeeps(n: Gear, outFree: bool, mReady: bool)
    requires |n.buf| == 16
    ensures var e := Emitted(n, outFree, mReady);
            && e.inFrame == n.inFrame && e.dropQ == n.dropQ && e.boundedQ == n.boundedQ
            && e.doneQ == n.doneQ && e.skipQ == n.skipQ && e.leftQ == n.leftQ
            && (n.cnt == 0 ==> e.cnt == 0) && (!outFree ==> e.cnt == n.cnt)
  {
  }

  // Gathering conserves the payload and establishes what emitting needs.
  lemma CollectStep(g: Gear, i: In, r: Rem)
    requires GearOk(g) && Fits(g, r) && (Accepts(g, i) ==> Delivers(g, i, r))
    ensures var n, r' := Gathered(g, i), Advance(g, i, r);
            var t := Rest(n, r'.cur);
            && Collected(n, t) && n.cnt < 16
            && n.mValid == g.mValid && n.mBeat == g.mBeat && n.inFrame == g.inFrame
            && Pack(Todo(g, r.cur)) + PackAll(Slices(r.jobs)) == Pack(Staged(n) + t) + PackAll(Slices(r'.jobs))
            && (!Accepts(g, i) ==> n == g)
            && (Accepts(g, i) ==>
                  && (i.beat.last <==> r'.cur == [])
                  && (n.skipQ > 0 ==> n.cnt == 0)
                  && (i.beat.last ==> n.doneQ)
                  && (!i.beat.last ==> (n.doneQ <==> n.boundedQ && n.leftQ == 0)))
  {
    hide Pack, PackAll, Payload, KeptFrom, Gather, Slice, Collected;
    if !Accepts(g, i) {
      CollectIdle(g, r);
    } else if g.inFrame {
      CollectMore(g, i, r);
    } else {
      CollectFirst(g, i, r);
      PackEmpty();
      PackFirst(r.jobs[0], r.jobs[1..]);
      assert [r.jobs[0]] + r.jobs[1..] == r.jobs;
      assert Pack(Todo(g, r.cur)) + PackAll(Slices(r.jobs)) == PackAll(Slices(r.jobs));
    }
  }

  lemma CollectIdle(g: Gear, r: Rem)
    requires GearOk(g) && Fits(g, r)
    ensures Collected(g, Rest(g, r.cur))
  {
  }

  lemma CollectMore(g: Gear, i: In, r: Rem)
    requires GearOk(g) && Fits(g, r) && Accepts(g, i) && Delivers(g, i, r) && g.inFrame
    ensures var n, y := TakeIn(g, i.beat), Advance(g, i, r).cur;
            && Gathered(g, i) == n
            && n.cnt < 16 && Collected(n, Rest(n, y)) && Staged(n) + Rest(n, y) == Todo(g, r.cur)
            && (n.skipQ > 0 ==> n.cnt == 0)
            && (i.beat.last <==> y == [])
            && (!i.beat.last ==> (n.doneQ <==> n.boundedQ && n.leftQ == 0))
  {
    hide Payload, KeptFrom, Collected;
    TakeBeat(g, i.beat, r.cur);
  }

  // The first beat of a frame finds nothing staged.
  lemma CollectFirst(g: Gear, i: In, r: Rem)
    requires GearOk(g) && Fits(g, r) && Accepts(g, i) && Delivers(g, i, r) && !g.inFrame
    ensures var c := Control(g, i);
            var n, y := TakeIn(c, i.beat), Advance(g, i, r).cur;
            && Gathered(g, i) == n
            && n.cnt < 16 && Collected(n, Rest(n, y)) && Staged(n) + Rest(n, y) == Slice(r.jobs[0])
            && Todo(g, r.cur) == []
            && (n.skipQ > 0 ==> n.cnt == 0)
            && (i.beat.last <==> y == [])
            && (!i.beat.last ==> (n.doneQ <==> n.boundedQ && n.leftQ == 0))
  {
    PayloadNone(g.skipQ, g.boundedQ, g.leftQ, g.dropQ);
    var c := Control(g, i);
    assert Slice(r.jobs[0]) == Rest(c, r.jobs[0].frame);
    hide Payload, KeptFrom, Collected;
    TakeBeat(c, i.beat, r.jobs[0].frame);
    assert Staged(c) == [] && Staged(g) == [];
  }

  lemma PackFirst(j: Job, js: seq<Job>)
    ensures PackAll(Slices([j] + js)) == Pack(Slice(j)) + PackAll(Slices(js))
  {
    assert Slices([j] + js) == [Slice(j)] + Slices(js);
    assert ([Slice(j)] + Slices(js))[1..] == Slices(js);
  }

  // ---- whole traces ----

  // Along the trace, every accepted beat delivers the next bytes of the remaining input.
  ghost predicate Feeds(g: Gear, tr: seq<In>, r: Rem)
    requires |g.buf| == 16
    decreases |tr|
  {
    tr == [] ||
    ((Accepts(g, tr[0]) ==> Delivers(g, tr[0], r)) && Feeds(Step(g, tr[0]), tr[1..], Advance(g, tr[0], r)))
  }

  function End(g: Gear, tr: seq<In>): (e: Gear)
    requires |g.buf| == 16
    ensures |e.buf| == 16
    decreases |tr|
  {
    if tr == [] then g else End(Step(g, tr[0]), tr[1..])
  }

  function EndRem(g: Gear, tr: seq<In>, r: Rem): Rem
    requires |g.buf| == 16
    decreases |tr|
  {
    if tr == [] then r else EndRem(Step(g, tr[0]), tr[1..], Advance(g, tr[0], r))
  }

  // The beats the receiver took, in order.
  function Taken(g: Gear, tr: seq<In>): seq<Out>
    requires |g.buf| == 16
    decreases |tr|
  {
    if tr == [] then [] else Takes(g, tr[0].mReady) + Taken(Step(g, tr[0]), tr[1..])
  }

  lemma {:induction false} TraceConserves(g: Gear, tr: seq<In>, r: Rem)
    requires GearOk(g) && Fits(g, r) && Feeds(g, tr, r)
    ensures GearOk(End(g, tr)) && Fits(End(g, tr), EndRem(g, tr, r))
    ensures Future(g, r) == Taken(g, tr) + Future(End(g, tr), EndRem(g, tr, r))
    decreases |tr|
  {
    hide Step, Future, Advance, Takes;
    if tr != [] {
      StepConserves(g, tr[0], r);
      var g', r' := Step(g, tr[0]), Advance(g, tr[0], r);
      TraceConserves(g', tr[1..], r');
      var t, u, f := Takes(g, tr[0].mReady), Taken(g', tr[1..]), Future(End(g', tr[1..]), EndRem(g', tr[1..], r'));
      assert t + (u + f) == (t + u) + f;
    }
  }

  // The contract of the gearbox, from reset, for every list of frames with their own control words,
  // every cutting into beats with any keep masks, every idle and stall schedule: what was taken,
  // followed by what is still to leave, is the packed slices, frame by frame.
  lemma GearContract(jobs: seq<Job>, tr: seq<In>)
    requires forall k | 0 <= k < |jobs| :: jobs[k].frame != []
    requires Feeds(ResetGear(), tr, Rem([], jobs))
    ensures var e, r := End(ResetGear(), tr), EndRem(ResetGear(), tr, Rem([], jobs));
            && GearOk(e)
            && PackAll(Slices(jobs)) == Taken(ResetGear(), tr) + Future(e, r)
            && (r.cur == [] && r.jobs == [] && e.cnt == 0 && !e.mValid ==>
                  Frames(Taken(ResetGear(), tr), []) == (NonEmpty(Slices(jobs)), []))
  {
    var r0 := Rem([], jobs);
    TraceConserves(ResetGear(), tr, r0);
    FutureOfIdle(ResetGear(), r0);
    FramesOfPackAll(Slices(jobs));
    var e, r := End(ResetGear(), tr), EndRem(ResetGear(), tr, r0);
    FutureOfIdle(e, r);
    if r.cur == [] && r.jobs == [] && e.cnt == 0 && !e.mValid {
      assert Taken(ResetGear(), tr) + [] == Taken(ResetGear(), tr);
    }
  }

  // With nothing staged, offered or open, only whole frames are to come.
  lemma FutureOfIdle(g: Gear, r: Rem)
    requires |g.buf| == 16 && g.cnt <= 16
    ensures g.cnt == 0 && !g.mValid && r.cur == [] ==> Future(g, r) == PackAll(Slices(r.jobs))
    ensures g.cnt == 0 && !g.mValid && r.cur == [] && r.jobs == [] ==> Future(g, r) == []
  {
    if g.cnt == 0 && !g.mValid && r.cur == [] {
      PayloadNone(g.skipQ, g.boundedQ, g.leftQ, g.dropQ);
      assert Todo(g, []) == [];
    }
  }

  // ---- handshake ----

  // An offered beat does not change, and stays offered, until it is taken.
  lemma OfferedIsStable(g: Gear, i: In)
    requires |g.buf| == 16 && g.mValid && !i.mReady
    ensures Step(g, i).mValid && Step(g, i).mBeat == g.mBeat && !Accepts(g, i)
  {
  }

  // With the receiver ready, input ready is never low twice running: no residue is stranded.
  lemma NeverStrands(g: Gear, i: In, i': In)
    requires GearOk(g) && i.mReady && i'.mReady
    ensures SReady(g, true) || SReady(Step(g, i), true)
  {
  }
}
