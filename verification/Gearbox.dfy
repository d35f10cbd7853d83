// The gearbox (fpga/rtl/axis_skip_align.v): drop leading bytes of a frame, trim its tail, and realign
// the rest to lane 0.
module Gearboxes {
  import opened Bytes
  import opened Axis

  // The registers.
  datatype Gear = Gear(
    buf: seq<Byte>, cnt: nat,                      // sixteen bytes of staging, cnt of them in use
    inFrame: bool, dropQ: bool, boundedQ: bool, doneQ: bool, skipQ: nat, leftQ: nat,
    mValid: bool, mBeat: Beat)

  // One cycle's inputs.
  datatype In = In(valid: bool, beat: Beat, skip: nat, keepLen: nat, drop: bool, mReady: bool)

  function ResetGear(): Gear {
    Gear(seq(16, _ => 0), 0, false, false, false, false, 0, 0,
         false, RawBeat(seq(8, _ => 0), seq(8, _ => false), false))
  }

  predicate Residue(g: Gear) {
    g.doneQ && g.cnt != 0
  }

  predicate OutFree(g: Gear, mReady: bool) {
    !g.mValid || mReady
  }

  predicate SReady(g: Gear, mReady: bool) {
    !Residue(g) && g.cnt <= 8 && OutFree(g, mReady)
  }

  predicate Accepts(g: Gear, i: In) {
    i.valid && SReady(g, i.mReady)
  }

  // ---- gather: append the payload bytes of a beat, a lane at a time ----

  datatype Acc = Acc(buf: seq<Byte>, cnt: nat, skip: nat, left: nat)

  function GatherLane(a: Acc, x: Byte, drop: bool, bounded: bool): (r: Acc)
    ensures |r.buf| == |a.buf|
  {
    if a.skip != 0 then a.(skip := a.skip - 1)
    else if !drop && (!bounded || a.left != 0) then
      Acc(if a.cnt < |a.buf| then a.buf[a.cnt := x] else a.buf, (a.cnt + 1) % 32,
          0, if bounded then a.left - 1 else a.left)
    else a
  }

  function Gather(a: Acc, b: Beat, j: nat, drop: bool, bounded: bool): (r: Acc)
    requires j <= 8
    ensures |r.buf| == |a.buf|
    decreases 8 - j
  {
    if j == 8 then a
    else Gather(if b.keep[j] then GatherLane(a, b.lanes[j], drop, bounded) else a, b, j + 1, drop, bounded)
  }

  // ---- the cycle ----

  predicate First(g: Gear, i: In) {
    Accepts(g, i) && !g.inFrame
  }

  // Control: from the ports on the first beat of a frame, from the registers thereafter.
  function Control(g: Gear, i: In): Gear {
    if First(g, i) then
      g.(skipQ := i.skip, leftQ := i.keepLen, boundedQ := i.keepLen != 0, dropQ := i.drop, doneQ := false)
    else g
  }

  // After gathering, before emitting.
  function Gathered(g: Gear, i: In): Gear {
    var c := Control(g, i);
    if Accepts(g, i) then
      var a := Gather(Acc(c.buf, c.cnt, c.skipQ, c.leftQ), i.beat, 0, c.dropQ, c.boundedQ);
      c.(buf := a.buf, cnt := a.cnt, skipQ := a.skip, leftQ := a.left,
         doneQ := c.doneQ || (c.boundedQ && a.left == 0) || i.beat.last)
    else c
  }

  // Lanes 0 up to n.
  function KeepMask(n: nat): (k: seq<bool>)
    ensures |k| == 8 && forall j | 0 <= j < 8 :: k[j] == (j < n)
  {
    seq(8, j => j < n)
  }

  function FirstLanes(buf: seq<Byte>): seq<Byte>
    requires |buf| == 16
  {
    buf[..8]
  }

  function Shifted(buf: seq<Byte>): seq<Byte>
    requires |buf| == 16
  {
    buf[8..] + seq(8, _ => 0)
  }

  // Emit a full beat, or the short tail of a finished payload, if the output register is free.
  function Emitted(n: Gear, outFree: bool, mReady: bool): Gear
    requires |n.buf| == 16
  {
    var m := if n.mValid && mReady then n.(mValid := false) else n;
    if outFree && !n.dropQ then
      if n.cnt >= 8 then
        m.(buf := Shifted(n.buf), cnt := n.cnt - 8, mValid := true,
           mBeat := RawBeat(FirstLanes(n.buf), KeepMask(8), n.doneQ && n.cnt == 8))
      else if n.doneQ && n.cnt != 0 then
        m.(cnt := 0, mValid := true,
           mBeat := RawBeat(FirstLanes(n.buf), KeepMask(n.cnt), true))
      else m
    else m
  }

  // One clock edge. The end of the input frame is what lets the next one start.
  function Step(g: Gear, i: In): (r: Gear)
    requires |g.buf| == 16
    ensures |r.buf| == 16
  {
    var n := Emitted(Gathered(g, i), OutFree(g, i.mReady), i.mReady);
    if Accepts(g, i) then
      n.(inFrame := !i.beat.last,
         skipQ := if i.beat.last then 0 else n.skipQ, leftQ := if i.beat.last then 0 else n.leftQ)
    else n
  }

  // The module, clocked: blocking temporaries walk the lanes, then the registers load.
  class AxisSkipAlign {
    var buf: seq<Byte>
    var cnt: nat
    var inFrame: bool
    var dropQ: bool
    var boundedQ: bool
    var doneQ: bool
    var skipQ: nat
    var leftQ: nat
    var mValid: bool
    var mBeat: Beat

    function Regs(): Gear
      reads this
    {
      Gear(buf, cnt, inFrame, dropQ, boundedQ, doneQ, skipQ, leftQ, mValid, mBeat)
    }

    constructor ()
      ensures Regs() == ResetGear()
    {
      buf, cnt, inFrame, dropQ, boundedQ, doneQ := seq(16, _ => 0), 0, false, false, false, false;
      skipQ, leftQ, mValid := 0, 0, false;
      mBeat := RawBeat(seq(8, _ => 0), seq(8, _ => false), false);
      new;
      assert buf == ResetGear().buf && mBeat == ResetGear().mBeat;
    }

    method Clock(i: In)
      requires |buf| == 16
      modifies this
      ensures |buf| == 16 && Regs() == Step(old(Regs()), i)
    {
      hide Gather, Emitted;
      ghost var g := Regs();
      var residue := doneQ && cnt != 0;
      var outFree := !mValid || i.mReady;
      var sReady := !residue && cnt <= 8 && outFree;
      var beat := i.valid && sReady;
      if beat {
        GatherBeat(i, !inFrame);
      }
      assert Regs() == Gathered(g, i);
      EmitBeat(outFree, i.mReady);
      if beat {
        inFrame := !i.beat.last;
        if i.beat.last {
          skipQ, leftQ := 0, 0;
        }
      }
    }

    // Control from the ports on the first beat of a frame, from the registers thereafter; then gather.
    method GatherBeat(i: In, firstBeat: bool)
      requires |buf| == 16
      modifies this
      ensures |buf| == 16
      ensures var g := old(Regs());
              var c := if firstBeat
                       then g.(skipQ := i.skip, leftQ := i.keepLen, boundedQ := i.keepLen != 0, dropQ := i.drop,
                               doneQ := false)
                       else g;
              var a := Gather(Acc(c.buf, c.cnt, c.skipQ, c.leftQ), i.beat, 0, c.dropQ, c.boundedQ);
              Regs() == c.(buf := a.buf, cnt := a.cnt, skipQ := a.skip, leftQ := a.left,
                           doneQ := c.doneQ || (c.boundedQ && a.left == 0) || i.beat.last)
    {
      hide Gather;
      if firstBeat {
        skipQ, leftQ, boundedQ, dropQ, doneQ := i.skip, i.keepLen, i.keepLen != 0, i.drop, false;
      }
      var a := GatherLanes(Acc(buf, cnt, skipQ, leftQ), i.beat, dropQ, boundedQ);
      buf, cnt, skipQ, leftQ := a.buf, a.cnt, a.skip, a.left;
      if (boundedQ && leftQ == 0) || i.beat.last {
        doneQ := true;
      }
    }

    // A full beat, or the short tail of a finished payload, moves to the output register.
    method EmitBeat(outFree: bool, mReady: bool)
      requires |buf| == 16
      modifies this`mValid, this`mBeat, this`buf, this`cnt
      ensures |buf| == 16 && Regs() == Emitted(old(Regs()), outFree, mReady)
    {
      if mValid && mReady {
        mValid := false;
      }
      if outFree && !dropQ {
        if cnt >= 8 {
          Load(buf, 8, doneQ && cnt == 8);
          buf, cnt := Shifted(buf), cnt - 8;
        } else if doneQ && cnt != 0 {
          Load(buf, cnt, true);
          cnt := 0;
        }
      }
    }

    // Append the payload bytes of one beat to the staging buffer, a lane at a time.
    method GatherLanes(a: Acc, b: Beat, drop: bool, bounded: bool) returns (r: Acc)
      ensures r == Gather(a, b, 0, drop, bounded)
    {
      var nbuf: seq<Byte> := a.buf;
      var ncnt: nat, nskip: nat, nleft: nat := a.cnt, a.skip, a.left;
      var j := 0;
      while j < 8
        invariant 0 <= j <= 8 && |nbuf| == |a.buf|
        invariant Gather(a, b, 0, drop, bounded) == Gather(Acc(nbuf, ncnt, nskip, nleft), b, j, drop, bounded)
      {
        if b.keep[j] {
          if nskip != 0 {
            nskip := nskip - 1;
          } else if !drop && (!bounded || nleft != 0) {
            if ncnt < |nbuf| {
              nbuf := nbuf[ncnt := b.lanes[j]];
            }
            ncnt := (ncnt + 1) % 32;
            if bounded {
              nleft := nleft - 1;
            }
          }
        }
        j := j + 1;
      }
      r := Acc(nbuf, ncnt, nskip, nleft);
    }

    // Fill the output register lane by lane.
    method Load(ebuf: seq<Byte>, n: nat, last: bool)
      requires |ebuf| == 16 && n <= 8
      modifies this`mValid, this`mBeat
      ensures mValid && mBeat == RawBeat(FirstLanes(ebuf), KeepMask(n), last)
    {
      var lanes: seq<Byte>, keep: seq<bool> := [], [];
      var m := 0;
      while m < 8
        invariant m <= 8 && lanes == ebuf[..m] && |keep| == m
        invariant forall k | 0 <= k < m :: keep[k] == (k < n)
      {
        lanes := lanes + [ebuf[m]];
        keep := keep + [m < n];
        m := m + 1;
      }
      assert keep == KeepMask(n);
      mBeat, mValid := RawBeat(lanes, keep, last), true;
    }
  }

  // ---- what a frame's payload is ----

  // The part of x that is payload when skip bytes are still to be dropped and `left` to be kept (0: no limit).
  function Payload(x: seq<Byte>, skip: nat, bounded: bool, left: nat, drop: bool): seq<Byte> {
    if drop || |x| <= skip then []
    else if bounded && left < |x| - skip then x[skip..skip + left]
    else x[skip..]
  }

  // A frame with its control word, and the one expression that is its contract.
  datatype Job = Job(skip: nat, keepLen: nat, drop: bool, frame: seq<Byte>)

  function Slice(j: Job): seq<Byte> {
    Payload(j.frame, j.skip, j.keepLen != 0, j.keepLen, j.drop)
  }

  // Cutting the input anywhere cuts the payload accordingly.
  lemma PayloadCut(x: seq<Byte>, y: seq<Byte>, skip: nat, bounded: bool, left: nat, drop: bool)
    ensures var p := Payload(x, skip, bounded, left, drop);
            && (bounded ==> |p| <= left)
            && Payload(x + y, skip, bounded, left, drop) ==
               p + Payload(y, if |x| < skip then skip - |x| else 0, bounded, if bounded then left - |p| else left, drop)
  {
    var p := Payload(x, skip, bounded, left, drop);
    if !drop && skip < |x + y| {
      if |x| <= skip {
        assert (x + y)[skip..] == y[skip - |x|..];
      } else {
        assert (x + y)[skip..] == x[skip..] + y;
      }
    }
  }

  // r is a after taking in the bytes k.
  ghost predicate TookIn(a: Acc, k: seq<Byte>, drop: bool, bounded: bool, r: Acc) {
    var p := Payload(k, a.skip, bounded, a.left, drop);
    && |a.buf| == |r.buf| == 16 && a.cnt <= 16 && r.cnt == a.cnt + |p| <= 16
    && r.buf[..r.cnt] == a.buf[..a.cnt] + p
    && r.skip == (if |k| < a.skip then a.skip - |k| else 0)
    && (bounded ==> |p| <= a.left) && r.left == if bounded then a.left - |p| else a.left
  }

  lemma LaneIsPayload(a: Acc, x: Byte, drop: bool, bounded: bool)
    requires |a.buf| == 16 && a.cnt < 16
    ensures TookIn(a, [x], drop, bounded, GatherLane(a, x, drop, bounded))
  {
  }

  lemma TookInThen(a: Acc, x: seq<Byte>, m: Acc, y: seq<Byte>, r: Acc, drop: bool, bounded: bool)
    requires TookIn(a, x, drop, bounded, m) && TookIn(m, y, drop, bounded, r)
    ensures TookIn(a, x + y, drop, bounded, r)
  {
    PayloadCut(x, y, a.skip, bounded, a.left, drop);
    hide Payload;
    var p, p' := Payload(x, a.skip, bounded, a.left, drop), Payload(y, m.skip, bounded, m.left, drop);
    assert (a.buf[..a.cnt] + p) + p' == a.buf[..a.cnt] + (p + p');
  }

  // The lane loop collects exactly the payload of the beat's bytes.
  lemma {:induction false} GatherIsPayload(a: Acc, b: Beat, j: nat, drop: bool, bounded: bool)
    requires j <= 8 && |a.buf| == 16 && a.cnt + (8 - j) <= 16
    ensures |KeptFrom(b, j)| <= 8 - j
    ensures TookIn(a, KeptFrom(b, j), drop, bounded, Gather(a, b, j, drop, bounded))
    decreases 8 - j
  {
    hide GatherLane;
    if j < 8 {
      var a' := if b.keep[j] then GatherLane(a, b.lanes[j], drop, bounded) else a;
      if b.keep[j] {
        LaneIsPayload(a, b.lanes[j], drop, bounded);
        LaneCount(a, b.lanes[j], drop, bounded);
        GatherIsPayload(a', b, j + 1, drop, bounded);
        TookInThen(a, [b.lanes[j]], a', KeptFrom(b, j + 1), Gather(a', b, j + 1, drop, bounded), drop, bounded);
      } else {
        GatherIsPayload(a', b, j + 1, drop, bounded);
        assert KeptFrom(b, j) == KeptFrom(b, j + 1);
      }
    }
  }

  lemma LaneCount(a: Acc, x: Byte, drop: bool, bounded: bool)
    requires a.cnt < 16
    ensures GatherLane(a, x, drop, bounded).cnt <= a.cnt + 1
  {
  }
}
