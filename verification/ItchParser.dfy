// The streaming ITCH parser (fpga/rtl/itch_parser.v): a state machine over the byte lanes of each beat,
// and the field extraction from the completed message.
module ItchParsers {
  import opened Bytes
  import opened Messages
  import opened Axis
  import opened FrameBuild
  import opened ItchDecode

  const MAX_MSG: nat := 50

  datatype State = Len0 | Len1 | InBody

  // Registers.
  datatype Itch = Itch(st: State, mlen: nat, mcnt: nat, mbuf: seq<Byte>, decBuf: seq<Byte>, decLen: nat, valid: bool)

  // The blocking temporaries of one clock.
  datatype Walk = Walk(st: State, len: nat, cnt: nat, buf: seq<Byte>, dec: seq<Byte>, dlen: nat, got: bool)

  datatype ItchIn = ItchIn(valid: bool, beat: Beat)

  function ResetItch(): Itch {
    Itch(Len0, 0, 0, Zeros(MAX_MSG), Zeros(MAX_MSG), 0, false)
  }

  // One byte of the beat.
  function LaneStep(w: Walk, b: Byte): (r: Walk)
    ensures |r.buf| == |w.buf| && (|w.dec| == |w.buf| ==> |r.dec| == |w.buf|)
  {
    match w.st
    case Len0 => w.(len := b * 256 + w.len % 256, st := Len1)
    case Len1 =>
      var len := w.len / 256 * 256 + b;
      w.(len := len, cnt := 0, st := if len == 0 then Len0 else InBody)
    case InBody =>
      var buf := if w.cnt < |w.buf| then w.buf[w.cnt := b] else w.buf;
      var cnt := (w.cnt + 1) % 65536;
      if cnt == w.len then Walk(Len0, w.len, cnt, buf, buf, w.len, true)
      else w.(buf := buf, cnt := cnt)
  }

  function WalkLanes(w: Walk, b: Beat, j: nat): (r: Walk)
    requires j <= 8
    ensures |r.buf| == |w.buf| && (|w.dec| == |w.buf| ==> |r.dec| == |w.buf|)
    decreases 8 - j
  {
    if j == 8 then w else WalkLanes(if b.keep[j] then LaneStep(w, b.lanes[j]) else w, b, j + 1)
  }

  function ItchStep(s: Itch, i: ItchIn): (r: Itch)
    ensures |s.mbuf| == |s.decBuf| ==> |r.mbuf| == |r.decBuf| == |s.mbuf|
  {
    if !i.valid then s.(valid := false)
    else
      var w := WalkLanes(Walk(s.st, s.mlen, s.mcnt, s.mbuf, s.decBuf, s.decLen, false), i.beat, 0);
      Itch(w.st, w.len, w.cnt, w.buf, if w.got then w.dec else s.decBuf, if w.got then w.dlen else s.decLen, w.got)
  }

  // The module, clocked.
  class ItchParser {
    var st: State
    var mlen: nat
    var mcnt: nat
    var mbuf: seq<Byte>
    var decBuf: seq<Byte>
    var decLen: nat
    var msgValid: bool

    function Regs(): Itch
      reads this
    {
      Itch(st, mlen, mcnt, mbuf, decBuf, decLen, msgValid)
    }

    constructor ()
      ensures Regs() == ResetItch()
    {
      st, mlen, mcnt, mbuf, decBuf, decLen, msgValid := Len0, 0, 0, Zeros(MAX_MSG), Zeros(MAX_MSG), 0, false;
    }

    method Clock(i: ItchIn)
      modifies this
      ensures Regs() == ItchStep(old(Regs()), i)
    {
      hide LaneStep;
      msgValid := false;
      if i.valid {
        var w := Walk(st, mlen, mcnt, mbuf, decBuf, decLen, false);
        ghost var w0 := w;
        var j := 0;
        while j < 8
          invariant 0 <= j <= 8 && WalkLanes(w0, i.beat, 0) == WalkLanes(w, i.beat, j)
          modifies {}
        {
          if i.beat.keep[j] {
            w := Lane(w, i.beat.lanes[j]);
          }
          j := j + 1;
        }
        assert WalkLanes(w, i.beat, 8) == w;
        st, mlen, mcnt, mbuf := w.st, w.len, w.cnt, w.buf;
        if w.got {
          decBuf, decLen, msgValid := w.dec, w.dlen, true;
        }
      }
    }

    // The state machine, carried through one lane by the temporaries.
    static method Lane(w: Walk, b: Byte) returns (r: Walk)
      ensures r == LaneStep(w, b)
    {
      var stV, lenV, cntV, bufV := w.st, w.len, w.cnt, w.buf;
      var decV, dlenV, gotV := w.dec, w.dlen, w.got;
      match stV {
        case Len0 =>
          lenV, stV := b * 256 + lenV % 256, Len1;
        case Len1 =>
          lenV, cntV := lenV / 256 * 256 + b, 0;
          stV := if lenV == 0 then Len0 else InBody; // a zero length is padding
        case InBody =>
          if cntV < |bufV| {
            bufV := bufV[cntV := b];
          }
          cntV := (cntV + 1) % 65536;
          if cntV == lenV { // snapshot here: later lanes may start the next message
            decV, dlenV, stV, gotV := bufV, lenV, Len0, true;
          }
      }
      r := Walk(stV, lenV, cntV, bufV, decV, dlenV, gotV);
    }
  }

  // ---- field extraction ----

  function MinLen(kind: Byte): nat {
    if kind == TYPE_ADD then 36 else if kind == TYPE_ADD_MPID then 40 else if kind == TYPE_EXECUTED then 31
    else if kind == TYPE_EXECUTED_PRICE then 36 else if kind == TYPE_CANCEL then 23
    else if kind == TYPE_DELETE then 19 else if kind == TYPE_REPLACE then 35 else 0xFFFF
  }

  // msg_modeled and the field wires, from the snapshot.
  function Fields(db: seq<Byte>, len: nat): (bool, Message)
    requires |db| == MAX_MSG
  {
    var t := db[0];
    var full := Known(t) && len >= MinLen(t);
    var add := full && (t == TYPE_ADD || t == TYPE_ADD_MPID);
    var replace := full && t == TYPE_REPLACE;
    (full,
     Message(t,
             if full || (!Known(t) && len >= 11) then Be(db[5..11]) else 0,
             if full then Be(db[11..19]) else 0,
             if replace then Be(db[19..27]) else 0,
             if add then db[19] else 0,
             if add then Be(db[20..24])
             else if full && (t == TYPE_EXECUTED || t == TYPE_EXECUTED_PRICE || t == TYPE_CANCEL) then Be(db[19..23])
             else if replace then Be(db[27..31]) else 0,
             if full && (t == TYPE_ADD || t == TYPE_ADD_MPID || t == TYPE_EXECUTED_PRICE) then Be(db[32..36])
             else if replace then Be(db[31..35]) else 0,
             if add then db[24..32] else Zeros(8)))
  }

  // The snapshot shows a body: its length, and as much of it as fits; the rest may be stale.
  ghost predicate Shows(db: seq<Byte>, len: nat, body: seq<Byte>) {
    |db| == MAX_MSG && len == |body| && forall k | 0 <= k < MAX_MSG && k < |body| :: db[k] == body[k]
  }

  lemma SameField(db: seq<Byte>, body: seq<Byte>, i: nat, n: nat)
    requires Shows(db, |body|, body) && i + n <= |body| && i + n <= MAX_MSG
    ensures db[i..i + n] == body[i..i + n]
  {
  }

  // The wires agree with the software decode on every body, whatever is stale behind it: truncated known
  // types and unknown types included.
  lemma FieldsAreDecoded(db: seq<Byte>, body: seq<Byte>)
    requires Shows(db, |body|, body) && body != []
    ensures Fields(db, |body|) == Decoded(body)
  {
    hide Be;
    if |body| >= 11 { SameField(db, body, 5, 6); }
    if |body| >= 19 { SameField(db, body, 11, 8); }
    if |body| >= 23 { SameField(db, body, 19, 4); }
    if |body| >= 35 {
      SameField(db, body, 19, 8);
      SameField(db, body, 20, 4);
      SameField(db, body, 24, 8);
      SameField(db, body, 27, 4);
      SameField(db, body, 31, 4);
    }
    if |body| >= 36 { SameField(db, body, 32, 4); }
  }

  // ---- the stream of bytes, cut into bodies one byte at a time ----

  // t is what has arrived of a block so far.
  ghost predicate Partial(t: seq<Byte>) {
    |t| < 2 || |t| < 2 + U16(t, 0)
  }

  // After the next byte: does it complete the block, and what is then held of the current one?
  predicate Completes(n: seq<Byte>) {
    |n| >= 2 && |n| == 2 + U16(n, 0)
  }

  function Hold(t: seq<Byte>, b: Byte): seq<Byte> {
    if Completes(t + [b]) then [] else t + [b]
  }

  // The body it completes, unless that is empty.
  function Ends(t: seq<Byte>, b: Byte): (c: seq<seq<Byte>>)
    ensures |c| <= 1
  {
    if Completes(t + [b]) && |t| > 1 then [(t + [b])[2..]] else []
  }

  function HoldAll(t: seq<Byte>, bs: seq<Byte>): seq<Byte>
    decreases |bs|
  {
    if bs == [] then t else HoldAll(Hold(t, bs[0]), bs[1..])
  }

  function EndsAll(t: seq<Byte>, bs: seq<Byte>): seq<seq<Byte>>
    decreases |bs|
  {
    if bs == [] then [] else Ends(t, bs[0]) + EndsAll(Hold(t, bs[0]), bs[1..])
  }

  // The registers mirror the arrived part of the current block.
  ghost predicate Mirrors(st: State, len: nat, cnt: nat, buf: seq<Byte>, t: seq<Byte>) {
    && |buf| == MAX_MSG && Partial(t)
    && match st
       case Len0 => t == []
       case Len1 => |t| == 1 && len / 256 == t[0]
       case InBody =>
         && |t| >= 2 && len == U16(t, 0) && cnt == |t| - 2
         && forall k | 0 <= k < MAX_MSG && k < cnt :: buf[k] == t[k + 2]
  }

  lemma LaneMirrors(w: Walk, b: Byte, t: seq<Byte>)
    requires Mirrors(w.st, w.len, w.cnt, w.buf, t) && |w.dec| == MAX_MSG
    ensures var r, c := LaneStep(w, b), Ends(t, b);
            && Mirrors(r.st, r.len, r.cnt, r.buf, Hold(t, b)) && |r.dec| == MAX_MSG
            && if c == [] then r.dec == w.dec && r.dlen == w.dlen && r.got == w.got
               else c[0] != [] && r.got && Shows(r.dec, r.dlen, c[0])
  {
    var n := t + [b];
    if |n| >= 2 && |t| >= 2 { assert U16(n, 0) == U16(t, 0); }
  }

  // One beat: the walk over its lanes is the walk over its kept bytes, and the last body it completes
  // is the one in the snapshot.
  lemma {:induction false} LanesMirror(w: Walk, b: Beat, j: nat, t: seq<Byte>)
    requires j <= 8 && Mirrors(w.st, w.len, w.cnt, w.buf, t) && |w.dec| == MAX_MSG
    ensures var r, c := WalkLanes(w, b, j), EndsAll(t, KeptFrom(b, j));
            && Mirrors(r.st, r.len, r.cnt, r.buf, HoldAll(t, KeptFrom(b, j))) && |r.dec| == MAX_MSG
            && if c == [] then r.dec == w.dec && r.dlen == w.dlen && r.got == w.got
               else c[|c| - 1] != [] && r.got && Shows(r.dec, r.dlen, c[|c| - 1])
    decreases 8 - j
  {
    hide LaneStep, Hold, Ends, Mirrors, Shows, KeptFrom, WalkLanes, HoldAll, EndsAll;
    LanesNext(w, b, j);
    if j == 8 {
      FeedNone(t);
    } else if b.keep[j] {
      LaneMirrors(w, b.lanes[j], t);
      LanesMirror(LaneStep(w, b.lanes[j]), b, j + 1, Hold(t, b.lanes[j]));
      FeedNext(t, b.lanes[j], KeptFrom(b, j + 1));
    } else {
      LanesMirror(w, b, j + 1, t);
    }
  }

  lemma LanesNext(w: Walk, b: Beat, j: nat)
    requires j <= 8
    ensures j == 8 ==> WalkLanes(w, b, j) == w && KeptFrom(b, j) == []
    ensures j < 8 ==> WalkLanes(w, b, j) == WalkLanes(if b.keep[j] then LaneStep(w, b.lanes[j]) else w, b, j + 1)
    ensures j < 8 ==> KeptFrom(b, j) == if b.keep[j] then [b.lanes[j]] + KeptFrom(b, j + 1) else KeptFrom(b, j + 1)
  {
    hide LaneStep;
    if j < 8 { assert [] + KeptFrom(b, j + 1) == KeptFrom(b, j + 1); }
  }

  lemma FeedNext(t: seq<Byte>, b: Byte, bs: seq<Byte>)
    ensures HoldAll(t, [b] + bs) == HoldAll(Hold(t, b), bs)
    ensures EndsAll(t, [b] + bs) == Ends(t, b) + EndsAll(Hold(t, b), bs)
  {
    hide Hold, Ends;
    assert ([b] + bs)[1..] == bs;
  }

  lemma FeedNone(t: seq<Byte>)
    ensures HoldAll(t, []) == t && EndsAll(t, []) == []
  {
  }

  // ---- whole runs ----

  predicate Whole(s: Itch) {
    |s.mbuf| == |s.decBuf| == MAX_MSG
  }

  ghost predicate ItchOk(s: Itch, t: seq<Byte>) {
    Whole(s) && Mirrors(s.st, s.mlen, s.mcnt, s.mbuf, t)
  }

  // What the message bundle shows after a cycle.
  function Show(s: Itch): seq<(bool, Message)>
    requires Whole(s)
  {
    if s.valid then [Fields(s.decBuf, s.decLen)] else []
  }

  function Arrives(i: ItchIn): seq<Byte> {
    if i.valid then Kept(i.beat) else []
  }

  // The last of the bodies a cycle completes.
  function Last(c: seq<seq<Byte>>): seq<seq<Byte>> {
    if c == [] then [] else [c[|c| - 1]]
  }

  lemma CycleShowsLast(s: Itch, i: ItchIn, t: seq<Byte>)
    requires ItchOk(s, t)
    ensures ItchOk(ItchStep(s, i), HoldAll(t, Arrives(i)))
    ensures Show(ItchStep(s, i)) == DecodeAll(Last(EndsAll(t, Arrives(i))))
  {
    hide WalkLanes, Mirrors, Shows, Fields, Decoded, KeptFrom, HoldAll, EndsAll;
    FeedNone(t);
    if i.valid {
      var w := Walk(s.st, s.mlen, s.mcnt, s.mbuf, s.decBuf, s.decLen, false);
      LanesMirror(w, i.beat, 0, t);
      var r, c := WalkLanes(w, i.beat, 0), EndsAll(t, Kept(i.beat));
      if c != [] { SnapshotDecodes(r.dec, r.dlen, c[|c| - 1]); }
    }
  }

  lemma SnapshotDecodes(db: seq<Byte>, len: nat, body: seq<Byte>)
    requires Shows(db, len, body) && body != []
    ensures |db| == MAX_MSG && Fields(db, len) == Decoded(body)
  {
    hide Fields, Decoded;
    FieldsAreDecoded(db, body);
  }

  function Stream(tr: seq<ItchIn>): seq<Byte> {
    if tr == [] then [] else Arrives(tr[0]) + Stream(tr[1..])
  }

  function Shown(s: Itch, tr: seq<ItchIn>): seq<(bool, Message)>
    requires Whole(s)
    decreases |tr|
  {
    if tr == [] then [] else Show(ItchStep(s, tr[0])) + Shown(ItchStep(s, tr[0]), tr[1..])
  }

  // The bodies completed in each cycle.
  function PerCycle(t: seq<Byte>, tr: seq<ItchIn>): seq<seq<seq<Byte>>>
    decreases |tr|
  {
    if tr == [] then []
    else [EndsAll(t, Arrives(tr[0]))] + PerCycle(HoldAll(t, Arrives(tr[0])), tr[1..])
  }

  function Lasts(cs: seq<seq<seq<Byte>>>): seq<seq<Byte>> {
    if cs == [] then [] else Last(cs[0]) + Lasts(cs[1..])
  }

  function All(cs: seq<seq<seq<Byte>>>): seq<seq<Byte>> {
    if cs == [] then [] else cs[0] + All(cs[1..])
  }

  // For every stream and every cutting of it: one strobe for each cycle that completes a message, with the
  // software decode of the last one it completes.
  lemma {:induction false} ShownAreLasts(s: Itch, tr: seq<ItchIn>, t: seq<Byte>)
    requires ItchOk(s, t)
    ensures Shown(s, tr) == DecodeAll(Lasts(PerCycle(t, tr)))
    decreases |tr|
  {
    hide ItchStep, HoldAll, EndsAll, Arrives, Mirrors, Show, Decoded, Last;
    if tr != [] {
      CycleShowsLast(s, tr[0], t);
      var t', c := HoldAll(t, Arrives(tr[0])), EndsAll(t, Arrives(tr[0]));
      ShownAreLasts(ItchStep(s, tr[0]), tr[1..], t');
      assert PerCycle(t, tr)[1..] == PerCycle(t', tr[1..]);
      DecodeConcat(Last(c), Lasts(PerCycle(t', tr[1..])));
    }
  }

  lemma DecodeConcat(a: seq<seq<Byte>>, b: seq<seq<Byte>>)
    ensures DecodeAll(a + b) == DecodeAll(a) + DecodeAll(b)
  {
    hide Decoded;
  }

  lemma {:induction false} HoldConcat(t: seq<Byte>, a: seq<Byte>, b: seq<Byte>)
    ensures HoldAll(t, a + b) == HoldAll(HoldAll(t, a), b)
    decreases |a|
  {
    hide Hold;
    if a == [] {
      assert a + b == b;
    } else {
      assert (a + b)[1..] == a[1..] + b;
      HoldConcat(Hold(t, a[0]), a[1..], b);
    }
  }

  lemma {:induction false} EndsConcat(t: seq<Byte>, a: seq<Byte>, b: seq<Byte>)
    ensures EndsAll(t, a + b) == EndsAll(t, a) + EndsAll(HoldAll(t, a), b)
    decreases |a|
  {
    hide Hold, Ends;
    if a == [] {
      assert a + b == b;
    } else {
      assert (a + b)[1..] == a[1..] + b;
      EndsConcat(Hold(t, a[0]), a[1..], b);
    }
  }

  // Every cutting completes the bodies of the stream.
  lemma {:induction false} CuttingCompletes(t: seq<Byte>, tr: seq<ItchIn>)
    ensures All(PerCycle(t, tr)) == EndsAll(t, Stream(tr))
    decreases |tr|
  {
    hide HoldAll, EndsAll, Arrives;
    if tr == [] {
      FeedNone(t);
    } else {
      var t' := HoldAll(t, Arrives(tr[0]));
      CuttingCompletes(t', tr[1..]);
      EndsConcat(t, Arrives(tr[0]), Stream(tr[1..]));
      assert PerCycle(t, tr)[1..] == PerCycle(t', tr[1..]);
    }
  }
}
