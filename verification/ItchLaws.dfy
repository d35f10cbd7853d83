// The streaming parser against the software parser, on every stream and every cutting of it into beats.
module ItchLaws {
  import opened Bytes
  import opened Messages
  import opened Axis
  import opened FrameBuild
  import opened ItchDecode
  import opened ItchParsers

  // The complete bodies of a stream of length-prefixed blocks; empty ones are padding and are skipped.
  function Bodies(x: seq<Byte>): seq<seq<Byte>> {
    if |x| < 2 then []
    else
      var n := U16(x, 0);
      if 2 + n > |x| then [] else (if n == 0 then [] else [x[2..2 + n]]) + Bodies(x[2 + n..])
  }

  // An unfinished block completes nothing.
  lemma {:induction false} FeedPartial(t: seq<Byte>, bs: seq<Byte>)
    requires Partial(t + bs)
    ensures HoldAll(t, bs) == t + bs && EndsAll(t, bs) == []
    decreases |bs|
  {
    if bs == [] {
      assert t + [] == t;
    } else {
      var n := t + [bs[0]];
      assert n + bs[1..] == t + bs;
      StillPartial(n, bs[1..]);
      FeedPartial(n, bs[1..]);
    }
  }

  lemma StillPartial(n: seq<Byte>, bs: seq<Byte>)
    requires Partial(n + bs)
    ensures Partial(n) && !Completes(n)
  {
    if |n| >= 2 { assert U16(n + bs, 0) == U16(n, 0); }
  }

  // The last byte of a block completes it.
  lemma FeedBlock(x: seq<Byte>)
    requires Completes(x)
    ensures HoldAll([], x) == [] && EndsAll([], x) == if |x| == 2 then [] else [x[2..]]
  {
    hide HoldAll, EndsAll;
    var k := |x| - 1;
    var t := x[..k];
    assert x == t + [x[k]] && [] + t == t;
    if k >= 2 { assert U16(t, 0) == U16(x, 0); }
    FeedPartial([], t);
    HoldConcat([], t, [x[k]]);
    EndsConcat([], t, [x[k]]);
    FeedNext(t, x[k], []);
    FeedNone(Hold(t, x[k]));
    assert [x[k]] + [] == [x[k]];
  }

  // Fed byte by byte, a stream completes exactly its bodies.
  lemma {:induction false} FedIsBodies(x: seq<Byte>)
    ensures EndsAll([], x) == Bodies(x)
    decreases |x|
  {
    hide HoldAll, EndsAll;
    if |x| < 2 || 2 + U16(x, 0) > |x| {
      assert [] + x == x;
      FeedPartial([], x);
    } else {
      var n := U16(x, 0);
      var block, rest := x[..2 + n], x[2 + n..];
      assert U16(block, 0) == n && block[2..] == x[2..2 + n];
      FeedBlock(block);
      EndsConcat([], block, rest);
      assert block + rest == x;
      FedIsBodies(rest);
    }
  }

  // ---- at most one message ends in a beat ----

  ghost predicate Long(bodies: seq<seq<Byte>>) {
    forall k | 0 <= k < |bodies| :: |bodies[k]| >= 6
  }

  lemma {:induction false} BodiesFit(x: seq<Byte>)
    requires |x| <= 7 && Long(Bodies(x))
    ensures Bodies(x) == []
    decreases |x|
  {
    hide Bodies;
    BodiesNext(x);
    if |x| >= 2 && 2 + U16(x, 0) <= |x| {
      if U16(x, 0) == 0 {
        BodiesFit(x[2..]);
      } else {
        assert false;
      }
    }
  }

  lemma BodiesNext(x: seq<Byte>)
    ensures |x| < 2 || 2 + U16(x, 0) > |x| ==> Bodies(x) == []
    ensures |x| >= 2 && U16(x, 0) == 0 ==> Bodies(x) == Bodies(x[2..])
    ensures |x| >= 2 && 0 < U16(x, 0) <= |x| - 2 ==>
              Bodies(x) == [x[2..2 + U16(x, 0)]] + Bodies(x[2 + U16(x, 0)..]) && |Bodies(x)[0]| == U16(x, 0)
  {
  }

  lemma {:induction false} OneBodyPerBeat(t: seq<Byte>, bs: seq<Byte>)
    requires |bs| <= 8 && Long(EndsAll(t, bs))
    ensures |EndsAll(t, bs)| <= 1
    decreases |bs|
  {
    hide Hold, Ends;
    if bs != [] {
      var t1, c1 := Hold(t, bs[0]), Ends(t, bs[0]);
      LongParts(c1, EndsAll(t1, bs[1..]));
      if c1 == [] {
        OneBodyPerBeat(t1, bs[1..]);
      } else {
        EndHoldsNothing(t, bs[0]);
        FedIsBodies(bs[1..]);
        BodiesFit(bs[1..]);
      }
    }
  }

  lemma LongParts(a: seq<seq<Byte>>, b: seq<seq<Byte>>)
    requires Long(a + b)
    ensures Long(a) && Long(b)
  {
    forall k | 0 <= k < |a| ensures |a[k]| >= 6 { assert (a + b)[k] == a[k]; }
    forall k | 0 <= k < |b| ensures |b[k]| >= 6 { assert (a + b)[|a| + k] == b[k]; }
  }

  lemma EndHoldsNothing(t: seq<Byte>, b: Byte)
    requires Ends(t, b) != []
    ensures Hold(t, b) == []
  {
  }

  lemma {:induction false} KeptAtMostEight(b: Beat, j: nat)
    requires j <= 8
    ensures |KeptFrom(b, j)| <= 8 - j
    decreases 8 - j
  {
    if j < 8 { KeptAtMostEight(b, j + 1); }
  }

  lemma {:induction false} NothingIsMerged(t: seq<Byte>, tr: seq<ItchIn>)
    requires Long(All(PerCycle(t, tr)))
    ensures Lasts(PerCycle(t, tr)) == All(PerCycle(t, tr))
    decreases |tr|
  {
    hide HoldAll, EndsAll, Long, KeptFrom;
    if tr != [] {
      var t', c := HoldAll(t, Arrives(tr[0])), EndsAll(t, Arrives(tr[0]));
      assert PerCycle(t, tr)[1..] == PerCycle(t', tr[1..]);
      LongParts(c, All(PerCycle(t', tr[1..])));
      NothingIsMerged(t', tr[1..]);
      KeptAtMostEight(tr[0].beat, 0);
      OneBodyPerBeat(t, Arrives(tr[0]));
      assert Last(c) == c;
    }
  }

  lemma {:induction false} LastsCount(cs: seq<seq<seq<Byte>>>)
    ensures |Lasts(cs)| <= |All(cs)|
    ensures |Lasts(cs)| == |All(cs)| <==> forall k | 0 <= k < |cs| :: |cs[k]| <= 1
  {
    if cs != [] {
      LastsCount(cs[1..]);
      assert forall k | 1 <= k < |cs| :: cs[k] == cs[1..][k - 1];
    }
  }

  // For every stream and cutting: as many strobes as complete messages if and only if no cycle completes
  // two; never more.
  lemma AllShownIff(tr: seq<ItchIn>)
    ensures |Shown(ResetItch(), tr)| <= |Bodies(Stream(tr))|
    ensures |Shown(ResetItch(), tr)| == |Bodies(Stream(tr))| <==>
            forall k | 0 <= k < |PerCycle([], tr)| :: |PerCycle([], tr)[k]| <= 1
  {
    hide HoldAll, EndsAll, Bodies, Shown, PerCycle, Decoded;
    ShownAreLasts(ResetItch(), tr, []);
    CuttingCompletes([], tr);
    FedIsBodies(Stream(tr));
    LastsCount(PerCycle([], tr));
  }

  // For every stream whose complete messages are at least six bytes long, and every cutting of it into
  // beats, keep masks and idle cycles: one strobe per complete message, in order, with the software decode.
  lemma OneStrobePerMessage(tr: seq<ItchIn>)
    requires Long(Bodies(Stream(tr)))
    ensures Shown(ResetItch(), tr) == DecodeAll(Bodies(Stream(tr)))
  {
    hide HoldAll, EndsAll, Decoded, Long, Bodies;
    ShownAreLasts(ResetItch(), tr, []);
    CuttingCompletes([], tr);
    FedIsBodies(Stream(tr));
    NothingIsMerged([], tr);
  }

  // Two short messages that end in the same beat show as one strobe.
  lemma ShortMessagesMerge(b: Beat, x: Byte, y: Byte)
    requires Kept(b) == [0, 1, x, 0, 1, y]
    ensures Bodies(Stream([ItchIn(true, b)])) == [[x], [y]]
    ensures Shown(ResetItch(), [ItchIn(true, b)]) == [Decoded([y])]
  {
    hide Decoded, Show, ItchStep, KeptFrom, HoldAll, EndsAll, Bodies;
    var tr := [ItchIn(true, b)];
    OneBeat(b);
    TwoBodies(x, y);
    FedIsBodies(Kept(b));
    ShownAreLasts(ResetItch(), tr, []);
    LastOfOne(EndsAll([], Kept(b)));
  }

  lemma OneBeat(b: Beat)
    ensures Stream([ItchIn(true, b)]) == Kept(b)
    ensures PerCycle([], [ItchIn(true, b)]) == [EndsAll([], Kept(b))]
  {
    hide HoldAll, EndsAll, KeptFrom;
    var tr := [ItchIn(true, b)];
    assert tr[1..] == [];
    assert Kept(b) + [] == Kept(b);
  }

  lemma LastOfOne(c: seq<seq<Byte>>)
    ensures Lasts([c]) == Last(c)
  {
    assert [c][1..] == [];
    assert Last(c) + [] == Last(c);
  }

  lemma TwoBodies(x: Byte, y: Byte)
    ensures Bodies([0, 1, x, 0, 1, y]) == [[x], [y]]
  {
    hide Bodies;
    var s: seq<Byte> := [0, 1, x, 0, 1, y];
    var r: seq<Byte> := [0, 1, y];
    assert s[2..3] == [x] && s[3..] == r && r[2..3] == [y] && r[3..] == [];
    BodiesNext(s);
    BodiesNext(r);
    BodiesNext([]);
  }

  // ---- against the software walk ----

  // The software stops at a zero length, the hardware skips it; until then they agree.
  lemma {:induction false} SoftwareIsPrefix(x: seq<Byte>)
    ensures Split(x) <= Bodies(x)
    decreases |x|
  {
    if |x| >= 2 && U16(x, 0) != 0 && 2 + U16(x, 0) <= |x| {
      SoftwareIsPrefix(x[2 + U16(x, 0)..]);
    }
  }

  // What follows the first zero length.
  function AfterZero(x: seq<Byte>): seq<Byte>
    decreases |x|
  {
    if |x| < 2 || 2 + U16(x, 0) > |x| then []
    else if U16(x, 0) == 0 then x[2..]
    else AfterZero(x[2 + U16(x, 0)..])
  }

  // They see the same messages exactly when none is complete behind the first zero length.
  lemma {:induction false} SoftwareAgreesIff(x: seq<Byte>)
    ensures Split(x) == Bodies(x) <==> Bodies(AfterZero(x)) == []
    decreases |x|
  {
    hide Split, Bodies, U16;
    BodiesNext(x);
    BodiesNext([]);
    if |x| < 2 {
      SplitShort(x);
    } else {
      assert x[0..] == x;
      SplitNext(x, 0);
      var n := U16(x, 0);
      if 0 < n && 2 + n <= |x| {
        SoftwareAgreesIff(x[2 + n..]);
        SameTail(x[2..2 + n], Split(x[2 + n..]), Bodies(x[2 + n..]));
      }
    }
  }

  lemma SameTail(h: seq<Byte>, a: seq<seq<Byte>>, b: seq<seq<Byte>>)
    ensures [h] + a == [h] + b <==> a == b
  {
    assert ([h] + a)[1..] == a && ([h] + b)[1..] == b;
  }

  // The strobes with msg_modeled are the messages parseBuffer reports for the same bytes.
  lemma HardwareIsSoftware(tr: seq<ItchIn>)
    requires Long(Bodies(Stream(tr))) && Bodies(AfterZero(Stream(tr))) == []
    ensures Modeled(Shown(ResetItch(), tr)) == Modeled(DecodeAll(Split(Stream(tr))))
  {
    hide Decoded, Bodies, Long;
    OneStrobePerMessage(tr);
    SoftwareAgreesIff(Stream(tr));
  }
}
