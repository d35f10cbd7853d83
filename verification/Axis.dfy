// AXI4-Stream beats of eight lanes (section 2.2 of AMBA AXI4-Stream, IHI 0051A: a beat moves in a
// cycle in which valid and ready are both high), and byte strings packed into beats.
module Axis {
  import opened Bytes

  datatype RawBeat = RawBeat(lanes: seq<Byte>, keep: seq<bool>, last: bool)

  type Beat = b: RawBeat | |b.lanes| == 8 && |b.keep| == 8
    witness RawBeat(seq(8, _ => 0), seq(8, _ => false), false)

  // The bytes a beat carries from lane j on.
  function KeptFrom(b: Beat, j: nat): seq<Byte>
    requires j <= 8
    decreases 8 - j
  {
    if j == 8 then [] else (if b.keep[j] then [b.lanes[j]] else []) + KeptFrom(b, j + 1)
  }

  function Kept(b: Beat): seq<Byte> {
    KeptFrom(b, 0)
  }

  // What a receiver sees of a beat.
  datatype Out = Out(bytes: seq<Byte>, last: bool)

  function See(b: Beat): Out {
    Out(Kept(b), b.last)
  }

  // The bytes fill the lanes from lane 0 up without holes, and all eight of them unless this is the last beat.
  predicate Aligned(b: Beat) {
    && (forall j | 0 <= j < 7 :: b.keep[j + 1] ==> b.keep[j])
    && b.keep[0] && (!b.last ==> b.keep[7])
  }

  // A byte string as a packed frame: every beat full but the last, which is not empty. Nothing for nothing.
  function Pack(p: seq<Byte>): seq<Out> {
    if p == [] then []
    else if |p| <= 8 then [Out(p, true)]
    else [Out(p[..8], false)] + Pack(p[8..])
  }

  function PackAll(ps: seq<seq<Byte>>): seq<Out> {
    if ps == [] then [] else Pack(ps[0]) + PackAll(ps[1..])
  }

  // Splitting a stream of beats at tlast: the finished frames, and what the open one has so far.
  function Frames(os: seq<Out>, open: seq<Byte>): (seq<seq<Byte>>, seq<Byte>)
    decreases |os|
  {
    if os == [] then ([], open)
    else if os[0].last then
      var r := Frames(os[1..], []);
      ([open + os[0].bytes] + r.0, r.1)
    else Frames(os[1..], open + os[0].bytes)
  }

  lemma PackUnfold(p: seq<Byte>)
    requires p != []
    ensures Pack(p) == if |p| <= 8 then [Out(p, true)] else [Out(p[..8], false)] + Pack(p[8..])
  {
  }

  lemma FramesNext(o: Out, os: seq<Out>, open: seq<Byte>)
    ensures Frames([o] + os, open) ==
            if o.last then ([open + o.bytes] + Frames(os, []).0, Frames(os, []).1) else Frames(os, open + o.bytes)
  {
    assert ([o] + os)[1..] == os;
  }

  lemma {:induction false} FramesOfPack(p: seq<Byte>, os: seq<Out>, open: seq<Byte>)
    requires p != []
    ensures Frames(Pack(p) + os, open) == ([open + p] + Frames(os, []).0, Frames(os, []).1)
  {
    hide Frames, Pack;
    PackUnfold(p);
    if |p| <= 8 {
      FramesNext(Out(p, true), os, open);
    } else {
      assert Pack(p) + os == [Out(p[..8], false)] + (Pack(p[8..]) + os);
      FramesNext(Out(p[..8], false), Pack(p[8..]) + os, open);
      FramesOfPack(p[8..], os, open + p[..8]);
      assert open + p[..8] + p[8..] == open + p;
    }
  }

  // Packing loses nothing: splitting at tlast gives the non-empty byte strings back, in order.
  lemma {:induction false} FramesOfPackAll(ps: seq<seq<Byte>>)
    ensures Frames(PackAll(ps), []) == (NonEmpty(ps), [])
  {
    if ps != [] {
      FramesOfPackAll(ps[1..]);
      if ps[0] == [] {
        assert Pack(ps[0]) + PackAll(ps[1..]) == PackAll(ps[1..]);
      } else {
        FramesOfPack(ps[0], PackAll(ps[1..]), []);
        assert [] + ps[0] == ps[0];
      }
    }
  }

  function NonEmpty(ps: seq<seq<Byte>>): seq<seq<Byte>> {
    if ps == [] then []
    else if ps[0] == [] then NonEmpty(ps[1..])
    else [ps[0]] + NonEmpty(ps[1..])
  }

  lemma {:induction false} PackNonEmpty(ps: seq<seq<Byte>>)
    ensures PackAll(NonEmpty(ps)) == PackAll(ps)
  {
    if ps != [] {
      PackNonEmpty(ps[1..]);
      if ps[0] == [] {
        assert Pack(ps[0]) + PackAll(ps[1..]) == PackAll(ps[1..]);
      } else {
        assert NonEmpty(ps)[1..] == NonEmpty(ps[1..]);
      }
    }
  }

  // The bytes of a stream, frame boundaries forgotten.
  function Flow(os: seq<Out>): seq<Byte> {
    if os == [] then [] else os[0].bytes + Flow(os[1..])
  }

  lemma {:induction false} FlowConcat(a: seq<Out>, b: seq<Out>)
    ensures Flow(a + b) == Flow(a) + Flow(b)
  {
    if a == [] {
      assert a + b == b;
    } else {
      assert (a + b)[1..] == a[1..] + b;
      FlowConcat(a[1..], b);
    }
  }

  lemma {:induction false} FlowOfPack(p: seq<Byte>)
    ensures Flow(Pack(p)) == p
  {
    if |p| > 8 {
      FlowOfPack(p[8..]);
      assert Pack(p)[1..] == Pack(p[8..]);
    } else if p != [] {
      assert Pack(p)[1..] == [];
    }
  }

  function Concat(ps: seq<seq<Byte>>): seq<Byte> {
    if ps == [] then [] else ps[0] + Concat(ps[1..])
  }

  lemma {:induction false} FlowOfPackAll(ps: seq<seq<Byte>>)
    ensures Flow(PackAll(ps)) == Concat(ps)
  {
    if ps != [] {
      FlowOfPack(ps[0]);
      FlowOfPackAll(ps[1..]);
      FlowConcat(Pack(ps[0]), PackAll(ps[1..]));
    }
  }

  // In a beat whose lanes fill from 0 up, the kept bytes are the first lanes.
  lemma {:induction false} AlignedKept(b: Beat, j: nat)
    requires j <= 8 && forall i | 0 <= i < 7 :: b.keep[i + 1] ==> b.keep[i]
    ensures var k := KeptFrom(b, j);
            && |k| <= 8 - j && k == b.lanes[j..j + |k|]
            && (forall i | j <= i < 8 :: b.keep[i] <==> i < j + |k|)
    decreases 8 - j
  {
    if j < 8 {
      AlignedKept(b, j + 1);
      if !b.keep[j] { NoneAbove(b, j); }
    }
  }

  lemma {:induction false} NoneAbove(b: Beat, j: nat)
    requires j < 8 && !b.keep[j] && forall i | 0 <= i < 7 :: b.keep[i + 1] ==> b.keep[i]
    ensures forall i | j <= i < 8 :: !b.keep[i]
    decreases 8 - j
  {
    if j < 7 { NoneAbove(b, j + 1); }
  }
}
