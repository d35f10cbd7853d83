// The whole receive path: wire frames in, decoded messages out (fpga/rtl/feed_top.v with its last stage,
// whose ready is always high).
module FeedItch {
  import opened Bytes
  import opened Messages
  import opened Axis
  import opened Gearboxes
  import opened GearTheorems
  import opened Layers
  import opened FrameRef
  import opened FrameBuild
  import opened ItchDecode
  import opened ItchEncode
  import opened ItchParsers
  import opened ItchLaws
  import opened MoldParsers
  import opened FeedTops
  import opened FeedLaws

  // What the front end's output register offers the message parser, cycle by cycle.
  function Offers(t: Feed, tr: seq<LayerIn>): seq<ItchIn>
    requires Sized(t)
    decreases |tr|
  {
    if tr == [] then []
    else [ItchIn(t.mold.layer.gear.mValid, t.mold.layer.gear.mBeat)] + Offers(FeedStep(t, tr[0]), tr[1..])
  }

  lemma {:induction false} OffersAreTaken(t: Feed, tr: seq<LayerIn>)
    requires Sized(t) && forall k | 0 <= k < |tr| :: tr[k].mReady
    ensures Stream(Offers(t, tr)) == Flow(FeedTaken(t, tr))
    decreases |tr|
  {
    hide FeedStep, Sized, KeptFrom;
    if tr != [] {
      var g, t' := t.mold.layer.gear, FeedStep(t, tr[0]);
      OffersAreTaken(t', tr[1..]);
      FlowConcat(Takes(g, true), FeedTaken(t', tr[1..]));
      assert Offers(t, tr)[1..] == Offers(t', tr[1..]);
      FlowOfTakes(g);
    }
  }

  lemma FlowOfTakes(g: Gear)
    ensures Flow(Takes(g, true)) == Arrives(ItchIn(g.mValid, g.mBeat))
  {
    hide KeptFrom;
    if g.mValid { assert [See(g.mBeat)][1..] == []; }
  }

  // Whatever has arrived of a framed list holds the first of its messages.
  lemma {:induction false} BodiesOfPrefix(ms: seq<seq<Byte>>, x: seq<Byte>)
    requires x <= Blocks(ms) && forall k | 0 <= k < |ms| :: Body(ms[k])
    ensures Bodies(x) <= ms
    decreases |ms|
  {
    hide Bodies, Block;
    BodiesNext(x);
    if |x| >= 2 {
      var more := Blocks(ms[1..]);
      U16Block(ms[0], more);
      assert U16(x, 0) == U16(Block(ms[0]) + more, 0);
      var n := |ms[0]|;
      if 2 + n <= |x| {
        assert x[2..2 + n] == (Block(ms[0]) + more)[2..2 + n];
        assert x[2 + n..] <= (Block(ms[0]) + more)[2 + n..];
        BodiesOfPrefix(ms[1..], x[2 + n..]);
      }
    }
  }

  predicate LongBody(m: seq<Byte>) {
    6 <= |m| < 65536
  }

  // At every moment of every run from reset, whatever the source's idle schedule: the messages shown so
  // far are the decodes of the first messages sent, each once and in order.
  lemma {:induction false} ShowsWhatWasSent(ms: seq<seq<Byte>>, sizes: nat -> nat, sequence: nat, w: Wire,
    most: nat, tr: seq<LayerIn>)
    requires WireOk(w) && GroupsFit(ms, most, w.ip.words) && sequence + |ms| < Pow256(8)
    requires forall j :: 1 <= sizes(j) <= most
    requires Plain(w)
    requires FeedFeeds(ResetFeed(), tr, StartInputs(Packets(ms, sizes, 0, sequence, w)))
    requires forall k | 0 <= k < |tr| :: tr[k].mReady
    requires forall k | 0 <= k < |ms| :: LongBody(ms[k])
    ensures Shown(ResetItch(), Offers(ResetFeed(), tr)) <= DecodeAll(ms)
    ensures Flow(FeedTaken(ResetFeed(), tr)) == Blocks(ms) ==>
              Shown(ResetItch(), Offers(ResetFeed(), tr)) == DecodeAll(ms)
  {
    hide FeedFeeds, FeedTaken, StartInputs, Packets, WireOk, GroupsFit, Pow256, Offers, Shown, Decoded,
         Blocks, Bodies, Long,
         FeedOk, FeedFuture, Flow;
    MessagesComeThrough(ms, sizes, sequence, w, most, tr);
    OffersAreTaken(ResetFeed(), tr);
    var x := Flow(FeedTaken(ResetFeed(), tr));
    LongBodies(ms);
    BodiesOfPrefix(ms, x);
    LongPrefix(Bodies(x), ms);
    OneStrobePerMessage(Offers(ResetFeed(), tr));
    DecodePrefix(Bodies(x), ms);
    if x == Blocks(ms) { AllBodies(ms); }
  }

  lemma LongBodies(ms: seq<seq<Byte>>)
    requires forall k | 0 <= k < |ms| :: LongBody(ms[k])
    ensures forall k | 0 <= k < |ms| :: Body(ms[k])
    ensures Long(ms)
  {
  }

  lemma LongPrefix(a: seq<seq<Byte>>, b: seq<seq<Byte>>)
    requires a <= b && Long(b)
    ensures Long(a)
  {
  }

  lemma DecodePrefix(a: seq<seq<Byte>>, b: seq<seq<Byte>>)
    requires a <= b
    ensures DecodeAll(a) <= DecodeAll(b)
  {
    hide Decoded;
  }

  lemma AllBodies(ms: seq<seq<Byte>>)
    requires forall k | 0 <= k < |ms| :: Body(ms[k])
    ensures Bodies(Blocks(ms)) == ms
  {
    hide Bodies, Blocks, Split;
    var x := Blocks(ms);
    assert x + [] == x && ms + [] == ms;
    SplitOfBlocks(ms, []);
    SplitShort([]);
    SoftwareIsPrefix(x);
    BodiesOfPrefix(ms, x);
  }

  // And within fifteen cycles a beat of an eager source, all of them.
  lemma {:induction false} ShowsAllThatWasSent(ms: seq<seq<Byte>>, sizes: nat -> nat, sequence: nat, w: Wire,
    most: nat, tr: seq<LayerIn>)
    requires WireOk(w) && GroupsFit(ms, most, w.ip.words) && sequence + |ms| < Pow256(8)
    requires forall j :: 1 <= sizes(j) <= most
    requires Plain(w)
    requires FeedFeeds(ResetFeed(), tr, StartInputs(Packets(ms, sizes, 0, sequence, w)))
    requires Eager(ResetFeed(), tr, StartInputs(Packets(ms, sizes, 0, sequence, w)))
    requires |tr| >= 15 * |PackAll(Packets(ms, sizes, 0, sequence, w))|
    requires forall k | 0 <= k < |ms| :: LongBody(ms[k])
    ensures Shown(ResetItch(), Offers(ResetFeed(), tr)) == DecodeAll(ms)
  {
    hide FeedFeeds, FeedTaken, StartInputs, Packets, WireOk, GroupsFit, Pow256, Offers, Shown, Decoded,
         Blocks, FeedOk,
         PackAll, Flow, LongBody, FeedStep, FeedAfter;
    MessagesArrive(ms, sizes, sequence, w, most, tr);
    EagerIsReady(ResetFeed(), tr, StartInputs(Packets(ms, sizes, 0, sequence, w)));
    ShowsWhatWasSent(ms, sizes, sequence, w, most, tr);
  }

  // From the exchange's order messages, encoded and sent in wire frames, to the message bundle: all of them
  // come out decoded to what they are about, each once and in order.
  lemma OrdersArrive(xs: seq<Stamped>, sizes: nat -> nat, sequence: nat, w: Wire, most: nat, tr: seq<LayerIn>)
    requires forall k | 0 <= k < |xs| :: Encodable(xs[k].stamp, xs[k].order)
    requires WireOk(w) && GroupsFit(EncodedAll(xs), most, w.ip.words) && sequence + |xs| < Pow256(8)
    requires forall j :: 1 <= sizes(j) <= most
    requires Plain(w)
    requires var fs := Packets(EncodedAll(xs), sizes, 0, sequence, w);
             && FeedFeeds(ResetFeed(), tr, StartInputs(fs)) && Eager(ResetFeed(), tr, StartInputs(fs))
             && |tr| >= 15 * |PackAll(fs)|
    ensures Shown(ResetItch(), Offers(ResetFeed(), tr)) == MeantAll(xs)
  {
    hide FeedFeeds, Eager, StartInputs, Packets, WireOk, GroupsFit, Pow256, Offers, Shown, PackAll, Plain,
         Encodable, EncodedAll, MeantAll, Decoded;
    OrdersDecoded(xs);
    ShowsAllThatWasSent(EncodedAll(xs), sizes, sequence, w, most, tr);
  }

  lemma {:induction false} EagerIsReady(t: Feed, tr: seq<LayerIn>, s: Inputs)
    requires Sized(t) && Eager(t, tr, s)
    ensures forall k | 0 <= k < |tr| :: tr[k].mReady
    decreases |tr|
  {
    hide FeedStep, FeedAfter, Sized, RestBeats;
    if tr != [] {
      EagerIsReady(FeedStep(t, tr[0]), tr[1..], FeedAfter(t, tr[0], s));
      assert forall k | 1 <= k < |tr| :: tr[k] == tr[1..][k - 1];
    }
  }
}
