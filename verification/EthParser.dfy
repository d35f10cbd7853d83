// The Ethernet layer (fpga/rtl/eth_parser.v).
module EthParsers {
  import opened Options
  import opened Bytes
  import opened Axis
  import opened Gearboxes
  import opened Layers
  import opened HoldReplays
  import opened FrameRef

  // Ethertype candidates from the beat being accepted.
  function EthertypeBeat1(b: Beat): nat {
    Word(b.lanes[4], b.lanes[5])
  }

  function EthertypeBeat2(b: Beat): nat {
    Word(b.lanes[0], b.lanes[1])
  }

  function EthSniff(x: (), n: nat, b: Beat): ((), Option<Ctl>) {
    ((),
     if b.last then Some(Ctl(14, 0, true))
     else if n == 1 then
       if EthertypeBeat1(b) != ETHERTYPE_VLAN then Some(Ctl(14, 0, EthertypeBeat1(b) != ETHERTYPE_IPV4)) else None
     else if n == 2 then Some(Ctl(18, 0, EthertypeBeat2(b) != ETHERTYPE_IPV4))
     else None)
  }

  // The decision as a function of the whole frame: a frame that ends in the sniffed beats is dropped.
  function EthDecide(f: seq<Byte>): Ctl {
    if |f| <= 16 then Ctl(14, 0, true)
    else if U16(f, 12) != ETHERTYPE_VLAN then Ctl(14, 0, U16(f, 12) != ETHERTYPE_IPV4)
    else if |f| <= 24 then Ctl(14, 0, true)
    else Ctl(18, 0, U16(f, 16) != ETHERTYPE_IPV4)
  }

  ghost predicate EthGood(x: (), j: nat, f: seq<Byte>) {
    j == 1 || (j == 2 && |f| > 16 && U16(f, 12) == ETHERTYPE_VLAN)
  }

  predicate AnyFrame(f: seq<Byte>) {
    true
  }

  // A full or last beat shows the frame's bytes in its lanes.
  lemma LanesAre(f: seq<Byte>, n: nat, b: Beat, i: nat)
    requires Aligned(b) && n < |f| && See(b) == NextBeat(f, n) && i < 8 && n + i < |f|
    ensures b.lanes[i] == f[n + i]
  {
    AlignedKept(b, 0);
    assert Kept(b)[i] == f[n + i];
  }

  lemma LastIs(f: seq<Byte>, n: nat, b: Beat)
    requires Aligned(b) && n < |f| && See(b) == NextBeat(f, n)
    ensures b.last <==> |f| <= n + 8
    ensures forall i | 0 <= i < 8 :: b.keep[i] <==> n + i < |f|
  {
    AlignedKept(b, 0);
  }

  lemma EthSound()
    ensures Sound(EthSniff, EthDecide, AnyFrame, EthGood)
  {
    forall x: (), j: nat, f, b | AnyFrame(f)
      ensures SniffRight(EthSniff, EthDecide, EthGood, x, j, f, b)
    {
      if (j == 0 || EthGood(x, j, f)) && 8 * j < |f| && Aligned(b) && See(b) == NextBeat(f, 8 * j) {
        EthSniffRight(j, f, b);
      }
    }
  }

  lemma EthSniffRight(j: nat, f: seq<Byte>, b: Beat)
    requires j == 0 || EthGood((), j, f)
    requires 8 * j < |f| && Aligned(b) && See(b) == NextBeat(f, 8 * j)
    ensures var d := EthSniff((), j, b).1;
            if d.Some? then d.value == EthDecide(f) else !b.last && EthGood((), j + 1, f)
  {
    LastIs(f, 8 * j, b);
    if !b.last {
      LanesAre(f, 8 * j, b, 0);
      LanesAre(f, 8 * j, b, 1);
      LanesAre(f, 8 * j, b, 4);
      LanesAre(f, 8 * j, b, 5);
    }
  }

  function EthOut(f: seq<Byte>): seq<Byte> {
    Slice(JobOf(EthDecide(f), f))
  }

  // The hardware's Ethernet layer agrees with the reference on a frame unless it is an IPv4 frame so short
  // that its payload begins in the beats that are sniffed.
  lemma EthAgreesIff(f: seq<Byte>)
    ensures EthOut(f) == OrEmpty(UnwrapEth(f)) <==>
            && !(15 <= |f| <= 16 && U16(f, 12) == ETHERTYPE_IPV4)
            && !(19 <= |f| <= 24 && U16(f, 12) == ETHERTYPE_VLAN && U16(f, 16) == ETHERTYPE_IPV4)
  {
  }

  // Whatever arrives, the parking room of three beats is never overrun.
  lemma EthKeepsRoom(l: Layer<()>, i: LayerIn)
    requires |l.gear.buf| == 16 && Roomy(l, 3)
    ensures Roomy(LayerStep(EthSniff, l, i), 3)
  {
    hide Step;
  }

  // The module: three parked beats, no header register.
  class EthParser {
    const core: HoldReplay<()>

    ghost predicate Valid()
      reads this, core, core.hb, core.gear
    {
      core.Valid() && core.sniff == EthSniff && core.hb.Length == 3 && Roomy(core.State(), 3)
    }

    lemma Shape()
      requires Valid()
      ensures core.Valid()
    {
    }

    constructor ()
      ensures Valid() && core.State() == ResetLayer(()) && fresh(core) && fresh(core.hb) && fresh(core.gear)
    {
      core := new HoldReplay<()>(EthSniff, 3, ());
    }

    method Clock(i: LayerIn)
      requires Valid()
      modifies core, core.hb, core.gear
      ensures Valid() && core.State() == LayerStep(EthSniff, old(core.State()), i)
    {
      hide LayerStep;
      EthKeepsRoom(core.State(), i);
      core.Clock(i);
    }
  }
}
