// The IPv4 layer (fpga/rtl/ipv4_parser.v): the header checksum is summed beat by beat while the header
// is held, and the decision is taken on the beat that completes it.
module Ipv4Parsers {
  import opened Options
  import opened Bytes
  import opened Axis
  import opened Checksums
  import opened Gearboxes
  import opened Layers
  import opened HoldReplays
  import opened FrameRef
  import opened EthParsers

  // Header facts: lengths, version/length/protocol reject, running sum.
  datatype IpRegs = IpRegs(ihl: nat, total: nat, bad: bool, csum: nat)

  const RESET_REGS: IpRegs := IpRegs(0, 0, false, 0)

  function HalfSum(b: Beat): nat {
    Word(b.lanes[0], b.lanes[1]) + Word(b.lanes[2], b.lanes[3])
  }

  function FullSum(b: Beat): nat {
    HalfSum(b) + Word(b.lanes[4], b.lanes[5]) + Word(b.lanes[6], b.lanes[7])
  }

  function IhlNow(x: IpRegs, n: nat, b: Beat): nat {
    if n == 0 then b.lanes[0] % 16 * 4 else x.ihl
  }

  // Header bytes left when a beat starts, in sixteen bits.
  function HeaderLeft(x: IpRegs, n: nat, b: Beat): nat {
    (IhlNow(x, n, b) - 8 * n) % 65536
  }

  function CsumNext(x: IpRegs, n: nat, b: Beat): nat {
    var left := HeaderLeft(x, n, b);
    if n == 0 then FullSum(b)
    else (x.csum + (if left >= 8 then FullSum(b) else if left == 4 then HalfSum(b) else 0)) % WORD32
  }

  function Ipv4Regs(x: IpRegs, n: nat, b: Beat): IpRegs {
    IpRegs(IhlNow(x, n, b),
           if n == 0 then Word(b.lanes[2], b.lanes[3]) else x.total,
           if n == 0 then b.lanes[0] / 16 != 4 || b.lanes[0] % 16 < 5
           else if n == 1 then x.bad || b.lanes[1] != IP_PROTO_UDP else x.bad,
           CsumNext(x, n, b))
  }

  // The decision looks at the registers as they were before this beat.
  function Ipv4Sniff(x: IpRegs, n: nat, b: Beat): (IpRegs, Option<Ctl>) {
    var ihl := IhlNow(x, n, b);
    (Ipv4Regs(x, n, b),
     if b.last then Some(Ctl(20, 0, true))
     else if HeaderLeft(x, n, b) <= 8 then
       Some(Ctl(ihl, if x.total > x.ihl then x.total - x.ihl else 0,
                x.bad || !CsumOk(CsumNext(x, n, b)) || x.total < ihl))
     else None)
  }

  // A header shorter than three words would be decided on its first beat, from stale registers; only a
  // packet that ends there is safe from it.
  predicate Ipv4Scope(p: seq<Byte>) {
    |p| <= 8 || p[0] % 16 >= 3
  }

  function HeaderBeats(p: seq<Byte>): nat
    requires p != []
  {
    (Ihl(p) + 7) / 8
  }

  predicate BadHeader(p: seq<Byte>)
    requires |p| >= 10
  {
    p[0] / 16 != 4 || p[0] % 16 < 5 || p[9] != IP_PROTO_UDP
  }

  // The decision as a function of the whole packet.
  function Ipv4Decide(p: seq<Byte>): Ctl {
    if |p| <= 8 || |p| <= 8 * HeaderBeats(p) || |p| < 10 || |p| < Ihl(p) then Ctl(20, 0, true)
    else
      var total := U16(p, 2);
      Ctl(Ihl(p), if total > Ihl(p) then total - Ihl(p) else 0,
          BadHeader(p) || !CsumOk(WordSum(p[..Ihl(p)])) || total < Ihl(p))
  }

  ghost predicate Ipv4Good(x: IpRegs, j: nat, p: seq<Byte>) {
    && 1 <= j && 8 * j <= |p| && 8 * j < Ihl(p) && x.ihl == Ihl(p) && x.total == U16(p, 2)
    && x.bad == (p[0] / 16 != 4 || p[0] % 16 < 5 || (j >= 2 && p[9] != IP_PROTO_UDP))
    && x.csum == WordSum(p[..8 * j])
  }

  // ---- the sum, beat by beat ----

  lemma SumOfHalf(b: seq<Byte>)
    requires |b| == 4
    ensures WordSum(b) == Word(b[0], b[1]) + Word(b[2], b[3])
  {
    SumNext(b);
    SumNext(b[2..]);
    SumNext(b[2..][2..]);
  }

  lemma SumOfBeat(b: seq<Byte>)
    requires |b| == 8
    ensures WordSum(b) == Word(b[0], b[1]) + Word(b[2], b[3]) + Word(b[4], b[5]) + Word(b[6], b[7])
  {
    SumOfHalf(b[..4]);
    SumOfHalf(b[4..]);
    WordSumConcat(b[..4], b[4..]);
    assert b == b[..4] + b[4..];
  }

  lemma SumGrows(p: seq<Byte>, n: nat, m: nat)
    requires n % 2 == 0 && n + m <= |p|
    ensures WordSum(p[..n + m]) == WordSum(p[..n]) + WordSum(p[n..n + m])
  {
    assert p[..n + m] == p[..n] + p[n..n + m];
    WordSumConcat(p[..n], p[n..n + m]);
  }

  // The lanes of a beat that is not the last.
  lemma BeatIs(p: seq<Byte>, n: nat, b: Beat)
    requires Aligned(b) && n + 8 <= |p| && See(b) == NextBeat(p, n) && !b.last
    ensures b.lanes == p[n..n + 8]
  {
    AlignedKept(b, 0);
  }

  // Header bytes left, without the sixteen-bit wrap.
  lemma LeftIs(x: IpRegs, j: nat, p: seq<Byte>, b: Beat)
    requires j == 0 || Ipv4Good(x, j, p)
    requires 8 * j + 8 <= |p| && b.lanes == p[8 * j..8 * j + 8]
    ensures IhlNow(x, j, b) == Ihl(p) && HeaderLeft(x, j, b) == Ihl(p) - 8 * j <= 60
  {
    hide WordSum;
  }

  lemma CsumNextIs(x: IpRegs, j: nat, p: seq<Byte>, b: Beat)
    requires j == 0 || Ipv4Good(x, j, p)
    requires 8 * j + 8 <= |p| && b.lanes == p[8 * j..8 * j + 8] && Ihl(p) >= 12
    ensures CsumNext(x, j, b) == WordSum(p[..if Ihl(p) < 8 * j + 8 then Ihl(p) else 8 * j + 8])
  {
    hide WordSum, Word, HeaderLeft;
    LeftIs(x, j, p, b);
    var q := p[8 * j..8 * j + 8];
    SumOfBeat(q);
    if j == 0 {
      assert p[..8] == q;
    } else if Ihl(p) - 8 * j >= 8 {
      SumGrows(p, 8 * j, 8);
      WordSumBound(p[..8 * j + 8]);
    } else {
      SumOfHalf(q[..4]);
      assert q[..4] == p[8 * j..8 * j + 4];
      SumGrows(p, 8 * j, 4);
      WordSumBound(p[..8 * j + 4]);
    }
  }

  lemma Ipv4SniffRight(x: IpRegs, j: nat, p: seq<Byte>, b: Beat)
    requires Ipv4Scope(p) && (j == 0 || Ipv4Good(x, j, p))
    requires 8 * j < |p| && Aligned(b) && See(b) == NextBeat(p, 8 * j)
    ensures var (x', d) := Ipv4Sniff(x, j, b);
            if d.Some? then d.value == Ipv4Decide(p) else !b.last && Ipv4Good(x', j + 1, p)
  {
    hide *;
    LastIs(p, 8 * j, b);
    if b.last {
      LastBeatRight(x, j, p, b);
    } else {
      BeatIs(p, 8 * j, b);
      LeftIs(x, j, p, b);
      ScopeIs(p);
      CsumNextIs(x, j, p, b);
      if j == 0 { FirstBeatRight(x, p, b); } else { LaterBeatRight(x, j, p, b); }
    }
  }

  lemma ScopeIs(p: seq<Byte>)
    requires Ipv4Scope(p) && |p| > 8
    ensures Ihl(p) >= 12
  {
  }

  lemma LastBeatRight(x: IpRegs, j: nat, p: seq<Byte>, b: Beat)
    requires (j == 0 || Ipv4Good(x, j, p)) && b.last && 0 < |p| <= 8 * j + 8
    ensures Ipv4Sniff(x, j, b).1 == Some(Ipv4Decide(p))
  {
    hide WordSum, CsumOk, CsumNext, HeaderLeft, Word;
  }

  lemma FirstBeatRight(x: IpRegs, p: seq<Byte>, b: Beat)
    requires Ipv4Scope(p) && 8 < |p| && b.lanes == p[0..8] && !b.last
    requires CsumNext(x, 0, b) == WordSum(p[..8])
    requires HeaderLeft(x, 0, b) == Ihl(p) >= 12
    ensures Ipv4Sniff(x, 0, b).1.None? && Ipv4Good(Ipv4Sniff(x, 0, b).0, 1, p)
  {
    hide WordSum, CsumOk, CsumNext, HeaderLeft;
  }

  lemma LaterBeatRight(x: IpRegs, j: nat, p: seq<Byte>, b: Beat)
    requires j > 0 && Ipv4Good(x, j, p) && 8 * j + 8 < |p| && b.lanes == p[8 * j..8 * j + 8] && !b.last
    requires Ihl(p) >= 12 && HeaderLeft(x, j, b) == Ihl(p) - 8 * j
    requires CsumNext(x, j, b) == WordSum(p[..if Ihl(p) < 8 * j + 8 then Ihl(p) else 8 * j + 8])
    ensures var (x', d) := Ipv4Sniff(x, j, b);
            if d.Some? then d.value == Ipv4Decide(p) else Ipv4Good(x', j + 1, p)
  {
    hide WordSum, CsumOk, CsumNext, HeaderLeft, Word;
  }

  lemma Ipv4Sound()
    ensures Sound(Ipv4Sniff, Ipv4Decide, Ipv4Scope, Ipv4Good)
  {
    hide Ipv4Sniff, Ipv4Decide, Ipv4Good, Ipv4Scope, NextBeat, KeptFrom;
    forall x: IpRegs, j: nat, f, b | Ipv4Scope(f)
      ensures SniffRight(Ipv4Sniff, Ipv4Decide, Ipv4Good, x, j, f, b)
    {
      if (j == 0 || Ipv4Good(x, j, f)) && 8 * j < |f| && Aligned(b) && See(b) == NextBeat(f, 8 * j) {
        Ipv4SniffRight(x, j, f, b);
      }
    }
  }

  // ---- against the reference ----

  function Ipv4Out(p: seq<Byte>): seq<Byte> {
    Slice(JobOf(Ipv4Decide(p), p))
  }

  // A header the reference accepts, its total length apart.
  predicate GoodHeader(p: seq<Byte>) {
    && |p| >= 20 && p[0] / 16 == 4 && 20 <= Ihl(p) <= |p| && p[9] == IP_PROTO_UDP
    && StepSum(p[..Ihl(p)], 0) == 65535
  }

  // Where hardware and reference part: a payload that ends in the beats of the header, a total length
  // equal to the header's (the gearbox takes length zero for "to the end"), and a total length that
  // claims more than there is.
  predicate Ipv4Parts(p: seq<Byte>) {
    && GoodHeader(p)
    && if |p| <= 8 * HeaderBeats(p) then Ihl(p) < U16(p, 2) <= |p| else U16(p, 2) == Ihl(p) || U16(p, 2) > |p|
  }

  lemma Ipv4AgreesIff(p: seq<Byte>)
    requires Ipv4Scope(p)
    ensures Ipv4Out(p) == OrEmpty(UnwrapIpv4(p)) <==> !Ipv4Parts(p)
  {
    hide WordSum, CsumOk, StepSum;
    if |p| >= 20 && 20 <= Ihl(p) <= |p| {
      ChecksumsAgree(p[..Ihl(p)]);
    }
  }

  // ---- headers of fewer than three words: decided on the first beat, from the registers of before ----

  predicate ShortHeader(p: seq<Byte>) {
    |p| > 8 && p[0] % 16 < 3
  }

  function ShortDecide(x: IpRegs, p: seq<Byte>): Ctl
    requires ShortHeader(p)
  {
    Ctl(Ihl(p), if x.total > x.ihl then x.total - x.ihl else 0,
        x.bad || !CsumOk(WordSum(p[..8])) || x.total < Ihl(p))
  }

  lemma ShortHeaderDecision(x: IpRegs, p: seq<Byte>, b: Beat)
    requires ShortHeader(p) && Aligned(b) && See(b) == NextBeat(p, 0)
    ensures Ipv4Sniff(x, 0, b).1 == Some(ShortDecide(x, p))
  {
    hide WordSum, CsumOk, KeptFrom;
    LastIs(p, 0, b);
    BeatIs(p, 0, b);
    SumOfBeat(p[..8]);
    assert p[0..8] == p[..8];
  }

  // The reference rejects such a packet; the hardware does so exactly when those registers, or the sum of
  // the first beat, say so.
  lemma ShortHeaderAgreesIff(x: IpRegs, p: seq<Byte>)
    requires ShortHeader(p)
    ensures Slice(JobOf(ShortDecide(x, p), p)) == OrEmpty(UnwrapIpv4(p)) <==>
            x.bad || !CsumOk(WordSum(p[..8])) || x.total < Ihl(p)
  {
    hide WordSum, CsumOk, StepSum;
  }

  // A packet whose header of three words or more arrived, with data behind it.
  predicate FullHeader(q: seq<Byte>) {
    |q| > 8 && q[0] % 16 >= 3 && |q| > 8 * HeaderBeats(q)
  }

  // Beats that carry the header of q.
  ghost predicate Carries(bs: seq<Beat>, q: seq<Byte>)
    requires FullHeader(q)
  {
    && |bs| == HeaderBeats(q)
    && forall j | 0 <= j < |bs| :: Aligned(bs[j]) && See(bs[j]) == NextBeat(q, 8 * j)
  }

  // The registers after sniffing these beats.
  function SniffAll(x: IpRegs, bs: seq<Beat>): IpRegs {
    if bs == [] then x else Ipv4Regs(SniffAll(x, bs[..|bs| - 1]), |bs| - 1, bs[|bs| - 1])
  }

  lemma {:induction false} SniffedSoFar(x: IpRegs, q: seq<Byte>, bs: seq<Beat>, n: nat)
    requires FullHeader(q) && Carries(bs, q) && 0 < n < |bs|
    ensures Ipv4Good(SniffAll(x, bs[..n]), n, q)
  {
    hide Ipv4Sniff, Ipv4Good, Ipv4Regs, Ipv4Decide, KeptFrom, WordSum;
    assert bs[..n][..n - 1] == bs[..n - 1];
    if n > 1 { SniffedSoFar(x, q, bs, n - 1); }
    Ipv4SniffRight(SniffAll(x, bs[..n - 1]), n - 1, q, bs[n - 1]);
    SniffGoesOn(SniffAll(x, bs[..n - 1]), n - 1, q, bs[n - 1]);
  }

  // Before the last header beat there is no decision.
  lemma SniffGoesOn(x: IpRegs, j: nat, q: seq<Byte>, b: Beat)
    requires FullHeader(q) && (j == 0 || Ipv4Good(x, j, q)) && j + 1 < HeaderBeats(q)
    requires Aligned(b) && See(b) == NextBeat(q, 8 * j)
    ensures Ipv4Sniff(x, j, b).1 == None && Ipv4Sniff(x, j, b).0 == Ipv4Regs(x, j, b)
  {
    hide WordSum, CsumOk, KeptFrom, CsumNext;
    LastIs(q, 8 * j, b);
    BeatIs(q, 8 * j, b);
    LeftIs(x, j, q, b);
  }

  // What a packet leaves in the registers, whatever was there before.
  lemma LeavesRegisters(x: IpRegs, q: seq<Byte>, bs: seq<Beat>)
    requires FullHeader(q) && Carries(bs, q)
    ensures var z := SniffAll(x, bs); z.ihl == Ihl(q) && z.total == U16(q, 2) && z.bad == BadHeader(q)
  {
    hide WordSum, CsumNext, KeptFrom, SniffAll, NextBeat, Aligned;
    var n := |bs| - 1;
    SniffedSoFar(x, q, bs, n);
    LastSniffed(x, bs);
    LastIs(q, 8 * n, bs[n]);
    LanesAre(q, 8 * n, bs[n], 0);
    LanesAre(q, 8 * n, bs[n], 1);
  }

  lemma LastSniffed(x: IpRegs, bs: seq<Beat>)
    requires bs != []
    ensures SniffAll(x, bs) == Ipv4Regs(SniffAll(x, bs[..|bs| - 1]), |bs| - 1, bs[|bs| - 1])
  {
    hide Ipv4Regs;
  }

  // A short header behind a packet q is dropped exactly when this holds, which is not about it alone.
  predicate DroppedAfter(q: seq<Byte>, p: seq<Byte>)
    requires FullHeader(q) && ShortHeader(p)
  {
    BadHeader(q) || !CsumOk(WordSum(p[..8])) || U16(q, 2) < Ihl(p)
  }

  lemma ShortHeaderAfter(x: IpRegs, q: seq<Byte>, bs: seq<Beat>, p: seq<Byte>, b: Beat)
    requires FullHeader(q) && Carries(bs, q)
    requires ShortHeader(p) && Aligned(b) && See(b) == NextBeat(p, 0)
    ensures Ipv4Sniff(SniffAll(x, bs), 0, b).1 ==
            Some(Ctl(Ihl(p), if U16(q, 2) > Ihl(q) then U16(q, 2) - Ihl(q) else 0, DroppedAfter(q, p)))
  {
    hide WordSum, CsumOk, Ipv4Sniff, Carries, SniffAll;
    LeavesRegisters(x, q, bs);
    ShortHeaderDecision(SniffAll(x, bs), p, b);
  }

  lemma AllOnesAccepted()
    ensures CsumOk(65535)
  {
    hide CsumOk;
    CsumOkIff(65535, 65535);
  }

  // Two packets before, and the same short header behind them: accepted after the one, dropped after the
  // other, a TCP packet.
  lemma StaleDecision() returns (q: seq<Byte>, r: seq<Byte>, p: seq<Byte>)
    ensures FullHeader(q) && FullHeader(r) && ShortHeader(p)
    ensures !DroppedAfter(q, p) && DroppedAfter(r, p)
  {
    hide CsumOk;
    q := [0x45, 0, 0, 28, 0, 0, 0, 0, 64, 17, 0, 0, 10, 0, 0, 1, 10, 0, 0, 2, 0, 0, 0, 0, 0, 8, 0, 0];
    r := q[9 := 6];
    p := [0x40, 0, 0xBF, 0xFF, 0, 0, 0, 0, 0];
    hide WordSum;
    SumOfBeat(p[..8]);
    assert WordSum(p[..8]) == 65535;
    AllOnesAccepted();
    assert !BadHeader(q) && BadHeader(r) && U16(q, 2) == 28 && Ihl(p) == 0;
  }

  // Whatever arrives, the parking room of eight beats is never overrun.
  ghost predicate Ipv4Roomy(l: Layer<IpRegs>) {
    Roomy(l, 8) && (!l.emit && l.held != [] ==> 8 * |l.held| < l.x.ihl <= 60)
  }

  lemma Ipv4KeepsRoom(l: Layer<IpRegs>, i: LayerIn)
    requires |l.gear.buf| == 16 && Ipv4Roomy(l)
    ensures Ipv4Roomy(LayerStep(Ipv4Sniff, l, i))
  {
    hide Step, CsumOk, CsumNext;
  }

  // The module: eight parked beats, and the header facts.
  class Ipv4Parser {
    const core: HoldReplay<IpRegs>

    ghost predicate Valid()
      reads this, core, core.hb, core.gear
    {
      core.Valid() && core.sniff == Ipv4Sniff && core.hb.Length == 8 && Ipv4Roomy(core.State())
    }

    lemma Shape()
      requires Valid()
      ensures core.Valid()
    {
    }

    constructor ()
      ensures Valid() && core.State() == ResetLayer(RESET_REGS) && fresh(core) && fresh(core.hb) && fresh(core.gear)
    {
      core := new HoldReplay<IpRegs>(Ipv4Sniff, 8, RESET_REGS);
    }

    method Clock(i: LayerIn)
      requires Valid()
      modifies core, core.hb, core.gear
      ensures Valid() && core.State() == LayerStep(Ipv4Sniff, old(core.State()), i)
    {
      hide LayerStep;
      Ipv4KeepsRoom(core.State(), i);
      core.Clock(i);
    }
  }
}
