// The clocked hold-and-replay module: the register file and state machine that fpga/rtl/eth_parser.v,
// ipv4_parser.v and mold_parser.v have in common, around a gearbox. Only the sniffer differs.
module HoldReplays {
  import opened Options
  import opened Axis
  import opened Gearboxes
  import opened Layers

  class HoldReplay<X> {
    const sniff: Sniffer<X>
    const hb: array<Beat> // opening beats parked while the header is sniffed
    const gear: AxisSkipAlign
    var emit: bool // S_EMIT, else S_SNIFF
    var nheld: nat
    var drainIdx: nat
    var ctl: Ctl // skip_r, keep_r, drop_r
    var x: X

    ghost predicate Valid()
      reads this, hb, gear
    {
      nheld <= hb.Length && |gear.buf| == 16
    }

    function State(): (l: Layer<X>)
      requires Valid()
      reads this, hb, gear
      ensures |l.gear.buf| == 16
    {
      Layer(emit, hb[..nheld], drainIdx, ctl, x, gear.Regs())
    }

    // Ready is combinational.
    function Ready(mReady: bool): (r: bool)
      requires Valid()
      reads this, hb, gear
      ensures r == LayerReady(State(), mReady)
    {
      !emit || (drainIdx >= nheld && SReady(gear.Regs(), mReady))
    }

    constructor (sniff: Sniffer<X>, room: nat, x0: X)
      ensures Valid() && fresh(hb) && fresh(gear) && hb.Length == room
      ensures State() == ResetLayer(x0) && this.sniff == sniff
    {
      this.sniff := sniff;
      hb := new Beat[room](_ => RawBeat(seq(8, _ => 0), seq(8, _ => false), false));
      gear := new AxisSkipAlign();
      emit, nheld, drainIdx, ctl, x := false, 0, 0, Ctl(0, 0, false), x0;
      new;
      assert hb[..0] == [];
    }

    method Clock(i: LayerIn)
      requires Valid() && (!emit ==> nheld < hb.Length)
      modifies this, hb, gear
      ensures Valid() && State() == LayerStep(sniff, old(State()), i)
    {
      hide Step;
      var draining := drainIdx < nheld;
      var gReady := SReady(gear.Regs(), i.mReady);
      // Stream muxing: nothing while sniffing, a held beat while draining, the input thereafter.
      gear.Clock(In(if !emit then false else if draining then true else i.valid,
                    if emit && draining then hb[drainIdx] else i.beat,
                    ctl.skip, ctl.keepLen, ctl.drop, i.mReady));
      if !emit {
        if i.valid {
          Hold(i.beat);
        }
      } else if draining {
        if gReady {
          if hb[drainIdx].last {
            emit, nheld, drainIdx := false, 0, 0;
          } else {
            drainIdx := drainIdx + 1;
          }
        }
      } else if i.valid && gReady && i.beat.last {
        emit, nheld, drainIdx := false, 0, 0;
      }
    }

    // Park the beat being accepted, and decide if it shows enough.
    method Hold(b: Beat)
      requires Valid() && !emit && nheld < hb.Length
      modifies this`emit, this`nheld, this`drainIdx, this`ctl, this`x, hb
      ensures Valid() && nheld == old(nheld) + 1 && hb[..nheld] == old(hb[..nheld]) + [b]
      ensures var (x', d) := sniff(old(x), old(nheld), b);
              && x == x' && emit == d.Some?
              && ctl == (if d.Some? then d.value else old(ctl))
              && drainIdx == if d.Some? then 0 else old(drainIdx)
    {
      var (x', d) := sniff(x, nheld, b);
      hb[nheld] := b;
      nheld, x := nheld + 1, x';
      if d.Some? {
        ctl, emit, drainIdx := d.value, true, 0;
      }
    }
  }

  // A layer whose sniffer has decided by the time the parking room is full never overruns it.
  ghost predicate Roomy<X>(l: Layer<X>, room: nat) {
    |l.held| <= room && (!l.emit ==> |l.held| < room)
  }
}
