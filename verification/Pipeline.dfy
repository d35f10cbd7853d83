// Recorder, ring and aggregator together (metrics/include/metrics_recorder.hpp, spsc_ring.hpp and the run
// loop of aggregator.hpp), as interleaved atomic steps of the two threads.
module Pipelines {
  import opened Buckets
  import opened Recorders
  import opened Aggregators
  import Ring = SpscRings

  const DRAIN_BURST: nat := 4096

  // Where the aggregator's run loop is.
  datatype Pc = AtCheck | InBurst(i: nat) | AtRender | InDrain | AtFinal | Done

  // The recorder's counters, with the events attempted and whether they were accepted, the ring, the stop
  // flag, the aggregator with its histograms.
  datatype Pipe = Pipe(
    ring: Ring.Sys<Event>, mask: nat, calls: nat, attempts: seq<Event>, fate: seq<bool>, drops: nat, running: bool,
    pc: Pc, consumed: nat, tally: Tally)

  // The engine records an event; the producer, the aggregator take a step (loads name the value seen, and
  // whether a render is due is up to the clock); someone calls stop.
  datatype Move = Record(e: Event) | Produce(seenTail: nat) | Stop | Consume(seenHead: nat, due: bool)

  // The producer finishes before stop, and the final drain, which starts after stop is seen, sees its last
  // published index.
  predicate Enabled(s: Pipe, a: Move) {
    match a
    case Record(_) => s.running && s.ring.r.p.PIdle?
    case Produce(seen) => Ring.Enabled(s.ring, Ring.Produce(seen))
    case Stop => s.running && s.ring.r.p.PIdle?
    case Consume(seen, _) =>
      && !s.pc.Done?
      && (!s.ring.r.c.CIdle? ==>
            Ring.Enabled(s.ring, Ring.Consume(seen)) && (s.pc.InDrain? && s.ring.r.c.CLoad? ==> seen == s.ring.l.h))
  }

  function Recorded(s: Pipe, e: Event): Pipe {
    var n := if e.Latency? then s.(calls := s.calls + 1) else s;
    if e.Latency? && And(s.calls, s.mask) != 0 then n
    else n.(attempts := s.attempts + [e], ring := s.ring.(r := s.ring.r.(p := Ring.PCheck(e, s.ring.r.head))))
  }

  function Produced(s: Pipe, seen: nat): (z: Pipe)
    requires Ring.Shape(s.ring.r)
    ensures Ring.Shape(z.ring.r)
  {
    var r := Ring.Produced(s.ring, seen);
    if s.ring.r.p.PIdle? || !r.r.p.PIdle? then s.(ring := r)
    else
      var ok := r.l.h != s.ring.l.h;
      s.(ring := r, fate := s.fate + [ok], drops := if ok then s.drops else s.drops + 1)
  }

  // One step inside a pop; what follows when it returns.
  function Popping(s: Pipe, seen: nat, full: Pc, empty: Pc): (z: Pipe)
    requires Ring.Shape(s.ring.r)
    ensures Ring.Shape(z.ring.r)
  {
    var r := Ring.Consumed(s.ring, seen);
    if !r.r.c.CIdle? then s.(ring := r)
    else if r.l.popped == s.ring.l.popped || r.l.popped == [] then s.(ring := r, pc := empty)
    else
      s.(ring := r, pc := full, consumed := s.consumed + 1, tally := TallyIn(s.tally, r.l.popped[|r.l.popped| - 1]))
  }

  function Rolled(s: Pipe): Pipe {
    s.(tally := TallyRolled(s.tally))
  }

  function StartPop(s: Pipe): Pipe {
    s.(ring := s.ring.(r := s.ring.r.(c := Ring.CCheck(s.ring.r.tail))))
  }

  function Consumed(s: Pipe, seen: nat, due: bool): (z: Pipe)
    requires Ring.Shape(s.ring.r)
    ensures Ring.Shape(z.ring.r)
  {
    match s.pc
    case AtCheck => s.(pc := if s.running then InBurst(0) else InDrain)
    case InBurst(i) =>
      if !s.ring.r.c.CIdle? then Popping(s, seen, InBurst(i + 1), AtRender)
      else if i >= DRAIN_BURST then s.(pc := AtRender)
      else StartPop(s)
    case AtRender => (if due then Rolled(s) else s).(pc := AtCheck)
    case InDrain => if s.ring.r.c.CIdle? then StartPop(s) else Popping(s, seen, InDrain, AtFinal)
    case AtFinal => Rolled(s).(pc := Done)
    case Done => s
  }

  function Next(s: Pipe, a: Move): (z: Pipe)
    requires Ring.Shape(s.ring.r)
    ensures Ring.Shape(z.ring.r)
  {
    match a
    case Record(e) => Recorded(s, e)
    case Produce(seen) => Produced(s, seen)
    case Stop => s.(running := false)
    case Consume(seen, due) => Consumed(s, seen, due)
  }

  function Start(m: nat, buf: seq<Event>, mask: nat): Pipe {
    Pipe(Ring.Start(m, buf), mask, 0, [], [], 0, true, AtCheck, 0, NO_TALLY)
  }

  // ---- the invariant ----

  function Latencies(es: seq<Event>): nat {
    if es == [] then 0 else Latencies(es[..|es| - 1]) + if es[|es| - 1].Latency? then 1 else 0
  }

  // Every attempt is pushed, refused, or under way; every sampled latency is attempted.
  ghost predicate Accounted(s: Pipe) {
    && Attempted(s.ring.r.p, s.attempts, s.fate, s.ring.l.pushed)
    && s.drops == Refused(s.fate) && |s.ring.l.pushed| == s.ring.l.h
    && Latencies(s.attempts) == Sampled(s.calls, s.mask)
    && s.consumed == |s.ring.l.popped| && TallyOf(s.tally, s.ring.l.popped)
  }

  // What was pushed are the accepted ones of the attempts that are decided; a push under way has the last one.
  ghost predicate Attempted(p: Ring.Producer<Event>, attempts: seq<Event>, fate: seq<bool>, pushed: seq<Event>) {
    var n := |fate|;
    && n <= |attempts| && pushed == Accepted(attempts[..n], fate)
    && if p.PIdle? then n == |attempts| else n + 1 == |attempts| && p.v == attempts[n]
  }

  ghost predicate Phased(s: Pipe) {
    && (!s.running ==> s.ring.r.p.PIdle?)
    && (s.pc.InDrain? || s.pc.AtFinal? || s.pc.Done? ==> !s.running)
    && (!s.pc.InBurst? && !s.pc.InDrain? ==> s.ring.r.c.CIdle?)
    && (s.pc.InDrain? && s.ring.r.c.CRecheck? ==> s.ring.l.hc == s.ring.l.h)
    && (s.pc.AtFinal? || s.pc.Done? ==> s.ring.l.t == s.ring.l.h)
    && (s.pc.Done? ==> forall op: nat | op < NUM_OPS :: s.tally.win[op] == [])
  }

  ghost predicate Inv(s: Pipe) {
    Ring.Inv(s.ring) && Accounted(s) && Phased(s)
  }

  lemma StartOk(m: nat, buf: seq<Event>, mask: nat)
    requires 0 < |buf| < m && m % |buf| == 0
    ensures Inv(Start(m, buf, mask))
  {
    Ring.StartOk(m, buf);
  }

  lemma RecordKeeps(s: Pipe, e: Event)
    requires Inv(s) && Enabled(s, Record(e))
    ensures Inv(Recorded(s, e))
  {
    hide Ring.Inv, And, TallyOf, Accepted, Refused;
    Ring.InvShape(s.ring);
    Ring.NextKeeps(s.ring, Ring.Push(e));
    assert (s.attempts + [e])[..|s.attempts|] == s.attempts == s.attempts[..|s.attempts|];
  }

  // What one step of a push does to the counts.
  lemma PushCounts(r: Ring.Sys<Event>, seen: nat)
    requires Ring.Inv(r) && !r.r.p.PIdle?
    ensures var z := Ring.Produced(r, seen);
            && z.l.popped == r.l.popped && z.r.c == r.r.c && z.l.t == r.l.t && z.l.hc == r.l.hc
            && (if z.l.h == r.l.h then z.l.pushed == r.l.pushed
                else z.l.h == r.l.h + 1 && z.r.p.PIdle? && z.l.pushed == r.l.pushed + [r.r.p.v])
            && (!z.r.p.PIdle? ==> z.r.p.v == r.r.p.v)
  {
  }

  // One attempt more is decided.
  lemma FateNext(attempts: seq<Event>, fate: seq<bool>, ok: bool)
    requires |fate| < |attempts|
    ensures var n := |fate|;
            && Accepted(attempts[..n + 1], fate + [ok]) ==
               Accepted(attempts[..n], fate) + (if ok then [attempts[n]] else [])
            && Refused(fate + [ok]) == Refused(fate) + if ok then 0 else 1
  {
    var n := |fate|;
    var decided, fates := attempts[..n + 1], fate + [ok];
    assert |decided| == n + 1 && decided[..n] == attempts[..n] && decided[n] == attempts[n];
    assert fates[..n] == fate && fates[n] == ok;
    assert Refused(fates) == Refused(fates[..n]) + if fates[n] then 0 else 1;
    assert Accepted(decided, fates) == Accepted(decided[..n], fates[..n]) + if fates[n] then [decided[n]] else [];
  }

  lemma ProduceKeeps(s: Pipe, seen: nat)
    requires Inv(s) && Enabled(s, Produce(seen))
    ensures Inv(Produced(s, seen))
  {
    hide Ring.Inv, Ring.Produced, Latencies, Sampled, TallyOf, Accepted, Refused;
    Ring.InvShape(s.ring);
    Ring.ProducerKeeps(s.ring, seen);
    PushCounts(s.ring, seen);
    FateNext(s.attempts, s.fate, Produced(s, seen).ring.l.h != s.ring.l.h);
  }

  // What one step of a pop does.
  lemma PopCounts(r: Ring.Sys<Event>, seen: nat)
    requires Ring.Inv(r) && !r.r.c.CIdle?
    ensures var z := Ring.Consumed(r, seen);
            && z.r.p == r.r.p && z.l.h == r.l.h && z.l.pushed == r.l.pushed
            && (z.l.popped == r.l.popped ||
                (|z.l.popped| > 0 && z.l.popped[..|z.l.popped| - 1] == r.l.popped && z.r.c.CIdle?))
            && (z.r.c.CRecheck? ==> r.r.c.CLoad? && z.l.hc == seen)
            && (z.r.c.CIdle? && z.l.popped == r.l.popped ==> r.r.c.CRecheck? && r.l.hc == r.l.t == z.l.t)
  {
    hide Ring.Stored, Ring.ProducerOk;
    Ring.WrapEqual(r.l.hc, r.l.t, r.r.m);
    if r.r.c.CStore? {
      assert (r.l.popped + [r.r.c.out])[..|r.l.popped|] == r.l.popped;
    }
  }

  lemma PopAccounted(s: Pipe, seen: nat, full: Pc, empty: Pc)
    requires Ring.Inv(s.ring) && Accounted(s) && !s.ring.r.c.CIdle?
    ensures Ring.Shape(s.ring.r) && Accounted(Popping(s, seen, full, empty))
    ensures Popping(s, seen, full, empty).ring == Ring.Consumed(s.ring, seen)
    ensures Popping(s, seen, full, empty).running == s.running
  {
    hide Ring.Inv, Ring.Consumed, Latencies, Sampled, TallyOf, TallyIn, Accepted, Refused;
    Ring.InvShape(s.ring);
    PopCounts(s.ring, seen);
    var z := Ring.Consumed(s.ring, seen);
    if z.l.popped != s.ring.l.popped {
      assert z.l.popped == s.ring.l.popped + [z.l.popped[|z.l.popped| - 1]];
      TallyInKeeps(s.tally, s.ring.l.popped, z.l.popped[|z.l.popped| - 1]);
    }
  }

  lemma PopKeeps(s: Pipe, seen: nat, due: bool)
    requires Inv(s) && Enabled(s, Consume(seen, due)) && !s.ring.r.c.CIdle?
    ensures Inv(Consumed(s, seen, due))
  {
    hide Ring.Inv, Ring.Consumed, Accounted, Ring.Shape;
    Ring.InvShape(s.ring);
    Ring.ConsumerKeeps(s.ring, seen);
    PopCounts(s.ring, seen);
    if s.pc.InBurst? {
      PopAccounted(s, seen, InBurst(s.pc.i + 1), AtRender);
    } else {
      PopAccounted(s, seen, InDrain, AtFinal);
    }
  }

  lemma LoopKeeps(s: Pipe, seen: nat, due: bool)
    requires Inv(s) && Enabled(s, Consume(seen, due)) && s.ring.r.c.CIdle?
    ensures Inv(Consumed(s, seen, due))
  {
    hide Ring.Inv, Latencies, Sampled, TallyOf, TallyRolled;
    Ring.InvShape(s.ring);
    Ring.NextKeeps(s.ring, Ring.Pop);
    TallyRolledKeeps(s.tally, s.ring.l.popped);
  }

  lemma NextKeeps(s: Pipe, a: Move)
    requires Inv(s) && Enabled(s, a)
    ensures Inv(Next(s, a))
  {
    hide Ring.Inv, Recorded, Produced, Consumed, Latencies, Sampled;
    Ring.InvShape(s.ring);
    match a {
      case Record(e) => RecordKeeps(s, e);
      case Produce(seen) => ProduceKeeps(s, seen);
      case Stop =>
      case Consume(seen, due) =>
        if s.ring.r.c.CIdle? { LoopKeeps(s, seen, due); } else { PopKeeps(s, seen, due); }
    }
  }

  // ---- every run ----

  ghost predicate Allowed(s: Pipe, run: seq<Move>)
    requires Ring.Shape(s.ring.r)
    decreases |run|
  {
    run == [] || (Enabled(s, run[0]) && Allowed(Next(s, run[0]), run[1..]))
  }

  function End(s: Pipe, run: seq<Move>): (e: Pipe)
    requires Ring.Shape(s.ring.r)
    ensures Ring.Shape(e.ring.r)
    decreases |run|
  {
    if run == [] then s else End(Next(s, run[0]), run[1..])
  }

  lemma {:induction false} RunKeeps(s: Pipe, run: seq<Move>)
    requires Inv(s) && Ring.Shape(s.ring.r) && Allowed(s, run)
    ensures Inv(End(s, run))
    decreases |run|
  {
    hide Next, Enabled, Inv;
    if run != [] {
      NextKeeps(s, run[0]);
      RunKeeps(Next(s, run[0]), run[1..]);
    }
  }

  lemma {:induction false} MaskStays(s: Pipe, run: seq<Move>)
    requires Ring.Shape(s.ring.r)
    ensures End(s, run).mask == s.mask
    decreases |run|
  {
    hide Ring.Produced, Ring.Consumed, And, TallyIn, TallyRolled;
    if run != [] { MaskStays(Next(s, run[0]), run[1..]); }
  }

  // The events the engine records over a run,
  function Recordings(run: seq<Move>): seq<Event> {
    if run == [] then [] else (if run[0].Record? then [run[0].e] else []) + Recordings(run[1..])
  }

  // and those of them that are attempted: every p-th latency, the first one included, and all others.
  function Chosen(es: seq<Event>, latencies: nat, p: nat): seq<Event>
    requires p > 0
  {
    if es == [] then []
    else if !es[0].Latency? then [es[0]] + Chosen(es[1..], latencies, p)
    else (if latencies % p == 0 then [es[0]] else []) + Chosen(es[1..], latencies + 1, p)
  }

  lemma StepChooses(s: Pipe, a: Move, k: nat)
    requires Ring.Shape(s.ring.r) && s.mask == Pow2(k) - 1
    ensures var z := Next(s, a);
            && z.mask == s.mask
            && z.calls == s.calls + (if a.Record? && a.e.Latency? then 1 else 0)
            && z.attempts == s.attempts +
                             if a.Record? && (a.e.Latency? ==> s.calls % Pow2(k) == 0) then [a.e] else []
  {
    hide Ring.Produced, Ring.Consumed, And, TallyIn, TallyRolled, Pow2;
    MaskIsRemainder(s.calls, k);
  }

  lemma {:induction false} AttemptsAreChosen(s: Pipe, run: seq<Move>, k: nat)
    requires Ring.Shape(s.ring.r) && s.mask == Pow2(k) - 1
    ensures End(s, run).attempts == s.attempts + Chosen(Recordings(run), s.calls, Pow2(k))
    decreases |run|
  {
    hide Next, Pow2, Chosen;
    if run == [] {
      ChosenNone(s.calls, Pow2(k));
    } else {
      StepChooses(s, run[0], k);
      AttemptsAreChosen(Next(s, run[0]), run[1..], k);
      if run[0].Record? {
        ChosenNext(run[0].e, Recordings(run[1..]), s.calls, Pow2(k));
      } else {
        assert Recordings(run) == Recordings(run[1..]);
      }
    }
  }

  lemma ChosenNone(latencies: nat, p: nat)
    requires p > 0
    ensures Chosen([], latencies, p) == []
  {
  }

  lemma ChosenNext(e: Event, es: seq<Event>, latencies: nat, p: nat)
    requires p > 0
    ensures Chosen([e] + es, latencies, p) ==
            if !e.Latency? then [e] + Chosen(es, latencies, p)
            else (if latencies % p == 0 then [e] else []) + Chosen(es, latencies + 1, p)
  {
    assert ([e] + es)[1..] == es;
  }

  // At the end of every run: attempted were one latency in 2^k and every other event recorded; each attempt
  // was pushed, in order, or dropped; what was consumed plus what was dropped is what was attempted; and the
  // total histograms hold exactly the ticks of what was pushed, in order.
  lemma NothingIsLost(m: nat, buf: seq<Event>, k: nat, run: seq<Move>)
    requires 0 < |buf| < m && m % |buf| == 0
    requires Allowed(Start(m, buf, Pow2(k) - 1), run)
    ensures var e := End(Start(m, buf, Pow2(k) - 1), run);
            && e.attempts == Chosen(Recordings(run), 0, Pow2(k))
            && Latencies(e.attempts) == (e.calls + Pow2(k) - 1) / Pow2(k)
            && (e.pc.Done? ==>
                  && |e.fate| == |e.attempts| && e.ring.l.pushed == Accepted(e.attempts, e.fate)
                  && e.drops == Refused(e.fate) && e.consumed + e.drops == |e.attempts|
                  && forall op: nat | op < NUM_OPS :: e.tally.cum[op] == Ticks(e.ring.l.pushed, op))
  {
    hide Ring.Inv, Latencies, Sampled, Pow2, Ticks, Accepted, Refused, Chosen, Recordings;
    var s := Start(m, buf, Pow2(k) - 1);
    StartOk(m, buf, Pow2(k) - 1);
    RunKeeps(s, run);
    MaskStays(s, run);
    AttemptsAreChosen(s, run, k);
    var e := End(s, run);
    SampledIsCeiling(e.calls, k);
    if e.pc.Done? {
      Ring.InvOrder(e.ring);
      FatesAddUp(e.attempts, e.fate);
      assert e.attempts[..|e.fate|] == e.attempts;
      assert e.ring.l.pushed[..e.ring.l.t] == e.ring.l.pushed;
      assert forall op: nat | op < NUM_OPS :: e.tally.cum[op] + e.tally.win[op] == e.tally.cum[op];
    }
  }
}
