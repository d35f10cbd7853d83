// The consumer of the metrics ring (metrics/include/aggregator.hpp): folds events into counters and
// per-operation histograms, rolls the recent window into the all-time total on every render.
module Aggregators {
  import opened Buckets
  import opened Histograms
  import opened SpscRings
  import opened Recorders

  const NUM_OPS: nat := 5

  // What a list of events amounts to.
  function Ticks(es: seq<Event>, op: nat): seq<nat> {
    if es == [] then []
    else
      var e := es[|es| - 1];
      Ticks(es[..|es| - 1], op) + if e.Latency? && e.op == op then [e.ticks] else []
  }

  function Trades(es: seq<Event>): nat {
    if es == [] then 0 else Trades(es[..|es| - 1]) + if es[|es| - 1].Trade? then 1 else 0
  }

  function Volume(es: seq<Event>): nat {
    if es == [] then 0 else Volume(es[..|es| - 1]) + if es[|es| - 1].Trade? then es[|es| - 1].qty else 0
  }

  function Snapshots(es: seq<Event>): nat {
    if es == [] then 0 else Snapshots(es[..|es| - 1]) + if es[|es| - 1].Snapshot? then 1 else 0
  }

  // The last best bid and ask shown.
  function Book(es: seq<Event>): (int, int) {
    if es == [] then (0, 0)
    else if es[|es| - 1].Snapshot? then (es[|es| - 1].bid, es[|es| - 1].ask)
    else Book(es[..|es| - 1])
  }

  function LastPrice(es: seq<Event>): int {
    if es == [] then 0
    else if es[|es| - 1].Trade? then es[|es| - 1].price
    else LastPrice(es[..|es| - 1])
  }

  // ---- what these say ----

  predicate AnySnapshot(es: seq<Event>) {
    exists k | 0 <= k < |es| :: es[k].Snapshot?
  }

  predicate AnyTrade(es: seq<Event>) {
    exists k | 0 <= k < |es| :: es[k].Trade?
  }

  // The book shown is the last snapshot's,
  lemma {:induction false} BookIsLast(a: seq<Event>, bid: int, ask: int, c: seq<Event>)
    requires !AnySnapshot(c)
    ensures Book(a + [Snapshot(bid, ask)] + c) == (bid, ask)
  {
    var es := a + [Snapshot(bid, ask)] + c;
    if c != [] {
      var c' := c[..|c| - 1];
      assert es[..|es| - 1] == a + [Snapshot(bid, ask)] + c' && es[|es| - 1] == c[|c| - 1];
      assert forall k | 0 <= k < |c'| :: c'[k] == c[k];
      BookIsLast(a, bid, ask, c');
    }
  }

  // and the price shown is the last trade's; before any there is nothing to show.
  lemma {:induction false} PriceIsLast(a: seq<Event>, price: int, qty: nat, maker: nat, c: seq<Event>)
    requires !AnyTrade(c)
    ensures LastPrice(a + [Trade(price, qty, maker)] + c) == price
  {
    var es := a + [Trade(price, qty, maker)] + c;
    if c != [] {
      var c' := c[..|c| - 1];
      assert es[..|es| - 1] == a + [Trade(price, qty, maker)] + c' && es[|es| - 1] == c[|c| - 1];
      assert forall k | 0 <= k < |c'| :: c'[k] == c[k];
      PriceIsLast(a, price, qty, maker, c');
    }
  }

  lemma {:induction false} NothingShown(es: seq<Event>)
    ensures !AnySnapshot(es) ==> Book(es) == (0, 0)
    ensures !AnyTrade(es) ==> LastPrice(es) == 0
  {
    if es != [] {
      var c := es[..|es| - 1];
      assert forall k | 0 <= k < |c| :: c[k] == es[k];
      NothingShown(c);
    }
  }

  // Counts, volume and ticks add up over any split of the events,
  lemma {:induction false} CountsAddUp(a: seq<Event>, b: seq<Event>, op: nat)
    ensures Trades(a + b) == Trades(a) + Trades(b) && Snapshots(a + b) == Snapshots(a) + Snapshots(b)
    ensures Volume(a + b) == Volume(a) + Volume(b)
    ensures Ticks(a + b, op) == Ticks(a, op) + Ticks(b, op)
    decreases |b|
  {
    if b == [] {
      assert a + b == a;
    } else {
      assert (a + b)[..|a + b| - 1] == a + b[..|b| - 1];
      CountsAddUp(a, b[..|b| - 1], op);
    }
  }

  // and this is what one event adds.
  lemma CountsOfOne(e: Event, op: nat)
    ensures Trades([e]) == (if e.Trade? then 1 else 0) && Snapshots([e]) == (if e.Snapshot? then 1 else 0)
    ensures Volume([e]) == (match e case Trade(_, qty, _) => qty case _ => 0)
    ensures Ticks([e], op) == (match e case Latency(o, ticks) => if o == op then [ticks] else [] case _ => [])
    ensures Trades([]) == Snapshots([]) == Volume([]) == 0 && Ticks([], op) == []
  {
    assert [e][..0] == [];
  }

  // ---- the histograms' samples ----

  // The samples of every operation: in the recent window, and in the all-time total.
  datatype RawTally = RawTally(win: seq<seq<nat>>, cum: seq<seq<nat>>)

  type Tally = t: RawTally | |t.win| == NUM_OPS && |t.cum| == NUM_OPS
    witness RawTally([[], [], [], [], []], [[], [], [], [], []])

  const NO_TALLY: Tally := RawTally([[], [], [], [], []], [[], [], [], [], []])

  // An event comes in; a render rolls the windows into the totals.
  function TallyIn(t: Tally, e: Event): Tally {
    if e.Latency? && e.op < NUM_OPS then t.(win := t.win[e.op := t.win[e.op] + [e.ticks]]) else t
  }

  function TallyRolled(t: Tally): Tally {
    RawTally(seq(NUM_OPS, _ => []), seq(NUM_OPS, op requires 0 <= op < NUM_OPS => t.cum[op] + t.win[op]))
  }

  // Total and window together hold exactly the ticks of these events, in order.
  ghost predicate TallyOf(t: Tally, es: seq<Event>) {
    forall op: nat | op < NUM_OPS :: t.cum[op] + t.win[op] == Ticks(es, op)
  }

  lemma TallyInKeeps(t: Tally, es: seq<Event>, e: Event)
    requires TallyOf(t, es)
    ensures TallyOf(TallyIn(t, e), es + [e])
  {
    hide Ticks;
    TicksNext(es, e);
    forall op: nat | op < NUM_OPS
      ensures TallyIn(t, e).cum[op] + TallyIn(t, e).win[op] == Ticks(es + [e], op)
    {
      assert t.cum[op] + t.win[op] == Ticks(es, op);
    }
  }

  lemma TallyRolledKeeps(t: Tally, es: seq<Event>)
    requires TallyOf(t, es)
    ensures TallyOf(TallyRolled(t), es) && forall op: nat | op < NUM_OPS :: TallyRolled(t).win[op] == []
  {
    hide Ticks;
    forall op: nat | op < NUM_OPS
      ensures TallyRolled(t).cum[op] + TallyRolled(t).win[op] == Ticks(es, op)
    {
      assert t.cum[op] + t.win[op] == Ticks(es, op);
    }
  }

  class Aggregator {
    const hist: seq<LatencyHistogram> // the windows, then the totals
    var consumed: nat
    var trades: nat
    var snaps: nat
    var volume: nat
    var book: (int, int)
    var lastPrice: int
    ghost var seen: seq<Event>

    ghost predicate Apart() {
      && |hist| == 2 * NUM_OPS
      && forall i, j | 0 <= i < j < |hist| :: hist[i] != hist[j] && hist[i].bucket != hist[j].bucket
    }

    ghost function Repr(): set<object> {
      (set i | 0 <= i < |hist| :: hist[i]) + (set i | 0 <= i < |hist| :: hist[i].bucket)
    }

    ghost predicate Counted()
      reads this
    {
      && consumed == |seen| && trades == Trades(seen) && snaps == Snapshots(seen) && volume == Volume(seen)
      && book == Book(seen) && lastPrice == LastPrice(seen)
    }

    ghost predicate Sound()
      reads Repr()
    {
      Apart() && forall k | 0 <= k < |hist| :: hist[k].Valid()
    }

    // An operation's samples: the total, then the window.
    ghost function Samples(op: nat): seq<nat>
      requires Apart() && op < NUM_OPS
      reads this, hist[op], hist[NUM_OPS + op]
    {
      hist[NUM_OPS + op].samples + hist[op].samples
    }

    // What the histograms hold.
    ghost function Held(): Tally
      requires Apart()
      reads Repr()
    {
      RawTally(seq(NUM_OPS, i requires 0 <= i < NUM_OPS && Apart() reads Repr() => hist[i].samples),
               seq(NUM_OPS, i requires 0 <= i < NUM_OPS && Apart() reads Repr() => hist[NUM_OPS + i].samples))
    }

    // They are exactly the ticks of the operation, in order.
    ghost predicate Valid()
      reads this, Repr()
    {
      Sound() && Counted() && forall op: nat | op < NUM_OPS :: Samples(op) == Ticks(seen, op)
    }

    constructor ()
      ensures Valid() && seen == [] && fresh(Repr())
    {
      var hs: seq<LatencyHistogram> := [];
      while |hs| < 2 * NUM_OPS
        invariant |hs| <= 2 * NUM_OPS
        invariant forall i | 0 <= i < |hs| ::
                    fresh(hs[i]) && fresh(hs[i].bucket) && hs[i].Valid() && hs[i].samples == []
        invariant forall i, j | 0 <= i < j < |hs| :: hs[i] != hs[j] && hs[i].bucket != hs[j].bucket
      {
        var h := new LatencyHistogram();
        hs := hs + [h];
      }
      hist := hs;
      consumed, trades, snaps, volume, book, lastPrice, seen := 0, 0, 0, 0, (0, 0), 0, [];
    }

    // Record in one window: nothing else changes.
    method RecordTick(op: nat, ticks: nat)
      requires Sound() && op < NUM_OPS && ticks <= UINT32_MAX
      modifies hist[op], hist[op].bucket
      ensures Sound() && hist[op].samples == old(hist[op].samples) + [ticks]
      ensures forall k | 0 <= k < |hist| && k != op :: hist[k].samples == old(hist[k].samples)
    {
      hist[op].Record(ticks);
    }

    // The counters of the event.
    method CountEvent(e: Event)
      requires Counted()
      modifies this
      ensures Counted() && seen == old(seen) + [e] && consumed == old(consumed) + 1
      ensures match e
              case Latency(_, _) =>
                && book == old(book) && snaps == old(snaps)
                && lastPrice == old(lastPrice) && volume == old(volume) && trades == old(trades)
              case Snapshot(bid, ask) =>
                && book == (bid, ask) && snaps == old(snaps) + 1
                && lastPrice == old(lastPrice) && volume == old(volume) && trades == old(trades)
              case Trade(price, qty, _) =>
                && book == old(book) && snaps == old(snaps)
                && lastPrice == price && volume == old(volume) + qty && trades == old(trades) + 1
    {
      consumed := consumed + 1;
      match e {
        case Latency(_, _) =>
        case Snapshot(bid, ask) =>
          book, snaps := (bid, ask), snaps + 1;
        case Trade(price, qty, _) =>
          lastPrice, volume, trades := price, volume + qty, trades + 1;
      }
      seen := seen + [e];
      assert seen[..|seen| - 1] == old(seen);
    }

    // Fold one event in.
    method Ingest(e: Event)
      requires Valid() && (e.Latency? ==> e.ticks <= UINT32_MAX)
      modifies this, Repr()
      ensures Valid() && seen == old(seen) + [e] && Held() == TallyIn(old(Held()), e)
      ensures consumed == old(consumed) + 1
      ensures match e
              case Latency(_, _) =>
                && book == old(book) && snaps == old(snaps)
                && lastPrice == old(lastPrice) && volume == old(volume) && trades == old(trades)
              case Snapshot(bid, ask) =>
                && book == (bid, ask) && snaps == old(snaps) + 1
                && lastPrice == old(lastPrice) && volume == old(volume) && trades == old(trades)
              case Trade(price, qty, _) =>
                && book == old(book) && snaps == old(snaps)
                && lastPrice == price && volume == old(volume) + qty && trades == old(trades) + 1
      ensures forall k | 0 <= k < |hist| ::
                hist[k].samples == old(hist[k].samples) + if e.Latency? && e.op == k < 5 then [e.ticks] else []
    {
      hide Ticks, Counted, LatencyHistogram.Valid;
      TicksNext(seen, e);
      CountEvent(e);
      if e.Latency? && e.op < NUM_OPS {
        RecordTick(e.op, e.ticks);
      }
    }

    // Roll one window into its total, and start a fresh one.
    method RollOne(op: nat)
      requires Sound() && op < NUM_OPS
      modifies hist[op], hist[op].bucket, hist[NUM_OPS + op], hist[NUM_OPS + op].bucket
      ensures Sound() && hist[op].samples == [] && Samples(op) == old(Samples(op))
      ensures forall k | 0 <= k < |hist| && k != op && k != NUM_OPS + op :: hist[k].samples == old(hist[k].samples)
    {
      var total := hist[NUM_OPS + op];
      total.Merge(hist[op]);
      if total.count == 0 { // never seen: nothing in the window either
        return;
      }
      hist[op].Reset();
    }

    // What a render does to the histograms.
    method Roll()
      requires Valid()
      modifies Repr()
      ensures Valid() && |hist| == 2 * NUM_OPS && Held() == TallyRolled(old(Held()))
      ensures forall k | 5 <= k < 10 :: hist[k].samples == old(hist[k].samples) + old(hist[k - 5].samples)
      ensures forall op: nat | op < NUM_OPS :: hist[op].samples == [] && hist[NUM_OPS + op].samples == Ticks(seen, op)
    {
      hide Ticks, LatencyHistogram.Valid, Counted;
      ghost var t := Held();
      assert forall k: nat | k < NUM_OPS :: Samples(k) == t.cum[k] + t.win[k];
      var op: nat := 0;
      while op < NUM_OPS
        invariant op <= NUM_OPS && Sound()
        invariant forall k | 0 <= k < op :: hist[k].samples == []
        invariant forall k: nat | k < NUM_OPS :: Samples(k) == t.cum[k] + t.win[k] == Ticks(seen, k)
        modifies Repr()
      {
        RollOne(op);
        op := op + 1;
      }
      assert forall k: nat | k < NUM_OPS :: Samples(k) == hist[NUM_OPS + k].samples;
      forall k | 5 <= k < 10
        ensures hist[k].samples == old(hist[k].samples) + old(hist[k - 5].samples)
      {
        assert Samples(k - 5) == t.cum[k - 5] + t.win[k - 5];
      }
    }

    // The end of run(): drain what remains, then render once more. Afterwards nothing is left in the ring
    // and every total holds exactly the ticks of its operation.
    method FinalDrain(ring: SpscRing<Event>)
      requires Valid() && ring.Valid() && {ring, ring.buf} !! Repr()
      requires InWords(InFlight(ring.log))
      modifies this, Repr(), ring
      ensures Valid() && ring.Valid() && InFlight(ring.log) == []
      ensures seen == old(seen) + old(InFlight(ring.log))
      ensures |hist| == 2 * NUM_OPS
      ensures forall op: nat | op < NUM_OPS :: hist[op].samples == [] && hist[NUM_OPS + op].samples == Ticks(seen, op)
    {
      hide Ticks, SoloPop, Valid, SpscRing.Valid, InFlight, InWords;
      ghost var rest := InFlight(ring.log);
      ghost var all := seen + rest;
      var e, more := ring.TryPop();
      while more
        invariant Valid() && ring.Valid() && InWords(rest) && (more <==> rest != []) && (more ==> e == rest[0])
        invariant seen + rest == all && InFlight(ring.log) == if more then rest[1..] else []
        decreases |rest|
      {
        Oldest(seen, rest);
        Ingest(e);
        rest := rest[1..];
        e, more := ring.TryPop();
      }
      assert seen + [] == seen;
      Roll();
    }
  }

  predicate InWords(es: seq<Event>) {
    forall k | 0 <= k < |es| && es[k].Latency? :: es[k].ticks <= UINT32_MAX
  }

  lemma Oldest(seen: seq<Event>, rest: seq<Event>)
    requires rest != [] && InWords(rest)
    ensures (seen + [rest[0]]) + rest[1..] == seen + rest
    ensures InWords(rest[1..]) && (rest[0].Latency? ==> rest[0].ticks <= UINT32_MAX)
  {
  }

  lemma TicksNext(es: seq<Event>, e: Event)
    ensures forall op :: Ticks(es + [e], op) == Ticks(es, op) + if e.Latency? && e.op == op then [e.ticks] else []
  {
    assert (es + [e])[..|es|] == es;
  }
}
