// The depth side-channel (metrics/include/book_view.hpp): a seqlock with one writer and one reader, as
// interleaved atomic steps, the view copied a word at a time.
module BookViews {

  const WORD32: nat := 0x1_0000_0000
  const TRIES: nat := 16

  type View = seq<nat>

  datatype Writer =
    | WIdle
    | WLoaded(v: View, s: nat)
    | WCopy(v: View, s: nat, k: nat) // sequence odd; words below k written

  datatype Reader =
    | RIdle
    | RLoad(tries: nat)
    | RCopy(tries: nat, s1: nat, out: View)
    | RVerify(tries: nat, s1: nat, out: View)

  datatype Memory = Memory(sequence: nat, data: View)

  datatype Shared = Shared(sequence: nat, data: View, w: Writer, r: Reader)

  // What has happened: the initial view and every view published; for the read under way, how many had been
  // published when it loaded the sequence; the copies handed out, with that number.
  datatype Log = Log(views: seq<View>, from: nat, got: seq<(nat, View)>)

  datatype Sys = Sys(m: Shared, l: Log)

  datatype Move = Publish(v: View) | Write | Read | Look

  predicate Enabled(s: Sys, a: Move) {
    match a
    case Publish(v) => s.m.w.WIdle? && |v| == |s.m.data|
    case Write => !s.m.w.WIdle?
    case Read => s.m.r.RIdle?
    case Look => !s.m.r.RIdle?
  }

  function Written(s: Sys): Sys {
    var m, l := s.m, s.l;
    match m.w
    case WIdle => s
    case WLoaded(v, q) => Sys(m.(sequence := (q + 1) % WORD32, w := WCopy(v, q, 0)), l)
    case WCopy(v, q, k) =>
      if k < |v| && k < |m.data| then Sys(m.(data := m.data[k := v[k]], w := WCopy(v, q, k + 1)), l)
      else Sys(m.(sequence := (q + 2) % WORD32, w := WIdle), l.(views := l.views + [v]))
  }

  // What one look at the memory does to the reader.
  datatype Looking = Goes(r: Reader) | Gives(v: View) | GivesUp

  function LookStep(r: Reader, m: Memory): Looking {
    match r
    case RIdle => Goes(RIdle)
    case RLoad(tries) =>
      if tries >= TRIES then GivesUp
      else if m.sequence % 2 == 1 then Goes(RLoad(tries + 1))
      else Goes(RCopy(tries, m.sequence, []))
    case RCopy(tries, s1, out) =>
      if |out| < |m.data| then Goes(RCopy(tries, s1, out + [m.data[|out|]])) else Goes(RVerify(tries, s1, out))
    case RVerify(tries, s1, out) => if m.sequence == s1 then Gives(out) else Goes(RLoad(tries + 1))
  }

  function Looked(s: Sys): Sys {
    var m, l := s.m, s.l;
    match LookStep(m.r, Memory(m.sequence, m.data))
    case Goes(r) => Sys(m.(r := r), if m.r.RLoad? && r.RCopy? then l.(from := |l.views|) else l)
    case Gives(v) => Sys(m.(r := RIdle), l.(got := l.got + [(l.from, v)]))
    case GivesUp => Sys(m.(r := RIdle), l)
  }

  function Next(s: Sys, a: Move): Sys {
    match a
    case Publish(v) => s.(m := s.m.(w := WLoaded(v, s.m.sequence)))
    case Write => Written(s)
    case Read => s.(m := s.m.(r := RLoad(0)))
    case Look => Looked(s)
  }

  function Start(data: View): Sys {
    Sys(Shared(0, data, WIdle, RIdle), Log([data], 1, []))
  }

  // ---- the invariant ----

  // Even while the data is whole, odd while it is being written; two per publication, modulo the word.
  function SequenceAt(published: nat, writing: bool): nat {
    (2 * (published - 1) + if writing then 1 else 0) % WORD32
  }

  ghost predicate WriterOk(m: Shared, l: Log)
    requires l.views != []
  {
    var last := l.views[|l.views| - 1];
    && |last| == |m.data| && m.sequence == SequenceAt(|l.views|, m.w.WCopy?)
    && match m.w
       case WIdle => m.data == last
       case WLoaded(v, q) => m.data == last && q == m.sequence && |v| == |m.data|
       case WCopy(v, q, k) =>
         q == SequenceAt(|l.views|, false) && |v| == |m.data| && k <= |v| && m.data[..k] == v[..k]
  }

  // While nothing has been published or is being written since the load, the copy agrees with the last view.
  ghost predicate CopyOk(m: Shared, l: Log, s1: nat, out: View)
    requires l.views != []
  {
    && 1 <= l.from <= |l.views| && s1 == SequenceAt(l.from, false) && |out| <= |m.data|
    && (l.from == |l.views| && !m.w.WCopy? ==> out == m.data[..|out|])
  }

  ghost predicate ReaderOk(m: Shared, l: Log)
    requires l.views != []
  {
    match m.r
    case RIdle => true
    case RLoad(_) => true
    case RCopy(_, s1, out) => CopyOk(m, l, s1, out)
    case RVerify(_, s1, out) => CopyOk(m, l, s1, out) && |out| == |m.data|
  }

  // Every copy handed out is one whole view, and they never go back.
  ghost predicate ReadsOk(l: Log) {
    && (forall i | 0 <= i < |l.got| ::
          1 <= l.got[i].0 <= l.from && l.from <= |l.views| && l.got[i].1 == l.views[l.got[i].0 - 1])
    && (forall i, j | 0 <= i < j < |l.got| :: l.got[i].0 <= l.got[j].0)
  }

  ghost predicate Inv(s: Sys) {
    && s.l.views != [] && 1 <= s.l.from <= |s.l.views|
    && WriterOk(s.m, s.l) && ReaderOk(s.m, s.l) && ReadsOk(s.l)
  }

  // ---- the sequence number tells the truth ----

  // While fewer than 2^31 views are published during a read, its two loads agree exactly when nothing was
  // published and nothing is being written; without that bound, exactly when a multiple of 2^31 was.
  lemma SequencesAgree(from: nat, now: nat, writing: bool)
    requires 1 <= from <= now
    ensures SequenceAt(from, false) == SequenceAt(now, writing) <==> !writing && (now - from) % (WORD32 / 2) == 0
    ensures now - from < WORD32 / 2 ==> ((now - from) % (WORD32 / 2) == 0 <==> now == from)
  {
    var d := 2 * (now - from) + if writing then 1 else 0;
    assert (2 * (from - 1) + d) % WORD32 == SequenceAt(now, writing);
    SameResidue(2 * (from - 1), d);
    Halves(now - from);
  }

  lemma SameResidue(a: nat, d: nat)
    ensures a % WORD32 == (a + d) % WORD32 <==> d % WORD32 == 0
  {
  }

  lemma Halves(n: nat)
    ensures (2 * n) % WORD32 == 0 <==> n % (WORD32 / 2) == 0
    ensures (2 * n + 1) % WORD32 != 0
  {
    var q, r := n / (WORD32 / 2), n % (WORD32 / 2);
    assert 2 * n == WORD32 * q + 2 * r && 2 * r + 1 < WORD32;
  }

  // When a read is accepted.
  lemma AcceptedIff(s: Sys)
    requires Inv(s) && s.m.r.RVerify?
    ensures Looked(s).m.r.RIdle? <==> !s.m.w.WCopy? && (|s.l.views| - s.l.from) % (WORD32 / 2) == 0
  {
    hide SequenceAt;
    SequencesAgree(s.l.from, |s.l.views|, s.m.w.WCopy?);
  }

  // ---- every step keeps the invariant ----

  lemma SequenceSteps(n: nat, q: nat)
    requires n >= 1 && q == SequenceAt(n, false)
    ensures (q + 1) % WORD32 == SequenceAt(n, true) && (q + 2) % WORD32 == SequenceAt(n + 1, false)
  {
    var x := 2 * (n - 1);
    assert x == WORD32 * (x / WORD32) + x % WORD32;
  }

  lemma WriteKeeps(s: Sys)
    requires Inv(s) && !s.m.w.WIdle?
    ensures Inv(Written(s))
  {
    hide SequenceAt;
    SequenceSteps(|s.l.views|, SequenceAt(|s.l.views|, false));
    match s.m.w {
      case WLoaded(_, _) =>
      case WCopy(v, q, k) =>
        if k < |v| {
          CopyWord(s.m.data, v, k);
        } else {
          assert s.m.data[..k] == s.m.data && v[..k] == v;
        }
    }
  }

  lemma CopyWord(d: View, v: View, k: nat)
    requires k < |d| && k < |v| && d[..k] == v[..k]
    ensures d[k := v[k]][..k + 1] == v[..k + 1]
  {
    assert d[k := v[k]][..k + 1] == d[..k] + [v[k]];
    assert v[..k + 1] == v[..k] + [v[k]];
  }

  // An even sequence: nothing is being written.
  lemma EvenMeansIdle(n: nat, writing: bool)
    requires n >= 1
    ensures SequenceAt(n, writing) % 2 == 1 <==> writing
  {
  }

  lemma LoadKeeps(s: Sys)
    requires Inv(s) && s.m.r.RLoad?
    ensures Inv(Looked(s))
  {
    hide SequenceAt, ReadsOk;
    EvenMeansIdle(|s.l.views|, s.m.w.WCopy?);
    FromMoves(s.l, |s.l.views|);
  }

  lemma CopyKeeps(s: Sys)
    requires Inv(s) && s.m.r.RCopy?
    ensures Inv(Looked(s))
  {
    hide SequenceAt, ReadsOk;
    var d, n := s.m.data, |s.m.r.out|;
    if n < |d| { assert d[..n + 1] == d[..n] + [d[n]]; }
  }

  lemma VerifyKeeps(s: Sys)
    requires Inv(s) && s.m.r.RVerify? && |s.l.views| - s.l.from < WORD32 / 2
    ensures Inv(Looked(s))
  {
    hide SequenceAt;
    SequencesAgree(s.l.from, |s.l.views|, s.m.w.WCopy?);
    assert s.m.data[..|s.m.data|] == s.m.data;
  }

  lemma LookKeeps(s: Sys)
    requires Inv(s) && !s.m.r.RIdle?
    requires s.m.r.RVerify? ==> |s.l.views| - s.l.from < WORD32 / 2
    ensures Inv(Looked(s))
  {
    hide Inv, Looked;
    match s.m.r {
      case RLoad(_) => LoadKeeps(s);
      case RCopy(_, _, _) => CopyKeeps(s);
      case RVerify(_, _, _) => VerifyKeeps(s);
    }
  }

  lemma FromMoves(l: Log, n: nat)
    requires ReadsOk(l) && l.from <= n <= |l.views|
    ensures ReadsOk(l.(from := n))
  {
  }

  lemma NextKeeps(s: Sys, a: Move)
    requires Inv(s) && Enabled(s, a)
    requires a.Look? && s.m.r.RVerify? ==> |s.l.views| - s.l.from < WORD32 / 2
    ensures Inv(Next(s, a))
  {
    hide Written, Looked, SequenceAt;
    match a {
      case Write => WriteKeeps(s);
      case Look => LookKeeps(s);
      case Publish(_) =>
      case Read =>
    }
  }

  // ---- every run ----

  // Interleavings in which fewer than 2^31 views are published during any one read.
  ghost predicate Allowed(s: Sys, run: seq<Move>)
    decreases |run|
  {
    run == [] ||
    (Enabled(s, run[0]) && (run[0].Look? && s.m.r.RVerify? ==> |s.l.views| - s.l.from < WORD32 / 2) &&
     Allowed(Next(s, run[0]), run[1..]))
  }

  function End(s: Sys, run: seq<Move>): Sys
    decreases |run|
  {
    if run == [] then s else End(Next(s, run[0]), run[1..])
  }

  lemma {:induction false} RunKeeps(s: Sys, run: seq<Move>)
    requires Inv(s) && Allowed(s, run)
    ensures Inv(End(s, run))
    decreases |run|
  {
    hide Next, Inv, Enabled;
    if run != [] {
      NextKeeps(s, run[0]);
      RunKeeps(Next(s, run[0]), run[1..]);
    }
  }

  // In every interleaving each successful read is one whole view, the initial one or a published one, and
  // successive reads never go back.
  lemma ReadsAreViews(data: View, run: seq<Move>)
    requires Allowed(Start(data), run)
    ensures var l := End(Start(data), run).l;
            && (forall i | 0 <= i < |l.got| :: 1 <= l.got[i].0 <= |l.views| && l.got[i].1 == l.views[l.got[i].0 - 1])
            && (forall i, j | 0 <= i < j < |l.got| :: l.got[i].0 <= l.got[j].0)
  {
    RunKeeps(Start(data), run);
  }

  // ---- the class: calls that nobody interrupts ----

  class BookPublisher {
    var sequence: nat
    const data: array<nat>
    ghost var log: Log

    ghost function State(): Sys
      reads this, data
    {
      Sys(Shared(sequence, data[..], WIdle, RIdle), log)
    }

    ghost predicate Valid()
      reads this, data
    {
      Inv(State())
    }

    constructor (words: nat)
      ensures Valid() && data.Length == words && log.views == [seq(words, _ => 0)] && fresh(data)
    {
      sequence := 0;
      data := new nat[words](_ => 0);
      log := Log([seq(words, _ => 0)], 1, []);
      new;
      assert data[..] == seq(words, _ => 0);
    }

    // Odd while writing, even when done: then the view is the last one published.
    method Publish(v: View)
      requires Valid() && |v| == data.Length
      modifies this, data
      ensures Valid() && log.views == old(log.views) + [v] && data[..] == v
      ensures log.got == old(log.got)
    {
      hide SequenceAt;
      SequenceSteps(|log.views|, sequence);
      var s := sequence;
      sequence := (s + 1) % WORD32;
      var k := 0;
      while k < data.Length
        invariant 0 <= k <= data.Length && data[..k] == v[..k]
        modifies data
      {
        data[k] := v[k];
        k := k + 1;
      }
      assert data[..] == data[..k] && v[..k] == v;
      sequence := (s + 2) % WORD32;
      log := log.(views := log.views + [v]);
    }

    // The retry loop: its k-th atomic step sees the memory mem(k), written to by whoever else is running.
    method Read(out: array<nat>, mem: nat -> Memory) returns (ok: bool)
      requires forall k :: |mem(k).data| == out.Length
      modifies out
      ensures match Outcome(RLoad(0), mem, 0, out.Length)
              case Gives(v) => ok && out[..] == v
              case GivesUp => !ok
              case Goes(_) => false
    {
      hide Outcome;
      var tries: nat, i: nat := 0, 0;
      ghost var n := out.Length;
      while tries < TRIES
        invariant tries <= TRIES && Outcome(RLoad(0), mem, 0, n) == Outcome(RLoad(tries), mem, i, n)
      {
        OutcomeNext(RLoad(tries), mem, i, n);
        var s1 := mem(i).sequence;
        i := i + 1;
        if s1 % 2 == 1 {
          tries := tries + 1;
          continue;
        }
        var k := 0;
        while k < out.Length
          invariant 0 <= k <= out.Length
          invariant Outcome(RLoad(0), mem, 0, n) == Outcome(RCopy(tries, s1, out[..k]), mem, i, n)
        {
          OutcomeNext(RCopy(tries, s1, out[..k]), mem, i, n);
          ghost var was := out[..k];
          out[k] := mem(i).data[k];
          assert out[..k + 1] == was + [mem(i).data[k]];
          k, i := k + 1, i + 1;
        }
        OutcomeNext(RCopy(tries, s1, out[..k]), mem, i, n);
        i := i + 1;
        OutcomeNext(RVerify(tries, s1, out[..k]), mem, i, n);
        assert out[..k] == out[..];
        if mem(i).sequence == s1 {
          return true;
        }
        tries, i := tries + 1, i + 1;
      }
      OutcomeNext(RLoad(tries), mem, i, n);
      return false;
    }
  }

  // ---- what a read gives, from the memories it sees ----

  // The reader is under way, within its bounds.
  predicate Reading(r: Reader, words: nat) {
    match r
    case RIdle => false
    case RLoad(tries) => tries <= TRIES
    case RCopy(tries, _, out) => tries < TRIES && |out| <= words
    case RVerify(tries, _, out) => tries < TRIES && |out| <= words
  }

  // Looks left in this try.
  function Left(r: Reader, words: nat): nat
    requires Reading(r, words)
  {
    match r
    case RLoad(_) => words + 3
    case RCopy(_, _, out) => words - |out| + 2
    case RVerify(_, _, _) => 1
  }

  function Outcome(r: Reader, mem: nat -> Memory, i: nat, words: nat): Looking
    requires Reading(r, words) && forall k :: |mem(k).data| == words
    decreases TRIES - r.tries, Left(r, words)
  {
    match LookStep(r, mem(i))
    case Goes(r') => Outcome(r', mem, i + 1, words)
    case Gives(v) => Gives(v)
    case GivesUp => GivesUp
  }

  lemma OutcomeNext(r: Reader, mem: nat -> Memory, i: nat, words: nat)
    requires Reading(r, words) && forall k :: |mem(k).data| == words
    ensures var l := LookStep(r, mem(i));
            && (l.Goes? ==> Reading(l.r, words))
            && Outcome(r, mem, i, words) == if l.Goes? then Outcome(l.r, mem, i + 1, words) else l
  {
  }

  // A run in which one read, under way, ends with the last step, and whose looks see mem(i), mem(i + 1)...
  ghost predicate ReadRuns(s: Sys, run: seq<Move>, mem: nat -> Memory, i: nat)
    decreases |run|
  {
    && run != [] && Enabled(s, run[0])
    && if run[0].Look? then
         && mem(i) == Memory(s.m.sequence, s.m.data)
         && (if Looked(s).m.r.RIdle? then run[1..] == [] else ReadRuns(Looked(s), run[1..], mem, i + 1))
       else ReadRuns(Next(s, run[0]), run[1..], mem, i)
  }

  // The steps of the interleaving and the loop of the method come to the same.
  lemma {:induction false} StepsAreTheLoop(s: Sys, run: seq<Move>, mem: nat -> Memory, i: nat, words: nat)
    requires ReadRuns(s, run, mem, i) && Reading(s.m.r, words) && forall k :: |mem(k).data| == words
    ensures var o, l := Outcome(s.m.r, mem, i, words), End(s, run).l;
            match o
            case Gives(v) => l.got == s.l.got + [(l.from, v)]
            case GivesUp => l.got == s.l.got
            case Goes(_) => false
    decreases |run|
  {
    hide Outcome, Written;
    var z := Next(s, run[0]);
    if run[0].Look? {
      OutcomeNext(s.m.r, mem, i, words);
      if !z.m.r.RIdle? { StepsAreTheLoop(z, run[1..], mem, i + 1, words); }
    } else {
      OthersLeaveTheReader(s, run[0]);
      StepsAreTheLoop(z, run[1..], mem, i, words);
    }
  }

  lemma OthersLeaveTheReader(s: Sys, a: Move)
    requires Enabled(s, a) && !a.Look? && !s.m.r.RIdle?
    ensures Next(s, a).m.r == s.m.r && Next(s, a).l.got == s.l.got && Next(s, a).l.from == s.l.from
  {
  }

  // So what Read returns in any interleaving with a writer is one whole view, no older than any read before.
  lemma ReadReturnsAView(data: View, before: seq<Move>, run: seq<Move>, mem: nat -> Memory)
    requires Allowed(Start(data), before)
    requires var s := End(Start(data), before);
             s.m.r == RLoad(0) && Allowed(s, run) && ReadRuns(s, run, mem, 0)
    requires forall k :: |mem(k).data| == |data|
    ensures var s, o := End(Start(data), before), Outcome(RLoad(0), mem, 0, |data|);
            var l := End(s, run).l;
            o.Gives? ==>
              && 1 <= l.from <= |l.views| && o.v == l.views[l.from - 1]
              && forall k | 0 <= k < |s.l.got| :: s.l.got[k].0 <= l.from
  {
    hide Outcome, Allowed, ReadRuns, Next, WriterOk, ReaderOk;
    var s := End(Start(data), before);
    StartOk(data);
    RunKeeps(Start(data), before);
    RunKeeps(s, run);
    StepsAreTheLoop(s, run, mem, 0, |data|);
    var l := End(s, run).l;
    if Outcome(RLoad(0), mem, 0, |data|).Gives? {
      assert l.got[|s.l.got|].0 == l.from;
      assert forall k | 0 <= k < |s.l.got| :: l.got[k] == s.l.got[k];
    }
  }

  lemma StartOk(data: View)
    ensures Inv(Start(data))
  {
  }

  // ---- whose views they are ----

  // The views handed to the writer over a run.
  function Handed(run: seq<Move>): seq<View> {
    if run == [] then [] else (if run[0].Publish? then [run[0].v] else []) + Handed(run[1..])
  }

  // The one being written.
  function Pending(w: Writer): seq<View> {
    if w.WIdle? then [] else [w.v]
  }

  // The views are the initial one and those handed over, in order, each as it was; at most the last one of
  // them is still being written.
  lemma {:induction false} ViewsAreHanded(s: Sys, run: seq<Move>)
    requires Allowed(s, run)
    ensures var e := End(s, run);
            e.l.views + Pending(e.m.w) == s.l.views + Pending(s.m.w) + Handed(run)
    decreases |run|
  {
    hide LookStep;
    if run != [] {
      var z := Next(s, run[0]);
      ViewsAreHanded(z, run[1..]);
      assert z.l.views + Pending(z.m.w) ==
             s.l.views + Pending(s.m.w) + if run[0].Publish? then [run[0].v] else [];
    }
  }

  // ---- how often a read tries ----

  lemma {:induction false} OddLooks(mem: nat -> Memory, words: nat, t: nat)
    requires (forall k :: |mem(k).data| == words) && t <= 16
    requires forall k | 0 <= k < t :: mem(k).sequence % 2 == 1
    ensures Outcome(RLoad(0), mem, 0, words) == Outcome(RLoad(t), mem, t, words)
  {
    hide Outcome;
    if t > 0 {
      OddLooks(mem, words, t - 1);
      OutcomeNext(RLoad(t - 1), mem, t - 1, words);
    }
  }

  // Nobody writes: the copy goes through.
  lemma {:induction false} Quiet(mem: nat -> Memory, words: nat, i: nat, n: nat)
    requires (forall k :: |mem(k).data| == words) && n <= words && i >= 15
    requires forall k | k >= 15 :: mem(k) == mem(15)
    ensures Outcome(RCopy(15, mem(15).sequence, mem(15).data[..n]), mem, i, words) == Gives(mem(15).data)
    decreases words - n
  {
    hide Outcome;
    var m := mem(15);
    var r := RCopy(15, m.sequence, m.data[..n]);
    assert mem(i) == m;
    OutcomeNext(r, mem, i, words);
    if n < words {
      assert m.data[..n] + [m.data[n]] == m.data[..n + 1];
      Quiet(mem, words, i + 1, n + 1);
    } else {
      assert m.data[..n] == m.data && mem(i + 1) == m;
      OutcomeNext(RVerify(15, m.sequence, m.data), mem, i + 1, words);
    }
  }

  // A read gives up after sixteen loads of an odd sequence number, and not before: with the writer done by
  // the sixteenth, it returns what is there.
  lemma SixteenTries(mem: nat -> Memory, words: nat)
    requires forall k :: |mem(k).data| == words
    requires forall k | 0 <= k < 15 :: mem(k).sequence % 2 == 1
    ensures mem(15).sequence % 2 == 1 ==> Outcome(RLoad(0), mem, 0, words) == GivesUp
    ensures mem(15).sequence % 2 == 0 && (forall k | k >= 15 :: mem(k) == mem(15)) ==>
              Outcome(RLoad(0), mem, 0, words) == Gives(mem(15).data)
  {
    hide Outcome;
    OddLooks(mem, words, 15);
    OutcomeNext(RLoad(15), mem, 15, words);
    if mem(15).sequence % 2 == 1 {
      OutcomeNext(RLoad(16), mem, 16, words);
    } else if forall k | k >= 15 :: mem(k) == mem(15) {
      Quiet(mem, words, 16, 0);
    }
  }
}
