// Metric events, and the recorder on the hot path (metrics/include/metrics_recorder.hpp): one latency in
// mask + 1 is sampled, and what the ring refuses is counted.
module Recorders {
  import opened Buckets
  import opened SpscRings

  datatype Event =
    | Latency(op: nat, ticks: nat)
    | Snapshot(bid: int, ask: int)
    | Trade(price: int, qty: nat, maker: nat)

  // ---- sampling ----

  // Bitwise and.
  function And(a: nat, b: nat): nat {
    if a == 0 || b == 0 then 0 else 2 * And(a / 2, b / 2) + (a % 2) * (b % 2)
  }

  lemma AndOdd(n: nat, p: nat)
    requires p > 0
    ensures And(n, 2 * p - 1) == 2 * And(n / 2, p - 1) + n % 2
  {
    var b := 2 * p - 1;
    assert b / 2 == p - 1 && b % 2 == 1;
    assert (n % 2) * (b % 2) == n % 2;
  }

  // Masking with 2^k - 1 takes the remainder.
  lemma {:induction false} MaskIsRemainder(n: nat, k: nat)
    ensures And(n, Pow2(k) - 1) == n % Pow2(k)
    decreases k
  {
    hide And;
    if k == 0 {
      AndZero(n);
    } else {
      var p := Pow2(k - 1);
      AndOdd(n, p);
      MaskIsRemainder(n / 2, k - 1);
      HalvedRemainder(n, p);
    }
  }

  lemma AndZero(n: nat)
    ensures And(n, 0) == 0
  {
  }

  lemma HalvedRemainder(n: nat, p: nat)
    requires p > 0
    ensures 2 * ((n / 2) % p) + n % 2 == n % (2 * p)
  {
    var q, r := (n / 2) / p, (n / 2) % p;
    assert n / 2 == p * q + r && n == 2 * (n / 2) + n % 2;
    assert n == (2 * p) * q + (2 * r + n % 2) by { TwiceProduct(p, q); }
    ModUnique(n, 2 * r + n % 2, q, 2 * p);
  }

  lemma TwiceProduct(p: int, q: int)
    ensures 2 * (p * q) == (2 * p) * q
  {
  }

  // How many of the first n calls are sampled.
  function Sampled(n: nat, mask: nat): nat {
    if n == 0 then 0 else Sampled(n - 1, mask) + if And(n - 1, mask) == 0 then 1 else 0
  }

  // One in mask + 1, starting with the first: the ceiling of n / (mask + 1).
  lemma {:induction false} SampledIsCeiling(n: nat, k: nat)
    ensures Sampled(n, Pow2(k) - 1) == (n + Pow2(k) - 1) / Pow2(k)
    decreases n
  {
    var p := Pow2(k);
    if n == 0 {
      QuotientIs(p - 1, 0, p);
    } else {
      hide Pow2;
      SampledIsCeiling(n - 1, k);
      MaskIsRemainder(n - 1, k);
      CeilingSteps(n - 1, p);
    }
  }

  lemma QuotientIs(x: nat, q: nat, p: nat)
    requires p > 0 && p * q <= x < p * q + p
    ensures x / p == q
  {
    ModUnique(x, x - p * q, q, p);
    assert x == p * (x / p) + x % p;
    ZeroProduct(p, x / p - q);
  }

  lemma ZeroProduct(p: int, d: int)
    requires p > 0 && p * d == 0
    ensures d == 0
  {
  }

  lemma CeilingSteps(n: nat, p: nat)
    requires p > 0
    ensures (n + 1 + p - 1) / p == (n + p - 1) / p + if n % p == 0 then 1 else 0
  {
    var q, r := n / p, n % p;
    assert n == p * q + r;
    MulNext(p, q);
    if r == 0 {
      QuotientIs(n + p - 1, q, p);
    } else {
      MulNext(p, q + 1);
      QuotientIs(n + p - 1, q + 1, p);
    }
    QuotientIs(n + p, q + 1, p);
  }

  // ---- the class ----

  // The attempted events whose push was accepted.
  function Accepted(attempts: seq<Event>, fate: seq<bool>): seq<Event>
    requires |attempts| == |fate|
  {
    if attempts == [] then []
    else
      var n := |attempts| - 1;
      Accepted(attempts[..n], fate[..n]) + if fate[n] then [attempts[n]] else []
  }

  function Refused(fate: seq<bool>): nat {
    if fate == [] then 0 else Refused(fate[..|fate| - 1]) + if fate[|fate| - 1] then 0 else 1
  }

  class MetricsRecorder {
    const ring: SpscRing<Event>
    const mask: nat
    var sampleCount: nat
    var drops: nat
    ghost var attempts: seq<Event>
    ghost var fate: seq<bool>

    // Every event attempted is either in the ring's history or counted as dropped.
    ghost predicate Valid()
      reads this, ring, ring.buf
    {
      && ring.Valid() && |attempts| == |fate|
      && ring.log.pushed == Accepted(attempts, fate) && drops == Refused(fate)
    }

    constructor (ring: SpscRing<Event>, mask: nat)
      requires ring.Valid() && ring.log.pushed == []
      ensures Valid() && attempts == [] && sampleCount == 0 && this.ring == ring && this.mask == mask
    {
      this.ring, this.mask := ring, mask;
      sampleCount, drops, attempts, fate := 0, 0, [], [];
    }

    method Push(e: Event)
      requires Valid()
      modifies this`drops, this`attempts, this`fate, ring, ring.buf
      ensures Valid() && attempts == old(attempts) + [e]
      ensures drops == old(drops) + if |InFlight(old(ring.log))| < ring.buf.Length then 0 else 1
    {
      ghost var l := ring.log;
      PushedGrows(ring.State(), e);
      var ok := ring.TryPush(e);
      if !ok {
        drops := drops + 1;
      }
      attempts, fate := attempts + [e], fate + [ok];
      assert attempts[..|attempts| - 1] == old(attempts) && fate[..|fate| - 1] == old(fate);
    }

    method RecordLatency(op: nat, ticks: nat)
      requires Valid()
      modifies this, ring, ring.buf
      ensures Valid() && sampleCount == old(sampleCount) + 1
      ensures attempts == old(attempts) + if And(old(sampleCount), mask) == 0 then [Latency(op, ticks)] else []
    {
      var n := sampleCount;
      sampleCount := sampleCount + 1;
      if And(n, mask) != 0 {
        return;
      }
      Push(Latency(op, ticks));
    }

    method RecordSnapshot(bid: int, ask: int)
      requires Valid()
      modifies this, ring, ring.buf
      ensures Valid() && sampleCount == old(sampleCount) && attempts == old(attempts) + [Snapshot(bid, ask)]
    {
      Push(Snapshot(bid, ask));
    }

    method RecordTrade(price: int, qty: nat, maker: nat)
      requires Valid()
      modifies this, ring, ring.buf
      ensures Valid() && sampleCount == old(sampleCount) && attempts == old(attempts) + [Trade(price, qty, maker)]
    {
      Push(Trade(price, qty, maker));
    }
  }

  // An accepted push adds its value to what was pushed, a refused one nothing.
  lemma PushedGrows(s: Sys<Event>, e: Event)
    requires Inv(s) && s.r.p.PIdle?
    ensures SoloPush(s, e).l.pushed == if |InFlight(s.l)| < |s.r.buf| then s.l.pushed + [e] else s.l.pushed
  {
    hide Inv, Stored, Distance, PushDecides;
    InvOrder(s);
    PushDecidesOk(s, e);
  }

  lemma {:induction false} FatesAddUp(attempts: seq<Event>, fate: seq<bool>)
    requires |attempts| == |fate|
    ensures |Accepted(attempts, fate)| + Refused(fate) == |attempts|
  {
    if attempts != [] { FatesAddUp(attempts[..|attempts| - 1], fate[..|fate| - 1]); }
  }
}
