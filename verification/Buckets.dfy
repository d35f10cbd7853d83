// Log-linear bucket arithmetic (metrics/include/latency_histogram.hpp): 32 linear buckets, then 32
// sub-buckets for every power of two.
module Buckets {

  const SUB_BITS: nat := 5
  const SUB: nat := 32
  const NB: nat := 896
  const UINT32_MAX: nat := 0xFFFF_FFFF

  function Pow2(n: nat): (p: nat)
    ensures p > 0
  {
    if n == 0 then 1 else 2 * Pow2(n - 1)
  }

  // Position of the most significant bit.
  function Msb(v: nat): (h: nat)
    requires v > 0
  {
    if v == 1 then 0 else Msb(v / 2) + 1
  }

  function BucketOf(v: nat): nat {
    if v < SUB then v
    else
      var hb := Msb(v);
      MsbAtLeastFive(v);
      (hb - SUB_BITS + 1) * SUB + (v / Pow2(hb - SUB_BITS)) % SUB
  }

  function ValueOf(b: nat): nat {
    if b < SUB then b else (SUB + b % SUB) * Pow2(b / SUB - 1)
  }

  lemma {:induction false} MsbBounds(v: nat)
    requires v > 0
    ensures Pow2(Msb(v)) <= v < 2 * Pow2(Msb(v))
  {
    if v > 1 { MsbBounds(v / 2); }
  }

  lemma {:induction false} Pow2Grows(m: nat, n: nat)
    requires m <= n
    ensures Pow2(m) <= Pow2(n)
  {
    if m < n { Pow2Grows(m, n - 1); }
  }

  lemma MsbAtLeastFive(v: nat)
    requires v >= SUB
    ensures Msb(v) >= SUB_BITS
  {
    MsbBounds(v);
    Pow2Five();
    if Msb(v) < SUB_BITS { Pow2Grows(Msb(v), 4); }
  }

  lemma {:induction false} Pow2Sum(m: nat, n: nat)
    ensures Pow2(m + n) == Pow2(m) * Pow2(n)
  {
    if m > 0 {
      Pow2Sum(m - 1, n);
      assert Pow2(m) * Pow2(n) == 2 * (Pow2(m - 1) * Pow2(n));
    }
  }

  lemma Pow2Five()
    ensures Pow2(5) == 32
  {
    assert Pow2(1) == 2 && Pow2(2) == 4 && Pow2(3) == 8 && Pow2(4) == 16;
  }

  lemma {:induction false} MsbAtMost(v: nat, n: nat)
    requires 0 < v < Pow2(n + 1)
    ensures Msb(v) <= n
  {
    MsbBounds(v);
    if Msb(v) > n { Pow2Grows(n + 1, Msb(v)); }
  }

  lemma Pow2ThirtyTwo()
    ensures Pow2(32) == UINT32_MAX + 1
  {
    Pow2Five();
    Pow2Sum(5, 5);
    Pow2Sum(10, 10);
    Pow2Sum(20, 10);
    assert Pow2(32) == 2 * Pow2(31) && Pow2(31) == 2 * Pow2(30);
  }

  // A value in the log region: its octave, its sub-bucket, and the width of its bucket.
  lemma LogParts(v: nat) returns (shift: nat, sub: nat)
    requires SUB <= v
    ensures sub < SUB && BucketOf(v) == (shift + 1) * SUB + sub
    ensures (SUB + sub) * Pow2(shift) <= v < (SUB + sub + 1) * Pow2(shift)
    ensures v <= UINT32_MAX ==> shift <= 26
  {
    hide Pow2, Msb;
    var hb := Msb(v);
    MsbBounds(v);
    MsbAtLeastFive(v);
    Pow2Five();
    shift := hb - SUB_BITS;
    Pow2Sum(5, shift);
    var w := Pow2(shift);
    var q := v / w;
    assert Pow2(hb) == 32 * w;
    QuotientBounds(v, w, q);
    sub := q - SUB;
    if v <= UINT32_MAX {
      Pow2ThirtyTwo();
      MsbAtMost(v, 31);
    }
  }

  lemma QuotientBounds(v: nat, w: nat, q: nat)
    requires w > 0 && 32 * w <= v < 64 * w && q == v / w
    ensures 32 <= q < 64 && q % 32 == q - 32
    ensures (32 + (q - 32)) * w <= v < (q + 1) * w
  {
    assert v == q * w + v % w;
    if q < 32 { MulLe(q + 1, 32, w); }
    if q >= 64 { MulLe(64, q, w); }
  }

  lemma MulLe(a: int, b: int, w: nat)
    requires a <= b
    ensures a * w <= b * w
  {
  }

  // There are exactly enough buckets.
  lemma BucketInRange(v: nat)
    requires v <= UINT32_MAX
    ensures BucketOf(v) < NB
  {
    if v >= SUB {
      var shift, sub := LogParts(v);
    }
  }

  lemma ValueOfParts(shift: nat, sub: nat)
    requires sub < SUB
    ensures ValueOf((shift + 1) * SUB + sub) == (SUB + sub) * Pow2(shift)
  {
    var b := (shift + 1) * SUB + sub;
    assert b / SUB == shift + 1 && b % SUB == sub;
  }

  // The representative is the lower bound of the bucket, never above the value and within a thirty-second
  // of it.
  lemma RelativeError(v: nat)
    ensures ValueOf(BucketOf(v)) <= v
    ensures 32 * (v - ValueOf(BucketOf(v))) <= v
    ensures v < SUB ==> ValueOf(BucketOf(v)) == v
  {
    if v >= SUB {
      var shift, sub := LogParts(v);
      ValueOfParts(shift, sub);
      var w := Pow2(shift);
      assert (SUB + sub + 1) * w == (SUB + sub) * w + w;
      MulLe(SUB, SUB + sub, w);
    }
  }

  // Representatives increase with the bucket.
  lemma ValueOfNext(b: nat)
    ensures ValueOf(b) < ValueOf(b + 1)
  {
    if b >= SUB {
      var shift, sub := b / SUB - 1, b % SUB;
      ValueOfParts(shift, sub);
      assert b == (shift + 1) * SUB + sub;
      if sub < SUB - 1 {
        ValueOfParts(shift, sub + 1);
        assert (SUB + sub + 1) * Pow2(shift) == (SUB + sub) * Pow2(shift) + Pow2(shift);
      } else {
        ValueOfParts(shift + 1, 0);
        assert b + 1 == (shift + 2) * SUB + 0;
      }
    } else if b == SUB - 1 {
      ValueOfParts(0, 0);
    }
  }

  lemma {:induction false} ValueOfMonotone(a: nat, b: nat)
    requires a < b
    ensures ValueOf(a) < ValueOf(b)
    decreases b - a
  {
    ValueOfNext(a);
    if a + 1 < b { ValueOfMonotone(a + 1, b); }
  }

  // A value lies below the representative of the next bucket.
  lemma BelowNextBucket(v: nat)
    ensures v < ValueOf(BucketOf(v) + 1)
  {
    if v >= SUB {
      var shift, sub := LogParts(v);
      if sub < SUB - 1 {
        ValueOfParts(shift, sub + 1);
      } else {
        ValueOfParts(shift + 1, 0);
        assert BucketOf(v) + 1 == (shift + 2) * SUB + 0;
        assert (SUB + sub + 1) * Pow2(shift) == SUB * (2 * Pow2(shift));
      }
    } else if v == SUB - 1 {
      ValueOfParts(0, 0);
    }
  }

  // The buckets partition the values at their lower bounds: a value is in bucket b or later exactly when it
  // is not below b's representative. So buckets are monotone in the value.
  lemma BucketBoundary(v: nat, b: nat)
    ensures BucketOf(v) >= b <==> v >= ValueOf(b)
  {
    var c := BucketOf(v);
    RelativeError(v);
    BelowNextBucket(v);
    if b < c {
      ValueOfMonotone(b, c);
    } else if c + 1 < b {
      ValueOfMonotone(c + 1, b);
    }
  }

  lemma BucketMonotone(v: nat, w: nat)
    requires v <= w
    ensures BucketOf(v) <= BucketOf(w)
  {
    BucketBoundary(w, BucketOf(v));
    RelativeError(v);
  }
}
