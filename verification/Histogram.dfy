// The latency histogram (metrics/include/latency_histogram.hpp), against the samples themselves.
module Histograms {
  import opened Types
  import opened Buckets

  // ---- samples ----

  function Total(vs: seq<nat>): nat {
    if vs == [] then 0 else Total(vs[..|vs| - 1]) + vs[|vs| - 1]
  }

  function Largest(vs: seq<nat>): nat {
    if vs == [] then 0
    else
      var m := Largest(vs[..|vs| - 1]);
      if vs[|vs| - 1] > m then vs[|vs| - 1] else m
  }

  function Smallest(vs: seq<nat>): nat {
    if vs == [] then UINT32_MAX else Min(Smallest(vs[..|vs| - 1]), vs[|vs| - 1])
  }

  // Samples in bucket b; in bucket b or an earlier one.
  function InBucket(vs: seq<nat>, b: nat): nat {
    if vs == [] then 0
    else InBucket(vs[..|vs| - 1], b) + if BucketOf(vs[|vs| - 1]) == b then 1 else 0
  }

  function UpTo(vs: seq<nat>, b: nat): nat {
    if vs == [] then 0
    else UpTo(vs[..|vs| - 1], b) + if BucketOf(vs[|vs| - 1]) <= b then 1 else 0
  }

  predicate InRange(vs: seq<nat>) {
    forall k | 0 <= k < |vs| :: vs[k] <= UINT32_MAX
  }

  lemma LastOf(vs: seq<nat>, v: nat)
    ensures (vs + [v])[..|vs|] == vs && (vs + [v])[|vs|] == v
  {
  }

  lemma {:induction false} Concatenated(a: seq<nat>, b: seq<nat>)
    ensures Total(a + b) == Total(a) + Total(b)
    ensures Largest(a + b) == if Largest(b) > Largest(a) then Largest(b) else Largest(a)
    ensures Smallest(a + b) == Min(Smallest(a), Smallest(b))
    decreases |b|
  {
    SmallestBound(a);
    if b == [] {
      assert a + b == a;
    } else {
      var c := b[..|b| - 1];
      assert (a + b)[..|a + b| - 1] == a + c;
      Concatenated(a, c);
    }
  }

  lemma {:induction false} SmallestBound(vs: seq<nat>)
    ensures Smallest(vs) <= UINT32_MAX
  {
    if vs != [] { SmallestBound(vs[..|vs| - 1]); }
  }

  lemma {:induction false} InBucketConcat(a: seq<nat>, b: seq<nat>, k: nat)
    ensures InBucket(a + b, k) == InBucket(a, k) + InBucket(b, k)
    decreases |b|
  {
    hide BucketOf;
    if b == [] {
      assert a + b == a;
    } else {
      assert (a + b)[..|a + b| - 1] == a + b[..|b| - 1];
      InBucketConcat(a, b[..|b| - 1], k);
    }
  }

  lemma {:induction false} UpToSteps(vs: seq<nat>, b: nat)
    ensures UpTo(vs, b) == (if b == 0 then 0 else UpTo(vs, b - 1)) + InBucket(vs, b)
  {
    hide BucketOf;
    if vs != [] { UpToSteps(vs[..|vs| - 1], b); }
  }

  lemma {:induction false} UpToAll(vs: seq<nat>)
    requires InRange(vs)
    ensures UpTo(vs, NB - 1) == |vs|
  {
    hide BucketOf;
    if vs != [] {
      UpToAll(vs[..|vs| - 1]);
      BucketInRange(vs[|vs| - 1]);
    }
  }

  // What the four summaries say of the samples.
  lemma {:induction false} LargestIs(vs: seq<nat>)
    ensures (forall v | v in vs :: v <= Largest(vs)) && if vs == [] then Largest(vs) == 0 else Largest(vs) in vs
  {
    if vs != [] {
      LargestIs(vs[..|vs| - 1]);
      assert vs == vs[..|vs| - 1] + [vs[|vs| - 1]];
    }
  }

  lemma {:induction false} SmallestIs(vs: seq<nat>)
    requires InRange(vs)
    ensures forall v | v in vs :: Smallest(vs) <= v
    ensures if vs == [] then Smallest(vs) == 0xFFFF_FFFF else Smallest(vs) in vs
  {
    if vs != [] {
      SmallestIs(vs[..|vs| - 1]);
      assert vs == vs[..|vs| - 1] + [vs[|vs| - 1]];
      SmallestBound(vs[..|vs| - 1]);
      if |vs| == 1 { assert vs[..0] == []; }
    }
  }

  // With Concatenated and InBucketConcat, these two determine sums and buckets.
  lemma SummariesOfOne(v: nat, b: nat)
    ensures Total([]) == 0 && Total([v]) == v
    ensures InBucket([], b) == 0 && InBucket([v], b) == if BucketOf(v) == b then 1 else 0
  {
    hide BucketOf;
    assert [v][..0] == [];
  }

  // ---- the class ----

  class LatencyHistogram {
    const bucket: array<nat>
    var count: nat
    var sum: nat
    var max: nat
    var min: nat
    ghost var samples: seq<nat> // what has been recorded since the last reset

    ghost predicate Valid()
      reads this, bucket
    {
      && bucket.Length == NB && InRange(samples)
      && (forall b | 0 <= b < NB :: bucket[b] == InBucket(samples, b))
      && count == |samples| && sum == Total(samples) && max == Largest(samples) && min == Smallest(samples)
    }

    constructor ()
      ensures Valid() && samples == [] && fresh(bucket)
    {
      bucket := new nat[NB](_ => 0);
      count, sum, max, min, samples := 0, 0, 0, UINT32_MAX, [];
    }

    method Reset()
      requires Valid()
      modifies this, bucket
      ensures Valid() && samples == []
    {
      var b := 0;
      while b < NB
        invariant 0 <= b <= NB && forall k | 0 <= k < b :: bucket[k] == 0
        modifies bucket
      {
        bucket[b] := 0;
        b := b + 1;
      }
      count, sum, max, min, samples := 0, 0, 0, UINT32_MAX, [];
    }

    method Record(v: nat)
      requires Valid() && v <= UINT32_MAX
      modifies this, bucket
      ensures Valid() && samples == old(samples) + [v]
    {
      hide BucketOf;
      BucketInRange(v);
      LastOf(samples, v);
      var b := BucketOf(v);
      bucket[b] := bucket[b] + 1;
      count, sum := count + 1, sum + v;
      if v > max {
        max := v;
      }
      if v < min {
        min := v;
      }
      samples := samples + [v];
    }

    // Fold another histogram in: as if its samples had been recorded here.
    method Merge(o: LatencyHistogram)
      requires Valid() && o.Valid() && o != this && o.bucket != bucket
      modifies this, bucket
      ensures Valid() && samples == old(samples) + o.samples
    {
      hide InBucket, Total, Largest, Smallest;
      ghost var a, c := samples, o.samples;
      Concatenated(a, c);
      var b := 0;
      while b < NB
        invariant 0 <= b <= NB
        invariant forall k | 0 <= k < b :: bucket[k] == InBucket(a + c, k)
        invariant forall k | b <= k < NB :: bucket[k] == InBucket(a, k)
        modifies bucket
      {
        InBucketConcat(a, c, b);
        bucket[b] := bucket[b] + o.bucket[b];
        b := b + 1;
      }
      count, sum := count + o.count, sum + o.sum;
      if o.max > max {
        max := o.max;
      }
      if o.min < min {
        min := o.min;
      }
      samples := a + c;
    }

    // The representative of the bucket in which the running total reaches the rank.
    method Percentile(rank: nat) returns (v: nat)
      requires Valid()
      ensures v == PercentileOf(samples, rank)
    {
      hide InBucket, UpTo, ValueOf;
      if count == 0 {
        return 0;
      }
      var r := Clamp(rank, count);
      var acc, b := 0, 0;
      UpToAll(samples);
      while b < NB
        invariant 0 <= b <= NB && acc == if b == 0 then 0 else UpTo(samples, b - 1)
        invariant acc < r
      {
        UpToSteps(samples, b);
        acc := acc + bucket[b];
        if acc >= r {
          FirstReaches(samples, r, b);
          return ValueOf(b);
        }
        b := b + 1;
      }
      assert false;
      v := max;
    }
  }

  function Clamp(rank: nat, n: nat): nat {
    if rank == 0 then 1 else if rank > n then n else rank
  }

  // ---- the reference: sort the samples, take the one at the rank ----

  function InsertSorted(v: nat, s: seq<nat>): seq<nat> {
    if s == [] then [v] else if v <= s[0] then [v] + s else [s[0]] + InsertSorted(v, s[1..])
  }

  function SortSamples(vs: seq<nat>): (s: seq<nat>)
    ensures |s| == |vs|
  {
    if vs == [] then []
    else
      var s := SortSamples(vs[..|vs| - 1]);
      InsertLength(vs[|vs| - 1], s);
      InsertSorted(vs[|vs| - 1], s)
  }

  lemma {:induction false} InsertLength(v: nat, s: seq<nat>)
    ensures |InsertSorted(v, s)| == |s| + 1
  {
    if s != [] && v > s[0] { InsertLength(v, s[1..]); }
  }

  // The percentile of a sample list: the lower bound of the bucket of the rank-th smallest.
  function PercentileOf(vs: seq<nat>, rank: nat): nat {
    if vs == [] then 0 else ValueOf(BucketOf(SortSamples(vs)[Clamp(rank, |vs|) - 1]))
  }

  ghost predicate Ascending(s: seq<nat>) {
    forall i, j | 0 <= i < j < |s| :: s[i] <= s[j]
  }

  lemma {:induction false} InsertKeeps(v: nat, s: seq<nat>)
    ensures multiset(InsertSorted(v, s)) == multiset(s) + multiset{v}
  {
    if s != [] && v > s[0] {
      InsertKeeps(v, s[1..]);
      assert s == [s[0]] + s[1..];
    } else if s != [] {
      assert InsertSorted(v, s) == [v] + s;
    }
  }

  lemma HeadIsLeast(s: seq<nat>, x: nat)
    requires Ascending(s) && x in multiset(s)
    ensures s != [] && s[0] <= x
  {
  }

  lemma AscendCons(x: nat, t: seq<nat>)
    requires Ascending(t) && (t != [] ==> x <= t[0])
    ensures Ascending([x] + t)
  {
  }

  lemma TailAscends(s: seq<nat>)
    requires Ascending(s) && s != []
    ensures Ascending(s[1..])
  {
  }

  lemma {:induction false} InsertAscends(v: nat, s: seq<nat>)
    requires Ascending(s)
    ensures Ascending(InsertSorted(v, s))
  {
    if s == [] {
    } else if v <= s[0] {
      hide Ascending;
      AscendCons(v, s);
    } else {
      var t := InsertSorted(v, s[1..]);
      assert t != [] && s[0] <= t[0];
      hide Ascending;
      TailAscends(s);
      InsertAscends(v, s[1..]);
      AscendCons(s[0], t);
    }
  }

  // The reference really sorts.
  lemma {:induction false} SortsSamples(vs: seq<nat>)
    ensures Ascending(SortSamples(vs)) && multiset(SortSamples(vs)) == multiset(vs)
  {
    if vs != [] {
      var c := vs[..|vs| - 1];
      SortsSamples(c);
      InsertAscends(vs[|vs| - 1], SortSamples(c));
      InsertKeeps(vs[|vs| - 1], SortSamples(c));
      hide Ascending;
      assert vs == c + [vs[|vs| - 1]];
    }
  }

  // Samples not above x.
  function AtMost(s: seq<nat>, b: nat): nat {
    if s == [] then 0 else (if BucketOf(s[0]) <= b then 1 else 0) + AtMost(s[1..], b)
  }

  lemma {:induction false} InsertAtMost(v: nat, s: seq<nat>, b: nat)
    ensures AtMost(InsertSorted(v, s), b) == AtMost(s, b) + if BucketOf(v) <= b then 1 else 0
  {
    hide BucketOf;
    if s == [] {
      assert [v][1..] == [];
    } else if v <= s[0] {
      assert ([v] + s)[1..] == s;
    } else {
      InsertAtMost(v, s[1..], b);
      assert ([s[0]] + InsertSorted(v, s[1..]))[1..] == InsertSorted(v, s[1..]);
    }
  }

  lemma {:induction false} SortKeepsCounts(vs: seq<nat>, b: nat)
    ensures AtMost(SortSamples(vs), b) == UpTo(vs, b)
  {
    hide BucketOf;
    if vs != [] {
      SortKeepsCounts(vs[..|vs| - 1], b);
      InsertAtMost(vs[|vs| - 1], SortSamples(vs[..|vs| - 1]), b);
    }
  }

  // In ascending order, more than i samples are in buckets up to b exactly when the one at i is.
  lemma {:induction false} CountIsPosition(s: seq<nat>, i: nat, b: nat)
    requires Ascending(s) && i < |s|
    ensures AtMost(s, b) > i <==> BucketOf(s[i]) <= b
  {
    hide BucketOf;
    if i == 0 {
      if BucketOf(s[0]) > b { NoneAtMost(s, b); }
    } else {
      BucketMonotone(s[0], s[i]);
      CountIsPosition(s[1..], i - 1, b);
      if BucketOf(s[0]) > b { NoneAtMost(s, b); }
    }
  }

  lemma {:induction false} NoneAtMost(s: seq<nat>, b: nat)
    requires Ascending(s) && s != [] && BucketOf(s[0]) > b
    ensures AtMost(s, b) == 0
  {
    hide BucketOf;
    if |s| > 1 {
      BucketMonotone(s[0], s[1]);
      NoneAtMost(s[1..], b);
    }
  }

  // The first bucket at which the running total reaches the rank is the bucket of the rank-th smallest.
  lemma FirstReaches(vs: seq<nat>, r: nat, b: nat)
    requires 1 <= r <= |vs| && UpTo(vs, b) >= r && (b == 0 || UpTo(vs, b - 1) < r)
    ensures BucketOf(SortSamples(vs)[r - 1]) == b
  {
    hide BucketOf, AtMost;
    var s := SortSamples(vs);
    SortsSamples(vs);
    SortKeepsCounts(vs, b);
    CountIsPosition(s, r - 1, b);
    if b > 0 {
      SortKeepsCounts(vs, b - 1);
      CountIsPosition(s, r - 1, b - 1);
    }
  }

  // What a percentile means: at most the exact one, and within a thirty-second of it.
  lemma PercentileError(vs: seq<nat>, rank: nat)
    requires vs != []
    ensures var exact := SortSamples(vs)[Clamp(rank, |vs|) - 1];
            PercentileOf(vs, rank) <= exact && 32 * (exact - PercentileOf(vs, rank)) <= exact
  {
    RelativeError(SortSamples(vs)[Clamp(rank, |vs|) - 1]);
  }

  // The rank counts from the smallest sample, and is taken into the range of ranks there are.
  lemma PercentileRank(vs: seq<nat>, rank: nat)
    requires vs != []
    ensures var r := if rank < 1 then 1 else if rank > |vs| then |vs| else rank;
            PercentileOf(vs, rank) == ValueOf(BucketOf(SortSamples(vs)[r - 1]))
    ensures PercentileOf([], rank) == 0
  {
    hide BucketOf, ValueOf, SortSamples;
  }

  // Recording order and the split over merged histograms do not matter.
  lemma PercentileOfUnion(a: seq<nat>, b: seq<nat>, rank: nat)
    requires multiset(a) == multiset(b)
    ensures PercentileOf(a, rank) == PercentileOf(b, rank)
  {
    SortsSamples(a);
    SortsSamples(b);
    SameSorted(SortSamples(a), SortSamples(b));
    assert |a| == |multiset(a)| == |multiset(b)| == |b|;
  }

  lemma Uncons(s: seq<nat>)
    requires s != []
    ensures multiset(s) == multiset{s[0]} + multiset(s[1..])
  {
    assert s == [s[0]] + s[1..];
  }

  lemma Cancel(x: nat, a: multiset<nat>, b: multiset<nat>)
    requires multiset{x} + a == multiset{x} + b
    ensures a == b
  {
    assert a == (multiset{x} + a) - multiset{x};
  }

  lemma SameHead(s: seq<nat>, t: seq<nat>)
    requires Ascending(s) && Ascending(t) && multiset(s) == multiset(t) && s != []
    ensures t != [] && s[0] == t[0]
  {
    hide Ascending;
    assert s[0] in multiset(t);
    HeadIsLeast(t, s[0]);
    assert t[0] in multiset(s);
    HeadIsLeast(s, t[0]);
  }

  lemma {:induction false} SameSorted(s: seq<nat>, t: seq<nat>)
    requires Ascending(s) && Ascending(t) && multiset(s) == multiset(t)
    ensures s == t
  {
    hide Ascending;
    if s == [] {
      assert |multiset(t)| == 0;
    } else {
      SameHead(s, t);
      Uncons(s);
      Uncons(t);
      Cancel(s[0], multiset(s[1..]), multiset(t[1..]));
      TailAscends(s);
      TailAscends(t);
      SameSorted(s[1..], t[1..]);
      assert s == [s[0]] + s[1..] && t == [t[0]] + t[1..];
    }
  }
}
