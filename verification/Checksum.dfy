// The one's-complement header checksum (sections 1 and 2 of RFC 1071), in the two forms the repository
// uses: folding the carry at every step (fpga/tb/frames.py) and adding first, folding three times at the
// end (fpga/rtl/ipv4_parser.v).
module Checksums {
  import opened Bytes

  // The plain sum of the big-endian 16-bit words; an odd byte at the end counts as a high byte.
  function WordSum(b: seq<Byte>): nat {
    if b == [] then 0
    else if |b| == 1 then Word(b[0], 0)
    else Word(b[0], b[1]) + WordSum(b[2..])
  }

  lemma {:induction false} WordSumConcat(a: seq<Byte>, b: seq<Byte>)
    requires |a| % 2 == 0
    ensures WordSum(a + b) == WordSum(a) + WordSum(b)
  {
    if a == [] {
      assert a + b == b;
    } else {
      assert (a + b)[2..] == a[2..] + b;
      WordSumConcat(a[2..], b);
    }
  }

  lemma {:induction false} WordSumBound(b: seq<Byte>)
    ensures WordSum(b) <= 65535 * ((|b| + 1) / 2)
  {
    if |b| > 1 { WordSumBound(b[2..]); }
  }

  // ---- folding at every step ----

  function FoldOnce(t: nat): nat {
    t % 65536 + t / 65536
  }

  function StepSum(b: seq<Byte>, total: nat): nat
    decreases |b|
  {
    if b == [] then total
    else if |b| == 1 then FoldOnce(total + Word(b[0], 0))
    else StepSum(b[2..], FoldOnce(total + Word(b[0], b[1])))
  }

  lemma StepNext(b: seq<Byte>, total: nat)
    requires |b| >= 2
    ensures StepSum(b, total) == StepSum(b[2..], FoldOnce(total + Word(b[0], b[1])))
  {
  }

  lemma FoldBound(t: nat)
    requires t <= 131070
    ensures FoldOnce(t) <= 65535
  {
  }

  // The loop of ones_complement_sum. Zero means the words add up to the one's-complement zero.
  method OnesComplementSum(data: seq<Byte>) returns (r: nat)
    ensures r == 65535 - StepSum(data, 0)
  {
    hide StepSum, FoldOnce;
    PadStep(data, 0);
    var b: seq<Byte> := if |data| % 2 == 1 then data + [0] else data;
    var total: nat, i: nat := 0, 0;
    assert b[0..] == b;
    while i < |b|
      invariant i <= |b| && i % 2 == 0 && |b| % 2 == 0
      invariant total <= 65535
      invariant StepSum(b[i..], total) == StepSum(data, 0)
    {
      assert b[i..][2..] == b[i + 2..];
      StepNext(b[i..], total);
      FoldBound(total + Word(b[i], b[i + 1]));
      total := FoldOnce(total + Word(b[i], b[i + 1]));
      i := i + 2;
    }
    assert b[i..] == [];
    StepEnd(total);
    r := 65535 - total;
  }

  lemma StepEnd(total: nat)
    ensures StepSum([], total) == total
  {
  }

  lemma StepOdd(x: Byte, total: nat)
    ensures StepSum([x, 0], total) == StepSum([x], total)
  {
    StepNext([x, 0], total);
    assert [x, 0][2..] == [];
  }

  lemma {:induction false} PadStep(b: seq<Byte>, total: nat)
    ensures |b| % 2 == 1 ==> StepSum(b + [0], total) == StepSum(b, total)
    decreases |b|
  {
    hide StepSum, FoldOnce;
    if |b| == 1 {
      assert b + [0] == [b[0], 0] && b == [b[0]];
      StepOdd(b[0], total);
    } else if |b| > 1 {
      assert (b + [0])[2..] == b[2..] + [0];
      StepNext(b, total);
      StepNext(b + [0], total);
      PadStep(b[2..], FoldOnce(total + Word(b[0], b[1])));
    }
  }

  // s folds to m: congruent modulo 65535, in range, and zero only for zero.
  ghost predicate FoldsTo(s: nat, m: nat) {
    m <= 65535 && m <= s && (m == 0 <==> s == 0) && (s - m) % 65535 == 0
  }

  lemma FoldStep(s: nat, m: nat, w: nat)
    requires FoldsTo(s, m) && w <= 65535
    ensures FoldsTo(s + w, FoldOnce(m + w))
  {
    var q := (m + w) / 65536;
    assert m + w - FoldOnce(m + w) == 65535 * q;
    assert s + w - FoldOnce(m + w) == (s - m) + 65535 * q;
  }

  lemma {:induction false} StepSumResidue(b: seq<Byte>, s: nat, total: nat)
    requires FoldsTo(s, total)
    ensures FoldsTo(s + WordSum(b), StepSum(b, total))
    decreases |b|
  {
    hide FoldOnce, FoldsTo, Word, StepSum, WordSum;
    SumNext(b);
    if b == [] {
      StepEnd(total);
    } else if |b| == 1 {
      StepLast(b[0], total);
      assert b == [b[0]];
      FoldStep(s, total, Word(b[0], 0));
    } else {
      StepNext(b, total);
      FoldStep(s, total, Word(b[0], b[1]));
      StepSumResidue(b[2..], s + Word(b[0], b[1]), FoldOnce(total + Word(b[0], b[1])));
    }
  }

  lemma SumNext(b: seq<Byte>)
    ensures WordSum(b) == if b == [] then 0 else if |b| == 1 then Word(b[0], 0) else Word(b[0], b[1]) + WordSum(b[2..])
  {
  }

  lemma StepLast(x: Byte, total: nat)
    ensures StepSum([x], total) == FoldOnce(total + Word(x, 0))
  {
  }

  // ---- adding first, folding three times ----

  const WORD32: nat := 0x1_0000_0000

  function Wire17(t: nat): nat {
    t % 131072
  }

  // That many 17-bit wires, each the fold of the one before.
  function Folds(s: nat, wires: nat): nat {
    if wires == 0 then s else Wire17(FoldOnce(Folds(s, wires - 1)))
  }

  // Three of them over a 32-bit sum.
  predicate CsumOk(s: nat) {
    Folds(s % WORD32, 3) % 65536 == 65535
  }

  lemma FoldResidue(s: nat, m: nat)
    requires (s - m) % 65535 == 0 && m <= s && (m == 0 <==> s == 0)
    ensures var f := FoldOnce(m);
            (s - f) % 65535 == 0 && f <= s && (f == 0 <==> s == 0)
  {
    var q := m / 65536;
    assert m - FoldOnce(m) == 65535 * q;
    assert s - FoldOnce(m) == (s - m) + 65535 * q;
  }

  lemma TwoFolds(s: nat)
    requires s < WORD32
    ensures FoldOnce(s) <= 131070 && FoldOnce(FoldOnce(s)) <= 65535
  {
  }

  // A folded value that fits is its own fold.
  lemma FoldFixed(t: nat)
    requires t <= 65535
    ensures FoldOnce(t) == t
  {
  }

  lemma ThreeFolds(s: nat)
    requires s < WORD32
    ensures Folds(s, 3) == FoldOnce(FoldOnce(s))
  {
    hide FoldOnce;
    TwoFolds(s);
    assert Folds(s, 1) == FoldOnce(s);
    assert Folds(s, 2) == FoldOnce(FoldOnce(s));
    FoldFixed(FoldOnce(FoldOnce(s)));
  }

  lemma FoldsResidue(s: nat)
    requires s < WORD32
    ensures FoldsTo(s, Folds(s, 3))
  {
    hide FoldOnce, Folds;
    TwoFolds(s);
    ThreeFolds(s);
    FoldResidue(s, s);
    FoldResidue(s, FoldOnce(s));
  }

  lemma ResidueUnique(s: nat, m: nat, n: nat)
    requires FoldsTo(s, m) && FoldsTo(s, n)
    ensures m == n
  {
    assert (m - n) % 65535 == 0;
  }

  // Both accept the same headers, at any length up to the sixty bytes of a header and well beyond: the
  // 32-bit sum cannot overflow.
  lemma ChecksumsAgree(b: seq<Byte>)
    requires |b| <= 65536
    ensures WordSum(b) < WORD32
    ensures CsumOk(WordSum(b)) <==> StepSum(b, 0) == 65535
    ensures CsumOk(WordSum(b)) <==> WordSum(b) > 0 && WordSum(b) % 65535 == 0
  {
    hide WordSum, StepSum, FoldsTo, CsumOk;
    WordSumBound(b);
    NoSum();
    StepSumResidue(b, 0, 0);
    CsumOkIff(WordSum(b), StepSum(b, 0));
  }

  lemma NoSum()
    ensures FoldsTo(0, 0)
  {
  }

  lemma CsumOkIff(s: nat, m: nat)
    requires s < WORD32 && FoldsTo(s, m)
    ensures CsumOk(s) <==> m == 65535
    ensures CsumOk(s) <==> s > 0 && s % 65535 == 0
  {
    hide Folds;
    FoldsResidue(s);
    ResidueUnique(s, Folds(s, 3), m);
  }

  // The checksum field that completes a header whose other words add up to s.
  lemma CompletesToZero(s: nat, m: nat)
    requires FoldsTo(s, m) && s > 0
    ensures (s + (65535 - m)) % 65535 == 0
    ensures (s + m) % 65535 == 0 <==> m == 65535
  {
    assert s + (65535 - m) == (s - m) + 65535;
    assert s + m == (s - m) + 2 * m;
  }
}
