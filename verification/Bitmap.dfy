// Occupancy bitmaps: one bit per price level, packed in 64-bit words
// (setBit, clearBit and the word scans of include/orderbook.hpp).
module Bitmaps {

  // A uint64_t as its bits, least significant first.
  type Word = w: seq<bool> | |w| == 64 witness seq(64, _ => false)

  predicate BitAt(ws: seq<Word>, i: nat)
    requires i < 64 * |ws|
  {
    ws[i / 64][i % 64]
  }

  predicate IsZero(w: Word) {
    forall k | 0 <= k < 64 :: !w[k]
  }

  // 63 - clz(w)
  function HighBit(w: Word, k: nat): (r: nat)
    requires k <= 64 && exists i | 0 <= i < k :: w[i]
    ensures r < k && w[r] && forall i | r < i < k :: !w[i]
  {
    if w[k - 1] then k - 1 else HighBit(w, k - 1)
  }

  // ctz(w)
  function LowBit(w: Word, k: nat): (r: nat)
    requires k <= 64 && exists i | k <= i < 64 :: w[i]
    ensures k <= r < 64 && w[r] && forall i | k <= i < r :: !w[i]
    decreases 64 - k
  {
    if w[k] then k else LowBit(w, k + 1)
  }

  method SetBit(w: array<Word>, i: nat)
    requires i < 64 * w.Length
    modifies w
    ensures forall j | 0 <= j < 64 * w.Length :: BitAt(w[..], j) <==> (j == i || BitAt(old(w[..]), j))
  {
    w[i / 64] := w[i / 64][i % 64 := true];
    forall j | 0 <= j < 64 * w.Length
      ensures BitAt(w[..], j) <==> (j == i || BitAt(old(w[..]), j))
    {
      assert j == 64 * (j / 64) + j % 64 && i == 64 * (i / 64) + i % 64;
    }
  }

  method ClearBit(w: array<Word>, i: nat)
    requires i < 64 * w.Length
    modifies w
    ensures forall j | 0 <= j < 64 * w.Length :: BitAt(w[..], j) <==> (j != i && BitAt(old(w[..]), j))
  {
    w[i / 64] := w[i / 64][i % 64 := false];
    forall j | 0 <= j < 64 * w.Length
      ensures BitAt(w[..], j) <==> (j != i && BitAt(old(w[..]), j))
    {
      assert j == 64 * (j / 64) + j % 64 && i == 64 * (i / 64) + i % 64;
    }
  }

  // The extreme set bit of the whole map, found a word at a time; -1 when there is none.
  method HighestSetBit(w: array<Word>) returns (r: int)
    ensures r == -1 ==> forall j | 0 <= j < 64 * w.Length :: !BitAt(w[..], j)
    ensures r != -1 ==> 0 <= r < 64 * w.Length && BitAt(w[..], r)
    ensures r != -1 ==> forall j | r < j < 64 * w.Length :: !BitAt(w[..], j)
  {
    var wi := w.Length - 1;
    while wi >= 0
      invariant -1 <= wi < w.Length
      invariant forall j | 64 * (wi + 1) <= j < 64 * w.Length :: !BitAt(w[..], j)
    {
      if !IsZero(w[wi]) {
        r := wi * 64 + HighBit(w[wi], 64);
        forall j | r < j < 64 * w.Length
          ensures !BitAt(w[..], j)
        {
          if j < 64 * (wi + 1) { assert j / 64 == wi && j % 64 == j - 64 * wi; }
        }
        return;
      }
      forall j | 64 * wi <= j < 64 * (wi + 1)
        ensures !BitAt(w[..], j)
      {
        assert j / 64 == wi;
      }
      wi := wi - 1;
    }
    return -1;
  }

  method LowestSetBit(w: array<Word>) returns (r: int)
    ensures r == -1 ==> forall j | 0 <= j < 64 * w.Length :: !BitAt(w[..], j)
    ensures r != -1 ==> 0 <= r < 64 * w.Length && BitAt(w[..], r)
    ensures r != -1 ==> forall j | 0 <= j < r :: !BitAt(w[..], j)
  {
    var wi := 0;
    while wi < w.Length
      invariant 0 <= wi <= w.Length
      invariant forall j | 0 <= j < 64 * wi :: !BitAt(w[..], j)
    {
      if !IsZero(w[wi]) {
        r := wi * 64 + LowBit(w[wi], 0);
        forall j | 0 <= j < r
          ensures !BitAt(w[..], j)
        {
          if j >= 64 * wi { assert j / 64 == wi && j % 64 == j - 64 * wi; }
        }
        return;
      }
      forall j | 64 * wi <= j < 64 * (wi + 1)
        ensures !BitAt(w[..], j)
      {
        assert j / 64 == wi;
      }
      wi := wi + 1;
    }
    return -1;
  }
}
