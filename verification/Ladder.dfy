// One side's direct-mapped price ladder: the levels, the occupancy bitmap, the best index and the
// count of occupied levels (the bid_* and ask_* fields of include/orderbook.hpp).
module Ladders {
  import opened Types
  import opened BookSpec
  import opened BookLaws
  import opened ObjectPools
  import opened PriceLevels
  import opened LadderViews
  import opened Bitmaps

  function Occupied<T>(queues: seq<seq<T>>): nat {
    if queues == [] then 0
    else Occupied(queues[..|queues| - 1]) + if queues[|queues| - 1] == [] then 0 else 1
  }

  lemma {:induction false} OccupiedUpdate<T>(queues: seq<seq<T>>, i: nat, q: seq<T>)
    requires i < |queues|
    ensures Occupied(queues[i := q]) ==
            Occupied(queues) - (if queues[i] == [] then 0 else 1) + (if q == [] then 0 else 1)
  {
    var n := |queues| - 1;
    if i == n {
      assert queues[i := q][..n] == queues[..n];
    } else {
      assert queues[i := q][..n] == queues[..n][i := q];
      OccupiedUpdate(queues[..n], i, q);
    }
  }

  lemma OccupiedPositive<T>(queues: seq<seq<T>>, i: nat)
    requires i < |queues| && queues[i] != []
    ensures Occupied(queues) > 0
  {
    OccupiedUpdate(queues, i, []);
  }

  lemma {:induction false} OccupiedNone<T>(queues: seq<seq<T>>)
    requires forall i | 0 <= i < |queues| :: queues[i] == []
    ensures Occupied(queues) == 0
  {
    if queues != [] {
      assert queues[|queues| - 1] == [];
      OccupiedNone(queues[..|queues| - 1]);
    }
  }

  // A set bit for every level that has orders, and no other.
  ghost predicate BitsAgree(ws: seq<Word>, queues: seq<seq<int>>) {
    forall i | 0 <= i < 64 * |ws| :: BitAt(ws, i) <==> i < |queues| && queues[i] != []
  }

  // -1 for an empty side, else the occupied level nearest to the other side.
  ghost predicate IsBest(side: Side, queues: seq<seq<int>>, best: int) {
    if best == -1 then forall i | 0 <= i < |queues| :: queues[i] == []
    else
      && 0 <= best < |queues| && queues[best] != []
      && forall i | 0 <= i < |queues| :: Better(side, i, best) ==> queues[i] == []
  }

  // A level that becomes occupied is the best one if it improves on the best or is the only one.
  lemma BestAfterRest(side: Side, queues: seq<seq<int>>, idx: nat, q: seq<int>, best: int, best': int)
    requires IsBest(side, queues, best) && idx < |queues| && q != []
    requires best' == if queues[idx] == [] && (best < 0 || Better(side, idx, best)) then idx else best
    ensures IsBest(side, queues[idx := q], best')
  {
  }

  // While a level stays occupied, or another one is the best, the best is unchanged.
  lemma BestAfterUnrest(side: Side, queues: seq<seq<int>>, idx: nat, q: seq<int>, best: int)
    requires IsBest(side, queues, best) && idx < |queues| && queues[idx] != []
    requires q != [] || idx != best
    ensures IsBest(side, queues[idx := q], best)
  {
  }

  // The extreme set bit of a map that agrees with the queues is the best level.
  lemma BestByScan(side: Side, ws: seq<Word>, queues: seq<seq<int>>, r: int)
    requires BitsAgree(ws, queues) && |queues| <= 64 * |ws|
    requires r == -1 ==> forall j | 0 <= j < 64 * |ws| :: !BitAt(ws, j)
    requires r != -1 ==> 0 <= r < 64 * |ws| && BitAt(ws, r)
    requires r != -1 ==> forall j | 0 <= j < 64 * |ws| :: Better(side, j, r) ==> !BitAt(ws, j)
    ensures IsBest(side, queues, r)
  {
    forall i | 0 <= i < |queues|
      ensures BitAt(ws, i) <==> queues[i] != []
    {
    }
  }

  lemma RelinkedOn(slots: seq<Slot>, slots': seq<Slot>, q: seq<int>, o: int, r: seq<int>, side: Side, price: Price)
    requires Relinked(slots, slots', q, o) && OnLevel(slots, r, side, price)
    ensures OnLevel(slots', r, side, price)
  {
    forall s | s in r
      ensures IsLive(slots', s) && slots'[s].order.side == side && slots'[s].order.price == price
    {
      assert IsLive(slots, s) && Unlinked(slots'[s].order) == Unlinked(slots[s].order);
    }
  }

  // One empty level per tick.
  method MakeLevels(min: Price, n: nat) returns (ls: seq<PriceLevel>)
    ensures |ls| == n && forall j | 0 <= j < n :: fresh(ls[j]) && ls[j].price == min + j && ls[j].Holds([], [])
    ensures forall j, k | 0 <= j < k < n :: ls[j] != ls[k]
  {
    ls := [];
    for i := 0 to n
      invariant |ls| == i
      invariant forall j | 0 <= j < i :: fresh(ls[j]) && ls[j].price == min + j && ls[j].Holds([], [])
      invariant forall j, k | 0 <= j < k < i :: ls[j] != ls[k]
    {
      var l := new PriceLevel(min + i);
      ls := ls + [l];
    }
  }

  // Orders that are all at the price, or all off it.
  ghost predicate Priced(slots: seq<Slot>, q: seq<int>, p: Price, at: bool) {
    forall s | s in q :: IsLive(slots, s) && (slots[s].order.price == p <==> at)
  }

  lemma PricedView(slots: seq<Slot>, q: seq<int>, p: Price, at: bool)
    requires Priced(slots, q, p, at)
    ensures AtPrice(View(slots, q), p) == if at then View(slots, q) else []
  {
    hide AtPrice;
    var v := View(slots, q);
    AtPriceAll(v, p);
    forall i | 0 <= i < |v| ensures v[i].price == p <==> at { assert q[i] in q; }
  }

  lemma PricedAround(side: Side, slots: seq<Slot>, queues: seq<seq<int>>, lo: Price, i: nat)
    requires OnLadder(slots, queues, side, lo) && i < |queues|
    ensures Priced(slots, Ahead(side, queues, i), lo + i, false) && Priced(slots, queues[i], lo + i, true)
    ensures Priced(slots, Behind(side, queues, i), lo + i, false)
  {
    AroundPrices(slots, queues, side, lo, i);
    assert OnLevel(slots, queues[i], side, lo + i);
    hide Ahead, Behind, OnLadder;
  }

  lemma AtPriceMiddle(a: seq<Resting>, q: seq<Resting>, b: seq<Resting>, p: Price)
    requires AtPrice(a, p) == [] && AtPrice(q, p) == q && AtPrice(b, p) == []
    ensures AtPrice(a + q + b, p) == q
  {
    hide AtPrice;
    AtPriceConcat(a + q, b, p);
    AtPriceConcat(a, q, p);
  }

  // The orders at a price are those of its level.
  lemma OrdersAtLevel(side: Side, slots: seq<Slot>, queues: seq<seq<int>>, lo: Price, i: nat)
    requires OnLadder(slots, queues, side, lo) && i < |queues|
    ensures AtPrice(SideView(side, slots, queues), lo + i) == View(slots, queues[i])
  {
    hide Flat, Ahead, Behind, OnLadder, AtPrice, View, Priced;
    PricedAround(side, slots, queues, lo, i);
    FlatSplit(side, queues, i);
    var a, q, b := Ahead(side, queues, i), queues[i], Behind(side, queues, i);
    ViewConcat(slots, a + q, b);
    ViewConcat(slots, a, q);
    PricedView(slots, a, lo + i, false);
    PricedView(slots, q, lo + i, true);
    PricedView(slots, b, lo + i, false);
    AtPriceMiddle(View(slots, a), View(slots, q), View(slots, b), lo + i);
  }

  class Ladder {
    const side: Side
    const lo: Price
    const levels: seq<PriceLevel>
    const words: array<Word>
    var best: int
    var count: nat

    ghost var queues: seq<seq<int>>   // the FIFO of every level

    ghost predicate Shape() {
      && |levels| > 0 && words.Length == (|levels| + 63) / 64
      && forall i, j | 0 <= i < j < |levels| :: levels[i] != levels[j]
    }

    ghost predicate LevelOk(slots: seq<Slot>, i: nat, q: seq<int>)
      requires i < |levels|
      reads levels[i]
    {
      levels[i].price == lo + i && levels[i].Holds(slots, q) && OnLevel(slots, q, side, lo + i)
    }

    ghost predicate Valid(slots: seq<Slot>)
      reads this, words, levels
    {
      && Shape() && |queues| == |levels|
      && (forall i | 0 <= i < |levels| :: LevelOk(slots, i, queues[i]))
      && BitsAgree(words[..], queues)
      && IsBest(side, queues, best)
      && count == Occupied(queues)
    }

    constructor (s: Side, min: Price, max: Price)
      requires min <= max
      ensures Valid([]) && |levels| == max - min + 1 && side == s && lo == min
      ensures forall i | 0 <= i < |queues| :: queues[i] == []
      ensures fresh(words) && forall i | 0 <= i < |levels| :: fresh(levels[i])
    {
      side, lo, best, count := s, min, -1, 0;
      var ls := MakeLevels(min, max - min + 1);
      levels := ls;
      queues := seq(max - min + 1, _ => []);
      words := new Word[(max - min + 1 + 63) / 64](_ => seq(64, _ => false));
      new;
      OccupiedNone(queues);
    }

    lemma EmptyFlat()
      requires forall i | 0 <= i < |queues| :: queues[i] == []
      ensures Flat(side, queues) == []
    {
      if Flat(side, queues) != [] {
        var i := FlatMember(side, queues, Flat(side, queues)[0]);
        assert false;
      }
    }

    lemma AllOnLadder(slots: seq<Slot>)
      requires Valid(slots)
      ensures OnLadder(slots, queues, side, lo)
      ensures forall i | 0 <= i < |queues| :: NoDup(queues[i])
      ensures forall i | 0 <= i < |queues| :: levels[i].IsEmpty() <==> queues[i] == []
    {
      forall i | 0 <= i < |queues|
        ensures OnLevel(slots, queues[i], side, lo + i) && NoDup(queues[i])
        ensures levels[i].IsEmpty() <==> queues[i] == []
      {
        assert LevelOk(slots, i, queues[i]);
        levels[i].EmptyIff(slots, queues[i]);
      }
    }

    lemma AllListed(slots: seq<Slot>)
      requires Valid(slots)
      ensures forall s | s in Flat(side, queues) :: IsLive(slots, s) && slots[s].order.side == side
    {
      AllOnLadder(slots);
      FlatPrices(slots, queues, side, lo);
    }

    // Where a listed order stands.
    lemma Find(slots: seq<Slot>, o: int) returns (i: nat, k: nat)
      requires Valid(slots) && o in Flat(side, queues)
      ensures i < |levels| && k < |queues[i]| && queues[i][k] == o
      ensures IsLive(slots, o) && slots[o].order.price == lo + i
    {
      AllOnLadder(slots);
      i := FlatMember(side, queues, o);
      k :| k < |queues[i]| && queues[i][k] == o;
      assert OnLevel(slots, queues[i], side, lo + i);
    }

    // A level is untouched by changes to slots it does not list.
    lemma LevelFrame(slots: seq<Slot>, slots': seq<Slot>, i: nat, q: seq<int>)
      requires i < |levels| && LevelOk(slots, i, q)
      requires forall s | s in q :: 0 <= s < |slots'| && IsLive(slots, s) && slots'[s] == slots[s]
      ensures LevelOk(slots', i, q)
    {
      LinkedFrame(slots, slots', q);
    }

    // So is a whole ladder.
    lemma Frame(slots: seq<Slot>, slots': seq<Slot>)
      requires Valid(slots)
      requires forall s | s in Flat(side, queues) :: 0 <= s < |slots'| && IsLive(slots, s) && slots'[s] == slots[s]
      ensures Valid(slots') && SideView(side, slots', queues) == SideView(side, slots, queues)
    {
      forall i | 0 <= i < |levels|
        ensures LevelOk(slots', i, queues[i])
      {
        assert LevelOk(slots, i, queues[i]);
        FlatHas(side, queues, i);
        LevelFrame(slots, slots', i, queues[i]);
      }
      ViewFrame(slots, slots', Flat(side, queues));
    }

    // No level ahead of idx has orders.
    ghost predicate AtFront(idx: nat)
      reads this`queues
    {
      idx < |queues| && forall i | 0 <= i < |queues| && Better(side, i, idx) :: queues[i] == []
    }

    // A level agrees with the orders the simple book has at its price: emptiness, totals and its bit.
    ghost predicate LevelAgrees(q: seq<Resting>, i: nat)
      requires i < |levels|
      reads words, levels[i]
    {
      var here := AtPrice(q, lo + i);
      && i < 64 * words.Length && (BitAt(words[..], i) <==> here != [])
      && (levels[i].IsEmpty() <==> here == [])
      && levels[i].totalQuantity == Sum(here) && levels[i].orderCount == |here|
    }

    lemma LevelShows(slots: seq<Slot>, i: nat)
      requires Valid(slots) && i < |levels|
      ensures LevelAgrees(SideView(side, slots, queues), i)
    {
      assert |queues| == |levels|;
      LevelFacts(slots, i);
      LevelOrders(slots, i);
      hide Valid, SideView;
    }

    lemma LevelFacts(slots: seq<Slot>, i: nat)
      requires Valid(slots) && i < |levels|
      ensures i < 64 * words.Length && (BitAt(words[..], i) <==> queues[i] != [])
      ensures (levels[i].IsEmpty() <==> queues[i] == []) && levels[i].orderCount == |queues[i]|
      ensures levels[i].totalQuantity == Sum(View(slots, queues[i]))
    {
      assert LevelOk(slots, i, queues[i]);
      levels[i].EmptyIff(slots, queues[i]);
    }

    lemma LevelOrders(slots: seq<Slot>, i: nat)
      requires Valid(slots) && i < |levels|
      ensures AtPrice(SideView(side, slots, queues), lo + i) == View(slots, queues[i])
    {
      AllOnLadder(slots);
      assert |queues| == |levels|;
      hide *;
      OrdersAtLevel(side, slots, queues, lo, i);
    }

    lemma NothingAhead(idx: nat)
      requires AtFront(idx)
      ensures Ahead(side, queues, idx) == [] && Flat(side, queues) == queues[idx] + Behind(side, queues, idx)
    {
      FlatSplit(side, queues, idx);
      if Ahead(side, queues, idx) != [] {
        var i := AheadMember(side, queues, idx, Ahead(side, queues, idx)[0]);
        assert false;
      }
    }

    // Then the level's FIFO is the front of the whole side, everything behind it is strictly worse,
    lemma Front(slots: seq<Slot>, idx: nat)
      requires Valid(slots) && AtFront(idx)
      ensures var v := SideView(side, slots, queues);
              && |queues[idx]| <= |v| && v[..|queues[idx]|] == View(slots, queues[idx])
              && forall j | |queues[idx]| <= j < |v| :: Better(side, lo + idx, v[j].price)
    {
      AllOnLadder(slots);
      NothingAhead(idx);
      AroundPrices(slots, queues, side, lo, idx);
      hide Flat, Behind, Valid, OnLadder;
      var q, b := queues[idx], Behind(side, queues, idx);
      ViewConcat(slots, q, b);
      forall j | 0 <= j < |b|
        ensures Better(side, lo + idx, View(slots, b)[j].price)
      {
        assert b[j] in b;
      }
    }

    // and if it has orders it is the best level.
    lemma FrontLevel(slots: seq<Slot>, idx: nat)
      requires Valid(slots) && AtFront(idx)
      ensures idx < |levels| && (queues[idx] != [] ==> best == idx && IsLive(slots, queues[idx][0]))
      ensures levels[idx].head == At(queues[idx], 0) && (levels[idx].head == NULL <==> queues[idx] == [])
      ensures levels[idx].totalQuantity == Sum(View(slots, queues[idx]))
      ensures forall s | s in queues[idx] ::
                IsLive(slots, s) && slots[s].order.side == side && slots[s].order.price == lo + idx
    {
      AllOnLadder(slots);
      var q := queues[idx];
      assert LevelOk(slots, idx, q);
      if q != [] {
        assert q[0] in q;
        assert best != idx ==> Better(side, best, idx) || Better(side, idx, best);
      }
    }

    // The simple book shows whether a level is at the front,
    lemma AtFrontIff(slots: seq<Slot>, idx: nat)
      requires Valid(slots) && idx < |levels|
      ensures AtFront(idx) <==> forall x | x in SideView(side, slots, queues) :: !Better(side, x.price, lo + idx)
    {
      var f, v := Flat(side, queues), SideView(side, slots, queues);
      AllOnLadder(slots);
      if AtFront(idx) {
        forall x | x in v
          ensures !Better(side, x.price, lo + idx)
        {
          var k :| 0 <= k < |v| && v[k] == x;
          assert f[k] in f;
          var i := FlatMember(side, queues, f[k]);
          assert OnLevel(slots, queues[i], side, lo + i);
        }
      }
      if i :| 0 <= i < |queues| && Better(side, i, idx) && queues[i] != [] {
        assert OnLevel(slots, queues[i], side, lo + i) && queues[i][0] in queues[i];
        FlatHas(side, queues, i);
        var k :| 0 <= k < |f| && f[k] == queues[i][0];
        assert v[k] in v;
      }
    }

    // and how many orders it has.
    lemma LevelIs(slots: seq<Slot>, idx: nat, lv: seq<Resting>, rest: seq<Resting>)
      requires Valid(slots) && AtFront(idx) && SideView(side, slots, queues) == lv + rest
      requires forall i | 0 <= i < |lv| :: lv[i].price == lo + idx
      requires rest != [] ==> rest[0].price != lo + idx
      ensures View(slots, queues[idx]) == lv
    {
      Front(slots, idx);
      FrontLevel(slots, idx);
      hide Valid, SideView;
      var v, q := lv + rest, queues[idx];
      forall j | 0 <= j < |v|
        ensures v[j].price == lo + idx <==> j < |q|
      {
        if j < |q| {
          assert v[j] == v[..|q|][j] == Entry(slots, q[j]) && q[j] in q;
        }
      }
      assert forall j | 0 <= j < |lv| :: v[j] == lv[j];
      assert rest != [] ==> v[|lv|] == rest[0];
      assert |q| < |v| ==> v[|q|].price != lo + idx;
      assert v[..|q|] == lv;
    }

    lemma BestFront(slots: seq<Slot>)
      requires Valid(slots)
      ensures best >= 0 ==> AtFront(best) && queues[best] != []
      ensures best < 0 ==> Flat(side, queues) == [] && best == -1
    {
      if best < 0 && Flat(side, queues) != [] {
        var i := FlatMember(side, queues, Flat(side, queues)[0]);
        assert false;
      }
    }

    // Levels other than the one whose list was relinked stay as they are.
    lemma OtherLevels(slots: seq<Slot>, slots': seq<Slot>, qs: seq<seq<int>>, idx: nat, o: int)
      requires |qs| == |levels| && idx < |qs| && OnLadder(slots, qs, side, lo)
      requires IsLive(slots, o) && slots[o].order.side == side && slots[o].order.price == lo + idx
      requires Relinked(slots, slots', qs[idx], o)
      requires forall i | 0 <= i < |levels| && i != idx :: LevelOk(slots, i, qs[i])
      ensures forall i | 0 <= i < |levels| && i != idx :: LevelOk(slots', i, qs[i])
    {
      assert OnLevel(slots, qs[idx], side, lo + idx);
      forall i | 0 <= i < |levels| && i != idx
        ensures LevelOk(slots', i, qs[i])
      {
        assert OnLevel(slots, qs[i], side, lo + i);
        LevelFrame(slots, slots', i, qs[i]);
      }
    }

    // The bitmap, the count and the best index describe these queues.
    ghost predicate Indexed(qs: seq<seq<int>>)
      reads this`best, this`count, words
    {
      BitsAgree(words[..], qs) && IsBest(side, qs, best) && count == Occupied(qs)
    }

    // The first order of a level: set its bit, count it, and perhaps make it the best.
    method Occupy(idx: nat, ghost qs: seq<seq<int>>, ghost q: seq<int>)
      requires idx < |qs| <= 64 * words.Length && qs[idx] == [] && q != [] && Indexed(qs)
      modifies this`best, this`count, words
      ensures Indexed(qs[idx := q])
    {
      hide Occupied;
      SetBit(words, idx);
      OccupiedUpdate(qs, idx, q);
      count := count + 1;
      if best < 0 || (if side.Buy? then idx > best else idx < best) {
        best := idx;
      }
      BestAfterRest(side, qs, idx, q, old(best), best);
    }

    // The last order of a level gone: clear its bit, and rescan if it was the best.
    method Vacate(idx: nat, ghost qs: seq<seq<int>>)
      requires idx < |qs| <= 64 * words.Length && qs[idx] != [] && Indexed(qs)
      modifies this`best, this`count, words
      ensures Indexed(qs[idx := []])
    {
      hide Occupied;
      ClearBit(words, idx);
      OccupiedUpdate(qs, idx, []);
      OccupiedPositive(qs, idx);
      count := count - 1;
      if idx == best {
        if side.Buy? {
          best := HighestSetBit(words);
        } else {
          best := LowestSetBit(words);
        }
        BestByScan(side, words[..], qs[idx := []], best);
      } else {
        BestAfterUnrest(side, qs, idx, [], best);
      }
    }

    // A change in the orders of a level that stays occupied is not visible in the index.
    lemma StillIndexed(qs: seq<seq<int>>, idx: nat, q: seq<int>)
      requires idx < |qs| && qs[idx] != [] && q != [] && Indexed(qs)
      ensures Indexed(qs[idx := q])
    {
      hide Occupied;
      OccupiedUpdate(qs, idx, q);
      BestAfterUnrest(side, qs, idx, q, best);
    }

    // Nothing outside this side's queues and o changed, and no order changed its id or side.
    ghost predicate Touched(slots: seq<Slot>, slots': seq<Slot>, qs: seq<seq<int>>, o: int) {
      && SameOrders(slots, slots')
      && forall s | 0 <= s < |slots| && s != o && s !in Flat(side, qs) :: slots'[s] == slots[s]
    }

    lemma AfterRelink(slots: seq<Slot>, slots': seq<Slot>, qs: seq<seq<int>>, idx: nat, o: int, qs': seq<seq<int>>)
      requires idx < |qs| && OnLadder(slots, qs, side, lo) && IsLive(slots, o)
      requires Relinked(slots, slots', qs[idx], o)
      requires forall s | s in Flat(side, qs') :: s == o || s in Flat(side, qs)
      ensures Touched(slots, slots', qs, o)
      ensures SideView(side, slots', qs') == SideView(side, slots, qs')
    {
      RelinkedSame(slots, slots', qs[idx], o);
      FlatHas(side, qs, idx);
      FlatPrices(slots, qs, side, lo);
      RelinkedView(slots, slots', qs[idx], o, Flat(side, qs'));
    }

    // Put a live order of this side at the tail of its level.
    method Rest(pool: ObjectPool, o: int, idx: nat)
      requires pool.Valid() && Valid(pool.slots) && idx < |levels|
      requires IsLive(pool.slots, o) && o !in queues[idx]
      requires pool.slots[o].order.side == side && pool.slots[o].order.price == lo + idx
      modifies this, words, levels[idx], pool`slots
      ensures pool.Valid() && Valid(pool.slots)
      ensures SideView(side, pool.slots, queues) ==
              Insert(side, old(SideView(side, pool.slots, queues)), Entry(old(pool.slots), o))
      ensures Grown(Flat(side, old(queues)), Flat(side, queues), o)
      ensures Touched(old(pool.slots), pool.slots, old(queues), o)
    {
      hide Linked, FreeList, Occupied, BitsAgree, IsBest, Relinked, Flat, Insert, View, Touched;
      ghost var was, qs := pool.slots, queues;
      ghost var q := qs[idx] + [o];
      AllOnLadder(was);
      assert LevelOk(was, idx, qs[idx]) && Indexed(qs);
      var wasEmpty := levels[idx].IsEmpty();
      levels[idx].AddOrder(pool, o, qs[idx]);
      OtherLevels(was, pool.slots, qs, idx, o);
      RelinkedOn(was, pool.slots, qs[idx], o, q, side, lo + idx);
      if wasEmpty {
        Occupy(idx, qs, q);
      } else {
        StillIndexed(qs, idx, q);
      }
      queues := qs[idx := q];
      AppendMembers(side, qs, idx, o);
      AppendIsInsert(side, was, qs, lo, idx, o);
      AfterRelink(was, pool.slots, qs, idx, o, queues);
    }

    // Take the k-th order of a level out of it.
    method Unrest(pool: ObjectPool, o: int, idx: nat, ghost k: nat)
      requires pool.Valid() && Valid(pool.slots) && idx < |levels|
      requires k < |queues[idx]| && queues[idx][k] == o && OnlyHolder(pool.slots, o)
      modifies this, words, levels[idx], pool`slots
      ensures pool.Valid() && Valid(pool.slots)
      ensures queues == old(queues)[idx := Without(old(queues[idx]), k)]
      ensures SideView(side, pool.slots, queues) ==
              Remove(old(SideView(side, pool.slots, queues)), old(pool.slots[o].order.id))
      ensures Shrunk(Flat(side, old(queues)), Flat(side, queues), o)
      ensures Touched(old(pool.slots), pool.slots, old(queues), o)
    {
      hide Linked, FreeList, Occupied, BitsAgree, IsBest, Relinked, Flat, Remove, View, Touched;
      ghost var was, qs := pool.slots, queues;
      ghost var q := Without(qs[idx], k);
      AllOnLadder(was);
      assert LevelOk(was, idx, qs[idx]) && o in qs[idx] && Indexed(qs);
      levels[idx].RemoveOrder(pool, o, qs[idx], k);
      OtherLevels(was, pool.slots, qs, idx, o);
      RelinkedOn(was, pool.slots, qs[idx], o, q, side, lo + idx);
      levels[idx].EmptyIff(pool.slots, q);
      if levels[idx].IsEmpty() {
        Vacate(idx, qs);
      } else {
        StillIndexed(qs, idx, q);
      }
      queues := qs[idx := q];
      UnlinkMembers(side, was, qs, lo, idx, k);
      UnlinkIsRemove(side, was, qs, lo, idx, k);
      AfterRelink(was, pool.slots, qs, idx, o, queues);
    }

    lemma OthersAfterWrite(slots: seq<Slot>, slots': seq<Slot>, idx: nat, o: int)
      requires |queues| == |levels| && idx < |queues| && OnLadder(slots, queues, side, lo) && o in queues[idx]
      requires |slots'| == |slots| && forall s | 0 <= s < |slots| && s != o :: slots'[s] == slots[s]
      requires forall i | 0 <= i < |levels| && i != idx :: LevelOk(slots, i, queues[i])
      ensures forall i | 0 <= i < |levels| && i != idx :: LevelOk(slots', i, queues[i])
    {
      forall i | 0 <= i < |levels| && i != idx
        ensures LevelOk(slots', i, queues[i])
      {
        assert OnLevel(slots, queues[i], side, lo + i) && OnLevel(slots, queues[idx], side, lo + idx);
        LevelFrame(slots, slots', i, queues[i]);
      }
    }

    // Write one order's quantity and its level's total.
    method Amend(pool: ObjectPool, o: int, n: Quantity, idx: nat, ghost k: nat)
      requires pool.Valid() && Valid(pool.slots) && idx < |levels|
      requires k < |queues[idx]| && queues[idx][k] == o && OnlyHolder(pool.slots, o)
      modifies levels[idx], pool`slots
      ensures pool.Valid() && Valid(pool.slots)
      ensures pool.slots == SetQuantity(old(pool.slots), o, n)
      ensures SideView(side, pool.slots, queues) ==
              SetQty(old(SideView(side, pool.slots, queues)), old(pool.slots[o].order.id), n)
    {
      hide Linked, FreeList, Occupied, IsBest, BitsAgree, Flat, SetQty, View;
      ghost var was := pool.slots;
      AllOnLadder(was);
      assert LevelOk(was, idx, queues[idx]) && o in queues[idx];
      levels[idx].Amend(pool, o, n, queues[idx], k);
      OthersAfterWrite(was, pool.slots, idx, o);
      FlatPrices(was, queues, side, lo);
      WriteIsSetQty(was, Flat(side, queues), o, n);
    }

    // Take shares from the oldest order of a level, which has more than that.
    method ReduceHead(pool: ObjectPool, qty: Quantity, idx: nat)
      requires pool.Valid() && Valid(pool.slots) && idx < |levels|
      requires queues[idx] != [] && qty < Entry(pool.slots, queues[idx][0]).qty
      requires OnlyHolder(pool.slots, queues[idx][0])
      modifies levels[idx], pool`slots
      ensures pool.Valid() && Valid(pool.slots)
      ensures var h := Entry(old(pool.slots), queues[idx][0]);
              && pool.slots == SetQuantity(old(pool.slots), queues[idx][0], h.qty - qty)
              && SideView(side, pool.slots, queues) ==
                 SetQty(old(SideView(side, pool.slots, queues)), h.id, h.qty - qty)
    {
      hide Linked, FreeList, Occupied, IsBest, BitsAgree, Flat, SetQty, View;
      ghost var was := pool.slots;
      ghost var h := Entry(was, queues[idx][0]);
      AllOnLadder(was);
      assert LevelOk(was, idx, queues[idx]);
      levels[idx].ReduceHeadQuantity(pool, qty, queues[idx]);
      assert queues[idx][0] in queues[idx];
      OthersAfterWrite(was, pool.slots, idx, queues[idx][0]);
      FlatPrices(was, queues, side, lo);
      WriteIsSetQty(was, Flat(side, queues), queues[idx][0], h.qty - qty);
    }

    ghost function From(slots: seq<Slot>, i: int): seq<Resting>
      requires if side.Buy? then -1 <= i < |queues| else 0 <= i <= |queues|
      reads this`queues
    {
      SideView(side, slots, Tail(side, queues, i))
    }

    lemma FromBest(slots: seq<Slot>)
      requires Valid(slots)
      ensures best >= 0 ==> From(slots, best) == SideView(side, slots, queues)
      ensures best < 0 ==> SideView(side, slots, queues) == []
    {
      BestFront(slots);
      hide Valid, Flat;
      if best >= 0 {
        NothingAhead(best);
        TailAll(side, queues, best);
      }
    }

    // One level further: an empty one shows nothing, an occupied one is the next entry of the depth.
    lemma FromStep(slots: seq<Slot>, i: int, n: nat)
      requires Valid(slots) && 0 <= i < |levels| && n > 0
      ensures var next := if side.Buy? then i - 1 else i + 1;
              if levels[i].IsEmpty() then From(slots, i) == From(slots, next)
              else Depth(From(slots, i), n) ==
                   [DepthLevel(lo + i, levels[i].totalQuantity)] + Depth(From(slots, next), n - 1)
    {
      AllOnLadder(slots);
      LevelTotal(slots, i);
      hide Valid;
      TailDepth(side, slots, queues, lo, i, n);
    }

    lemma LevelTotal(slots: seq<Slot>, i: nat)
      requires Valid(slots) && i < |levels|
      ensures |queues| == |levels| && levels[i].totalQuantity == Sum(View(slots, queues[i]))
    {
      assert LevelOk(slots, i, queues[i]);
    }

    // Walk from the best level away from it, reporting occupied levels, at most n of them.
    method TopLevels(pool: ObjectPool, n: nat) returns (d: seq<DepthLevel>)
      requires Valid(pool.slots)
      ensures d == Depth(SideView(side, pool.slots, queues), n)
    {
      hide IsBest, BitsAgree, Depth, Flat, View, SideView;
      d := [];
      var i := best;
      FromBest(pool.slots);
      BestFront(pool.slots);
      DepthEmpty(n);
      while 0 <= i < |levels| && |d| < n
        invariant best >= 0 ==> if side.Buy? then -1 <= i < |levels| else 0 <= i <= |levels|
        invariant best < 0 ==> i == -1 && d == []
        invariant |d| <= n
        invariant best >= 0 ==>
                    Depth(SideView(side, pool.slots, queues), n) == d + Depth(From(pool.slots, i), n - |d|)
        decreases if side.Buy? then i + 1 else |levels| - i
      {
        FromStep(pool.slots, i, n - |d|);
        if !levels[i].IsEmpty() {
          d := d + [DepthLevel(lo + i, levels[i].totalQuantity)];
        }
        i := if side.Buy? then i - 1 else i + 1;
      }
      if best >= 0 { FromEnd(pool.slots, i, n - |d|); }
    }

    lemma FromEnd(slots: seq<Slot>, i: int, n: nat)
      requires if side.Buy? then -1 <= i < |queues| else 0 <= i <= |queues|
      requires n == 0 || !(0 <= i < |queues|)
      ensures Depth(From(slots, i), n) == []
    {
    }
  }

  lemma TailDepth(side: Side, slots: seq<Slot>, queues: seq<seq<int>>, lo: Price, i: nat, n: nat)
    requires OnLadder(slots, queues, side, lo) && i < |queues| && n > 0
    ensures var here := SideView(side, slots, Tail(side, queues, i));
            var next := SideView(side, slots, Tail(side, queues, if side.Buy? then i - 1 else i + 1));
            if queues[i] == [] then here == next
            else Depth(here, n) == [DepthLevel(lo + i, Sum(View(slots, queues[i])))] + Depth(next, n - 1)
  {
    hide Flat, Depth, Behind, Tail;
    TailStep(side, queues, i);
    AroundPrices(slots, queues, side, lo, i);
    assert OnLevel(slots, queues[i], side, lo + i);
    hide OnLadder;
    LevelDepth(side, slots, queues[i], Behind(side, queues, i), lo + i, n);
  }

  // One level of the depth, given what is behind it.
  lemma LevelDepth(side: Side, slots: seq<Slot>, lv: seq<int>, b: seq<int>, price: Price, n: nat)
    requires n > 0 && OnLevel(slots, lv, side, price)
    requires forall s | s in b :: IsLive(slots, s) && Better(side, price, slots[s].order.price)
    ensures if lv == [] then lv + b == b
            else Depth(View(slots, lv + b), n) ==
                 [DepthLevel(price, Sum(View(slots, lv)))] + Depth(View(slots, b), n - 1)
  {
    ViewConcat(slots, lv, b);
    if lv != [] {
      hide Depth;
      var v, w := View(slots, lv), View(slots, b);
      forall k | 0 <= k < |v|
        ensures v[k].price == price
      {
        assert lv[k] in lv;
      }
      assert w != [] ==> b[0] in b && w[0].price != price;
      DepthLevelFirst(v, w, n);
    }
  }

  lemma DepthEmpty(n: nat)
    ensures Depth([], n) == []
  {
  }
}
