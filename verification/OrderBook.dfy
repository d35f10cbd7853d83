// The order book and matching engine (src/orderbook.cpp, include/orderbook.hpp), specified by the
// simple book of BookLaws.dfy.
module OrderBooks {
  import opened Types
  import opened BookSpec
  import opened BookLaws
  import opened ObjectPools
  import opened PriceLevels
  import opened LadderViews
  import opened Bitmaps
  import opened Ladders

  // The id map holds exactly the live orders, under their ids, and each is queued on its own side.
  ghost predicate Registered(slots: seq<Slot>, orders: map<OrderId, int>, bids: seq<seq<int>>, asks: seq<seq<int>>) {
    && (forall s | IsLive(slots, s) ::
          && slots[s].order.id in orders && orders[slots[s].order.id] == s
          && s in if slots[s].order.side.Buy? then Flat(Buy, bids) else Flat(Sell, asks))
    && (forall id | id in orders :: IsLive(slots, orders[id]) && slots[orders[id]].order.id == id)
  }

  lemma Holder(slots: seq<Slot>, orders: map<OrderId, int>, bids: seq<seq<int>>, asks: seq<seq<int>>, id: OrderId)
    requires Registered(slots, orders, bids, asks) && id in orders
    ensures OnlyHolder(slots, orders[id]) && slots[orders[id]].order.id == id
  {
    forall s | IsLive(slots, s)
      ensures s == orders[id] || slots[s].order.id != id
    {
      assert orders[slots[s].order.id] == s;
    }
  }

  // An id is in the map exactly when the simple book has it.
  lemma HasIff(slots: seq<Slot>, orders: map<OrderId, int>, bids: seq<seq<int>>, asks: seq<seq<int>>, id: OrderId)
    requires Registered(slots, orders, bids, asks)
    requires forall s | s in Flat(Buy, bids) || s in Flat(Sell, asks) :: IsLive(slots, s)
    ensures id in orders <==> HasId(SideView(Buy, slots, bids), id) || HasId(SideView(Sell, slots, asks), id)
  {
    var vb, va := SideView(Buy, slots, bids), SideView(Sell, slots, asks);
    if id in orders {
      var o := orders[id];
      if slots[o].order.side.Buy? {
        var k :| 0 <= k < |Flat(Buy, bids)| && Flat(Buy, bids)[k] == o;
        assert vb[k].id == id;
      } else {
        var k :| 0 <= k < |Flat(Sell, asks)| && Flat(Sell, asks)[k] == o;
        assert va[k].id == id;
      }
    }
    if HasId(vb, id) {
      var k :| 0 <= k < |vb| && vb[k].id == id;
      assert Flat(Buy, bids)[k] in Flat(Buy, bids);
    }
    if HasId(va, id) {
      var k :| 0 <= k < |va| && va[k].id == id;
      assert Flat(Sell, asks)[k] in Flat(Sell, asks);
    }
  }

  lemma RegisteredStill(slots: seq<Slot>, slots': seq<Slot>, orders: map<OrderId, int>,
                        bids: seq<seq<int>>, asks: seq<seq<int>>)
    requires Registered(slots, orders, bids, asks) && SameOrders(slots, slots')
    ensures Registered(slots', orders, bids, asks)
  {
  }

  lemma DistinctIds(slots: seq<Slot>, orders: map<OrderId, int>, bids: seq<seq<int>>, asks: seq<seq<int>>, f: seq<int>)
    requires Registered(slots, orders, bids, asks) && NoDup(f) && forall s | s in f :: IsLive(slots, s)
    ensures UniqueIds(View(slots, f))
  {
    var v := View(slots, f);
    forall i, j | 0 <= i < j < |v|
      ensures v[i].id != v[j].id
    {
      assert f[i] in f && f[j] in f && f[i] != f[j];
      assert orders[v[i].id] == f[i] && orders[v[j].id] == f[j];
    }
  }

  // One order came: the registry with its id added describes the new state.
  lemma RegisteredWith(slots: seq<Slot>, slots': seq<Slot>, orders: map<OrderId, int>, o: int,
                       bids: seq<seq<int>>, asks: seq<seq<int>>, bids': seq<seq<int>>, asks': seq<seq<int>>)
    requires Registered(slots, orders, bids, asks) && !IsLive(slots, o) && IsLive(slots', o)
    requires forall s | IsLive(slots', s) :: s == o || IsLive(slots, s)
    requires forall s | IsLive(slots, s) :: IsLive(slots', s) &&
               slots'[s].order.id == slots[s].order.id && slots'[s].order.side == slots[s].order.side
    requires slots'[o].order.id !in orders
    requires if slots'[o].order.side.Buy? then Grown(Flat(Buy, bids), Flat(Buy, bids'), o) && asks' == asks
             else Grown(Flat(Sell, asks), Flat(Sell, asks'), o) && bids' == bids
    ensures Registered(slots', orders[slots'[o].order.id := o], bids', asks')
  {
  }

  // One order went.
  lemma RegisteredWithout(slots: seq<Slot>, slots': seq<Slot>, orders: map<OrderId, int>, o: int,
                          bids: seq<seq<int>>, asks: seq<seq<int>>, bids': seq<seq<int>>, asks': seq<seq<int>>)
    requires Registered(slots, orders, bids, asks) && OnlyHolder(slots, o)
    requires forall s :: IsLive(slots', s) <==> s != o && IsLive(slots, s)
    requires forall s | IsLive(slots', s) ::
               slots'[s].order.id == slots[s].order.id && slots'[s].order.side == slots[s].order.side
    requires if slots[o].order.side.Buy? then Shrunk(Flat(Buy, bids), Flat(Buy, bids'), o) && asks' == asks
             else Shrunk(Flat(Sell, asks), Flat(Sell, asks'), o) && bids' == bids
    ensures Registered(slots', orders - {slots[o].order.id}, bids', asks')
  {
  }

  class OrderBook {
    const minPrice: Price
    const maxPrice: Price
    const bids: Ladder
    const asks: Ladder
    const pool: ObjectPool
    var orders: map<OrderId, int>
    var nextOrderId: OrderId
    var totalOrders: nat

    // What construction fixes for good.
    ghost predicate Fixed() {
      && PRICE_MIN <= minPrice <= maxPrice <= PRICE_MAX
      && bids.side == Buy && asks.side == Sell && bids.lo == asks.lo == minPrice
      && |bids.levels| == |asks.levels| == maxPrice - minPrice + 1
      && bids != asks && bids.words != asks.words
      && forall i, j | 0 <= i < |bids.levels| && 0 <= j < |asks.levels| :: bids.levels[i] != asks.levels[j]
    }

    ghost predicate Valid()
      reads this, pool, bids, asks, bids.words, asks.words, bids.levels, asks.levels
    {
      && Fixed()
      && pool.Valid() && bids.Valid(pool.slots) && asks.Valid(pool.slots)
      && Registered(pool.slots, orders, bids.queues, asks.queues)
      && totalOrders == |orders| == pool.inUse
    }

    // The simple book this one stands for.
    ghost function View(): Book
      reads pool, bids, asks
    {
      Book(SideView(Buy, pool.slots, bids.queues), SideView(Sell, pool.slots, asks.queues))
    }

    function LadderOf(side: Side): Ladder {
      if side.Buy? then bids else asks
    }

    constructor (min: Price, max: Price, poolCap: nat)
      requires PRICE_MIN <= min <= max <= PRICE_MAX
      ensures Valid() && View() == Book([], [])
      ensures minPrice == min && maxPrice == max && nextOrderId == 1 && totalOrders == 0
      ensures fresh(pool) && fresh(bids) && fresh(asks) && fresh(bids.words) && fresh(asks.words)
      ensures forall i | 0 <= i < |bids.levels| :: fresh(bids.levels[i])
      ensures forall i | 0 <= i < |asks.levels| :: fresh(asks.levels[i])
    {
      hide Ladder.Valid, ObjectPool.Valid, Flat;
      minPrice, maxPrice := min, max;
      bids := new Ladder(Buy, min, max);
      asks := new Ladder(Sell, min, max);
      pool := new ObjectPool(poolCap, 4096);
      orders, nextOrderId, totalOrders := map[], 1, 0;
      new;
      bids.EmptyFlat();
      asks.EmptyFlat();
      bids.Frame([], pool.slots);
      asks.Frame([], pool.slots);
    }

    lemma Listed()
      requires Valid()
      ensures forall s | s in Flat(Buy, bids.queues) :: IsLive(pool.slots, s) && pool.slots[s].order.side == Buy
      ensures forall s | s in Flat(Sell, asks.queues) :: IsLive(pool.slots, s) && pool.slots[s].order.side == Sell
    {
      bids.AllOnLadder(pool.slots);
      asks.AllOnLadder(pool.slots);
      FlatPrices(pool.slots, bids.queues, Buy, minPrice);
      FlatPrices(pool.slots, asks.queues, Sell, minPrice);
    }

    lemma Has(id: OrderId)
      requires Valid()
      ensures id in orders <==> View().Has(id)
    {
      Listed();
      HasIff(pool.slots, orders, bids.queues, asks.queues, id);
    }

    // Market-data path: the caller supplies the id. Off the ladder nothing happens and 0 is returned.
    method AddOrder(side: Side, price: Price, quantity: Quantity, id: OrderId) returns (r: OrderId)
      requires Valid() && (minPrice <= price <= maxPrice ==> id !in orders)
      modifies this, pool, bids, asks, bids.words, asks.words, bids.levels, asks.levels
      ensures Valid() && nextOrderId == old(nextOrderId)
      ensures View() == Add(minPrice, maxPrice, old(View()), side, price, quantity, id)
      ensures r == if minPrice <= price <= maxPrice then id else 0
    {
      hide Ladder.Valid, ObjectPool.Valid, Flat, Insert, SideView, Grown, Registered, OnLadder;
      if !(minPrice <= price <= maxPrice) {
        return 0;
      }
      Listed();
      ghost var s0, bq, aq := pool.slots, bids.queues, asks.queues;
      var idx := price - minPrice;
      var o := pool.Allocate(id, side, price, quantity);
      bids.Frame(s0, pool.slots);
      asks.Frame(s0, pool.slots);
      ghost var s1 := pool.slots;
      FlatHas(side, LadderOf(side).queues, idx);
      LadderOf(side).Rest(pool, o, idx);
      LadderOf(Opposite(side)).Frame(s1, pool.slots);
      RegisteredWith(s0, pool.slots, orders, o, bq, aq, bids.queues, asks.queues);
      orders := orders[id := o];
      totalOrders := totalOrders + 1;
      return id;
    }

    // The first half of a cancel: unlink the order from its level, fix the bitmap and the best index.
    method Unqueue(side: Side, o: int)
      requires Valid() && OnlyHolder(pool.slots, o) && pool.slots[o].order.side == side
      modifies pool`slots, bids, asks, bids.words, asks.words, bids.levels, asks.levels
      ensures pool.Valid() && bids.Valid(pool.slots) && asks.Valid(pool.slots)
      ensures View() == Cancel(old(View()), old(pool.slots[o].order.id))
      ensures SameOrders(old(pool.slots), pool.slots)
      ensures Shrunk(old(Flat(side, LadderOf(side).queues)), Flat(side, LadderOf(side).queues), o)
      ensures LadderOf(Opposite(side)).queues == old(LadderOf(Opposite(side)).queues)
    {
      hide Ladder.Valid, ObjectPool.Valid, Flat, Remove, SideView, OnLadder, Shrunk;
      Listed();
      ghost var s0 := pool.slots;
      assert o in Flat(side, LadderOf(side).queues);
      ghost var i, k := LadderOf(side).Find(s0, o);
      hide Registered;
      var idx := pool.slots[o].order.price - minPrice;
      OtherSideLacks(side, o, pool.slots[o].order.id);
      LadderOf(side).Unrest(pool, o, idx, k);
      LadderOf(Opposite(side)).Frame(s0, pool.slots);
    }

    // The second half: give the slot of an order that is on no level back to the pool.
    method Release(o: int)
      requires pool.Valid() && bids.Valid(pool.slots) && asks.Valid(pool.slots) && IsLive(pool.slots, o)
      requires Fixed()
      requires o !in Flat(Buy, bids.queues) && o !in Flat(Sell, asks.queues)
      modifies pool
      ensures pool.Valid() && bids.Valid(pool.slots) && asks.Valid(pool.slots) && View() == old(View())
      ensures pool.inUse == old(pool.inUse) - 1
      ensures pool.slots == old(pool.slots)[o := Free(old(pool.freeHead))]
    {
      hide Ladder.Valid, ObjectPool.Valid, SideView;
      ghost var s1 := pool.slots;
      bids.AllListed(s1);
      asks.AllListed(s1);
      hide Flat;
      pool.Deallocate(o);
      bids.Frame(s1, pool.slots);
      asks.Frame(s1, pool.slots);
    }

    // Take a registered order out of every structure.
    method Discard(id: OrderId, side: Side, o: int)
      requires Valid() && id in orders && orders[id] == o && OnlyHolder(pool.slots, o)
      requires pool.slots[o].order.side == side && pool.slots[o].order.id == id
      modifies this, pool, bids, asks, bids.words, asks.words, bids.levels, asks.levels
      ensures Valid() && nextOrderId == old(nextOrderId)
      ensures View() == Cancel(old(View()), id)
      ensures totalOrders == old(totalOrders) - 1
    {
      hide Ladder.Valid, ObjectPool.Valid, Flat, Cancel, SideView, Registered, Shrunk;
      Listed();
      ghost var s0, bq, aq := pool.slots, bids.queues, asks.queues;
      Unqueue(side, o);
      NotListed(side, o, bq, aq, s0);
      orders := orders - {id};
      Release(o);
      RegisteredWithout(s0, pool.slots, old(orders), o, bq, aq, bids.queues, asks.queues);
      totalOrders := totalOrders - 1;
    }

    // An order unlinked from its own side is on neither.
    lemma NotListed(side: Side, o: int, bq: seq<seq<int>>, aq: seq<seq<int>>, slots: seq<Slot>)
      requires IsLive(slots, o) && slots[o].order.side == side
      requires forall s | s in Flat(Buy, bq) :: IsLive(slots, s) && slots[s].order.side == Buy
      requires forall s | s in Flat(Sell, aq) :: IsLive(slots, s) && slots[s].order.side == Sell
      requires if side.Buy? then Shrunk(Flat(Buy, bq), Flat(Buy, bids.queues), o) && asks.queues == aq
               else Shrunk(Flat(Sell, aq), Flat(Sell, asks.queues), o) && bids.queues == bq
      ensures o !in Flat(Buy, bids.queues) && o !in Flat(Sell, asks.queues)
    {
    }

    method CancelOrder(id: OrderId) returns (ok: bool)
      requires Valid()
      modifies this, pool, bids, asks, bids.words, asks.words, bids.levels, asks.levels
      ensures Valid() && nextOrderId == old(nextOrderId)
      ensures ok <==> old(View().Has(id))
      ensures View() == Cancel(old(View()), id)
      ensures totalOrders == old(totalOrders) - if ok then 1 else 0
    {
      Has(id);
      hide *;
      if id !in orders {
        CancelAbsent(id);
        return false;
      }
      InMap(id);
      Discard(id, pool.slots[orders[id]].order.side, orders[id]);
      return true;
    }

    lemma InMap(id: OrderId)
      requires Valid() && id in orders
      ensures var o := orders[id];
              && 0 <= o < |pool.slots| && pool.slots[o].Live?
              && OnlyHolder(pool.slots, o) && pool.slots[o].order.id == id
    {
      Holder(pool.slots, orders, bids.queues, asks.queues, id);
    }

    lemma OtherSideLacks(side: Side, o: int, id: OrderId)
      requires Valid() && OnlyHolder(pool.slots, o) && pool.slots[o].order.id == id && pool.slots[o].order.side == side
      ensures Remove(View().Queue(Opposite(side)), id) == View().Queue(Opposite(side))
    {
      Listed();
      NotHeld(pool.slots, Flat(Opposite(side), LadderOf(Opposite(side)).queues), o);
      RemoveAbsent(View().Queue(Opposite(side)), id);
    }

    lemma CancelAbsent(id: OrderId)
      requires Valid() && !View().Has(id)
      ensures Cancel(View(), id) == View()
    {
      RemoveAbsent(View().bids, id);
      RemoveAbsent(View().asks, id);
    }

    // The simple book seen is always in priority order, with every id once.
    lemma ViewWellFormed()
      requires Valid()
      ensures View().WellFormed()
    {
      Listed();
      bids.AllOnLadder(pool.slots);
      asks.AllOnLadder(pool.slots);
      FlatOrdered(Buy, pool.slots, bids.queues, minPrice);
      FlatOrdered(Sell, pool.slots, asks.queues, minPrice);
      var fb, fa := Flat(Buy, bids.queues), Flat(Sell, asks.queues);
      DistinctIds(pool.slots, orders, bids.queues, asks.queues, fb);
      DistinctIds(pool.slots, orders, bids.queues, asks.queues, fa);
      hide Ladder.Valid, Flat;
      forall i, j | 0 <= i < |fb| && 0 <= j < |fa|
        ensures View().bids[i].id != View().asks[j].id
      {
        assert fb[i] in fb && fa[j] in fa;
        assert orders[View().bids[i].id] == fb[i] && orders[View().asks[j].id] == fa[j];
      }
    }

    // The five structures agree: totals, counts and bits with the orders at the price, the best index with
    // the first order, the counter with map, pool and queues.
    lemma StructuresAgree(side: Side)
      requires Valid()
      ensures var l, q := LadderOf(side), View().Queue(side);
              && (forall i: nat | i < |l.levels| :: l.LevelAgrees(q, i))
              && (if l.best < 0 then l.best == -1 && q == [] else q != [] && q[0].price == minPrice + l.best)
      ensures totalOrders == |orders| == pool.inUse == |View().bids| + |View().asks|
      ensures pool.capacity == totalOrders + |pool.vacant|
    {
      MatchStops(side);
      LadderOf(side).BestFront(pool.slots);
      CountsAgree();
      hide Ladder.Valid, ObjectPool.Valid, Registered, SideView, Ladder.LevelAgrees;
      var l := LadderOf(side);
      forall i: nat | i < |l.levels| ensures l.LevelAgrees(View().Queue(side), i) {
        l.LevelShows(pool.slots, i);
      }
    }

    // The live slots are exactly the queued ones, each once.
    lemma CountsAgree()
      requires Valid()
      ensures pool.inUse == |View().bids| + |View().asks| && pool.capacity == pool.inUse + |pool.vacant|
    {
      Listed();
      bids.AllOnLadder(pool.slots);
      asks.AllOnLadder(pool.slots);
      FlatOrdered(Buy, pool.slots, bids.queues, minPrice);
      FlatOrdered(Sell, pool.slots, asks.queues, minPrice);
      Partition(pool.slots, pool.vacant);
      hide Ladder.Valid, Flat, OnLadder, FreeList;
      var f, g := Flat(Buy, bids.queues), Flat(Sell, asks.queues);
      Elements(f);
      Elements(g);
      var b, a := set s | s in f, set s | s in g;
      assert LiveSlots(pool.slots) == b + a;
      assert b !! a;
    }

    // Write a registered order's quantity, in the pool and in its level's total.
    method Requantify(id: OrderId, side: Side, o: int, n: Quantity)
      requires Valid() && id in orders && orders[id] == o && OnlyHolder(pool.slots, o)
      requires pool.slots[o].order.side == side && pool.slots[o].order.id == id
      modifies pool`slots, bids.levels, asks.levels
      ensures Valid() && View() == Modify(old(View()), id, n)
    {
      hide Ladder.Valid, ObjectPool.Valid, Flat, SetQty, SideView;
      Listed();
      ghost var s0 := pool.slots;
      assert o in Flat(side, LadderOf(side).queues);
      ghost var i, k := LadderOf(side).Find(s0, o);
      OtherSideSame(side, o, id, n);
      hide Registered;
      var idx := pool.slots[o].order.price - minPrice;
      LadderOf(side).Amend(pool, o, n, idx, k);
      LadderOf(Opposite(side)).Frame(s0, pool.slots);
      RegisteredStill(s0, pool.slots, orders, bids.queues, asks.queues);
    }

    lemma OtherSideSame(side: Side, o: int, id: OrderId, n: Quantity)
      requires Valid() && OnlyHolder(pool.slots, o) && pool.slots[o].order.id == id && pool.slots[o].order.side == side
      ensures SetQty(View().Queue(Opposite(side)), id, n) == View().Queue(Opposite(side))
    {
      Listed();
      NotHeld(pool.slots, Flat(Opposite(side), LadderOf(Opposite(side)).queues), o);
    }

    method ModifyOrder(id: OrderId, newQuantity: Quantity) returns (ok: bool)
      requires Valid()
      modifies pool`slots, bids.levels, asks.levels
      ensures Valid()
      ensures ok <==> old(View().Has(id))
      ensures View() == Modify(old(View()), id, newQuantity)
    {
      Has(id);
      hide *;
      if id !in orders {
        ModifyAbsent(id, newQuantity);
        return false;
      }
      InMap(id);
      Requantify(id, pool.slots[orders[id]].order.side, orders[id], newQuantity);
      return true;
    }

    lemma ModifyAbsent(id: OrderId, n: Quantity)
      requires Valid() && !View().Has(id)
      ensures Modify(View(), id, n) == View()
    {
      assert SetQty(View().bids, id, n) == View().bids;
      assert SetQty(View().asks, id, n) == View().asks;
    }

    // The ladder's front level, its head order and the first entry of the simple book are one thing.
    lemma HeadIsFirst(side: Side, idx: nat)
      requires Valid() && LadderOf(side).AtFront(idx)
      ensures var l, q := LadderOf(side), View().Queue(side);
              && idx < |l.levels|
              && (l.levels[idx].head == NULL <==> l.queues[idx] == [])
              && (l.queues[idx] != [] ==>
                    && q != [] && var o := l.levels[idx].head;
                    && o == l.queues[idx][0] && 0 <= o < |pool.slots| && pool.slots[o].Live?
                    && q[0] == Entry(pool.slots, o) && q[0].price == minPrice + idx
                    && pool.slots[o].order.side == side
                    && q[0].id in orders && orders[q[0].id] == o && OnlyHolder(pool.slots, o))
    {
      var l := LadderOf(side);
      l.Front(pool.slots, idx);
      l.FrontLevel(pool.slots, idx);
      if l.queues[idx] != [] {
        var o := l.queues[idx][0];
        assert o in l.queues[idx];
        assert View().Queue(side)[..|l.queues[idx]|][0] == Entry(pool.slots, o);
        Holder(pool.slots, orders, bids.queues, asks.queues, pool.slots[o].order.id);
      }
    }

    // A front level stays at the front while the side only loses orders and shares.
    lemma StillFront(side: Side, idx: nat, q: seq<Resting>)
      requires Valid() && idx < |LadderOf(side).levels|
      requires forall x | x in q :: !Better(side, x.price, minPrice + idx)
      requires forall x | x in View().Queue(side) :: exists y | y in q :: x.price == y.price
      ensures LadderOf(side).AtFront(idx)
    {
      LadderOf(side).AtFrontIff(pool.slots, idx);
    }

    lemma FrontBounds(side: Side, idx: nat)
      requires Valid() && LadderOf(side).AtFront(idx)
      ensures forall x | x in View().Queue(side) :: !Better(side, x.price, minPrice + idx)
    {
      LadderOf(side).AtFrontIff(pool.slots, idx);
    }

    // One maker of the front level meets the taker: it trades in full and leaves, or in part and stays.
    method FillHead(taker: Side, takerId: OrderId, idx: nat, rem: Quantity) returns (t: Trade, rem': Quantity)
      requires Valid() && LadderOf(Opposite(taker)).AtFront(idx) && LadderOf(Opposite(taker)).queues[idx] != []
      requires rem > 0
      modifies this, pool, bids, asks, bids.words, asks.words, bids.levels, asks.levels
      ensures Valid() && LadderOf(Opposite(taker)).AtFront(idx) && nextOrderId == old(nextOrderId)
      ensures totalOrders + rem' < old(totalOrders) + rem
      ensures var q := old(View().Queue(Opposite(taker)));
              && q != [] && q[0].price == minPrice + idx
              && t == Trade(q[0].price, Min(rem, q[0].qty), q[0].id, takerId, taker)
              && rem' == rem - t.quantity
              && View() == old(View()).With(Opposite(taker), AfterFill(q, rem))
    {
      hide Valid, View, Ladder.AtFront, Cancel, Modify, Book.WellFormed;
      var side := Opposite(taker);
      HeadIsFirst(side, idx);
      FrontBounds(side, idx);
      ViewWellFormed();
      ghost var b := View();
      var m := LadderOf(side).levels[idx].head;
      var fill := Min(rem, pool.slots[m].order.quantity);
      t := Trade(minPrice + idx, fill, pool.slots[m].order.id, takerId, taker);
      rem' := rem - fill;
      if fill == pool.slots[m].order.quantity {
        CancelFront(b, side);
        var ok := CancelOrder(pool.slots[m].order.id);
      } else {
        ModifyFront(b, side, pool.slots[m].order.quantity - fill);
        Requantify(pool.slots[m].order.id, side, m, pool.slots[m].order.quantity - fill);
      }
      AfterFillFront(side, idx, b.Queue(side), rem);
    }

    lemma AfterFillFront(side: Side, idx: nat, q: seq<Resting>, rem: Quantity)
      requires Valid() && idx < |LadderOf(side).levels| && q != [] && View().Queue(side) == AfterFill(q, rem)
      requires forall x | x in q :: !Better(side, x.price, minPrice + idx)
      ensures LadderOf(side).AtFront(idx)
    {
      forall x | x in AfterFill(q, rem)
        ensures exists y | y in q :: x.price == y.price
      {
        assert x in q || x.price == q[0].price;
      }
      StillFront(side, idx, q);
    }

    // The matcher: take makers from the opposite side, best level first and oldest order first, while the
    // taker wants shares and the level's price is within its limit.
    method Match(side: Side, limit: Price, quantity: Quantity, takerId: OrderId)
      returns (rem: Quantity, trades: seq<Trade>)
      requires Valid()
      modifies this, pool, bids, asks, bids.words, asks.words, bids.levels, asks.levels
      ensures Valid() && nextOrderId == old(nextOrderId)
      ensures var (b, g) := BookLaws.Match(old(View()), side, limit, quantity, takerId);
              View() == b && trades == g.trades && rem == g.rem
    {
      hide Ladder.Valid, ObjectPool.Valid, SideView, Registered, Greedy, AfterFill, Resumes;
      var opp := Opposite(side);
      var ladder := LadderOf(opp);
      ghost var b0 := View();
      ghost var q0 := b0.Queue(opp);
      rem, trades := quantity, [];
      ResumesStart(side, q0, limit, quantity, takerId);
      while rem > 0 && ladder.best >= 0
        invariant Valid() && nextOrderId == old(nextOrderId)
        invariant View() == b0.With(opp, View().Queue(opp))
        invariant Resumes(side, q0, limit, quantity, takerId, trades, View().Queue(opp), rem)
        decreases totalOrders + rem
      {
        var idx := ladder.best;
        ladder.BestFront(pool.slots);
        HeadIsFirst(opp, idx);
        var price := minPrice + idx;
        if !Crosses(side, price, limit) {
          break;
        }
        ghost var start := totalOrders + rem;
        while rem > 0
          invariant Valid() && nextOrderId == old(nextOrderId) && ladder.AtFront(idx)
          invariant View() == b0.With(opp, View().Queue(opp))
          invariant Resumes(side, q0, limit, quantity, takerId, trades, View().Queue(opp), rem)
          invariant totalOrders + rem <= start
          invariant totalOrders + rem == start ==> rem > 0 && ladder.queues[idx] != []
          decreases totalOrders + rem
        {
          HeadIsFirst(opp, idx);
          if ladder.levels[idx].head == NULL {
            break;
          }
          ResumesNext(side, q0, limit, quantity, takerId, trades, View().Queue(opp), rem);
          var t;
          t, rem := FillHead(side, takerId, idx, rem);
          trades := trades + [t];
        }
      }
      MatchStops(opp);
      ResumesDone(side, q0, limit, quantity, takerId, trades, View().Queue(opp), rem);
    }

    // An empty side has no best level; otherwise the best level's price is the first order's.
    lemma MatchStops(side: Side)
      requires Valid()
      ensures var l, q := LadderOf(side), View().Queue(side);
              if l.best < 0 then q == [] else q != [] && q[0].price == minPrice + l.best
    {
      var l := LadderOf(side);
      l.BestFront(pool.slots);
      if l.best >= 0 { HeadIsFirst(side, l.best); }
    }

    // Match, then rest what is left at the limit under the taker's id.
    method SubmitLimit(side: Side, price: Price, quantity: Quantity, takerId: OrderId) returns (trades: seq<Trade>)
      requires Valid() && RestsFresh(minPrice, maxPrice, View(), side, price, quantity, takerId)
      modifies this, pool, bids, asks, bids.words, asks.words, bids.levels, asks.levels
      ensures Valid() && nextOrderId == old(nextOrderId)
      ensures View() == BookLaws.SubmitLimit(minPrice, maxPrice, old(View()), side, price, quantity, takerId)
      ensures trades == BookLaws.Match(old(View()), side, price, quantity, takerId).1.trades
      ensures old(View()).Uncrossed() ==> View().Uncrossed()
    {
      RestsFreshIs(minPrice, maxPrice, View(), side, price, quantity, takerId);
      ViewWellFormed();
      if View().Uncrossed() { LimitKeeps(minPrice, maxPrice, View(), side, price, quantity, takerId); }
      hide *;
      var rem;
      rem, trades := Match(side, price, quantity, takerId);
      LimitIs(minPrice, maxPrice, old(View()), side, price, quantity, takerId);
      if rem > 0 {
        Has(takerId);
        var r := AddOrder(side, price, rem, takerId);
      }
    }

    // Match at any price; what is left is dropped.
    method SubmitMarket(side: Side, quantity: Quantity, takerId: OrderId) returns (trades: seq<Trade>)
      requires Valid()
      modifies this, pool, bids, asks, bids.words, asks.words, bids.levels, asks.levels
      ensures Valid() && nextOrderId == old(nextOrderId)
      ensures View() == BookLaws.SubmitMarket(old(View()), side, quantity, takerId)
      ensures trades == BookLaws.Match(old(View()), side, MarketLimit(side), quantity, takerId).1.trades
    {
      hide Valid, View, Greedy;
      var limit := if side.Buy? then PRICE_MAX else PRICE_MIN;
      var rem;
      rem, trades := Match(side, limit, quantity, takerId);
    }

    // Take up to `want` shares from the oldest order of the front level.
    method DrainHead(side: Side, idx: nat, want: Quantity) returns (tf: Quantity)
      requires Valid() && LadderOf(side).AtFront(idx) && LadderOf(side).queues[idx] != [] && want > 0
      modifies this, pool, bids, asks, bids.words, asks.words, bids.levels, asks.levels
      ensures Valid() && LadderOf(side).AtFront(idx) && nextOrderId == old(nextOrderId)
      ensures var q := old(View().Queue(side));
              q != [] && tf == Min(q[0].qty, want) && View() == old(View()).With(side, AfterFill(q, want))
    {
      hide Valid, View, Ladder.AtFront, Cancel, Modify, Book.WellFormed;
      HeadIsFirst(side, idx);
      FrontBounds(side, idx);
      ViewWellFormed();
      ghost var b := View();
      var h := LadderOf(side).levels[idx].head;
      tf := Min(pool.slots[h].order.quantity, want);
      if tf == pool.slots[h].order.quantity {
        CancelFront(b, side);
        var ok := CancelOrder(pool.slots[h].order.id);
      } else {
        ModifyFront(b, side, pool.slots[h].order.quantity - tf);
        ReduceFront(side, idx, tf);
      }
      AfterFillFront(side, idx, b.Queue(side), want);
    }

    // reduceHeadQuantity of a level that keeps its head.
    method ReduceFront(side: Side, idx: nat, tf: Quantity)
      requires Valid() && LadderOf(side).AtFront(idx) && LadderOf(side).queues[idx] != []
      requires tf < Entry(pool.slots, LadderOf(side).queues[idx][0]).qty
      modifies pool`slots, bids.levels, asks.levels
      ensures Valid()
      ensures var q := old(View().Queue(side));
              q != [] && tf < q[0].qty && View() == Modify(old(View()), q[0].id, q[0].qty - tf)
    {
      hide Ladder.Valid, ObjectPool.Valid, Flat, SetQty, SideView;
      HeadIsFirst(side, idx);
      ghost var s0, o := pool.slots, LadderOf(side).queues[idx][0];
      Listed();
      OtherSideSame(side, o, s0[o].order.id, s0[o].order.quantity - tf);
      hide Registered;
      LadderOf(side).ReduceHead(pool, tf, idx);
      LadderOf(Opposite(side)).Frame(s0, pool.slots);
      RegisteredStill(s0, pool.slots, orders, bids.queues, asks.queues);
    }

    // The front level and what is behind it, as the simple book sees them.
    lemma SplitFront(side: Side, idx: nat) returns (lv: seq<Resting>, rest: seq<Resting>)
      requires Valid() && LadderOf(side).AtFront(idx)
      ensures idx < |LadderOf(side).levels| && View().Queue(side) == lv + rest
      ensures lv == [] <==> LadderOf(side).queues[idx] == []
      ensures (forall i | 0 <= i < |lv| :: lv[i].price == minPrice + idx)
      ensures rest != [] ==> rest[0].price != minPrice + idx
      ensures LadderOf(side).levels[idx].totalQuantity == Sum(lv)
    {
      hide Ladder.Valid, ObjectPool.Valid, SideView, Registered, Flat;
      var l := LadderOf(side);
      l.Front(pool.slots, idx);
      l.FrontLevel(pool.slots, idx);
      var q := View().Queue(side);
      lv, rest := PriceLevels.View(pool.slots, l.queues[idx]), q[|l.queues[idx]|..];
      assert q == q[..|l.queues[idx]|] + rest;
      forall i | 0 <= i < |lv|
        ensures lv[i].price == minPrice + idx
      {
        assert l.queues[idx][i] in l.queues[idx];
      }
      assert rest != [] ==> rest[0] == q[|lv|];
    }

    // The split of the simple book decides whether the level is empty.
    lemma SplitIs(side: Side, idx: nat, lv: seq<Resting>, rest: seq<Resting>)
      requires Valid() && LadderOf(side).AtFront(idx) && View().Queue(side) == lv + rest
      requires forall i | 0 <= i < |lv| :: lv[i].price == minPrice + idx
      requires rest != [] ==> rest[0].price != minPrice + idx
      ensures lv == [] <==> LadderOf(side).queues[idx] == []
    {
      LadderOf(side).LevelIs(pool.slots, idx, lv, rest);
    }

    // The inner loop of executeMarketOrder: `fill` shares, at most the level's total, from its oldest orders.
    method DrainLevel(side: Side, idx: nat, fill: Quantity, ghost level: seq<Resting>, ghost rest: seq<Resting>)
      returns (filled: Quantity)
      requires Valid() && LadderOf(side).AtFront(idx) && idx < |LadderOf(side).levels|
      requires View().Queue(side) == level + rest && fill <= Sum(level)
      requires forall i | 0 <= i < |level| :: level[i].price == minPrice + idx
      requires rest != [] ==> rest[0].price != minPrice + idx
      modifies this, pool, bids, asks, bids.words, asks.words, bids.levels, asks.levels
      ensures Valid() && nextOrderId == old(nextOrderId)
      ensures filled == fill && View() == old(View()).With(side, Drain(level, fill) + rest)
    {
      hide Ladder.Valid, ObjectPool.Valid, SideView, Registered, Drain, AfterFill, Sum, Ladder.AtFront;
      var ladder := LadderOf(side);
      filled := 0;
      ghost var lv := level;
      while filled < fill
        invariant Valid() && nextOrderId == old(nextOrderId) && ladder.AtFront(idx)
        invariant View() == old(View()).With(side, lv + rest)
        invariant filled <= fill && fill - filled <= Sum(lv)
        invariant Drain(level, fill) == Drain(lv, fill - filled)
        invariant forall i | 0 <= i < |lv| :: lv[i].price == minPrice + idx
        decreases |lv| + fill - filled
      {
        SplitIs(side, idx, lv, rest);
        HeadIsFirst(side, idx);
        SumEmpty(lv);
        if ladder.levels[idx].head == NULL {
          break;
        }
        DrainNext(lv, rest, fill - filled);
        var tf := DrainHead(side, idx, fill - filled);
        lv := AfterFill(lv, fill - filled);
        filled := filled + tf;
      }
      DrainDone(lv);
    }

    // Consume the opposite side a level at a time; stop at a level without shares.
    method ExecuteMarketOrder(side: Side, quantity: Quantity) returns (executed: Quantity)
      requires Valid()
      modifies this, pool, bids, asks, bids.words, asks.words, bids.levels, asks.levels
      ensures Valid() && nextOrderId == old(nextOrderId)
      ensures View() == ExecuteMarket(old(View()), side, quantity)
      ensures executed == quantity - Execute(old(View().Queue(Opposite(side))), quantity).rem
    {
      hide Ladder.Valid, ObjectPool.Valid, SideView, Registered, Execute, Drain, Sum;
      var opp := Opposite(side);
      var ladder := LadderOf(opp);
      ghost var b0 := View();
      ghost var q0 := b0.Queue(opp);
      var remaining: Quantity := quantity;
      while remaining > 0 && ladder.best >= 0
        invariant Valid() && nextOrderId == old(nextOrderId) && remaining <= quantity
        invariant View() == b0.With(opp, View().Queue(opp))
        invariant Execute(q0, quantity) == Execute(View().Queue(opp), remaining)
        decreases remaining
      {
        var idx := ladder.best;
        ladder.BestFront(pool.slots);
        ghost var level, rest := SplitFront(opp, idx);
        var fill := Min(remaining, ladder.levels[idx].totalQuantity);
        ExecuteLevel(View().Queue(opp), level, rest, remaining);
        DrainDone(level);
        var filled := DrainLevel(opp, idx, fill, level, rest);
        remaining := remaining - filled;
        if filled == 0 {
          assert Execute(q0, quantity) == Executed(View().Queue(opp), remaining);
          break;
        }
      }
      MatchStops(opp);
      ExecuteStops(View().Queue(opp), remaining);
      executed := quantity - remaining;
    }

    // While every resting id was handed out before, the next one is free.
    lemma NextIsFree()
      requires Valid() && IdsBelow(View(), nextOrderId)
      ensures nextOrderId !in orders
    {
      Has(nextOrderId);
      hide *;
      assert View().Has(nextOrderId) ==> nextOrderId < nextOrderId;
    }

    lemma NextIds(side: Side, price: Price, quantity: Quantity)
      requires Valid()
      ensures IdsBelow(View(), nextOrderId) ==>
                IdsBelow(Add(minPrice, maxPrice, View(), side, price, quantity, nextOrderId), nextOrderId + 1)
    {
      ViewWellFormed();
      hide Valid, View, Add, IdsBelow;
      if IdsBelow(View(), nextOrderId) {
        AddNextKeeps(minPrice, maxPrice, View(), side, price, quantity, nextOrderId);
      }
    }

    // The book assigns the id.
    method AddNext(side: Side, price: Price, quantity: Quantity) returns (r: OrderId)
      requires Valid() && (minPrice <= price <= maxPrice ==> nextOrderId !in orders)
      modifies this, pool, bids, asks, bids.words, asks.words, bids.levels, asks.levels
      ensures Valid() && nextOrderId == old(nextOrderId) + 1
      ensures View() == Add(minPrice, maxPrice, old(View()), side, price, quantity, old(nextOrderId))
      ensures r == if minPrice <= price <= maxPrice then old(nextOrderId) else 0
      ensures IdsBelow(old(View()), old(nextOrderId)) ==> IdsBelow(View(), nextOrderId)
    {
      NextIds(side, price, quantity);
      hide *;
      nextOrderId := nextOrderId + 1;
      r := AddOrder(side, price, quantity, nextOrderId - 1);
    }

    method GetBest(side: Side) returns (p: Price)
      requires Valid()
      ensures p == if View().Queue(side) == [] then 0 else View().Queue(side)[0].price
    {
      MatchStops(side);
      p := if LadderOf(side).best < 0 then 0 else minPrice + LadderOf(side).best;
    }

    method GetDepth(maxLevels: nat) returns (bidDepth: seq<DepthLevel>, askDepth: seq<DepthLevel>)
      requires Valid()
      ensures bidDepth == Depth(View().bids, maxLevels) && askDepth == Depth(View().asks, maxLevels)
    {
      bidDepth := bids.TopLevels(pool, maxLevels);
      askDepth := asks.TopLevels(pool, maxLevels);
    }

    // getOrder: what the map points to is what the simple book finds.
    lemma OrderIs(id: OrderId)
      requires Valid() && id in orders
      ensures 0 <= orders[id] < |pool.slots| && pool.slots[orders[id]].Live?
      ensures var o := pool.slots[orders[id]].order;
              View().Has(id) && Find(View(), id) == (o.side, Resting(id, o.price, o.quantity))
    {
      Has(id);
      ViewWellFormed();
      var o := orders[id];
      var side := pool.slots[o].order.side;
      var f := Flat(side, LadderOf(side).queues);
      var k :| 0 <= k < |f| && f[k] == o;
      assert View().Queue(side)[k] == Entry(pool.slots, o);
      FindIs(View(), side, Entry(pool.slots, o));
    }
  }
}
