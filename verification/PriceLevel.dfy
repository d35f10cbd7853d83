// One price level: an intrusive doubly linked FIFO of pooled orders (include/price_level.hpp).
module PriceLevels {
  import opened Types
  import opened BookSpec
  import opened ObjectPools

  // What a pointer stands for in the simple book.
  function Entry(slots: seq<Slot>, s: int): Resting {
    if 0 <= s < |slots| && slots[s].Live? then
      Resting(slots[s].order.id, slots[s].order.price, slots[s].order.quantity)
    else Resting(0, 0, 0)
  }

  function View(slots: seq<Slot>, q: seq<int>): seq<Resting> {
    seq(|q|, k requires 0 <= k < |q| => Entry(slots, q[k]))
  }

  function Unlinked(o: Order): Order {
    o.(next := NULL, prev := NULL)
  }

  // ---- the list, as a value ----

  ghost predicate Link(slots: seq<Slot>, q: seq<int>, k: int) {
    && 0 <= k < |q| && IsLive(slots, q[k])
    && slots[q[k]].order.next == At(q, k + 1) && slots[q[k]].order.prev == At(q, k - 1)
  }

  // q lists live orders, each once, and both chains of links run along it.
  ghost predicate Linked(slots: seq<Slot>, q: seq<int>) {
    NoDup(q) && forall k | 0 <= k < |q| :: Link(slots, q, k)
  }

  // Nothing but next and prev changed, and those only for orders of q and for o.
  ghost predicate Relinked(slots: seq<Slot>, slots': seq<Slot>, q: seq<int>, o: int) {
    && |slots'| == |slots|
    && (forall s | 0 <= s < |slots| && s !in q && s != o :: slots'[s] == slots[s])
    && (forall s :: IsLive(slots', s) <==> IsLive(slots, s))
    && (forall s | IsLive(slots, s) :: Unlinked(slots'[s].order) == Unlinked(slots[s].order))
  }

  // Writes through a pointer; through NULL they would be undefined, here they do nothing.
  function SetNext(slots: seq<Slot>, s: int, p: int): seq<Slot> {
    if 0 <= s < |slots| && slots[s].Live? then slots[s := Live(slots[s].order.(next := p))] else slots
  }

  function SetPrev(slots: seq<Slot>, s: int, p: int): seq<Slot> {
    if 0 <= s < |slots| && slots[s].Live? then slots[s := Live(slots[s].order.(prev := p))] else slots
  }

  function SetQuantity(slots: seq<Slot>, s: int, n: Quantity): seq<Slot> {
    if 0 <= s < |slots| && slots[s].Live? then slots[s := Live(slots[s].order.(quantity := n))] else slots
  }

  lemma ListedLive(slots: seq<Slot>, q: seq<int>)
    requires Linked(slots, q)
    ensures forall s | s in q :: IsLive(slots, s)
  {
    forall s | s in q
      ensures IsLive(slots, s)
    {
      var k :| 0 <= k < |q| && q[k] == s;
      assert Link(slots, q, k);
    }
  }

  // The list does not care about slots outside it.
  lemma LinkedFrame(slots: seq<Slot>, slots': seq<Slot>, q: seq<int>)
    requires Linked(slots, q)
    requires forall s | s in q :: IsLive(slots, s) && IsLive(slots', s) && slots'[s] == slots[s]
    ensures Linked(slots', q) && View(slots', q) == View(slots, q)
  {
    ListedLive(slots, q);
    forall k | 0 <= k < |q|
      ensures Link(slots', q, k) && Entry(slots', q[k]) == Entry(slots, q[k])
    {
      assert Link(slots, q, k) && q[k] in q;
    }
  }

  lemma FreeFrame(slots: seq<Slot>, slots': seq<Slot>, q: seq<int>)
    requires FreeList(slots, q) && |slots'| == |slots|
    requires forall s | 0 <= s < |slots| :: if slots[s].Free? then slots'[s] == slots[s] else slots'[s].Live?
    ensures FreeList(slots', q)
  {
    forall k | 0 <= k < |q|
      ensures FreeLink(slots', q, k)
    {
      assert FreeLink(slots, q, k);
    }
  }

  lemma RelinkedView(slots: seq<Slot>, slots': seq<Slot>, q: seq<int>, o: int, r: seq<int>)
    requires Relinked(slots, slots', q, o) && forall s | s in r :: IsLive(slots, s)
    ensures View(slots', r) == View(slots, r)
  {
    forall k | 0 <= k < |r|
      ensures Entry(slots', r[k]) == Entry(slots, r[k])
    {
      assert r[k] in r && IsLive(slots', r[k]);
      assert Unlinked(slots'[r[k]].order) == Unlinked(slots[r[k]].order);
    }
  }

  // ---- appending ----

  function Appended(slots: seq<Slot>, tail: int, o: int): seq<Slot> {
    SetNext(SetPrev(SetNext(slots, o, NULL), o, tail), tail, o)
  }

  lemma AppendLinks(slots: seq<Slot>, q: seq<int>, o: int)
    requires Linked(slots, q) && IsLive(slots, o) && o !in q
    ensures At(q, |q| - 1) == NULL <==> q == []
    ensures var slots' := Appended(slots, At(q, |q| - 1), o);
            Linked(slots', q + [o]) && Relinked(slots, slots', q, o)
  {
    ListedLive(slots, q);
    assert q != [] ==> Link(slots, q, |q| - 1);
    var slots', r := Appended(slots, At(q, |q| - 1), o), q + [o];
    forall k | 0 <= k < |r|
      ensures Link(slots', r, k)
    {
      if k < |q| {
        assert Link(slots, q, k);
        assert k != |q| - 1 ==> q[k] != q[|q| - 1];
      }
    }
  }

  // ---- removing ----

  function Bypassed(slots: seq<Slot>, o: int, p: int, n: int): seq<Slot> {
    SetPrev(SetNext(SetPrev(SetNext(slots, p, n), n, p), o, NULL), o, NULL)
  }

  function Without<T>(q: seq<T>, k: nat): seq<T>
    requires k < |q|
  {
    q[..k] + q[k + 1..]
  }

  // What unlinking the k-th order does to the j-th.
  lemma BypassedAt(slots: seq<Slot>, q: seq<int>, k: nat, j: nat)
    requires Linked(slots, q) && k < |q| && j < |q| && j != k
    ensures var slots' := Bypassed(slots, q[k], At(q, k - 1), At(q, k + 1));
            && IsLive(slots, q[j]) && IsLive(slots', q[j])
            && slots'[q[j]].order.next == (if j == k - 1 then At(q, k + 1) else At(q, j + 1))
            && slots'[q[j]].order.prev == (if j == k + 1 then At(q, k - 1) else At(q, j - 1))
  {
    assert Link(slots, q, j) && q[j] != q[k];
    assert j != k - 1 && k > 0 ==> q[j] != q[k - 1];
    assert j != k + 1 && k + 1 < |q| ==> q[j] != q[k + 1];
  }

  lemma AtWithout(q: seq<int>, k: nat, i: nat)
    requires k < |q| && i < |q| - 1
    ensures var r, j := Without(q, k), if i < k then i else i + 1;
            && r[i] == q[j]
            && At(r, i + 1) == (if j == k - 1 then At(q, k + 1) else At(q, j + 1))
            && At(r, i - 1) == (if j == k + 1 then At(q, k - 1) else At(q, j - 1))
  {
  }

  lemma EndsWithout(q: seq<int>, k: nat)
    requires k < |q|
    ensures var r := Without(q, k);
            && |r| == |q| - 1
            && At(r, 0) == (if k == 0 then At(q, k + 1) else At(q, 0))
            && At(r, |q| - 2) == (if k + 1 == |q| then At(q, k - 1) else At(q, |q| - 1))
  {
  }

  lemma NoDupWithout(q: seq<int>, k: nat)
    requires NoDup(q) && k < |q|
    ensures NoDup(Without(q, k)) && q[k] !in Without(q, k)
  {
    var r := Without(q, k);
    forall i | 0 <= i < |r|
      ensures r[i] == q[if i < k then i else i + 1]
    {
    }
  }

  lemma SetRelinks(slots: seq<Slot>, now: seq<Slot>, q: seq<int>, o: int, s: int, x: int)
    requires Relinked(slots, now, q, o) && (s in q || s == o || s == NULL)
    ensures Relinked(slots, SetNext(now, s, x), q, o) && Relinked(slots, SetPrev(now, s, x), q, o)
  {
  }

  lemma BypassRelinks(slots: seq<Slot>, q: seq<int>, k: nat)
    requires k < |q|
    ensures Relinked(slots, Bypassed(slots, q[k], At(q, k - 1), At(q, k + 1)), q, q[k])
  {
    var o, p, n := q[k], At(q, k - 1), At(q, k + 1);
    assert Relinked(slots, slots, q, o);
    hide Relinked, SetNext, SetPrev;
    var s1 := SetNext(slots, p, n);
    SetRelinks(slots, slots, q, o, p, n);
    var s2 := SetPrev(s1, n, p);
    SetRelinks(slots, s1, q, o, n, p);
    var s3 := SetNext(s2, o, NULL);
    SetRelinks(slots, s2, q, o, o, NULL);
    SetRelinks(slots, s3, q, o, o, NULL);
  }

  lemma Ends(slots: seq<Slot>, q: seq<int>, k: nat)
    requires Linked(slots, q) && k < |q|
    ensures Link(slots, q, k)
    ensures (At(q, k - 1) == NULL <==> k == 0) && (At(q, k + 1) == NULL <==> k + 1 == |q|)
  {
    assert Link(slots, q, k);
    assert k > 0 ==> Link(slots, q, k - 1);
    assert k + 1 < |q| ==> Link(slots, q, k + 1);
  }

  lemma BypassLinks(slots: seq<Slot>, q: seq<int>, k: nat)
    requires Linked(slots, q) && k < |q|
    ensures var slots' := Bypassed(slots, q[k], At(q, k - 1), At(q, k + 1));
            Linked(slots', Without(q, k)) && Relinked(slots, slots', q, q[k])
  {
    hide Bypassed, At, Without, Relinked;
    BypassRelinks(slots, q, k);
    var slots', r := Bypassed(slots, q[k], At(q, k - 1), At(q, k + 1)), Without(q, k);
    NoDupWithout(q, k);
    WithoutSize(q, k);
    forall i | 0 <= i < |r|
      ensures Link(slots', r, i)
    {
      AtWithout(q, k, i);
      BypassedAt(slots, q, k, if i < k then i else i + 1);
    }
  }

  lemma WithoutSize<T>(q: seq<T>, k: nat)
    requires k < |q|
    ensures |Without(q, k)| == |q| - 1
  {
  }

  lemma WithoutView(slots: seq<Slot>, q: seq<int>, k: nat)
    requires k < |q|
    ensures View(slots, Without(q, k)) == Without(View(slots, q), k)
  {
  }

  lemma SumWithout(q: seq<Resting>, k: nat)
    requires k < |q|
    ensures Sum(Without(q, k)) == Sum(q) - q[k].qty
  {
    hide Sum;
    assert q == q[..k] + q[k..];
    SumAppend(q[..k], q[k..]);
    SumAppend(q[..k], q[k + 1..]);
    SumFirst(q[k..]);
    assert q[k..][1..] == q[k + 1..];
  }

  lemma SumFirst(q: seq<Resting>)
    requires q != []
    ensures Sum(q) == q[0].qty + Sum(q[1..])
  {
  }

  lemma SumUpdate(q: seq<Resting>, k: nat, n: Quantity)
    requires k < |q|
    ensures Sum(q[k := q[k].(qty := n)]) == Sum(q) - q[k].qty + n
  {
    var r := q[k := q[k].(qty := n)];
    SumWithout(q, k);
    SumWithout(r, k);
    assert Without(q, k) == Without(r, k);
  }

  lemma RequantifiedList(slots: seq<Slot>, q: seq<int>, k: nat, n: Quantity)
    requires Linked(slots, q) && k < |q|
    ensures IsLive(slots, q[k])
    ensures var slots' := SetQuantity(slots, q[k], n);
            && Linked(slots', q)
            && View(slots', q) == View(slots, q)[k := View(slots, q)[k].(qty := n)]
  {
    assert Link(slots, q, k);
    var slots' := SetQuantity(slots, q[k], n);
    forall i | 0 <= i < |q|
      ensures Link(slots', q, i)
    {
      assert Link(slots, q, i);
    }
    forall i | 0 <= i < |q|
      ensures Entry(slots', q[i]) == if i == k then Entry(slots, q[k]).(qty := n) else Entry(slots, q[i])
    {
      assert Link(slots, q, i);
      assert i != k ==> q[i] != q[k];
    }
  }

  // Relinking keeps the free list and what every listed order stands for.
  lemma KeepsFreeList(slots: seq<Slot>, slots': seq<Slot>, q: seq<int>, o: int, vacant: seq<int>)
    requires Relinked(slots, slots', q, o) && FreeList(slots, vacant)
    requires IsLive(slots, o) && forall s | s in q :: IsLive(slots, s)
    ensures FreeList(slots', vacant)
  {
    forall s | 0 <= s < |slots|
      ensures if slots[s].Free? then slots'[s] == slots[s] else slots'[s].Live?
    {
      assert IsLive(slots', s) <==> IsLive(slots, s);
    }
    FreeFrame(slots, slots', vacant);
  }

  lemma AppendView(slots: seq<Slot>, slots': seq<Slot>, q: seq<int>, o: int)
    requires Linked(slots, q) && Relinked(slots, slots', q, o) && IsLive(slots, o)
    ensures View(slots', q + [o]) == View(slots, q) + [Entry(slots, o)]
    ensures Sum(View(slots', q + [o])) == Sum(View(slots, q)) + slots[o].order.quantity
  {
    ListedLive(slots, q);
    RelinkedView(slots, slots', q, o, q + [o]);
    assert View(slots, q + [o]) == View(slots, q) + [Entry(slots, o)];
    SumAppend(View(slots, q), [Entry(slots, o)]);
    assert Sum([Entry(slots, o)]) == slots[o].order.quantity + Sum([]);
  }

  lemma RemoveView(slots: seq<Slot>, slots': seq<Slot>, q: seq<int>, k: nat)
    requires Linked(slots, q) && k < |q| && Relinked(slots, slots', q, q[k])
    ensures View(slots', Without(q, k)) == Without(View(slots, q), k)
    ensures IsLive(slots, q[k])
    ensures Sum(View(slots', Without(q, k))) == Sum(View(slots, q)) - slots[q[k]].order.quantity
  {
    ListedLive(slots, q);
    RelinkedView(slots, slots', q, q[k], Without(q, k));
    WithoutView(slots, q, k);
    SumWithout(View(slots, q), k);
  }

  lemma HoldsTotal(slots: seq<Slot>, q: seq<int>, k: nat)
    requires Linked(slots, q) && k < |q|
    ensures IsLive(slots, q[k]) && slots[q[k]].order.quantity <= Sum(View(slots, q))
  {
    assert Link(slots, q, k);
    SumWithout(View(slots, q), k);
  }

  class PriceLevel {
    var price: Price
    var totalQuantity: Quantity
    var head: int
    var tail: int
    var orderCount: nat

    constructor (p: Price)
      ensures price == p && head == tail == NULL && totalQuantity == 0 && orderCount == 0
    {
      price, totalQuantity, head, tail, orderCount := p, 0, NULL, NULL, 0;
    }

    // The level is the FIFO q of the pool.
    ghost predicate Holds(slots: seq<Slot>, q: seq<int>)
      reads this
    {
      && Linked(slots, q)
      && head == At(q, 0) && tail == At(q, |q| - 1)
      && orderCount == |q| && totalQuantity == Sum(View(slots, q))
    }

    predicate IsEmpty()
      reads this
    {
      head == NULL
    }

    lemma EmptyIff(slots: seq<Slot>, q: seq<int>)
      requires Holds(slots, q)
      ensures IsEmpty() <==> q == []
    {
      if q != [] { assert Link(slots, q, 0); }
    }

    // Append at the tail: the newest order is last.
    method AddOrder(pool: ObjectPool, o: int, ghost q: seq<int>)
      requires pool.Valid() && Holds(pool.slots, q) && IsLive(pool.slots, o) && o !in q
      modifies this, pool`slots
      ensures pool.Valid() && Holds(pool.slots, q + [o]) && price == old(price)
      ensures Relinked(old(pool.slots), pool.slots, q, o)
    {
      hide FreeList, Linked, Relinked;
      ghost var was := pool.slots;
      AppendLinks(was, q, o);
      pool.slots := SetPrev(SetNext(pool.slots, o, NULL), o, tail);
      if tail != NULL {
        pool.slots := SetNext(pool.slots, tail, o);
      } else {
        head := o;
      }
      tail := o;
      totalQuantity := totalQuantity + pool.slots[o].order.quantity;
      orderCount := orderCount + 1;
      ListedLive(was, q);
      KeepsFreeList(was, pool.slots, q, o, pool.vacant);
      AppendView(was, pool.slots, q, o);
    }

    method RemoveOrder(pool: ObjectPool, o: int, ghost q: seq<int>, ghost k: nat)
      requires pool.Valid() && Holds(pool.slots, q) && k < |q| && q[k] == o
      modifies this, pool`slots
      ensures pool.Valid() && Holds(pool.slots, Without(q, k)) && price == old(price)
      ensures Relinked(old(pool.slots), pool.slots, q, o)
    {
      hide FreeList, Linked, Relinked, Sum, View, At, Without, Entry;
      ghost var was := pool.slots;
      ListedLive(was, q);
      BypassLinks(was, q, k);
      Ends(was, q, k);
      EndsWithout(q, k);
      HoldsTotal(was, q, k);
      var p, n := pool.slots[o].order.prev, pool.slots[o].order.next;
      if p != NULL {
        pool.slots := SetNext(pool.slots, p, n);
      } else {
        head := n;
      }
      if n != NULL {
        pool.slots := SetPrev(pool.slots, n, p);
      } else {
        tail := p;
      }
      totalQuantity := totalQuantity - pool.slots[o].order.quantity;
      orderCount := orderCount - 1;
      pool.slots := SetPrev(SetNext(pool.slots, o, NULL), o, NULL);
      assert pool.slots == Bypassed(was, o, p, n);
      KeepsFreeList(was, pool.slots, q, o, pool.vacant);
      RemoveView(was, pool.slots, q, k);
    }

    // Write one order's quantity and adjust the total by the difference.
    method Amend(pool: ObjectPool, o: int, n: Quantity, ghost q: seq<int>, ghost k: nat)
      requires pool.Valid() && Holds(pool.slots, q) && k < |q| && q[k] == o
      modifies this, pool`slots
      ensures pool.Valid() && Holds(pool.slots, q) && price == old(price)
      ensures IsLive(old(pool.slots), o) && pool.slots == SetQuantity(old(pool.slots), o, n)
    {
      hide FreeList, Linked;
      ghost var was := pool.slots;
      RequantifiedList(was, q, k, n);
      SumUpdate(View(was, q), k, n);
      var delta := n - pool.slots[o].order.quantity;
      pool.slots := SetQuantity(pool.slots, o, n);
      AdjustTotalQuantity(delta);
      FreeFrame(was, pool.slots, pool.vacant);
    }

    method AdjustTotalQuantity(delta: int)
      requires totalQuantity + delta >= 0
      modifies this`totalQuantity
      ensures totalQuantity == old(totalQuantity) + delta
    {
      totalQuantity := totalQuantity + delta;
    }

    // Take shares from the oldest order; a request it cannot meet changes nothing.
    method ReduceHeadQuantity(pool: ObjectPool, qty: Quantity, ghost q: seq<int>)
      requires pool.Valid() && Holds(pool.slots, q)
      modifies this, pool`slots
      ensures pool.Valid() && price == old(price)
      ensures q == [] || qty > Entry(old(pool.slots), q[0]).qty ==>
                pool.slots == old(pool.slots) && Holds(pool.slots, q)
      ensures q != [] && qty < Entry(old(pool.slots), q[0]).qty ==>
                && IsLive(old(pool.slots), q[0])
                && pool.slots == SetQuantity(old(pool.slots), q[0], Entry(old(pool.slots), q[0]).qty - qty)
                && Holds(pool.slots, q)
      ensures q != [] && qty == Entry(old(pool.slots), q[0]).qty ==>
                && IsLive(old(pool.slots), q[0])
                && Relinked(SetQuantity(old(pool.slots), q[0], 0), pool.slots, q, q[0])
                && Holds(pool.slots, q[1..])
    {
      EmptyIff(pool.slots, q);
      assert q != [] ==> Link(pool.slots, q, 0);
      if head == NULL || qty > pool.slots[head].order.quantity {
        return;
      }
      Amend(pool, head, pool.slots[head].order.quantity - qty, q, 0);
      if pool.slots[head].order.quantity == 0 {
        assert Without(q, 0) == q[1..];
        RemoveOrder(pool, head, q, 0);
      }
    }
  }
}
