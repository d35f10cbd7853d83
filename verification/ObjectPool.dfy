// The growing object pool (include/object_pool.hpp). A pointer is a slot number; NULL is -1.
// A slot holds either a live order or the next free slot, never both.
module ObjectPools {
  import opened Types

  const NULL: int := -1

  datatype Order = Order(id: OrderId, side: Side, price: Price, quantity: Quantity, next: int, prev: int)

  datatype Slot = Free(nextFree: int) | Live(order: Order)

  // The k-th pointer of a list, NULL off either end.
  function At(q: seq<int>, k: int): int {
    if 0 <= k < |q| then q[k] else NULL
  }

  ghost predicate NoDup(q: seq<int>) {
    forall i, j | 0 <= i < j < |q| :: q[i] != q[j]
  }

  ghost predicate IsLive(slots: seq<Slot>, s: int) {
    0 <= s < |slots| && slots[s].Live?
  }

  // ---- the free list, as a value ----

  ghost predicate FreeLink(slots: seq<Slot>, q: seq<int>, k: int) {
    0 <= k < |q| && 0 <= q[k] < |slots| && slots[q[k]] == Free(At(q, k + 1))
  }

  // q lists the slots without an order, each exactly once, along the links.
  ghost predicate FreeList(slots: seq<Slot>, q: seq<int>) {
    && NoDup(q)
    && (forall k | 0 <= k < |q| :: FreeLink(slots, q, k))
    && (forall s | 0 <= s < |slots| :: slots[s].Free? ==> s in q)
  }

  lemma FreePush(slots: seq<Slot>, q: seq<int>, s: int)
    requires FreeList(slots, q) && IsLive(slots, s)
    ensures FreeList(slots[s := Free(At(q, 0))], [s] + q)
  {
    Partition(slots, q);
    FreeKeep(slots, q, s, slots[s := Free(At(q, 0))]);
  }

  lemma FreeExtend(slots: seq<Slot>, q: seq<int>)
    requires FreeList(slots, q)
    ensures FreeList(slots + [Free(At(q, 0))], [|slots|] + q)
  {
    Partition(slots, q);
    FreeKeep(slots, q, |slots|, slots + [Free(At(q, 0))]);
  }

  lemma FreeKeep(slots: seq<Slot>, q: seq<int>, s: int, slots': seq<Slot>)
    requires FreeList(slots, q) && s !in q && 0 <= s < |slots'| && |slots| <= |slots'| <= |slots| + 1
    requires forall t | 0 <= t < |slots| && t != s :: slots'[t] == slots[t]
    requires slots'[s] == Free(At(q, 0)) && (|slots'| > |slots| ==> s == |slots|)
    ensures FreeList(slots', [s] + q)
  {
    var r := [s] + q;
    forall k | 0 <= k < |r|
      ensures FreeLink(slots', r, k)
    {
      if k > 0 { assert FreeLink(slots, q, k - 1); }
    }
    forall i, j | 0 <= i < j < |r|
      ensures r[i] != r[j]
    {
      if i == 0 { assert r[j] == q[j - 1]; }
    }
  }

  lemma FreePop(slots: seq<Slot>, q: seq<int>, o: Order)
    requires FreeList(slots, q) && q != []
    ensures 0 <= q[0] < |slots| && slots[q[0]] == Free(At(q[1..], 0))
    ensures FreeList(slots[q[0] := Live(o)], q[1..])
  {
    assert FreeLink(slots, q, 0);
    var r, slots' := q[1..], slots[q[0] := Live(o)];
    forall k | 0 <= k < |r|
      ensures FreeLink(slots', r, k)
    {
      assert FreeLink(slots, q, k + 1);
      assert q[0] != q[k + 1];
    }
    forall s | 0 <= s < |slots'| && slots'[s].Free?
      ensures s in r
    {
      assert s in q;
    }
  }

  ghost function LiveSlots(slots: seq<Slot>): set<int> {
    set s | 0 <= s < |slots| && IsLive(slots, s)
  }

  lemma {:induction false} Elements(q: seq<int>)
    requires NoDup(q)
    ensures |set k | k in q| == |q|
  {
    if q == [] {
      assert (set k | k in q) == {};
    } else {
      Elements(q[1..]);
      assert (set k | k in q) == {q[0]} + set k | k in q[1..];
    }
  }

  function Range(n: nat): (r: set<int>)
    ensures |r| == n && forall s :: s in r <==> 0 <= s < n
  {
    if n == 0 then {} else Range(n - 1) + {n - 1}
  }

  // Free and live slots partition the capacity.
  lemma Partition(slots: seq<Slot>, q: seq<int>)
    requires FreeList(slots, q)
    ensures |q| + |LiveSlots(slots)| == |slots|
    ensures forall s | 0 <= s < |slots| :: s in q <==> !IsLive(slots, s)
    ensures forall s | s in q :: 0 <= s < |slots|
  {
    forall s | s in q
      ensures 0 <= s < |slots| && !IsLive(slots, s)
    {
      var k :| 0 <= k < |q| && q[k] == s;
      assert FreeLink(slots, q, k);
    }
    Elements(q);
    var all, idle := Range(|slots|), set k | k in q;
    assert LiveSlots(slots) == all - idle;
    assert idle <= all;
  }

  class ObjectPool {
    var slots: seq<Slot>
    var freeHead: int
    var inUse: nat
    var capacity: nat
    const chunkSize: nat

    ghost var vacant: seq<int>   // the free list, head first

    ghost predicate Valid()
      reads this
    {
      && chunkSize > 0
      && FreeList(slots, vacant) && freeHead == At(vacant, 0)
      && capacity == |slots| == inUse + |vacant|
    }

    constructor (initialCapacity: nat, chunk: nat)
      ensures Valid() && inUse == 0 && capacity == if initialCapacity > 0 then initialCapacity else chunkSize
      ensures forall s :: !IsLive(slots, s)
    {
      slots, freeHead, inUse, capacity, vacant := [], NULL, 0, 0, [];
      chunkSize := if chunk > 0 then chunk else 1;
      new;
      AddChunk(if initialCapacity > 0 then initialCapacity else chunkSize);
    }

    // Thread n new slots, one by one, onto the front of the free list.
    method AddChunk(n: nat)
      requires Valid()
      modifies this
      ensures Valid() && inUse == old(inUse) && capacity == old(capacity) + n
      ensures old(slots) <= slots
      ensures forall s :: IsLive(slots, s) <==> IsLive(old(slots), s)
      ensures n > 0 ==> freeHead != NULL
    {
      hide FreeList;
      var base := |slots|;
      var i := 0;
      while i < n
        invariant i <= n && Valid() && |slots| == base + i
        invariant inUse == old(inUse)
        invariant old(slots) <= slots
        invariant forall s :: IsLive(slots, s) <==> IsLive(old(slots), s)
        invariant i > 0 ==> freeHead != NULL
      {
        FreeExtend(slots, vacant);
        vacant := [|slots|] + vacant;
        slots, freeHead := slots + [Free(freeHead)], |slots|;
        capacity := capacity + 1;
        i := i + 1;
      }
    }

    // Hand out the slot freed last, growing by a chunk when there is none.
    method Allocate(id: OrderId, side: Side, price: Price, quantity: Quantity) returns (s: int)
      requires Valid()
      modifies this
      ensures Valid() && inUse == old(inUse) + 1
      ensures !IsLive(old(slots), s) && IsLive(slots, s)
      ensures slots[s] == Live(Order(id, side, price, quantity, NULL, NULL))
      ensures |old(slots)| <= |slots|
      ensures forall t | IsLive(old(slots), t) :: IsLive(slots, t) && slots[t] == old(slots)[t]
      ensures forall t | IsLive(slots, t) :: t == s || IsLive(old(slots), t)
      ensures old(freeHead) != NULL ==> s == old(freeHead) && |slots| == |old(slots)|
    {
      hide FreeList;
      if freeHead == NULL {
        AddChunk(chunkSize);
      }
      s := freeHead;
      FreePop(slots, vacant, Order(id, side, price, quantity, NULL, NULL));
      freeHead := slots[s].nextFree;
      inUse := inUse + 1;
      slots := slots[s := Live(Order(id, side, price, quantity, NULL, NULL))];
      vacant := vacant[1..];
    }

    method Deallocate(s: int)
      requires Valid() && IsLive(slots, s)
      modifies this
      ensures Valid() && inUse == old(inUse) - 1 && freeHead == s
      ensures slots == old(slots)[s := Free(old(freeHead))]
    {
      hide FreeList;
      Partition(slots, vacant);
      assert s in LiveSlots(slots);
      FreePush(slots, vacant, s);
      slots := slots[s := Free(freeHead)];
      freeHead := s;
      inUse := inUse - 1;
      vacant := [s] + vacant;
    }
  }
}
