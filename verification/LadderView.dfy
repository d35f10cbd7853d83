// How the levels of a price ladder, best first, make up one side of the simple book.
module LadderViews {
  import opened Types
  import opened BookSpec
  import opened ObjectPools
  import opened PriceLevels

  // All levels in one queue: from the lowest index up for asks, from the highest down for bids.
  function Flat<T>(side: Side, lv: seq<seq<T>>): seq<T> {
    if lv == [] then []
    else
      var n := |lv| - 1;
      if side.Sell? then Flat(side, lv[..n]) + lv[n] else lv[n] + Flat(side, lv[..n])
  }

  function Ahead<T>(side: Side, lv: seq<seq<T>>, i: nat): seq<T>
    requires i < |lv|
  {
    if side.Sell? then Flat(side, lv[..i]) else Flat(side, lv[i + 1..])
  }

  function Behind<T>(side: Side, lv: seq<seq<T>>, i: nat): seq<T>
    requires i < |lv|
  {
    if side.Sell? then Flat(side, lv[i + 1..]) else Flat(side, lv[..i])
  }

  lemma FlatSnoc<T>(side: Side, lv: seq<seq<T>>, q: seq<T>)
    ensures Flat(side, lv + [q]) == if side.Sell? then Flat(side, lv) + q else q + Flat(side, lv)
  {
    assert (lv + [q])[..|lv|] == lv;
  }

  lemma {:induction false} FlatConcat<T>(side: Side, a: seq<seq<T>>, b: seq<seq<T>>)
    ensures Flat(side, a + b) == if side.Sell? then Flat(side, a) + Flat(side, b) else Flat(side, b) + Flat(side, a)
  {
    hide Flat;
    FlatNone<T>(side);
    if b == [] {
      assert a + b == a;
      assert Flat(side, a) + [] == Flat(side, a) == [] + Flat(side, a);
    } else {
      var init, q := b[..|b| - 1], b[|b| - 1];
      assert b == init + [q] && a + b == (a + init) + [q];
      FlatConcat(side, a, init);
      FlatSnoc(side, init, q);
      FlatSnoc(side, a + init, q);
      if side.Sell? {
        assert (Flat(side, a) + Flat(side, init)) + q == Flat(side, a) + (Flat(side, init) + q);
      } else {
        assert q + (Flat(side, init) + Flat(side, a)) == (q + Flat(side, init)) + Flat(side, a);
      }
    }
  }

  lemma FlatNone<T>(side: Side)
    ensures Flat<T>(side, []) == []
  {
  }

  // Replacing one level replaces its stretch of the queue.
  lemma FlatAt<T>(side: Side, lv: seq<seq<T>>, i: nat, q: seq<T>)
    requires i < |lv|
    ensures Flat(side, lv[i := q]) == Ahead(side, lv, i) + q + Behind(side, lv, i)
  {
    hide Flat;
    var a, b := lv[..i], lv[i + 1..];
    assert lv[i := q] == (a + [q]) + b;
    FlatConcat(side, a + [q], b);
    FlatSnoc(side, a, q);
  }

  lemma FlatSplit<T>(side: Side, lv: seq<seq<T>>, i: nat)
    requires i < |lv|
    ensures Flat(side, lv) == Ahead(side, lv, i) + lv[i] + Behind(side, lv, i)
  {
    hide Flat, Ahead, Behind;
    SameUpdate(lv, i);
    FlatAt(side, lv, i, lv[i]);
  }

  lemma SameUpdate<T>(lv: seq<T>, i: nat)
    requires i < |lv|
    ensures lv[i := lv[i]] == lv
  {
  }

  lemma FlatOne<T>(side: Side, q: seq<T>)
    ensures Flat(side, [q]) == q
  {
    assert Flat(side, [q][..0]) == [];
  }

  lemma {:induction false} FlatMember<T>(side: Side, lv: seq<seq<T>>, x: T) returns (i: nat)
    requires x in Flat(side, lv)
    ensures i < |lv| && x in lv[i]
  {
    var n := |lv| - 1;
    if x in lv[n] {
      i := n;
    } else {
      i := FlatMember(side, lv[..n], x);
    }
  }

  lemma {:induction false} FlatHas<T>(side: Side, lv: seq<seq<T>>, i: nat)
    requires i < |lv|
    ensures forall x | x in lv[i] :: x in Flat(side, lv)
  {
    FlatSplit(side, lv, i);
  }

  lemma AheadMember<T>(side: Side, lv: seq<seq<T>>, k: nat, x: T) returns (i: nat)
    requires k < |lv| && x in Ahead(side, lv, k)
    ensures i < |lv| && x in lv[i] && Better(side, i, k)
  {
    if side.Sell? {
      i := FlatMember(side, lv[..k], x);
    } else {
      i := FlatMember(side, lv[k + 1..], x);
      i := k + 1 + i;
    }
  }

  // Every pointer of a level stands for a live order of that side and price.
  ghost predicate OnLevel(slots: seq<Slot>, q: seq<int>, side: Side, price: Price) {
    forall s | s in q :: IsLive(slots, s) && slots[s].order.side == side && slots[s].order.price == price
  }

  ghost predicate OnLadder(slots: seq<Slot>, queues: seq<seq<int>>, side: Side, lo: Price) {
    forall i | 0 <= i < |queues| :: OnLevel(slots, queues[i], side, lo + i)
  }

  lemma FlatPrices(slots: seq<Slot>, queues: seq<seq<int>>, side: Side, lo: Price)
    requires OnLadder(slots, queues, side, lo)
    ensures forall s | s in Flat(side, queues) ::
              IsLive(slots, s) && slots[s].order.side == side && lo <= slots[s].order.price < lo + |queues|
  {
    forall s | s in Flat(side, queues)
      ensures IsLive(slots, s) && slots[s].order.side == side && lo <= slots[s].order.price < lo + |queues|
    {
      var i := FlatMember(side, queues, s);
      assert OnLevel(slots, queues[i], side, lo + i);
    }
  }

  lemma AroundPrices(slots: seq<Slot>, queues: seq<seq<int>>, side: Side, lo: Price, i: nat)
    requires OnLadder(slots, queues, side, lo) && i < |queues|
    ensures forall s | s in Ahead(side, queues, i) ::
              IsLive(slots, s) && slots[s].order.side == side && Better(side, slots[s].order.price, lo + i)
    ensures forall s | s in Behind(side, queues, i) ::
              IsLive(slots, s) && slots[s].order.side == side && Better(side, lo + i, slots[s].order.price)
  {
    var above := queues[i + 1..];
    forall j | 0 <= j < |above|
      ensures OnLevel(slots, above[j], side, lo + i + 1 + j)
    {
      assert above[j] == queues[i + 1 + j];
      assert OnLevel(slots, queues[i + 1 + j], side, lo + (i + 1 + j));
    }
    FlatPrices(slots, queues[..i], side, lo);
    FlatPrices(slots, queues[i + 1..], side, lo + i + 1);
  }

  lemma ViewConcat(slots: seq<Slot>, a: seq<int>, b: seq<int>)
    ensures View(slots, a + b) == View(slots, a) + View(slots, b)
  {
  }

  lemma ViewFrame(slots: seq<Slot>, slots': seq<Slot>, q: seq<int>)
    requires forall s | s in q :: Entry(slots', s) == Entry(slots, s)
    ensures View(slots', q) == View(slots, q)
  {
    forall k | 0 <= k < |q|
      ensures Entry(slots', q[k]) == Entry(slots, q[k])
    {
      assert q[k] in q;
    }
  }

  // One side of the book as the simple book sees it.
  function SideView(side: Side, slots: seq<Slot>, queues: seq<seq<int>>): seq<Resting> {
    View(slots, Flat(side, queues))
  }

  // Appending to a level is inserting in price-time priority.
  lemma AppendIsInsert(side: Side, slots: seq<Slot>, queues: seq<seq<int>>, lo: Price, i: nat, o: int)
    requires OnLadder(slots, queues, side, lo) && i < |queues|
    requires IsLive(slots, o) && slots[o].order.price == lo + i
    ensures SideView(side, slots, queues[i := queues[i] + [o]])
         == Insert(side, SideView(side, slots, queues), Entry(slots, o))
  {
    var a, q, b := Ahead(side, queues, i), queues[i], Behind(side, queues, i);
    FlatAt(side, queues, i, q + [o]);
    FlatSplit(side, queues, i);
    AroundPrices(slots, queues, side, lo, i);
    var va, vb := View(slots, a + q), View(slots, b);
    ViewConcat(slots, a + q, b);
    ViewConcat(slots, a + (q + [o]), b);
    assert a + (q + [o]) == (a + q) + [o];
    ViewConcat(slots, a + q, [o]);
    forall x | x in va
      ensures !Better(side, lo + i, x.price)
    {
      var k :| 0 <= k < |va| && va[k] == x;
      assert (a + q)[k] in a || (a + q)[k] in q;
      assert OnLevel(slots, q, side, lo + i);
    }
    assert b != [] ==> b[0] in b;
    InsertSplit(side, va, vb, Entry(slots, o));
    assert View(slots, [o]) == [Entry(slots, o)];
  }

  // The same orders are live, under the same ids and on the same sides.
  ghost predicate SameOrders(slots: seq<Slot>, slots': seq<Slot>) {
    && |slots'| == |slots|
    && (forall s :: IsLive(slots', s) <==> IsLive(slots, s))
    && (forall s | IsLive(slots, s) ::
          slots'[s].order.id == slots[s].order.id && slots'[s].order.side == slots[s].order.side)
  }

  lemma RelinkedSame(slots: seq<Slot>, slots': seq<Slot>, q: seq<int>, o: int)
    requires Relinked(slots, slots', q, o)
    ensures SameOrders(slots, slots')
  {
    forall s | IsLive(slots, s)
      ensures slots'[s].order.id == slots[s].order.id && slots'[s].order.side == slots[s].order.side
    {
      assert Unlinked(slots'[s].order) == Unlinked(slots[s].order);
    }
  }

  // g has the members of f and o.
  ghost predicate Grown(f: seq<int>, g: seq<int>, o: int) {
    o in g && (forall s | s in f :: s in g) && (forall s | s in g :: s == o || s in f)
  }

  // g has the members of f except o.
  ghost predicate Shrunk(f: seq<int>, g: seq<int>, o: int) {
    o !in g && (forall s | s in f :: s == o || s in g) && (forall s | s in g :: s in f)
  }

  lemma AppendMembers(side: Side, queues: seq<seq<int>>, i: nat, o: int)
    requires i < |queues|
    ensures Grown(Flat(side, queues), Flat(side, queues[i := queues[i] + [o]]), o)
  {
    FlatAt(side, queues, i, queues[i] + [o]);
    FlatSplit(side, queues, i);
  }

  lemma UnlinkMembers(side: Side, slots: seq<Slot>, queues: seq<seq<int>>, lo: Price, i: nat, k: nat)
    requires OnLadder(slots, queues, side, lo) && i < |queues| && k < |queues[i]| && NoDup(queues[i])
    ensures Shrunk(Flat(side, queues), Flat(side, queues[i := Without(queues[i], k)]), queues[i][k])
  {
    var q := queues[i];
    FlatAt(side, queues, i, Without(q, k));
    FlatSplit(side, queues, i);
    AroundPrices(slots, queues, side, lo, i);
    assert q[k] in q && OnLevel(slots, q, side, lo + i);
    NoDupWithout(q, k);
    assert q == q[..k] + [q[k]] + q[k + 1..];
  }

  // The flat queue lists every order once, in price-time priority.
  lemma {:induction false} FlatOrdered(side: Side, slots: seq<Slot>, queues: seq<seq<int>>, lo: Price)
    requires OnLadder(slots, queues, side, lo) && forall i | 0 <= i < |queues| :: NoDup(queues[i])
    ensures NoDup(Flat(side, queues)) && Sorted(side, SideView(side, slots, queues))
  {
    if queues != [] {
      var n := |queues| - 1;
      var init, last := queues[..n], queues[n];
      FlatOrdered(side, slots, init, lo);
      FlatPrices(slots, init, side, lo);
      assert OnLevel(slots, last, side, lo + n);
      if side.Sell? {
        JoinOrdered(side, slots, Flat(side, init), last);
      } else {
        JoinOrdered(side, slots, last, Flat(side, init));
      }
    }
  }

  lemma JoinOrdered(side: Side, slots: seq<Slot>, a: seq<int>, b: seq<int>)
    requires NoDup(a) && NoDup(b)
    requires Sorted(side, View(slots, a)) ||
             forall s, t | s in a && t in a :: Entry(slots, s).price == Entry(slots, t).price
    requires Sorted(side, View(slots, b)) ||
             forall s, t | s in b && t in b :: Entry(slots, s).price == Entry(slots, t).price
    requires forall s, t | s in a && t in b :: Better(side, Entry(slots, s).price, Entry(slots, t).price)
    ensures NoDup(a + b) && Sorted(side, View(slots, a + b))
  {
    var f := a + b;
    var v := View(slots, f);
    forall i, j | 0 <= i < j < |f|
      ensures f[i] != f[j] && !Better(side, v[j].price, v[i].price)
    {
      if j < |a| {
        assert a[i] in a && a[j] in a && a[i] != a[j];
        assert View(slots, a)[i] == v[i] && View(slots, a)[j] == v[j];
      } else if i >= |a| {
        assert b[i - |a|] in b && b[j - |a|] in b && b[i - |a|] != b[j - |a|];
        assert View(slots, b)[i - |a|] == v[i] && View(slots, b)[j - |a|] == v[j];
      } else {
        assert a[i] in a && b[j - |a|] in b;
      }
    }
  }

  // The levels from i on, going away from the best.
  function Tail<T>(side: Side, lv: seq<seq<T>>, i: int): seq<seq<T>>
    requires if side.Buy? then -1 <= i < |lv| else 0 <= i <= |lv|
  {
    if side.Buy? then lv[..i + 1] else lv[i..]
  }

  lemma TailStep<T>(side: Side, lv: seq<seq<T>>, i: nat)
    requires i < |lv|
    ensures Flat(side, Tail(side, lv, i)) == lv[i] + Behind(side, lv, i)
    ensures Flat(side, Tail(side, lv, if side.Buy? then i - 1 else i + 1)) == Behind(side, lv, i)
  {
    if side.Buy? {
      assert lv[..i + 1][..i] == lv[..i];
    } else {
      hide Flat;
      assert lv[i..] == [lv[i]] + lv[i + 1..];
      FlatConcat(side, [lv[i]], lv[i + 1..]);
      FlatOne(side, lv[i]);
    }
  }

  // Nothing is missed by starting at the best level.
  lemma TailAll<T>(side: Side, lv: seq<seq<T>>, i: nat)
    requires i < |lv| && Ahead(side, lv, i) == []
    ensures Flat(side, Tail(side, lv, i)) == Flat(side, lv)
  {
    hide Flat, Tail, Behind, Ahead;
    TailStep(side, lv, i);
    FlatSplit(side, lv, i);
    assert [] + lv[i] == lv[i];
  }

  // No other listed order carries the id of o.
  ghost predicate OnlyHolder(slots: seq<Slot>, o: int) {
    IsLive(slots, o) && forall s | IsLive(slots, s) :: s == o || slots[s].order.id != slots[o].order.id
  }

  lemma NotHeld(slots: seq<Slot>, q: seq<int>, o: int)
    requires OnlyHolder(slots, o) && o !in q && forall s | s in q :: IsLive(slots, s)
    ensures !HasId(View(slots, q), slots[o].order.id)
  {
    forall k | 0 <= k < |q|
      ensures View(slots, q)[k].id != slots[o].order.id
    {
      assert q[k] in q;
    }
  }

  // Unlinking from a level is removing by id.
  lemma UnlinkIsRemove(side: Side, slots: seq<Slot>, queues: seq<seq<int>>, lo: Price, i: nat, k: nat)
    requires OnLadder(slots, queues, side, lo) && i < |queues| && k < |queues[i]| && NoDup(queues[i])
    requires OnlyHolder(slots, queues[i][k])
    ensures SideView(side, slots, queues[i := Without(queues[i], k)])
         == Remove(SideView(side, slots, queues), slots[queues[i][k]].order.id)
  {
    var a, q, b := Ahead(side, queues, i), queues[i], Behind(side, queues, i);
    var o := q[k];
    FlatAt(side, queues, i, Without(q, k));
    FlatSplit(side, queues, i);
    AroundPrices(slots, queues, side, lo, i);
    assert o in q && OnLevel(slots, q, side, lo + i);
    var a', b' := a + q[..k], q[k + 1..] + b;
    assert a + q + b == a' + [o] + b' && a + Without(q, k) + b == a' + b';
    NoDupWithout(q, k);
    forall s | s in a' + b'
      ensures s != o && IsLive(slots, s)
    {
      assert s in a || s in b || s in Without(q, k);
    }
    NotHeld(slots, a', o);
    NotHeld(slots, b', o);
    ViewConcat(slots, a' + [o], b');
    ViewConcat(slots, a', [o]);
    ViewConcat(slots, a', b');
    assert View(slots, [o]) == [Entry(slots, o)];
    RemoveMiddle(View(slots, a'), Entry(slots, o), View(slots, b'));
  }

  // Writing one order's quantity is setting it by id.
  lemma WriteIsSetQty(slots: seq<Slot>, f: seq<int>, o: int, n: Quantity)
    requires OnlyHolder(slots, o) && forall s | s in f :: IsLive(slots, s)
    ensures View(SetQuantity(slots, o, n), f) == SetQty(View(slots, f), slots[o].order.id, n)
  {
    forall k | 0 <= k < |f|
      ensures View(SetQuantity(slots, o, n), f)[k] == SetQty(View(slots, f), slots[o].order.id, n)[k]
    {
      assert f[k] in f;
    }
  }
}
