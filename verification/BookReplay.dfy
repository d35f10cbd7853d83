// Drives an order book from an ITCH stream for one symbol (include/book_replay.hpp).
module BookReplays {
  import opened Types
  import opened Bytes
  import opened Messages
  import opened BookSpec
  import opened BookLaws
  import opened ObjectPools
  import opened OrderBooks

  predicate IsAdd(m: Message) {
    m.kind == TYPE_ADD || m.kind == TYPE_ADD_MPID
  }

  predicate IsReduce(m: Message) {
    m.kind == TYPE_CANCEL || m.kind == TYPE_EXECUTED || m.kind == TYPE_EXECUTED_PRICE
  }

  function SideOf(m: Message): Side {
    if m.side == SIDE_BUY then Buy else Sell
  }

  // ITCH prices are in 1/10000 dollar, the ladder in cents.
  function ToCents(price: nat): Price {
    price / 100
  }

  // ---- one message on the simple book ----

  function Reduce(b: Book, id: OrderId, shares: Quantity): Book {
    if !b.Has(id) then b
    else if Find(b, id).1.qty > shares then Modify(b, id, Find(b, id).1.qty - shares)
    else Cancel(b, id)
  }

  function Replace(lo: Price, hi: Price, b: Book, id: OrderId, price: Price, shares: Quantity, newId: OrderId): Book {
    if !b.Has(id) then b else Add(lo, hi, Cancel(b, id), Find(b, id).0, price, shares, newId)
  }

  function Effect(lo: Price, hi: Price, target: seq<Byte>, b: Book, m: Message): Book {
    if IsAdd(m) then
      if m.rawStock == target then Add(lo, hi, b, SideOf(m), ToCents(m.price), m.shares, m.orderRef) else b
    else if m.kind == TYPE_DELETE then Cancel(b, m.orderRef)
    else if IsReduce(m) then Reduce(b, m.orderRef, m.shares)
    else if m.kind == TYPE_REPLACE then Replace(lo, hi, b, m.orderRef, ToCents(m.price), m.shares, m.newOrderRef)
    else b
  }

  function Replay(lo: Price, hi: Price, target: seq<Byte>, b: Book, ms: seq<Message>): Book
    decreases |ms|
  {
    if ms == [] then b else Replay(lo, hi, target, Effect(lo, hi, target, b, ms[0]), ms[1..])
  }

  // ---- streams of many symbols ----

  // A message and the symbol it is about; only an Add carries the symbol itself.
  datatype Tagged = Tagged(m: Message, symbol: seq<Byte>)

  // References already introduced, each with its symbol.
  type Owners = map<OrderId, seq<Byte>>

  predicate Refers(m: Message) {
    m.kind == TYPE_DELETE || IsReduce(m) || m.kind == TYPE_REPLACE
  }

  // Unique order references: an Add or a Replace introduces a reference nobody used before; all other
  // order messages name a reference of their own symbol.
  ghost predicate TagOk(t: Tagged, own: Owners) {
    && (IsAdd(t.m) ==> t.m.rawStock == t.symbol && t.m.orderRef !in own)
    && (Refers(t.m) ==> t.m.orderRef in own && own[t.m.orderRef] == t.symbol)
    && (t.m.kind == TYPE_REPLACE ==> t.m.newOrderRef !in own)
  }

  function Introduce(t: Tagged, own: Owners): Owners {
    if IsAdd(t.m) then own[t.m.orderRef := t.symbol]
    else if t.m.kind == TYPE_REPLACE then own[t.m.newOrderRef := t.symbol]
    else own
  }

  ghost predicate UniqueRefs(ts: seq<Tagged>, own: Owners) {
    ts == [] || (TagOk(ts[0], own) && UniqueRefs(ts[1..], Introduce(ts[0], own)))
  }

  function Untag(ts: seq<Tagged>): seq<Message> {
    if ts == [] then [] else [ts[0].m] + Untag(ts[1..])
  }

  function Only(target: seq<Byte>, ts: seq<Tagged>): seq<Tagged> {
    if ts == [] then []
    else if ts[0].symbol == target then [ts[0]] + Only(target, ts[1..])
    else Only(target, ts[1..])
  }

  // Everything in the book was introduced for the target symbol.
  ghost predicate OwnedBy(target: seq<Byte>, b: Book, own: Owners) {
    forall id :: b.Has(id) ==> id in own && own[id] == target
  }

  lemma {:induction false} RemoveHas(q: seq<Resting>, id: OrderId, i: OrderId)
    ensures HasId(Remove(q, id), i) <==> i != id && HasId(q, i)
  {
    if q != [] {
      RemoveHas(q[1..], id, i);
      var t := Remove(q[1..], id);
      HasCons(q[0], q[1..], i);
      HasCons(q[0], t, i);
      assert [q[0]] + q[1..] == q;
    }
  }

  lemma HasCons(x: Resting, q: seq<Resting>, i: OrderId)
    ensures HasId([x] + q, i) <==> x.id == i || HasId(q, i)
  {
    var s := [x] + q;
    if HasId(q, i) {
      var k :| 0 <= k < |q| && q[k].id == i;
      assert s[k + 1].id == i;
    }
    if x.id == i { assert s[0].id == i; }
    if HasId(s, i) {
      var k :| 0 <= k < |s| && s[k].id == i;
      if k > 0 { assert q[k - 1].id == i; }
    }
  }

  lemma {:induction false} InsertHas(side: Side, q: seq<Resting>, r: Resting, i: OrderId)
    ensures HasId(Insert(side, q, r), i) <==> i == r.id || HasId(q, i)
  {
    if q == [] || Better(side, r.price, q[0].price) {
      HasCons(r, q, i);
    } else {
      InsertHas(side, q[1..], r, i);
      HasCons(q[0], q[1..], i);
      HasCons(q[0], Insert(side, q[1..], r), i);
      assert [q[0]] + q[1..] == q;
    }
  }

  lemma ModifyHas(b: Book, id: OrderId, i: OrderId)
    ensures forall n: Quantity :: Modify(b, id, n).Has(i) ==> b.Has(i)
  {
    forall n: Quantity | Modify(b, id, n).Has(i)
      ensures b.Has(i)
    {
      assert forall k | 0 <= k < |b.bids| :: SetQty(b.bids, id, n)[k].id == b.bids[k].id;
      assert forall k | 0 <= k < |b.asks| :: SetQty(b.asks, id, n)[k].id == b.asks[k].id;
    }
  }

  // What a message does to the ids in the book.
  lemma MessageHas(lo: Price, hi: Price, target: seq<Byte>, b: Book, m: Message, i: OrderId)
    ensures Effect(lo, hi, target, b, m).Has(i) ==>
              || b.Has(i)
              || (IsAdd(m) && m.rawStock == target && i == m.orderRef)
              || (m.kind == TYPE_REPLACE && b.Has(m.orderRef) && i == m.newOrderRef)
  {
    RemoveHas(b.bids, m.orderRef, i);
    RemoveHas(b.asks, m.orderRef, i);
    if IsAdd(m) {
      InsertHas(SideOf(m), b.Queue(SideOf(m)), Resting(m.orderRef, ToCents(m.price), m.shares), i);
    } else if IsReduce(m) && b.Has(m.orderRef) {
      ModifyHas(b, m.orderRef, i);
    } else if m.kind == TYPE_REPLACE && b.Has(m.orderRef) {
      var c, side := Cancel(b, m.orderRef), Find(b, m.orderRef).0;
      InsertHas(side, c.Queue(side), Resting(m.newOrderRef, ToCents(m.price), m.shares), i);
    }
  }

  // A message of the target's symbol keeps the book owned by it,
  lemma TargetKeeps(lo: Price, hi: Price, target: seq<Byte>, b: Book, t: Tagged, own: Owners)
    requires TagOk(t, own) && OwnedBy(target, b, own)
    ensures OwnedBy(target, Effect(lo, hi, target, b, t.m), Introduce(t, own))
  {
    forall i | Effect(lo, hi, target, b, t.m).Has(i)
      ensures i in Introduce(t, own) && Introduce(t, own)[i] == target
    {
      MessageHas(lo, hi, target, b, t.m, i);
    }
  }

  // and a message of another symbol finds nothing.
  lemma OthersMiss(lo: Price, hi: Price, target: seq<Byte>, b: Book, t: Tagged, own: Owners)
    requires TagOk(t, own) && OwnedBy(target, b, own) && t.symbol != target
    ensures Effect(lo, hi, target, b, t.m) == b
  {
    if t.m.kind == TYPE_DELETE {
      RemoveAbsent(b.bids, t.m.orderRef);
      RemoveAbsent(b.asks, t.m.orderRef);
    }
  }

  // Book membership alone filters: replaying a stream of all symbols leaves the book that replaying
  // only the target's messages, along its replace chains, leaves.
  lemma {:induction false} ReplayFilters(lo: Price, hi: Price, target: seq<Byte>, b: Book, ts: seq<Tagged>, own: Owners)
    requires UniqueRefs(ts, own) && OwnedBy(target, b, own)
    ensures Replay(lo, hi, target, b, Untag(ts)) == Replay(lo, hi, target, b, Untag(Only(target, ts)))
    decreases |ts|
  {
    if ts != [] {
      var t, b' := ts[0], Effect(lo, hi, target, b, ts[0].m);
      TargetKeeps(lo, hi, target, b, t, own);
      ReplayFilters(lo, hi, target, b', ts[1..], Introduce(t, own));
      assert Untag(ts)[1..] == Untag(ts[1..]);
      if t.symbol == target {
        var rest := Only(target, ts[1..]);
        assert Only(target, ts)[1..] == rest;
        assert Untag(Only(target, ts)) == [t.m] + Untag(rest);
        assert Untag(Only(target, ts))[1..] == Untag(rest);
      } else {
        OthersMiss(lo, hi, target, b, t, own);
      }
    }
  }

  // Unique references are what addOrder needs: nothing resting has the id of a newcomer.
  lemma NewcomersAreFresh(lo: Price, hi: Price, target: seq<Byte>, b: Book, t: Tagged, own: Owners)
    requires TagOk(t, own) && OwnedBy(target, b, own)
    ensures Arrives(lo, hi, target, b, t.m)
  {
    RemoveHas(b.bids, t.m.orderRef, t.m.newOrderRef);
    RemoveHas(b.asks, t.m.orderRef, t.m.newOrderRef);
  }

  // The id under which a message rests an order is not in use by then.
  ghost predicate Arrives(lo: Price, hi: Price, target: seq<Byte>, b: Book, m: Message) {
    lo <= ToCents(m.price) <= hi ==>
      && (IsAdd(m) && m.rawStock == target ==> !b.Has(m.orderRef))
      && (m.kind == TYPE_REPLACE && b.Has(m.orderRef) ==> !Cancel(b, m.orderRef).Has(m.newOrderRef))
  }

  // ---- what is counted ----

  datatype Counts = Counts(seen: nat, added: nat, deleted: nat, reduced: nat, replaced: nat)

  // Every message is seen; beyond that, those that changed the book. An order that rests under reference 0
  // is not counted, because addOrder returns 0 for a refusal.
  function Tally(lo: Price, hi: Price, target: seq<Byte>, b: Book, c: Counts, m: Message): Counts {
    var n := c.(seen := c.seen + 1);
    var rests := lo <= ToCents(m.price) <= hi;
    if IsAdd(m) then
      if m.rawStock == target && rests && m.orderRef != 0 then n.(added := c.added + 1) else n
    else if m.kind == TYPE_DELETE then if b.Has(m.orderRef) then n.(deleted := c.deleted + 1) else n
    else if IsReduce(m) then if b.Has(m.orderRef) then n.(reduced := c.reduced + 1) else n
    else if m.kind == TYPE_REPLACE then
      if b.Has(m.orderRef) && rests && m.newOrderRef != 0 then n.(replaced := c.replaced + 1) else n
    else n
  }

  // A symbol as it is on the wire: left justified in eight bytes, filled with spaces, cut at eight.
  function Padded(symbol: seq<Byte>): (r: seq<Byte>)
    ensures |r| == 8 && forall k | 0 <= k < 8 :: r[k] == if k < |symbol| then symbol[k] else ' ' as int
  {
    var spaces: seq<Byte> := seq(8, _ => 32);
    (symbol + spaces)[..8]
  }

  class BookReplay {
    const book: OrderBook
    const target: seq<Byte>
    var seen: nat
    var added: nat
    var deleted: nat
    var reduced: nat
    var replaced: nat

    constructor (b: OrderBook, symbol: seq<Byte>)
      ensures book == b && target == Padded(symbol)
      ensures seen == added == deleted == reduced == replaced == 0
    {
      book, target := b, Padded(symbol);
      seen, added, deleted, reduced, replaced := 0, 0, 0, 0, 0;
    }

    function Counters(): Counts
      reads this
    {
      Counts(seen, added, deleted, reduced, replaced)
    }

    method OnMessage(m: Message)
      requires book.Valid() && Arrives(book.minPrice, book.maxPrice, target, book.View(), m)
      modifies this, book, book.pool, book.bids, book.asks, book.bids.words, book.asks.words,
               book.bids.levels, book.asks.levels
      ensures book.Valid()
      ensures book.View() == Effect(book.minPrice, book.maxPrice, target, old(book.View()), m)
      ensures Counters() == Tally(book.minPrice, book.maxPrice, target, old(book.View()), old(Counters()), m)
    {
      hide OrderBook.Valid, OrderBook.View, OrderBook.Fixed, Cancel, Modify, Add, HasId, Book.Has, Find,
           Reduce, Replace;
      if IsAdd(m) {
        OnAdd(m);
      } else if m.kind == TYPE_DELETE {
        OnDelete(m.orderRef);
      } else if IsReduce(m) {
        OnReduce(m.orderRef, m.shares);
      } else if m.kind == TYPE_REPLACE {
        OnReplace(m);
      }
      seen := seen + 1;
    }

    method OnAdd(m: Message)
      requires book.Valid()
      requires m.rawStock == target && book.minPrice <= ToCents(m.price) <= book.maxPrice ==>
                 !book.View().Has(m.orderRef)
      modifies this`added, book, book.pool, book.bids, book.asks, book.bids.words, book.asks.words,
               book.bids.levels, book.asks.levels
      ensures book.Valid()
      ensures var b := old(book.View());
              book.View() == if m.rawStock == target
                             then Add(book.minPrice, book.maxPrice, b, SideOf(m), ToCents(m.price), m.shares,
                                      m.orderRef)
                             else b
      ensures var rests := m.rawStock == target && book.minPrice <= ToCents(m.price) <= book.maxPrice;
              added == old(added) + if rests && m.orderRef != 0 then 1 else 0
    {
      hide OrderBook.Valid, OrderBook.View, OrderBook.Fixed, Cancel, Modify, Add, HasId, Book.Has, Find;
      book.Has(m.orderRef);
      if m.rawStock != target {
        return;
      }
      var r := book.AddOrder(SideOf(m), ToCents(m.price), m.shares, m.orderRef);
      if r != 0 {
        added := added + 1;
      }
    }

    method OnDelete(ref: OrderId)
      requires book.Valid()
      modifies this`deleted, book, book.pool, book.bids, book.asks, book.bids.words, book.asks.words,
               book.bids.levels, book.asks.levels
      ensures book.Valid() && book.View() == Cancel(old(book.View()), ref)
      ensures deleted == old(deleted) + if old(book.View()).Has(ref) then 1 else 0
    {
      hide *;
      book.Has(ref);
      if ref in book.orders {
        var ok := book.CancelOrder(ref);
        deleted := deleted + 1;
      } else {
        book.CancelAbsent(ref);
      }
    }

    method OnReduce(ref: OrderId, shares: Quantity)
      requires book.Valid()
      modifies this`reduced, book, book.pool, book.bids, book.asks, book.bids.words, book.asks.words,
               book.bids.levels, book.asks.levels
      ensures book.Valid() && book.View() == Reduce(old(book.View()), ref, shares)
      ensures reduced == old(reduced) + if old(book.View()).Has(ref) then 1 else 0
    {
      hide OrderBook.Valid, OrderBook.View, OrderBook.Fixed, Cancel, Modify, Add, HasId, Book.Has, Find;
      book.Has(ref);
      if ref !in book.orders {
        return;
      }
      book.OrderIs(ref);
      var quantity := book.pool.slots[book.orders[ref]].order.quantity;
      if quantity > shares {
        var ok := book.ModifyOrder(ref, quantity - shares);
      } else {
        var ok := book.CancelOrder(ref);
      }
      reduced := reduced + 1;
    }

    method OnReplace(m: Message)
      requires book.Valid()
      requires book.View().Has(m.orderRef) && book.minPrice <= ToCents(m.price) <= book.maxPrice ==>
                 !Cancel(book.View(), m.orderRef).Has(m.newOrderRef)
      modifies this`replaced, book, book.pool, book.bids, book.asks, book.bids.words, book.asks.words,
               book.bids.levels, book.asks.levels
      ensures book.Valid()
      ensures book.View() == Replace(book.minPrice, book.maxPrice, old(book.View()),
                                     m.orderRef, ToCents(m.price), m.shares, m.newOrderRef)
      ensures var rests := old(book.View()).Has(m.orderRef) && book.minPrice <= ToCents(m.price) <= book.maxPrice;
              replaced == old(replaced) + if rests && m.newOrderRef != 0 then 1 else 0
    {
      hide OrderBook.Valid, OrderBook.View, OrderBook.Fixed, Cancel, Modify, Add, HasId, Book.Has, Find;
      book.Has(m.orderRef);
      if m.orderRef !in book.orders {
        return;
      }
      book.OrderIs(m.orderRef);
      var side := book.pool.slots[book.orders[m.orderRef]].order.side;
      var ok := book.CancelOrder(m.orderRef);
      book.Has(m.newOrderRef);
      var r := book.AddOrder(side, ToCents(m.price), m.shares, m.newOrderRef);
      if r != 0 {
        replaced := replaced + 1;
      }
    }

    // A whole stream on the fast book is the stream on the simple book.
    method OnStream(ts: seq<Tagged>, ghost own: Owners)
      requires book.Valid() && UniqueRefs(ts, own) && OwnedBy(target, book.View(), own)
      modifies this, book, book.pool, book.bids, book.asks, book.bids.words, book.asks.words,
               book.bids.levels, book.asks.levels
      ensures book.Valid() && seen == old(seen) + |ts|
      ensures book.View() == Replay(book.minPrice, book.maxPrice, target, old(book.View()), Untag(Only(target, ts)))
    {
      hide OrderBook.Valid, OrderBook.View, OrderBook.Fixed, Effect, OwnedBy, TagOk;
      ghost var lo, hi, b0 := book.minPrice, book.maxPrice, book.View();
      ReplayFilters(lo, hi, target, b0, ts, own);
      ghost var now := own;
      for i := 0 to |ts|
        invariant book.Valid() && seen == old(seen) + i
        invariant UniqueRefs(ts[i..], now) && OwnedBy(target, book.View(), now)
        invariant Replay(lo, hi, target, b0, Untag(ts)) == Replay(lo, hi, target, book.View(), Untag(ts[i..]))
      {
        assert ts[i..][0] == ts[i] && ts[i..][1..] == ts[i + 1..];
        NewcomersAreFresh(lo, hi, target, book.View(), ts[i], now);
        TargetKeeps(lo, hi, target, book.View(), ts[i], now);
        ReplayStep(lo, hi, target, book.View(), ts[i..]);
        OnMessage(ts[i].m);
        now := Introduce(ts[i], now);
      }
      assert ts[|ts|..] == [];
    }
  }

  lemma ReplayStep(lo: Price, hi: Price, target: seq<Byte>, b: Book, ts: seq<Tagged>)
    requires ts != []
    ensures Replay(lo, hi, target, b, Untag(ts)) ==
            Replay(lo, hi, target, Effect(lo, hi, target, b, ts[0].m), Untag(ts[1..]))
  {
    assert Untag(ts)[1..] == Untag(ts[1..]);
  }
}
