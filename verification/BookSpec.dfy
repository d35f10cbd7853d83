// The simple order book: one sequence of resting orders per side, best order first.
// Everything the fast book of OrderBook.dfy does is specified by a function of this module.
module BookSpec {
  import opened Types

  datatype Resting = Resting(id: OrderId, price: Price, qty: Quantity)

  // p is strictly ahead of q among the resting orders of a side.
  predicate Better(side: Side, p: Price, q: Price) {
    if side.Buy? then p > q else p < q
  }

  // A taker on `side` with this limit accepts this resting price.
  predicate Crosses(side: Side, price: Price, limit: Price) {
    if side.Buy? then price <= limit else price >= limit
  }

  ghost predicate Sorted(side: Side, q: seq<Resting>) {
    forall i, j | 0 <= i < j < |q| :: !Better(side, q[j].price, q[i].price)
  }

  ghost predicate UniqueIds(q: seq<Resting>) {
    forall i, j | 0 <= i < j < |q| :: q[i].id != q[j].id
  }

  predicate HasId(q: seq<Resting>, id: OrderId) {
    exists i | 0 <= i < |q| :: q[i].id == id
  }

  function Sum(q: seq<Resting>): nat {
    if q == [] then 0 else q[0].qty + Sum(q[1..])
  }

  lemma {:induction false} SumAppend(a: seq<Resting>, b: seq<Resting>)
    ensures Sum(a + b) == Sum(a) + Sum(b)
  {
    if a == [] {
      assert a + b == b;
    } else {
      assert (a + b)[1..] == a[1..] + b;
      SumAppend(a[1..], b);
    }
  }

  // The orders at one price, in arrival order.
  function AtPrice(q: seq<Resting>, p: Price): seq<Resting> {
    if q == [] then [] else (if q[0].price == p then [q[0]] else []) + AtPrice(q[1..], p)
  }

  lemma {:induction false} AtPriceConcat(a: seq<Resting>, b: seq<Resting>, p: Price)
    ensures AtPrice(a + b, p) == AtPrice(a, p) + AtPrice(b, p)
  {
    if a == [] {
      assert a + b == b;
    } else {
      assert (a + b)[1..] == a[1..] + b;
      AtPriceConcat(a[1..], b, p);
    }
  }

  lemma {:induction false} AtPriceAll(q: seq<Resting>, p: Price)
    ensures (forall i | 0 <= i < |q| :: q[i].price == p) ==> AtPrice(q, p) == q
    ensures (forall i | 0 <= i < |q| :: q[i].price != p) ==> AtPrice(q, p) == []
  {
    if q != [] { AtPriceAll(q[1..], p); }
  }

  // ---- adding ----

  // Behind every order at the same or a better price, ahead of every worse one.
  function Insert(side: Side, q: seq<Resting>, r: Resting): seq<Resting> {
    if q == [] || Better(side, r.price, q[0].price) then [r] + q
    else [q[0]] + Insert(side, q[1..], r)
  }

  lemma {:induction false} InsertSplit(side: Side, a: seq<Resting>, b: seq<Resting>, r: Resting)
    requires forall x | x in a :: !Better(side, r.price, x.price)
    requires b == [] || Better(side, r.price, b[0].price)
    ensures Insert(side, a + b, r) == a + [r] + b
  {
    if a == [] {
      assert a + b == b;
    } else {
      assert a[0] in a;
      assert (a + b)[1..] == a[1..] + b;
      InsertSplit(side, a[1..], b, r);
    }
  }

  // Price-time priority of an insertion: the queue is cut in two, the newcomer goes in between,
  // nobody ahead of it has a worse price and everybody behind it has a strictly worse one.
  lemma {:induction false} InsertKeepsPriority(side: Side, q: seq<Resting>, r: Resting)
    returns (ahead: seq<Resting>, behind: seq<Resting>)
    requires Sorted(side, q)
    ensures q == ahead + behind && Insert(side, q, r) == ahead + [r] + behind
    ensures forall x | x in ahead :: !Better(side, r.price, x.price)
    ensures forall x | x in behind :: Better(side, r.price, x.price)
  {
    var k := 0;
    while k < |q| && !Better(side, r.price, q[k].price)
      invariant k <= |q|
      invariant forall i | 0 <= i < k :: !Better(side, r.price, q[i].price)
    {
      k := k + 1;
    }
    ahead, behind := q[..k], q[k..];
    forall x | x in behind
      ensures Better(side, r.price, x.price)
    {
      var i :| 0 <= i < |behind| && behind[i] == x;
      assert i > 0 ==> !Better(side, q[k + i].price, q[k].price);
    }
    InsertSplit(side, ahead, behind, r);
  }

  lemma InsertSorted(side: Side, q: seq<Resting>, r: Resting)
    requires Sorted(side, q)
    ensures Sorted(side, Insert(side, q, r))
  {
    var ahead, behind := InsertKeepsPriority(side, q, r);
    var s := ahead + [r] + behind;
    forall i, j | 0 <= i < j < |s|
      ensures !Better(side, s[j].price, s[i].price)
    {
      assert i < |ahead| ==> s[i] == q[i] && s[i] in ahead;
      assert j > |ahead| ==> s[j] == q[j - 1] && s[j] in behind;
      assert j < |ahead| ==> s[j] == q[j];
      assert i > |ahead| ==> s[i] == q[i - 1];
    }
  }

  // ---- cancelling and modifying ----

  function Remove(q: seq<Resting>, id: OrderId): seq<Resting> {
    if q == [] then []
    else if q[0].id == id then Remove(q[1..], id)
    else [q[0]] + Remove(q[1..], id)
  }

  lemma {:induction false} RemoveAbsent(q: seq<Resting>, id: OrderId)
    requires !HasId(q, id)
    ensures Remove(q, id) == q
  {
    if q != [] {
      assert q[0].id != id;
      assert forall i | 0 <= i < |q[1..]| :: q[1..][i] == q[i + 1];
      RemoveAbsent(q[1..], id);
    }
  }

  lemma {:induction false} RemoveAppend(a: seq<Resting>, b: seq<Resting>, id: OrderId)
    ensures Remove(a + b, id) == Remove(a, id) + Remove(b, id)
  {
    if a == [] {
      assert a + b == b;
    } else {
      assert (a + b)[1..] == a[1..] + b;
      RemoveAppend(a[1..], b, id);
    }
  }

  // With unique ids, cancelling takes out exactly the one order and keeps everybody else's rank.
  lemma RemoveMiddle(a: seq<Resting>, x: Resting, b: seq<Resting>)
    requires !HasId(a, x.id) && !HasId(b, x.id)
    ensures Remove(a + [x] + b, x.id) == a + b
  {
    RemoveAppend(a + [x], b, x.id);
    RemoveAppend(a, [x], x.id);
    RemoveAbsent(a, x.id);
    RemoveAbsent(b, x.id);
    assert Remove([x], x.id) == [];
  }

  lemma IdNotIn(q: seq<Resting>, lo: nat, hi: nat, k: nat)
    requires lo <= hi <= |q| && k < |q| && !(lo <= k < hi) && UniqueIds(q)
    ensures !HasId(q[lo..hi], q[k].id)
  {
    forall i | 0 <= i < hi - lo
      ensures q[lo..hi][i].id != q[k].id
    {
      assert q[lo..hi][i] == q[lo + i];
    }
  }

  lemma RemoveAt(q: seq<Resting>, k: nat)
    requires k < |q| && UniqueIds(q)
    ensures Remove(q, q[k].id) == q[..k] + q[k + 1..]
  {
    hide Remove, HasId, UniqueIds;
    var a, b := q[0..k], q[k + 1..|q|];
    IdNotIn(q, 0, k, k);
    IdNotIn(q, k + 1, |q|, k);
    assert a + [q[k]] + b == q;
    RemoveMiddle(a, q[k], b);
    assert q[..k] == a && q[k + 1..] == b;
  }

  function SetQty(q: seq<Resting>, id: OrderId, qty: Quantity): seq<Resting> {
    seq(|q|, i requires 0 <= i < |q| => if q[i].id == id then q[i].(qty := qty) else q[i])
  }

  // ---- matching ----

  datatype Fill = Fill(trades: seq<Trade>, left: seq<Resting>, rem: Quantity)

  // Serve the taker from the front of the queue until it is filled, the queue is exhausted or
  // the next price is worse than its limit.
  function Greedy(taker: Side, q: seq<Resting>, limit: Price, qty: Quantity, takerId: OrderId): Fill {
    if qty == 0 || q == [] || !Crosses(taker, q[0].price, limit) then
      Fill([], q, qty)
    else
      var m := q[0];
      var f := Min(qty, m.qty);
      var t := Trade(m.price, f, m.id, takerId, taker);
      if f == m.qty then
        var rest := Greedy(taker, q[1..], limit, qty - f, takerId);
        Fill([t] + rest.trades, rest.left, rest.rem)
      else
        Fill([t], [m.(qty := m.qty - f)] + q[1..], 0)
  }

  // One maker filled, and on with the rest of the queue.
  lemma GreedyNext(taker: Side, q: seq<Resting>, limit: Price, qty: Quantity, takerId: OrderId)
    requires q != [] && 0 < qty && q[0].qty <= qty && Crosses(taker, q[0].price, limit)
    ensures var h := Greedy(taker, q[1..], limit, qty - q[0].qty, takerId);
            Greedy(taker, q, limit, qty, takerId) ==
            Fill([FullTrade(taker, takerId, q[0])] + h.trades, h.left, h.rem)
  {
  }

  // The last maker keeps what the taker does not want.
  lemma GreedyPart(taker: Side, q: seq<Resting>, limit: Price, qty: Quantity, takerId: OrderId)
    requires q != [] && 0 < qty < q[0].qty && Crosses(taker, q[0].price, limit)
    ensures Greedy(taker, q, limit, qty, takerId) ==
            Fill([Trade(q[0].price, qty, q[0].id, takerId, taker)], [q[0].(qty := q[0].qty - qty)] + q[1..], 0)
  {
  }

  lemma GreedyStops(taker: Side, q: seq<Resting>, limit: Price, qty: Quantity, takerId: OrderId)
    requires StopsAt(taker, q, limit, qty)
    ensures Greedy(taker, q, limit, qty, takerId) == Fill([], q, qty)
  {
  }

  function Traded(ts: seq<Trade>): nat {
    if ts == [] then 0 else ts[0].quantity + Traded(ts[1..])
  }

  function FullTrade(taker: Side, takerId: OrderId, m: Resting): Trade {
    Trade(m.price, m.qty, m.id, takerId, taker)
  }

  function FullTrades(taker: Side, takerId: OrderId, ms: seq<Resting>): seq<Trade> {
    seq(|ms|, i requires 0 <= i < |ms| => FullTrade(taker, takerId, ms[i]))
  }

  // Every one of these makers can be reached with shares still wanted, and filled.
  ghost predicate Needed(served: seq<Resting>, qty: Quantity) {
    served == [] || (qty > 0 && served[0].qty <= qty && Needed(served[1..], qty - served[0].qty))
  }

  // What the first makers leave to be traded with the next one.
  ghost predicate StopsAt(taker: Side, rest: seq<Resting>, limit: Price, rem: Quantity) {
    rem == 0 || rest == [] || !Crosses(taker, rest[0].price, limit)
  }

  ghost predicate Outcome(taker: Side, served: seq<Resting>, rest: seq<Resting>, limit: Price, qty: Quantity,
                          takerId: OrderId, g: Fill)
  {
    && Needed(served, qty) && Sum(served) <= qty
    && (forall i | 0 <= i < |served| :: Crosses(taker, served[i].price, limit))
    && var part := qty - Sum(served);
       if |g.trades| == |served| then
         && g.trades == FullTrades(taker, takerId, served)
         && g.left == rest && g.rem == part && StopsAt(taker, rest, limit, part)
       else
         && rest != [] && Crosses(taker, rest[0].price, limit) && 0 < part < rest[0].qty
         && g.trades == FullTrades(taker, takerId, served)
                        + [Trade(rest[0].price, part, rest[0].id, takerId, taker)]
         && g.left == [rest[0].(qty := rest[0].qty - part)] + rest[1..] && g.rem == 0
  }

  lemma OutcomeCons(taker: Side, m: Resting, served: seq<Resting>, rest: seq<Resting>, limit: Price, qty: Quantity,
                    takerId: OrderId, g: Fill)
    requires 0 < qty && m.qty <= qty && Crosses(taker, m.price, limit)
    requires Outcome(taker, served, rest, limit, qty - m.qty, takerId, g)
    ensures Outcome(taker, [m] + served, rest, limit, qty, takerId,
                    Fill([FullTrade(taker, takerId, m)] + g.trades, g.left, g.rem))
  {
    assert ([m] + served)[1..] == served;
    assert FullTrades(taker, takerId, [m] + served)
        == [FullTrade(taker, takerId, m)] + FullTrades(taker, takerId, served);
  }

  // Closed form of matching: the queue is cut in two; the makers ahead of the cut trade in full and
  // leave; the one behind it may trade in part; nobody else is touched; and matching stops there
  // only because the taker is filled, the queue is empty or the next price is past the limit.
  lemma {:induction false} GreedyClosedForm(taker: Side, q: seq<Resting>, limit: Price, qty: Quantity, takerId: OrderId)
    returns (served: seq<Resting>, rest: seq<Resting>)
    ensures q == served + rest
    ensures Outcome(taker, served, rest, limit, qty, takerId, Greedy(taker, q, limit, qty, takerId))
  {
    hide Greedy;
    if StopsAt(taker, q, limit, qty) {
      GreedyStops(taker, q, limit, qty, takerId);
      served, rest := [], q;
    } else if qty < q[0].qty {
      GreedyPart(taker, q, limit, qty, takerId);
      served, rest := [], q;
    } else {
      GreedyNext(taker, q, limit, qty, takerId);
      served, rest := GreedyClosedForm(taker, q[1..], limit, qty - q[0].qty, takerId);
      OutcomeCons(taker, q[0], served, rest, limit, qty, takerId,
                  Greedy(taker, q[1..], limit, qty - q[0].qty, takerId));
      served := [q[0]] + served;
    }
  }

  // No share is created or lost by matching, on either side.
  lemma {:induction false} GreedyConserves(taker: Side, q: seq<Resting>, limit: Price, qty: Quantity, takerId: OrderId)
    ensures var g := Greedy(taker, q, limit, qty, takerId);
            Traded(g.trades) + g.rem == qty && Traded(g.trades) + Sum(g.left) == Sum(q)
  {
    hide Greedy;
    if StopsAt(taker, q, limit, qty) {
      GreedyStops(taker, q, limit, qty, takerId);
    } else if qty < q[0].qty {
      GreedyPart(taker, q, limit, qty, takerId);
      assert Traded([Trade(q[0].price, qty, q[0].id, takerId, taker)]) == qty;
      assert ([q[0].(qty := q[0].qty - qty)] + q[1..])[1..] == q[1..];
    } else {
      GreedyNext(taker, q, limit, qty, takerId);
      GreedyConserves(taker, q[1..], limit, qty - q[0].qty, takerId);
      var h := Greedy(taker, q[1..], limit, qty - q[0].qty, takerId);
      assert ([FullTrade(taker, takerId, q[0])] + h.trades)[1..] == h.trades;
    }
  }

  // ---- executing against the touch, level by level ----

  // How many orders stand at the best price.
  function LevelLen(q: seq<Resting>): (n: nat)
    ensures n <= |q| && (q != [] ==> n > 0)
  {
    if |q| <= 1 then |q| else if q[1].price == q[0].price then 1 + LevelLen(q[1..]) else 1
  }

  // Take `fill` shares from the front of one level, stopping as soon as they are taken.
  function Drain(level: seq<Resting>, fill: Quantity): seq<Resting> {
    if fill == 0 || level == [] then level
    else if level[0].qty <= fill then Drain(level[1..], fill - level[0].qty)
    else [level[0].(qty := level[0].qty - fill)] + level[1..]
  }

  datatype Executed = Executed(left: seq<Resting>, rem: Quantity)

  // A level at a time, each for at most its total; give up at a level that has no shares.
  function Execute(q: seq<Resting>, qty: Quantity): Executed
    decreases qty
  {
    if qty == 0 || q == [] then Executed(q, qty)
    else
      var n := LevelLen(q);
      var fill := Min(qty, Sum(q[..n]));
      if fill == 0 then Executed(q, qty)
      else Execute(Drain(q[..n], fill) + q[n..], qty - fill)
  }
}
