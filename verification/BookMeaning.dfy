// What the operations of the simple book mean, order by order: on the two queues themselves, without the
// functions that compute them.
module BookMeanings {
  import opened Types
  import opened BookSpec
  import opened ExecuteLaws
  import opened BookLaws

  // An order rests at its own price: behind everybody at that price or a better one, ahead of everybody worse.
  lemma AddRests(lo: Price, hi: Price, b: Book, side: Side, price: Price, qty: Quantity, id: OrderId)
    returns (ahead: seq<Resting>, behind: seq<Resting>)
    requires b.WellFormed() && lo <= price <= hi
    ensures var b' := Add(lo, hi, b, side, price, qty, id);
            match side
            case Buy =>
              && b.bids == ahead + behind && b'.bids == ahead + [Resting(id, price, qty)] + behind && b'.asks == b.asks
              && (forall x | x in ahead :: x.price >= price) && (forall x | x in behind :: x.price < price)
            case Sell =>
              && b.asks == ahead + behind && b'.asks == ahead + [Resting(id, price, qty)] + behind && b'.bids == b.bids
              && (forall x | x in ahead :: x.price <= price) && (forall x | x in behind :: x.price > price)
  {
    ahead, behind := InsertKeepsPriority(side, b.Queue(side), Resting(id, price, qty));
  }

  lemma OffLadder(lo: Price, hi: Price, b: Book, side: Side, price: Price, qty: Quantity, id: OrderId)
    requires !(lo <= price <= hi)
    ensures Add(lo, hi, b, side, price, qty, id) == b
  {
  }

  // What is left of a limit order rests at its limit, under its id; its own side is otherwise as it was.
  lemma RemainderRests(lo: Price, hi: Price, b: Book, side: Side, price: Price, qty: Quantity, id: OrderId)
    returns (ahead: seq<Resting>, behind: seq<Resting>)
    requires b.WellFormed() && RestsFresh(lo, hi, b, side, price, qty, id)
    ensures var b', g := SubmitLimit(lo, hi, b, side, price, qty, id), Match(b, side, price, qty, id).1;
            var rest := if g.rem > 0 && lo <= price <= hi then [Resting(id, price, g.rem)] else [];
            && (match side
                case Buy =>
                  && b.bids == ahead + behind && b'.bids == ahead + rest + behind && b'.asks == g.left
                  && (rest != [] ==>
                        (forall x | x in ahead :: x.price >= price) && (forall x | x in behind :: x.price < price))
                case Sell =>
                  && b.asks == ahead + behind && b'.asks == ahead + rest + behind && b'.bids == g.left
                  && (rest != [] ==>
                        (forall x | x in ahead :: x.price <= price) && (forall x | x in behind :: x.price > price)))
            && (rest != [] ==> b'.Has(id) && Find(b', id) == (side, Resting(id, price, g.rem)))
  {
    hide Greedy, Insert;
    var (m, g) := Match(b, side, price, qty, id);
    MatchKeeps(b, side, price, qty, id);
    if g.rem > 0 && lo <= price <= hi {
      ahead, behind := AddRests(lo, hi, m, side, price, g.rem, id);
      AddKeeps(lo, hi, m, side, price, g.rem, id);
      var b' := Add(lo, hi, m, side, price, g.rem, id);
      assert b'.Queue(side)[|ahead|] == Resting(id, price, g.rem);
      FindIs(b', side, Resting(id, price, g.rem));
    } else {
      ahead, behind := b.Queue(side), [];
      assert ahead + [] + behind == ahead;
    }
  }

  // ---- cancelling and modifying, at any rank ----

  lemma AbsentElsewhere(b: Book, side: Side, k: nat)
    requires b.WellFormed() && k < |b.Queue(side)|
    ensures !HasId(b.Queue(Opposite(side)), b.Queue(side)[k].id)
  {
  }

  lemma CancelTakesOut(b: Book, side: Side, k: nat)
    requires b.WellFormed() && k < |b.Queue(side)|
    ensures match side
            case Buy => Cancel(b, b.bids[k].id) == Book(b.bids[..k] + b.bids[k + 1..], b.asks)
            case Sell => Cancel(b, b.asks[k].id) == Book(b.bids, b.asks[..k] + b.asks[k + 1..])
  {
    AbsentElsewhere(b, side, k);
    RemoveAt(b.Queue(side), k);
    RemoveAbsent(b.Queue(Opposite(side)), b.Queue(side)[k].id);
  }

  lemma ModifyRequantifies(b: Book, side: Side, k: nat, n: Quantity)
    requires b.WellFormed() && k < |b.Queue(side)|
    ensures match side
            case Buy =>
              Modify(b, b.bids[k].id, n) == Book(b.bids[k := Resting(b.bids[k].id, b.bids[k].price, n)], b.asks)
            case Sell =>
              Modify(b, b.asks[k].id, n) == Book(b.bids, b.asks[k := Resting(b.asks[k].id, b.asks[k].price, n)])
  {
    AbsentElsewhere(b, side, k);
    var q, other := b.Queue(side), b.Queue(Opposite(side));
    assert SetQty(q, q[k].id, n) == q[k := Resting(q[k].id, q[k].price, n)];
    assert SetQty(other, q[k].id, n) == other;
  }

  lemma UnknownId(b: Book, id: OrderId, n: Quantity)
    requires !b.Has(id)
    ensures Cancel(b, id) == b && Modify(b, id, n) == b
  {
    RemoveAbsent(b.bids, id);
    RemoveAbsent(b.asks, id);
    assert SetQty(b.bids, id, n) == b.bids && SetQty(b.asks, id, n) == b.asks;
  }

  // ---- matching ----

  // Shares are still wanted when each of the makers served in full is reached.
  lemma {:induction false} StillWanted(served: seq<Resting>, qty: Quantity, i: nat)
    requires Needed(served, qty) && i < |served|
    ensures Sum(served[..i]) < qty
  {
    if i > 0 {
      StillWanted(served[1..], qty - served[0].qty, i - 1);
      assert served[..i][1..] == served[1..][..i - 1];
    }
  }

  // A taker trades with the makers in their rank: the first of them in full, each at its own price, while
  // shares are wanted and the price is within the limit, and then with the next one in part.
  lemma MatchServes(b: Book, side: Side, limit: Price, qty: Quantity, id: OrderId)
    returns (served: seq<Resting>, rest: seq<Resting>)
    ensures (if side.Buy? then b.asks else b.bids) == served + rest
    ensures var (b', g) := Match(b, side, limit, qty, id);
            && b' == (if side.Buy? then Book(b.bids, g.left) else Book(g.left, b.asks))
            && |served| <= |g.trades| <= |served| + 1
            && (forall i | 0 <= i < |served| ::
                  && g.trades[i] == Trade(served[i].price, served[i].qty, served[i].id, id, side)
                  && (if side.Buy? then served[i].price <= limit else served[i].price >= limit)
                  && Sum(served[..i]) < qty)
            && Sum(served) <= qty
            && var more := qty - Sum(served);
               if |g.trades| == |served| then
                 && g.left == rest && g.rem == more
                 && (more == 0 || rest == [] || if side.Buy? then rest[0].price > limit else rest[0].price < limit)
               else
                 && rest != [] && 0 < more < rest[0].qty && g.rem == 0
                 && (if side.Buy? then rest[0].price <= limit else rest[0].price >= limit)
                 && g.trades[|served|] == Trade(rest[0].price, more, rest[0].id, id, side)
                 && g.left == [Resting(rest[0].id, rest[0].price, rest[0].qty - more)] + rest[1..]
  {
    hide Greedy, Sum;
    served, rest := GreedyClosedForm(side, b.Queue(Opposite(side)), limit, qty, id);
    forall i | 0 <= i < |served|
      ensures Sum(served[..i]) < qty
    {
      StillWanted(served, qty, i);
    }
  }

  // Without a limit, shares are left wanted only when nobody is left; the remainder is dropped.
  lemma MarketServes(b: Book, side: Side, qty: Quantity, id: OrderId)
    requires forall x | x in (if side.Buy? then b.asks else b.bids) ::
               -0x8000_0000_0000_0000 <= x.price <= 0x7FFF_FFFF_FFFF_FFFF
    ensures var b' := SubmitMarket(b, side, qty, id);
            match side
            case Buy => b'.bids == b.bids && (Sum(b.asks) < qty ==> b'.asks == []) &&
                        (Sum(b.asks) >= qty ==> Sum(b'.asks) == Sum(b.asks) - qty)
            case Sell => b'.asks == b.asks && (Sum(b.bids) < qty ==> b'.bids == []) &&
                         (Sum(b.bids) >= qty ==> Sum(b'.bids) == Sum(b.bids) - qty)
  {
    hide Greedy, Sum, Traded;
    var q := b.Queue(Opposite(side));
    var limit := MarketLimit(side);
    var served, rest := MatchServes(b, side, limit, qty, id);
    GreedyConserves(side, q, limit, qty, id);
    SumAppend(served, rest);
    if rest != [] {
      assert rest[0] == q[|served|];
      SumAppend([rest[0]], rest[1..]);
      assert [rest[0]] + rest[1..] == rest;
      SumOne(rest[0]);
    } else {
      SumEmpty(rest);
    }
  }

  lemma SumOne(x: Resting)
    ensures Sum([x]) == x.qty
  {
    assert [x][1..] == [];
  }

  // ---- executing ----

  // left is q without its first d orders and `part` shares of the next one: together `fill` shares.
  ghost predicate Took(q: seq<Resting>, left: seq<Resting>, fill: Quantity, d: nat, part: Quantity) {
    && d <= |q| && Sum(q[..d]) + part == fill && (d > 0 && part == 0 ==> q[d - 1].qty > 0)
    && if part == 0 then left == q[d..]
       else d < |q| && part < q[d].qty && left == [Resting(q[d].id, q[d].price, q[d].qty - part)] + q[d + 1..]
  }

  lemma {:induction false} DrainTakes(lv: seq<Resting>, fill: Quantity) returns (d: nat, part: Quantity)
    requires fill <= Sum(lv)
    ensures Took(lv, Drain(lv, fill), fill, d, part)
  {
    if fill == 0 || lv == [] {
      d, part := 0, 0;
    } else if lv[0].qty <= fill {
      d, part := DrainTakes(lv[1..], fill - lv[0].qty);
      assert lv[..d + 1][1..] == lv[1..][..d];
      assert lv[1..][d..] == lv[d + 1..];
      d := d + 1;
    } else {
      d, part := 0, fill;
    }
  }

  lemma TookPrefix(lv: seq<Resting>, left: seq<Resting>, rest: seq<Resting>, fill: Quantity, d: nat, part: Quantity)
    requires Took(lv, left, fill, d, part)
    ensures Took(lv + rest, left + rest, fill, d, part)
  {
    assert (lv + rest)[..d] == lv[..d];
    assert lv[d..] + rest == (lv + rest)[d..];
    if part > 0 { assert lv[d + 1..] + rest == (lv + rest)[d + 1..]; }
  }

  lemma TookMore(q: seq<Resting>, next: seq<Resting>, left: seq<Resting>, fill: Quantity, more: Quantity, d: nat,
                 e: nat, part: Quantity)
    requires Took(q, next, fill, d, 0) && Took(next, left, more, e, part)
    ensures Took(q, left, fill + more, d + e, part)
  {
    hide Sum;
    assert q[..d + e] == q[..d] + next[..e];
    SumAppend(q[..d], next[..e]);
    assert next[e..] == q[d + e..];
    if part > 0 { assert next[e + 1..] == q[d + e + 1..]; }
  }

  lemma TookNothing(q: seq<Resting>)
    ensures Took(q, q, 0, 0, 0)
  {
  }

  // A level left in part had all the shares wanted.
  lemma PartOfLevel(lv: seq<Resting>, left: seq<Resting>, fill: Quantity, d: nat, part: Quantity)
    requires Took(lv, left, fill, d, part) && part > 0
    ensures fill < Sum(lv)
  {
    hide Sum;
    assert lv == lv[..d] + ([lv[d]] + lv[d + 1..]);
    SumAppend(lv[..d], [lv[d]] + lv[d + 1..]);
    SumAppend([lv[d]], lv[d + 1..]);
    SumOne(lv[d]);
  }

  // Stuck: nobody at the best price has shares.
  ghost predicate NoneAtBest(q: seq<Resting>) {
    forall i | 0 <= i < |q| && (forall k | 0 <= k <= i :: q[k].price == q[0].price) :: q[i].qty == 0
  }

  lemma EmptyLevel(lv: seq<Resting>, rest: seq<Resting>)
    requires lv != [] && Sum(lv) == 0
    requires rest == [] || rest[0].price != lv[0].price
    ensures NoneAtBest(lv + rest)
  {
    AllEmpty(lv);
    hide Sum;
    var q := lv + rest;
    assert rest != [] ==> q[|lv|] == rest[0];
    forall i | 0 <= i < |q| && (forall k | 0 <= k <= i :: q[k].price == q[0].price)
      ensures q[i].qty == 0
    {
      assert i < |lv|;
      assert q[i] == lv[i];
    }
  }

  lemma {:induction false} ExecuteRuns(q: seq<Resting>, qty: Quantity) returns (d: nat, part: Quantity)
    ensures var e := Execute(q, qty);
            && e.rem <= qty && Took(q, e.left, qty - e.rem, d, part)
            && (part > 0 ==> e.rem == 0) && (e.rem > 0 ==> NoneAtBest(e.left))
    decreases qty
  {
    hide Execute, Drain, Sum, Took, NoneAtBest;
    ExecuteStops(q, qty);
    TookNothing(q);
    d, part := 0, 0;
    if q == [] {
      NobodyAtBest();
    } else if qty > 0 {
      var n := LevelLen(q);
      LevelLenIs(q);
      var lv, rest := q[..n], q[n..];
      var fill := Min(qty, Sum(lv));
      assert q == lv + rest;
      ExecuteLevel(q, lv, rest, qty);
      if fill == 0 {
        EmptyLevel(lv, rest);
      } else {
        d, part := DrainTakes(lv, fill);
        var next := Drain(lv, fill) + rest;
        TookPrefix(lv, Drain(lv, fill), rest, fill, d, part);
        if part > 0 {
          PartOfLevel(lv, Drain(lv, fill), fill, d, part);
          ExecuteStops(next, 0);
        } else {
          var d', part' := ExecuteRuns(next, qty - fill);
          var e := Execute(next, qty - fill);
          TookMore(q, next, e.left, fill, qty - fill - e.rem, d, d', part');
          d, part := d + d', part';
        }
      }
    }
  }

  lemma NobodyAtBest()
    ensures NoneAtBest([])
  {
  }

  // The level-by-level execution takes from the front: d orders in full and then, when nothing more is
  // wanted, the next one in part. It ends with nothing wanted, nobody left, or a best level whose orders are
  // all empty; empty orders right behind the last one with shares stay.
  lemma ExecuteTakes(q: seq<Resting>, qty: Quantity) returns (d: nat, part: Quantity)
    ensures var e := Execute(q, qty);
            && d <= |q| && e.rem <= qty && Sum(q[..d]) + part == qty - e.rem
            && (d > 0 && part == 0 ==> q[d - 1].qty > 0)
            && (if part == 0 then e.left == q[d..]
                else e.rem == 0 && d < |q| && part < q[d].qty &&
                     e.left == [Resting(q[d].id, q[d].price, q[d].qty - part)] + q[d + 1..])
            && (e.rem > 0 ==>
                  forall i | 0 <= i < |e.left| && (forall k | 0 <= k <= i :: e.left[k].price == e.left[0].price) ::
                    e.left[i].qty == 0)
  {
    hide Execute, Sum;
    d, part := ExecuteRuns(q, qty);
  }

  lemma {:induction false} AllEmpty(q: seq<Resting>)
    requires Sum(q) == 0
    ensures forall i | 0 <= i < |q| :: q[i].qty == 0
  {
    if q != [] {
      AllEmpty(q[1..]);
      assert forall i | 1 <= i < |q| :: q[i] == q[1..][i - 1];
    }
  }

  // ---- depth ----

  // The best level, and the rest of the side behind it.
  lemma BestLevel(side: Side, q: seq<Resting>, n: nat) returns (lv: seq<Resting>, rest: seq<Resting>)
    requires Sorted(side, q) && q != [] && n > 0
    ensures q == lv + rest && lv != [] && Sorted(side, rest)
    ensures (forall x | x in lv :: x.price == q[0].price) && (forall x | x in rest :: Better(side, q[0].price, x.price))
    ensures Depth(q, n) == [DepthLevel(q[0].price, Sum(lv))] + Depth(rest, n - 1)
  {
    var m := LevelLen(q);
    LevelLenIs(q);
    lv, rest := q[..m], q[m..];
    assert q == lv + rest;
    DepthLevelFirst(lv, rest, n);
    forall x | x in rest
      ensures Better(side, q[0].price, x.price)
    {
      var i :| 0 <= i < |rest| && rest[i] == x;
      assert !Better(side, q[m + i].price, q[m].price) && !Better(side, q[m].price, q[0].price);
    }
  }

  lemma LevelAtPrice(lv: seq<Resting>, rest: seq<Resting>, p: Price, z: Price)
    requires (forall x | x in lv :: x.price == p) && (forall x | x in rest :: x.price != p)
    ensures AtPrice(lv + rest, z) == if z == p then lv else AtPrice(rest, z)
  {
    AtPriceConcat(lv, rest, z);
    AtPriceAll(lv, z);
    AtPriceAll(rest, p);
    assert lv + [] == lv && [] + AtPrice(rest, z) == AtPrice(rest, z);
  }

  // Each entry is a price of the side with everything that rests there.
  lemma {:induction false} DepthShows(side: Side, q: seq<Resting>, n: nat, k: nat)
    requires Sorted(side, q) && k < |Depth(q, n)|
    ensures var e := Depth(q, n)[k]; AtPrice(q, e.price) != [] && e.qty == Sum(AtPrice(q, e.price))
    decreases n
  {
    hide Sum;
    var lv, rest := BestLevel(side, q, n);
    hide Depth, Sorted;
    LevelAtPrice(lv, rest, q[0].price, Depth(q, n)[k].price);
    if k > 0 {
      DepthShows(side, rest, n - 1, k - 1);
      PriceOfSome(rest, Depth(rest, n - 1)[k - 1].price);
    }
  }

  ghost predicate Shown(d: seq<DepthLevel>, p: Price) {
    exists k | 0 <= k < |d| :: d[k].price == p
  }

  // The prices shown are the best ones: an order that is not shown is worse than each of them, and there are
  // as many as were asked for.
  lemma {:induction false} DepthIsBest(side: Side, q: seq<Resting>, n: nat, x: Resting, k: nat)
    requires Sorted(side, q) && x in q && !Shown(Depth(q, n), x.price)
    ensures |Depth(q, n)| == n && (k < n ==> Better(side, Depth(q, n)[k].price, x.price))
    decreases n
  {
    hide Sum, Shown;
    if n > 0 {
      var lv, rest := BestLevel(side, q, n);
      hide Sorted, Depth;
      ShownCons(DepthLevel(q[0].price, Sum(lv)), Depth(rest, n - 1), x.price);
      assert x in rest;
      DepthIsBest(side, rest, n - 1, x, if k > 0 then k - 1 else 0);
    }
  }

  lemma ShownCons(e: DepthLevel, d: seq<DepthLevel>, p: Price)
    ensures Shown([e] + d, p) <==> e.price == p || Shown(d, p)
  {
    var s := [e] + d;
    assert s[0] == e && forall k | 0 <= k < |d| :: s[k + 1] == d[k];
    if k :| 0 <= k < |s| && s[k].price == p {
      if k > 0 { assert d[k - 1].price == p; }
    }
    if k :| 0 <= k < |d| && d[k].price == p {
      assert s[k + 1].price == p;
    }
  }

  lemma {:induction false} PriceOfSome(q: seq<Resting>, p: Price)
    requires AtPrice(q, p) != []
    ensures exists x :: x in q && x.price == p
  {
    if q[0].price == p { assert q[0] in q; } else { PriceOfSome(q[1..], p); }
  }
}
