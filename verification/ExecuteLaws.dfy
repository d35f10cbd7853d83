// executeMarketOrder and submitMarket consume the same side with two different loops. They leave the
// same book exactly when every level the order goes past ends in an order that has shares.
module ExecuteLaws {
  import opened Types
  import opened BookSpec

  ghost predicate AllCross(taker: Side, q: seq<Resting>, limit: Price) {
    forall i | 0 <= i < |q| :: Crosses(taker, q[i].price, limit)
  }

  lemma {:induction false} LevelLenIs(q: seq<Resting>)
    requires q != []
    ensures var n := LevelLen(q);
            && (forall i | 0 <= i < n :: q[i].price == q[0].price)
            && (n == |q| || q[n].price != q[0].price)
  {
    if |q| > 1 && q[1].price == q[0].price {
      LevelLenIs(q[1..]);
      forall i | 0 <= i < LevelLen(q)
        ensures q[i].price == q[0].price
      {
        if i > 0 { assert q[1..][i - 1].price == q[1].price; }
      }
    }
  }

  lemma {:induction false} LevelLenOf(a: seq<Resting>, b: seq<Resting>)
    requires a != [] && forall i | 0 <= i < |a| :: a[i].price == a[0].price
    requires b == [] || b[0].price != a[0].price
    ensures LevelLen(a + b) == |a|
  {
    if |a| > 1 {
      assert (a + b)[1..] == a[1..] + b;
      LevelLenOf(a[1..], b);
    } else if b != [] {
      assert (a + b)[1] == b[0];
    }
  }

  // Matching inside one level takes the same shares as draining it.
  lemma {:induction false} GreedyInsideLevel(taker: Side, level: seq<Resting>, rest: seq<Resting>, limit: Price,
                                             qty: Quantity, takerId: OrderId)
    requires AllCross(taker, level, limit) && qty <= Sum(level)
    ensures var g := Greedy(taker, level + rest, limit, qty, takerId);
            g.left == Drain(level, qty) + rest && g.rem == 0
  {
    hide Greedy;
    var q := level + rest;
    if qty == 0 {
      GreedyStops(taker, q, limit, qty, takerId);
    } else {
      assert q[0] == level[0] && q[1..] == level[1..] + rest;
      if level[0].qty <= qty {
        GreedyNext(taker, q, limit, qty, takerId);
        GreedyInsideLevel(taker, level[1..], rest, limit, qty - level[0].qty, takerId);
      } else {
        GreedyPart(taker, q, limit, qty, takerId);
      }
    }
  }

  // Matching more than a level holds removes the whole level and goes on.
  lemma {:induction false} GreedyPastLevel(taker: Side, level: seq<Resting>, rest: seq<Resting>, limit: Price,
                                           qty: Quantity, takerId: OrderId)
    requires AllCross(taker, level, limit) && Sum(level) < qty
    ensures var g := Greedy(taker, level + rest, limit, qty, takerId);
            var h := Greedy(taker, rest, limit, qty - Sum(level), takerId);
            g.left == h.left && g.rem == h.rem
  {
    hide Greedy;
    var q := level + rest;
    if level == [] {
      assert q == rest;
    } else {
      assert q[0] == level[0] && q[1..] == level[1..] + rest;
      GreedyNext(taker, q, limit, qty, takerId);
      GreedyPastLevel(taker, level[1..], rest, limit, qty - level[0].qty, takerId);
    }
  }

  // Draining all the shares of a level leaves its trailing empty orders behind.
  lemma {:induction false} DrainAll(level: seq<Resting>) returns (k: nat)
    ensures k <= |level| && Drain(level, Sum(level)) == level[k..] && Sum(level[k..]) == 0
    ensures k == |level| <==> level == [] || level[|level| - 1].qty > 0
  {
    if Sum(level) == 0 {
      k := 0;
      if level != [] { SumOfLast(level); }
    } else {
      k := DrainAll(level[1..]);
      k := k + 1;
      assert level[k..] == level[1..][k - 1..];
    }
  }

  lemma {:induction false} SumOfLast(q: seq<Resting>)
    requires q != []
    ensures q[|q| - 1].qty <= Sum(q)
  {
    if |q| > 1 { SumOfLast(q[1..]); }
  }

  lemma {:induction false} GreedyNeverGrows(taker: Side, q: seq<Resting>, limit: Price, qty: Quantity, takerId: OrderId)
    ensures |Greedy(taker, q, limit, qty, takerId).left| <= |q|
  {
    if !(qty == 0 || q == [] || !Crosses(taker, q[0].price, limit)) && q[0].qty <= qty {
      GreedyNeverGrows(taker, q[1..], limit, qty - q[0].qty, takerId);
    }
  }

  // Checkable before the call: every level that the order is large enough to go past ends in an
  // order with shares. In particular it holds when no resting order is empty.
  predicate GoesThrough(q: seq<Resting>, qty: Quantity)
    decreases |q|
  {
    q == [] ||
    var n := LevelLen(q);
    (Sum(q[..n]) < qty ==> q[n - 1].qty > 0 && GoesThrough(q[n..], qty - Sum(q[..n])))
  }

  lemma {:induction false} PositiveGoesThrough(q: seq<Resting>, qty: Quantity)
    requires forall i | 0 <= i < |q| :: q[i].qty > 0
    ensures GoesThrough(q, qty)
    decreases |q|
  {
    if q != [] {
      var n := LevelLen(q);
      if Sum(q[..n]) < qty { PositiveGoesThrough(q[n..], qty - Sum(q[..n])); }
    }
  }

  // A level without shares stops the execution in front of it.
  lemma ExecuteStuck(z: seq<Resting>, rest: seq<Resting>, qty: Quantity)
    requires z != [] && Sum(z) == 0 && forall i | 0 <= i < |z| :: z[i].price == z[0].price
    requires rest == [] || rest[0].price != z[0].price
    ensures Execute(z + rest, qty) == Executed(z + rest, qty)
  {
    LevelLenOf(z, rest);
    assert (z + rest)[..|z|] == z;
  }

  lemma ExecuteStep(q: seq<Resting>, qty: Quantity)
    requires q != [] && 0 < Sum(q[..LevelLen(q)]) < qty
    ensures var level, rest := q[..LevelLen(q)], q[LevelLen(q)..];
            Execute(q, qty) == Execute(Drain(level, Sum(level)) + rest, qty - Sum(level))
  {
  }

  // Going past a level: the execution continues behind it, or is stuck on the empty orders left in it.
  lemma ExecutePastLevel(q: seq<Resting>, qty: Quantity)
    requires q != [] && Sum(q[..LevelLen(q)]) < qty
    ensures var n := LevelLen(q);
            if q[n - 1].qty > 0 then Execute(q, qty) == Execute(q[n..], qty - Sum(q[..n]))
            else |Execute(q, qty).left| > |q[n..]|
  {
    var n := LevelLen(q);
    var level, rest := q[..n], q[n..];
    if Sum(level) == 0 {
      SumOfLast(level);
      assert Execute(q, qty) == Executed(q, qty);
    } else {
      ExecuteStep(q, qty);
      LeftInLevel(q, qty);
    }
  }

  lemma LeftInLevel(q: seq<Resting>, qty: Quantity)
    requires q != [] && Sum(q[..LevelLen(q)]) < qty
    ensures var n := LevelLen(q);
            var level, rest := q[..n], q[n..];
            var next := Drain(level, Sum(level)) + rest;
            if q[n - 1].qty > 0 then next == rest
            else Execute(next, qty - Sum(level)).left == next && |next| > |rest|
  {
    var n := LevelLen(q);
    LevelLenIs(q);
    var level, rest := q[..n], q[n..];
    var k := DrainAll(level);
    var z := level[k..];
    if z == [] {
      assert z + rest == rest;
    } else {
      ExecuteStuck(z, rest, qty - Sum(level));
    }
  }

  // With all prices accepted, the two loops leave the same book if and only if the order goes through,
  // and then the returned fill is the total of the trades.
  lemma {:induction false} ExecuteAgreesIff(taker: Side, q: seq<Resting>, limit: Price, qty: Quantity, takerId: OrderId)
    requires AllCross(taker, q, limit)
    ensures var e, g := Execute(q, qty), Greedy(taker, q, limit, qty, takerId);
            && (e.left == g.left <==> GoesThrough(q, qty))
            && (GoesThrough(q, qty) ==> qty - e.rem == Traded(g.trades))
    decreases |q|
  {
    hide Greedy, Drain, Execute, GoesThrough, Sum;
    if q == [] {
      AgreesEmpty(taker, limit, qty, takerId);
    } else {
      var n := LevelLen(q);
      if Sum(q[..n]) < qty {
        ExecuteAgreesIff(taker, q[n..], limit, qty - Sum(q[..n]), takerId);
        AgreesPastLevel(taker, q, limit, qty, takerId);
      } else {
        AgreesInsideLevel(taker, q, limit, qty, takerId);
      }
    }
  }

  lemma AgreesEmpty(taker: Side, limit: Price, qty: Quantity, takerId: OrderId)
    ensures Execute([], qty) == Executed([], qty) && GoesThrough([], qty)
    ensures Greedy(taker, [], limit, qty, takerId) == Fill([], [], qty)
  {
  }

  lemma AgreesInsideLevel(taker: Side, q: seq<Resting>, limit: Price, qty: Quantity, takerId: OrderId)
    requires AllCross(taker, q, limit) && q != [] && qty <= Sum(q[..LevelLen(q)])
    ensures var e, g := Execute(q, qty), Greedy(taker, q, limit, qty, takerId);
            e.left == g.left && e.rem == 0 && GoesThrough(q, qty) && qty == Traded(g.trades)
  {
    hide Greedy, Drain, Execute;
    var level, rest := q[..LevelLen(q)], q[LevelLen(q)..];
    assert q == level + rest;
    GreedyInsideLevel(taker, level, rest, limit, qty, takerId);
    GreedyConserves(taker, q, limit, qty, takerId);
    ExecuteInsideLevel(q, qty);
  }

  lemma ExecuteInsideLevel(q: seq<Resting>, qty: Quantity)
    requires q != [] && qty <= Sum(q[..LevelLen(q)])
    ensures Execute(q, qty) == Executed(Drain(q[..LevelLen(q)], qty) + q[LevelLen(q)..], 0)
  {
    if qty == 0 { assert q[..LevelLen(q)] + q[LevelLen(q)..] == q; }
  }

  lemma AgreesPastLevel(taker: Side, q: seq<Resting>, limit: Price, qty: Quantity, takerId: OrderId)
    requires AllCross(taker, q, limit) && q != [] && Sum(q[..LevelLen(q)]) < qty
    requires var rest, more := q[LevelLen(q)..], qty - Sum(q[..LevelLen(q)]);
             var e, g := Execute(rest, more), Greedy(taker, rest, limit, more, takerId);
             && (e.left == g.left <==> GoesThrough(rest, more))
             && (GoesThrough(rest, more) ==> more - e.rem == Traded(g.trades))
    ensures var e, g := Execute(q, qty), Greedy(taker, q, limit, qty, takerId);
            && (e.left == g.left <==> GoesThrough(q, qty))
            && (GoesThrough(q, qty) ==> qty - e.rem == Traded(g.trades))
  {
    hide Execute, Greedy, GoesThrough, Drain, Sum, Traded;
    var n := LevelLen(q);
    var level, rest := q[..n], q[n..];
    var more := qty - Sum(level);
    assert q == level + rest;
    GreedyPastLevel(taker, level, rest, limit, qty, takerId);
    GreedyConserves(taker, q, limit, qty, takerId);
    GreedyConserves(taker, rest, limit, more, takerId);
    GreedyNeverGrows(taker, rest, limit, more, takerId);
    ExecutePastLevel(q, qty);
    GoesThroughPastLevel(q, qty);
  }

  lemma GoesThroughPastLevel(q: seq<Resting>, qty: Quantity)
    requires q != [] && Sum(q[..LevelLen(q)]) < qty
    ensures var n := LevelLen(q);
            GoesThrough(q, qty) <==> q[n - 1].qty > 0 && GoesThrough(q[n..], qty - Sum(q[..n]))
  {
  }

  // The smallest book on which the two differ: an order emptied by modifyOrder shields the level behind it.
  lemma ExecuteDiffers()
    ensures var q := [Resting(1, 100, 0), Resting(2, 101, 5)];
            && Execute(q, 5) == Executed(q, 5)
            && Greedy(Buy, q, PRICE_MAX, 5, 9).left == []
            && Traded(Greedy(Buy, q, PRICE_MAX, 5, 9).trades) == 5
  {
    var a, b := Resting(1, 100, 0), Resting(2, 101, 5);
    var q := [a, b];
    assert q[..1] == [a] && q[1..] == [b] && [b][1..] == [];
    var t := Trade(101, 5, 2, 9, Buy);
    assert Greedy(Buy, [], PRICE_MAX, 0, 9) == Fill([], [], 0);
    assert [t] + [] == [t];
    assert Greedy(Buy, [b], PRICE_MAX, 5, 9) == Fill([t], [], 0);
    GreedyConserves(Buy, q, PRICE_MAX, 5, 9);
  }
}
