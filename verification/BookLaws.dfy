// The whole book as a value, its operations, and what every run of operations keeps.
module BookLaws {
  import opened Types
  import opened BookSpec
  import opened ExecuteLaws

  datatype Book = Book(bids: seq<Resting>, asks: seq<Resting>) {
    function Queue(side: Side): seq<Resting> {
      if side.Buy? then bids else asks
    }

    function With(side: Side, q: seq<Resting>): Book {
      if side.Buy? then this.(bids := q) else this.(asks := q)
    }

    predicate Has(id: OrderId) {
      HasId(bids, id) || HasId(asks, id)
    }

    // Best bid strictly below best ask.
    predicate Uncrossed() {
      bids == [] || asks == [] || bids[0].price < asks[0].price
    }

    // Both sides in priority order and no id resting twice.
    ghost predicate WellFormed() {
      && Sorted(Buy, bids) && Sorted(Sell, asks)
      && UniqueIds(bids) && UniqueIds(asks)
      && forall i, j | 0 <= i < |bids| && 0 <= j < |asks| :: bids[i].id != asks[j].id
    }
  }

  // ---- operations; lo and hi are the ends of the price ladder ----

  function Add(lo: Price, hi: Price, b: Book, side: Side, price: Price, qty: Quantity, id: OrderId): Book {
    if lo <= price <= hi then b.With(side, Insert(side, b.Queue(side), Resting(id, price, qty))) else b
  }

  function Cancel(b: Book, id: OrderId): Book {
    Book(Remove(b.bids, id), Remove(b.asks, id))
  }

  function Modify(b: Book, id: OrderId, qty: Quantity): Book {
    Book(SetQty(b.bids, id, qty), SetQty(b.asks, id, qty))
  }

  function Match(b: Book, side: Side, limit: Price, qty: Quantity, id: OrderId): (Book, Fill) {
    var g := Greedy(side, b.Queue(Opposite(side)), limit, qty, id);
    (b.With(Opposite(side), g.left), g)
  }

  function SubmitLimit(lo: Price, hi: Price, b: Book, side: Side, price: Price, qty: Quantity, id: OrderId): Book {
    var (b', g) := Match(b, side, price, qty, id);
    if g.rem > 0 then Add(lo, hi, b', side, price, g.rem, id) else b'
  }

  function MarketLimit(side: Side): Price {
    if side.Buy? then PRICE_MAX else PRICE_MIN
  }

  function SubmitMarket(b: Book, side: Side, qty: Quantity, id: OrderId): Book {
    Match(b, side, MarketLimit(side), qty, id).0
  }

  function ExecuteMarket(b: Book, side: Side, qty: Quantity): Book {
    b.With(Opposite(side), Execute(b.Queue(Opposite(side)), qty).left)
  }

  // The order under an id, and its side.
  function Find(b: Book, id: OrderId): (r: (Side, Resting))
    requires b.Has(id)
    ensures r.1 in b.Queue(r.0) && r.1.id == id
  {
    if HasId(b.bids, id) then (Buy, Pick(b.bids, id)) else (Sell, Pick(b.asks, id))
  }

  function Pick(q: seq<Resting>, id: OrderId): (r: Resting)
    requires HasId(q, id)
    ensures r in q && r.id == id
  {
    if q[0].id == id then q[0] else
      assert HasId(q[1..], id) by { var i :| 0 <= i < |q| && q[i].id == id; assert q[1..][i - 1] == q[i]; }
      Pick(q[1..], id)
  }

  // Unique ids leave only one candidate.
  lemma FindIs(b: Book, side: Side, r: Resting)
    requires b.WellFormed() && r in b.Queue(side)
    ensures b.Has(r.id) && Find(b, r.id) == (side, r)
  {
    var i :| 0 <= i < |b.Queue(side)| && b.Queue(side)[i] == r;
    var f := Find(b, r.id);
    var j :| 0 <= j < |b.Queue(f.0)| && b.Queue(f.0)[j] == f.1;
  }

  // ---- runs ----

  datatype Op =
    | OpLimit(side: Side, price: Price, qty: Quantity, id: OrderId)
    | OpMarket(side: Side, qty: Quantity, id: OrderId)
    | OpExecute(side: Side, qty: Quantity)
    | OpCancel(id: OrderId)
    | OpModify(id: OrderId, qty: Quantity)

  function Apply(lo: Price, hi: Price, b: Book, op: Op): Book {
    match op
    case OpLimit(side, price, qty, id) => SubmitLimit(lo, hi, b, side, price, qty, id)
    case OpMarket(side, qty, id) => SubmitMarket(b, side, qty, id)
    case OpExecute(side, qty) => ExecuteMarket(b, side, qty)
    case OpCancel(id) => Cancel(b, id)
    case OpModify(id, qty) => Modify(b, id, qty)
  }

  function Run(lo: Price, hi: Price, b: Book, ops: seq<Op>): Book
    decreases |ops|
  {
    if ops == [] then b else Run(lo, hi, Apply(lo, hi, b, ops[0]), ops[1..])
  }

  // A remainder that rests does so under an id that is not resting by then.
  predicate RestsFresh(lo: Price, hi: Price, b: Book, side: Side, price: Price, qty: Quantity, id: OrderId) {
    var (b', g) := Match(b, side, price, qty, id);
    g.rem > 0 && lo <= price <= hi ==> !b'.Has(id)
  }

  ghost predicate FreshIds(lo: Price, hi: Price, b: Book, ops: seq<Op>)
    decreases |ops|
  {
    ops == [] ||
    ((ops[0].OpLimit? ==> RestsFresh(lo, hi, b, ops[0].side, ops[0].price, ops[0].qty, ops[0].id)) &&
     FreshIds(lo, hi, Apply(lo, hi, b, ops[0]), ops[1..]))
  }

  // ---- one queue giving way to another that lost a run of orders and keeps the rest in rank ----

  predicate SameRank(x: Resting, y: Resting) {
    x.id == y.id && x.price == y.price
  }

  // r is q without the d orders from rank k on; quantities may differ.
  ghost predicate Cut(q: seq<Resting>, r: seq<Resting>, k: nat, d: nat) {
    && k + d <= |q| && |r| == |q| - d
    && (forall i | 0 <= i < k :: SameRank(r[i], q[i]))
    && (forall i | k <= i < |r| :: SameRank(r[i], q[i + d]))
  }

  lemma CutKeeps(side: Side, q: seq<Resting>, r: seq<Resting>, k: nat, d: nat)
    requires Sorted(side, q) && UniqueIds(q) && Cut(q, r, k, d)
    ensures Sorted(side, r) && UniqueIds(r)
    ensures forall i | 0 <= i < |r| :: HasId(q, r[i].id)
    ensures r != [] ==> q != [] && !Better(side, r[0].price, q[0].price)
  {
    forall i, j | 0 <= i < j < |r|
      ensures !Better(side, r[j].price, r[i].price) && r[i].id != r[j].id
    {
      var i', j' := if i < k then i else i + d, if j < k then j else j + d;
      assert SameRank(r[i], q[i']) && SameRank(r[j], q[j']);
    }
    forall i | 0 <= i < |r|
      ensures HasId(q, r[i].id)
    {
      var i' := if i < k then i else i + d;
      assert SameRank(r[i], q[i']);
    }
    if r != [] {
      var i' := if 0 < k then 0 else d;
      assert SameRank(r[0], q[i']);
    }
  }

  lemma RemoveCuts(q: seq<Resting>, id: OrderId) returns (k: nat, d: nat)
    requires UniqueIds(q)
    ensures Cut(q, Remove(q, id), k, d)
  {
    if HasId(q, id) {
      k :| k < |q| && q[k].id == id;
      d := 1;
      RemoveAt(q, k);
    } else {
      RemoveAbsent(q, id);
      k, d := 0, 0;
    }
  }

  lemma GreedyCuts(taker: Side, q: seq<Resting>, limit: Price, qty: Quantity, takerId: OrderId) returns (d: nat)
    ensures Cut(q, Greedy(taker, q, limit, qty, takerId).left, 0, d)
  {
    hide Greedy, Sum, Needed, FullTrades;
    var served, rest := GreedyClosedForm(taker, q, limit, qty, takerId);
    d := |served|;
  }

  lemma {:induction false} DrainCuts(level: seq<Resting>, fill: Quantity) returns (d: nat)
    ensures Cut(level, Drain(level, fill), 0, d)
  {
    if fill != 0 && level != [] && level[0].qty <= fill {
      d := DrainCuts(level[1..], fill - level[0].qty);
      d := d + 1;
    } else {
      d := 0;
    }
  }

  lemma CutAgain(q: seq<Resting>, r: seq<Resting>, s: seq<Resting>, d: nat, e: nat)
    requires Cut(q, r, 0, d) && Cut(r, s, 0, e)
    ensures Cut(q, s, 0, d + e)
  {
    forall i | 0 <= i < |s|
      ensures SameRank(s[i], q[i + (d + e)])
    {
      assert SameRank(s[i], r[i + e]) && SameRank(r[i + e], q[i + e + d]);
    }
  }

  lemma CutPrefix(a: seq<Resting>, a': seq<Resting>, b: seq<Resting>, d: nat)
    requires Cut(a, a', 0, d)
    ensures Cut(a + b, a' + b, 0, d)
  {
    forall i | 0 <= i < |a' + b|
      ensures SameRank((a' + b)[i], (a + b)[i + d])
    {
      if i < |a'| { assert SameRank(a'[i], a[i + d]); }
    }
  }

  lemma {:induction false} ExecuteCuts(q: seq<Resting>, qty: Quantity) returns (d: nat)
    ensures Cut(q, Execute(q, qty).left, 0, d)
    decreases qty
  {
    if qty == 0 || q == [] || Min(qty, Sum(q[..LevelLen(q)])) == 0 {
      d := 0;
    } else {
      var level, rest := q[..LevelLen(q)], q[LevelLen(q)..];
      var fill := Min(qty, Sum(level));
      var next := Drain(level, fill) + rest;
      assert Execute(q, qty) == Execute(next, qty - fill);
      hide Execute, Drain, Sum;
      assert q == level + rest;
      var c := DrainCuts(level, fill);
      CutPrefix(level, Drain(level, fill), rest, c);
      var e := ExecuteCuts(next, qty - fill);
      CutAgain(q, next, Execute(next, qty - fill).left, c, e);
      d := c + e;
    }
  }

  // ---- what each operation keeps ----

  lemma CutBook(b: Book, b': Book, k: nat, d: nat, m: nat, e: nat)
    requires b.WellFormed() && Cut(b.bids, b'.bids, k, d) && Cut(b.asks, b'.asks, m, e)
    ensures b'.WellFormed() && (b.Uncrossed() ==> b'.Uncrossed())
    ensures forall id :: b'.Has(id) ==> b.Has(id)
  {
    hide Cut;
    CutKeeps(Buy, b.bids, b'.bids, k, d);
    CutKeeps(Sell, b.asks, b'.asks, m, e);
    forall i, j | 0 <= i < |b'.bids| && 0 <= j < |b'.asks|
      ensures b'.bids[i].id != b'.asks[j].id
    {
      assert HasId(b.bids, b'.bids[i].id) && HasId(b.asks, b'.asks[j].id);
    }
  }

  lemma CutSide(b: Book, side: Side, q: seq<Resting>, d: nat)
    requires b.WellFormed() && Cut(b.Queue(side), q, 0, d)
    ensures var b' := b.With(side, q);
            && b'.WellFormed() && (b.Uncrossed() ==> b'.Uncrossed())
            && forall id :: b'.Has(id) ==> b.Has(id)
  {
    if side.Buy? {
      CutBook(b, b.With(side, q), 0, d, 0, 0);
    } else {
      CutBook(b, b.With(side, q), 0, 0, 0, d);
    }
  }

  // Resting a fresh order keeps the book well formed; it stays uncrossed if and only if the order
  // does not reach the best price of the other side.
  lemma AddKeeps(lo: Price, hi: Price, b: Book, side: Side, price: Price, qty: Quantity, id: OrderId)
    requires b.WellFormed() && !b.Has(id)
    ensures var b' := Add(lo, hi, b, side, price, qty, id);
            var other := b.Queue(Opposite(side));
            && b'.WellFormed()
            && (b.Uncrossed() && lo <= price <= hi ==>
                  (b'.Uncrossed() <==> other == [] || !Crosses(side, other[0].price, price)))
            && (!(lo <= price <= hi) ==> b' == b)
  {
    if lo <= price <= hi {
      var q := b.Queue(side);
      var r := Resting(id, price, qty);
      InsertSorted(side, q, r);
      InsertUnique(side, q, r);
    }
  }

  lemma PutInside(a: seq<Resting>, r: Resting, b: seq<Resting>)
    requires UniqueIds(a + b) && !HasId(a + b, r.id)
    ensures var s := a + [r] + b;
            UniqueIds(s) && forall i | 0 <= i < |s| :: s[i].id == r.id || HasId(a + b, s[i].id)
  {
    var q, s, k := a + b, a + [r] + b, |a|;
    forall i | 0 <= i < |s|
      ensures i < k ==> s[i] == q[i]
      ensures i > k ==> s[i] == q[i - 1]
    {
    }
    forall i, j | 0 <= i < j < |s|
      ensures s[i].id != s[j].id
    {
      if i == k {
        assert q[j - 1].id != r.id;
      } else if j == k {
        assert q[i].id != r.id;
      } else {
        var i', j' := if i < k then i else i - 1, if j < k then j else j - 1;
        assert q[i'].id != q[j'].id;
      }
    }
    forall i | 0 <= i < |s|
      ensures s[i].id == r.id || HasId(q, s[i].id)
    {
      if i < k { assert q[i].id == s[i].id; } else if i > k { assert q[i - 1].id == s[i].id; }
    }
  }

  // The newcomer is first exactly when it improves on the best price; ids stay unique.
  lemma InsertUnique(side: Side, q: seq<Resting>, r: Resting)
    requires Sorted(side, q) && UniqueIds(q) && !HasId(q, r.id)
    ensures var s := Insert(side, q, r);
            && s != [] && UniqueIds(s)
            && (forall i | 0 <= i < |s| :: s[i].id == r.id || HasId(q, s[i].id))
            && s[0] == if q == [] || Better(side, r.price, q[0].price) then r else q[0]
  {
    var ahead, behind := InsertKeepsPriority(side, q, r);
    PutInside(ahead, r, behind);
  }

  lemma MatchKeeps(b: Book, side: Side, limit: Price, qty: Quantity, id: OrderId)
    requires b.WellFormed()
    ensures var b' := Match(b, side, limit, qty, id).0;
            && b'.WellFormed() && (b.Uncrossed() ==> b'.Uncrossed())
            && forall i :: b'.Has(i) ==> b.Has(i)
  {
    var d := GreedyCuts(side, b.Queue(Opposite(side)), limit, qty, id);
    CutSide(b, Opposite(side), Match(b, side, limit, qty, id).1.left, d);
  }

  // A remainder is left only when nobody on the other side would still trade with it.
  lemma {:induction false} RemainderDoesNotCross(taker: Side, q: seq<Resting>, limit: Price, qty: Quantity,
    takerId: OrderId)
    ensures var g := Greedy(taker, q, limit, qty, takerId);
            g.rem > 0 ==> g.left == [] || !Crosses(taker, g.left[0].price, limit)
  {
    hide Greedy;
    var served, rest := GreedyClosedForm(taker, q, limit, qty, takerId);
  }

  lemma LimitKeeps(lo: Price, hi: Price, b: Book, side: Side, price: Price, qty: Quantity, id: OrderId)
    requires b.WellFormed() && b.Uncrossed() && RestsFresh(lo, hi, b, side, price, qty, id)
    ensures var b' := SubmitLimit(lo, hi, b, side, price, qty, id);
            b'.WellFormed() && b'.Uncrossed()
  {
    hide Greedy;
    MatchKeeps(b, side, price, qty, id);
    var (b', g) := Match(b, side, price, qty, id);
    RemainderDoesNotCross(side, b.Queue(Opposite(side)), price, qty, id);
    if g.rem > 0 && lo <= price <= hi { AddKeeps(lo, hi, b', side, price, g.rem, id); }
  }

  // All operations but a limit order only take from the book.
  lemma OthersKeep(lo: Price, hi: Price, b: Book, op: Op)
    requires b.WellFormed() && !op.OpLimit?
    ensures var b' := Apply(lo, hi, b, op);
            && b'.WellFormed() && (b.Uncrossed() ==> b'.Uncrossed())
            && forall id :: b'.Has(id) ==> b.Has(id)
  {
    match op
    case OpMarket(side, qty, id) => MatchKeeps(b, side, MarketLimit(side), qty, id);
    case OpExecute(side, qty) =>
      var d := ExecuteCuts(b.Queue(Opposite(side)), qty);
      CutSide(b, Opposite(side), Execute(b.Queue(Opposite(side)), qty).left, d);
    case OpCancel(id) =>
      var k, d := RemoveCuts(b.bids, id);
      var m, e := RemoveCuts(b.asks, id);
      CutBook(b, Cancel(b, id), k, d, m, e);
    case OpModify(id, qty) =>
      CutBook(b, Modify(b, id, qty), 0, 0, 0, 0);
  }

  lemma ApplyKeeps(lo: Price, hi: Price, b: Book, op: Op)
    requires b.WellFormed() && b.Uncrossed()
    requires op.OpLimit? ==> RestsFresh(lo, hi, b, op.side, op.price, op.qty, op.id)
    ensures Apply(lo, hi, b, op).WellFormed() && Apply(lo, hi, b, op).Uncrossed()
  {
    if op.OpLimit? {
      LimitKeeps(lo, hi, b, op.side, op.price, op.qty, op.id);
    } else {
      OthersKeep(lo, hi, b, op);
    }
  }

  // Never crossed: every run from an uncrossed book, whatever the prices, quantities and order of
  // the operations, ends well formed and uncrossed.
  lemma {:induction false} RunKeeps(lo: Price, hi: Price, b: Book, ops: seq<Op>)
    requires b.WellFormed() && b.Uncrossed() && FreshIds(lo, hi, b, ops)
    ensures Run(lo, hi, b, ops).WellFormed() && Run(lo, hi, b, ops).Uncrossed()
    decreases |ops|
  {
    if ops != [] {
      ApplyKeeps(lo, hi, b, ops[0]);
      RunKeeps(lo, hi, Apply(lo, hi, b, ops[0]), ops[1..]);
    }
  }

  // ---- a book that numbers its own orders ----

  // An order under the book's next id, or any operation that only takes from the book.
  datatype NextOp = NextAdd(side: Side, price: Price, qty: Quantity) | NextOther(op: Op)

  ghost predicate IdsBelow(b: Book, n: OrderId) {
    forall id: OrderId :: b.Has(id) ==> id < n
  }

  function ApplyNext(lo: Price, hi: Price, b: Book, n: OrderId, op: NextOp): (Book, OrderId) {
    match op
    case NextAdd(side, price, qty) => (Add(lo, hi, b, side, price, qty, n), n + 1)
    case NextOther(o) => (Apply(lo, hi, b, o), n)
  }

  function RunNext(lo: Price, hi: Price, b: Book, n: OrderId, ops: seq<NextOp>): (Book, OrderId)
    decreases |ops|
  {
    if ops == [] then (b, n)
    else
      var (b', n') := ApplyNext(lo, hi, b, n, ops[0]);
      RunNext(lo, hi, b', n', ops[1..])
  }

  predicate OnlyTakes(ops: seq<NextOp>) {
    forall k | 0 <= k < |ops| :: ops[k].NextOther? ==> !ops[k].op.OpLimit?
  }

  lemma AddNextKeeps(lo: Price, hi: Price, b: Book, side: Side, price: Price, qty: Quantity, n: OrderId)
    requires b.WellFormed() && IdsBelow(b, n)
    ensures !b.Has(n)
    ensures var b' := Add(lo, hi, b, side, price, qty, n); b'.WellFormed() && IdsBelow(b', n + 1)
  {
    AddKeeps(lo, hi, b, side, price, qty, n);
    var q, r := b.Queue(side), Resting(n, price, qty);
    InsertUnique(side, q, r);
    hide Insert;
    forall id: OrderId | Add(lo, hi, b, side, price, qty, n).Has(id)
      ensures id < n + 1
    {
      if !b.Has(id) {
        var s := Insert(side, q, r);
        assert !HasId(q, id) && !HasId(b.Queue(Opposite(side)), id);
        assert HasId(s, id);
        var i :| 0 <= i < |s| && s[i].id == id;
      }
    }
  }

  // Its next id is never resting: every id it holds was handed out before.
  lemma {:induction false} NextIsFresh(lo: Price, hi: Price, b: Book, n: OrderId, ops: seq<NextOp>)
    requires b.WellFormed() && IdsBelow(b, n) && OnlyTakes(ops)
    ensures var (b', n') := RunNext(lo, hi, b, n, ops); b'.WellFormed() && IdsBelow(b', n') && !b'.Has(n')
    decreases |ops|
  {
    hide Add, Apply;
    if ops != [] {
      if ops[0].NextAdd? {
        AddNextKeeps(lo, hi, b, ops[0].side, ops[0].price, ops[0].qty, n);
      } else {
        OthersKeep(lo, hi, b, ops[0].op);
      }
      var (b', n') := ApplyNext(lo, hi, b, n, ops[0]);
      NextIsFresh(lo, hi, b', n', ops[1..]);
    }
  }

  // A limit order is split exactly: what the other side lost was traded, what this side gained is the
  // remainder, and the remainder is lost only when its price is off the ladder.
  lemma LimitConserves(lo: Price, hi: Price, b: Book, side: Side, price: Price, qty: Quantity, id: OrderId)
    requires b.WellFormed()
    ensures var b' := SubmitLimit(lo, hi, b, side, price, qty, id);
            var g := Match(b, side, price, qty, id).1;
            var other := Opposite(side);
            && Sum(b.Queue(other)) == Sum(b'.Queue(other)) + Traded(g.trades)
            && Sum(b'.Queue(side)) == Sum(b.Queue(side)) + (if lo <= price <= hi then g.rem else 0)
            && qty == Traded(g.trades) + g.rem
  {
    hide Greedy;
    GreedyConserves(side, b.Queue(Opposite(side)), price, qty, id);
    var q := b.Queue(side);
    var r := Resting(id, price, Match(b, side, price, qty, id).1.rem);
    var ahead, behind := InsertKeepsPriority(side, q, r);
    SumAppend(ahead, behind);
    SumAppend(ahead + [r], behind);
    SumAppend(ahead, [r]);
  }

  // ---- cancelling and modifying the order at the front ----

  lemma CancelFront(b: Book, side: Side)
    requires b.WellFormed() && b.Queue(side) != []
    ensures Cancel(b, b.Queue(side)[0].id) == b.With(side, b.Queue(side)[1..])
  {
    var q, other := b.Queue(side), b.Queue(Opposite(side));
    RemoveAt(q, 0);
    RemoveAbsent(other, q[0].id);
    assert q[..0] + q[1..] == q[1..];
  }

  lemma ModifyFront(b: Book, side: Side, n: Quantity)
    requires b.WellFormed() && b.Queue(side) != []
    ensures var q := b.Queue(side);
            Modify(b, q[0].id, n) == b.With(side, [q[0].(qty := n)] + q[1..])
  {
    var q, other := b.Queue(side), b.Queue(Opposite(side));
    assert SetQty(q, q[0].id, n) == [q[0].(qty := n)] + q[1..];
    assert SetQty(other, q[0].id, n) == other;
  }

  // Matching q for qty under way: these trades are done, and the rest is matching r for rem.
  ghost predicate Resumes(taker: Side, q: seq<Resting>, limit: Price, qty: Quantity, id: OrderId,
                          trades: seq<Trade>, r: seq<Resting>, rem: Quantity)
  {
    var g := Greedy(taker, r, limit, rem, id);
    Greedy(taker, q, limit, qty, id) == Fill(trades + g.trades, g.left, g.rem)
  }

  // The front maker after meeting a taker of this size.
  function AfterFill(q: seq<Resting>, rem: Quantity): seq<Resting>
    requires q != []
  {
    if q[0].qty <= rem then q[1..] else [q[0].(qty := q[0].qty - rem)] + q[1..]
  }

  lemma ResumesStart(taker: Side, q: seq<Resting>, limit: Price, qty: Quantity, id: OrderId)
    ensures Resumes(taker, q, limit, qty, id, [], q, qty)
  {
    var g := Greedy(taker, q, limit, qty, id);
    assert [] + g.trades == g.trades;
  }

  lemma RestsFreshIs(lo: Price, hi: Price, b: Book, side: Side, price: Price, qty: Quantity, id: OrderId)
    requires RestsFresh(lo, hi, b, side, price, qty, id)
    ensures var (b', g) := Match(b, side, price, qty, id);
            g.rem > 0 && lo <= price <= hi ==> !b'.Has(id)
  {
  }

  lemma LimitIs(lo: Price, hi: Price, b: Book, side: Side, price: Price, qty: Quantity, id: OrderId)
    ensures var (b', g) := Match(b, side, price, qty, id);
            SubmitLimit(lo, hi, b, side, price, qty, id) ==
            if g.rem > 0 then Add(lo, hi, b', side, price, g.rem, id) else b'
  {
  }

  lemma ResumesNext(taker: Side, q: seq<Resting>, limit: Price, qty: Quantity, id: OrderId,
                    trades: seq<Trade>, r: seq<Resting>, rem: Quantity)
    requires Resumes(taker, q, limit, qty, id, trades, r, rem)
    requires r != [] && rem > 0 && Crosses(taker, r[0].price, limit)
    ensures var f := Min(rem, r[0].qty);
            Resumes(taker, q, limit, qty, id, trades + [Trade(r[0].price, f, r[0].id, id, taker)], AfterFill(r, rem),
                    rem - f)
  {
    hide Greedy;
    var f := Min(rem, r[0].qty);
    var t := Trade(r[0].price, f, r[0].id, id, taker);
    var next := AfterFill(r, rem);
    var g := Greedy(taker, next, limit, rem - f, id);
    if r[0].qty <= rem {
      GreedyNext(taker, r, limit, rem, id);
    } else {
      GreedyPart(taker, r, limit, rem, id);
      GreedyStops(taker, next, limit, 0, id);
    }
    assert trades + ([t] + g.trades) == (trades + [t]) + g.trades;
  }

  lemma ResumesDone(taker: Side, q: seq<Resting>, limit: Price, qty: Quantity, id: OrderId,
                    trades: seq<Trade>, r: seq<Resting>, rem: Quantity)
    requires Resumes(taker, q, limit, qty, id, trades, r, rem) && StopsAt(taker, r, limit, rem)
    ensures Greedy(taker, q, limit, qty, id) == Fill(trades, r, rem)
  {
    GreedyStops(taker, r, limit, rem, id);
    assert trades + [] == trades;
  }

  // ---- executing level by level, under way ----

  // Taking from the head of a level is one step of draining it.
  lemma DrainNext(lv: seq<Resting>, rest: seq<Resting>, want: Quantity)
    requires lv != [] && want > 0
    ensures var f, next := Min(lv[0].qty, want), AfterFill(lv, want);
            && Drain(lv, want) == Drain(next, want - f)
            && Sum(next) == Sum(lv) - f && |next| + (want - f) < |lv| + want
            && AfterFill(lv + rest, want) == next + rest
            && forall i | 0 <= i < |next| :: exists j :: 0 <= j < |lv| && next[i].price == lv[j].price
  {
    var next := AfterFill(lv, want);
    if lv[0].qty <= want {
      assert (lv + rest)[1..] == lv[1..] + rest;
    } else {
      assert next[1..] == lv[1..];
    }
    forall i | 0 <= i < |next|
      ensures exists j :: 0 <= j < |lv| && next[i].price == lv[j].price
    {
      if lv[0].qty <= want { assert next[i].price == lv[i + 1].price; } else { assert next[i].price == lv[i].price; }
    }
  }

  lemma DrainDone(lv: seq<Resting>)
    ensures Drain(lv, 0) == lv
  {
  }

  // One level of an execution.
  lemma ExecuteLevel(q: seq<Resting>, lv: seq<Resting>, rest: seq<Resting>, qty: Quantity)
    requires qty > 0 && lv != [] && q == lv + rest && forall i | 0 <= i < |lv| :: lv[i].price == lv[0].price
    requires rest == [] || rest[0].price != lv[0].price
    ensures var fill := Min(qty, Sum(lv));
            Execute(q, qty) == if fill == 0 then Executed(q, qty) else Execute(Drain(lv, fill) + rest, qty - fill)
  {
    LevelLenOf(lv, rest);
    assert q[..|lv|] == lv && q[|lv|..] == rest;
  }

  lemma SumEmpty(q: seq<Resting>)
    ensures q == [] ==> Sum(q) == 0
  {
  }

  lemma ExecuteStops(q: seq<Resting>, qty: Quantity)
    ensures qty == 0 || q == [] ==> Execute(q, qty) == Executed(q, qty)
  {
  }

  // executeMarketOrder and submitMarket leave the same book if and only if the order goes through
  // every level it passes, and then the fill returned by the one is the total of the other's trades.
  lemma MarketOrdersAgree(b: Book, side: Side, qty: Quantity, id: OrderId)
    requires forall i | 0 <= i < |b.Queue(Opposite(side))| ::
               PRICE_MIN <= b.Queue(Opposite(side))[i].price <= PRICE_MAX
    ensures var q := b.Queue(Opposite(side));
            && (ExecuteMarket(b, side, qty) == SubmitMarket(b, side, qty, id) <==> GoesThrough(q, qty))
            && (GoesThrough(q, qty) ==>
                  qty - Execute(q, qty).rem == Traded(Match(b, side, MarketLimit(side), qty, id).1.trades))
  {
    ExecuteAgreesIff(side, b.Queue(Opposite(side)), MarketLimit(side), qty, id);
  }

  // ---- depth ----

  datatype DepthLevel = DepthLevel(price: Price, qty: Quantity)

  // The first n price levels of a side, best first, with their totals.
  function Depth(q: seq<Resting>, n: nat): seq<DepthLevel>
    decreases n
  {
    if n == 0 || q == [] then []
    else [DepthLevel(q[0].price, Sum(q[..LevelLen(q)]))] + Depth(q[LevelLen(q)..], n - 1)
  }

  lemma DepthLevelFirst(lv: seq<Resting>, rest: seq<Resting>, n: nat)
    requires n > 0 && lv != [] && forall i | 0 <= i < |lv| :: lv[i].price == lv[0].price
    requires rest == [] || rest[0].price != lv[0].price
    ensures Depth(lv + rest, n) == [DepthLevel(lv[0].price, Sum(lv))] + Depth(rest, n - 1)
  {
    LevelLenOf(lv, rest);
    assert (lv + rest)[..|lv|] == lv && (lv + rest)[|lv|..] == rest;
  }

  // The depth is at strictly worsening prices, and over enough levels it accounts for every share.
  lemma {:induction false} DepthIsTheSide(side: Side, q: seq<Resting>, n: nat)
    requires Sorted(side, q)
    ensures var d := Depth(q, n);
            && |d| <= n && (forall k | 0 <= k < |d| - 1 :: Better(side, d[k].price, d[k + 1].price))
            && (d != [] ==> d[0].price == q[0].price)
            && DepthTotal(d) <= Sum(q) && (|q| <= n ==> DepthTotal(d) == Sum(q))
    decreases n
  {
    if n > 0 && q != [] {
      var k := LevelLen(q);
      LevelLenIs(q);
      var lv, rest := q[..k], q[k..];
      DepthIsTheSide(side, rest, n - 1);
      assert q == lv + rest;
      SumAppend(lv, rest);
      var d, d' := Depth(q, n), Depth(rest, n - 1);
      assert d[1..] == d';
      forall j | 0 <= j < |d| - 1
        ensures Better(side, d[j].price, d[j + 1].price)
      {
        if j == 0 {
          assert d[1] == d'[0] && d'[0].price == q[k].price;
        } else {
          assert d[j] == d'[j - 1] && d[j + 1] == d'[j];
        }
      }
    }
  }

  function DepthTotal(d: seq<DepthLevel>): nat {
    if d == [] then 0 else d[0].qty + DepthTotal(d[1..])
  }
}
