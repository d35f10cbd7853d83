// What one ITCH message does to the book and to the counters, by its type letter. Prices are in 1/10000
// dollar; p is the same price in cents, rounded down.
module ReplayMeanings {
  import opened Types
  import opened Messages
  import opened BookSpec
  import opened BookLaws
  import opened BookMeanings
  import opened BookReplays

  // An Add of the target's symbol rests at its price in cents with its shares: a 'B' as a bid, any other side
  // byte as an offer.
  lemma AddMessage(lo: Price, hi: Price, target: seq<Bytes.Byte>, b: Book, m: Message, p: Price)
    returns (ahead: seq<Resting>, behind: seq<Resting>)
    requires m.kind == 'A' as int || m.kind == 'F' as int
    requires b.WellFormed() && m.rawStock == target && 100 * p <= m.price < 100 * p + 100 && lo <= p <= hi
    ensures var b' := Effect(lo, hi, target, b, m);
            if m.side == 'B' as int then
              && b.bids == ahead + behind && b'.asks == b.asks
              && b'.bids == ahead + [Resting(m.orderRef, p, m.shares)] + behind
              && (forall x | x in ahead :: x.price >= p) && (forall x | x in behind :: x.price < p)
            else
              && b.asks == ahead + behind && b'.bids == b.bids
              && b'.asks == ahead + [Resting(m.orderRef, p, m.shares)] + behind
              && (forall x | x in ahead :: x.price <= p) && (forall x | x in behind :: x.price > p)
  {
    hide Add;
    ahead, behind := AddRests(lo, hi, b, SideOf(m), p, m.shares, m.orderRef);
  }

  // An Add of another symbol, or at a price off the ladder, leaves the book alone.
  lemma AddIgnored(lo: Price, hi: Price, target: seq<Bytes.Byte>, b: Book, m: Message, p: Price)
    requires m.kind == 'A' as int || m.kind == 'F' as int
    requires 100 * p <= m.price < 100 * p + 100 && (m.rawStock != target || !(lo <= p <= hi))
    ensures Effect(lo, hi, target, b, m) == b
  {
  }

  // A Delete takes out exactly the order it names.
  lemma DeleteMessage(lo: Price, hi: Price, target: seq<Bytes.Byte>, b: Book, m: Message, side: Side, k: nat)
    requires m.kind == 'D' as int
    requires b.WellFormed() && k < |b.Queue(side)| && b.Queue(side)[k].id == m.orderRef
    ensures var b' := Effect(lo, hi, target, b, m);
            match side
            case Buy => b' == Book(b.bids[..k] + b.bids[k + 1..], b.asks)
            case Sell => b' == Book(b.bids, b.asks[..k] + b.asks[k + 1..])
  {
    hide Cancel;
    CancelTakesOut(b, side, k);
  }

  // A Cancel or an Execution lowers the shares of the order it names, at its rank; the order is gone when
  // nothing is left.
  lemma ReduceMessage(lo: Price, hi: Price, target: seq<Bytes.Byte>, b: Book, m: Message, side: Side, k: nat)
    requires m.kind == 'X' as int || m.kind == 'E' as int || m.kind == 'C' as int
    requires b.WellFormed() && k < |b.Queue(side)| && b.Queue(side)[k].id == m.orderRef
    ensures var b' := Effect(lo, hi, target, b, m);
            match side
            case Buy =>
              var x := b.bids[k];
              b' == if m.shares < x.qty
                    then Book(b.bids[k := Resting(x.id, x.price, x.qty - m.shares)], b.asks)
                    else Book(b.bids[..k] + b.bids[k + 1..], b.asks)
            case Sell =>
              var x := b.asks[k];
              b' == if m.shares < x.qty
                    then Book(b.bids, b.asks[k := Resting(x.id, x.price, x.qty - m.shares)])
                    else Book(b.bids, b.asks[..k] + b.asks[k + 1..])
  {
    hide Cancel, Modify, Find, Book.Has;
    var x := b.Queue(side)[k];
    FindIs(b, side, x);
    CancelTakesOut(b, side, k);
    if m.shares < x.qty { ModifyRequantifies(b, side, k, x.qty - m.shares); }
  }

  // A Replace takes out the order it names and rests the new one on the same side, at its own price with its
  // own shares and behind everybody at that price; off the ladder it only takes out.
  lemma ReplaceMessage(lo: Price, hi: Price, target: seq<Bytes.Byte>, b: Book, m: Message, side: Side, k: nat,
                       p: Price)
    returns (ahead: seq<Resting>, behind: seq<Resting>)
    requires m.kind == 'U' as int && 100 * p <= m.price < 100 * p + 100
    requires b.WellFormed() && k < |b.Queue(side)| && b.Queue(side)[k].id == m.orderRef
    ensures var b' := Effect(lo, hi, target, b, m);
            var rest := if lo <= p <= hi then [Resting(m.newOrderRef, p, m.shares)] else [];
            match side
            case Buy =>
              && b.bids[..k] + b.bids[k + 1..] == ahead + behind && b' == Book(ahead + rest + behind, b.asks)
              && (rest != [] ==>
                    (forall x | x in ahead :: x.price >= p) && (forall x | x in behind :: x.price < p))
            case Sell =>
              && b.asks[..k] + b.asks[k + 1..] == ahead + behind && b' == Book(b.bids, ahead + rest + behind)
              && (rest != [] ==>
                    (forall x | x in ahead :: x.price <= p) && (forall x | x in behind :: x.price > p))
  {
    hide Cancel, Add, Find, Book.Has, Apply;
    FindIs(b, side, b.Queue(side)[k]);
    CancelTakesOut(b, side, k);
    CancelKeeps(b, m.orderRef);
    var c := Cancel(b, m.orderRef);
    if lo <= p <= hi {
      ahead, behind := AddRests(lo, hi, c, side, p, m.shares, m.newOrderRef);
    } else {
      OffLadder(lo, hi, c, side, p, m.shares, m.newOrderRef);
      ahead, behind := c.Queue(side), [];
      assert ahead + [] + behind == ahead;
    }
  }

  lemma CancelKeeps(b: Book, id: OrderId)
    requires b.WellFormed()
    ensures Cancel(b, id).WellFormed()
  {
    OthersKeep(0, 0, b, OpCancel(id));
  }

  // A message that names no resting order, and one of any other type, leaves the book alone.
  lemma NothingNamed(lo: Price, hi: Price, target: seq<Bytes.Byte>, b: Book, m: Message)
    requires m.kind != 'A' as int && m.kind != 'F' as int
    requires (m.kind == 'D' as int || m.kind == 'X' as int || m.kind == 'E' as int || m.kind == 'C' as int
              || m.kind == 'U' as int) ==> !b.Has(m.orderRef)
    ensures Effect(lo, hi, target, b, m) == b
  {
    if !b.Has(m.orderRef) { UnknownId(b, m.orderRef, 0); }
  }

  // The counters: each message is seen, and the ones that changed the book are counted under what they did.
  lemma MessageCounts(lo: Price, hi: Price, target: seq<Bytes.Byte>, b: Book, c: Counts, m: Message, p: Price)
    requires 100 * p <= m.price < 100 * p + 100
    ensures var c' := Tally(lo, hi, target, b, c, m);
            && c'.seen == c.seen + 1
            && c'.added == c.added + (if (m.kind == 'A' as int || m.kind == 'F' as int) && m.rawStock == target
                                         && lo <= p <= hi && m.orderRef != 0 then 1 else 0)
            && c'.deleted == c.deleted + (if m.kind == 'D' as int && b.Has(m.orderRef) then 1 else 0)
            && c'.reduced == c.reduced + (if (m.kind == 'X' as int || m.kind == 'E' as int || m.kind == 'C' as int)
                                             && b.Has(m.orderRef) then 1 else 0)
            && c'.replaced == c.replaced + (if m.kind == 'U' as int && b.Has(m.orderRef)
                                               && lo <= p <= hi && m.newOrderRef != 0 then 1 else 0)
  {
  }
}
