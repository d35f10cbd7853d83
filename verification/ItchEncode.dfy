// The ITCH order messages as the exchange builds them: the layouts of the Nasdaq TotalView-ITCH 5.0
// specification, sections 1.3 and 1.4. What the software decodes of each is what was put in.
module ItchEncode {
  import opened Bytes
  import opened Messages
  import opened ItchDecode

  // The fields every message starts with, its type letter apart.
  datatype Stamp = Stamp(locate: nat, tracking: nat, time: nat)

  datatype Order =
    | Add(ref: nat, side: Byte, shares: nat, stock: seq<Byte>, price: nat)
    | AddMpid(ref: nat, side: Byte, shares: nat, stock: seq<Byte>, price: nat, mpid: seq<Byte>)
    | Executed(ref: nat, shares: nat, matchNo: nat)
    | ExecutedPrice(ref: nat, shares: nat, matchNo: nat, printable: Byte, price: nat)
    | Cancel(ref: nat, shares: nat)
    | Delete(ref: nat)
    | Replace(ref: nat, newRef: nat, shares: nat, price: nat)

  // Every field fits its width.
  predicate Encodable(t: Stamp, o: Order) {
    && t.time < Pow256(6) && o.ref < Pow256(8)
    && (o.Add? || o.AddMpid? ==> o.shares < Pow256(4) && o.price < Pow256(4) && |o.stock| == 8)
    && (o.AddMpid? ==> |o.mpid| == 4)
    && (o.Executed? || o.Cancel? ==> o.shares < Pow256(4))
    && (o.ExecutedPrice? ==> o.shares < Pow256(4) && o.price < Pow256(4))
    && (o.Replace? ==> o.newRef < Pow256(8) && o.shares < Pow256(4) && o.price < Pow256(4))
  }

  // Type, stock locate, tracking number and time stamp.
  function Start(letter: Byte, t: Stamp): (s: seq<Byte>)
    ensures |s| == 11
  {
    [letter] + Enc(2, t.locate) + Enc(2, t.tracking) + Enc(6, t.time)
  }

  function Encoded(t: Stamp, o: Order): seq<Byte> {
    match o
    case Add(ref, side, shares, stock, price) =>
      Start('A' as int, t) + Enc(8, ref) + [side] + Enc(4, shares) + stock + Enc(4, price)
    case AddMpid(ref, side, shares, stock, price, mpid) =>
      Start('F' as int, t) + Enc(8, ref) + [side] + Enc(4, shares) + stock + Enc(4, price) + mpid
    case Executed(ref, shares, matchNo) =>
      Start('E' as int, t) + Enc(8, ref) + Enc(4, shares) + Enc(8, matchNo)
    case ExecutedPrice(ref, shares, matchNo, printable, price) =>
      Start('C' as int, t) + Enc(8, ref) + Enc(4, shares) + Enc(8, matchNo) + [printable] + Enc(4, price)
    case Cancel(ref, shares) =>
      Start('X' as int, t) + Enc(8, ref) + Enc(4, shares)
    case Delete(ref) =>
      Start('D' as int, t) + Enc(8, ref)
    case Replace(ref, newRef, shares, price) =>
      Start('U' as int, t) + Enc(8, ref) + Enc(8, newRef) + Enc(4, shares) + Enc(4, price)
  }

  // A field that starts behind a, whatever follows it.
  lemma FieldAt(b: seq<Byte>, a: seq<Byte>, n: nat, v: nat, rest: seq<Byte>)
    requires b == a + Enc(n, v) + rest && v < Pow256(n)
    ensures Be(b[|a|..|a| + n]) == v
  {
    BeOfEnc(n, v);
    assert b[|a|..|a| + n] == Enc(n, v);
  }

  lemma StartFields(b: seq<Byte>, letter: Byte, t: Stamp, ref: nat, rest: seq<Byte>)
    requires b == Start(letter, t) + Enc(8, ref) + rest && t.time < Pow256(6) && ref < Pow256(8)
    ensures |b| == 19 + |rest| && b[0] == letter && Be(b[5..11]) == t.time && Be(b[11..19]) == ref && b[19..] == rest
  {
    hide Enc, Pow256, Be;
    var a := [letter] + Enc(2, t.locate) + Enc(2, t.tracking);
    assert b == a + Enc(6, t.time) + (Enc(8, ref) + rest);
    FieldAt(b, a, 6, t.time, Enc(8, ref) + rest);
    FieldAt(b, Start(letter, t), 8, ref, rest);
  }

  // A field at an offset behind the first nineteen bytes.
  lemma TailField(b: seq<Byte>, tail: seq<Byte>, a: seq<Byte>, n: nat, v: nat, rest: seq<Byte>)
    requires |b| == 19 + |tail| && b[19..] == tail && tail == a + Enc(n, v) + rest && v < Pow256(n)
    ensures Be(b[19 + |a|..19 + |a| + n]) == v
  {
    hide Enc, Pow256, Be;
    FieldAt(tail, a, n, v, rest);
    assert b[19 + |a|..19 + |a| + n] == tail[|a|..|a| + n];
  }

  // ---- what is decoded of them ----

  // How long a body of this type must be, and where its fields are, counted from the type letter.
  lemma Layouts(b: seq<Byte>)
    requires b != []
    ensures (b[0] == 'A' as int && |b| >= 36) || (b[0] == 'F' as int && |b| >= 40) ==>
              Decoded(b) == (true, Message(b[0], Be(b[5..11]), Be(b[11..19]), 0, b[19], Be(b[20..24]), Be(b[32..36]),
                                           b[24..32]))
    ensures (b[0] == 'E' as int && |b| >= 31) || (b[0] == 'X' as int && |b| >= 23) ==>
              Decoded(b) == (true, Message(b[0], Be(b[5..11]), Be(b[11..19]), 0, 0, Be(b[19..23]), 0, Zeros(8)))
    ensures b[0] == 'C' as int && |b| >= 36 ==>
              Decoded(b) == (true, Message(b[0], Be(b[5..11]), Be(b[11..19]), 0, 0, Be(b[19..23]), Be(b[32..36]),
                                           Zeros(8)))
    ensures b[0] == 'D' as int && |b| >= 19 ==>
              Decoded(b) == (true, Message(b[0], Be(b[5..11]), Be(b[11..19]), 0, 0, 0, 0, Zeros(8)))
    ensures b[0] == 'U' as int && |b| >= 35 ==>
              Decoded(b) == (true, Message(b[0], Be(b[5..11]), Be(b[11..19]), Be(b[19..27]), 0, Be(b[27..31]),
                                           Be(b[31..35]), Zeros(8)))
  {
    hide Be;
  }

  // The message an order message is about.
  function Meant(t: Stamp, o: Order): Message {
    match o
    case Add(ref, side, shares, stock, price) => Message('A' as int, t.time, ref, 0, side, shares, price, stock)
    case AddMpid(ref, side, shares, stock, price, _) => Message('F' as int, t.time, ref, 0, side, shares, price, stock)
    case Executed(ref, shares, _) => Message('E' as int, t.time, ref, 0, 0, shares, 0, Zeros(8))
    case ExecutedPrice(ref, shares, _, _, price) => Message('C' as int, t.time, ref, 0, 0, shares, price, Zeros(8))
    case Cancel(ref, shares) => Message('X' as int, t.time, ref, 0, 0, shares, 0, Zeros(8))
    case Delete(ref) => Message('D' as int, t.time, ref, 0, 0, 0, 0, Zeros(8))
    case Replace(ref, newRef, shares, price) => Message('U' as int, t.time, ref, newRef, 0, shares, price, Zeros(8))
  }

  lemma ShortDecoded(t: Stamp, o: Order, more: seq<Byte>)
    requires Encodable(t, o) && (o.Delete? || o.Cancel? || o.Executed?)
    ensures |Encoded(t, o)| == if o.Delete? then 19 else if o.Cancel? then 23 else 31
    ensures Decoded(Encoded(t, o) + more) == (true, Meant(t, o))
  {
    hide Enc, Pow256, Be, Start, Decoded;
    var b := Encoded(t, o) + more;
    Layouts(b);
    match o
    case Delete(ref) =>
      assert b == Start('D' as int, t) + Enc(8, ref) + more;
      StartFields(b, 'D' as int, t, ref, more);
    case Cancel(ref, shares) =>
      var tail := Enc(4, shares) + more;
      assert b == Start('X' as int, t) + Enc(8, ref) + tail;
      StartFields(b, 'X' as int, t, ref, tail);
      assert [] + Enc(4, shares) == Enc(4, shares);
      TailField(b, tail, [], 4, shares, more);
    case Executed(ref, shares, matchNo) =>
      var tail := Enc(4, shares) + (Enc(8, matchNo) + more);
      assert b == Start('E' as int, t) + Enc(8, ref) + tail;
      StartFields(b, 'E' as int, t, ref, tail);
      assert [] + Enc(4, shares) == Enc(4, shares);
      TailField(b, tail, [], 4, shares, Enc(8, matchNo) + more);
  }

  lemma PricedDecoded(t: Stamp, o: Order, more: seq<Byte>)
    requires Encodable(t, o) && o.ExecutedPrice?
    ensures |Encoded(t, o)| == 36 && Decoded(Encoded(t, o) + more) == (true, Meant(t, o))
  {
    hide Enc, Pow256, Be, Start, Decoded;
    var b := Encoded(t, o) + more;
    Layouts(b);
    var a := Enc(4, o.shares) + Enc(8, o.matchNo) + [o.printable];
    var tail := a + Enc(4, o.price) + more;
    assert b == Start('C' as int, t) + Enc(8, o.ref) + tail;
    StartFields(b, 'C' as int, t, o.ref, tail);
    var rest := Enc(8, o.matchNo) + [o.printable] + Enc(4, o.price) + more;
    assert tail == [] + Enc(4, o.shares) + rest;
    TailField(b, tail, [], 4, o.shares, rest);
    TailField(b, tail, a, 4, o.price, more);
  }

  lemma ReplaceDecoded(t: Stamp, o: Order, more: seq<Byte>)
    requires Encodable(t, o) && o.Replace?
    ensures |Encoded(t, o)| == 35 && Decoded(Encoded(t, o) + more) == (true, Meant(t, o))
  {
    hide Enc, Pow256, Be, Start, Decoded;
    var b := Encoded(t, o) + more;
    Layouts(b);
    var a := Enc(8, o.newRef) + Enc(4, o.shares);
    var tail := a + Enc(4, o.price) + more;
    assert b == Start('U' as int, t) + Enc(8, o.ref) + tail;
    StartFields(b, 'U' as int, t, o.ref, tail);
    var rest := Enc(4, o.shares) + Enc(4, o.price) + more;
    assert tail == [] + Enc(8, o.newRef) + rest;
    TailField(b, tail, [], 8, o.newRef, rest);
    assert tail == Enc(8, o.newRef) + Enc(4, o.shares) + (Enc(4, o.price) + more);
    TailField(b, tail, Enc(8, o.newRef), 4, o.shares, Enc(4, o.price) + more);
    TailField(b, tail, a, 4, o.price, more);
  }

  lemma AddDecoded(t: Stamp, o: Order, more: seq<Byte>)
    requires Encodable(t, o) && (o.Add? || o.AddMpid?)
    ensures |Encoded(t, o)| == if o.Add? then 36 else 40
    ensures Decoded(Encoded(t, o) + more) == (true, Meant(t, o))
  {
    hide Enc, Pow256, Be, Start, Decoded;
    var b := Encoded(t, o) + more;
    Layouts(b);
    if o.Add? {
      assert b == Start('A' as int, t) + Enc(8, o.ref) + AddTail(o, more);
      StartFields(b, 'A' as int, t, o.ref, AddTail(o, more));
      AddFields(b, o, more);
    } else {
      assert b == Start('F' as int, t) + Enc(8, o.ref) + AddTail(o, o.mpid + more);
      StartFields(b, 'F' as int, t, o.ref, AddTail(o, o.mpid + more));
      AddFields(b, o, o.mpid + more);
    }
  }

  function AddTail(o: Order, more: seq<Byte>): seq<Byte>
    requires o.Add? || o.AddMpid?
  {
    [o.side] + Enc(4, o.shares) + o.stock + Enc(4, o.price) + more
  }

  lemma AddFields(b: seq<Byte>, o: Order, more: seq<Byte>)
    requires (o.Add? || o.AddMpid?) && |o.stock| == 8 && o.shares < Pow256(4) && o.price < Pow256(4)
    requires |b| == 19 + |AddTail(o, more)| && b[19..] == AddTail(o, more)
    ensures b[19] == o.side && Be(b[20..24]) == o.shares && b[24..32] == o.stock && Be(b[32..36]) == o.price
  {
    hide Enc, Pow256, Be;
    var tail := AddTail(o, more);
    assert b[19] == tail[0];
    assert tail == [o.side] + Enc(4, o.shares) + (o.stock + Enc(4, o.price) + more);
    TailField(b, tail, [o.side], 4, o.shares, o.stock + Enc(4, o.price) + more);
    TailField(b, tail, [o.side] + Enc(4, o.shares) + o.stock, 4, o.price, more);
    assert b[24..32] == tail[5..13] == o.stock;
  }

  // Every order message is decoded to the message it is about, whatever follows it in the body.
  lemma OrderDecoded(t: Stamp, o: Order, more: seq<Byte>)
    requires Encodable(t, o)
    ensures 19 <= |Encoded(t, o)| <= 40 && Decoded(Encoded(t, o) + more) == (true, Meant(t, o))
  {
    hide Decoded, Encoded, Meant;
    match o
    case Add(_, _, _, _, _) => AddDecoded(t, o, more);
    case AddMpid(_, _, _, _, _, _) => AddDecoded(t, o, more);
    case ExecutedPrice(_, _, _, _, _) => PricedDecoded(t, o, more);
    case Replace(_, _, _, _) => ReplaceDecoded(t, o, more);
    case _ => ShortDecoded(t, o, more);
  }

  // A list of them, as it is sent and as it is decoded.
  datatype Stamped = Stamped(stamp: Stamp, order: Order)

  function EncodedAll(xs: seq<Stamped>): (ms: seq<seq<Byte>>)
    ensures |ms| == |xs|
  {
    seq(|xs|, k requires 0 <= k < |xs| => Encoded(xs[k].stamp, xs[k].order))
  }

  function MeantAll(xs: seq<Stamped>): (ms: seq<(bool, Message)>)
    ensures |ms| == |xs|
  {
    seq(|xs|, k requires 0 <= k < |xs| => (true, Meant(xs[k].stamp, xs[k].order)))
  }

  lemma OrdersDecoded(xs: seq<Stamped>)
    requires forall k | 0 <= k < |xs| :: Encodable(xs[k].stamp, xs[k].order)
    ensures DecodeAll(EncodedAll(xs)) == MeantAll(xs)
    ensures forall k | 0 <= k < |xs| :: 19 <= |EncodedAll(xs)[k]| <= 40
  {
    hide Encodable, Encoded, Meant, Decoded;
    forall k | 0 <= k < |xs|
      ensures Decoded(EncodedAll(xs)[k]) == MeantAll(xs)[k] && 19 <= |EncodedAll(xs)[k]| <= 40
    {
      var b := Encoded(xs[k].stamp, xs[k].order);
      OrderDecoded(xs[k].stamp, xs[k].order, []);
      assert b + [] == b;
    }
  }

  // A body that is too short for its letter, an empty one and one of any other type are not modeled.
  lemma NotModeled(b: seq<Byte>)
    requires || b == []
             || |b| < (match b[0] as char
                       case 'A' => 36
                       case 'F' => 40
                       case 'E' => 31
                       case 'C' => 36
                       case 'X' => 23
                       case 'D' => 19
                       case 'U' => 35
                       case _ => |b| + 1)
    ensures !Decoded(b).0
    ensures b != [] && b[0] as char in "AFECXDU" ==> Decoded(b).1 == Message(b[0], 0, 0, 0, 0, 0, 0, Zeros(8))
    ensures b != [] && b[0] as char !in "AFECXDU" ==>
              Decoded(b).1 == Message(b[0], if |b| < 11 then 0 else Be(b[5..11]), 0, 0, 0, 0, 0, Zeros(8))
  {
    hide Be;
  }
}
