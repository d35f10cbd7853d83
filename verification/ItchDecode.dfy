// The software ITCH parser (include/itch_parser.hpp): the message layouts of Nasdaq TotalView-ITCH 5.0,
// and the walk over a buffer of length-prefixed messages.
module ItchDecode {
  import opened Bytes
  import opened Messages
  import opened FrameBuild

  // rdU48 and rdU64: a loop of shifts over n bytes.
  method ReadBe(b: seq<Byte>, off: nat, n: nat) returns (v: nat)
    requires off + n <= |b|
    ensures v == Be(b[off..off + n])
  {
    v := 0;
    var i := 0;
    while i < n
      invariant 0 <= i <= n && v == Be(b[off..off + i])
    {
      assert b[off..off + i + 1][..i] == b[off..off + i];
      v := v * 256 + b[off + i];
      i := i + 1;
    }
  }

  predicate Known(kind: Byte) {
    || kind == TYPE_ADD || kind == TYPE_ADD_MPID || kind == TYPE_EXECUTED || kind == TYPE_EXECUTED_PRICE
    || kind == TYPE_CANCEL || kind == TYPE_DELETE || kind == TYPE_REPLACE
  }

  // What decode leaves behind: whether the message is modeled, and the message. An empty body leaves the
  // caller's message alone.
  function Decode(b: seq<Byte>, m: Message): (bool, Message) {
    if |b| < 1 then (false, m)
    else
      var blank := Blank(b[0]);
      if b[0] == TYPE_ADD || b[0] == TYPE_ADD_MPID then
        if |b| < (if b[0] == TYPE_ADD then 36 else 40) then (false, blank)
        else
          (true, blank.(timestamp := Be(b[5..11]), orderRef := Be(b[11..19]), side := b[19],
                        shares := Be(b[20..24]), rawStock := b[24..32], price := Be(b[32..36])))
      else if b[0] == TYPE_EXECUTED then
        if |b| < 31 then (false, blank)
        else (true, blank.(timestamp := Be(b[5..11]), orderRef := Be(b[11..19]), shares := Be(b[19..23])))
      else if b[0] == TYPE_EXECUTED_PRICE then
        if |b| < 36 then (false, blank)
        else
          (true, blank.(timestamp := Be(b[5..11]), orderRef := Be(b[11..19]), shares := Be(b[19..23]),
                        price := Be(b[32..36])))
      else if b[0] == TYPE_CANCEL then
        if |b| < 23 then (false, blank)
        else (true, blank.(timestamp := Be(b[5..11]), orderRef := Be(b[11..19]), shares := Be(b[19..23])))
      else if b[0] == TYPE_DELETE then
        if |b| < 19 then (false, blank)
        else (true, blank.(timestamp := Be(b[5..11]), orderRef := Be(b[11..19])))
      else if b[0] == TYPE_REPLACE then
        if |b| < 35 then (false, blank)
        else
          (true, blank.(timestamp := Be(b[5..11]), orderRef := Be(b[11..19]), newOrderRef := Be(b[19..27]),
                        shares := Be(b[27..31]), price := Be(b[31..35])))
      else if |b| >= 11 then (false, blank.(timestamp := Be(b[5..11])))
      else (false, blank)
  }

  // The decode of a body into a fresh message.
  function Decoded(b: seq<Byte>): (bool, Message) {
    Decode(b, Blank('?' as int))
  }

  function DecodeAll(bodies: seq<seq<Byte>>): seq<(bool, Message)> {
    seq(|bodies|, k requires 0 <= k < |bodies| => Decoded(bodies[k]))
  }

  // The modeled messages of a list, in order.
  function Modeled(ds: seq<(bool, Message)>): seq<Message> {
    if ds == [] then [] else (if ds[0].0 then [ds[0].1] else []) + Modeled(ds[1..])
  }

  lemma ModeledNext(ds: seq<(bool, Message)>)
    ensures ds == [] ==> Modeled(ds) == []
    ensures ds != [] ==> Modeled(ds) == (if ds[0].0 then [ds[0].1] else []) + Modeled(ds[1..])
  {
  }

  lemma {:induction false} ModeledConcat(a: seq<(bool, Message)>, b: seq<(bool, Message)>)
    ensures Modeled(a + b) == Modeled(a) + Modeled(b)
  {
    hide Modeled;
    ModeledNext(a);
    if a == [] {
      assert a + b == b;
    } else {
      ModeledNext(a + b);
      assert (a + b)[1..] == a[1..] + b;
      ModeledConcat(a[1..], b);
    }
  }

  // The callback sees the modeled messages of the framed bodies, in order; the result is how many.
  method ParseBuffer(data: seq<Byte>) returns (count: nat, seen: seq<Message>)
    ensures seen == Modeled(DecodeAll(Split(data))) && count == |seen|
  {
    hide Split, Decoded, Modeled;
    var off: nat := 0;
    count, seen := 0, [];
    ghost var done: seq<seq<Byte>> := [];
    assert data[0..] == data;
    NoneModeled();
    while off + 2 <= |data|
      invariant off <= |data| && Split(data) == done + Split(data[off..])
      invariant seen == Modeled(DecodeAll(done)) && count == |seen|
    {
      var len := U16(data, off);
      SplitNext(data, off);
      if len == 0 || off + 2 + len > |data| {
        break;
      }
      var (ok, m) := Decoded(data[off + 2..off + 2 + len]);
      ModeledStep(done, data[off + 2..off + 2 + len]);
      if ok {
        seen, count := seen + [m], count + 1;
      }
      done := done + [data[off + 2..off + 2 + len]];
      off := off + 2 + len;
    }
    if off + 2 > |data| { SplitShort(data[off..]); }
    assert done + [] == done;
  }

  lemma NoneModeled()
    ensures Modeled(DecodeAll([])) == []
  {
  }

  lemma ModeledStep(done: seq<seq<Byte>>, body: seq<Byte>)
    ensures Modeled(DecodeAll(done + [body])) ==
            Modeled(DecodeAll(done)) + if Decoded(body).0 then [Decoded(body).1] else []
  {
    hide Decoded;
    assert DecodeAll(done + [body]) == DecodeAll(done) + [Decoded(body)];
    ModeledConcat(DecodeAll(done), [Decoded(body)]);
    assert [Decoded(body)][1..] == [];
  }
}
