// A decoded ITCH 5.0 order message (itch::Message of include/itch_parser.hpp).
module Messages {
  import opened Bytes

  datatype Message = Message(
    kind: Byte,
    timestamp: nat,
    orderRef: nat,
    newOrderRef: nat,   // Replace only
    side: Byte,         // Add only
    shares: nat,
    price: nat,
    rawStock: seq<Byte> // Add only: eight bytes, space padded
  )

  function Zeros(n: nat): (z: seq<Byte>)
    ensures |z| == n && forall i | 0 <= i < n :: z[i] == 0
  {
    seq(n, _ => 0)
  }

  // A default-constructed message of this type.
  function Blank(kind: Byte): Message {
    Message(kind, 0, 0, 0, 0, 0, 0, Zeros(8))
  }

  const TYPE_ADD: Byte := 'A' as int
  const TYPE_ADD_MPID: Byte := 'F' as int
  const TYPE_EXECUTED: Byte := 'E' as int
  const TYPE_EXECUTED_PRICE: Byte := 'C' as int
  const TYPE_CANCEL: Byte := 'X' as int
  const TYPE_DELETE: Byte := 'D' as int
  const TYPE_REPLACE: Byte := 'U' as int
  const SIDE_BUY: Byte := 'B' as int
}
