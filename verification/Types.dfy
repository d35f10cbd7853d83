// Basic vocabulary of the order book (include/types.hpp).
module Types {

  datatype Side = Buy | Sell

  // Fixed-point ticks, held in an int64_t.
  type Price = int
  type Quantity = nat
  type OrderId = nat

  const PRICE_MAX: Price := 0x7FFF_FFFF_FFFF_FFFF
  const PRICE_MIN: Price := -0x8000_0000_0000_0000

  // An execution. The price is the resting (maker) order's.
  datatype Trade = Trade(price: Price, quantity: Quantity, makerId: OrderId, takerId: OrderId, takerSide: Side)

  function Min(a: nat, b: nat): nat {
    if a <= b then a else b
  }

  function Opposite(side: Side): Side {
    if side.Buy? then Sell else Buy
  }
}
