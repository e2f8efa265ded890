// What an order freezes, what is still frozen for it, and rounding to the precision of an asset.
//
// Prices and quantities count units of 10^-18; amounts of an asset count units of 10^-36, so that
// the product of a price and a quantity is an amount.
module Freeze {
  import opened Wrappers
  import opened Multiples
  import opened OrderStatus

  const ONE := 1_000_000_000_000_000_000

  // Divisions keep 16 digits: 10^-16 in units of 10^-36.
  const DIVISION_GRID := 100_000_000_000_000_000_000

  function Amount(quantity: int): int { quantity * ONE }

  datatype Side = Buy | Sell | NoSide

  datatype Pair = Pair(base: string, quote: string)

  type Unit = u: int | u > 0 witness 1

  // How symbols split into assets, and the smallest amount of each asset that is booked.
  datatype Rules = Rules(pair: string -> Option<Pair>, unit: string -> Unit)

  datatype Order = Order(
    id: nat, user: nat, client: string, symbol: string, side: Side, price: Option<int>, frozenAmount: Option<int>,
    quantity: int, filled: int, status: Status, version: nat)

  // Towards zero.
  function RoundDown(unit: Unit, v: int): int {
    if v >= 0 then Floor(unit, v) else Ceil(unit, v)
  }

  function RoundUp(unit: Unit, v: int): int {
    if v < 0 then v else Ceil(unit, v)
  }

  datatype FreezeSpec = FreezeSpec(asset: string, amount: int)

  function ComputeFreeze(rules: Rules, side: Side, symbol: string, price: Option<int>, quantity: int,
                         frozenAmount: Option<int>): Option<FreezeSpec> {
    var pair := rules.pair(symbol);
    if pair == None || quantity <= 0 then None
    else
      match side
      case Buy =>
        if frozenAmount.Some? then
          if frozenAmount.value > 0 then Some(FreezeSpec(pair.value.quote, frozenAmount.value)) else None
        else if price == None || price.value <= 0 then None
        else Some(FreezeSpec(pair.value.quote, price.value * quantity))
      case Sell => Some(FreezeSpec(pair.value.base, Amount(quantity)))
      case NoSide => None
  }

  // n / d rounded to the division grid, halves away from zero.
  function DivRound(n: int, d: int): int
    requires d > 0
  {
    var step := d * DIVISION_GRID;
    if n >= 0 then ((2 * n + step) / (2 * step)) * DIVISION_GRID
    else -(((2 * -n + step) / (2 * step)) * DIVISION_GRID)
  }

  const NOTHING := FreezeSpec("", 0)

  function RemainingFreeze(rules: Rules, o: Order): Option<FreezeSpec> {
    var pair := rules.pair(o.symbol);
    var remaining := if o.quantity - o.filled < 0 then 0 else o.quantity - o.filled;
    if pair == None then None
    else if remaining == 0 then Some(NOTHING)
    else
      match o.side
      case Sell => Some(FreezeSpec(pair.value.base, Amount(remaining)))
      case Buy =>
        if o.frozenAmount.Some? then
          if o.quantity <= 0 then Some(NOTHING)
          else Some(FreezeSpec(pair.value.quote, DivRound(o.frozenAmount.value * remaining, o.quantity)))
        else if o.price == None then None
        else Some(FreezeSpec(pair.value.quote, o.price.value * remaining))
      case NoSide => None
  }
}
