// Orders and trades of internal/matching/engine.  Prices, quantities and times are integers:
// prices and quantities count units of a fixed decimal grid, times count nanoseconds and 0 is
// the zero time.
module Orders {
  import opened Sorting
  import opened Wrappers

  datatype Side = Buy | Sell

  datatype OrderType = Limit | Market | UnknownType(code: int)

  datatype Order = Order(
    id: nat, clientId: string, symbol: string, createTime: int, updateTime: int,
    side: Side, typ: OrderType, price: int, quantity: int, remaining: int, flags: nat)

  // The three numbers a trade id is derived from.
  datatype TradeKey = TradeKey(commandSeq: nat, maker: nat, taker: nat)

  datatype Trade = Trade(
    key: TradeKey, symbol: string, createTime: int, price: int, quantity: int, maker: nat, taker: nat)

  const ZERO_TIME := 0

  function Sign(x: int): int { if x < 0 then -1 else if x > 0 then 1 else 0 }

  function Min(a: int, b: int): int { if a <= b then a else b }

  // Within one price, first by time, then by order id.
  function CompareTime(a: Order, b: Order): int {
    if a.updateTime != b.updateTime then Sign(a.updateTime - b.updateTime) else Sign(a.id - b.id)
  }

  // Asks: lowest price first.
  function CompareAsk(a: Order, b: Order): int {
    if a.price != b.price then Sign(a.price - b.price) else CompareTime(a, b)
  }

  // Bids: highest price first.
  function CompareBid(a: Order, b: Order): int {
    if a.price != b.price then Sign(b.price - a.price) else CompareTime(a, b)
  }

  function Comparator(side: Side): (Order, Order) -> int {
    if side == Buy then CompareBid else CompareAsk
  }

  lemma ComparatorsAreThreeWay()
    ensures ThreeWay(CompareAsk) && ThreeWay(CompareBid)
    ensures forall side :: ThreeWay(Comparator(side))
  {
  }

  // Orders with the same key have the same price, time and id; nothing else is compared.
  lemma SameKey(side: Side, a: Order, b: Order)
    ensures Comparator(side)(a, b) == 0 <==> a.price == b.price && a.updateTime == b.updateTime && a.id == b.id
  {
  }

  function Opposite(side: Side): Side { if side == Buy then Sell else Buy }
}
