// Orders as protobuf messages.  A decimal field is absent (nil or empty), unparsable, or the
// text of a number.
module Convert {
  import opened Orders

  datatype PbDecimal = Absent | Unparsable | Text(value: int)
  datatype PbSide = PbNoSide | PbBuy | PbSell
  datatype PbType = PbNoType | PbLimit | PbMarket
  datatype PbOrder = PbOrder(
    id: nat, clientId: string, symbol: string, createTime: int, updateTime: int,
    side: PbSide, typ: PbType, price: PbDecimal, quantity: PbDecimal, remaining: PbDecimal, flags: nat)

  datatype ConvertError =
    | NoOrderId
    | NoSymbol
    | BadSide
    | BadType
    | Missing(field: string)
    | Invalid(field: string)
    | NotPositive(field: string)

  datatype Converted<+T> = Done(value: T) | Rejected(error: ConvertError) {
    predicate IsFailure() { Rejected? }
    function PropagateFailure<U>(): Converted<U> requires Rejected? { Rejected(error) }
    function Extract(): T requires Done? { value }
  }

  function DecimalFromProto(d: PbDecimal, field: string): Converted<int> {
    match d
    case Absent => Rejected(Missing(field))
    case Unparsable => Rejected(Invalid(field))
    case Text(v) => if v > 0 then Done(v) else Rejected(NotPositive(field))
  }

  // A limit order needs a price; a market order may leave it out.
  function PriceFromProto(pb: PbOrder): Converted<int> {
    if pb.typ == PbMarket && pb.price == Absent then Done(0) else DecimalFromProto(pb.price, "price")
  }

  // A missing remainder, and one that is not positive, stand for the whole quantity.
  function RemainingFromProto(d: PbDecimal, quantity: int): Converted<int> {
    match d
    case Absent => Done(quantity)
    case Unparsable => Rejected(Invalid("remaining"))
    case Text(v) => Done(if v > 0 then v else quantity)
  }

  function SideFromProto(s: PbSide): Converted<Side> {
    match s case PbBuy => Done(Buy) case PbSell => Done(Sell) case PbNoSide => Rejected(BadSide)
  }

  function TypeFromProto(t: PbType): Converted<OrderType> {
    match t case PbLimit => Done(Limit) case PbMarket => Done(Market) case PbNoType => Rejected(BadType)
  }

  function OrderFromProto(pb: PbOrder): Converted<Order> {
    if pb.id == 0 then Rejected(NoOrderId)
    else if pb.symbol == "" then Rejected(NoSymbol)
    else
      var side :- SideFromProto(pb.side);
      var typ :- TypeFromProto(pb.typ);
      var price :- PriceFromProto(pb);
      var quantity :- DecimalFromProto(pb.quantity, "quantity");
      var remaining :- RemainingFromProto(pb.remaining, quantity);
      Done(Order(pb.id, pb.clientId, pb.symbol, pb.createTime, pb.updateTime, side, typ, price, quantity,
                 remaining, pb.flags))
  }

  function OrderToProto(o: Order): PbOrder {
    PbOrder(o.id, o.clientId, o.symbol, o.createTime, o.updateTime,
            if o.side == Buy then PbBuy else PbSell,
            match o.typ case Limit => PbLimit case Market => PbMarket case UnknownType(_) => PbNoType,
            Text(o.price), Text(o.quantity), Text(if o.remaining > 0 then o.remaining else o.quantity), o.flags)
  }

  // Exactly the orders that survive the trip through protobuf.
  predicate Storable(o: Order) {
    o.id != 0 && o.symbol != "" && !o.typ.UnknownType? && o.price > 0 && o.quantity > 0 && o.remaining > 0
  }

  lemma OrderRoundTrip(o: Order)
    ensures OrderFromProto(OrderToProto(o)) == Done(o) <==> Storable(o)
  {
  }

  predicate IsPositive(d: PbDecimal) { d.Text? && d.value > 0 }

  // Which messages convert, and into what: a market order may leave out its price, and a remainder that is
  // missing or not positive stands for the whole quantity.
  lemma ConvertsExactlyWhen(pb: PbOrder)
    ensures OrderFromProto(pb).Done? <==>
            && pb.id != 0 && pb.symbol != "" && !pb.side.PbNoSide? && !pb.typ.PbNoType?
            && (IsPositive(pb.price) || (pb.typ == PbMarket && pb.price == Absent))
            && IsPositive(pb.quantity) && pb.remaining != Unparsable
    ensures OrderFromProto(pb).Done? ==>
              OrderFromProto(pb).value ==
              Order(pb.id, pb.clientId, pb.symbol, pb.createTime, pb.updateTime,
                    if pb.side == PbBuy then Buy else Sell, if pb.typ == PbLimit then Limit else Market,
                    if pb.price.Text? then pb.price.value else 0, pb.quantity.value,
                    if IsPositive(pb.remaining) then pb.remaining.value else pb.quantity.value, pb.flags)
  {
  }

  // What a converted order is fit for: matching needs a positive quantity, and a limit order
  // can be stored.
  lemma ConvertedOrders(pb: PbOrder)
    requires OrderFromProto(pb).Done?
    ensures var o := OrderFromProto(pb).value;
            && o.id == pb.id && o.quantity > 0 && o.remaining > 0 && !o.typ.UnknownType?
            && (o.typ == Limit ==> Storable(o))
            && (pb.remaining == Absent ==> o.remaining == o.quantity)
  {
  }
}
