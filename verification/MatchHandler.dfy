// The consumer that keeps the market-data mirror in step with the match events.
module MatchHandlers {
  import opened Wrappers
  import opened Convert
  import opened Events
  import opened MarketStore

  datatype HandlerError = OrderIdMissing | SymbolMissing | SkipMatchEvent | FromStore(error: StoreError)

  function SideToString(s: PbSide): string {
    match s case PbBuy => "BUY" case PbSell => "SELL" case PbNoSide => "UNKNOWN"
  }

  function Value(d: PbDecimal): Parsed {
    match d case Text(v) => Some(v) case Unparsable => None case Absent => None
  }

  // The remainder an accepted order enters with: its quantity, if it carries none.
  function EnteredRemaining(o: PbOrder): PbDecimal {
    if o.remaining == Absent then o.quantity else o.remaining
  }

  // The mirror after an event; None when the event is an error or is to be skipped.
  function ApplyAccepted(m: Mirror, ev: MatchEvent): Option<Mirror> {
    if ev.order == None then Some(m)
    else
      var o := ev.order.value;
      if o.typ == PbMarket then Some(m)
      else if o.price == Absent || EnteredRemaining(o) == Absent then None
      else Accept(m, ev.orderId, SideToString(o.side), Value(o.price), Value(EnteredRemaining(o)))
  }

  function ApplyPartial(m: Mirror, ev: MatchEvent): Option<Mirror> {
    if ev.order == None || ev.order.value.remaining == Absent then Some(m)
    else SetTo(m, ev.orderId, Value(ev.order.value.remaining))
  }

  function Apply(m: Mirror, ev: MatchEvent): Option<Mirror> {
    if ev.orderId == 0 || ev.symbol == "" then None
    else match ev.typ
      case Accepted => ApplyAccepted(m, ev)
      case PartialFilled => ApplyPartial(m, ev)
      case Filled => Drop(m, ev.orderId)
      case Canceled => Drop(m, ev.orderId)
  }

  method Process(store: OrderBookState, ev: MatchEvent) returns (err: Option<HandlerError>)
    requires store.Valid()
    modifies store, store.bids, store.asks
    ensures store.Valid()
    ensures err == None <==> Apply(old(store.Value()), ev).Some?
    ensures err == None ==> Some(store.Value()) == Apply(old(store.Value()), ev)
    ensures err != None ==> store.Value() == old(store.Value())
  {
    if ev.orderId == 0 { return Some(OrderIdMissing); }
    if ev.symbol == "" { return Some(SymbolMissing); }
    var e: Option<StoreError> := None;
    match ev.typ {
      case Accepted =>
        if ev.order == None || ev.order.value.typ == PbMarket { return None; }
        var o := ev.order.value;
        var rem := EnteredRemaining(o);
        if o.price == Absent || rem == Absent { return Some(SkipMatchEvent); }
        e := store.ApplyAccepted(ev.orderId, SideToString(o.side), Value(o.price), Value(rem));
      case PartialFilled =>
        if ev.order == None || ev.order.value.remaining == Absent { return None; }
        e := store.ApplyRemaining(ev.orderId, Value(ev.order.value.remaining));
      case Filled =>
        e := store.ApplyRemove(ev.orderId);
      case Canceled =>
        e := store.ApplyRemove(ev.orderId);
    }
    err := if e == None then None else Some(FromStore(e.value));
  }
}
