// The order ledger on values: each database transaction as a function that either commits a new
// state or aborts and changes nothing.
module Ledger {
  import opened Wrappers
  import opened Multiples
  import opened Sums
  import opened OrderStatus
  import opened Freeze

  datatype DbError = Insufficient | NotFound | Skippable | Duplicate | Rejection | NotCancelable

  // Events that a consumer skips instead of stopping.
  predicate IsStale(e: DbError) { e == NotFound || e == Skippable }

  datatype Tx<+T> = Ok(value: T) | Abort(error: DbError) {
    predicate IsFailure() { Abort? }
    function PropagateFailure<U>(): Tx<U> requires Abort? { Abort(error) }
    function Extract(): T requires Ok? { value }
  }

  datatype Account = Account(balance: int, frozen: int)

  type Accounts = map<(nat, string), Account>

  // ---- Balances ----

  function LockFunds(a: Accounts, user: nat, asset: string, amount: int): Tx<Accounts> {
    var key := (user, asset);
    if amount == 0 then Ok(a)
    else if amount < 0 then Abort(Rejection)
    else if key in a && a[key].balance >= amount
    then Ok(a[key := Account(a[key].balance - amount, a[key].frozen + amount)])
    else Abort(Insufficient)
  }

  // Releases what is there, up to the amount; nothing when nothing is frozen.
  function ReleaseFunds(a: Accounts, user: nat, asset: string, amount: int): Tx<Accounts> {
    var key := (user, asset);
    if amount == 0 then Ok(a)
    else if amount < 0 || key !in a then Abort(Rejection)
    else if a[key].frozen > 0 then
      var released := if a[key].frozen < amount then a[key].frozen else amount;
      Ok(a[key := Account(a[key].balance + released, a[key].frozen - released)])
    else if a[key].frozen == 0 then Ok(a)
    else Abort(Rejection)
  }

  function ConsumeFrozen(a: Accounts, user: nat, asset: string, amount: int): Tx<Accounts> {
    var key := (user, asset);
    if amount == 0 then Ok(a)
    else if amount < 0 then Abort(Rejection)
    else if key in a && a[key].frozen >= amount
    then Ok(a[key := Account(a[key].balance, a[key].frozen - amount)])
    else Abort(Insufficient)
  }

  function AdjustBalance(a: Accounts, user: nat, asset: string, delta: int): Tx<Accounts> {
    var key := (user, asset);
    if delta == 0 then Ok(a)
    else if key !in a then
      if delta < 0 then Abort(Insufficient) else Ok(a[key := Account(delta, 0)])
    else if a[key].balance + delta < 0 then Abort(Insufficient)
    else Ok(a[key := Account(a[key].balance + delta, a[key].frozen)])
  }

  // ---- The database ----

  datatype OutboxRow = NewOrderRow(orderId: nat) | CancelRow(orderId: nat)

  datatype DB = DB(orders: map<nat, Order>, clients: set<(nat, string)>, accounts: Accounts,
                   processed: set<(nat, nat, int)>, trades: set<nat>, outbox: seq<OutboxRow>)

  datatype Placement = Placement(user: nat, client: string, symbol: string, side: Side, price: Option<int>,
                                 frozenAmount: Option<int>, quantity: int)

  // A new order under the id that the database gives out.
  function InsertPending(rules: Rules, db: DB, id: nat, p: Placement): Tx<DB> {
    if id in db.orders || (p.user, p.client) in db.clients then Abort(Duplicate)
    else
      var freeze := ComputeFreeze(rules, p.side, p.symbol, p.price, p.quantity, p.frozenAmount);
      if freeze == None then Abort(Rejection)
      else
        var asset := freeze.value.asset;
        var accounts :- LockFunds(db.accounts, p.user, asset, RoundUp(rules.unit(asset), freeze.value.amount));
        var o := Order(id, p.user, p.client, p.symbol, p.side, p.price, p.frozenAmount, p.quantity, 0, Pending, 0);
        Ok(db.(orders := db.orders[id := o], clients := db.clients + {(p.user, p.client)}, accounts := accounts,
               outbox := db.outbox + [NewOrderRow(id)]))
  }

  function ReleaseRemaining(rules: Rules, a: Accounts, o: Order): Tx<Accounts> {
    var spec := RemainingFreeze(rules, o);
    if spec == None then Abort(Rejection)
    else if spec.value.amount == 0 then Ok(a)
    else ReleaseFunds(a, o.user, spec.value.asset, RoundDown(rules.unit(spec.value.asset), spec.value.amount))
  }

  // The release of an order that has just been written.
  function ReleaseOrder(rules: Rules, db: DB, id: nat): Tx<DB> {
    if id !in db.orders then Abort(NotFound)
    else
      var accounts :- ReleaseRemaining(rules, db.accounts, db.orders[id]);
      Ok(db.(accounts := accounts))
  }

  function SetFilled(db: DB, id: nat, filled: Option<int>): DB {
    if filled == None || id !in db.orders then db
    else
      var o := db.orders[id];
      db.(orders := db.orders[id := o.(filled := filled.value, version := o.version + 1)])
  }

  function SetStatus(db: DB, id: nat, target: Status, filled: Option<int>): DB {
    if id !in db.orders then db
    else
      var o := db.orders[id];
      db.(orders := db.orders[id := o.(status := target, filled := if filled == None then o.filled else filled.value,
                                       version := o.version + 1)])
  }

  datatype MatchApply = MatchApply(orderId: nat, symbol: string, eventType: int, walSeq: nat, filled: Option<int>) {
    function Key(): (nat, nat, int) { (orderId, walSeq, eventType) }
  }

  // A match event moves the status once per key; a cancellation releases what is still frozen.
  function ApplyMatchEvent(rules: Rules, db: DB, ev: MatchApply): Tx<DB> {
    var target := TargetStatus(ev.eventType);
    if target == None then Abort(Rejection)
    else if ev.Key() in db.processed then Ok(db)
    else if ev.orderId !in db.orders then Abort(NotFound)
    else
      var o, noted := db.orders[ev.orderId], db.(processed := db.processed + {ev.Key()});
      if o.symbol != ev.symbol then Abort(Rejection)
      else if o.status == target.value then
        EndIfCanceled(rules, SetFilled(noted, ev.orderId, ev.filled), ev.orderId, target.value)
      else if IsTerminal(o.status) then Ok(noted)
      else if !CanTransition(o.status, target.value) then Abort(Rejection)
      else EndIfCanceled(rules, SetStatus(noted, ev.orderId, target.value, ev.filled), ev.orderId, target.value)
  }

  function EndIfCanceled(rules: Rules, db: DB, id: nat, target: Status): Tx<DB> {
    if target == Canceled then ReleaseOrder(rules, db, id) else Ok(db)
  }

  datatype TradeApply = TradeApply(tradeId: nat, symbol: string, price: Option<int>, quantity: Option<int>,
                                   maker: nat, taker: nat, walSeq: nat)

  const MAX_TRADE_ID := 0x7FFF_FFFF_FFFF_FFFF

  // The buyer pays the notional out of the frozen quote and gets the base, the seller the other
  // way round; both sides are booked rounded down.
  function Settle(rules: Rules, a: Accounts, user: nat, side: Side, pair: Pair, notional: int, quantity: int):
    Tx<Accounts>
  {
    var base, quote := RoundDown(rules.unit(pair.base), quantity), RoundDown(rules.unit(pair.quote), notional);
    match side
    case Buy =>
      var paid :- ConsumeFrozen(a, user, pair.quote, quote);
      AdjustBalance(paid, user, pair.base, base)
    case Sell =>
      var given :- ConsumeFrozen(a, user, pair.base, base);
      AdjustBalance(given, user, pair.quote, quote)
    case NoSide => Abort(Rejection)
  }

  // The filled quantity grows up to the order's; a filled order gives back the rest of its freeze.
  function TradeFill(rules: Rules, db: DB, id: nat, quantity: int): Tx<DB> {
    if id !in db.orders then Abort(NotFound)
    else
      var o := db.orders[id];
      var filled := if o.filled + quantity > o.quantity then o.quantity else o.filled + quantity;
      var booked := SetFilled(db, id, Some(filled));
      if filled < o.quantity && o.status != Filled then Ok(booked) else ReleaseOrder(rules, booked, id)
  }

  function ApplyTradeEvent(rules: Rules, db: DB, t: TradeApply): Tx<DB> {
    var pair := rules.pair(t.symbol);
    if t.tradeId == 0 then Abort(Rejection)
    else if t.tradeId > MAX_TRADE_ID then Abort(Skippable)
    else if t.price == None || t.price.value <= 0 || t.quantity == None || t.quantity.value <= 0 || pair == None
    then Abort(Rejection)
    else if t.tradeId in db.trades then Ok(db)
    else if t.maker !in db.orders || t.taker !in db.orders then Abort(NotFound)
    else
      var noted := db.(trades := db.trades + {t.tradeId});
      var settled :- SettleBoth(rules, noted, t, pair.value);
      var half :- TradeFill(rules, settled, t.maker, t.quantity.value);
      TradeFill(rules, half, t.taker, t.quantity.value)
  }

  function SettleBoth(rules: Rules, db: DB, t: TradeApply, pair: Pair): Tx<DB>
    requires t.price.Some? && t.quantity.Some? && t.maker in db.orders && t.taker in db.orders
  {
    var maker, taker := db.orders[t.maker], db.orders[t.taker];
    var notional, quantity := t.price.value * t.quantity.value, Amount(t.quantity.value);
    var a :- Settle(rules, db.accounts, maker.user, maker.side, pair, notional, quantity);
    var b :- Settle(rules, a, taker.user, taker.side, pair, notional, quantity);
    Ok(db.(accounts := b))
  }

  // Canceling is asked of matching through the outbox; what is canceling or canceled stays.
  function BeginCancel(db: DB, user: nat, id: nat): Tx<DB> {
    if id !in db.orders || db.orders[id].user != user then Abort(NotFound)
    else
      var s := db.orders[id].status;
      if s == Canceling || s == Canceled then Ok(db)
      else if s == Filled || s == Rejected || !CanTransition(s, Canceling) then Abort(NotCancelable)
      else
        var moved := SetStatus(db, id, Canceling, None);
        Ok(moved.(outbox := moved.outbox + [CancelRow(id)]))
  }

  function RejectStalePending(rules: Rules, db: DB, id: nat): Tx<DB> {
    if id !in db.orders then Abort(NotFound)
    else if db.orders[id].status != Pending then Ok(db)
    else
      var released :- ReleaseOrder(rules, SetStatus(db, id, Rejected, None), id);
      Ok(released.(outbox := released.outbox + [CancelRow(id)]))
  }

  function ResendCancel(db: DB, id: nat): Tx<DB> {
    if id !in db.orders then Abort(NotFound)
    else if db.orders[id].status != Canceling then Ok(db)
    else Ok(db.(outbox := db.outbox + [CancelRow(id)]))
  }

  // ---- Conservation ----

  ghost function Holdings(asset: string): ((nat, string), Account) -> int {
    (key: (nat, string), acc: Account) => if key.1 == asset then acc.balance + acc.frozen else 0
  }

  // All there is of an asset, free or frozen.
  ghost function Total(a: Accounts, asset: string): int { Sum(a, Holdings(asset)) }

  ghost predicate NonNegative(a: Accounts) {
    forall key :: key in a ==> a[key].balance >= 0 && a[key].frozen >= 0
  }

  // From a to b only the given asset changes in total, by delta, and nothing becomes negative.
  ghost predicate Booked(a: Accounts, b: Accounts, asset: string, delta: int) {
    && (NonNegative(a) ==> NonNegative(b))
    && (forall x: string :: Total(b, x) == Total(a, x) + if x == asset then delta else 0)
  }

  lemma AccountChanged(a: Accounts, key: (nat, string), now: Account)
    requires now.balance >= 0 && now.frozen >= 0
    ensures Booked(a, a[key := now], key.1,
                   now.balance + now.frozen - if key in a then a[key].balance + a[key].frozen else 0)
  {
    forall x: string ensures Total(a[key := now], x) == Total(a, x) +
        if x == key.1 then now.balance + now.frozen - (if key in a then a[key].balance + a[key].frozen else 0) else 0
    {
      SumUpdate(a, key, now, Holdings(x));
    }
  }

  lemma Unchanged(a: Accounts, asset: string)
    ensures Booked(a, a, asset, 0)
  {
  }

  lemma LockIsBooked(a: Accounts, user: nat, asset: string, amount: int)
    requires NonNegative(a) && LockFunds(a, user, asset, amount).Ok?
    ensures Booked(a, LockFunds(a, user, asset, amount).value, asset, 0)
  {
    var key := (user, asset);
    if amount > 0 { AccountChanged(a, key, Account(a[key].balance - amount, a[key].frozen + amount)); }
  }

  lemma ReleaseIsBooked(a: Accounts, user: nat, asset: string, amount: int)
    requires NonNegative(a) && ReleaseFunds(a, user, asset, amount).Ok?
    ensures Booked(a, ReleaseFunds(a, user, asset, amount).value, asset, 0)
  {
    var key := (user, asset);
    if amount > 0 && a[key].frozen > 0 {
      var released := if a[key].frozen < amount then a[key].frozen else amount;
      AccountChanged(a, key, Account(a[key].balance + released, a[key].frozen - released));
    }
  }

  lemma ConsumeIsBooked(a: Accounts, user: nat, asset: string, amount: int)
    requires NonNegative(a) && ConsumeFrozen(a, user, asset, amount).Ok?
    ensures Booked(a, ConsumeFrozen(a, user, asset, amount).value, asset, -amount)
  {
    var key := (user, asset);
    if amount > 0 { AccountChanged(a, key, Account(a[key].balance, a[key].frozen - amount)); }
  }

  lemma AdjustIsBooked(a: Accounts, user: nat, asset: string, delta: int)
    requires NonNegative(a) && AdjustBalance(a, user, asset, delta).Ok?
    ensures Booked(a, AdjustBalance(a, user, asset, delta).value, asset, delta)
  {
    var key := (user, asset);
    if delta != 0 {
      AccountChanged(a, key, if key in a then Account(a[key].balance + delta, a[key].frozen) else Account(delta, 0));
    }
  }

  // What one side of a trade adds to the total of an asset.
  function SideDelta(side: Side, pair: Pair, base: int, quote: int, asset: string): int {
    var b, q := if asset == pair.base then base else 0, if asset == pair.quote then quote else 0;
    if side == Buy then b - q else q - b
  }

  lemma SettleIsBooked(rules: Rules, a: Accounts, user: nat, side: Side, pair: Pair, notional: int, quantity: int,
                       asset: string)
    requires NonNegative(a) && Settle(rules, a, user, side, pair, notional, quantity).Ok?
    ensures NonNegative(Settle(rules, a, user, side, pair, notional, quantity).value)
    ensures Total(Settle(rules, a, user, side, pair, notional, quantity).value, asset) ==
            Total(a, asset) + SideDelta(side, pair, RoundDown(rules.unit(pair.base), quantity),
                                        RoundDown(rules.unit(pair.quote), notional), asset)
  {
    var base, quote := RoundDown(rules.unit(pair.base), quantity), RoundDown(rules.unit(pair.quote), notional);
    SettleStep(a, user, side, pair, base, quote, asset);
  }

  lemma SettleStep(a: Accounts, user: nat, side: Side, pair: Pair, base: int, quote: int, asset: string)
    requires NonNegative(a)
    ensures side == Buy && ConsumeFrozen(a, user, pair.quote, quote).Ok? ==>
              var paid := ConsumeFrozen(a, user, pair.quote, quote).value;
              AdjustBalance(paid, user, pair.base, base).Ok? ==>
              var b := AdjustBalance(paid, user, pair.base, base).value;
              NonNegative(b) && Total(b, asset) == Total(a, asset) + SideDelta(Buy, pair, base, quote, asset)
    ensures side == Sell && ConsumeFrozen(a, user, pair.base, base).Ok? ==>
              var given := ConsumeFrozen(a, user, pair.base, base).value;
              AdjustBalance(given, user, pair.quote, quote).Ok? ==>
              var b := AdjustBalance(given, user, pair.quote, quote).value;
              NonNegative(b) && Total(b, asset) == Total(a, asset) + SideDelta(Sell, pair, base, quote, asset)
  {
    if side == Buy && ConsumeFrozen(a, user, pair.quote, quote).Ok? {
      ConsumeIsBooked(a, user, pair.quote, quote);
      var paid := ConsumeFrozen(a, user, pair.quote, quote).value;
      if AdjustBalance(paid, user, pair.base, base).Ok? { AdjustIsBooked(paid, user, pair.base, base); }
    }
    if side == Sell && ConsumeFrozen(a, user, pair.base, base).Ok? {
      ConsumeIsBooked(a, user, pair.base, base);
      var given := ConsumeFrozen(a, user, pair.base, base).value;
      if AdjustBalance(given, user, pair.quote, quote).Ok? { AdjustIsBooked(given, user, pair.quote, quote); }
    }
  }

  // Nothing negative, and every total as before.
  ghost predicate Conserves(a: Accounts, b: Accounts) {
    NonNegative(b) && forall asset: string :: Total(b, asset) == Total(a, asset)
  }

  lemma ReleaseConserves(rules: Rules, db: DB, id: nat)
    requires NonNegative(db.accounts) && ReleaseOrder(rules, db, id).Ok?
    ensures Conserves(db.accounts, ReleaseOrder(rules, db, id).value.accounts)
  {
    var o := db.orders[id];
    var spec := RemainingFreeze(rules, o).value;
    if spec.amount != 0 {
      ReleaseIsBooked(db.accounts, o.user, spec.asset, RoundDown(rules.unit(spec.asset), spec.amount));
    }
  }

  lemma TradeFillConserves(rules: Rules, db: DB, id: nat, quantity: int)
    requires NonNegative(db.accounts) && TradeFill(rules, db, id, quantity).Ok?
    ensures Conserves(db.accounts, TradeFill(rules, db, id, quantity).value.accounts)
  {
    var o := db.orders[id];
    var filled := if o.filled + quantity > o.quantity then o.quantity else o.filled + quantity;
    if !(filled < o.quantity && o.status != Filled) { ReleaseConserves(rules, SetFilled(db, id, Some(filled)), id); }
  }

  // A trade changes the total of an asset by exactly what its two sides add to it.
  lemma TradeDelta(rules: Rules, db: DB, t: TradeApply, asset: string)
    requires NonNegative(db.accounts) && ApplyTradeEvent(rules, db, t).Ok? && t.tradeId !in db.trades
    ensures var after, pair := ApplyTradeEvent(rules, db, t).value, rules.pair(t.symbol).value;
            var base := RoundDown(rules.unit(pair.base), Amount(t.quantity.value));
            var quote := RoundDown(rules.unit(pair.quote), t.price.value * t.quantity.value);
            && NonNegative(after.accounts)
            && Total(after.accounts, asset) == Total(db.accounts, asset)
                 + SideDelta(db.orders[t.maker].side, pair, base, quote, asset)
                 + SideDelta(db.orders[t.taker].side, pair, base, quote, asset)
  {
    var noted, pair := db.(trades := db.trades + {t.tradeId}), rules.pair(t.symbol).value;
    var maker, taker := db.orders[t.maker], db.orders[t.taker];
    var notional, quantity := t.price.value * t.quantity.value, Amount(t.quantity.value);
    var a := Settle(rules, db.accounts, maker.user, maker.side, pair, notional, quantity).value;
    SettleIsBooked(rules, db.accounts, maker.user, maker.side, pair, notional, quantity, asset);
    SettleIsBooked(rules, a, taker.user, taker.side, pair, notional, quantity, asset);
    var settled := SettleBoth(rules, noted, t, pair).value;
    var half := TradeFill(rules, settled, t.maker, t.quantity.value).value;
    TradeFillConserves(rules, settled, t.maker, t.quantity.value);
    TradeFillConserves(rules, half, t.taker, t.quantity.value);
  }

  // A trade conserves every asset exactly when its orders are on opposite sides, or when nothing
  // is left of it after rounding.
  lemma TradeConservesExactlyWhen(rules: Rules, db: DB, t: TradeApply)
    requires NonNegative(db.accounts) && ApplyTradeEvent(rules, db, t).Ok? && t.tradeId !in db.trades
    requires rules.pair(t.symbol).value.base != rules.pair(t.symbol).value.quote
    ensures var pair := rules.pair(t.symbol).value;
            Conserves(db.accounts, ApplyTradeEvent(rules, db, t).value.accounts) <==>
            db.orders[t.maker].side != db.orders[t.taker].side
            || (RoundDown(rules.unit(pair.base), Amount(t.quantity.value)) == 0
                && RoundDown(rules.unit(pair.quote), t.price.value * t.quantity.value) == 0)
  {
    var after, pair := ApplyTradeEvent(rules, db, t).value, rules.pair(t.symbol).value;
    TradeDelta(rules, db, t, pair.base);
    TradeDelta(rules, db, t, pair.quote);
    SidesAreReal(rules, db, t);
    if db.orders[t.maker].side != db.orders[t.taker].side {
      forall asset: string ensures Total(after.accounts, asset) == Total(db.accounts, asset) {
        TradeDelta(rules, db, t, asset);
      }
    } else {
      var base := RoundDown(rules.unit(pair.base), Amount(t.quantity.value));
      var quote := RoundDown(rules.unit(pair.quote), t.price.value * t.quantity.value);
      if base == 0 && quote == 0 {
        forall asset: string ensures Total(after.accounts, asset) == Total(db.accounts, asset) {
          TradeDelta(rules, db, t, asset);
        }
      }
    }
  }

  lemma SidesAreReal(rules: Rules, db: DB, t: TradeApply)
    requires ApplyTradeEvent(rules, db, t).Ok? && t.tradeId !in db.trades
    ensures db.orders[t.maker].side != NoSide && db.orders[t.taker].side != NoSide
  {
  }

  // Nothing in the transaction looks at the sides: whatever the trade, two buyers with enough
  // frozen both pay and both receive.
  lemma SameSideTradeCommits(rules: Rules, pair: Pair, maker: Order, taker: Order, price: int, quantity: int)
      returns (db: DB, t: TradeApply)
    requires pair.base != pair.quote && rules.pair(maker.symbol) == Some(pair) && price > 0 && quantity > 0
    requires RoundDown(rules.unit(pair.quote), price * quantity) > 0
    requires maker.id != taker.id && maker.user != taker.user && maker.side == taker.side == Buy
    requires StaysOpen(maker, quantity) && StaysOpen(taker, quantity)
    ensures NonNegative(db.accounts) && ApplyTradeEvent(rules, db, t).Ok? && t.tradeId !in db.trades
    ensures db.orders == map[maker.id := maker, taker.id := taker] && t.maker == maker.id && t.taker == taker.id
    ensures !Conserves(db.accounts, ApplyTradeEvent(rules, db, t).value.accounts)
  {
    var b, q := RoundDown(rules.unit(pair.base), Amount(quantity)), RoundDown(rules.unit(pair.quote), price * quantity);
    RoundedAmount(rules.unit(pair.base), quantity);
    var a: Accounts := map[(maker.user, pair.quote) := Account(0, q), (taker.user, pair.quote) := Account(0, q)];
    db := DB(map[maker.id := maker, taker.id := taker], {}, a, {}, {}, []);
    t := TradeApply(1, maker.symbol, Some(price), Some(quantity), maker.id, taker.id, 1);
    var paid := BuyStep(a, maker.user, pair, b, q);
    var both := BuyStep(paid, taker.user, pair, b, q);
    var noted := db.(trades := db.trades + {1});
    assert Settle(rules, a, maker.user, Buy, pair, price * quantity, Amount(quantity)) == Ok(paid);
    assert Settle(rules, paid, taker.user, Buy, pair, price * quantity, Amount(quantity)) == Ok(both);
    assert SettleBoth(rules, noted, t, pair) == Ok(noted.(accounts := both));
    TwoFills(rules, noted.(accounts := both), maker.id, taker.id, quantity);
    TradeConservesExactlyWhen(rules, db, t);
  }

  predicate StaysOpen(o: Order, quantity: int) { o.filled + quantity < o.quantity && o.status != Filled }

  lemma RoundedAmount(unit: Unit, quantity: int)
    requires quantity > 0
    ensures RoundDown(unit, Amount(quantity)) >= 0
  {
    FloorIs(unit, Amount(quantity));
  }

  lemma BuyStep(a: Accounts, user: nat, pair: Pair, base: int, quote: int) returns (after: Accounts)
    requires (user, pair.quote) in a && a[(user, pair.quote)] == Account(0, quote) && (user, pair.base) !in a
    requires pair.base != pair.quote && base >= 0 && quote > 0
    ensures ConsumeFrozen(a, user, pair.quote, quote).Ok?
    ensures AdjustBalance(ConsumeFrozen(a, user, pair.quote, quote).value, user, pair.base, base) == Ok(after)
    ensures forall key: (nat, string) :: key.0 != user ==>
              (key in after <==> key in a) && (key in a ==> after[key] == a[key])
  {
    after := AdjustBalance(ConsumeFrozen(a, user, pair.quote, quote).value, user, pair.base, base).value;
  }

  lemma TwoFills(rules: Rules, db: DB, i: nat, j: nat, quantity: int)
    requires i in db.orders && j in db.orders && i != j
    requires StaysOpen(db.orders[i], quantity) && StaysOpen(db.orders[j], quantity)
    ensures TradeFill(rules, db, i, quantity).Ok?
    ensures TradeFill(rules, TradeFill(rules, db, i, quantity).value, j, quantity).Ok?
  {
  }
}
