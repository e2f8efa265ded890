// When the transactions of match events and trades commit, by what they find in the tables.
module LedgerGuards {
  import opened Wrappers
  import opened OrderStatus
  import opened Freeze
  import opened Ledger

  // Nothing is to be taken, or enough is frozen.
  predicate CanPay(a: Accounts, key: (nat, string), amount: int) {
    amount == 0 || (amount > 0 && key in a && a[key].frozen >= amount)
  }

  predicate CanTake(a: Accounts, key: (nat, string), delta: int) {
    delta == 0 || (if key in a then a[key].balance + delta >= 0 else delta >= 0)
  }

  function Paid(a: Accounts, key: (nat, string), amount: int): Accounts {
    if amount == 0 || key !in a then a else a[key := Account(a[key].balance, a[key].frozen - amount)]
  }

  function Taken(a: Accounts, key: (nat, string), delta: int): Accounts {
    if delta == 0 then a
    else a[key := if key in a then Account(a[key].balance + delta, a[key].frozen) else Account(delta, 0)]
  }

  // What a side pays and gets.
  function Pays(rules: Rules, user: nat, side: Side, pair: Pair, notional: int, quantity: int): ((nat, string), int) {
    if side == Buy then ((user, pair.quote), RoundDown(rules.unit(pair.quote), notional))
    else ((user, pair.base), RoundDown(rules.unit(pair.base), quantity))
  }

  function Gets(rules: Rules, user: nat, side: Side, pair: Pair, notional: int, quantity: int): ((nat, string), int) {
    if side == Buy then ((user, pair.base), RoundDown(rules.unit(pair.base), quantity))
    else ((user, pair.quote), RoundDown(rules.unit(pair.quote), notional))
  }

  predicate CanSettle(rules: Rules, a: Accounts, o: Order, pair: Pair, notional: int, quantity: int) {
    var (from, amount) := Pays(rules, o.user, o.side, pair, notional, quantity);
    var (to, delta) := Gets(rules, o.user, o.side, pair, notional, quantity);
    o.side != NoSide && CanPay(a, from, amount) && CanTake(Paid(a, from, amount), to, delta)
  }

  function Settled(rules: Rules, a: Accounts, o: Order, pair: Pair, notional: int, quantity: int): Accounts {
    var (from, amount) := Pays(rules, o.user, o.side, pair, notional, quantity);
    var (to, delta) := Gets(rules, o.user, o.side, pair, notional, quantity);
    Taken(Paid(a, from, amount), to, delta)
  }

  lemma SettlesExactlyWhen(rules: Rules, a: Accounts, o: Order, pair: Pair, notional: int, quantity: int)
    ensures Settle(rules, a, o.user, o.side, pair, notional, quantity).Ok? <==>
            CanSettle(rules, a, o, pair, notional, quantity)
    ensures CanSettle(rules, a, o, pair, notional, quantity) ==>
              Settle(rules, a, o.user, o.side, pair, notional, quantity)
              == Ok(Settled(rules, a, o, pair, notional, quantity))
  {
  }

  // Something of the freeze is to be given back, to an account that is there.
  predicate CanRelease(rules: Rules, a: Accounts, o: Order) {
    match RemainingFreeze(rules, o)
    case None => false
    case Some(spec) =>
      var amount := RoundDown(rules.unit(spec.asset), spec.amount);
      amount == 0 || (amount > 0 && (o.user, spec.asset) in a && a[(o.user, spec.asset)].frozen >= 0)
  }

  function Released(rules: Rules, a: Accounts, o: Order): Accounts {
    match RemainingFreeze(rules, o)
    case None => a
    case Some(spec) =>
      var key, amount := (o.user, spec.asset), RoundDown(rules.unit(spec.asset), spec.amount);
      if amount == 0 || key !in a then a
      else
        var given := if a[key].frozen < amount then a[key].frozen else amount;
        a[key := Account(a[key].balance + given, a[key].frozen - given)]
  }

  lemma ReleasesExactlyWhen(rules: Rules, a: Accounts, o: Order)
    ensures ReleaseRemaining(rules, a, o).Ok? <==> CanRelease(rules, a, o)
    ensures CanRelease(rules, a, o) ==> ReleaseRemaining(rules, a, o) == Ok(Released(rules, a, o))
  {
    var spec := RemainingFreeze(rules, o);
    if spec.Some? {
      var key := (o.user, spec.value.asset);
      if key in a { assert a[key := a[key]] == a; }
      if spec.value.amount == 0 { assert RoundDown(rules.unit(spec.value.asset), 0) == 0; }
    }
  }

  function FillOf(o: Order, quantity: int): Order {
    o.(filled := if o.filled + quantity > o.quantity then o.quantity else o.filled + quantity, version := o.version + 1)
  }

  predicate Ends(o: Order, quantity: int) { FillOf(o, quantity).filled >= o.quantity || o.status == Filled }

  predicate CanFill(rules: Rules, a: Accounts, o: Order, quantity: int) {
    Ends(o, quantity) ==> CanRelease(rules, a, FillOf(o, quantity))
  }

  function AfterFill(rules: Rules, db: DB, id: nat, quantity: int): DB
    requires id in db.orders
  {
    var o := FillOf(db.orders[id], quantity);
    db.(orders := db.orders[id := o],
        accounts := if Ends(db.orders[id], quantity) then Released(rules, db.accounts, o) else db.accounts)
  }

  lemma FillsExactlyWhen(rules: Rules, db: DB, id: nat, quantity: int)
    requires id in db.orders
    ensures TradeFill(rules, db, id, quantity).Ok? <==> CanFill(rules, db.accounts, db.orders[id], quantity)
    ensures CanFill(rules, db.accounts, db.orders[id], quantity) ==>
              TradeFill(rules, db, id, quantity) == Ok(AfterFill(rules, db, id, quantity))
  {
    ReleasesExactlyWhen(rules, db.accounts, FillOf(db.orders[id], quantity));
  }

  // ---- The two transactions ----

  predicate WellFormed(rules: Rules, t: TradeApply) {
    && 0 < t.tradeId <= MAX_TRADE_ID && rules.pair(t.symbol).Some?
    && t.price.Some? && t.price.value > 0 && t.quantity.Some? && t.quantity.value > 0
  }

  // Both orders are there, both sides can pay, and both fills can give back what they have to.
  predicate CanTrade(rules: Rules, db: DB, t: TradeApply) {
    && WellFormed(rules, t) && t.maker in db.orders && t.taker in db.orders
    && var pair, quantity := rules.pair(t.symbol).value, t.quantity.value;
       var notional, maker, taker := t.price.value * quantity, db.orders[t.maker], db.orders[t.taker];
       var half := Settled(rules, db.accounts, maker, pair, notional, Amount(quantity));
       var both := db.(accounts := Settled(rules, half, taker, pair, notional, Amount(quantity)));
       && CanSettle(rules, db.accounts, maker, pair, notional, Amount(quantity))
       && CanSettle(rules, half, taker, pair, notional, Amount(quantity))
       && CanFill(rules, both.accounts, maker, quantity)
       && var once := AfterFill(rules, both, t.maker, quantity);
          CanFill(rules, once.accounts, once.orders[t.taker], quantity)
  }

  // Both sides settle, then both orders are filled.
  function AfterTrade(rules: Rules, db: DB, t: TradeApply): DB
    requires CanTrade(rules, db, t)
  {
    var pair, quantity := rules.pair(t.symbol).value, t.quantity.value;
    var notional, maker, taker := t.price.value * quantity, db.orders[t.maker], db.orders[t.taker];
    var half := Settled(rules, db.accounts, maker, pair, notional, Amount(quantity));
    var both := Settled(rules, half, taker, pair, notional, Amount(quantity));
    AfterFill(rules, AfterFill(rules, db.(trades := db.trades + {t.tradeId}, accounts := both), t.maker, quantity),
              t.taker, quantity)
  }

  lemma TradesExactlyWhen(rules: Rules, db: DB, t: TradeApply)
    requires t.tradeId !in db.trades
    ensures ApplyTradeEvent(rules, db, t).Ok? <==> CanTrade(rules, db, t)
    ensures CanTrade(rules, db, t) ==> ApplyTradeEvent(rules, db, t) == Ok(AfterTrade(rules, db, t))
  {
    if WellFormed(rules, t) && t.maker in db.orders && t.taker in db.orders {
      var pair, quantity := rules.pair(t.symbol).value, t.quantity.value;
      var notional, maker, taker := t.price.value * quantity, db.orders[t.maker], db.orders[t.taker];
      var noted := db.(trades := db.trades + {t.tradeId});
      SettlesExactlyWhen(rules, db.accounts, maker, pair, notional, Amount(quantity));
      var half := Settled(rules, db.accounts, maker, pair, notional, Amount(quantity));
      SettlesExactlyWhen(rules, half, taker, pair, notional, Amount(quantity));
      var both := noted.(accounts := Settled(rules, half, taker, pair, notional, Amount(quantity)));
      FillsExactlyWhen(rules, both, t.maker, quantity);
      FillsExactlyWhen(rules, AfterFill(rules, both, t.maker, quantity), t.taker, quantity);
    }
  }

  // The order is there, of that symbol, and may move; and a cancellation can give back what it has to.
  predicate CanApply(rules: Rules, db: DB, ev: MatchApply) {
    var target := TargetStatus(ev.eventType);
    && target.Some? && ev.orderId in db.orders && db.orders[ev.orderId].symbol == ev.symbol
    && var o := db.orders[ev.orderId];
       && (IsTerminal(o.status) || CanTransition(o.status, target.value))
       && (target.value == Canceled && (o.status == Canceled || !IsTerminal(o.status)) ==>
             CanRelease(rules, db.accounts, o.(filled := if ev.filled == None then o.filled else ev.filled.value)))
  }

  lemma AppliesExactlyWhen(rules: Rules, db: DB, ev: MatchApply)
    requires ev.Key() !in db.processed
    ensures ApplyMatchEvent(rules, db, ev).Ok? <==> CanApply(rules, db, ev)
    ensures CanApply(rules, db, ev) ==>
              var o, after := db.orders[ev.orderId], ApplyMatchEvent(rules, db, ev).value;
              after.accounts ==
              if ev.eventType == 4 && o.status != Filled && o.status != Rejected
              then Released(rules, db.accounts, after.orders[ev.orderId]) else db.accounts
  {
    var target := TargetStatus(ev.eventType);
    if target.Some? && ev.orderId in db.orders && db.orders[ev.orderId].symbol == ev.symbol {
      var o, noted := db.orders[ev.orderId], db.(processed := db.processed + {ev.Key()});
      var moved := if o.status == target.value then SetFilled(noted, ev.orderId, ev.filled)
                   else SetStatus(noted, ev.orderId, target.value, ev.filled);
      ReleasesExactlyWhen(rules, db.accounts, moved.orders[ev.orderId]);
      var asked := o.(filled := if ev.filled == None then o.filled else ev.filled.value);
      assert RemainingFreeze(rules, moved.orders[ev.orderId]) == RemainingFreeze(rules, asked);
    }
  }
}
