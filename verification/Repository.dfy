// The order repository: tables that transactions update row by row, and roll back on any error.
module Repository {
  import opened Wrappers
  import opened OrderStatus
  import opened Freeze
  import opened Ledger

  // How a transaction ends: committed with the state it computed, or rolled back.
  ghost predicate Ends(was: DB, now: DB, err: Option<DbError>, tx: Tx<DB>) {
    match tx
    case Ok(db) => err == None && now == db
    case Abort(e) => err == Some(e) && now == was
  }

  // A statement inside a transaction changes the accounts, or fails and changes nothing.
  ghost predicate Books(was: DB, now: DB, err: Option<DbError>, tx: Tx<Accounts>) {
    match tx
    case Ok(a) => err == None && now == was.(accounts := a)
    case Abort(e) => err == Some(e) && now == was
  }

  class OrderRepository {
    const rules: Rules
    var orders: map<nat, Order>
    var clients: set<(nat, string)>
    var accounts: Accounts
    var processed: set<(nat, nat, int)>
    var trades: set<nat>
    var outbox: seq<OutboxRow>

    ghost function Value(): DB
      reads this
    {
      DB(orders, clients, accounts, processed, trades, outbox)
    }

    constructor (rules: Rules)
      ensures this.rules == rules && Value() == DB(map[], {}, map[], {}, {}, [])
    {
      this.rules := rules;
      orders, clients, accounts, processed, trades, outbox := map[], {}, map[], {}, {}, [];
    }

    method Begin() returns (tx: DB)
      ensures tx == Value()
    {
      tx := DB(orders, clients, accounts, processed, trades, outbox);
    }

    method Rollback(tx: DB)
      modifies this
      ensures Value() == tx
    {
      orders, clients, accounts, processed, trades, outbox :=
        tx.orders, tx.clients, tx.accounts, tx.processed, tx.trades, tx.outbox;
    }

    // ---- Balances ----

    method LockFundsOf(user: nat, asset: string, amount: int) returns (err: Option<DbError>)
      modifies this`accounts
      ensures Books(old(Value()), Value(), err, LockFunds(old(accounts), user, asset, amount))
    {
      if amount == 0 { return None; }
      if amount < 0 { return Some(Rejection); }
      if (user, asset) !in accounts || accounts[(user, asset)].balance < amount { return Some(Insufficient); }
      var row := accounts[(user, asset)];
      accounts := accounts[(user, asset) := Account(row.balance - amount, row.frozen + amount)];
      err := None;
    }

    method ReleaseFundsOf(user: nat, asset: string, amount: int) returns (err: Option<DbError>)
      modifies this`accounts
      ensures Books(old(Value()), Value(), err, ReleaseFunds(old(accounts), user, asset, amount))
    {
      if amount == 0 { return None; }
      if amount < 0 { return Some(Rejection); }
      if (user, asset) in accounts && accounts[(user, asset)].frozen > 0 {
        var row := accounts[(user, asset)];
        var released := if row.frozen < amount then row.frozen else amount;
        accounts := accounts[(user, asset) := Account(row.balance + released, row.frozen - released)];
        return None;
      }
      if (user, asset) !in accounts { return Some(Rejection); }
      if accounts[(user, asset)].frozen == 0 { return None; }
      err := Some(Rejection);
    }

    method ConsumeFrozenOf(user: nat, asset: string, amount: int) returns (err: Option<DbError>)
      modifies this`accounts
      ensures Books(old(Value()), Value(), err, ConsumeFrozen(old(accounts), user, asset, amount))
    {
      if amount == 0 { return None; }
      if amount < 0 { return Some(Rejection); }
      if (user, asset) !in accounts || accounts[(user, asset)].frozen < amount { return Some(Insufficient); }
      var row := accounts[(user, asset)];
      accounts := accounts[(user, asset) := Account(row.balance, row.frozen - amount)];
      err := None;
    }

    method AdjustBalanceOf(user: nat, asset: string, delta: int) returns (err: Option<DbError>)
      modifies this`accounts
      ensures Books(old(Value()), Value(), err, AdjustBalance(old(accounts), user, asset, delta))
    {
      if delta == 0 { return None; }
      if (user, asset) !in accounts {
        if delta < 0 { return Some(Insufficient); }
        accounts := accounts[(user, asset) := Account(delta, 0)];
        return None;
      }
      var row := accounts[(user, asset)];
      if row.balance + delta < 0 { return Some(Insufficient); }
      accounts := accounts[(user, asset) := Account(row.balance + delta, row.frozen)];
      err := None;
    }

    // ---- Rows of orders ----

    method UpdateFilled(id: nat, filled: Option<int>)
      modifies this`orders
      ensures Value() == SetFilled(old(Value()), id, filled)
    {
      if filled == None || id !in orders { return; }
      var o := orders[id];
      orders := orders[id := o.(filled := filled.value, version := o.version + 1)];
    }

    method UpdateStatus(id: nat, target: Status, filled: Option<int>)
      modifies this`orders
      ensures Value() == SetStatus(old(Value()), id, target, filled)
    {
      if id !in orders { return; }
      var o := orders[id];
      orders := orders[id := o.(status := target, filled := if filled == None then o.filled else filled.value,
                                version := o.version + 1)];
    }

    method ReleaseRemainingOf(id: nat) returns (err: Option<DbError>)
      modifies this`accounts
      ensures Ends(old(Value()), Value(), err, ReleaseOrder(rules, old(Value()), id))
    {
      if id !in orders { return Some(NotFound); }
      var o := orders[id];
      var spec := RemainingFreeze(rules, o);
      if spec == None { return Some(Rejection); }
      if spec.value.amount == 0 { return None; }
      err := ReleaseFundsOf(o.user, spec.value.asset, RoundDown(rules.unit(spec.value.asset), spec.value.amount));
    }

    // ---- Transactions ----

    method PlaceOrder(id: nat, p: Placement) returns (err: Option<DbError>)
      modifies this
      ensures Ends(old(Value()), Value(), err, InsertPending(rules, old(Value()), id, p))
    {
      var tx := Begin();
      if id in orders { return Some(Duplicate); }
      orders := orders[id := Order(id, p.user, p.client, p.symbol, p.side, p.price, p.frozenAmount, p.quantity, 0,
                                   Pending, 0)];
      if (p.user, p.client) in clients {
        Rollback(tx);
        return Some(Duplicate);
      }
      clients := clients + {(p.user, p.client)};
      var freeze := ComputeFreeze(rules, p.side, p.symbol, p.price, p.quantity, p.frozenAmount);
      if freeze == None {
        Rollback(tx);
        return Some(Rejection);
      }
      var asset := freeze.value.asset;
      err := LockFundsOf(p.user, asset, RoundUp(rules.unit(asset), freeze.value.amount));
      if err != None {
        Rollback(tx);
        return;
      }
      outbox := outbox + [NewOrderRow(id)];
    }

    method ApplyMatch(ev: MatchApply) returns (err: Option<DbError>)
      modifies this
      ensures Ends(old(Value()), Value(), err, ApplyMatchEvent(rules, old(Value()), ev))
    {
      var target := TargetStatus(ev.eventType);
      if target == None { return Some(Rejection); }
      var tx := Begin();
      if ev.Key() in processed { return None; }
      processed := processed + {ev.Key()};
      if ev.orderId !in orders {
        Rollback(tx);
        return Some(NotFound);
      }
      var o := orders[ev.orderId];
      if o.symbol != ev.symbol {
        Rollback(tx);
        return Some(Rejection);
      }
      if o.status == target.value {
        UpdateFilled(ev.orderId, ev.filled);
      } else if IsTerminal(o.status) {
        return None;
      } else if !CanTransition(o.status, target.value) {
        Rollback(tx);
        return Some(Rejection);
      } else {
        UpdateStatus(ev.orderId, target.value, ev.filled);
      }
      err := None;
      if target.value == Canceled {
        err := ReleaseRemainingOf(ev.orderId);
        if err != None { Rollback(tx); }
      }
    }

    method SettleFor(user: nat, side: Side, pair: Pair, notional: int, quantity: int) returns (err: Option<DbError>)
      modifies this`accounts
      ensures var tx := Settle(rules, old(accounts), user, side, pair, notional, quantity);
              && (err == None <==> tx.Ok?) && (tx.Ok? ==> Value() == old(Value()).(accounts := tx.value))
              && (tx.Abort? ==> err == Some(tx.error))
    {
      var base, quote := RoundDown(rules.unit(pair.base), quantity), RoundDown(rules.unit(pair.quote), notional);
      match side {
        case Buy =>
          err := ConsumeFrozenOf(user, pair.quote, quote);
          if err != None { return; }
          err := AdjustBalanceOf(user, pair.base, base);
        case Sell =>
          err := ConsumeFrozenOf(user, pair.base, base);
          if err != None { return; }
          err := AdjustBalanceOf(user, pair.quote, quote);
        case NoSide => err := Some(Rejection);
      }
    }

    method FillOrder(id: nat, quantity: int) returns (err: Option<DbError>)
      modifies this`orders, this`accounts
      ensures var tx := TradeFill(rules, old(Value()), id, quantity);
              && (err == None <==> tx.Ok?) && (tx.Ok? ==> Value() == tx.value) && (tx.Abort? ==> err == Some(tx.error))
    {
      if id !in orders { return Some(NotFound); }
      var o := orders[id];
      var filled := o.filled + quantity;
      if filled > o.quantity { filled := o.quantity; }
      UpdateFilled(id, Some(filled));
      if filled < o.quantity && o.status != Filled { return None; }
      err := ReleaseRemainingOf(id);
    }

    method ApplyTrade(t: TradeApply) returns (err: Option<DbError>)
      modifies this
      ensures Ends(old(Value()), Value(), err, ApplyTradeEvent(rules, old(Value()), t))
    {
      if t.tradeId == 0 { return Some(Rejection); }
      if t.tradeId > MAX_TRADE_ID { return Some(Skippable); }
      if t.price == None || t.price.value <= 0 { return Some(Rejection); }
      if t.quantity == None || t.quantity.value <= 0 { return Some(Rejection); }
      var pair := rules.pair(t.symbol);
      if pair == None { return Some(Rejection); }
      var tx := Begin();
      if t.tradeId in trades { return None; }
      trades := trades + {t.tradeId};
      if t.maker !in orders || t.taker !in orders {
        Rollback(tx);
        return Some(NotFound);
      }
      var maker, taker := orders[t.maker], orders[t.taker];
      var notional, quantity := t.price.value * t.quantity.value, Amount(t.quantity.value);
      err := SettleFor(maker.user, maker.side, pair.value, notional, quantity);
      if err == None { err := SettleFor(taker.user, taker.side, pair.value, notional, quantity); }
      if err != None {
        Rollback(tx);
        return;
      }
      err := FillOrder(t.maker, t.quantity.value);
      if err == None { err := FillOrder(t.taker, t.quantity.value); }
      if err != None { Rollback(tx); }
    }

    method RequestCancel(user: nat, id: nat) returns (err: Option<DbError>)
      modifies this
      ensures Ends(old(Value()), Value(), err, BeginCancel(old(Value()), user, id))
      ensures err == Some(NotFound) <==> !(id in old(orders) && old(orders)[id].user == user)
      ensures err == None <==> id in old(orders) && old(orders)[id].user == user
                               && old(orders)[id].status != Filled && old(orders)[id].status != Rejected
      ensures err == None ==> if old(orders)[id].status == Canceling || old(orders)[id].status == Canceled
                              then Value() == old(Value())
                              else orders[id].status == Canceling && outbox == old(outbox) + [CancelRow(id)]
    {
      if id !in orders || orders[id].user != user { return Some(NotFound); }
      var s := orders[id].status;
      if s == Canceling || s == Canceled { return None; }
      if s == Filled || s == Rejected || !CanTransition(s, Canceling) { return Some(NotCancelable); }
      UpdateStatus(id, Canceling, None);
      outbox := outbox + [CancelRow(id)];
      err := None;
    }

    method RejectStale(id: nat) returns (err: Option<DbError>)
      modifies this
      ensures Ends(old(Value()), Value(), err, RejectStalePending(rules, old(Value()), id))
    {
      var tx := Begin();
      if id !in orders { return Some(NotFound); }
      if orders[id].status != Pending { return None; }
      UpdateStatus(id, Rejected, None);
      err := ReleaseRemainingOf(id);
      if err != None {
        Rollback(tx);
        return;
      }
      outbox := outbox + [CancelRow(id)];
    }

    method ResendCancelOf(id: nat) returns (err: Option<DbError>)
      modifies this
      ensures Ends(old(Value()), Value(), err, ResendCancel(old(Value()), id))
    {
      if id !in orders { return Some(NotFound); }
      if orders[id].status != Canceling { return None; }
      outbox := outbox + [CancelRow(id)];
      err := None;
    }
  }
}
