// What the transactions of the ledger do to orders and accounts, row by row.
module LedgerEffects {
  import opened Wrappers
  import opened Multiples
  import opened OrderStatus
  import opened Freeze
  import opened Ledger
  import opened LedgerRuns
  import opened LedgerGuards

  // ---- Statuses ----

  predicate IsEvent(step: Step, id: nat, eventType: int) {
    step.Event? && step.event.orderId == id && step.event.eventType == eventType
  }

  predicate IsOpen(s: Status) { s == Pending || s == Status.Accepted || s == Partial }

  // What brings an order from one status to another: matching says that it is accepted (1), filled
  // (2), partially filled (3) or canceled (4), its owner asks to cancel it, or it is given up while
  // it is pending.
  predicate Brings(step: Step, o: Order, to: Status) {
    match to
    case Pending => false
    case Accepted => IsEvent(step, o.id, 1) && (o.status == Pending || o.status == Canceling)
    case Filled => IsEvent(step, o.id, 2) && (IsOpen(o.status) || o.status == Canceling)
    case Partial => IsEvent(step, o.id, 3) && (IsOpen(o.status) || o.status == Canceling)
    case Canceled => IsEvent(step, o.id, 4) && (IsOpen(o.status) || o.status == Canceling)
    case Canceling => step == AskCancel(o.user, o.id) && IsOpen(o.status)
    case Rejected => step == RejectStale(o.id) && o.status == Pending
  }

  ghost predicate Keyed(db: DB) { forall id :: id in db.orders ==> db.orders[id].id == id }

  // A new match event writes one order: its status, unless it has ended, and what it says is filled.
  lemma EventWrites(rules: Rules, db: DB, ev: MatchApply)
    requires ApplyMatchEvent(rules, db, ev).Ok? && ev.Key() !in db.processed
    ensures var after := ApplyMatchEvent(rules, db, ev).value;
            && ev.orderId in db.orders && ev.orderId in after.orders
            && after == db.(orders := db.orders[ev.orderId := after.orders[ev.orderId]], accounts := after.accounts,
                            processed := db.processed + {ev.Key()})
            && WritesOne(db.orders[ev.orderId], after.orders[ev.orderId], ev)
  {
    var o, target := db.orders[ev.orderId], TargetStatus(ev.eventType).value;
    var noted := db.(processed := db.processed + {ev.Key()});
    assert db.orders[ev.orderId := o] == db.orders;
    var moved := if o.status == target then SetFilled(noted, ev.orderId, ev.filled)
                 else if IsTerminal(o.status) then noted
                 else SetStatus(noted, ev.orderId, target, ev.filled);
    if o.status == target || !IsTerminal(o.status) { EndKeeps(rules, moved, ev.orderId, target); }
  }

  lemma EndKeeps(rules: Rules, db: DB, id: nat, target: Status)
    requires EndIfCanceled(rules, db, id, target).Ok?
    ensures var after := EndIfCanceled(rules, db, id, target).value; after == db.(accounts := after.accounts)
  {
  }

  predicate WritesOne(o: Order, after: Order, ev: MatchApply) {
    && after == o.(status := after.status, filled := after.filled, version := after.version)
    && (var target := if ev.eventType == 1 then Status.Accepted
                      else if ev.eventType == 2 then Status.Filled
                      else if ev.eventType == 3 then Partial
                      else Canceled;
        var ended := o.status == Status.Filled || o.status == Canceled || o.status == Rejected;
        && after.status == (if ended then o.status else target)
        && after.filled == if ev.filled.Some? && (!ended || o.status == target) then ev.filled.value else o.filled)
    && 1 <= ev.eventType <= 4
  }

  // A status changes exactly when something brings it about.
  lemma StatusChangesExactlyWhen(rules: Rules, db: DB, step: Step, id: nat, to: Status)
    requires Keyed(db) && id in db.orders && to != db.orders[id].status
    ensures id in Next(rules, db, step).orders
    ensures Next(rules, db, step).orders[id].status == to <==>
            Attempt(rules, db, step).Ok? && Brings(step, db.orders[id], to)
            && (step.Event? ==> step.event.Key() !in db.processed)
  {
    StepMoves(rules, db, step);
    if Attempt(rules, db, step).Ok? {
      match step
      case Place(_, _) =>
      case Event(ev) => EventBrings(rules, db, ev, id, to);
      case Trade(t) => TradeKeepsStatus(rules, db, t);
      case AskCancel(user, asked) => CancelBrings(rules, db, user, asked, id, to);
      case RejectStale(stale) => RejectBrings(rules, db, stale, id, to);
      case Resend(_) =>
      case Adjust(_, _, _) =>
    }
  }

  lemma EventBrings(rules: Rules, db: DB, ev: MatchApply, id: nat, to: Status)
    requires Keyed(db) && id in db.orders && to != db.orders[id].status && ApplyMatchEvent(rules, db, ev).Ok?
    ensures var after := ApplyMatchEvent(rules, db, ev).value;
            && id in after.orders
            && (after.orders[id].status == to <==>
                  Brings(Event(ev), db.orders[id], to) && ev.Key() !in db.processed)
  {
    if ev.Key() !in db.processed {
      EventWrites(rules, db, ev);
      EventAllowed(rules, db, ev);
    }
  }

  // No event tells an order that has traded a part that it is accepted.
  lemma EventAllowed(rules: Rules, db: DB, ev: MatchApply)
    requires ApplyMatchEvent(rules, db, ev).Ok? && ev.Key() !in db.processed
    ensures var s := db.orders[ev.orderId].status; ev.eventType == 1 ==> s != Partial
  {
  }

  lemma CancelBrings(rules: Rules, db: DB, user: nat, asked: nat, id: nat, to: Status)
    requires Keyed(db) && id in db.orders && to != db.orders[id].status && BeginCancel(db, user, asked).Ok?
    ensures var after := BeginCancel(db, user, asked).value;
            && id in after.orders
            && (after.orders[id].status == to <==> Brings(AskCancel(user, asked), db.orders[id], to))
  {
    CancelsExactlyWhen(db, user, asked);
  }

  // Who may cancel what, and what a request does.
  lemma CancelsExactlyWhen(db: DB, user: nat, id: nat)
    ensures BeginCancel(db, user, id) == Abort(NotFound) <==> !(id in db.orders && db.orders[id].user == user)
    ensures BeginCancel(db, user, id).Ok? <==>
            && id in db.orders && db.orders[id].user == user
            && db.orders[id].status != Status.Filled && db.orders[id].status != Rejected
    ensures BeginCancel(db, user, id).Ok? ==>
              var o, after := db.orders[id], BeginCancel(db, user, id).value;
              if IsOpen(o.status)
              then after == db.(orders := db.orders[id := o.(status := Canceling, version := o.version + 1)],
                                outbox := db.outbox + [CancelRow(id)])
              else after == db && (o.status == Canceling || o.status == Canceled)
  {
    if id in db.orders && db.orders[id].status != Canceling {
      assert AllowedFrom(Canceling) == [Pending, Status.Accepted, Partial];
      assert AllowedFrom(Canceling)[0] == Pending && AllowedFrom(Canceling)[1] == Status.Accepted;
      assert AllowedFrom(Canceling)[2] == Partial;
    }
  }

  lemma RejectBrings(rules: Rules, db: DB, stale: nat, id: nat, to: Status)
    requires Keyed(db) && id in db.orders && to != db.orders[id].status && RejectStalePending(rules, db, stale).Ok?
    ensures var after := RejectStalePending(rules, db, stale).value;
            && id in after.orders
            && (after.orders[id].status == to <==> Brings(RejectStale(stale), db.orders[id], to))
  {
  }

  lemma TradeKeepsStatus(rules: Rules, db: DB, t: TradeApply)
    requires ApplyTradeEvent(rules, db, t).Ok?
    ensures var after := ApplyTradeEvent(rules, db, t).value;
            forall id :: id in db.orders ==> id in after.orders && after.orders[id].status == db.orders[id].status
  {
    if t.tradeId !in db.trades {
      var noted := db.(trades := db.trades + {t.tradeId});
      var settled := SettleBoth(rules, noted, t, rules.pair(t.symbol).value).value;
      FillMoves(rules, settled, t.maker, t.quantity.value);
      FillMoves(rules, TradeFill(rules, settled, t.maker, t.quantity.value).value, t.taker, t.quantity.value);
    }
  }
  // Over every run an order that is being canceled was asked to be by its owner.
  lemma {:induction false} OnlyOwnersCancel(rules: Rules, db: DB, steps: seq<Step>, id: nat)
    requires Keyed(db) && id in db.orders && db.orders[id].status != Canceling
    ensures Keyed(After(rules, db, steps)) && id in After(rules, db, steps).orders
    ensures After(rules, db, steps).orders[id].user == db.orders[id].user
    ensures After(rules, db, steps).orders[id].status == Canceling ==>
              exists k :: 0 <= k < |steps| && steps[k] == AskCancel(db.orders[id].user, id)
  {
    if steps != [] {
      var n := |steps| - 1;
      var before := After(rules, db, steps[..n]);
      OnlyOwnersCancel(rules, db, steps[..n], id);
      StepMoves(rules, before, steps[n]);
      NextIsKeyed(rules, before, steps[n]);
      if before.orders[id].status == Canceling {
        var k :| 0 <= k < n && steps[..n][k] == AskCancel(db.orders[id].user, id);
        assert steps[k] == AskCancel(db.orders[id].user, id);
      } else {
        StatusChangesExactlyWhen(rules, before, steps[n], id, Canceling);
      }
    }
  }

  lemma NextIsKeyed(rules: Rules, db: DB, step: Step)
    requires Keyed(db)
    ensures Keyed(Next(rules, db, step))
  {
    if step.Place? {
    } else {
      StepAsks(rules, db, step);
    }
  }

  // A new match event of a known kind for an order that is not there, a trade id that does not fit its
  // column, or a new well-formed trade one of whose orders is not there.
  predicate LacksOrder(rules: Rules, db: DB, m: Message) {
    match m
    case MatchMessage(ev) => 1 <= ev.eventType <= 4 && ev.Key() !in db.processed && ev.orderId !in db.orders
    case TradeMessage(t) =>
      t.tradeId > MAX_TRADE_ID
      || (WellFormed(rules, t) && t.tradeId !in db.trades && (t.maker !in db.orders || t.taker !in db.orders))
  }

  // A consumer that is running goes past a message exactly when it commits or is one of these, which it
  // skips.
  lemma GoesPastExactlyWhen(rules: Rules, topic: seq<Message>, c: Consumer)
    requires c.position < |topic|
    ensures var m, after := topic[c.position], LoopNext(rules, topic, c, Deliver);
            && (after.position == c.position + 1 <==>
                  Attempt(rules, c.db, StepOf(m)).Ok? || LacksOrder(rules, c.db, m))
            && (after.position != c.position + 1 ==> after == c)
            && (after.db != c.db ==> Attempt(rules, c.db, StepOf(m)) == Ok(after.db))
  {
    SkipsExactlyWhen(rules, c.db, topic[c.position]);
  }

  lemma SkipsExactlyWhen(rules: Rules, db: DB, m: Message)
    ensures var tx := Attempt(rules, db, StepOf(m));
            tx.Abort? && IsStale(tx.error) <==> LacksOrder(rules, db, m)
  {
    var tx := Attempt(rules, db, StepOf(m));
    if tx.Abort? && IsStale(tx.error) { StaleIsMissing(rules, db, m); }
  }

  // ---- Rows of the outbox ----

  // What a step writes for matching: a new order when it is placed, and a cancellation when the owner
  // asks for it, when the order is given up, or when it is sent again while the order is canceling.
  lemma RowsExactlyWhen(rules: Rules, db: DB, step: Step, row: OutboxRow)
    ensures Next(rules, db, step).outbox == db.outbox + [row] <==>
            Attempt(rules, db, step).Ok? &&
            match step
            case Place(id, _) => row == NewOrderRow(id)
            case AskCancel(_, id) => row == CancelRow(id) && IsOpen(db.orders[id].status)
            case RejectStale(id) => row == CancelRow(id) && db.orders[id].status == Pending
            case Resend(id) => row == CancelRow(id) && db.orders[id].status == Canceling
            case _ => false
  {
    assert |db.outbox + [row]| != |db.outbox|;
    forall x: OutboxRow ensures db.outbox + [x] == db.outbox + [row] <==> x == row {
      assert (db.outbox + [x])[|db.outbox|] == x;
    }
    if Attempt(rules, db, step).Ok? {
      match step
      case Event(ev) => EventAsks(rules, db, ev);
      case Trade(t) => TradeAsks(rules, db, t);
      case AskCancel(user, id) => CancelsExactlyWhen(db, user, id);
      case _ =>
    }
  }

  // ---- What users own ----

  // What a user has of an asset, free or frozen.
  function Owned(a: Accounts, user: nat, asset: string): int {
    if (user, asset) in a then a[(user, asset)].balance + a[(user, asset)].frozen else 0
  }

  // What a trade gives a user, or takes: the buyer gets the base and pays the quote, the seller the
  // other way round.
  function Gain(rules: Rules, o: Order, t: TradeApply, user: nat, asset: string): int
    requires rules.pair(t.symbol).Some? && t.price.Some? && t.quantity.Some?
  {
    var pair := rules.pair(t.symbol).value;
    var base := if asset == pair.base then RoundDown(rules.unit(pair.base), t.quantity.value * ONE) else 0;
    var quote := if asset == pair.quote then RoundDown(rules.unit(pair.quote), t.price.value * t.quantity.value) else 0;
    if o.user != user then 0 else if o.side == Buy then base - quote else quote - base
  }

  lemma SettleGains(rules: Rules, a: Accounts, o: Order, t: TradeApply, pair: Pair, user: nat, asset: string)
    requires rules.pair(t.symbol) == Some(pair) && t.price.Some? && t.quantity.Some?
    requires var notional, quantity := t.price.value * t.quantity.value, Amount(t.quantity.value);
             Settle(rules, a, o.user, o.side, pair, notional, quantity).Ok?
    ensures var notional, quantity := t.price.value * t.quantity.value, Amount(t.quantity.value);
            Owned(Settle(rules, a, o.user, o.side, pair, notional, quantity).value, user, asset) ==
            Owned(a, user, asset) + Gain(rules, o, t, user, asset)
  {
  }

  lemma ReleaseKeepsOwned(rules: Rules, a: Accounts, o: Order, user: nat, asset: string)
    requires ReleaseRemaining(rules, a, o).Ok?
    ensures Owned(ReleaseRemaining(rules, a, o).value, user, asset) == Owned(a, user, asset)
  {
  }

  lemma FillKeepsOwned(rules: Rules, db: DB, id: nat, quantity: int, user: nat, asset: string)
    requires TradeFill(rules, db, id, quantity).Ok?
    ensures Owned(TradeFill(rules, db, id, quantity).value.accounts, user, asset) == Owned(db.accounts, user, asset)
  {
    var filled := if db.orders[id].filled + quantity > db.orders[id].quantity then db.orders[id].quantity
                  else db.orders[id].filled + quantity;
    var booked := SetFilled(db, id, Some(filled));
    if ReleaseRemaining(rules, db.accounts, booked.orders[id]).Ok? {
      ReleaseKeepsOwned(rules, db.accounts, booked.orders[id], user, asset);
    }
  }

  lemma TradeGains(rules: Rules, db: DB, t: TradeApply, user: nat, asset: string)
    requires ApplyTradeEvent(rules, db, t).Ok? && t.tradeId !in db.trades
    ensures Owned(ApplyTradeEvent(rules, db, t).value.accounts, user, asset) ==
            Owned(db.accounts, user, asset) + Gain(rules, db.orders[t.maker], t, user, asset)
            + Gain(rules, db.orders[t.taker], t, user, asset)
  {
    var pair := rules.pair(t.symbol).value;
    var noted, maker, taker := db.(trades := db.trades + {t.tradeId}), db.orders[t.maker], db.orders[t.taker];
    var notional, quantity := t.price.value * t.quantity.value, Amount(t.quantity.value);
    var half := Settle(rules, db.accounts, maker.user, maker.side, pair, notional, quantity).value;
    SettleGains(rules, db.accounts, maker, t, pair, user, asset);
    SettleGains(rules, half, taker, t, pair, user, asset);
    var settled := SettleBoth(rules, noted, t, pair).value;
    FillKeepsOwned(rules, settled, t.maker, t.quantity.value, user, asset);
    FillKeepsOwned(rules, TradeFill(rules, settled, t.maker, t.quantity.value).value, t.taker, t.quantity.value, user,
                   asset);
  }

  // What a step adds to what a user owns: only new trades and adjustments do.
  function AddedTo(rules: Rules, db: DB, step: Step, user: nat, asset: string): int {
    if Attempt(rules, db, step).Abort? then 0
    else
      match step
      case Adjust(u, x, delta) => if u == user && x == asset then delta else 0
      case Trade(t) =>
        if t.tradeId in db.trades then 0
        else Gain(rules, db.orders[t.maker], t, user, asset) + Gain(rules, db.orders[t.taker], t, user, asset)
      case _ => 0
  }

  lemma StepOwned(rules: Rules, db: DB, step: Step, user: nat, asset: string)
    ensures Owned(Next(rules, db, step).accounts, user, asset) ==
            Owned(db.accounts, user, asset) + AddedTo(rules, db, step, user, asset)
  {
    if Attempt(rules, db, step).Ok? {
      match step
      case Event(ev) => EventKeepsOwned(rules, db, ev, user, asset);
      case Trade(t) => if t.tradeId !in db.trades { TradeGains(rules, db, t, user, asset); }
      case RejectStale(id) =>
        var o := db.orders[id];
        if o.status == Pending {
          ReleaseKeepsOwned(rules, db.accounts, SetStatus(db, id, Rejected, None).orders[id], user, asset);
        }
      case _ =>
    }
  }

  lemma EventKeepsOwned(rules: Rules, db: DB, ev: MatchApply, user: nat, asset: string)
    requires ApplyMatchEvent(rules, db, ev).Ok?
    ensures Owned(ApplyMatchEvent(rules, db, ev).value.accounts, user, asset) == Owned(db.accounts, user, asset)
  {
    if ev.Key() !in db.processed {
      var o, target := db.orders[ev.orderId], TargetStatus(ev.eventType).value;
      var noted := db.(processed := db.processed + {ev.Key()});
      var moved := if o.status == target then SetFilled(noted, ev.orderId, ev.filled)
                   else SetStatus(noted, ev.orderId, target, ev.filled);
      if target == Canceled && (o.status == target || !IsTerminal(o.status)) {
        ReleaseKeepsOwned(rules, db.accounts, moved.orders[ev.orderId], user, asset);
      }
    }
  }

  function AddedUp(rules: Rules, db: DB, steps: seq<Step>, user: nat, asset: string): int {
    if steps == [] then 0
    else
      var n := |steps| - 1;
      AddedUp(rules, db, steps[..n], user, asset) + AddedTo(rules, After(rules, db, steps[..n]), steps[n], user, asset)
  }

  // Over every run each user owns of each asset what the trades of the user's orders and the adjustments
  // make of it; no other order and no other user changes it.
  lemma {:induction false} EveryUserOwns(rules: Rules, db: DB, steps: seq<Step>, user: nat, asset: string)
    ensures Owned(After(rules, db, steps).accounts, user, asset) ==
            Owned(db.accounts, user, asset) + AddedUp(rules, db, steps, user, asset)
  {
    if steps != [] {
      var n := |steps| - 1;
      EveryUserOwns(rules, db, steps[..n], user, asset);
      StepOwned(rules, After(rules, db, steps[..n]), steps[n], user, asset);
    }
  }

  // ---- Which funds a step moves ----

  function FreeOf(a: Accounts, user: nat, asset: string): int {
    if (user, asset) in a then a[(user, asset)].balance else 0
  }

  function FrozenOf(a: Accounts, user: nat, asset: string): int {
    if (user, asset) in a then a[(user, asset)].frozen else 0
  }

  // The step trades or ends an order of the user.
  predicate Concerns(db: DB, step: Step, user: nat) {
    match step
    case Trade(t) =>
      && t.maker in db.orders && t.taker in db.orders
      && (db.orders[t.maker].user == user || db.orders[t.taker].user == user)
    case Event(ev) => ev.eventType == 4 && ev.orderId in db.orders && db.orders[ev.orderId].user == user
    case RejectStale(id) => id in db.orders && db.orders[id].user == user
    case _ => false
  }

  // Funds of a user are frozen only by the user's own orders, taken out of the freeze only by what
  // trades or ends those, and free funds become less only by freezing or an adjustment.
  ghost predicate MovesFairly(a: Accounts, b: Accounts, places: bool, concerns: bool, adjusts: bool, user: nat,
                              asset: string) {
    && (FrozenOf(b, user, asset) > FrozenOf(a, user, asset) ==> places)
    && (FrozenOf(b, user, asset) < FrozenOf(a, user, asset) ==> concerns)
    && (FreeOf(b, user, asset) < FreeOf(a, user, asset) ==> places || adjusts)
    && (FreeOf(b, user, asset) > FreeOf(a, user, asset) ==> concerns || adjusts)
  }

  lemma StepMovesFairly(rules: Rules, db: DB, step: Step, user: nat, asset: string)
    ensures MovesFairly(db.accounts, Next(rules, db, step).accounts, step.Place? && step.placement.user == user,
                        Concerns(db, step, user), step.Adjust? && step.user == user && step.asset == asset, user, asset)
  {
    if Attempt(rules, db, step).Ok? {
      match step
      case Event(ev) => EventMovesFairly(rules, db, ev, user, asset);
      case Trade(t) => if t.tradeId !in db.trades { TradeMovesFairly(rules, db, t, user, asset); }
      case RejectStale(id) =>
        var o := db.orders[id];
        if o.status == Pending {
          ReleaseMovesFairly(rules, db.accounts, SetStatus(db, id, Rejected, None).orders[id], user, asset);
        }
      case _ =>
    }
  }

  lemma ReleaseMovesFairly(rules: Rules, a: Accounts, o: Order, user: nat, asset: string)
    requires ReleaseRemaining(rules, a, o).Ok?
    ensures MovesFairly(a, ReleaseRemaining(rules, a, o).value, false, o.user == user, false, user, asset)
  {
  }

  lemma EventMovesFairly(rules: Rules, db: DB, ev: MatchApply, user: nat, asset: string)
    requires ApplyMatchEvent(rules, db, ev).Ok?
    ensures MovesFairly(db.accounts, ApplyMatchEvent(rules, db, ev).value.accounts, false,
                        Concerns(db, Event(ev), user), false, user, asset)
  {
    if ev.Key() !in db.processed {
      var o, target := db.orders[ev.orderId], TargetStatus(ev.eventType).value;
      var noted := db.(processed := db.processed + {ev.Key()});
      var moved := if o.status == target then SetFilled(noted, ev.orderId, ev.filled)
                   else SetStatus(noted, ev.orderId, target, ev.filled);
      if target == Canceled && (o.status == target || !IsTerminal(o.status)) {
        ReleaseMovesFairly(rules, db.accounts, moved.orders[ev.orderId], user, asset);
      }
    }
  }

  lemma SettleMovesFairly(rules: Rules, a: Accounts, o: Order, pair: Pair, notional: int, quantity: int, user: nat,
                          asset: string)
    requires Settle(rules, a, o.user, o.side, pair, notional, quantity).Ok? && notional >= 0 && quantity >= 0
    ensures MovesFairly(a, Settle(rules, a, o.user, o.side, pair, notional, quantity).value, false, o.user == user,
                        false, user, asset)
  {
    FloorIs(rules.unit(pair.base), quantity);
    FloorIs(rules.unit(pair.quote), notional);
  }

  lemma FillMovesFairly(rules: Rules, db: DB, id: nat, quantity: int, user: nat, asset: string)
    requires TradeFill(rules, db, id, quantity).Ok?
    ensures MovesFairly(db.accounts, TradeFill(rules, db, id, quantity).value.accounts, false,
                        db.orders[id].user == user, false, user, asset)
  {
    var filled := if db.orders[id].filled + quantity > db.orders[id].quantity then db.orders[id].quantity
                  else db.orders[id].filled + quantity;
    var booked := SetFilled(db, id, Some(filled));
    if ReleaseRemaining(rules, db.accounts, booked.orders[id]).Ok? {
      ReleaseMovesFairly(rules, db.accounts, booked.orders[id], user, asset);
    }
  }

  lemma TradeMovesFairly(rules: Rules, db: DB, t: TradeApply, user: nat, asset: string)
    requires ApplyTradeEvent(rules, db, t).Ok? && t.tradeId !in db.trades
    ensures MovesFairly(db.accounts, ApplyTradeEvent(rules, db, t).value.accounts, false,
                        db.orders[t.maker].user == user || db.orders[t.taker].user == user, false, user, asset)
  {
    var pair := rules.pair(t.symbol).value;
    var noted, maker, taker := db.(trades := db.trades + {t.tradeId}), db.orders[t.maker], db.orders[t.taker];
    var notional, quantity := t.price.value * t.quantity.value, Amount(t.quantity.value);
    var half := Settle(rules, db.accounts, maker.user, maker.side, pair, notional, quantity).value;
    SettleMovesFairly(rules, db.accounts, maker, pair, notional, quantity, user, asset);
    SettleMovesFairly(rules, half, taker, pair, notional, quantity, user, asset);
    var settled := SettleBoth(rules, noted, t, pair).value;
    FillMovesFairly(rules, settled, t.maker, t.quantity.value, user, asset);
    FillMovesFairly(rules, TradeFill(rules, settled, t.maker, t.quantity.value).value, t.taker, t.quantity.value, user,
                    asset);
  }

  // ---- Placing and filling ----

  // What an order may cost, and in which asset.
  predicate HasCost(rules: Rules, p: Placement) {
    && rules.pair(p.symbol).Some? && p.quantity > 0 && p.side != NoSide
    && (p.side == Buy ==>
          if p.frozenAmount.Some? then p.frozenAmount.value > 0 else p.price.Some? && p.price.value > 0)
  }

  function CostOf(p: Placement): int {
    if p.side == Sell then p.quantity * ONE
    else if p.frozenAmount.Some? then p.frozenAmount.value
    else if p.price.Some? then p.price.value * p.quantity else 0
  }

  function AssetOf(rules: Rules, p: Placement): string
    requires rules.pair(p.symbol).Some?
  {
    if p.side == Buy then rules.pair(p.symbol).value.quote else rules.pair(p.symbol).value.base
  }

  // An order is placed exactly when it is new, has a cost, and its user has that much, rounded up to what
  // can be booked.
  lemma PlacesExactlyWhen(rules: Rules, db: DB, id: nat, p: Placement)
    ensures InsertPending(rules, db, id, p) == Abort(Duplicate) <==> id in db.orders || (p.user, p.client) in db.clients
    ensures InsertPending(rules, db, id, p).Ok? <==>
            && id !in db.orders && (p.user, p.client) !in db.clients && HasCost(rules, p)
            && (p.user, AssetOf(rules, p)) in db.accounts
            && db.accounts[(p.user, AssetOf(rules, p))].balance >= Ceil(rules.unit(AssetOf(rules, p)), CostOf(p))
  {
    if HasCost(rules, p) {
      if p.side == Buy && p.frozenAmount == None { Positive(p.price.value, p.quantity); }
      CeilIs(rules.unit(AssetOf(rules, p)), CostOf(p));
    }
  }

  // Placing freezes the smallest bookable amount that covers the cost, and writes the order as it was
  // asked for.
  lemma PlaceWrites(rules: Rules, db: DB, id: nat, p: Placement) returns (locked: int)
    requires InsertPending(rules, db, id, p).Ok?
    ensures HasCost(rules, p)
    ensures var asset := AssetOf(rules, p);
            var key := (p.user, asset);
            && locked % rules.unit(asset) == 0 && 0 < CostOf(p) <= locked < CostOf(p) + rules.unit(asset)
            && key in db.accounts && locked <= db.accounts[key].balance
            && InsertPending(rules, db, id, p).value ==
               db.(orders := db.orders[id := Order(id, p.user, p.client, p.symbol, p.side, p.price, p.frozenAmount,
                                                   p.quantity, 0, Pending, 0)],
                   clients := db.clients + {(p.user, p.client)},
                   accounts := db.accounts[key := Account(db.accounts[key].balance - locked,
                                                          db.accounts[key].frozen + locked)],
                   outbox := db.outbox + [NewOrderRow(id)])
  {
    PlacesExactlyWhen(rules, db, id, p);
    locked := Ceil(rules.unit(AssetOf(rules, p)), CostOf(p));
    if p.side == Buy && p.frozenAmount == None { Positive(p.price.value, p.quantity); }
    CeilIs(rules.unit(AssetOf(rules, p)), CostOf(p));
  }

  lemma Positive(a: int, b: int)
    requires a > 0 && b > 0
    ensures a * b > 0
  {
  }

  // An order that is given up while it is pending gives back what is frozen for it, and matching is
  // asked to cancel it.
  lemma RejectsExactlyWhen(rules: Rules, db: DB, id: nat)
    ensures RejectStalePending(rules, db, id).Ok? <==>
            id in db.orders && (db.orders[id].status == Pending ==> CanRelease(rules, db.accounts, db.orders[id]))
    ensures RejectStalePending(rules, db, id).Ok? ==>
              var o := db.orders[id];
              RejectStalePending(rules, db, id).value ==
              if o.status != Pending then db
              else db.(orders := db.orders[id := o.(status := Rejected, version := o.version + 1)],
                       accounts := Released(rules, db.accounts, o), outbox := db.outbox + [CancelRow(id)])
  {
    if id in db.orders {
      var o := db.orders[id];
      var rejected := o.(status := Rejected, version := o.version + 1);
      ReleasesExactlyWhen(rules, db.accounts, rejected);
      assert RemainingFreeze(rules, rejected) == RemainingFreeze(rules, o);
    }
  }

  // What is released: the share of the freeze for what is not filled, rounded down to what can be booked
  // and cut to what is still frozen.
  lemma ReleasedIs(rules: Rules, a: Accounts, o: Order)
    requires CanRelease(rules, a, o) && 0 <= o.filled < o.quantity
    ensures rules.pair(o.symbol).Some? && o.side != NoSide
    ensures var pair, left := rules.pair(o.symbol).value, o.quantity - o.filled;
            var key := (o.user, if o.side == Buy then pair.quote else pair.base);
            var share := if o.side == Sell then left * ONE
                         else if o.frozenAmount.Some? then DivRound(o.frozenAmount.value * left, o.quantity)
                         else if o.price.Some? then o.price.value * left else 0;
            var amount := RoundDown(rules.unit(key.1), share);
            && (amount == 0 ==> Released(rules, a, o) == a)
            && (amount != 0 ==>
                  && amount > 0 && key in a
                  && var given := if a[key].frozen < amount then a[key].frozen else amount;
                     Released(rules, a, o) == a[key := Account(a[key].balance + given, a[key].frozen - given)])
  {
  }

  function FilledBy(o: Order, quantity: int): int {
    if o.filled + quantity > o.quantity then o.quantity else o.filled + quantity
  }

  // A new trade fills its two orders, up to their quantities, and no other.
  lemma TradeWrites(rules: Rules, db: DB, t: TradeApply)
    requires ApplyTradeEvent(rules, db, t).Ok? && t.tradeId !in db.trades && t.maker != t.taker
    ensures t.maker in db.orders && t.taker in db.orders && t.quantity.Some?
    ensures var maker, taker, q := db.orders[t.maker], db.orders[t.taker], t.quantity.value;
            var after := ApplyTradeEvent(rules, db, t).value;
            var maker', taker' := maker.(filled := FilledBy(maker, q), version := maker.version + 1),
                                  taker.(filled := FilledBy(taker, q), version := taker.version + 1);
            after == db.(orders := db.orders[t.maker := maker'][t.taker := taker'], trades := db.trades + {t.tradeId},
                         accounts := after.accounts)
  {
    var pair, q := rules.pair(t.symbol).value, t.quantity.value;
    var settled := SettleBoth(rules, db.(trades := db.trades + {t.tradeId}), t, pair).value;
    FillWrites(rules, settled, t.maker, q);
    FillWrites(rules, TradeFill(rules, settled, t.maker, q).value, t.taker, q);
  }

  lemma FillWrites(rules: Rules, db: DB, id: nat, quantity: int)
    requires TradeFill(rules, db, id, quantity).Ok?
    ensures var after, o := TradeFill(rules, db, id, quantity).value, db.orders[id];
            after == db.(orders := db.orders[id := o.(filled := FilledBy(o, quantity), version := o.version + 1)],
                         accounts := after.accounts)
  {
  }
}
