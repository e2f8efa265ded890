// Properties of whole runs of the ledger: conservation, statuses, and exactly-once effects of
// events that are delivered at least once.
module LedgerRuns {
  import opened Sorting
  import opened Wrappers
  import opened Multiples
  import opened OrderStatus
  import opened Freeze
  import opened Settlement
  import opened Ledger
  import G = LedgerGuards

  datatype Step = Place(id: nat, placement: Placement)
                | Event(event: MatchApply)
                | Trade(trade: TradeApply)
                | AskCancel(user: nat, id: nat)
                | RejectStale(id: nat)
                | Resend(id: nat)
                | Adjust(user: nat, asset: string, delta: int)

  function Attempt(rules: Rules, db: DB, step: Step): Tx<DB> {
    match step
    case Place(id, p) => InsertPending(rules, db, id, p)
    case Event(ev) => ApplyMatchEvent(rules, db, ev)
    case Trade(t) => ApplyTradeEvent(rules, db, t)
    case AskCancel(user, id) => BeginCancel(db, user, id)
    case RejectStale(id) => RejectStalePending(rules, db, id)
    case Resend(id) => ResendCancel(db, id)
    case Adjust(user, asset, delta) =>
      var a :- AdjustBalance(db.accounts, user, asset, delta);
      Ok(db.(accounts := a))
  }

  // A transaction that aborts is rolled back.
  function Next(rules: Rules, db: DB, step: Step): DB {
    match Attempt(rules, db, step) case Ok(after) => after case Abort(_) => db
  }

  function After(rules: Rules, db: DB, steps: seq<Step>): DB {
    if steps == [] then db else Next(rules, After(rules, db, steps[..|steps| - 1]), steps[|steps| - 1])
  }

  // ---- Conservation ----

  // The two orders of a trade are on opposite sides, as the matcher makes them.
  predicate OppositeSides(db: DB, step: Step) {
    step.Trade? && step.trade.maker in db.orders && step.trade.taker in db.orders ==>
      db.orders[step.trade.maker].side != db.orders[step.trade.taker].side
  }

  predicate Fair(rules: Rules, db: DB, steps: seq<Step>) {
    steps == [] ||
    (Fair(rules, db, steps[..|steps| - 1]) && OppositeSides(After(rules, db, steps[..|steps| - 1]), steps[|steps| - 1]))
  }

  // What the adjustments that went through added to an asset.
  function Added(rules: Rules, db: DB, steps: seq<Step>, asset: string): int {
    if steps == [] then 0
    else
      var before, step := steps[..|steps| - 1], steps[|steps| - 1];
      Added(rules, db, before, asset) + AddedBy(rules, After(rules, db, before), step, asset)
  }

  function AddedBy(rules: Rules, db: DB, step: Step, asset: string): int {
    if step.Adjust? && step.asset == asset && Attempt(rules, db, step).Ok? then step.delta else 0
  }

  lemma StepConserves(rules: Rules, db: DB, step: Step, asset: string)
    requires NonNegative(db.accounts) && OppositeSides(db, step)
    ensures NonNegative(Next(rules, db, step).accounts)
    ensures Total(Next(rules, db, step).accounts, asset) == Total(db.accounts, asset) + AddedBy(rules, db, step, asset)
  {
    if Attempt(rules, db, step).Ok? {
      match step
      case Place(id, p) =>
        var f := ComputeFreeze(rules, p.side, p.symbol, p.price, p.quantity, p.frozenAmount).value;
        LockIsBooked(db.accounts, p.user, f.asset, RoundUp(rules.unit(f.asset), f.amount));
      case Event(ev) => EventConserves(rules, db, ev);
      case Trade(t) => TradeConserves(rules, db, t, asset);
      case AskCancel(user, id) =>
      case RejectStale(id) =>
        if db.orders[id].status == Pending { ReleaseConserves(rules, SetStatus(db, id, Rejected, None), id); }
      case Resend(id) =>
      case Adjust(user, x, delta) => AdjustIsBooked(db.accounts, user, x, delta);
    }
  }

  lemma EventConserves(rules: Rules, db: DB, ev: MatchApply)
    requires NonNegative(db.accounts) && ApplyMatchEvent(rules, db, ev).Ok?
    ensures Conserves(db.accounts, ApplyMatchEvent(rules, db, ev).value.accounts)
  {
    if ev.Key() !in db.processed && ev.orderId in db.orders {
      var o, noted := db.orders[ev.orderId], db.(processed := db.processed + {ev.Key()});
      var target := TargetStatus(ev.eventType).value;
      var moved := if o.status == target then SetFilled(noted, ev.orderId, ev.filled)
                   else SetStatus(noted, ev.orderId, target, ev.filled);
      if target == Canceled && (o.status == target || !IsTerminal(o.status)) {
        ReleaseConserves(rules, moved, ev.orderId);
      }
    }
  }

  lemma TradeConserves(rules: Rules, db: DB, t: TradeApply, asset: string)
    requires NonNegative(db.accounts) && ApplyTradeEvent(rules, db, t).Ok? && OppositeSides(db, Trade(t))
    ensures NonNegative(ApplyTradeEvent(rules, db, t).value.accounts)
    ensures Total(ApplyTradeEvent(rules, db, t).value.accounts, asset) == Total(db.accounts, asset)
  {
    if t.tradeId !in db.trades {
      TradeDelta(rules, db, t, asset);
      SidesAreReal(rules, db, t);
    }
  }

  // Over every interleaving of placing, canceling, rejecting, match events, trades and
  // adjustments, with aborted transactions rolled back: nothing becomes negative, and the total
  // of an asset over all users changes only by the adjustments.
  lemma {:induction false} EveryRunConserves(rules: Rules, db: DB, steps: seq<Step>, asset: string)
    requires NonNegative(db.accounts) && Fair(rules, db, steps)
    ensures NonNegative(After(rules, db, steps).accounts)
    ensures Total(After(rules, db, steps).accounts, asset) == Total(db.accounts, asset) + Added(rules, db, steps, asset)
  {
    if steps != [] {
      var before := steps[..|steps| - 1];
      EveryRunConserves(rules, db, before, asset);
      StepConserves(rules, After(rules, db, before), steps[|steps| - 1], asset);
    }
  }

  // ---- Statuses ----

  // Orders stay, and their statuses move only along allowed transitions.
  ghost predicate Moves(a: DB, b: DB) {
    forall id :: id in a.orders ==>
      id in b.orders && MovesOne(a.orders[id], b.orders[id])
  }

  predicate MovesOne(a: Order, b: Order) {
    && CanTransition(a.status, b.status)
    && a == b.(status := a.status, filled := a.filled, version := a.version) && a.version <= b.version
  }

  lemma StepMoves(rules: Rules, db: DB, step: Step)
    ensures Moves(db, Next(rules, db, step))
  {
    if Attempt(rules, db, step).Ok? {
      match step
      case Place(id, p) =>
      case Event(ev) => EventMoves(rules, db, ev);
      case Trade(t) => TradeMoves(rules, db, t);
      case AskCancel(user, id) =>
      case RejectStale(id) => assert AllowedFrom(Rejected)[0] == Pending;
      case Resend(id) =>
      case Adjust(_, _, _) =>
    }
  }

  lemma EventMoves(rules: Rules, db: DB, ev: MatchApply)
    requires ApplyMatchEvent(rules, db, ev).Ok?
    ensures Moves(db, ApplyMatchEvent(rules, db, ev).value)
  {
  }

  lemma FillMoves(rules: Rules, db: DB, id: nat, quantity: int)
    requires TradeFill(rules, db, id, quantity).Ok?
    ensures Moves(db, TradeFill(rules, db, id, quantity).value)
    ensures var after := TradeFill(rules, db, id, quantity).value;
            forall x :: x in db.orders ==> after.orders[x].status == db.orders[x].status
  {
  }

  lemma TradeMoves(rules: Rules, db: DB, t: TradeApply)
    requires ApplyTradeEvent(rules, db, t).Ok?
    ensures Moves(db, ApplyTradeEvent(rules, db, t).value)
  {
    if t.tradeId !in db.trades {
      var noted := db.(trades := db.trades + {t.tradeId});
      var settled := SettleBoth(rules, noted, t, rules.pair(t.symbol).value).value;
      FillMoves(rules, settled, t.maker, t.quantity.value);
      FillMoves(rules, TradeFill(rules, settled, t.maker, t.quantity.value).value, t.taker, t.quantity.value);
    }
  }

  // A terminal status never changes, whatever comes after.
  lemma {:induction false} TerminalStays(rules: Rules, db: DB, steps: seq<Step>, id: nat)
    requires id in db.orders && IsTerminal(db.orders[id].status)
    ensures id in After(rules, db, steps).orders && After(rules, db, steps).orders[id].status == db.orders[id].status
  {
    if steps != [] {
      var before := After(rules, db, steps[..|steps| - 1]);
      TerminalStays(rules, db, steps[..|steps| - 1], id);
      StepMoves(rules, before, steps[|steps| - 1]);
      TerminalHasNoExit(before.orders[id].status);
    }
  }

  // ---- Orders, client keys and the outbox ----

  predicate SameClient(a: Order, b: Order) { a.user == b.user && a.client == b.client }

  // One order per client key, each with its key recorded.
  ghost predicate KeysRecorded(db: DB) {
    && (forall id :: id in db.orders ==> (db.orders[id].user, db.orders[id].client) in db.clients)
    && (forall i, j :: i in db.orders && j in db.orders && SameClient(db.orders[i], db.orders[j]) ==> i == j)
  }

  ghost predicate Announced(outbox: seq<OutboxRow>, id: nat, before: nat) {
    exists j :: 0 <= j < before && j < |outbox| && outbox[j] == NewOrderRow(id)
  }

  // Every order is announced to matching, and never cancelled before it is announced.
  ghost predicate OutboxInOrder(outbox: seq<OutboxRow>, ids: set<nat>) {
    && (forall id :: id in ids ==> Announced(outbox, id, |outbox|))
    && (forall i :: 0 <= i < |outbox| && outbox[i].CancelRow? ==> Announced(outbox, outbox[i].orderId, i))
  }

  // Nor is any order announced twice, or before it exists.
  ghost predicate AnnouncedOnce(outbox: seq<OutboxRow>, ids: set<nat>) {
    && (forall i :: 0 <= i < |outbox| && outbox[i].NewOrderRow? ==> outbox[i].orderId in ids)
    && (forall i, j :: 0 <= i < j < |outbox| && outbox[i].NewOrderRow? && outbox[j].NewOrderRow? ==>
          outbox[i].orderId != outbox[j].orderId)
  }

  ghost predicate WellKept(db: DB) {
    KeysRecorded(db) && OutboxInOrder(db.outbox, db.orders.Keys) && AnnouncedOnce(db.outbox, db.orders.Keys)
  }

  // What a transaction other than a placement adds to the outbox, at most.
  ghost predicate Asks(was: DB, now: DB) {
    && now.clients == was.clients && now.orders.Keys == was.orders.Keys && Moves(was, now)
    && (now.outbox == was.outbox || exists id :: id in was.orders && now.outbox == was.outbox + [CancelRow(id)])
  }

  lemma AnnouncedStays(outbox: seq<OutboxRow>, row: OutboxRow, id: nat, before: nat)
    requires Announced(outbox, id, before) && before <= |outbox|
    ensures Announced(outbox + [row], id, before) && Announced(outbox + [row], id, |outbox| + 1)
  {
    var j :| 0 <= j < before && outbox[j] == NewOrderRow(id);
    assert (outbox + [row])[j] == NewOrderRow(id);
  }

  lemma CancelAppended(outbox: seq<OutboxRow>, ids: set<nat>, id: nat)
    requires OutboxInOrder(outbox, ids) && AnnouncedOnce(outbox, ids) && id in ids
    ensures OutboxInOrder(outbox + [CancelRow(id)], ids) && AnnouncedOnce(outbox + [CancelRow(id)], ids)
  {
    var now := outbox + [CancelRow(id)];
    forall x | x in ids ensures Announced(now, x, |now|) { AnnouncedStays(outbox, CancelRow(id), x, |outbox|); }
    forall i | 0 <= i < |now| && now[i].CancelRow? ensures Announced(now, now[i].orderId, i) {
      AnnouncedStays(outbox, CancelRow(id), now[i].orderId, if i < |outbox| then i else |outbox|);
    }
  }

  lemma NewOrderAppended(outbox: seq<OutboxRow>, ids: set<nat>, id: nat)
    requires OutboxInOrder(outbox, ids) && AnnouncedOnce(outbox, ids) && id !in ids
    ensures OutboxInOrder(outbox + [NewOrderRow(id)], ids + {id})
            && AnnouncedOnce(outbox + [NewOrderRow(id)], ids + {id})
  {
    var now := outbox + [NewOrderRow(id)];
    forall x | x in ids + {id} ensures Announced(now, x, |now|) {
      if x == id {
        assert now[|outbox|] == NewOrderRow(id);
      } else {
        AnnouncedStays(outbox, NewOrderRow(id), x, |outbox|);
      }
    }
    forall i | 0 <= i < |now| && now[i].CancelRow? ensures Announced(now, now[i].orderId, i) {
      AnnouncedStays(outbox, NewOrderRow(id), now[i].orderId, i);
    }
  }

  lemma MovingKeepsKeys(was: DB, now: DB)
    requires KeysRecorded(was) && Moves(was, now) && now.clients == was.clients && now.orders.Keys == was.orders.Keys
    ensures KeysRecorded(now)
  {
  }

  lemma AskingKeeps(was: DB, now: DB)
    requires WellKept(was) && Asks(was, now)
    ensures WellKept(now)
  {
    MovingKeepsKeys(was, now);
    if now.outbox != was.outbox {
      var id :| id in was.orders && now.outbox == was.outbox + [CancelRow(id)];
      CancelAppended(was.outbox, was.orders.Keys, id);
    }
  }

  lemma PlacingKeeps(rules: Rules, db: DB, id: nat, p: Placement)
    requires WellKept(db) && InsertPending(rules, db, id, p).Ok?
    ensures WellKept(InsertPending(rules, db, id, p).value)
  {
    var now := InsertPending(rules, db, id, p).value;
    NewOrderAppended(db.outbox, db.orders.Keys, id);
    assert now.orders.Keys == db.orders.Keys + {id};
  }

  // Events touch neither the client keys nor the outbox.
  lemma EventAsks(rules: Rules, db: DB, ev: MatchApply)
    requires ApplyMatchEvent(rules, db, ev).Ok?
    ensures ApplyMatchEvent(rules, db, ev).value.clients == db.clients
    ensures ApplyMatchEvent(rules, db, ev).value.outbox == db.outbox
  {
  }

  lemma FillAsks(rules: Rules, db: DB, id: nat, quantity: int)
    requires TradeFill(rules, db, id, quantity).Ok?
    ensures TradeFill(rules, db, id, quantity).value.clients == db.clients
    ensures TradeFill(rules, db, id, quantity).value.outbox == db.outbox
  {
  }

  lemma TradeAsks(rules: Rules, db: DB, t: TradeApply)
    requires ApplyTradeEvent(rules, db, t).Ok?
    ensures ApplyTradeEvent(rules, db, t).value.clients == db.clients
    ensures ApplyTradeEvent(rules, db, t).value.outbox == db.outbox
  {
    if t.tradeId !in db.trades {
      var noted := db.(trades := db.trades + {t.tradeId});
      var settled := SettleBoth(rules, noted, t, rules.pair(t.symbol).value).value;
      FillAsks(rules, settled, t.maker, t.quantity.value);
      FillAsks(rules, TradeFill(rules, settled, t.maker, t.quantity.value).value, t.taker, t.quantity.value);
    }
  }

  lemma StepAsks(rules: Rules, db: DB, step: Step)
    requires !step.Place?
    ensures Asks(db, Next(rules, db, step))
  {
    StepMoves(rules, db, step);
    if Attempt(rules, db, step).Ok? {
      match step
      case Event(ev) => MessageAsks(rules, db, MatchMessage(ev));
      case Trade(t) => MessageAsks(rules, db, TradeMessage(t));
      case AskCancel(user, id) => SetKeepsKeys(db, id, Canceling, None);
      case RejectStale(id) => SetKeepsKeys(db, id, Rejected, None);
      case Resend(id) =>
      case Adjust(_, _, _) =>
    }
  }

  lemma MessageAsks(rules: Rules, db: DB, m: Message)
    requires Attempt(rules, db, StepOf(m)).Ok?
    ensures Asks(db, Next(rules, db, StepOf(m)))
  {
    StepMoves(rules, db, StepOf(m));
    EventsKeepOrders(rules, db, m);
    match m
    case MatchMessage(ev) => EventAsks(rules, db, ev);
    case TradeMessage(t) => TradeAsks(rules, db, t);
  }

  // Over every run there is one order per client key, each order is announced to matching exactly
  // once, and no cancellation overtakes the order it cancels.
  lemma {:induction false} EveryRunIsWellKept(rules: Rules, db: DB, steps: seq<Step>)
    requires WellKept(db)
    ensures WellKept(After(rules, db, steps))
  {
    if steps != [] {
      var before, step := After(rules, db, steps[..|steps| - 1]), steps[|steps| - 1];
      EveryRunIsWellKept(rules, db, steps[..|steps| - 1]);
      if step.Place? {
        if Attempt(rules, before, step).Ok? { PlacingKeeps(rules, before, step.id, step.placement); }
      } else {
        StepAsks(rules, before, step);
        AskingKeeps(before, Next(rules, before, step));
      }
    }
  }

  // Releasing undoes locking.
  lemma ReleaseUndoesLock(a: Accounts, user: nat, asset: string, amount: int)
    requires NonNegative(a) && LockFunds(a, user, asset, amount).Ok?
    ensures ReleaseFunds(LockFunds(a, user, asset, amount).value, user, asset, amount) == Ok(a)
  {
    var key := (user, asset);
    if amount > 0 {
      var locked := LockFunds(a, user, asset, amount).value;
      assert locked[key := a[key]] == a;
    }
  }

  // ---- Exactly-once effects ----

  datatype Message = MatchMessage(event: MatchApply) | TradeMessage(trade: TradeApply)

  function StepOf(m: Message): Step {
    match m case MatchMessage(ev) => Event(ev) case TradeMessage(t) => Trade(t)
  }

  predicate Recorded(db: DB, m: Message) {
    match m
    case MatchMessage(ev) => ev.Key() in db.processed
    case TradeMessage(t) => t.tradeId in db.trades
  }

  lemma AppliedIsRecorded(rules: Rules, db: DB, m: Message)
    requires Attempt(rules, db, StepOf(m)).Ok?
    ensures Recorded(Attempt(rules, db, StepOf(m)).value, m)
  {
  }

  lemma TradeRecords(rules: Rules, db: DB, t: TradeApply)
    requires ApplyTradeEvent(rules, db, t).Ok?
    ensures var after := ApplyTradeEvent(rules, db, t).value;
            db.processed <= after.processed && db.trades <= after.trades
  {
    if t.tradeId !in db.trades {
      var noted := db.(trades := db.trades + {t.tradeId});
      var settled := SettleBoth(rules, noted, t, rules.pair(t.symbol).value).value;
      FillRecords(rules, settled, t.maker, t.quantity.value);
      FillRecords(rules, TradeFill(rules, settled, t.maker, t.quantity.value).value, t.taker, t.quantity.value);
    }
  }

  lemma FillRecords(rules: Rules, db: DB, id: nat, quantity: int)
    requires TradeFill(rules, db, id, quantity).Ok?
    ensures var after := TradeFill(rules, db, id, quantity).value;
            after.processed == db.processed && after.trades == db.trades
  {
  }

  lemma EventRecords(rules: Rules, db: DB, ev: MatchApply)
    requires ApplyMatchEvent(rules, db, ev).Ok?
    ensures var after := ApplyMatchEvent(rules, db, ev).value;
            db.processed <= after.processed && db.trades <= after.trades
  {
  }

  lemma StepRecords(rules: Rules, db: DB, step: Step)
    ensures db.processed <= Next(rules, db, step).processed && db.trades <= Next(rules, db, step).trades
  {
    if Attempt(rules, db, step).Ok? {
      if step.Trade? { TradeRecords(rules, db, step.trade); }
      if step.Event? { EventRecords(rules, db, step.event); }
    }
  }

  lemma {:induction false} RecordedStays(rules: Rules, db: DB, steps: seq<Step>, m: Message)
    requires Recorded(db, m)
    ensures Recorded(After(rules, db, steps), m)
  {
    if steps != [] {
      var before := After(rules, db, steps[..|steps| - 1]);
      RecordedStays(rules, db, steps[..|steps| - 1], m);
      StepRecords(rules, before, steps[|steps| - 1]);
    }
  }

  // An event that has been applied once changes nothing when it is delivered again, however much
  // has happened in between.
  lemma RedeliveryChangesNothing(rules: Rules, db: DB, m: Message, steps: seq<Step>)
    requires Attempt(rules, db, StepOf(m)).Ok?
    ensures var later := After(rules, Attempt(rules, db, StepOf(m)).value, steps);
            Attempt(rules, later, StepOf(m)) == Ok(later)
  {
    AppliedIsRecorded(rules, db, m);
    RecordedStays(rules, Attempt(rules, db, StepOf(m)).value, steps, m);
  }

  // One pass over the first n messages: stale ones are skipped.
  function Pass(rules: Rules, db: DB, topic: seq<Message>, n: nat): DB
    requires n <= |topic|
  {
    if n == 0 then db else Next(rules, Pass(rules, db, topic, n - 1), StepOf(topic[n - 1]))
  }

  predicate Stops(rules: Rules, db: DB, m: Message) {
    var tx := Attempt(rules, db, StepOf(m));
    tx.Abort? && !IsStale(tx.error)
  }

  // Every one of the first n messages is applied or stale.
  predicate Passable(rules: Rules, db: DB, topic: seq<Message>, n: nat)
    requires n <= |topic|
  {
    n == 0 || (Passable(rules, db, topic, n - 1) && !Stops(rules, Pass(rules, db, topic, n - 1), topic[n - 1]))
  }

  // The consumer of one topic: what it has done to the database, where it reads next, and how far
  // it has ever been.
  datatype Consumer = Consumer(db: DB, position: nat, reached: nat)

  // Deliver processes the next message and commits behind it; a message that fails for a reason
  // that is not stale stops the loop where it is.  Rewind is any restart from an earlier position:
  // a crash between processing and committing, or a lost commit.  Other is any other writer.
  datatype LoopStep = Deliver | Rewind(to: nat) | Other(step: Step)

  function LoopNext(rules: Rules, topic: seq<Message>, c: Consumer, step: LoopStep): Consumer {
    match step
    case Rewind(to) => if to <= c.position then c.(position := to) else c
    case Other(s) => c.(db := Next(rules, c.db, s))
    case Deliver =>
      if c.position >= |topic| || Stops(rules, c.db, topic[c.position]) then c
      else Consumer(Next(rules, c.db, StepOf(topic[c.position])), c.position + 1,
                    if c.position + 1 > c.reached then c.position + 1 else c.reached)
  }

  function Loop(rules: Rules, topic: seq<Message>, db: DB, steps: seq<LoopStep>): Consumer {
    if steps == [] then Consumer(db, 0, 0)
    else LoopNext(rules, topic, Loop(rules, topic, db, steps[..|steps| - 1]), steps[|steps| - 1])
  }

  lemma EventsKeepOrders(rules: Rules, db: DB, m: Message)
    ensures Next(rules, db, StepOf(m)).orders.Keys == db.orders.Keys
  {
    if Attempt(rules, db, StepOf(m)).Ok? {
      match m
      case MatchMessage(ev) =>
        if ev.Key() !in db.processed { EventKeys(rules, db, ev); }
      case TradeMessage(t) =>
        if t.tradeId !in db.trades { TradeKeys(rules, db, t); }
    }
  }

  lemma SetKeepsKeys(db: DB, id: nat, target: Status, filled: Option<int>)
    ensures SetFilled(db, id, filled).orders.Keys == db.orders.Keys
    ensures SetStatus(db, id, target, filled).orders.Keys == db.orders.Keys
  {
  }

  lemma EventKeys(rules: Rules, db: DB, ev: MatchApply)
    requires ApplyMatchEvent(rules, db, ev).Ok? && ev.Key() !in db.processed
    ensures ApplyMatchEvent(rules, db, ev).value.orders.Keys == db.orders.Keys
  {
  }

  lemma TradeKeys(rules: Rules, db: DB, t: TradeApply)
    requires ApplyTradeEvent(rules, db, t).Ok? && t.tradeId !in db.trades
    ensures ApplyTradeEvent(rules, db, t).value.orders.Keys == db.orders.Keys
  {
    var noted := db.(trades := db.trades + {t.tradeId});
    var settled := SettleBoth(rules, noted, t, rules.pair(t.symbol).value).value;
    var half := TradeFill(rules, settled, t.maker, t.quantity.value).value;
    FillKeys(rules, settled, t.maker, t.quantity.value);
    FillKeys(rules, half, t.taker, t.quantity.value);
  }

  lemma FillKeys(rules: Rules, db: DB, id: nat, quantity: int)
    requires TradeFill(rules, db, id, quantity).Ok?
    ensures TradeFill(rules, db, id, quantity).value.orders.Keys == db.orders.Keys
  {
  }

  predicate Missing(rules: Rules, db: DB, m: Message) {
    match m
    case MatchMessage(ev) => ev.orderId !in db.orders
    case TradeMessage(t) => t.tradeId > MAX_TRADE_ID || t.maker !in db.orders || t.taker !in db.orders
  }

  ghost predicate NotStale<T>(tx: Tx<T>) { tx.Abort? ==> !IsStale(tx.error) }

  lemma EventNotStale(rules: Rules, db: DB, ev: MatchApply)
    requires ev.orderId in db.orders
    ensures NotStale(ApplyMatchEvent(rules, db, ev))
  {
  }

  lemma SettleNotStale(rules: Rules, a: Accounts, user: nat, side: Side, pair: Pair, notional: int, quantity: int)
    ensures NotStale(Settle(rules, a, user, side, pair, notional, quantity))
  {
  }

  lemma FillNotStale(rules: Rules, db: DB, id: nat, quantity: int)
    requires id in db.orders
    ensures NotStale(TradeFill(rules, db, id, quantity))
  {
  }

  lemma TradeNotStale(rules: Rules, db: DB, t: TradeApply)
    requires t.tradeId <= MAX_TRADE_ID && t.maker in db.orders && t.taker in db.orders
    ensures NotStale(ApplyTradeEvent(rules, db, t))
  {
    var pair := rules.pair(t.symbol);
    if pair.Some? && t.price.Some? && t.quantity.Some? {
      var noted := db.(trades := db.trades + {t.tradeId});
      BothNotStale(rules, noted, t, pair.value);
      var settled := SettleBoth(rules, noted, t, pair.value);
      if settled.Ok? {
        FillNotStale(rules, settled.value, t.maker, t.quantity.value);
        var half := TradeFill(rules, settled.value, t.maker, t.quantity.value);
        if half.Ok? {
          FillKeys(rules, settled.value, t.maker, t.quantity.value);
          FillNotStale(rules, half.value, t.taker, t.quantity.value);
        }
      }
    }
  }

  lemma BothNotStale(rules: Rules, db: DB, t: TradeApply, pair: Pair)
    requires t.price.Some? && t.quantity.Some? && t.maker in db.orders && t.taker in db.orders
    ensures NotStale(SettleBoth(rules, db, t, pair))
    ensures SettleBoth(rules, db, t, pair).Ok? ==> SettleBoth(rules, db, t, pair).value.orders == db.orders
  {
    var maker, taker := db.orders[t.maker], db.orders[t.taker];
    var notional, quantity := t.price.value * t.quantity.value, Amount(t.quantity.value);
    var a := Settle(rules, db.accounts, maker.user, maker.side, pair, notional, quantity);
    SettleNotStale(rules, db.accounts, maker.user, maker.side, pair, notional, quantity);
    if a.Ok? { SettleNotStale(rules, a.value, taker.user, taker.side, pair, notional, quantity); }
  }

  // A message is stale only because an order is not there, or its trade id is out of range.
  lemma StaleIsMissing(rules: Rules, db: DB, m: Message)
    requires Attempt(rules, db, StepOf(m)).Abort? && IsStale(Attempt(rules, db, StepOf(m)).error)
    ensures Missing(rules, db, m)
  {
    if !Missing(rules, db, m) {
      match m
      case MatchMessage(ev) => EventNotStale(rules, db, ev);
      case TradeMessage(t) => TradeNotStale(rules, db, t);
    }
  }

  lemma StaleStaysStale(rules: Rules, db: DB, later: DB, m: Message)
    requires Attempt(rules, db, StepOf(m)).Abort? && IsStale(Attempt(rules, db, StepOf(m)).error)
    requires later.orders.Keys == db.orders.Keys
    ensures Next(rules, later, StepOf(m)) == later && !Stops(rules, later, m)
  {
    StaleIsMissing(rules, db, m);
  }

  lemma {:induction false} PassKeepsOrders(rules: Rules, db: DB, topic: seq<Message>, n: nat)
    requires n <= |topic|
    ensures Pass(rules, db, topic, n).orders.Keys == db.orders.Keys
  {
    if n > 0 {
      PassKeepsOrders(rules, db, topic, n - 1);
      EventsKeepOrders(rules, Pass(rules, db, topic, n - 1), topic[n - 1]);
    }
  }

  lemma {:induction false} PassKeepsRecorded(rules: Rules, db: DB, topic: seq<Message>, j: nat, n: nat)
    requires j < n <= |topic| && Attempt(rules, Pass(rules, db, topic, j), StepOf(topic[j])).Ok?
    ensures Recorded(Pass(rules, db, topic, n), topic[j])
    decreases n
  {
    if n == j + 1 {
      AppliedIsRecorded(rules, Pass(rules, db, topic, j), topic[j]);
    } else {
      PassKeepsRecorded(rules, db, topic, j, n - 1);
      StepRecords(rules, Pass(rules, db, topic, n - 1), StepOf(topic[n - 1]));
    }
  }

  lemma PassableBefore(rules: Rules, db: DB, topic: seq<Message>, n: nat)
    requires 0 < n <= |topic| && Passable(rules, db, topic, n)
    ensures Passable(rules, db, topic, n - 1) && !Stops(rules, Pass(rules, db, topic, n - 1), topic[n - 1])
  {
  }

  lemma {:induction false} PassableEarlier(rules: Rules, db: DB, topic: seq<Message>, j: nat, n: nat)
    requires j < n <= |topic| && Passable(rules, db, topic, n)
    ensures !Stops(rules, Pass(rules, db, topic, j), topic[j])
    decreases n
  {
    PassableBefore(rules, db, topic, n);
    if j < n - 1 { PassableEarlier(rules, db, topic, j, n - 1); }
  }

  // A message behind which the pass has already gone changes nothing and stops nothing.
  lemma OldMessageChangesNothing(rules: Rules, db: DB, topic: seq<Message>, j: nat, n: nat)
    requires j < n <= |topic| && Passable(rules, db, topic, n)
    ensures var now := Pass(rules, db, topic, n);
            Next(rules, now, StepOf(topic[j])) == now && !Stops(rules, now, topic[j])
  {
    PassableEarlier(rules, db, topic, j, n);
    var at, now := Pass(rules, db, topic, j), Pass(rules, db, topic, n);
    if Attempt(rules, at, StepOf(topic[j])).Ok? {
      PassKeepsRecorded(rules, db, topic, j, n);
      RecordedAttempt(rules, at, now, topic[j]);
    } else {
      PassKeepsOrders(rules, db, topic, j);
      PassKeepsOrders(rules, db, topic, n);
      StaleStaysStale(rules, at, now, topic[j]);
    }
  }

  lemma RecordedAttempt(rules: Rules, db: DB, later: DB, m: Message)
    requires Attempt(rules, db, StepOf(m)).Ok? && Recorded(later, m)
    ensures Attempt(rules, later, StepOf(m)) == Ok(later)
  {
  }

  ghost predicate AtPass(rules: Rules, topic: seq<Message>, db: DB, c: Consumer) {
    && c.position <= c.reached <= |topic|
    && Passable(rules, db, topic, c.reached) && c.db == Pass(rules, db, topic, c.reached)
  }

  lemma PassableMore(rules: Rules, db: DB, topic: seq<Message>, n: nat)
    requires n < |topic| && Passable(rules, db, topic, n) && !Stops(rules, Pass(rules, db, topic, n), topic[n])
    ensures Passable(rules, db, topic, n + 1)
    ensures Pass(rules, db, topic, n + 1) == Next(rules, Pass(rules, db, topic, n), StepOf(topic[n]))
  {
  }

  lemma DeliverKeepsPass(rules: Rules, topic: seq<Message>, db: DB, c: Consumer)
    requires AtPass(rules, topic, db, c) && c.position < |topic|
    ensures AtPass(rules, topic, db, LoopNext(rules, topic, c, Deliver))
  {
    if c.position < c.reached {
      OldMessageChangesNothing(rules, db, topic, c.position, c.reached);
    } else if !Stops(rules, c.db, topic[c.position]) {
      PassableMore(rules, db, topic, c.position);
    }
  }

  lemma LoopStepKeepsPass(rules: Rules, topic: seq<Message>, db: DB, c: Consumer, step: LoopStep)
    requires AtPass(rules, topic, db, c) && !step.Other?
    ensures AtPass(rules, topic, db, LoopNext(rules, topic, c, step))
  {
    if step.Deliver? && c.position < |topic| { DeliverKeepsPass(rules, topic, db, c); }
  }

  // Over every run of the process-then-commit loop of one topic, with restarts from any earlier
  // position and no other writer, the database is the result of one pass over the messages reached.
  lemma {:induction false} EffectsHappenOnce(rules: Rules, topic: seq<Message>, db: DB, steps: seq<LoopStep>)
    requires forall i :: 0 <= i < |steps| ==> !steps[i].Other?
    ensures AtPass(rules, topic, db, Loop(rules, topic, db, steps))
  {
    if steps != [] {
      EffectsHappenOnce(rules, topic, db, steps[..|steps| - 1]);
      LoopStepKeepsPass(rules, topic, db, Loop(rules, topic, db, steps[..|steps| - 1]), steps[|steps| - 1]);
    }
  }

  // ---- With other writers between the deliveries ----

  // The loop goes over the next message for the first time.
  predicate IsFirst(rules: Rules, topic: seq<Message>, c: Consumer, step: LoopStep) {
    step.Deliver? && c.position == c.reached < |topic| && !Stops(rules, c.db, topic[c.position])
  }

  // What one step of the loop adds to the run without redeliveries.
  function NewEffect(rules: Rules, topic: seq<Message>, c: Consumer, step: LoopStep): seq<Step> {
    if step.Other? then [step.step]
    else if IsFirst(rules, topic, c, step) then [StepOf(topic[c.position])] else []
  }

  // The run without its redeliveries.
  function Effects(rules: Rules, topic: seq<Message>, db: DB, steps: seq<LoopStep>): seq<Step> {
    if steps == [] then []
    else
      var n := |steps| - 1;
      var c := Loop(rules, topic, db, steps[..n]);
      Effects(rules, topic, db, steps[..n]) + NewEffect(rules, topic, c, steps[n])
  }

  // The transaction of the message finds all that it needs: its orders, in statuses that may move,
  // and the funds to settle and to give back.
  predicate Fits(rules: Rules, db: DB, m: Message) {
    match m case MatchMessage(ev) => G.CanApply(rules, db, ev) case TradeMessage(t) => G.CanTrade(rules, db, t)
  }

  lemma FitsExactlyWhen(rules: Rules, db: DB, m: Message)
    requires !Recorded(db, m)
    ensures Attempt(rules, db, StepOf(m)).Ok? <==> Fits(rules, db, m)
  {
    match m
    case MatchMessage(ev) => G.AppliesExactlyWhen(rules, db, ev);
    case TradeMessage(t) => G.TradesExactlyWhen(rules, db, t);
  }

  // A message is delivered again that was skipped before, and fits now.
  predicate Surprises(rules: Rules, topic: seq<Message>, c: Consumer, step: LoopStep) {
    && step.Deliver? && c.position < c.reached && c.position < |topic|
    && !Recorded(c.db, topic[c.position]) && Fits(rules, c.db, topic[c.position])
  }

  ghost predicate AlwaysOnce(rules: Rules, topic: seq<Message>, db: DB, steps: seq<LoopStep>) {
    && (steps != [] ==> AlwaysOnce(rules, topic, db, steps[..|steps| - 1]))
    && Loop(rules, topic, db, steps).db == After(rules, db, Effects(rules, topic, db, steps))
  }

  ghost predicate NeverSurprises(rules: Rules, topic: seq<Message>, db: DB, steps: seq<LoopStep>) {
    steps != [] ==>
      var n := |steps| - 1;
      && NeverSurprises(rules, topic, db, steps[..n])
      && !Surprises(rules, topic, Loop(rules, topic, db, steps[..n]), steps[n])
  }

  // A message that is recorded, or does not fit, changes nothing.
  lemma RecordedOrRefused(rules: Rules, db: DB, m: Message)
    ensures Recorded(db, m) || !Fits(rules, db, m) ==> Next(rules, db, StepOf(m)) == db
    ensures !Recorded(db, m) && Fits(rules, db, m) ==> Next(rules, db, StepOf(m)) != db
  {
    if !Recorded(db, m) { FitsExactlyWhen(rules, db, m); }
    if Attempt(rules, db, StepOf(m)).Ok? { AppliedIsRecorded(rules, db, m); }
  }

  lemma AfterMore(rules: Rules, db: DB, steps: seq<Step>, step: Step)
    ensures After(rules, db, steps + [step]) == Next(rules, After(rules, db, steps), step)
  {
    assert (steps + [step])[..|steps|] == steps;
  }

  lemma {:induction false} PositionInRange(rules: Rules, topic: seq<Message>, db: DB, steps: seq<LoopStep>)
    ensures var c := Loop(rules, topic, db, steps); c.position <= c.reached <= |topic|
  {
    if steps != [] { PositionInRange(rules, topic, db, steps[..|steps| - 1]); }
  }

  lemma DeliveryDoes(rules: Rules, topic: seq<Message>, c: Consumer)
    requires c.position <= c.reached <= |topic|
    ensures var after := LoopNext(rules, topic, c, Deliver);
            if IsFirst(rules, topic, c, Deliver)
            then after.db == Next(rules, c.db, StepOf(topic[c.position])) && !Surprises(rules, topic, c, Deliver)
            else (after.db == c.db <==> !Surprises(rules, topic, c, Deliver))
  {
    if c.position < |topic| { RecordedOrRefused(rules, c.db, topic[c.position]); }
  }

  lemma OneEffect(rules: Rules, topic: seq<Message>, db: DB, c: Consumer, effects: seq<Step>, step: LoopStep)
    requires c.position <= c.reached <= |topic| && c.db == After(rules, db, effects)
    ensures LoopNext(rules, topic, c, step).db == After(rules, db, effects + NewEffect(rules, topic, c, step)) <==>
            !Surprises(rules, topic, c, step)
  {
    assert effects + [] == effects;
    match step
    case Other(s) => AfterMore(rules, db, effects, s);
    case Rewind(_) =>
    case Deliver =>
      DeliveryDoes(rules, topic, c);
      if IsFirst(rules, topic, c, step) { AfterMore(rules, db, effects, StepOf(topic[c.position])); }
  }

  // With other writers in between, redeliveries have no effect exactly when none of them brings a
  // message that was skipped before and can be applied now.
  lemma {:induction false} EffectsHappenOnceExactlyWhen(rules: Rules, topic: seq<Message>, db: DB, steps: seq<LoopStep>)
    ensures AlwaysOnce(rules, topic, db, steps) <==> NeverSurprises(rules, topic, db, steps)
  {
    if steps != [] {
      var before := steps[..|steps| - 1];
      EffectsHappenOnceExactlyWhen(rules, topic, db, before);
      PositionInRange(rules, topic, db, before);
      if AlwaysOnce(rules, topic, db, before) {
        OneEffect(rules, topic, db, Loop(rules, topic, db, before), Effects(rules, topic, db, before),
                  steps[|steps| - 1]);
      }
    }
  }

  // What the loop has gone over is recorded, or was skipped because an order is missing and,
  // as long as no order is placed, still is.
  ghost predicate DoneOrMissing(rules: Rules, topic: seq<Message>, c: Consumer) {
    && c.reached <= |topic|
    && forall i :: 0 <= i < c.reached ==> Recorded(c.db, topic[i]) || Missing(rules, c.db, topic[i])
  }

  lemma OthersKeepOrders(rules: Rules, db: DB, step: Step)
    requires !step.Place?
    ensures Next(rules, db, step).orders.Keys == db.orders.Keys
  {
    match step
    case Event(ev) => EventsKeepOrders(rules, db, MatchMessage(ev));
    case Trade(t) => EventsKeepOrders(rules, db, TradeMessage(t));
    case AskCancel(_, _) =>
    case RejectStale(_) =>
    case Resend(_) =>
    case Adjust(_, _, _) =>
  }

  lemma KeysKeepDone(rules: Rules, topic: seq<Message>, c: Consumer, step: Step)
    requires DoneOrMissing(rules, topic, c) && !step.Place?
    ensures DoneOrMissing(rules, topic, c.(db := Next(rules, c.db, step)))
  {
    OthersKeepOrders(rules, c.db, step);
    StepRecords(rules, c.db, step);
  }

  lemma LoopStepKeepsDone(rules: Rules, topic: seq<Message>, c: Consumer, step: LoopStep)
    requires DoneOrMissing(rules, topic, c) && c.position <= c.reached && (step.Other? ==> !step.step.Place?)
    ensures DoneOrMissing(rules, topic, LoopNext(rules, topic, c, step))
    ensures !Surprises(rules, topic, c, step)
  {
    match step
    case Rewind(_) =>
    case Other(s) => KeysKeepDone(rules, topic, c, s);
    case Deliver =>
      if c.position < |topic| && !Stops(rules, c.db, topic[c.position]) {
        var m := topic[c.position];
        KeysKeepDone(rules, topic, c, StepOf(m));
        if Attempt(rules, c.db, StepOf(m)).Ok? {
          AppliedIsRecorded(rules, c.db, m);
        } else {
          StaleIsMissing(rules, c.db, m);
        }
      }
  }

  lemma {:induction false} OnlyPlacementsSurprise(rules: Rules, topic: seq<Message>, db: DB, steps: seq<LoopStep>)
    requires forall i :: 0 <= i < |steps| && steps[i].Other? ==> !steps[i].step.Place?
    ensures DoneOrMissing(rules, topic, Loop(rules, topic, db, steps))
    ensures NeverSurprises(rules, topic, db, steps)
  {
    if steps != [] {
      var n := |steps| - 1;
      assert forall i :: 0 <= i < n ==> steps[..n][i] == steps[i];
      OnlyPlacementsSurprise(rules, topic, db, steps[..n]);
      PositionInRange(rules, topic, db, steps[..n]);
      LoopStepKeepsDone(rules, topic, Loop(rules, topic, db, steps[..n]), steps[n]);
    }
  }

  // As long as the other writers place no orders, every effect happens once.
  lemma EffectsHappenOnceWithoutPlacements(rules: Rules, topic: seq<Message>, db: DB, steps: seq<LoopStep>)
    requires forall i :: 0 <= i < |steps| && steps[i].Other? ==> !steps[i].step.Place?
    ensures Loop(rules, topic, db, steps).db == After(rules, db, Effects(rules, topic, db, steps))
  {
    OnlyPlacementsSurprise(rules, topic, db, steps);
    EffectsHappenOnceExactlyWhen(rules, topic, db, steps);
  }

  lemma EarlyAcceptance(rules: Rules, db: DB, id: nat, p: Placement, ev: MatchApply) returns (placed: DB, accepted: DB)
    requires Attempt(rules, db, Place(id, p)).Ok? && ev.Key() !in db.processed
    requires ev.orderId == id && ev.symbol == p.symbol && ev.eventType == ORDER_ACCEPTED && ev.filled == None
    ensures Attempt(rules, db, Event(ev)) == Abort(NotFound)
    ensures Attempt(rules, db, Place(id, p)) == Ok(placed) && id in placed.orders && placed.orders[id].status == Pending
    ensures Attempt(rules, placed, Event(ev)) == Ok(accepted) && !Recorded(placed, MatchMessage(ev))
    ensures id in accepted.orders && accepted.orders[id].status == Accepted
  {
    placed := Attempt(rules, db, Place(id, p)).value;
    accepted := SetStatus(placed.(processed := placed.processed + {ev.Key()}), id, Accepted, None);
  }

  lemma LoopMore(rules: Rules, topic: seq<Message>, db: DB, steps: seq<LoopStep>, step: LoopStep)
    ensures var c := Loop(rules, topic, db, steps);
            && Loop(rules, topic, db, steps + [step]) == LoopNext(rules, topic, c, step)
            && Effects(rules, topic, db, steps + [step]) ==
               Effects(rules, topic, db, steps) + NewEffect(rules, topic, c, step)
  {
    assert (steps + [step])[..|steps|] == steps;
  }

  lemma SkippedThenApplied(rules: Rules, db: DB, ev: MatchApply, placed: DB, accepted: DB)
    requires Attempt(rules, db, Event(ev)) == Abort(NotFound) && Attempt(rules, placed, Event(ev)) == Ok(accepted)
    ensures var topic := [MatchMessage(ev)];
            && LoopNext(rules, topic, Consumer(db, 0, 0), Deliver) == Consumer(db, 1, 1)
            && NewEffect(rules, topic, Consumer(db, 0, 0), Deliver) == [Event(ev)]
            && LoopNext(rules, topic, Consumer(placed, 0, 1), Deliver) == Consumer(accepted, 1, 1)
            && NewEffect(rules, topic, Consumer(placed, 0, 1), Deliver) == []
  {
  }

  lemma LateRun(rules: Rules, db: DB, p: Placement, ev: MatchApply, placed: DB, accepted: DB)
    requires Attempt(rules, db, Event(ev)) == Abort(NotFound)
    requires Attempt(rules, db, Place(ev.orderId, p)) == Ok(placed) && Attempt(rules, placed, Event(ev)) == Ok(accepted)
    ensures var topic, steps := [MatchMessage(ev)], [Deliver, Other(Place(ev.orderId, p)), Rewind(0), Deliver];
            && Loop(rules, topic, db, steps[..3]) == Consumer(placed, 0, 1)
            && Loop(rules, topic, db, steps) == Consumer(accepted, 1, 1)
            && Effects(rules, topic, db, steps) == [Event(ev)] + [Place(ev.orderId, p)]
  {
    var topic, place := [MatchMessage(ev)], Other(Place(ev.orderId, p));
    SkippedThenApplied(rules, db, ev, placed, accepted);
    LoopMore(rules, topic, db, [], Deliver);
    LoopMore(rules, topic, db, [Deliver], place);
    LoopMore(rules, topic, db, [Deliver, place], Rewind(0));
    LoopMore(rules, topic, db, [Deliver, place, Rewind(0)], Deliver);
    assert [] + [Deliver] == [Deliver] && [Deliver] + [place] == [Deliver, place];
    assert [Deliver, place] + [Rewind(0)] == [Deliver, place, Rewind(0)];
    assert [Deliver, place, Rewind(0)] + [Deliver] == [Deliver, place, Rewind(0), Deliver];
    assert [Deliver, place, Rewind(0), Deliver][..3] == [Deliver, place, Rewind(0)];
    assert Next(rules, db, Place(ev.orderId, p)) == placed;
    assert [] + [Event(ev)] == [Event(ev)];
  }

  // The acceptance of an order comes before the order is placed and is skipped; delivered again
  // after a restart it is applied, while a run without redeliveries leaves the order pending.
  lemma LatePlacementSurprises(rules: Rules, db: DB, id: nat, p: Placement, walSeq: nat)
    requires Attempt(rules, db, Place(id, p)).Ok? && (id, walSeq, ORDER_ACCEPTED) !in db.processed
    ensures var topic := [MatchMessage(MatchApply(id, p.symbol, ORDER_ACCEPTED, walSeq, None))];
            var steps := [Deliver, Other(Place(id, p)), Rewind(0), Deliver];
            var with, without := Loop(rules, topic, db, steps).db, After(rules, db, Effects(rules, topic, db, steps));
            && id in with.orders && with.orders[id].status == Accepted
            && id in without.orders && without.orders[id].status == Pending
            && !NeverSurprises(rules, topic, db, steps)
  {
    var ev := MatchApply(id, p.symbol, ORDER_ACCEPTED, walSeq, None);
    var placed, accepted := EarlyAcceptance(rules, db, id, p, ev);
    LateRun(rules, db, p, ev, placed, accepted);
    AfterMore(rules, db, [], Event(ev));
    AfterMore(rules, db, [Event(ev)], Place(id, p));
    assert [] + [Event(ev)] == [Event(ev)];
  }
}
