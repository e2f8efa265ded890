// The match events that matching really sends, as the ledger takes them in, and runs in which they
// let an order give back funds that others need.
module LedgerEvents {
  import opened Wrappers
  import opened Sums
  import opened OrderStatus
  import opened Freeze
  import opened Settlement
  import opened Ledger
  import opened LedgerFunds
  import G = LedgerGuards
  import L = LedgerRuns
  import C = Convert
  import O = Orders
  import E = Events
  import M = Matcher

  function EventNumber(typ: E.EventType): int {
    match typ
    case Accepted => ORDER_ACCEPTED
    case Filled => ORDER_FILLED
    case PartialFilled => ORDER_PARTIAL
    case Canceled => ORDER_CANCELED
  }

  // The filled quantity that an event carries: none without an order or without its quantities.
  // An order that says it is filled by less than nothing is an error.
  function FilledOf(order: Option<C.PbOrder>): Tx<Option<int>> {
    match order
    case None => Ok(None)
    case Some(o) =>
      if o.quantity == C.Absent || o.remaining == C.Absent then Ok(None)
      else if o.quantity == C.Unparsable || o.remaining == C.Unparsable then Abort(Rejection)
      else if o.quantity.value < o.remaining.value then Abort(Rejection)
      else Ok(Some(o.quantity.value - o.remaining.value))
  }

  function Delivered(ev: E.MatchEvent): Tx<MatchApply> {
    if ev.orderId == 0 then Abort(Rejection)
    else
      var filled :- FilledOf(ev.order);
      Ok(MatchApply(ev.orderId, ev.symbol, EventNumber(ev.typ), ev.walSeq, filled))
  }

  // Which events the ledger takes, and as what: number 1 to 4 for accepted, filled, partial and canceled, and
  // filled by what the order lacks of its quantity, if it tells both.
  lemma DeliversExactlyWhen(ev: E.MatchEvent)
    ensures var total, left := if ev.order == None then C.Absent else ev.order.value.quantity,
                               if ev.order == None then C.Absent else ev.order.value.remaining;
            var told := total != C.Absent && left != C.Absent;
            var number := match ev.typ case Accepted => 1 case Filled => 2 case PartialFilled => 3 case Canceled => 4;
            && (Delivered(ev).Ok? <==>
                  ev.orderId != 0 && (told ==> total.Text? && left.Text? && left.value <= total.value))
            && (Delivered(ev).Ok? ==>
                  Delivered(ev).value == MatchApply(ev.orderId, ev.symbol, number, ev.walSeq,
                                                    if told then Some(total.value - left.value) else None))
  {
  }

  // A new order comes with its whole quantity as remainder, and its taker event with the same order;
  // a cancellation carries no order; a used-up maker is reported with the quantity of one trade.
  lemma EventsCarry(book: M.Book, order: C.PbOrder, quantity: int, tr: O.Trade, cmd: E.CancelCommand, commandId: nat,
                    walSeq: nat)
    requires order.id != 0 && order.quantity == C.Text(quantity) == order.remaining && cmd.id != 0
    requires tr.maker != 0 && tr.maker !in book.live && tr.quantity >= 0
    ensures Delivered(E.TakerFill(book, order, commandId, walSeq)) ==
            Ok(MatchApply(order.id, order.symbol, if order.id in book.live then ORDER_PARTIAL else ORDER_FILLED, walSeq,
                          Some(0)))
    ensures Delivered(E.CancelEvents(cmd, walSeq)[0]) ==
            Ok(MatchApply(cmd.id, cmd.symbol, ORDER_CANCELED, walSeq, None))
    ensures Delivered(E.MakerFill(book, order.symbol, tr, commandId, walSeq)) ==
            Ok(MatchApply(tr.maker, order.symbol, ORDER_FILLED, walSeq, Some(tr.quantity)))
  {
  }

  // ---- Runs ----

  // One symbol, eight digits, orders at price 1 for one unit or two.
  const SYMBOL := "BTC-USDT"
  const DIGITS: Unit := 10_000_000_000_000_000_000_000_000_000
  const RULES := Rules((symbol: string) => Some(Pair("BTC", "USDT")), (asset: string) => DIGITS)
  const NOTIONAL := ONE * ONE
  const ONE_FILL := Fill(ONE, ONE)

  const CASH := (1, "USDT")

  function Bid(client: string, n: nat): Placement {
    Placement(1, client, SYMBOL, Buy, Some(ONE), Some(n * NOTIONAL), n * ONE)
  }

  // What the ledger gets of a cancellation, and of the fill of a taker that did not stay in the book.
  function CancelOf(id: nat, walSeq: nat): (ev: MatchApply)
    requires id != 0
    ensures ev == MatchApply(id, SYMBOL, ORDER_CANCELED, walSeq, None)
  {
    Delivered(E.CancelEvents(E.CancelCommand(0, SYMBOL, id), walSeq)[0]).value
  }

  function BidPb(id: nat, n: nat): C.PbOrder {
    C.PbOrder(id, "", SYMBOL, 0, 0, C.PbBuy, C.PbLimit, C.Text(ONE), C.Text(n * ONE), C.Text(n * ONE), 0)
  }

  function TakerOf(book: M.Book, id: nat, n: nat, walSeq: nat): (ev: MatchApply)
    requires id != 0
    ensures ev == MatchApply(id, SYMBOL, if id in book.live then ORDER_PARTIAL else ORDER_FILLED, walSeq, Some(0))
  {
    Delivered(E.TakerFill(book, BidPb(id, n), 0, walSeq)).value
  }

  // A marker: a proof that looks inside the next two predicates asserts Unfolds(0).
  ghost predicate Unfolds(z: int) { true }

  ghost predicate Reaches(moves: seq<Move>, s: State) {
    forall z {:trigger Unfolds(z)} :: Unfolds(z) ==> IsRun(RULES, moves) && After(RULES, moves) == s
  }

  ghost predicate Leads(s: State, move: Move, after: State) {
    forall z {:trigger Unfolds(z)} :: Unfolds(z) ==>
      May(RULES, s.db, s.plans, move) && AfterMove(RULES, s, move) == after
  }

  lemma RunMore(moves: seq<Move>, s: State, move: Move, after: State)
    requires Reaches(moves, s) && Leads(s, move, after)
    ensures Reaches(moves + [move], after)
  {
    assert Unfolds(0);
    assert (moves + [move])[..|moves|] == moves;
  }

  lemma Breaks(moves: seq<Move>, s: State)
    requires Reaches(moves, s) && !Covered(RULES, s.db.accounts, s.plans)
    ensures IsRun(RULES, moves) && After(RULES, moves) == s && !AlwaysModest(RULES, moves)
  {
    assert Unfolds(0);
    FundedExactlyWhen(RULES, moves);
  }

  lemma BidPlaced(s: State, id: nat, client: string, n: nat, fills: seq<Fill>, account: Account) returns (after: State)
    requires CASH in s.db.accounts && s.db.accounts[CASH] == account && account.balance >= n * NOTIONAL && 1 <= n <= 2
    requires id !in s.db.orders && (1, client) !in s.db.clients
    requires Real(fills) && Consumed(DIGITS, Buy, fills) <= n * NOTIONAL
    ensures Leads(s, Placed(id, Bid(client, n), fills), after)
    ensures var o := OrderOf(id, Bid(client, n));
            && after.plans == s.plans[id := Plan(o, fills, 0, n * NOTIONAL - Consumed(DIGITS, Buy, fills))]
            && after.db ==
               s.db.(orders := s.db.orders[id := o], clients := s.db.clients + {(1, client)},
                     accounts := s.db.accounts[CASH := Account(account.balance - n * NOTIONAL,
                                                               account.frozen + n * NOTIONAL)],
                     outbox := s.db.outbox + [NewOrderRow(id)])
  {
    var o := OrderOf(id, Bid(client, n));
    assert LockOf(RULES, o) == n * NOTIONAL;
    assert KeyOf(RULES, o) == CASH;
    PlacesExactly(RULES, s.db, id, Bid(client, n));
    after := AfterMove(RULES, s, Placed(id, Bid(client, n), fills));
  }

  lemma Deposited(s: State, user: nat, asset: string, delta: int) returns (after: State)
    requires (user, asset) !in s.db.accounts && delta > 0
    ensures Leads(s, Beside(L.Adjust(user, asset, delta)), after)
    ensures after == s.(db := s.db.(accounts := s.db.accounts[(user, asset) := Account(delta, 0)]))
  {
    after := AfterMove(RULES, s, Beside(L.Adjust(user, asset, delta)));
  }

  lemma Began() returns (moves: seq<Move>)
    ensures moves == [] && Reaches(moves, NOTHING_YET)
  {
    moves := [];
  }

  // ---- Canceled twice ----

  const BID := OrderOf(1, Bid("a", 1))
  const OTHER := OrderOf(2, Bid("b", 1))

  // A buyer with two open orders of one unit each.
  lemma TwoBids() returns (moves: seq<Move>, s: State)
    ensures Reaches(moves, s)
    ensures s == State(DB(map[1 := BID, 2 := OTHER], {(1, "a"), (1, "b")}, map[CASH := Account(0, 2 * NOTIONAL)], {},
                          {}, [NewOrderRow(1), NewOrderRow(2)]),
                       map[1 := Plan(BID, [ONE_FILL], 0, 0), 2 := Plan(OTHER, [ONE_FILL], 0, 0)])
  {
    OneFillTakes(Buy);
    moves := Began();
    var funded := Deposited(NOTHING_YET, 1, "USDT", 2 * NOTIONAL);
    RunMore(moves, NOTHING_YET, Beside(L.Adjust(1, "USDT", 2 * NOTIONAL)), funded);
    moves := moves + [Beside(L.Adjust(1, "USDT", 2 * NOTIONAL))];
    var half := BidPlaced(funded, 1, "a", 1, [ONE_FILL], Account(2 * NOTIONAL, 0));
    RunMore(moves, funded, Placed(1, Bid("a", 1), [ONE_FILL]), half);
    moves := moves + [Placed(1, Bid("a", 1), [ONE_FILL])];
    s := BidPlaced(half, 2, "b", 1, [ONE_FILL], Account(NOTIONAL, NOTIONAL));
    RunMore(moves, half, Placed(2, Bid("b", 1), [ONE_FILL]), s);
    moves := moves + [Placed(2, Bid("b", 1), [ONE_FILL])];
    assert [] + [NewOrderRow(1)] + [NewOrderRow(2)] == [NewOrderRow(1), NewOrderRow(2)];
  }

  lemma CancelDoes(s: State, id: nat, walSeq: nat, gives: int) returns (after: State)
    requires id != 0 && Cancels(s.db, CancelOf(id, walSeq)) && CASH in s.db.accounts && NonNegative(s.db.accounts)
    requires KeyOf(RULES, s.db.orders[id]) == CASH && FreezeOf(RULES, s.db.orders[id]).Some?
    requires GivesBack(RULES, s.db.orders[id]) == gives > 0
    ensures Leads(s, Told(CancelOf(id, walSeq)), after)
    ensures after.plans == Spent(s.plans, id, gives)
    ensures after.db.processed == s.db.processed + {(id, walSeq, ORDER_CANCELED)}
    ensures after.db.orders.Keys == s.db.orders.Keys
    ensures after.db.orders[id] == s.db.orders[id].(status := Canceled, version := after.db.orders[id].version)
    ensures forall i :: i in s.db.orders && i != id ==> after.db.orders[i] == s.db.orders[i]
    ensures after.db.accounts == Freed(s.db.accounts, CASH, gives)
  {
    var ev := CancelOf(id, walSeq);
    var noted, o := CancelReleases(RULES, s.db, ev);
    assert RemainingFreeze(RULES, o) == RemainingFreeze(RULES, s.db.orders[id]);
    ReleaseIs(RULES, s.db.accounts, o);
    after := AfterMove(RULES, s, Told(ev));
  }

  lemma OneFillTakes(side: Side)
    ensures Consumed(DIGITS, side, [ONE_FILL]) == NOTIONAL
    ensures Consumed(DIGITS, side, [ONE_FILL, ONE_FILL]) == 2 * NOTIONAL
  {
    assert [ONE_FILL][..0] == [] && [ONE_FILL, ONE_FILL][..1] == [ONE_FILL];
  }

  // An order with a fill to come and nothing frozen on its account.
  lemma NothingLeftOf(s: State, id: nat)
    requires AllPlanned(RULES, s.plans) && FrozenOf(s.db.accounts, CASH) == 0
    requires id in s.plans && KeyOf(RULES, s.plans[id].order) == CASH && s.plans[id].order.side == Buy
    requires s.plans[id].done < |s.plans[id].fills| && s.plans[id].fills[s.plans[id].done] == ONE_FILL
    ensures Claims(RULES, s.plans, CASH) >= NOTIONAL && !Covered(RULES, s.db.accounts, s.plans)
  {
    var p := s.plans[id];
    ClaimsAreSums(RULES, s.plans, CASH);
    NextFill(DIGITS, p);
    ConsumedGrows(DIGITS, Buy, p.fills, p.done + 1);
    assert RoundDown(DIGITS, Worth(Buy, ONE_FILL)) == NOTIONAL;
    assert Due(DIGITS, p) >= NOTIONAL;
    assert Claims(RULES, s.plans, CASH) > FrozenOf(s.db.accounts, CASH);
  }

  lemma BidGivesBack(o: Order)
    requires o == BID.(status := o.status, version := o.version)
    ensures GivesBack(RULES, o) == NOTIONAL && KeyOf(RULES, o) == CASH && FreezeOf(RULES, o).Some?
  {
  }

  lemma CanceledOnce(s: State) returns (after: State)
    requires s.db.orders == map[1 := BID, 2 := OTHER] && s.db.processed == {}
    requires s.db.accounts == map[CASH := Account(0, 2 * NOTIONAL)]
    requires 1 in s.plans && s.plans[1].spare == 0
    ensures Leads(s, Told(CancelOf(1, 3)), after) && after.plans == s.plans
    ensures after.db.orders.Keys == {1, 2} && after.db.orders[2] == OTHER
    ensures after.db.orders[1] == BID.(status := Canceled, version := after.db.orders[1].version)
    ensures after.db.accounts == map[CASH := Account(NOTIONAL, NOTIONAL)]
    ensures (1, 4, ORDER_CANCELED) !in after.db.processed
  {
    BidGivesBack(BID);
    after := CancelDoes(s, 1, 3, NOTIONAL);
    assert s.plans[1 := s.plans[1]] == s.plans;
  }

  lemma CanceledAgain(s: State) returns (after: State)
    requires 1 in s.db.orders && s.db.orders[1] == BID.(status := Canceled, version := s.db.orders[1].version)
    requires s.db.accounts == map[CASH := Account(NOTIONAL, NOTIONAL)] && (1, 4, ORDER_CANCELED) !in s.db.processed
    requires 1 in s.plans && s.plans[1].spare == 0
    ensures Leads(s, Told(CancelOf(1, 4)), after) && after.plans == s.plans
    ensures after.db.accounts == map[CASH := Account(2 * NOTIONAL, 0)]
    ensures after.db.orders.Keys == s.db.orders.Keys
    ensures 2 in s.db.orders ==> after.db.orders[2] == s.db.orders[2]
  {
    BidGivesBack(s.db.orders[1]);
    after := CancelDoes(s, 1, 4, NOTIONAL);
    assert s.plans[1 := s.plans[1]] == s.plans;
  }

  // A cancellation is asked for again and matching answers again: the second event, under its own
  // log number, gives back once more what the order had frozen, at the expense of another order.
  lemma CanceledTwiceGivesTwice() returns (moves: seq<Move>, s: State)
    ensures IsRun(RULES, moves) && After(RULES, moves) == s && !AlwaysModest(RULES, moves) && |moves| >= 2
    ensures moves[|moves| - 2] == Told(CancelOf(1, 3)) && moves[|moves| - 1] == Told(CancelOf(1, 4))
    ensures FrozenOf(s.db.accounts, CASH) == 0 && Claims(RULES, s.plans, CASH) >= NOTIONAL
    ensures 2 in s.db.orders && s.db.orders[2] == OTHER
  {
    var before, start := TwoBids();
    var once := CanceledOnce(start);
    RunMore(before, start, Told(CancelOf(1, 3)), once);
    s := CanceledAgain(once);
    RunMore(before + [Told(CancelOf(1, 3))], once, Told(CancelOf(1, 4)), s);
    moves := before + [Told(CancelOf(1, 3))] + [Told(CancelOf(1, 4))];
    BidGivesBack(BID);
    BidGivesBack(OTHER.(id := 1, client := "a"));
    assert Planned(RULES, s.plans[1]) && Planned(RULES, s.plans[2]);
    NothingLeftOf(s, 2);
    Breaks(moves, s);
  }

  // ---- Filled before the fills are booked ----

  const BTC := (2, "BTC")

  const BIG := OrderOf(1, Bid("a", 2))

  function Ask(client: string): Placement { Placement(2, client, SYMBOL, Sell, Some(ONE), None, ONE) }

  lemma AskPlaced(s: State, id: nat, client: string, account: Account) returns (after: State)
    requires BTC in s.db.accounts && s.db.accounts[BTC] == account && account.balance >= NOTIONAL
    requires id !in s.db.orders && (2, client) !in s.db.clients
    ensures Leads(s, Placed(id, Ask(client), [ONE_FILL]), after)
    ensures var o := OrderOf(id, Ask(client));
            && after.plans == s.plans[id := Plan(o, [ONE_FILL], 0, 0)]
            && after.db ==
               s.db.(orders := s.db.orders[id := o], clients := s.db.clients + {(2, client)},
                     accounts := s.db.accounts[BTC := Account(account.balance - NOTIONAL, account.frozen + NOTIONAL)],
                     outbox := s.db.outbox + [NewOrderRow(id)])
  {
    AskLocks(OrderOf(id, Ask(client)));
    PlacesExactly(RULES, s.db, id, Ask(client));
    after := AfterMove(RULES, s, Placed(id, Ask(client), [ONE_FILL]));
  }

  lemma AskLocks(o: Order)
    requires o.user == 2 && o.side == Sell && o.quantity == ONE
    ensures LockOf(RULES, o) == NOTIONAL && KeyOf(RULES, o) == BTC && Taken(RULES, o, [ONE_FILL]) == NOTIONAL
    ensures FreezeOf(RULES, o).Some?
  {
    OneFillTakes(Sell);
  }

  function SellOne(tradeId: nat, maker: nat, taker: nat): TradeApply {
    TradeApply(tradeId, SYMBOL, Some(ONE), Some(ONE), maker, taker, 5)
  }

  const PAIR := Pair("BTC", "USDT")

  lemma SellerGives(a: Accounts, sold: Account) returns (after: Accounts)
    requires BTC in a && a[BTC] == sold && NOTIONAL <= sold.frozen && NonNegative(a)
    ensures Settle(RULES, a, 2, Sell, PAIR, NOTIONAL, NOTIONAL) == Ok(after)
    ensures BTC in after && after[BTC].frozen == sold.frozen - NOTIONAL && NonNegative(after)
    ensures CASH in a ==> CASH in after && after[CASH] == a[CASH]
  {
    var given := a[BTC := Account(sold.balance, sold.frozen - NOTIONAL)];
    assert RoundDown(DIGITS, NOTIONAL) == NOTIONAL;
    assert ConsumeFrozen(a, 2, "BTC", NOTIONAL) == Ok(given);
    after := AdjustBalance(given, 2, "USDT", NOTIONAL).value;
  }

  lemma BuyerPays(a: Accounts, bought: Account) returns (after: Accounts)
    requires CASH in a && a[CASH] == bought && NonNegative(a)
    ensures bought.frozen < NOTIONAL ==> Settle(RULES, a, 1, Buy, PAIR, NOTIONAL, NOTIONAL) == Abort(Insufficient)
    ensures bought.frozen >= NOTIONAL ==>
              && Settle(RULES, a, 1, Buy, PAIR, NOTIONAL, NOTIONAL) == Ok(after) && NonNegative(after)
              && CASH in after && after[CASH] == Account(bought.balance, bought.frozen - NOTIONAL)
              && (BTC in a ==> BTC in after && after[BTC] == a[BTC])
  {
    assert RoundDown(DIGITS, NOTIONAL) == NOTIONAL;
    after := a;
    if bought.frozen >= NOTIONAL {
      var paid := a[CASH := Account(bought.balance, bought.frozen - NOTIONAL)];
      assert ConsumeFrozen(a, 1, "USDT", NOTIONAL) == Ok(paid);
      after := AdjustBalance(paid, 1, "BTC", NOTIONAL).value;
    }
  }

  ghost predicate Trades(db: DB, tradeId: nat, j: nat, i: nat) {
    && 0 < tradeId <= MAX_TRADE_ID && tradeId !in db.trades && i != j && i in db.orders && j in db.orders
    && db.orders[j].user == 2 && db.orders[j].side == Sell && db.orders[j].filled == 0
    && db.orders[j].quantity == ONE
    && db.orders[i].user == 1 && db.orders[i].side == Buy && FreezeOf(RULES, db.orders[i]).Some?
    && CASH in db.accounts && BTC in db.accounts && NonNegative(db.accounts) && NOTIONAL <= db.accounts[BTC].frozen
  }

  // A buyer without enough frozen stops the trade.
  lemma TradeAborts(db: DB, tradeId: nat, j: nat, i: nat)
    requires Trades(db, tradeId, j, i) && db.accounts[CASH].frozen < NOTIONAL
    ensures L.Attempt(RULES, db, L.Trade(SellOne(tradeId, j, i))) == Abort(Insufficient)
  {
    var half := SellerGives(db.accounts, db.accounts[BTC]);
    var both := BuyerPays(half, half[CASH]);
  }

  // One fill: what it stores, and what it gives back of the account.
  lemma FillDoes(db: DB, i: nat, key: (nat, string))
    requires i in db.orders && key == KeyOf(RULES, db.orders[i]) && FreezeOf(RULES, db.orders[i]).Some?
    requires NonNegative(db.accounts) && key in db.accounts
    ensures TradeFill(RULES, db, i, ONE) ==
            Ok(db.(orders := db.orders[i := G.FillOf(db.orders[i], ONE)],
                   accounts := Freed(db.accounts, key, FillGives(RULES, db.orders[i], ONE))))
    ensures FillGives(RULES, db.orders[i], ONE) >= 0
  {
    var o := db.orders[i];
    ReleaseIs(RULES, db.accounts, G.FillOf(o, ONE));
    if G.FillOf(o, ONE).filled == o.quantity { CompleteGivesNothing(RULES, G.FillOf(o, ONE)); }
    assert db.accounts[key := db.accounts[key]] == db.accounts;
  }

  lemma TradeGoesThrough(db: DB, tradeId: nat, j: nat, i: nat) returns (after: DB)
    requires Trades(db, tradeId, j, i) && db.accounts[CASH].frozen >= NOTIONAL
    ensures L.Attempt(RULES, db, L.Trade(SellOne(tradeId, j, i))) == Ok(after)
    ensures after.processed == db.processed && after.trades == db.trades + {tradeId}
    ensures after.orders == db.orders[j := G.FillOf(db.orders[j], ONE)][i := G.FillOf(db.orders[i], ONE)]
    ensures NonNegative(after.accounts) && BTC in after.accounts && CASH in after.accounts
    ensures after.accounts[BTC].frozen == db.accounts[BTC].frozen - NOTIONAL
    ensures var left, gives := db.accounts[CASH].frozen - NOTIONAL, FillGives(RULES, db.orders[i], ONE);
            after.accounts[CASH].frozen == if left < gives then 0 else left - gives
  {
    var half := SellerGives(db.accounts, db.accounts[BTC]);
    var both := BuyerPays(half, half[CASH]);
    var settled := db.(trades := db.trades + {tradeId}, accounts := both);
    AskLocks(db.orders[j]);
    FillDoes(settled, j, BTC);
    CompleteGivesNothing(RULES, G.FillOf(db.orders[j], ONE));
    var sold := TradeFill(RULES, settled, j, ONE).value;
    assert sold.accounts[BTC] == both[BTC];
    FillDoes(sold, i, CASH);
    after := TradeFill(RULES, sold, i, ONE).value;
    SettledAndFilled(db, tradeId, j, i, half, both, sold, after);
  }

  lemma SettledAndFilled(db: DB, tradeId: nat, j: nat, i: nat, half: Accounts, both: Accounts, sold: DB, after: DB)
    requires Trades(db, tradeId, j, i)
    requires Settle(RULES, db.accounts, 2, Sell, PAIR, NOTIONAL, NOTIONAL) == Ok(half)
    requires Settle(RULES, half, 1, Buy, PAIR, NOTIONAL, NOTIONAL) == Ok(both)
    requires TradeFill(RULES, db.(trades := db.trades + {tradeId}, accounts := both), j, ONE) == Ok(sold)
    requires TradeFill(RULES, sold, i, ONE) == Ok(after)
    ensures L.Attempt(RULES, db, L.Trade(SellOne(tradeId, j, i))) == Ok(after)
  {
  }

  const ASK := OrderOf(2, Ask("c"))

  lemma BothDeposited(cash: int, btc: int) returns (moves: seq<Move>, s: State)
    requires cash > 0 && btc > 0
    ensures Reaches(moves, s)
    ensures s == State(DB(map[], {}, map[CASH := Account(cash, 0), BTC := Account(btc, 0)], {}, {}, []), map[])
  {
    var one, two := Beside(L.Adjust(1, "USDT", cash)), Beside(L.Adjust(2, "BTC", btc));
    moves := Began();
    var half := Deposited(NOTHING_YET, 1, "USDT", cash);
    RunMore(moves, NOTHING_YET, one, half);
    s := Deposited(half, 2, "BTC", btc);
    RunMore(moves + [one], half, two, s);
    moves := moves + [one] + [two];
  }

  // A bid of two units and an ask of one, with further funds of both users.
  lemma OpeningRun(cash: nat, btc: nat, fills: seq<Fill>, spare: nat) returns (moves: seq<Move>, s: State)
    requires Real(fills) && Consumed(DIGITS, Buy, fills) + spare == 2 * NOTIONAL
    ensures Reaches(moves, s) && s.db.processed == {} && s.db.trades == {}
    ensures s.db.orders == map[1 := BIG, 2 := ASK] && s.db.clients == {(1, "a"), (2, "c")}
    ensures s.db.accounts == map[CASH := Account(cash, 2 * NOTIONAL), BTC := Account(btc, NOTIONAL)]
    ensures s.plans == map[1 := Plan(BIG, fills, 0, spare), 2 := Plan(ASK, [ONE_FILL], 0, 0)]
  {
    var start;
    moves, start := BothDeposited(cash + 2 * NOTIONAL, btc + NOTIONAL);
    var half := BidPlaced(start, 1, "a", 2, fills, Account(cash + 2 * NOTIONAL, 0));
    RunMore(moves, start, Placed(1, Bid("a", 2), fills), half);
    s := AskPlaced(half, 2, "c", Account(btc + NOTIONAL, 0));
    RunMore(moves + [Placed(1, Bid("a", 2), fills)], half, Placed(2, Ask("c"), [ONE_FILL]), s);
    moves := moves + [Placed(1, Bid("a", 2), fills)] + [Placed(2, Ask("c"), [ONE_FILL])];
  }

  // ---- Filled before the fills are booked ----

  const ASK_TWO := OrderOf(3, Ask("d"))

  function TwoFills(done: nat): Plans {
    map[1 := Plan(BIG, [ONE_FILL, ONE_FILL], done, 0), 2 := Plan(ASK, [ONE_FILL], done, 0),
        3 := Plan(ASK_TWO, [ONE_FILL], 0, 0)]
  }

  // Two asks of one unit against the bid of two.
  lemma TwoAsks() returns (moves: seq<Move>, s: State)
    ensures Reaches(moves, s)
    ensures s.db.orders == map[1 := BIG, 2 := ASK, 3 := ASK_TWO] && s.db.processed == {} && s.db.trades == {}
    ensures s.db.accounts == map[CASH := Account(0, 2 * NOTIONAL), BTC := Account(0, 2 * NOTIONAL)]
    ensures s.plans == TwoFills(0)
  {
    OneFillTakes(Buy);
    var half;
    moves, half := OpeningRun(0, NOTIONAL, [ONE_FILL, ONE_FILL], 0);
    s := AskPlaced(half, 3, "d", Account(NOTIONAL, NOTIONAL));
    RunMore(moves, half, Placed(3, Ask("d"), [ONE_FILL]), s);
    moves := moves + [Placed(3, Ask("d"), [ONE_FILL])];
  }

  // The taker event says filled before any fill is booked: the bid counts as filled by nothing.
  lemma FilledIsTold(s: State, book: M.Book) returns (after: State)
    requires 1 !in book.live && 1 in s.db.orders && s.db.orders[1] == BIG && s.db.processed == {}
    ensures Leads(s, Told(TakerOf(book, 1, 2, 5)), after) && after.plans == s.plans
    ensures after.db.accounts == s.db.accounts && after.db.trades == s.db.trades
    ensures after.db.orders == s.db.orders[1 := BIG.(status := Filled, version := 1)]
  {
    assert AllowedFrom(Filled)[0] == Pending;
    after := AfterMove(RULES, s, Told(TakerOf(book, 1, 2, 5)));
  }

  lemma BigGivesBack(o: Order)
    requires o == BIG.(filled := o.filled, status := o.status, version := o.version)
    ensures KeyOf(RULES, o) == CASH && FreezeOf(RULES, o).Some?
    ensures o.filled == ONE ==> GivesBack(RULES, o) == NOTIONAL
    ensures o.filled == 0 ==> GivesBack(RULES, o) == 2 * NOTIONAL
  {
  }

  lemma MaySell(s: State, tradeId: nat, j: nat, i: nat)
    requires i != j && i in s.plans && j in s.plans
    requires KeyOf(RULES, s.plans[i].order) == CASH && KeyOf(RULES, s.plans[j].order) == BTC
    requires s.plans[i].done < |s.plans[i].fills| && s.plans[i].fills[s.plans[i].done] == ONE_FILL
    requires s.plans[j].done < |s.plans[j].fills| && s.plans[j].fills[s.plans[j].done] == ONE_FILL
    ensures May(RULES, s.db, s.plans, Traded(SellOne(tradeId, j, i)))
  {
  }

  // What the first of the two trades leaves.
  lemma FirstTrade(s: State) returns (after: State)
    requires s.db.orders == map[1 := BIG.(status := Filled, version := 1), 2 := ASK, 3 := ASK_TWO] && s.db.trades == {}
    requires s.db.accounts == map[CASH := Account(0, 2 * NOTIONAL), BTC := Account(0, 2 * NOTIONAL)]
    requires s.plans == TwoFills(0)
    ensures Leads(s, Traded(SellOne(1, 2, 1)), after)
    ensures Trades(after.db, 2, 3, 1) && FrozenOf(after.db.accounts, CASH) == 0 && after.plans == TwoFills(1)
  {
    MaySell(s, 1, 2, 1);
    var o := s.db.orders[1];
    BigGivesBack(o);
    BigGivesBack(G.FillOf(o, ONE));
    assert FreezeOf(RULES, o).Some? && Trades(s.db, 1, 2, 1);
    var db := TradeGoesThrough(s.db, 1, 2, 1);
    after := AfterMove(RULES, s, Traded(SellOne(1, 2, 1)));
    assert FreezeOf(RULES, db.orders[1]).Some? by { BigGivesBack(db.orders[1]); }
  }

  lemma SecondTrade(s: State)
    requires Trades(s.db, 2, 3, 1) && FrozenOf(s.db.accounts, CASH) == 0 && s.plans == TwoFills(1)
    ensures May(RULES, s.db, s.plans, Traded(SellOne(2, 3, 1))) && Books(RULES, s.db, SellOne(2, 3, 1))
    ensures L.Attempt(RULES, s.db, L.Trade(SellOne(2, 3, 1))) == Abort(Insufficient)
    ensures !Covered(RULES, s.db.accounts, s.plans)
  {
    BigGivesBack(BIG);
    AskLocks(ASK);
    AskLocks(ASK_TWO);
    assert Planned(RULES, s.plans[1]) && Planned(RULES, s.plans[2]) && Planned(RULES, s.plans[3]);
    MaySell(s, 2, 3, 1);
    TradeAborts(s.db, 2, 3, 1);
    NothingLeftOf(s, 1);
  }

  // The first trade then gives back what the second needs, and the second is refused.
  lemma FilledEventStarves(book: M.Book) returns (moves: seq<Move>, s: State)
    requires 1 !in book.live
    ensures IsRun(RULES, moves) && After(RULES, moves) == s && !AlwaysModest(RULES, moves)
    ensures Told(TakerOf(book, 1, 2, 5)) in moves
    ensures May(RULES, s.db, s.plans, Traded(SellOne(2, 3, 1))) && Books(RULES, s.db, SellOne(2, 3, 1))
    ensures L.Attempt(RULES, s.db, L.Trade(SellOne(2, 3, 1))) == Abort(Insufficient)
  {
    var told := Told(TakerOf(book, 1, 2, 5));
    var before, start := TwoAsks();
    var half := FilledIsTold(start, book);
    RunMore(before, start, told, half);
    s := FirstTrade(half);
    RunMore(before + [told], half, Traded(SellOne(1, 2, 1)), s);
    moves := before + [told] + [Traded(SellOne(1, 2, 1))];
    assert moves[|before|] == told;
    SecondTrade(s);
    Breaks(moves, s);
  }

  // ---- Canceled with nothing said to be filled ----

  const OTHER_BID := OrderOf(3, Bid("b", 1))

  function OneFillOfTwo(done: nat, spare: nat): Plans {
    map[1 := Plan(BIG, [ONE_FILL], done, spare), 2 := Plan(ASK, [ONE_FILL], done, 0),
        3 := Plan(OTHER_BID, [ONE_FILL], 0, 0)]
  }

  // A bid of two of which one will be filled, an ask of one, and another bid of one.
  lemma BidsAndAsk() returns (moves: seq<Move>, s: State)
    ensures Reaches(moves, s)
    ensures s.db.orders == map[1 := BIG, 2 := ASK, 3 := OTHER_BID] && s.db.processed == {} && s.db.trades == {}
    ensures s.db.accounts == map[CASH := Account(0, 3 * NOTIONAL), BTC := Account(0, NOTIONAL)]
    ensures s.plans == OneFillOfTwo(0, NOTIONAL)
  {
    OneFillTakes(Buy);
    var half;
    moves, half := OpeningRun(NOTIONAL, 0, [ONE_FILL], NOTIONAL);
    s := BidPlaced(half, 3, "b", 1, [ONE_FILL], Account(NOTIONAL, 2 * NOTIONAL));
    RunMore(moves, half, Placed(3, Bid("b", 1), [ONE_FILL]), s);
    moves := moves + [Placed(3, Bid("b", 1), [ONE_FILL])];
  }

  lemma OneTrade(s: State) returns (after: State)
    requires s.db.orders == map[1 := BIG, 2 := ASK, 3 := OTHER_BID] && s.db.processed == {} && s.db.trades == {}
    requires s.db.accounts == map[CASH := Account(0, 3 * NOTIONAL), BTC := Account(0, NOTIONAL)]
    requires s.plans == OneFillOfTwo(0, NOTIONAL)
    ensures Leads(s, Traded(SellOne(1, 2, 1)), after)
    ensures after.db.orders.Keys == {1, 2, 3} && after.db.processed == {} && NonNegative(after.db.accounts)
    ensures after.db.orders[1] == BIG.(filled := ONE, version := 1) && after.db.orders[3] == OTHER_BID
    ensures CASH in after.db.accounts && after.db.accounts[CASH].frozen == 2 * NOTIONAL
    ensures after.plans == OneFillOfTwo(1, NOTIONAL)
  {
    MaySell(s, 1, 2, 1);
    BigGivesBack(BIG);
    assert Trades(s.db, 1, 2, 1);
    var db := TradeGoesThrough(s.db, 1, 2, 1);
    after := AfterMove(RULES, s, Traded(SellOne(1, 2, 1)));
  }

  // The taker event of an order that is still in the book says that nothing of it is filled.
  lemma PartialIsTold(s: State, book: M.Book) returns (after: State)
    requires 1 in book.live && 1 in s.db.orders && s.db.orders[1] == BIG.(filled := ONE, version := 1)
    requires s.db.processed == {}
    ensures Leads(s, Told(TakerOf(book, 1, 2, 5)), after)
    ensures after.plans == s.plans && after.db.accounts == s.db.accounts
    ensures after.db.orders == s.db.orders[1 := BIG.(status := Partial, version := 2)]
    ensures after.db.processed == {(1, 5, ORDER_PARTIAL)}
  {
    assert AllowedFrom(Partial)[0] == Pending;
    after := AfterMove(RULES, s, Told(TakerOf(book, 1, 2, 5)));
  }

  lemma CancelTakesAll(s: State) returns (after: State)
    requires 1 in s.db.orders && s.db.orders[1] == BIG.(status := Partial, version := 2) && 3 in s.db.orders
    requires CASH in s.db.accounts && s.db.accounts[CASH].frozen == 2 * NOTIONAL && NonNegative(s.db.accounts)
    requires s.db.processed == {(1, 5, ORDER_PARTIAL)} && s.plans == OneFillOfTwo(1, NOTIONAL)
    ensures Leads(s, Told(CancelOf(1, 6)), after)
    ensures FrozenOf(after.db.accounts, CASH) == 0 && after.plans == OneFillOfTwo(1, 0)
    ensures 3 in after.db.orders && after.db.orders[3] == s.db.orders[3]
  {
    BigGivesBack(s.db.orders[1]);
    after := CancelDoes(s, 1, 6, 2 * NOTIONAL);
  }

  lemma OtherBidStarves(s: State)
    requires FrozenOf(s.db.accounts, CASH) == 0 && s.plans == OneFillOfTwo(1, 0)
    ensures Claims(RULES, s.plans, CASH) >= NOTIONAL && !Covered(RULES, s.db.accounts, s.plans)
  {
    BigGivesBack(BIG);
    AskLocks(ASK);
    assert Planned(RULES, s.plans[1]) && Planned(RULES, s.plans[2]) && Planned(RULES, s.plans[3]);
    NothingLeftOf(s, 3);
  }

  // The cancellation, which carries no quantity at all, then gives back the whole bid, the part that
  // was filled out of what another open bid of the user needs.
  lemma PartialThenCanceledStarves(book: M.Book) returns (moves: seq<Move>, s: State)
    requires 1 in book.live
    ensures IsRun(RULES, moves) && After(RULES, moves) == s && !AlwaysModest(RULES, moves) && |moves| >= 2
    ensures moves[|moves| - 2] == Told(TakerOf(book, 1, 2, 5)) && moves[|moves| - 1] == Told(CancelOf(1, 6))
    ensures FrozenOf(s.db.accounts, CASH) == 0 && Claims(RULES, s.plans, CASH) >= NOTIONAL
    ensures 3 in s.db.orders && s.db.orders[3] == OTHER_BID
  {
    var told, ended := Told(TakerOf(book, 1, 2, 5)), Told(CancelOf(1, 6));
    var before, start := BidsAndAsk();
    var traded := OneTrade(start);
    RunMore(before, start, Traded(SellOne(1, 2, 1)), traded);
    var half := PartialIsTold(traded, book);
    RunMore(before + [Traded(SellOne(1, 2, 1))], traded, told, half);
    s := CancelTakesAll(half);
    RunMore(before + [Traded(SellOne(1, 2, 1))] + [told], half, ended, s);
    moves := before + [Traded(SellOne(1, 2, 1))] + [told] + [ended];
    OtherBidStarves(s);
    Breaks(moves, s);
  }
}
