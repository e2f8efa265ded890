// The events published for a command, built from the trades it made and from the book as it is
// when the events are built: right after the command, or after the whole batch.
module Events {
  import opened Wrappers
  import opened Orders
  import opened Convert
  import M = Matcher

  datatype EventType = Accepted | Filled | PartialFilled | Canceled

  datatype MatchEvent = MatchEvent(
    commandId: nat, symbol: string, orderId: nat, typ: EventType, order: Option<PbOrder>, walSeq: nat)

  datatype TradeEvent = TradeEvent(trade: Trade, walSeq: nat)

  datatype Outbound = Outbound(matchEvents: seq<MatchEvent>, tradeEvents: seq<TradeEvent>)

  datatype NewOrderCommand = NewOrderCommand(commandId: nat, order: PbOrder)
  datatype CancelCommand = CancelCommand(commandId: nat, symbol: string, id: nat)

  // A command without an id is known by its order's.
  function CommandId(commandId: nat, orderId: nat): nat { if commandId == 0 then orderId else commandId }

  // A maker that is still in the book is reported with what it has left; one that is gone, as
  // filled, with a remainder of 0.
  function MakerFill(book: M.Book, symbol: string, tr: Trade, commandId: nat, walSeq: nat): MatchEvent {
    if tr.maker in book.live
    then MatchEvent(commandId, symbol, tr.maker, PartialFilled, Some(OrderToProto(book.live[tr.maker])), walSeq)
    else MatchEvent(commandId, symbol, tr.maker, Filled,
                    Some(PbOrder(tr.maker, "", symbol, 0, 0, PbNoSide, PbNoType, Absent, Text(tr.quantity),
                                 Text(0), 0)),
                    walSeq)
  }

  // The taker is reported with the order as the command carried it.
  function TakerFill(book: M.Book, order: PbOrder, commandId: nat, walSeq: nat): MatchEvent {
    MatchEvent(commandId, order.symbol, order.id,
               if order.id in book.live then PartialFilled else Filled, Some(order), walSeq)
  }

  // One event for each maker, in the order of its first trade.
  function MakerEvents(book: M.Book, symbol: string, trades: seq<Trade>, commandId: nat, walSeq: nat): seq<MatchEvent> {
    if trades == [] then []
    else
      var n := |trades| - 1;
      var rest := MakerEvents(book, symbol, trades[..n], commandId, walSeq);
      if exists i :: 0 <= i < n && trades[i].maker == trades[n].maker then rest
      else rest + [MakerFill(book, symbol, trades[n], commandId, walSeq)]
  }

  function NewOrderEvents(book: M.Book, cmd: NewOrderCommand, trades: seq<Trade>, walSeq: nat): Outbound {
    var o := cmd.order;
    var id := CommandId(cmd.commandId, o.id);
    Outbound(
      [MatchEvent(id, o.symbol, o.id, Accepted, Some(o), walSeq)]
      + MakerEvents(book, o.symbol, trades, id, walSeq)
      + (if trades == [] then [] else [TakerFill(book, o, id, walSeq)]),
      seq(|trades|, i requires 0 <= i < |trades| => TradeEvent(trades[i], walSeq)))
  }

  method BuildNewOrderEvents(book: M.Book, cmd: Option<NewOrderCommand>, trades: seq<Trade>, walSeq: nat,
                             duplicate: bool)
    returns (out: Outbound)
    ensures out == if duplicate || cmd == None then Outbound([], [])
                   else NewOrderEvents(book, cmd.value, trades, walSeq)
    ensures !duplicate && cmd.Some? ==>
              && TellsTrades(out.tradeEvents, trades, walSeq)
              && TellsOrders(out.matchEvents, cmd.value, trades, walSeq, book.live.Keys)
  {
    if duplicate || cmd == None {
      return Outbound([], []);
    }
    var o := cmd.value.order;
    var id := CommandId(cmd.value.commandId, o.id);
    var matchEvents := [MatchEvent(id, o.symbol, o.id, Accepted, Some(o), walSeq)];
    var tradeEvents: seq<TradeEvent> := [];
    for i := 0 to |trades|
      invariant tradeEvents == seq(i, j requires 0 <= j < i => TradeEvent(trades[j], walSeq))
    {
      tradeEvents := tradeEvents + [TradeEvent(trades[i], walSeq)];
    }
    var seenMaker: set<nat> := {};
    for i := 0 to |trades|
      invariant forall id :: id in seenMaker <==> exists j :: 0 <= j < i && trades[j].maker == id
      invariant matchEvents == [MatchEvent(id, o.symbol, o.id, Accepted, Some(o), walSeq)]
                               + MakerEvents(book, o.symbol, trades[..i], id, walSeq)
    {
      assert trades[..i + 1][..i] == trades[..i];
      if trades[i].maker !in seenMaker {
        seenMaker := seenMaker + {trades[i].maker};
        matchEvents := matchEvents + [MakerFill(book, o.symbol, trades[i], id, walSeq)];
      }
    }
    assert trades[..|trades|] == trades;
    if |trades| > 0 {
      matchEvents := matchEvents + [TakerFill(book, o, id, walSeq)];
    }
    out := Outbound(matchEvents, tradeEvents);
    NewOrderTells(book, cmd.value, trades, walSeq);
  }

  // One trade event for each trade, in the order of the trades.
  ghost predicate TellsTrades(events: seq<TradeEvent>, trades: seq<Trade>, walSeq: nat) {
    && |events| == |trades|
    && forall i :: 0 <= i < |trades| ==> events[i].trade == trades[i] && events[i].walSeq == walSeq
  }

  // First the acceptance; then, if anything traded, one event for each maker, and last the taker's.
  // All carry the id of the command, or of the order if the command has none.
  ghost predicate TellsOrders(events: seq<MatchEvent>, cmd: NewOrderCommand, trades: seq<Trade>, walSeq: nat,
                              open: set<nat>) {
    && events != [] && events[0].orderId == cmd.order.id && events[0].typ == Accepted
    && events[0].walSeq == walSeq && events[0].symbol == cmd.order.symbol
    && (forall i :: 0 <= i < |events| ==>
          events[i].commandId == if cmd.commandId != 0 then cmd.commandId else cmd.order.id)
    && if trades == [] then |events| == 1
       else
         var n := |events| - 1;
         && n > 0 && events[n].orderId == cmd.order.id && TellsState(events[n], cmd.order.symbol, walSeq, open)
         && TellsMakers(events[1..n], cmd.order.symbol, trades, walSeq, open)
  }

  // Who is still open has traded a part; who is not is filled.
  ghost predicate TellsState(event: MatchEvent, symbol: string, walSeq: nat, open: set<nat>) {
    && event.symbol == symbol && event.walSeq == walSeq
    && event.typ == if event.orderId in open then PartialFilled else Filled
  }

  ghost predicate IsMaker(trades: seq<Trade>, id: nat) { exists k :: 0 <= k < |trades| && trades[k].maker == id }

  ghost predicate IsTold(events: seq<MatchEvent>, id: nat) {
    exists i :: 0 <= i < |events| && events[i].orderId == id
  }

  ghost predicate TellsMakers(events: seq<MatchEvent>, symbol: string, trades: seq<Trade>, walSeq: nat, open: set<nat>)
  {
    && (forall i :: 0 <= i < |events| ==> TellsState(events[i], symbol, walSeq, open))
    && (forall id :: IsTold(events, id) <==> IsMaker(trades, id))
    && (forall i, j :: 0 <= i < j < |events| ==> events[i].orderId != events[j].orderId)
  }

  lemma {:induction false} MakersAreTold(book: M.Book, symbol: string, trades: seq<Trade>, commandId: nat, walSeq: nat)
    ensures var events := MakerEvents(book, symbol, trades, commandId, walSeq);
            && TellsMakers(events, symbol, trades, walSeq, book.live.Keys)
            && forall i :: 0 <= i < |events| ==> events[i].commandId == commandId
  {
    if trades != [] {
      var n := |trades| - 1;
      var rest := MakerEvents(book, symbol, trades[..n], commandId, walSeq);
      var event := MakerFill(book, symbol, trades[n], commandId, walSeq);
      MakersAreTold(book, symbol, trades[..n], commandId, walSeq);
      MoreMakers(trades);
      if !IsMaker(trades[..n], trades[n].maker) { MoreTold(rest, event); }
    }
  }

  lemma MoreMakers(trades: seq<Trade>)
    requires trades != []
    ensures var n := |trades| - 1;
            && (IsMaker(trades[..n], trades[n].maker) <==> exists i :: 0 <= i < n && trades[i].maker == trades[n].maker)
            && forall id :: IsMaker(trades, id) <==> IsMaker(trades[..n], id) || id == trades[n].maker
  {
    var n := |trades| - 1;
    assert forall i :: 0 <= i < n ==> trades[..n][i] == trades[i];
    forall id ensures IsMaker(trades, id) <==> IsMaker(trades[..n], id) || id == trades[n].maker {
      if IsMaker(trades, id) && id != trades[n].maker {
        var i :| 0 <= i < |trades| && trades[i].maker == id;
        assert trades[..n][i].maker == id;
      }
    }
  }

  lemma MoreTold(events: seq<MatchEvent>, event: MatchEvent)
    ensures forall id :: IsTold(events + [event], id) <==> IsTold(events, id) || id == event.orderId
  {
    var all := events + [event];
    forall id ensures IsTold(all, id) <==> IsTold(events, id) || id == event.orderId {
      assert all[|events|] == event;
      if IsTold(events, id) {
        var i :| 0 <= i < |events| && events[i].orderId == id;
        assert all[i].orderId == id;
      }
    }
  }

  // The events of a new order tell every trade and every order that traded, once.
  lemma NewOrderTells(book: M.Book, cmd: NewOrderCommand, trades: seq<Trade>, walSeq: nat)
    ensures var out := NewOrderEvents(book, cmd, trades, walSeq);
            && TellsTrades(out.tradeEvents, trades, walSeq)
            && TellsOrders(out.matchEvents, cmd, trades, walSeq, book.live.Keys)
  {
    var id := CommandId(cmd.commandId, cmd.order.id);
    var makers := MakerEvents(book, cmd.order.symbol, trades, id, walSeq);
    MakersAreTold(book, cmd.order.symbol, trades, id, walSeq);
    var events := NewOrderEvents(book, cmd, trades, walSeq).matchEvents;
    if trades != [] { assert events[1..|events| - 1] == makers; }
  }

  function CancelEvents(cmd: CancelCommand, walSeq: nat): seq<MatchEvent> {
    [MatchEvent(CommandId(cmd.commandId, cmd.id), cmd.symbol, cmd.id, Canceled, None, walSeq)]
  }
}
