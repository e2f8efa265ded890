// What the service sends out of what matching makes of the log: its trades and its orders.
module TradesSent {
  import opened Wrappers
  import opened Orders
  import opened Convert
  import opened Matcher
  import opened Shard
  import opened ShardRuns
  import opened ShardCommands
  import R = Recovery
  import G = GroupCommit
  import E = EngineRuns
  import C = CommandConsumer
  import V = Events

  // The trades that matching makes of one command.
  function Trades(setting: Setting, books: Books, c: R.Command, n: nat): seq<Trade> {
    match c
    case NewOrder(None) => []
    case NewOrder(Some(pb)) =>
      if OrderFromProto(pb).Rejected? || pb.symbol !in books then []
      else
        var out := Match(books[pb.symbol], OrderFromProto(pb).value, n, setting.clocks(n));
        if out.UnsupportedType? then [] else out.trades
    case Cancel(_, _) => []
  }

  // The same, each with the number of the log entry.
  function MadeAt(setting: Setting, books: Books, c: R.Command, n: nat): seq<V.TradeEvent> {
    var trades := Trades(setting, books, c, n);
    seq(|trades|, i requires 0 <= i < |trades| => V.TradeEvent(trades[i], n))
  }

  // Those of all entries, one after the other, each against the books that the entries before it make.
  function Made(setting: Setting, symbols: set<string>, log: seq<R.Entry>): seq<V.TradeEvent> {
    if log == [] then []
    else
      var n := |log| - 1;
      var books := E.Carried(ShardMachine(setting), Registered(symbols), log[..n]);
      Made(setting, symbols, log[..n])
      + if books == None || log[n].what.Garbled? then []
        else MadeAt(setting, books.value, log[n].what.command, n + 1)
  }

  // The trades among the events of an outbox.
  function TradesOf(outbox: seq<Event>): seq<V.TradeEvent> {
    if outbox == [] then []
    else TradesOf(outbox[..|outbox| - 1])
         + match outbox[|outbox| - 1] case TradeOut(t) => [t] case MatchOut(_) => []
  }

  function NumberOf(e: Event): nat { match e case MatchOut(m) => m.walSeq case TradeOut(t) => t.walSeq }

  // By log number, and within one number the match events first.
  ghost predicate InSequence(outbox: seq<Event>) {
    forall i, j :: 0 <= i < j < |outbox| ==>
      && NumberOf(outbox[i]) <= NumberOf(outbox[j])
      && (NumberOf(outbox[i]) == NumberOf(outbox[j]) && outbox[i].TradeOut? ==> outbox[j].TradeOut?)
  }

  lemma {:induction false} TradesOfBoth(a: seq<Event>, b: seq<Event>)
    ensures TradesOf(a + b) == TradesOf(a) + TradesOf(b)
    decreases |b|
  {
    if b == [] {
      assert a + b == a;
    } else {
      var n := |b| - 1;
      TradesOfBoth(a, b[..n]);
      assert (a + b)[..|a + b| - 1] == a + b[..n] && (a + b)[|a + b| - 1] == b[n];
    }
  }

  lemma {:induction false} TradesAlone(outbox: seq<Event>, trades: seq<V.TradeEvent>)
    requires |outbox| == |trades| && forall i :: 0 <= i < |trades| ==> outbox[i] == TradeOut(trades[i])
    ensures TradesOf(outbox) == trades
  {
    if outbox != [] {
      var n := |trades| - 1;
      TradesAlone(outbox[..n], trades[..n]);
      assert trades == trades[..n] + [trades[n]];
    }
  }

  lemma {:induction false} NoTrades(outbox: seq<Event>)
    requires forall i :: 0 <= i < |outbox| ==> outbox[i].MatchOut?
    ensures TradesOf(outbox) == []
  {
    if outbox != [] { NoTrades(outbox[..|outbox| - 1]); }
  }

  lemma SentIs(out: V.Outbound) returns (a: seq<Event>, b: seq<Event>)
    ensures Sent(out) == a + b && |a| == |out.matchEvents| && |b| == |out.tradeEvents|
    ensures forall i :: 0 <= i < |a| ==> a[i] == MatchOut(out.matchEvents[i])
    ensures forall i :: 0 <= i < |b| ==> b[i] == TradeOut(out.tradeEvents[i])
  {
    a := seq(|out.matchEvents|, i requires 0 <= i < |out.matchEvents| => MatchOut(out.matchEvents[i]));
    b := seq(|out.tradeEvents|, i requires 0 <= i < |out.tradeEvents| => TradeOut(out.tradeEvents[i]));
  }

  lemma OneCommand(a: seq<Event>, b: seq<Event>, n: nat)
    requires forall i :: 0 <= i < |a| ==> a[i].MatchOut? && NumberOf(a[i]) == n
    requires forall i :: 0 <= i < |b| ==> b[i].TradeOut? && NumberOf(b[i]) == n
    ensures InSequence(a + b) && AllUnder(a + b, n)
  {
  }

  ghost predicate AllUnder(events: seq<Event>, n: nat) {
    forall i :: 0 <= i < |events| ==> NumberOf(events[i]) == n
  }

  // What is sent for one command: all its events have its number, and its trades come last.
  lemma SentInSequence(out: V.Outbound, n: nat)
    requires forall i :: 0 <= i < |out.matchEvents| ==> out.matchEvents[i].walSeq == n
    requires forall i :: 0 <= i < |out.tradeEvents| ==> out.tradeEvents[i].walSeq == n
    ensures TradesOf(Sent(out)) == out.tradeEvents && InSequence(Sent(out)) && AllUnder(Sent(out), n)
  {
    var a, b := SentIs(out);
    OneCommand(a, b, n);
    NoTrades(a);
    TradesAlone(b, out.tradeEvents);
    TradesOfBoth(a, b);
  }

  lemma OrderIsSent(book: Book, cmd: V.NewOrderCommand, trades: seq<Trade>, n: nat)
    ensures var out := V.NewOrderEvents(book, cmd, trades, n);
            && TradesOf(Sent(out)) == seq(|trades|, i requires 0 <= i < |trades| => V.TradeEvent(trades[i], n))
            && InSequence(Sent(out)) && AllUnder(Sent(out), n)
  {
    var out := V.NewOrderEvents(book, cmd, trades, n);
    V.NewOrderTells(book, cmd, trades, n);
    forall i | 0 <= i < |out.matchEvents| ensures out.matchEvents[i].walSeq == n {
      if 0 < i < |out.matchEvents| - 1 {
        assert V.TellsState(out.matchEvents[1..|out.matchEvents| - 1][i - 1], cmd.order.symbol, n, book.live.Keys);
      }
    }
    SentInSequence(out, n);
  }

  // What one log entry owes: its trades, under its number.
  ghost predicate Owes(events: seq<Event>, trades: seq<V.TradeEvent>, n: nat) {
    TradesOf(events) == trades && InSequence(events) && AllUnder(events, n)
  }

  lemma MatchedTrades(setting: Setting, books: Books, pb: PbOrder, n: nat)
    requires MatchNew(setting, books, pb, n).Some?
    ensures var trades := MatchNew(setting, books, pb, n).value.trades;
            Trades(setting, books, R.NewOrder(Some(pb)), n) == trades
  {
  }

  lemma EntryIsSent(setting: Setting, books: Books, behind: Books, msg: C.Message, n: nat)
    requires R.Perform(ShardMachine(setting), R.Live(books, {}), msg.command, n).Some?
    ensures var trades := R.Perform(ShardMachine(setting), R.Live(books, {}), msg.command, n).value.trades;
            Owes(Build(behind, msg, trades, n), MadeAt(setting, books, msg.command, n), n)
  {
    match msg.command
    case NewOrder(None) =>
    case NewOrder(Some(pb)) =>
      assert ShardMachine(setting).matchNew(books, pb, n) == MatchNew(setting, books, pb, n);
      MatchedTrades(setting, books, pb, n);
      OrderIsSent(if pb.symbol in behind then behind[pb.symbol] else EMPTY_BOOK, V.NewOrderCommand(msg.commandId, pb),
                  MatchNew(setting, books, pb, n).value.trades, n);
    case Cancel(symbol, id) =>
      SentInSequence(V.Outbound(V.CancelEvents(V.CancelCommand(msg.commandId, symbol, id), n), []), n);
  }

  // The service with the real matcher and the events that are really built.
  ghost predicate IsService(setting: Setting, setup: Setup, symbols: set<string>) {
    setup == SetupOf(setup.env, symbols, setup.topic) && setup.env.m == ShardMachine(setting)
  }

  lemma OneIsOwed(setting: Setting, setup: Setup, symbols: set<string>, log: seq<R.Entry>, offsets: seq<nat>,
                  cut: nat, i: nat, events: seq<Event>) returns (books: Books)
    requires IsService(setting, setup, symbols) && i < |log| && C.FromTopic(setup, log, offsets)
    requires C.Owed(setup, log, offsets, i, cut) == Some(events)
    ensures E.Carried(ShardMachine(setting), Registered(symbols), log[..i]) == Some(books) && log[i].what.Of?
    ensures Owes(events, MadeAt(setting, books, log[i].what.command, i + 1), i + 1)
  {
    books := E.Carried(setup.env.m, Registered(symbols), log[..i]).value;
    assert C.CameFrom(setup, log[i], offsets[i]);
    EntryIsSent(setting, books, E.Carried(setup.env.m, Registered(symbols), log[..cut]).value,
                setup.topic[offsets[i]], i + 1);
  }

  lemma InSequenceBoth(a: seq<Event>, b: seq<Event>, n: nat)
    requires InSequence(a) && InSequence(b)
    requires UpTo(a, n) && AllUnder(b, n + 1)
    ensures InSequence(a + b) && UpTo(a + b, n + 1)
  {
  }

  ghost predicate UpTo(events: seq<Event>, n: nat) {
    forall i :: 0 <= i < |events| ==> NumberOf(events[i]) <= n
  }

  lemma {:induction false} AllTradesAreOwed(setting: Setting, setup: Setup, symbols: set<string>, log: seq<R.Entry>,
                                            offsets: seq<nat>, cuts: seq<nat>, n: nat, events: seq<Event>)
    requires IsService(setting, setup, symbols) && n <= |log| && C.FromTopic(setup, log, offsets)
    requires C.AllOwed(setup, log, offsets, cuts, n) == Some(events)
    ensures AreMade(events, Made(setting, symbols, log[..n]), n)
  {
    if n > 0 {
      var before, last := OwedSplits(setup, log, offsets, cuts, n);
      AllTradesAreOwed(setting, setup, symbols, log, offsets, cuts, n - 1, before);
      var books := OneIsOwed(setting, setup, symbols, log, offsets, cuts[n - 1], n - 1, last);
      OneMoreMade(setting, symbols, log, n - 1, books, before, last);
    } else {
      assert C.AllOwed(setup, log, offsets, cuts, 0) == Some([]);
    }
  }

  // A marker: a proof that looks inside the next predicate asserts Showing(0).
  ghost predicate Showing(z: int) { true }

  ghost predicate AreMade(events: seq<Event>, trades: seq<V.TradeEvent>, n: nat) {
    forall z {:trigger Showing(z)} :: Showing(z) ==>
      TradesOf(events) == trades && InSequence(events) && UpTo(events, n)
  }

  lemma OwedSplits(setup: Setup, log: seq<R.Entry>, offsets: seq<nat>, cuts: seq<nat>, n: nat)
      returns (before: seq<Event>, last: seq<Event>)
    requires n > 0 && C.AllOwed(setup, log, offsets, cuts, n).Some?
    ensures n <= |cuts| && C.AllOwed(setup, log, offsets, cuts, n - 1) == Some(before)
    ensures C.Owed(setup, log, offsets, n - 1, cuts[n - 1]) == Some(last)
    ensures C.AllOwed(setup, log, offsets, cuts, n) == Some(before + last)
  {
    before, last := C.AllOwed(setup, log, offsets, cuts, n - 1).value,
                    C.Owed(setup, log, offsets, n - 1, cuts[n - 1]).value;
  }

  lemma OneMoreMade(setting: Setting, symbols: set<string>, log: seq<R.Entry>, n: nat, books: Books,
                    before: seq<Event>, last: seq<Event>)
    requires n < |log| && log[n].what.Of?
    requires E.Carried(ShardMachine(setting), Registered(symbols), log[..n]) == Some(books)
    requires AreMade(before, Made(setting, symbols, log[..n]), n)
    requires Owes(last, MadeAt(setting, books, log[n].what.command, n + 1), n + 1)
    ensures AreMade(before + last, Made(setting, symbols, log[..n + 1]), n + 1)
  {
    assert Showing(0);
    assert log[..n + 1][..n] == log[..n] && log[..n + 1][n] == log[n];
    InSequenceBoth(before, last, n);
    TradesOfBoth(before, last);
  }

  // Over every run of the service with whole restarts, whenever it runs: the outbox holds each trade
  // that matching made once, in the order of matching, under the number of its command and behind all
  // match events of that command.
  lemma EveryTradeIsSent(setting: Setting, env: G.Env<Book, SavedBook>, symbols: set<string>, topic: seq<C.Message>,
                         steps: seq<C.Step>)
    requires env.m == ShardMachine(setting) && TickingAlways(setting) && SizedTopic(topic)
    requires var setup := SetupOf(env, symbols, topic);
             C.AlwaysWhole(setup, steps) && C.After(setup, steps).running
    ensures var s := C.After(SetupOf(env, symbols, topic), steps);
            TradesOf(s.outbox) == Made(setting, symbols, s.t.core.log) && InSequence(s.outbox)
  {
    var setup := SetupOf(env, symbols, topic);
    var s := C.After(setup, steps);
    ShardSetupIsLawful(setting, env, symbols, topic);
    C.MirrorsExactlyWhen(setup, GoodBooks(), SizedOrders(), steps);
    assert s.t.core.log[..|s.t.core.log|] == s.t.core.log;
    AllTradesAreOwed(setting, setup, symbols, s.t.core.log, s.offsets, C.Cuts(s.jobs), |s.t.core.log|, s.outbox);
    assert Showing(0);
  }
  // ---- What becomes of each command ----

  // The events of a command: what they tell of an order depends on who is still in its book behind.
  ghost predicate Tells(msg: C.Message, trades: seq<Trade>, behind: Books, n: nat, out: V.Outbound) {
    match msg.command
    case NewOrder(None) => false
    case NewOrder(Some(pb)) =>
      && V.TellsTrades(out.tradeEvents, trades, n)
      && V.TellsOrders(out.matchEvents, V.NewOrderCommand(msg.commandId, pb), trades, n,
                       if pb.symbol in behind then behind[pb.symbol].live.Keys else {})
    case Cancel(symbol, id) =>
      && out.tradeEvents == []
      && out.matchEvents ==
         [V.MatchEvent(if msg.commandId != 0 then msg.commandId else id, symbol, id, V.Canceled, None, n)]
  }

  ghost predicate AreTold(msg: C.Message, trades: seq<Trade>, behind: Books, n: nat, events: seq<Event>) {
    exists out: V.Outbound :: events == Sent(out) && Tells(msg, trades, behind, n, out)
  }

  lemma CommandIsTold(setting: Setting, books: Books, behind: Books, msg: C.Message, n: nat)
    requires R.Perform(ShardMachine(setting), R.Live(books, {}), msg.command, n).Some?
    ensures var trades := R.Perform(ShardMachine(setting), R.Live(books, {}), msg.command, n).value.trades;
            AreTold(msg, Trades(setting, books, msg.command, n), behind, n, Build(behind, msg, trades, n))
  {
    match msg.command
    case NewOrder(None) =>
    case NewOrder(Some(pb)) =>
      assert ShardMachine(setting).matchNew(books, pb, n) == MatchNew(setting, books, pb, n);
      MatchedTrades(setting, books, pb, n);
      var cmd, trades := V.NewOrderCommand(msg.commandId, pb), MatchNew(setting, books, pb, n).value.trades;
      var book := if pb.symbol in behind then behind[pb.symbol] else EMPTY_BOOK;
      V.NewOrderTells(book, cmd, trades, n);
      assert Tells(msg, trades, behind, n, V.NewOrderEvents(book, cmd, trades, n)) by {
        assert EMPTY_BOOK.live.Keys == {};
      }
    case Cancel(symbol, id) =>
      var out := V.Outbound(V.CancelEvents(V.CancelCommand(msg.commandId, symbol, id), n), []);
      assert Tells(msg, [], behind, n, out);
  }

  // Entry i of the log came from its message, and job i tells its trades, made by the books that the
  // entries before it make, and its orders by the books of the first job.cut entries.
  ghost predicate Told(setting: Setting, symbols: set<string>, topic: seq<C.Message>, log: seq<R.Entry>,
                       offsets: seq<nat>, job: C.Job<Event>, i: nat) {
    && i < job.cut <= |log| && i < |offsets| && offsets[i] < |topic| && log[i].what == R.Of(topic[offsets[i]].command)
    && var m := ShardMachine(setting);
       var before, behind := E.Carried(m, Registered(symbols), log[..i]),
                             E.Carried(m, Registered(symbols), log[..job.cut]);
       && before.Some? && behind.Some?
       && AreTold(topic[offsets[i]], Trades(setting, before.value, log[i].what.command, i + 1), behind.value, i + 1,
                  job.events)
  }

  lemma JobTells(setting: Setting, setup: Setup, symbols: set<string>, log: seq<R.Entry>, offsets: seq<nat>,
                 job: C.Job<Event>, i: nat)
    requires IsService(setting, setup, symbols) && i < |log| && C.FromTopic(setup, log, offsets)
    requires C.Owed(setup, log, offsets, i, job.cut) == Some(job.events)
    ensures Told(setting, symbols, setup.topic, log, offsets, job, i)
  {
    assert C.CameFrom(setup, log[i], offsets[i]);
    CommandIsTold(setting, E.Carried(setup.env.m, Registered(symbols), log[..i]).value,
                  E.Carried(setup.env.m, Registered(symbols), log[..job.cut]).value, setup.topic[offsets[i]], i + 1);
  }

  // Over every such run, whenever the service runs: the outbox is what was built for the entries of the log,
  // one after the other, and that tells every command.
  lemma EveryCommandIsTold(setting: Setting, env: G.Env<Book, SavedBook>, symbols: set<string>, topic: seq<C.Message>,
                           steps: seq<C.Step>)
    requires env.m == ShardMachine(setting) && TickingAlways(setting) && SizedTopic(topic)
    requires var setup := SetupOf(env, symbols, topic);
             C.AlwaysWhole(setup, steps) && C.After(setup, steps).running
    ensures var s := C.After(SetupOf(env, symbols, topic), steps);
            && s.outbox == C.Concat(s.jobs) && |s.jobs| == |s.t.core.log|
            && forall i :: 0 <= i < |s.jobs| ==> Told(setting, symbols, topic, s.t.core.log, s.offsets, s.jobs[i], i)
  {
    var setup := SetupOf(env, symbols, topic);
    var s := C.After(setup, steps);
    ShardSetupIsLawful(setting, env, symbols, topic);
    C.MirrorsExactlyWhen(setup, GoodBooks(), SizedOrders(), steps);
    forall i | 0 <= i < |s.jobs| ensures Told(setting, symbols, topic, s.t.core.log, s.offsets, s.jobs[i], i) {
      assert 0 + i == i;
      JobTells(setting, setup, symbols, s.t.core.log, s.offsets, s.jobs[i], i);
    }
  }
}
