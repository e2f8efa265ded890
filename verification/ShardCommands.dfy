// The command loop over the real matcher, with the events that the service really builds.
module ShardCommands {
  import opened Wrappers
  import opened Orders
  import opened Convert
  import opened Matcher
  import opened BookInvariant
  import opened Shard
  import opened ShardRuns
  import R = Recovery
  import G = GroupCommit
  import E = EngineRuns
  import C = CommandConsumer
  import V = Events

  datatype Event = MatchOut(event: V.MatchEvent) | TradeOut(trade: V.TradeEvent)

  // First the match events of a command, then its trades.
  function Sent(out: V.Outbound): seq<Event> {
    seq(|out.matchEvents|, i requires 0 <= i < |out.matchEvents| => MatchOut(out.matchEvents[i]))
    + seq(|out.tradeEvents|, i requires 0 <= i < |out.tradeEvents| => TradeOut(out.tradeEvents[i]))
  }

  // An order of a symbol without a book is in no book.
  function Build(books: Books, msg: C.Message, trades: seq<Trade>, n: nat): seq<Event> {
    match msg.command
    case NewOrder(None) => []
    case NewOrder(Some(pb)) =>
      var book := if pb.symbol in books then books[pb.symbol] else EMPTY_BOOK;
      Sent(V.NewOrderEvents(book, V.NewOrderCommand(msg.commandId, pb), trades, n))
    case Cancel(symbol, id) => Sent(V.Outbound(V.CancelEvents(V.CancelCommand(msg.commandId, symbol, id), n), []))
  }

  type Setup = C.Setup<Book, SavedBook, Event>

  function SetupOf(env: G.Env<Book, SavedBook>, symbols: set<string>, topic: seq<C.Message>): Setup {
    C.Setup(env, Registered(symbols), topic,
            (books: Books, msg: C.Message, trades: seq<Trade>, n: nat) => Build(books, msg, trades, n))
  }

  // The limit orders of the topic do not remain with more than their quantity.
  ghost predicate SizedTopic(topic: seq<C.Message>) {
    forall i :: 0 <= i < |topic| && topic[i].command.NewOrder? && topic[i].command.order.Some? ==>
      Sized(topic[i].command.order.value)
  }

  lemma ShardSetupIsLawful(setting: Setting, env: G.Env<Book, SavedBook>, symbols: set<string>, topic: seq<C.Message>)
    requires env.m == ShardMachine(setting) && TickingAlways(setting) && SizedTopic(topic)
    ensures C.Laws(SetupOf(env, symbols, topic), GoodBooks(), SizedOrders())
  {
    ShardObeysLaws(setting, symbols);
  }

  // Over every run of the service with the real matcher and the real events: the outbox mirrors the
  // log whenever the loop runs, exactly when every restart is whole; and in any case no message is
  // left out behind the place where the loop goes on.
  lemma EveryServiceRun(setting: Setting, env: G.Env<Book, SavedBook>, symbols: set<string>, topic: seq<C.Message>,
                        steps: seq<C.Step>)
    requires env.m == ShardMachine(setting) && TickingAlways(setting) && SizedTopic(topic)
    ensures var setup := SetupOf(env, symbols, topic);
            var s := C.After(setup, steps);
            && (C.AlwaysMirrors(setup, steps) <==> C.AlwaysWhole(setup, steps))
            && (s.running ==> C.Accounted(setup, s.t.core.log, s.offsets, s.passed, s.position))
  {
    var setup := SetupOf(env, symbols, topic);
    ShardSetupIsLawful(setting, env, symbols, topic);
    C.MirrorsExactlyWhen(setup, GoodBooks(), SizedOrders(), steps);
    C.NothingIsLeftOut(setup, GoodBooks(), SizedOrders(), steps);
  }

  lemma OneStep(setup: Setup, steps: seq<C.Step>, step: C.Step)
    ensures C.After(setup, steps + [step]) == C.Next(setup, C.After(setup, steps), step)
    ensures C.AlwaysWhole(setup, steps + [step]) <==>
            C.AlwaysWhole(setup, steps) && C.Whole(C.After(setup, steps), step)
  {
    assert (steps + [step])[..|steps|] == steps;
  }

  // An accepted order is logged and matched.
  lemma AcceptedIsTaken(setting: Setting, env: G.Env<Book, SavedBook>, symbols: set<string>, pb: PbOrder)
      returns (t: E.Tracked<Book, SavedBook>, o: G.Outcome)
    requires env.m == ShardMachine(setting) && !env.grouped
    requires OrderFromProto(pb).Done? && pb.symbol in symbols && setting.accepts(pb.symbol, OrderFromProto(pb).value)
    ensures t == E.AfterTake(env, E.Began(Registered(symbols)), R.NewOrder(Some(pb)), G.Written)
    ensures G.Immediate(env, E.Began(Registered(symbols)).core, R.NewOrder(Some(pb)), G.Written).1 == G.Replied(o)
    ensures |t.core.log| == 1 == t.core.durable && !C.PassesOver(o)
  {
    ConvertedOrders(pb);
    var m, books := ShardMachine(setting), Registered(symbols);
    assert m.matchNew(books, pb, 1) == MatchNew(setting, books, pb, 1);
    t := E.AfterTake(env, E.Began(books), R.NewOrder(Some(pb)), G.Written);
    o := G.Immediate(env, E.Began(books).core, R.NewOrder(Some(pb)), G.Written).1.outcome;
  }

  // The first append to the outbox fails.
  lemma AppendFails(setting: Setting, env: G.Env<Book, SavedBook>, symbols: set<string>, msg: C.Message, pb: PbOrder)
    requires env.m == ShardMachine(setting) && !env.grouped && msg.command == R.NewOrder(Some(pb))
    requires OrderFromProto(pb).Done? && pb.symbol in symbols && setting.accepts(pb.symbol, OrderFromProto(pb).value)
    ensures var s := C.Next(SetupOf(env, symbols, [msg]), C.Began(SetupOf(env, symbols, [msg])),
                            C.One(G.Written, C.Sent(0, true)));
            && |s.jobs| == 1 && |C.Concat(s.jobs)| > 0 && s.outbox == [] && s.synced == 0
            && |s.t.core.log| == 1 == s.t.core.durable
  {
    var t, o := AcceptedIsTaken(setting, env, symbols, pb);
    var job := C.Job(o.walSeq, |t.core.log|, Build(t.core.mem.live.books, msg, o.trades, o.walSeq));
    assert |job.events| > 0;
    assert C.Concat([job]) == job.events by { assert [job][..0] == []; }
    assert [] + [job] == [job];
  }

  // The restart finds the order in the log and begins behind it, or takes it for a duplicate: its
  // events never come.
  lemma OrderWithoutEvents(setting: Setting, env: G.Env<Book, SavedBook>, symbols: set<string>, msg: C.Message,
                           pb: PbOrder, extra: nat, extraEvents: nat)
    requires env.m == ShardMachine(setting) && !env.grouped && msg.command == R.NewOrder(Some(pb))
    requires OrderFromProto(pb).Done? && pb.symbol in symbols && setting.accepts(pb.symbol, OrderFromProto(pb).value)
    requires TickingAlways(setting) && SizedTopic([msg])
    ensures var setup := SetupOf(env, symbols, [msg]);
            var steps := [C.One(G.Written, C.Sent(0, true)), C.Restart(extra, extraEvents)];
            && !C.AlwaysWhole(setup, steps) && !C.AlwaysMirrors(setup, steps)
  {
    var setup := SetupOf(env, symbols, [msg]);
    var one, again := C.One(G.Written, C.Sent(0, true)), C.Restart(extra, extraEvents);
    AppendFails(setting, env, symbols, msg, pb);
    OneStep(setup, [], one);
    assert [] + [one] == [one] && [one] + [again] == [one, again];
    OneStep(setup, [one], again);
    assert C.KeptEvents(C.After(setup, [one]), extraEvents) == 0;
    EveryServiceRun(setting, env, symbols, [msg], [one, again]);
  }
}
