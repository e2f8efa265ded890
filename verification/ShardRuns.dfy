// The runs of the persistent engine with the real matcher.
module ShardRuns {
  import opened Wrappers
  import opened Orders
  import opened Convert
  import opened Matcher
  import opened BookInvariant
  import opened Snapshots
  import opened Shard
  import R = Recovery
  import G = GroupCommit
  import E = EngineRuns

  function Registered(symbols: set<string>): Books { map symbol | symbol in symbols :: EMPTY_BOOK }

  ghost function GoodBooks(): Book -> bool { (b: Book) => Good(b) }

  function SizedOrders(): PbOrder -> bool { (pb: PbOrder) => Sized(pb) }

  // The matching shard obeys the laws under which runs are judged.
  lemma ShardObeysLaws(setting: Setting, symbols: set<string>)
    requires TickingAlways(setting)
    ensures var m := ShardMachine(setting);
            && R.Lawful(m) && E.Steady(m)
            && E.Storing(m, GoodBooks(), SizedOrders())
            && E.AllOf(GoodBooks(), Registered(symbols))
  {
    var m := ShardMachine(setting);
    ShardIsLawful(setting);
    EmptyIsGood();
    ShardIsSteady(setting);
    forall b: Book | Good(b) ensures m.load(m.save(b)) == Some(b) {
      SnapshotRoundTrip(b, setting.clocks(0));
      assert m.load(Save(b)) == Load(setting.clocks(0), Save(b));
    }
    ShardKeepsGood(setting);
  }

  lemma ShardIsSteady(setting: Setting)
    ensures E.Steady(ShardMachine(setting))
  {
    var m := ShardMachine(setting);
    forall books: Books, more: Books, pb: PbOrder, n: nat, k: nat
      {:trigger m.matchNew(books, pb, n), m.matchNew(more, pb, k)} |
      m.matchNew(books, pb, n).Some? && books.Keys <= more.Keys
      ensures m.matchNew(more, pb, k).Some?
    {
      var order := OrderFromProto(pb).value;
      assert MatchNew(setting, books, pb, n).Some?;
      assert order.symbol in books.Keys;
    }
  }

  lemma ShardKeepsGood(setting: Setting)
    requires TickingAlways(setting)
    ensures var m := ShardMachine(setting);
            && (forall books: Books, pb, n {:trigger m.matchNew(books, pb, n)} ::
                  E.AllOf(GoodBooks(), books) && Sized(pb) && m.matchNew(books, pb, n).Some? ==>
                    E.AllOf(GoodBooks(), m.matchNew(books, pb, n).value.books))
            && (forall books: Books, symbol, id {:trigger m.cancel(books, symbol, id)} ::
                  E.AllOf(GoodBooks(), books) ==> E.AllOf(GoodBooks(), m.cancel(books, symbol, id)))
  {
    var m := ShardMachine(setting);
    forall books: Books, pb: PbOrder, n: nat {:trigger m.matchNew(books, pb, n)} |
      E.AllOf(GoodBooks(), books) && Sized(pb) && m.matchNew(books, pb, n).Some?
      ensures E.AllOf(GoodBooks(), m.matchNew(books, pb, n).value.books)
    {
      MatchNewKeepsGood(setting, books, pb, n);
    }
    forall books: Books, symbol: string, id: nat {:trigger m.cancel(books, symbol, id)} |
      E.AllOf(GoodBooks(), books)
      ensures E.AllOf(GoodBooks(), m.cancel(books, symbol, id))
    {
      CancelInKeepsGood(books, symbol, id);
    }
  }

  type Tracked = E.Tracked<Book, SavedBook>

  // The matcher accepts the command: its symbol is registered and not read-only, the order converts,
  // and the rules of the symbol accept it; or it is a cancellation with a symbol.
  predicate Acceptable(setting: Setting, readOnly: set<string>, symbols: set<string>, c: R.Command) {
    match c
    case NewOrder(None) => false
    case NewOrder(Some(pb)) =>
      && pb.symbol !in readOnly && pb.symbol in symbols && OrderFromProto(pb).Done?
      && setting.accepts(pb.symbol, OrderFromProto(pb).value)
    case Cancel(symbol, _) => symbol != ""
  }

  // The symbols that have a book after the command; a cancellation creates the book of its symbol.
  function SymbolsAfter(symbols: set<string>, c: R.Command): set<string> {
    if c.Cancel? then symbols + {c.symbol} else symbols
  }

  function SymbolsAfterAll(symbols: set<string>, items: seq<G.Item>): set<string> {
    if items == [] then symbols
    else
      var n := |items| - 1;
      var before := SymbolsAfterAll(symbols, items[..n]);
      if items[n].answer == None then SymbolsAfter(before, items[n].command) else before
  }

  // Every staged command that has no answer yet is acceptable, one after the other.
  predicate AllAcceptable(setting: Setting, readOnly: set<string>, symbols: set<string>, items: seq<G.Item>) {
    items == [] ||
    (var n := |items| - 1;
     && AllAcceptable(setting, readOnly, symbols, items[..n])
     && (items[n].answer == None ==>
           Acceptable(setting, readOnly, SymbolsAfterAll(symbols, items[..n]), items[n].command)))
  }

  lemma AppliesExactlyWhen(setting: Setting, env: G.Env<Book, SavedBook>, mem: G.Memory<Book, SavedBook>, c: R.Command,
                           n: nat)
    requires env.m == ShardMachine(setting)
    ensures E.Applies(env, mem, c, n) <==> Acceptable(setting, mem.readOnly, mem.live.books.Keys, c)
    ensures E.Applies(env, mem, c, n) ==>
              && G.ApplyLive(env, mem, c, n).value.live.books.Keys == SymbolsAfter(mem.live.books.Keys, c)
  {
    match c
    case NewOrder(None) =>
    case NewOrder(Some(pb)) =>
      assert env.m.matchNew(mem.live.books, pb, n) == MatchNew(setting, mem.live.books, pb, n);
    case Cancel(symbol, id) =>
      assert env.m.cancel(mem.live.books, symbol, id) == CancelIn(mem.live.books, symbol, id);
  }

  // A commit goes through exactly when all its commands are acceptable.
  lemma {:induction false} CommitsExactlyWhen(setting: Setting, env: G.Env<Book, SavedBook>,
                                              mem: G.Memory<Book, SavedBook>, items: seq<G.Item>)
    requires env.m == ShardMachine(setting)
    ensures var symbols := mem.live.books.Keys;
            && (G.CommitItems(env, mem, items).1 <==> AllAcceptable(setting, mem.readOnly, symbols, items))
            && (G.CommitItems(env, mem, items).1 ==>
                  && G.CommitItems(env, mem, items).0.mem.live.books.Keys == SymbolsAfterAll(symbols, items)
                  && G.CommitItems(env, mem, items).0.mem.readOnly == mem.readOnly)
  {
    if items != [] {
      var n := |items| - 1;
      CommitsExactlyWhen(setting, env, mem, items[..n]);
      var before := G.CommitItems(env, mem, items[..n]).0.mem;
      if items[n].answer == None { AppliesExactlyWhen(setting, env, before, items[n].command, items[n].walSeq); }
    }
  }

  // The step is faithful, by what stands in the commands, the books and the log: what is logged is
  // acceptable or staged unless its id is in the log; a batch whose first open command is acceptable
  // has no other; and a crash finds a snapshot that holds all new orders.
  ghost predicate Plain(setting: Setting, env: G.Env<Book, SavedBook>, t: Tracked, step: E.Step) {
    var symbols, readOnly := t.core.mem.live.books.Keys, t.core.mem.readOnly;
    match step
    case Take(c, fate) =>
      G.Checked(t.core.mem, c) == G.ToLog && fate != G.Refused ==>
        ((fate == G.Written && (env.grouped || Acceptable(setting, readOnly, symbols, c))) <==>
         !E.Repeats(t.core.log, R.Entry(|t.core.log| + 1, R.Of(c))))
    case Committed(syncOk) =>
      syncOk && E.FirstOpen(t.pending).Some?
      && Acceptable(setting, readOnly, symbols, E.FirstOpen(t.pending).value.command) ==>
        AllAcceptable(setting, readOnly, symbols, t.pending)
    case Snapshot => true
    case MarkReadOnly(_) => true
    case Crashed(extra) => E.OnlyCancelsMissing(E.Left(t.core, extra), t.marks, t.core.mem.disk.number)
  }

  lemma PlainIsFaithful(setting: Setting, env: G.Env<Book, SavedBook>, t: Tracked, step: E.Step)
    requires env.m == ShardMachine(setting)
    ensures Plain(setting, env, t, step) <==> E.Faithful(env, t, step)
  {
    match step
    case Take(c, fate) => AppliesExactlyWhen(setting, env, t.core.mem, c, |t.core.log| + 1);
    case Committed(syncOk) =>
      CommitsExactlyWhen(setting, env, t.core.mem, t.pending);
      if E.FirstOpen(t.pending).Some? {
        var f := E.FirstOpen(t.pending).value;
        AppliesExactlyWhen(setting, env, t.core.mem, f.command, f.walSeq);
      }
    case Snapshot =>
    case MarkReadOnly(_) =>
    case Crashed(extra) =>
  }

  lemma {:induction false} EachAlike(env: G.Env<Book, SavedBook>, registered: Books, steps: seq<E.Step>,
                                     f: (Tracked, E.Step) -> bool, g: (Tracked, E.Step) -> bool)
    requires forall t, step {:trigger f(t, step)} :: f(t, step) <==> g(t, step)
    ensures E.Each(env, registered, steps, f) <==> E.Each(env, registered, steps, g)
  {
    if steps != [] { EachAlike(env, registered, steps[..|steps| - 1], f, g); }
  }

  // Every run of the shard from an empty directory, with any commands, any fate of every append,
  // any outcome of every commit, snapshots, and crashes that lose any of what is not durable:
  // what has been applied is durable, the books are what the applied entries make, and they can
  // be saved; nothing is applied twice exactly when no half-made batch is committed again; and
  // memory follows the log exactly when every step is faithful.
  lemma EveryShardRun(setting: Setting, env: G.Env<Book, SavedBook>, symbols: set<string>, steps: seq<E.Step>)
    requires env.m == ShardMachine(setting) && TickingAlways(setting) && E.Fitting(SizedOrders(), steps)
    ensures E.Run(env, Registered(symbols), steps).Some?
    ensures var t := E.Run(env, Registered(symbols), steps).value;
            && t.core.mem.recovered <= t.core.durable <= |t.core.log| && R.Numbered(t.core.log)
            && (forall e :: e in t.marks.applied ==> 1 <= e.walSeq <= t.core.durable && t.core.log[e.walSeq - 1] == e)
            && E.Carried(env.m, Registered(symbols), t.marks.applied) == Some(t.core.mem.live.books)
            && AllGood(t.core.mem.live.books)
    ensures E.Always(env, Registered(symbols), steps, (t: Tracked) => E.Distinct(t.marks.applied)) <==>
            E.Each(env, Registered(symbols), steps, (t: Tracked, step: E.Step) => !E.Again(t, step))
    ensures E.Always(env, Registered(symbols), steps, (t: Tracked) => E.AsReplayed(t)) <==>
            E.Each(env, Registered(symbols), steps, (t: Tracked, step: E.Step) => Plain(setting, env, t, step))
  {
    ShardObeysLaws(setting, symbols);
    forall t: Tracked, step: E.Step ensures Plain(setting, env, t, step) <==> E.Faithful(env, t, step) {
      PlainIsFaithful(setting, env, t, step);
    }
    EachAlike(env, Registered(symbols), steps, (t: Tracked, step: E.Step) => E.Faithful(env, t, step),
              (t: Tracked, step: E.Step) => Plain(setting, env, t, step));
    E.EveryRunIsDurable(env, Registered(symbols), GoodBooks(), SizedOrders(), steps);
    E.AppliedOnceExactlyWhen(env, Registered(symbols), GoodBooks(), SizedOrders(), steps);
    E.AsReplayedExactlyWhen(env, Registered(symbols), GoodBooks(), SizedOrders(), steps);
  }

  // A crash after any run of faithful steps loses nothing that was applied: what it leaves of the
  // log is replayed by recovery with the index cut at the snapshot, and by recovery as written if
  // only cancellations have been logged since.
  lemma ShardSurvivesCrash(setting: Setting, env: G.Env<Book, SavedBook>, symbols: set<string>, steps: seq<E.Step>,
                           extra: nat)
    requires env.m == ShardMachine(setting) && TickingAlways(setting) && E.Fitting(SizedOrders(), steps)
    requires E.Each(env, Registered(symbols), steps, (t: Tracked, step: E.Step) => Plain(setting, env, t, step))
    ensures E.Run(env, Registered(symbols), steps).Some?
    ensures var t := E.Run(env, Registered(symbols), steps).value;
            var log, disk := E.Left(t.core, extra), t.core.mem.disk;
            var replay := R.Replayed(env.m, R.Live(Registered(symbols), {}), log);
            && (log == t.core.log && E.FirstOpen(t.pending) == None ==> replay == Some(t.core.mem.live))
            && (E.Labelled(t) && disk.number <= |log| ==>
                  && R.RecoveredWithCut(env.m, Registered(symbols), disk, log) == replay
                  && (R.NoNewOrders(log[disk.number..]) ==>
                        R.Recovered(env.m, Registered(symbols), disk, log) == replay))
  {
    ShardObeysLaws(setting, symbols);
    forall t: Tracked, step: E.Step ensures Plain(setting, env, t, step) <==> E.Faithful(env, t, step) {
      PlainIsFaithful(setting, env, t, step);
    }
    EachAlike(env, Registered(symbols), steps, (t: Tracked, step: E.Step) => E.Faithful(env, t, step),
              (t: Tracked, step: E.Step) => Plain(setting, env, t, step));
    E.CrashLosesNothing(env, Registered(symbols), GoodBooks(), SizedOrders(), steps, extra);
  }

  // An order of a symbol that nobody registered is logged, and then refused.
  lemma UnknownSymbolStops(setting: Setting, env: G.Env<Book, SavedBook>, symbols: set<string>, pb: PbOrder)
    requires env.m == ShardMachine(setting) && !env.grouped && pb.id != 0 && pb.symbol !in symbols
    ensures var run := E.Run(env, Registered(symbols), [E.Take(R.NewOrder(Some(pb)), G.Written)]);
            && run.Some?
            && var t := run.value;
               && !E.AsReplayed(t) && t.core.log != [] && t.core.durable == |t.core.log|
               && R.Replayed(env.m, R.Live(Registered(symbols), {}), t.core.log) == None
               && R.RecoveredWithCut(env.m, Registered(symbols), t.core.mem.disk, t.core.log) == None
  {
    assert env.m.matchNew(Registered(symbols), pb, 1) == MatchNew(setting, Registered(symbols), pb, 1);
    E.RefusedOrderStops(env, Registered(symbols), pb);
  }

  // A limit order and an order of a symbol that nobody registered in one batch: committed twice,
  // the limit order is matched twice.
  lemma HalfCommittedBatchRepeats(setting: Setting, env: G.Env<Book, SavedBook>, symbols: set<string>, a: PbOrder,
                                  b: PbOrder)
    requires env.m == ShardMachine(setting) && env.grouped && env.every == 0
    requires OrderFromProto(a).Done? && a.symbol in symbols && setting.accepts(a.symbol, OrderFromProto(a).value)
    requires b.id != 0 && b.symbol !in symbols
    ensures var steps := [E.Take(R.NewOrder(Some(a)), G.Written), E.Take(R.NewOrder(Some(b)), G.Written),
                          E.Committed(true), E.Committed(true)];
            var e := R.Entry(1, R.Of(R.NewOrder(Some(a))));
            && E.Run(env, Registered(symbols), steps).Some?
            && E.Run(env, Registered(symbols), steps).value.marks.applied == [e, e]
  {
    ConvertedOrders(a);
    var m, books := ShardMachine(setting), Registered(symbols);
    assert m.matchNew(books, a, 1) == MatchNew(setting, books, a, 1);
    var once := MatchNew(setting, books, a, 1).value.books;
    assert m.matchNew(once, a, 1) == MatchNew(setting, once, a, 1) && once.Keys == symbols;
    var twice := MatchNew(setting, once, a, 1).value.books;
    assert twice.Keys == symbols;
    assert m.matchNew(once, b, 2) == MatchNew(setting, once, b, 2) == None;
    assert m.matchNew(twice, b, 2) == MatchNew(setting, twice, b, 2) == None;
    E.CommittedAgainAppliesTwice(env, books, a, b);
  }

  // An order id that is new twice in a batch: processed one by one the second is a duplicate; the
  // staged batch goes through with two entries.
  lemma RepeatedIdGoesThrough(setting: Setting, env: G.Env<Book, SavedBook>, core: G.Core<Book, SavedBook>,
                              pb: PbOrder)
    requires env.m == ShardMachine(setting) && env.grouped && core.durable == |core.log|
    requires G.Checked(core.mem, R.NewOrder(Some(pb))) == G.ToLog
    requires OrderFromProto(pb).Done? && pb.symbol in core.mem.live.books
    requires setting.accepts(pb.symbol, OrderFromProto(pb).value)
    ensures var c := R.NewOrder(Some(pb));
            var ran, b := G.OneByOne(env.(grouped := false), core, [c, c]), G.StageAll(env, core, [c, c]);
            && ran.Some? && b.Some? && |ran.value.core.log| == |core.log| + 1 && |b.value.core.log| == |core.log| + 2
            && G.Commit(env, b.value.core, b.value.items, true).1.Some?
  {
    ConvertedOrders(pb);
    var m, n, books := ShardMachine(setting), |core.log|, core.mem.live.books;
    assert m.matchNew(books, pb, n + 1) == MatchNew(setting, books, pb, n + 1);
    var once := MatchNew(setting, books, pb, n + 1).value.books;
    assert m.matchNew(once, pb, n + 2) == MatchNew(setting, once, pb, n + 2);
    G.RepeatedIdIsLoggedTwice(env, core, pb);
  }
}
