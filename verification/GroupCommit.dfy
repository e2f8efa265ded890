// The live side of the durability protocol: commands processed one by one, or staged in the log,
// made durable together and then applied together.
module GroupCommit {
  import opened Wrappers
  import opened Orders
  import opened Convert
  import opened Recovery

  // How an append to the log can end: in the log and reported so, not in the log, or in the log
  // with an error from the sync.
  datatype Fate = Written | Refused | Unsynced

  // grouped: appends do not sync by themselves.  saves says whether writing the snapshots with a
  // given number succeeds.
  datatype Env<!B(==), !S> = Env(m: Machine<B, S>, grouped: bool, every: nat, saves: nat -> bool)

  // What commands change besides the log.
  datatype Memory<!B, !S> = Memory(live: Live<B>, recovered: nat, disk: Disk<S>, readOnly: set<string>)

  datatype Core<!B, !S> = Core(mem: Memory<B, S>, log: seq<Entry>, durable: nat)

  datatype Outcome = Outcome(trades: seq<Trade>, walSeq: nat, duplicate: bool, readOnly: bool)

  const DUPLICATE := Outcome([], 0, true, false)
  const READ_ONLY := Outcome([], 0, false, true)

  datatype EngineError = InvalidCommand | WalError | ApplyError

  datatype Reply = Replied(outcome: Outcome) | Failed(error: EngineError)

  // What happens to a command before anything is logged.
  datatype Verdict = Malformed | Answered(outcome: Outcome) | ToLog

  function Checked<B, S>(mem: Memory<B, S>, c: Command): Verdict {
    match c
    case NewOrder(None) => Malformed
    case NewOrder(Some(pb)) =>
      if pb.symbol in mem.readOnly then Answered(READ_ONLY)
      else if pb.id == 0 then Malformed
      else if pb.id in mem.live.seen then Answered(DUPLICATE)
      else ToLog
    case Cancel(symbol, id) => if symbol == "" || id == 0 then Malformed else ToLog
  }

  function Logged<B, S>(env: Env<B, S>, core: Core<B, S>, c: Command, fate: Fate): Core<B, S> {
    if fate == Refused then core
    else
      var n := |core.log| + 1;
      core.(log := core.log + [Entry(n, Of(c))],
            durable := if !env.grouped && fate == Written then n else core.durable)
  }

  // Matching also refuses a symbol that is read-only by now.
  function ApplyLive<B(==), S>(env: Env<B, S>, mem: Memory<B, S>, c: Command, n: nat): Option<Performed<B>> {
    if c.NewOrder? && c.order.Some? && c.order.value.symbol in mem.readOnly then None
    else Perform(env.m, mem.live, c, n)
  }

  function Snapped<B(==), S>(env: Env<B, S>, mem: Memory<B, S>, n: nat): Memory<B, S> {
    if env.saves(n) then mem.(disk := Saved(env.m, mem.live.books, n)) else mem
  }

  // Every so many commands a snapshot; that it fails stops nothing.
  function Finish<B(==), S>(env: Env<B, S>, mem: Memory<B, S>, p: Performed<B>, n: nat): Memory<B, S> {
    var done := mem.(live := p.live, recovered := n);
    if env.every == 0 || n % env.every != 0 then done else Snapped(env, done, n)
  }

  // ---- One by one ----

  function Immediate<B(==), S>(env: Env<B, S>, core: Core<B, S>, c: Command, fate: Fate): (Core<B, S>, Reply) {
    match Checked(core.mem, c)
    case Malformed => (core, Failed(InvalidCommand))
    case Answered(o) => (core, Replied(o))
    case ToLog =>
      var logged := Logged(env, core, c, fate);
      if fate != Written then (logged, Failed(WalError))
      else
        var n := |core.log| + 1;
        match ApplyLive(env, core.mem, c, n)
        case None => (logged, Failed(ApplyError))
        case Some(p) => (logged.(mem := Finish(env, core.mem, p, n)), Replied(Outcome(p.trades, n, false, false)))
  }

  datatype Ran<!B, !S> = Ran(core: Core<B, S>, outcomes: seq<Outcome>)

  // A series of commands none of which fails.
  function OneByOne<B(==), S>(env: Env<B, S>, core: Core<B, S>, cs: seq<Command>): Option<Ran<B, S>> {
    if cs == [] then Some(Ran(core, []))
    else
      match OneByOne(env, core, cs[..|cs| - 1])
      case None => None
      case Some(ran) =>
        var (after, reply) := Immediate(env, ran.core, cs[|cs| - 1], Written);
        if reply.Failed? then None else Some(Ran(after, ran.outcomes + [reply.outcome]))
  }

  predicate IsNew(c: Command) { c.NewOrder? && c.order.Some? }

  // Nothing has to be logged for an order of a symbol that is read-only, nor for one that has been seen.
  predicate IsReadOnly<B, S>(mem: Memory<B, S>, c: Command) { IsNew(c) && c.order.value.symbol in mem.readOnly }

  predicate IsRepeated<B, S>(mem: Memory<B, S>, c: Command) {
    IsNew(c) && !IsReadOnly(mem, c) && c.order.value.id != 0 && c.order.value.id in mem.live.seen
  }

  // A command has what it needs to be logged.
  predicate IsWhole(c: Command) {
    match c
    case NewOrder(None) => false
    case NewOrder(Some(pb)) => pb.id != 0
    case Cancel(symbol, id) => symbol != "" && id != 0
  }

  // When a command processed by itself is answered how, and what it changes: first the log, synced, and
  // only then books and ids; nothing when it is answered or refused before.
  lemma RepliesExactlyWhen<B, S>(env: Env<B, S>, core: Core<B, S>, c: Command, fate: Fate)
    requires !env.grouped
    ensures var (after, reply) := Immediate(env, core, c, fate);
            var n, mem := |core.log| + 1, core.mem;
            && (reply == Replied(READ_ONLY) <==> IsReadOnly(mem, c))
            && (reply == Replied(DUPLICATE) <==> IsRepeated(mem, c))
            && (reply == Failed(InvalidCommand) <==> !IsWhole(c) && !IsReadOnly(mem, c))
            && (after.log != core.log <==>
                  IsWhole(c) && !IsReadOnly(mem, c) && !IsRepeated(mem, c) && fate != Refused)
            && (after.log != core.log ==> after.log == core.log + [Entry(n, Of(c))])
            && after.durable == (if after.log != core.log && fate == Written then n else core.durable)
            && (after.mem.live != mem.live || after.mem.disk != mem.disk || after.mem.recovered != mem.recovered ==>
                  after.log == core.log + [Entry(n, Of(c))] && after.durable == n && after.mem.recovered == n)
            && after.mem.readOnly == mem.readOnly
            && (reply == Failed(WalError) <==>
                  IsWhole(c) && !IsReadOnly(mem, c) && !IsRepeated(mem, c) && fate != Written)
  {
    var logged := Logged(env, core, c, fate);
    assert fate != Refused ==> |logged.log| == |core.log| + 1;
    assert READ_ONLY != DUPLICATE;
  }

  // What a command does to books and ids when it goes through.
  lemma GoesThrough<B, S>(env: Env<B, S>, core: Core<B, S>, c: Command, o: Outcome)
    requires Immediate(env, core, c, Written).1 == Replied(o) && o.walSeq != 0
    ensures var after, n, m := Immediate(env, core, c, Written).0, |core.log| + 1, env.m;
            var live := after.mem.live;
            && o.walSeq == n && !o.duplicate && !o.readOnly
            && (IsNew(c) ==>
                  m.matchNew(core.mem.live.books, c.order.value, n) == Some(Applied(live.books, o.trades))
                  && live.seen == core.mem.live.seen + {c.order.value.id})
            && (c.Cancel? ==>
                  && live.books == m.cancel(core.mem.live.books, c.symbol, c.id)
                  && live.seen == core.mem.live.seen && o.trades == [])
            && after.mem.disk == if env.every != 0 && n % env.every == 0 && env.saves(n)
                                 then Disk(n, map symbol | symbol in live.books :: m.save(live.books[symbol]))
                                 else core.mem.disk
  {
  }

  // ---- Staged and committed ----

  datatype Item = Item(command: Command, walSeq: nat, answer: Option<Outcome>)

  function Stage<B(==), S>(env: Env<B, S>, core: Core<B, S>, c: Command, fate: Fate): (Core<B, S>, Option<Item>) {
    match Checked(core.mem, c)
    case Malformed => (core, None)
    case Answered(o) => (core, Some(Item(c, 0, Some(o))))
    case ToLog =>
      var logged := Logged(env, core, c, fate);
      if fate != Written then (logged, None) else (logged, Some(Item(c, |core.log| + 1, None)))
  }

  datatype Batch<!B, !S> = Batch(core: Core<B, S>, items: seq<Item>)

  function StageAll<B(==), S>(env: Env<B, S>, core: Core<B, S>, cs: seq<Command>): Option<Batch<B, S>> {
    if cs == [] then Some(Batch(core, []))
    else
      match StageAll(env, core, cs[..|cs| - 1])
      case None => None
      case Some(b) =>
        var (after, item) := Stage(env, b.core, cs[|cs| - 1], Written);
        if item == None then None else Some(Batch(after, b.items + [item.value]))
  }

  datatype Applying<!B, !S> = Applying(mem: Memory<B, S>, outcomes: seq<Outcome>)

  function CommitItem<B(==), S>(env: Env<B, S>, mem: Memory<B, S>, item: Item): (Memory<B, S>, Reply) {
    if item.answer.Some? then (mem, Replied(item.answer.value))
    else
      match ApplyLive(env, mem, item.command, item.walSeq)
      case None => (mem, Failed(ApplyError))
      case Some(p) => (Finish(env, mem, p, item.walSeq), Replied(Outcome(p.trades, item.walSeq, false, false)))
  }

  // The items applied in order; at the first that fails the rest is not applied.
  function CommitItems<B(==), S>(env: Env<B, S>, mem: Memory<B, S>, items: seq<Item>): (Applying<B, S>, bool) {
    if items == [] then (Applying(mem, []), true)
    else
      var (before, ok) := CommitItems(env, mem, items[..|items| - 1]);
      if !ok then (before, false)
      else
        var (after, reply) := CommitItem(env, before.mem, items[|items| - 1]);
        if reply.Failed? then (before.(mem := after), false)
        else (Applying(after, before.outcomes + [reply.outcome]), true)
  }

  // First everything staged is made durable, then it is applied.
  function Commit<B(==), S>(env: Env<B, S>, core: Core<B, S>, items: seq<Item>, syncOk: bool):
    (Core<B, S>, Option<seq<Outcome>>)
  {
    if items == [] then (core, Some([]))
    else if env.grouped && !syncOk then (core, None)
    else
      var synced := if env.grouped then core.(durable := |core.log|) else core;
      var (a, ok) := CommitItems(env, core.mem, items);
      (synced.(mem := a.mem), if ok then Some(a.outcomes) else None)
  }

  // ---- Group commit is one-by-one processing ----

  // The command is a new order that staging will log.
  predicate Fresh<B, S>(mem: Memory<B, S>, c: Command) {
    c.NewOrder? && Checked(mem, c) == ToLog
  }

  function FreshIds<B, S>(mem: Memory<B, S>, cs: seq<Command>): set<nat> {
    if cs == [] then {}
    else FreshIds(mem, cs[..|cs| - 1]) + if Fresh(mem, cs[|cs| - 1]) then {IdOf(cs[|cs| - 1].order)} else {}
  }

  // No id is staged twice in the batch.
  predicate DistinctNew<B, S>(mem: Memory<B, S>, cs: seq<Command>) {
    cs == [] ||
    (DistinctNew(mem, cs[..|cs| - 1])
     && (Fresh(mem, cs[|cs| - 1]) ==> IdOf(cs[|cs| - 1].order) !in FreshIds(mem, cs[..|cs| - 1])))
  }

  ghost predicate Alike<B, S>(core: Core<B, S>, cs: seq<Command>, ran: Ran<B, S>, b: Batch<B, S>, env: Env<B, S>) {
    && ran.core.log == b.core.log && ran.core.durable == |ran.core.log|
    && b.core.mem == core.mem && b.core.durable == core.durable
    && CommitItems(env, core.mem, b.items) == (Applying(ran.core.mem, ran.outcomes), true)
    && ran.core.mem.live.seen == core.mem.live.seen + FreshIds(core.mem, cs)
    && ran.core.mem.readOnly == core.mem.readOnly
  }

  // Staging any batch of commands and committing it gives the same log, books, seen ids,
  // snapshots and outcomes as processing them one by one, if no id is new twice; and the one goes
  // through exactly when the other does.
  lemma GroupCommitIsOneByOne<B, S>(env: Env<B, S>, core: Core<B, S>, cs: seq<Command>)
    requires env.grouped && core.durable == |core.log| && DistinctNew(core.mem, cs)
    ensures OneByOne(env.(grouped := false), core, cs).Some? <==>
            StageAll(env, core, cs).Some?
            && Commit(env, StageAll(env, core, cs).value.core, StageAll(env, core, cs).value.items, true).1.Some?
    ensures OneByOne(env.(grouped := false), core, cs).Some? ==>
              var ran, b := OneByOne(env.(grouped := false), core, cs).value, StageAll(env, core, cs).value;
              Commit(env, b.core, b.items, true) == (ran.core, Some(ran.outcomes))
  {
    if OneByOne(env.(grouped := false), core, cs).Some? {
      BatchesAlike(env, core, cs);
      StagedSize(env, core, cs);
    } else if StageAll(env, core, cs).Some? {
      StagedSize(env, core, cs);
      if CommitItems(env, core.mem, StageAll(env, core, cs).value.items).1 { CommittedGoesThrough(env, core, cs); }
    }
  }

  lemma {:induction false} StagedSize<B, S>(env: Env<B, S>, core: Core<B, S>, cs: seq<Command>)
    requires StageAll(env, core, cs).Some?
    ensures |StageAll(env, core, cs).value.items| == |cs| && StageAll(env, core, cs).value.core.mem == core.mem
  {
    if cs != [] { StagedSize(env, core, cs[..|cs| - 1]); }
  }

  lemma {:induction false} CommittedGoesThrough<B, S>(env: Env<B, S>, core: Core<B, S>, cs: seq<Command>)
    requires env.grouped && core.durable == |core.log| && DistinctNew(core.mem, cs)
    requires StageAll(env, core, cs).Some? && CommitItems(env, core.mem, StageAll(env, core, cs).value.items).1
    ensures OneByOne(env.(grouped := false), core, cs).Some?
  {
    if cs != [] {
      var n := |cs| - 1;
      var b, items := StageAll(env, core, cs[..n]).value, StageAll(env, core, cs).value.items;
      assert items[..|items| - 1] == b.items;
      CommittedGoesThrough(env, core, cs[..n]);
      BatchesAlike(env, core, cs[..n]);
      var ran := OneByOne(env.(grouped := false), core, cs[..n]).value;
      SameVerdict(core.mem, ran.core.mem, cs[..n], cs[n]);
      if Checked(core.mem, cs[n]) == ToLog {
        assert ApplyLive(env, ran.core.mem, cs[n], |ran.core.log| + 1).Some?;
      }
    }
  }

  lemma {:induction false} BatchesAlike<B, S>(env: Env<B, S>, core: Core<B, S>, cs: seq<Command>)
    requires env.grouped && core.durable == |core.log| && DistinctNew(core.mem, cs)
    requires OneByOne(env.(grouped := false), core, cs).Some?
    ensures StageAll(env, core, cs).Some?
    ensures Alike(core, cs, OneByOne(env.(grouped := false), core, cs).value, StageAll(env, core, cs).value, env)
  {
    if cs != [] {
      var n := |cs| - 1;
      BatchesAlike(env, core, cs[..n]);
      var ran := OneByOne(env.(grouped := false), core, cs[..n]).value;
      var b := StageAll(env, core, cs[..n]).value;
      OneMoreAlike(env, core, cs[..n], cs[n], ran, b);
      assert cs == cs[..n] + [cs[n]];
    }
  }

  lemma OneMoreAlike<B, S>(env: Env<B, S>, core: Core<B, S>, cs: seq<Command>, c: Command, ran: Ran<B, S>,
                           b: Batch<B, S>)
    requires env.grouped && Alike(core, cs, ran, b, env)
    requires Fresh(core.mem, c) ==> IdOf(c.order) !in FreshIds(core.mem, cs)
    requires Immediate(env.(grouped := false), ran.core, c, Written).1.Replied?
    ensures var (after, reply) := Immediate(env.(grouped := false), ran.core, c, Written);
            var (staged, item) := Stage(env, b.core, c, Written);
            && item.Some?
            && Alike(core, cs + [c], Ran(after, ran.outcomes + [reply.outcome]), Batch(staged, b.items + [item.value]),
                     env)
  {
    assert (cs + [c])[..|cs|] == cs;
    SameVerdict(core.mem, ran.core.mem, cs, c);
    SameStep(env, ran.core, b.core, c);
    CommitMore(env, core.mem, b.items, Stage(env, b.core, c, Written).1.value);
  }

  // One command at once, and the same command staged here and committed there.
  lemma SameStep<B, S>(env: Env<B, S>, now: Core<B, S>, core: Core<B, S>, c: Command)
    requires env.grouped && now.log == core.log && now.durable == |now.log|
    requires Checked(now.mem, c) == Checked(core.mem, c)
    requires Immediate(env.(grouped := false), now, c, Written).1.Replied?
    ensures var (after, reply) := Immediate(env.(grouped := false), now, c, Written);
            var (staged, item) := Stage(env, core, c, Written);
            && item.Some? && CommitItem(env, now.mem, item.value) == (after.mem, reply)
            && after.log == staged.log && after.durable == |after.log|
            && staged.mem == core.mem && staged.durable == core.durable
            && after.mem.live.seen == now.mem.live.seen + (if Fresh(core.mem, c) then {IdOf(c.order)} else {})
            && after.mem.readOnly == now.mem.readOnly
  {
    if Checked(core.mem, c) == ToLog {
      var n := |now.log| + 1;
      assert ApplyLive(env, now.mem, c, n) == ApplyLive(env.(grouped := false), now.mem, c, n);
      SeenGrows(env, now.mem, c, n);
    }
  }

  // Whatever the batch has applied so far, the command is judged as it was at staging.
  lemma SameVerdict<B, S>(mem: Memory<B, S>, now: Memory<B, S>, cs: seq<Command>, c: Command)
    requires now.readOnly == mem.readOnly && now.live.seen == mem.live.seen + FreshIds(mem, cs)
    requires Fresh(mem, c) ==> IdOf(c.order) !in FreshIds(mem, cs)
    ensures Checked(now, c) == Checked(mem, c)
  {
  }

  lemma SeenGrows<B, S>(env: Env<B, S>, mem: Memory<B, S>, c: Command, n: nat)
    requires ApplyLive(env, mem, c, n).Some?
    ensures var p := ApplyLive(env, mem, c, n).value;
            && p.live.seen == mem.live.seen + (if c.NewOrder? then {IdOf(c.order)} else {})
            && Finish(env, mem, p, n).live == p.live && Finish(env, mem, p, n).readOnly == mem.readOnly
  {
  }

  // The condition is exact: with an id that is new twice, staging logs an entry that one-by-one
  // processing does not.
  lemma {:induction false} LogsAgreeExactlyWhen<B, S>(env: Env<B, S>, core: Core<B, S>, cs: seq<Command>)
    requires env.grouped && OneByOne(env.(grouped := false), core, cs).Some?
    ensures StageAll(env, core, cs).Some?
    ensures var ran, b := OneByOne(env.(grouped := false), core, cs).value, StageAll(env, core, cs).value;
            && |ran.core.log| <= |b.core.log| && b.core.mem == core.mem
            && (ran.core.log == b.core.log <==> DistinctNew(core.mem, cs))
            && (ran.core.log != b.core.log ==> |ran.core.log| < |b.core.log|)
            && ran.core.mem.live.seen == core.mem.live.seen + FreshIds(core.mem, cs)
            && ran.core.mem.readOnly == core.mem.readOnly
  {
    if cs != [] {
      var n := |cs| - 1;
      LogsAgreeExactlyWhen(env, core, cs[..n]);
      var ran := OneByOne(env.(grouped := false), core, cs[..n]).value;
      var b := StageAll(env, core, cs[..n]).value;
      if Checked(ran.core.mem, cs[n]) == ToLog {
        SeenGrows(env.(grouped := false), ran.core.mem, cs[n], |ran.core.log| + 1);
      }
    }
  }

  // The one-by-one series sees a duplicate; the batch logs and applies the order twice.
  lemma RepeatedIdIsLoggedTwice<B, S>(env: Env<B, S>, core: Core<B, S>, pb: PbOrder)
    requires env.grouped && core.durable == |core.log| && Checked(core.mem, NewOrder(Some(pb))) == ToLog
    requires env.m.matchNew(core.mem.live.books, pb, |core.log| + 1).Some?
    requires var books := env.m.matchNew(core.mem.live.books, pb, |core.log| + 1).value.books;
             env.m.matchNew(books, pb, |core.log| + 2).Some?
    ensures var c := NewOrder(Some(pb));
            var ran, b := OneByOne(env.(grouped := false), core, [c, c]), StageAll(env, core, [c, c]);
            && ran.Some? && ran.value.core.log == core.log + [Entry(|core.log| + 1, Of(c))]
            && b.Some? && b.value.core.log ==
              (core.log + [Entry(|core.log| + 1, Of(c))]) + [Entry(|core.log| + 2, Of(c))]
            && Commit(env, b.value.core, b.value.items, true).1.Some?
  {
    SecondIsDuplicate(env.(grouped := false), core, pb);
    BothAreStaged(env, core, pb);
    BothAreApplied(env, core.mem, pb, |core.log|);
  }

  lemma BothAreApplied<B, S>(env: Env<B, S>, mem: Memory<B, S>, pb: PbOrder, n: nat)
    requires Checked(mem, NewOrder(Some(pb))) == ToLog && env.m.matchNew(mem.live.books, pb, n + 1).Some?
    requires env.m.matchNew(env.m.matchNew(mem.live.books, pb, n + 1).value.books, pb, n + 2).Some?
    ensures var c := NewOrder(Some(pb)); CommitItems(env, mem, [Item(c, n + 1, None), Item(c, n + 2, None)]).1
  {
    var c := NewOrder(Some(pb));
    var i, j := Item(c, n + 1, None), Item(c, n + 2, None);
    assert [i] == [] + [i] && [i, j] == [i] + [j];
    CommitMore(env, mem, [], i);
    SeenGrows(env, mem, c, n + 1);
    CommitMore(env, mem, [i], j);
  }

  lemma SecondIsDuplicate<B, S>(env: Env<B, S>, core: Core<B, S>, pb: PbOrder)
    requires Checked(core.mem, NewOrder(Some(pb))) == ToLog
    requires env.m.matchNew(core.mem.live.books, pb, |core.log| + 1).Some?
    ensures var c := NewOrder(Some(pb));
            var ran := OneByOne(env, core, [c, c]);
            ran.Some? && ran.value.core.log == core.log + [Entry(|core.log| + 1, Of(c))]
  {
    var c := NewOrder(Some(pb));
    assert [c] == [] + [c] && [c, c] == [c] + [c];
    OneMore(env, core, [], c);
    OneMore(env, core, [c], c);
  }

  lemma BothAreStaged<B, S>(env: Env<B, S>, core: Core<B, S>, pb: PbOrder)
    requires Checked(core.mem, NewOrder(Some(pb))) == ToLog
    ensures var c := NewOrder(Some(pb));
            var n, b := |core.log|, StageAll(env, core, [c, c]);
            && b.Some? && b.value.core.mem == core.mem
            && b.value.items == [Item(c, n + 1, None), Item(c, n + 2, None)]
            && b.value.core.log == (core.log + [Entry(n + 1, Of(c))]) + [Entry(n + 2, Of(c))]
  {
    var c := NewOrder(Some(pb));
    assert [c] == [] + [c] && [c, c] == [c] + [c];
    StageMore(env, core, [], c);
    StageMore(env, core, [c], c);
  }

  lemma OneMore<B, S>(env: Env<B, S>, core: Core<B, S>, cs: seq<Command>, c: Command)
    ensures OneByOne(env, core, cs + [c]) ==
            match OneByOne(env, core, cs)
            case None => None
            case Some(ran) =>
              var (after, reply) := Immediate(env, ran.core, c, Written);
              if reply.Failed? then None else Some(Ran(after, ran.outcomes + [reply.outcome]))
  {
    assert (cs + [c])[..|cs|] == cs;
  }

  lemma StageMore<B, S>(env: Env<B, S>, core: Core<B, S>, cs: seq<Command>, c: Command)
    ensures StageAll(env, core, cs + [c]) ==
            match StageAll(env, core, cs)
            case None => None
            case Some(b) =>
              var (after, item) := Stage(env, b.core, c, Written);
              if item == None then None else Some(Batch(after, b.items + [item.value]))
  {
    assert (cs + [c])[..|cs|] == cs;
  }

  lemma CommitMore<B, S>(env: Env<B, S>, mem: Memory<B, S>, items: seq<Item>, item: Item)
    requires CommitItems(env, mem, items).1
    ensures var before := CommitItems(env, mem, items).0;
            var (after, reply) := CommitItem(env, before.mem, item);
            CommitItems(env, mem, items + [item]) ==
            if reply.Failed? then (before.(mem := after), false)
            else (Applying(after, before.outcomes + [reply.outcome]), true)
  {
    assert (items + [item])[..|items|] == items;
  }

  // An explicit snapshot, labelled with the last number of the log.
  function SnapshotNow<B(==), S>(env: Env<B, S>, core: Core<B, S>): Core<B, S> {
    core.(mem := Snapped(env, core.mem, |core.log|))
  }
}
