// Every run of the persistent engine, whatever the disk does: commands that are refused, appends
// and syncs that fail, commits that stop half way and are made again, snapshots at any moment,
// and crashes that lose any part of what was not yet synced.
module EngineRuns {
  import opened Wrappers
  import opened Orders
  import opened Convert
  import opened Recovery
  import opened GroupCommit

  // The entries that memory has performed, in that order, and those of the newest snapshot.
  datatype Marks = Marks(applied: seq<Entry>, kept: seq<Entry>)

  datatype Tracked<!B, !S> = Tracked(core: Core<B, S>, pending: seq<Item>, marks: Marks)

  // A crash keeps what is durable and some further entries.
  datatype Step =
    | Take(command: Command, fate: Fate)
    | Committed(syncOk: bool)
    | Snapshot
    | MarkReadOnly(symbol: string)
    | Crashed(extra: nat)

  function Began<B, S>(registered: map<string, B>): Tracked<B, S> {
    Tracked(Core(Memory(Live(registered, {}), 0, Disk(0, map[]), {}), [], 0), [], Marks([], []))
  }

  predicate SnapsAt<B, S>(env: Env<B, S>, n: nat) { env.every != 0 && n % env.every == 0 && env.saves(n) }

  function EntryOf(item: Item): Entry { Entry(item.walSeq, Of(item.command)) }

  function MarkOne<B, S>(env: Env<B, S>, marks: Marks, e: Entry): Marks {
    var a := marks.applied + [e];
    Marks(a, if SnapsAt(env, e.walSeq) then a else marks.kept)
  }

  // What a commit performs: the items in order, up to the first that fails.
  function MarkItems<B(==), S>(env: Env<B, S>, mem: Memory<B, S>, items: seq<Item>, marks: Marks): Marks {
    if items == [] then marks
    else
      var n := |items| - 1;
      var (a, ok) := CommitItems(env, mem, items[..n]);
      var before := MarkItems(env, mem, items[..n], marks);
      if ok && items[n].answer == None && ApplyLive(env, a.mem, items[n].command, items[n].walSeq).Some?
      then MarkOne(env, before, EntryOf(items[n])) else before
  }

  // What recovery performs: what the snapshot holds, and the cancellations behind its number.
  function WithCancels(kept: seq<Entry>, log: seq<Entry>, from: nat): seq<Entry> {
    if |log| <= from then kept
    else
      var n := |log| - 1;
      WithCancels(kept, log[..n], from)
      + if log[n].what.Of? && log[n].what.command.Cancel? then [log[n]] else []
  }

  predicate Applies<B(==), S>(env: Env<B, S>, mem: Memory<B, S>, c: Command, n: nat) {
    ApplyLive(env, mem, c, n).Some?
  }

  function Left<B, S>(core: Core<B, S>, extra: nat): seq<Entry> { Head(core.log, core.durable + extra) }

  // A command is staged in group commit and processed at once otherwise.
  function AfterTake<B(==), S>(env: Env<B, S>, t: Tracked<B, S>, c: Command, fate: Fate): Tracked<B, S> {
    if env.grouped then
      var (core, item) := Stage(env, t.core, c, fate);
      t.(core := core, pending := t.pending + if item.Some? then [item.value] else [])
    else
      var n := |t.core.log| + 1;
      var done := Checked(t.core.mem, c) == ToLog && fate == Written && Applies(env, t.core.mem, c, n);
      t.(core := Immediate(env, t.core, c, fate).0,
         marks := if done then MarkOne(env, t.marks, Entry(n, Of(c))) else t.marks)
  }

  function AfterCommit<B(==), S>(env: Env<B, S>, t: Tracked<B, S>, syncOk: bool): Tracked<B, S> {
    var (core, outcomes) := Commit(env, t.core, t.pending, syncOk);
    Tracked(core, if outcomes.Some? then [] else t.pending,
            if syncOk then MarkItems(env, t.core.mem, t.pending, t.marks) else t.marks)
  }

  function AfterSnapshot<B(==), S>(env: Env<B, S>, t: Tracked<B, S>): Tracked<B, S> {
    t.(core := SnapshotNow(env, t.core),
       marks := if env.saves(|t.core.log|) then t.marks.(kept := t.marks.applied) else t.marks)
  }

  // A crash is followed by recovery as it is written, which may fail.
  function AfterCrash<B(==), S>(env: Env<B, S>, registered: map<string, B>, t: Tracked<B, S>, extra: nat):
    Option<Tracked<B, S>>
  {
    var log, disk := Left(t.core, extra), t.core.mem.disk;
    match Recovered(env.m, registered, disk, log)
    case None => None
    case Some(live) =>
      Some(Tracked(Core(Memory(live, |log|, disk, {}), log, |log|), [],
                   t.marks.(applied := WithCancels(t.marks.kept, log, disk.number))))
  }

  function AfterMark<B, S>(t: Tracked<B, S>, symbol: string): Tracked<B, S> {
    t.(core := t.core.(mem := t.core.mem.(readOnly := t.core.mem.readOnly + {symbol})))
  }

  function After<B(==), S>(env: Env<B, S>, registered: map<string, B>, t: Tracked<B, S>, step: Step):
    Option<Tracked<B, S>>
  {
    match step
    case Take(c, fate) => Some(AfterTake(env, t, c, fate))
    case Committed(syncOk) => Some(AfterCommit(env, t, syncOk))
    case Snapshot => Some(AfterSnapshot(env, t))
    case MarkReadOnly(symbol) => Some(AfterMark(t, symbol))
    case Crashed(extra) => AfterCrash(env, registered, t, extra)
  }

  function Run<B(==), S>(env: Env<B, S>, registered: map<string, B>, steps: seq<Step>): Option<Tracked<B, S>> {
    if steps == [] then Some(Began(registered))
    else
      match Run(env, registered, steps[..|steps| - 1])
      case None => None
      case Some(t) => After(env, registered, t, steps[|steps| - 1])
  }

  // ---- The books are what the performed entries make of them ----

  ghost predicate AllOf<B>(good: B -> bool, books: map<string, B>) {
    forall symbol :: symbol in books ==> good(books[symbol])
  }

  // Good books load back from what is saved of them, and fitting orders keep books good.
  ghost predicate Storing<B(!new), S>(m: Machine<B, S>, good: B -> bool, fit: PbOrder -> bool) {
    && (forall b {:trigger m.save(b)} :: good(b) ==> m.load(m.save(b)) == Some(b))
    && (forall books: map<string, B>, pb, n {:trigger m.matchNew(books, pb, n)} ::
          AllOf(good, books) && fit(pb) && m.matchNew(books, pb, n).Some? ==>
            AllOf(good, m.matchNew(books, pb, n).value.books))
    && (forall books: map<string, B>, symbol, id {:trigger m.cancel(books, symbol, id)} ::
          AllOf(good, books) ==> AllOf(good, m.cancel(books, symbol, id)))
  }

  predicate Proper(fit: PbOrder -> bool, e: Entry) {
    e.what.Of? &&
    match e.what.command
    case NewOrder(None) => false
    case NewOrder(Some(pb)) => pb.id != 0 && fit(pb)
    case Cancel(symbol, _) => symbol != ""
  }

  ghost predicate AllProper(fit: PbOrder -> bool, log: seq<Entry>) {
    forall i :: 0 <= i < |log| ==> Proper(fit, log[i])
  }

  ghost predicate Fitting(fit: PbOrder -> bool, steps: seq<Step>) {
    forall i :: 0 <= i < |steps| ==> FitStep(fit, steps[i])
  }

  predicate FitStep(fit: PbOrder -> bool, step: Step) {
    step.Take? && step.command.NewOrder? && step.command.order.Some? ==> fit(step.command.order.value)
  }

  function Carried<B(==), S>(m: Machine<B, S>, books: map<string, B>, entries: seq<Entry>): Option<map<string, B>> {
    if entries == [] then Some(books)
    else
      var n := |entries| - 1;
      match Carried(m, books, entries[..n])
      case None => None
      case Some(b) =>
        if entries[n].what.Garbled? then None
        else
          match Perform(m, Live(b, {}), entries[n].what.command, entries[n].walSeq)
          case None => None
          case Some(p) => Some(p.live.books)
  }

  ghost predicate Made<B, S>(m: Machine<B, S>, registered: map<string, B>, good: B -> bool, entries: seq<Entry>,
                             books: map<string, B>) {
    Carried(m, registered, entries) == Some(books) && AllOf(good, books) && registered.Keys <= books.Keys
  }

  // The snapshot on disk holds what the kept entries make.
  ghost predicate Holds<B, S>(m: Machine<B, S>, registered: map<string, B>, good: B -> bool, disk: Disk<S>,
                              kept: seq<Entry>) {
    && Carried(m, registered, kept).Some?
    && var books := Carried(m, registered, kept).value;
       && Made(m, registered, good, kept, books)
       && (disk == Saved(m, books, disk.number) || (disk == Disk(0, map[]) && kept == []))
  }

  ghost predicate InLog(entries: seq<Entry>, log: seq<Entry>, to: nat) {
    forall e :: e in entries ==> 1 <= e.walSeq <= to <= |log| && log[e.walSeq - 1] == e
  }

  function NewOf(entries: seq<Entry>): set<nat> { set e, id | e in entries && id in NewIds(e) :: id }

  ghost predicate Grounded<B, S>(m: Machine<B, S>, registered: map<string, B>, good: B -> bool, log: seq<Entry>,
                                 durable: nat, mem: Memory<B, S>, marks: Marks) {
    && mem.recovered <= durable <= |log|
    && InLog(marks.applied, log, durable) && InLog(marks.kept, log, durable)
    && Made(m, registered, good, marks.applied, mem.live.books)
    && Holds(m, registered, good, mem.disk, marks.kept)
    && NewOf(marks.applied) <= mem.live.seen <= IdsOf(log)
  }

  ghost predicate Waiting(items: seq<Item>, log: seq<Entry>) {
    forall i :: 0 <= i < |items| && items[i].answer == None ==>
      1 <= items[i].walSeq <= |log| && log[items[i].walSeq - 1] == EntryOf(items[i])
  }

  ghost predicate Sane<B, S>(env: Env<B, S>, registered: map<string, B>, good: B -> bool, fit: PbOrder -> bool,
                             t: Tracked<B, S>) {
    && Numbered(t.core.log) && AllProper(fit, t.core.log)
    && Waiting(t.pending, t.core.log) && (env.grouped || t.pending == [])
    && Grounded(env.m, registered, good, t.core.log, t.core.durable, t.core.mem, t.marks)
  }

  lemma CarriedMore<B, S>(m: Machine<B, S>, books: map<string, B>, entries: seq<Entry>, e: Entry)
    requires e.what.Of?
    ensures Carried(m, books, entries + [e]) ==
            match Carried(m, books, entries)
            case None => None
            case Some(b) =>
              match Perform(m, Live(b, {}), e.what.command, e.walSeq)
              case None => None
              case Some(p) => Some(p.live.books)
  {
    assert (entries + [e])[..|entries|] == entries;
  }

  lemma MadeMore<B(!new), S(!new)>(
      m: Machine<B, S>, registered: map<string, B>, good: B -> bool, fit: PbOrder -> bool, entries: seq<Entry>,
      live: Live<B>, e: Entry)
    requires Lawful(m) && Storing(m, good, fit) && Proper(fit, e)
    requires Made(m, registered, good, entries, live.books) && Perform(m, live, e.what.command, e.walSeq).Some?
    ensures var after := Perform(m, live, e.what.command, e.walSeq).value.live;
            Made(m, registered, good, entries + [e], after.books) && after.seen == live.seen + NewIds(e)
  {
    CarriedMore(m, registered, entries, e);
  }

  lemma JoinedInLog(a: seq<Entry>, b: seq<Entry>, log: seq<Entry>, to: nat)
    requires InLog(a, log, to) && InLog(b, log, to)
    ensures InLog(a + b, log, to) && NewOf(a + b) == NewOf(a) + NewOf(b)
  {
  }

  lemma OneInLog(e: Entry, log: seq<Entry>, to: nat)
    requires 1 <= e.walSeq <= to <= |log| && log[e.walSeq - 1] == e
    ensures InLog([e], log, to) && NewOf([e]) == NewIds(e) <= IdsOf(log)
  {
    IdsHold(log, e.walSeq - 1);
    assert e in [e];
  }

  // One entry performed, with the snapshot that may follow.
  lemma GroundedOne<B(!new), S(!new)>(
      env: Env<B, S>, registered: map<string, B>, good: B -> bool, fit: PbOrder -> bool, log: seq<Entry>,
      durable: nat, mem: Memory<B, S>, marks: Marks, e: Entry)
    requires Lawful(env.m) && Storing(env.m, good, fit) && Proper(fit, e)
    requires Grounded(env.m, registered, good, log, durable, mem, marks)
    requires 1 <= e.walSeq <= durable <= |log| && log[e.walSeq - 1] == e
    requires Applies(env, mem, e.what.command, e.walSeq)
    ensures var p := ApplyLive(env, mem, e.what.command, e.walSeq).value;
            Grounded(env.m, registered, good, log, durable, Finish(env, mem, p, e.walSeq), MarkOne(env, marks, e))
  {
    var p := ApplyLive(env, mem, e.what.command, e.walSeq).value;
    MadeMore(env.m, registered, good, fit, marks.applied, mem.live, e);
    OneInLog(e, log, durable);
    JoinedInLog(marks.applied, [e], log, durable);
    FinishGrounded(env, registered, good, log, durable, mem, marks, p, e);
  }

  lemma FinishGrounded<B(!new), S(!new)>(
      env: Env<B, S>, registered: map<string, B>, good: B -> bool, log: seq<Entry>, durable: nat,
      mem: Memory<B, S>, marks: Marks, p: Performed<B>, e: Entry)
    requires Grounded(env.m, registered, good, log, durable, mem, marks) && e.walSeq <= durable
    requires var a := marks.applied + [e];
             && Made(env.m, registered, good, a, p.live.books) && InLog(a, log, durable)
             && NewOf(a) <= p.live.seen <= IdsOf(log)
    ensures Grounded(env.m, registered, good, log, durable, Finish(env, mem, p, e.walSeq), MarkOne(env, marks, e))
  {
    if SnapsAt(env, e.walSeq) {
      assert Holds(env.m, registered, good, Saved(env.m, p.live.books, e.walSeq), marks.applied + [e]);
    }
  }

  lemma GroundedDurable<B, S>(m: Machine<B, S>, registered: map<string, B>, good: B -> bool, log: seq<Entry>,
                              durable: nat, mem: Memory<B, S>, marks: Marks)
    requires Grounded(m, registered, good, log, durable, mem, marks)
    ensures Grounded(m, registered, good, log, |log|, mem, marks)
  {
  }

  lemma {:induction false} GroundedItems<B(!new), S(!new)>(
      env: Env<B, S>, registered: map<string, B>, good: B -> bool, fit: PbOrder -> bool, log: seq<Entry>,
      mem: Memory<B, S>, marks: Marks, items: seq<Item>)
    requires Lawful(env.m) && Storing(env.m, good, fit) && AllProper(fit, log)
    requires Grounded(env.m, registered, good, log, |log|, mem, marks) && Waiting(items, log)
    ensures Grounded(env.m, registered, good, log, |log|, CommitItems(env, mem, items).0.mem,
                     MarkItems(env, mem, items, marks))
    decreases |items|
  {
    if items != [] {
      var n := |items| - 1;
      WaitingPrefix(items, log);
      GroundedItems(env, registered, good, fit, log, mem, marks, items[..n]);
      var (a, ok) := CommitItems(env, mem, items[..n]);
      if ok && items[n].answer == None {
        GroundedItem(env, registered, good, fit, log, a.mem, MarkItems(env, mem, items[..n], marks), items[n]);
      }
    }
  }

  lemma WaitingPrefix(items: seq<Item>, log: seq<Entry>)
    requires Waiting(items, log) && items != []
    ensures Waiting(items[..|items| - 1], log) && Waiting([items[|items| - 1]], log)
  {
  }

  lemma GroundedItem<B(!new), S(!new)>(
      env: Env<B, S>, registered: map<string, B>, good: B -> bool, fit: PbOrder -> bool, log: seq<Entry>,
      mem: Memory<B, S>, marks: Marks, item: Item)
    requires Lawful(env.m) && Storing(env.m, good, fit) && AllProper(fit, log)
    requires Grounded(env.m, registered, good, log, |log|, mem, marks) && Waiting([item], log) && item.answer == None
    ensures Applies(env, mem, item.command, item.walSeq) ==>
              Grounded(env.m, registered, good, log, |log|, CommitItem(env, mem, item).0,
                       MarkOne(env, marks, EntryOf(item)))
  {
    assert [item][0] == item;
    if Applies(env, mem, item.command, item.walSeq) {
      assert Proper(fit, log[item.walSeq - 1]);
      GroundedOne(env, registered, good, fit, log, |log|, mem, marks, EntryOf(item));
    }
  }

  // A longer log, of which more may be durable.
  lemma GroundedGrows<B, S>(m: Machine<B, S>, registered: map<string, B>, good: B -> bool, log: seq<Entry>,
                            durable: nat, mem: Memory<B, S>, marks: Marks, e: Entry, now: nat)
    requires Grounded(m, registered, good, log, durable, mem, marks) && durable <= now <= |log| + 1
    ensures Grounded(m, registered, good, log + [e], now, mem, marks)
  {
    assert (log + [e])[..|log|] == log;
  }

  lemma LoggedKeepsSane<B(!new), S(!new)>(
      env: Env<B, S>, registered: map<string, B>, good: B -> bool, fit: PbOrder -> bool, t: Tracked<B, S>,
      c: Command, fate: Fate)
    requires Sane(env, registered, good, fit, t) && FitStep(fit, Take(c, fate))
    requires Checked(t.core.mem, c) == ToLog && fate != Refused
    ensures Sane(env, registered, good, fit, t.(core := Logged(env, t.core, c, fate)))
  {
    var n := |t.core.log| + 1;
    var e := Entry(n, Of(c));
    var core := Logged(env, t.core, c, fate);
    assert core.log == t.core.log + [e] && Proper(fit, e);
    assert AllProper(fit, core.log) && Numbered(core.log);
    assert Waiting(t.pending, core.log);
    GroundedGrows(env.m, registered, good, t.core.log, t.core.durable, t.core.mem, t.marks, e, core.durable);
  }

  lemma StagedKeepsSane<B(!new), S(!new)>(
      env: Env<B, S>, registered: map<string, B>, good: B -> bool, fit: PbOrder -> bool, t: Tracked<B, S>, c: Command)
    requires Sane(env, registered, good, fit, t) && env.grouped && t.core.log != []
    requires t.core.log[|t.core.log| - 1] == Entry(|t.core.log|, Of(c))
    ensures Sane(env, registered, good, fit, t.(pending := t.pending + [Item(c, |t.core.log|, None)]))
  {
  }

  lemma ImmediateKeepsSane<B(!new), S(!new)>(
      env: Env<B, S>, registered: map<string, B>, good: B -> bool, fit: PbOrder -> bool, t: Tracked<B, S>, c: Command)
    requires Lawful(env.m) && Storing(env.m, good, fit) && Sane(env, registered, good, fit, t)
    requires t.core.log != [] && t.core.log[|t.core.log| - 1] == Entry(|t.core.log|, Of(c))
    requires t.core.durable == |t.core.log| && Applies(env, t.core.mem, c, |t.core.log|)
    ensures var n := |t.core.log|;
            var p := ApplyLive(env, t.core.mem, c, n).value;
            Sane(env, registered, good, fit, t.(core := t.core.(mem := Finish(env, t.core.mem, p, n)),
                                               marks := MarkOne(env, t.marks, Entry(n, Of(c)))))
  {
    var n := |t.core.log|;
    assert Proper(fit, t.core.log[n - 1]);
    GroundedOne(env, registered, good, fit, t.core.log, n, t.core.mem, t.marks, Entry(n, Of(c)));
  }

  lemma TakeKeepsSane<B(!new), S(!new)>(
      env: Env<B, S>, registered: map<string, B>, good: B -> bool, fit: PbOrder -> bool, t: Tracked<B, S>,
      c: Command, fate: Fate)
    requires Lawful(env.m) && Storing(env.m, good, fit) && Sane(env, registered, good, fit, t)
    requires FitStep(fit, Take(c, fate))
    ensures Sane(env, registered, good, fit, AfterTake(env, t, c, fate))
  {
    if Checked(t.core.mem, c) == ToLog && fate != Refused {
      if env.grouped {
        TakeGroupedKeepsSane(env, registered, good, fit, t, c, fate);
      } else {
        TakeAtOnceKeepsSane(env, registered, good, fit, t, c, fate);
      }
    } else if Checked(t.core.mem, c).Answered? && env.grouped {
      AnsweredKeepsSane(env, registered, good, fit, t, Item(c, 0, Some(Checked(t.core.mem, c).outcome)));
    }
  }

  lemma TakeGroupedKeepsSane<B(!new), S(!new)>(
      env: Env<B, S>, registered: map<string, B>, good: B -> bool, fit: PbOrder -> bool, t: Tracked<B, S>,
      c: Command, fate: Fate)
    requires Sane(env, registered, good, fit, t) && FitStep(fit, Take(c, fate))
    requires env.grouped && Checked(t.core.mem, c) == ToLog && fate != Refused
    ensures Sane(env, registered, good, fit, AfterTake(env, t, c, fate))
  {
    LoggedKeepsSane(env, registered, good, fit, t, c, fate);
    if fate == Written {
      StagedKeepsSane(env, registered, good, fit, t.(core := Logged(env, t.core, c, fate)), c);
    }
  }

  lemma TakeAtOnceKeepsSane<B(!new), S(!new)>(
      env: Env<B, S>, registered: map<string, B>, good: B -> bool, fit: PbOrder -> bool, t: Tracked<B, S>,
      c: Command, fate: Fate)
    requires Lawful(env.m) && Storing(env.m, good, fit) && Sane(env, registered, good, fit, t)
    requires FitStep(fit, Take(c, fate))
    requires !env.grouped && Checked(t.core.mem, c) == ToLog && fate != Refused
    ensures Sane(env, registered, good, fit, AfterTake(env, t, c, fate))
  {
    LoggedKeepsSane(env, registered, good, fit, t, c, fate);
    if fate == Written && Applies(env, t.core.mem, c, |t.core.log| + 1) {
      ImmediateKeepsSane(env, registered, good, fit, t.(core := Logged(env, t.core, c, fate)), c);
    }
  }

  lemma AnsweredKeepsSane<B(!new), S(!new)>(
      env: Env<B, S>, registered: map<string, B>, good: B -> bool, fit: PbOrder -> bool, t: Tracked<B, S>, item: Item)
    requires Sane(env, registered, good, fit, t) && env.grouped && item.answer.Some?
    ensures Sane(env, registered, good, fit, t.(pending := t.pending + [item]))
  {
  }

  // ---- Recovery never fails ----

  ghost predicate Lands<B, S>(m: Machine<B, S>, registered: map<string, B>, good: B -> bool, entries: seq<Entry>,
                              seen: set<nat>, live: Option<Live<B>>) {
    live.Some? && live.value.seen == seen && Made(m, registered, good, entries, live.value.books)
  }

  lemma {:induction false} ReplaysCancels<B(!new), S(!new)>(
      m: Machine<B, S>, registered: map<string, B>, good: B -> bool, fit: PbOrder -> bool, live: Live<B>,
      log: seq<Entry>, from: nat, kept: seq<Entry>)
    requires Lawful(m) && Storing(m, good, fit) && AllProper(fit, log)
    requires Made(m, registered, good, kept, live.books)
    ensures Lands(m, registered, good, WithCancels(kept, log, from), live.seen,
                  CancelsReplayed(m, live, Tail(log, from)))
    decreases |log|
  {
    if |log| <= from {
      assert Tail(log, from) == [];
    } else {
      var n := |log| - 1;
      ReplaysCancels(m, registered, good, fit, live, log[..n], from, kept);
      LandsMore(m, registered, good, fit, live, log, from, WithCancels(kept, log[..n], from));
    }
  }

  lemma LandsMore<B(!new), S(!new)>(
      m: Machine<B, S>, registered: map<string, B>, good: B -> bool, fit: PbOrder -> bool, live: Live<B>,
      log: seq<Entry>, from: nat, entries: seq<Entry>)
    requires Lawful(m) && Storing(m, good, fit) && from < |log| && Proper(fit, log[|log| - 1])
    requires Lands(m, registered, good, entries, live.seen, CancelsReplayed(m, live, Tail(log[..|log| - 1], from)))
    ensures var e := log[|log| - 1];
            Lands(m, registered, good, entries + if e.what.Of? && e.what.command.Cancel? then [e] else [], live.seen,
                  CancelsReplayed(m, live, Tail(log, from)))
  {
    CancelsSplit(m, live, log, from);
    var before := CancelsReplayed(m, live, Tail(log[..|log| - 1], from)).value;
    var more := CancelOneMade(m, registered, good, fit, entries, before, log[|log| - 1]);
  }

  lemma CancelsSplit<B(!new), S(!new)>(m: Machine<B, S>, live: Live<B>, log: seq<Entry>, from: nat)
    requires from < |log|
    ensures CancelsReplayed(m, live, Tail(log, from)) ==
            match CancelsReplayed(m, live, Tail(log[..|log| - 1], from))
            case None => None
            case Some(l) => CancelOne(m, l, log[|log| - 1])
  {
    TailSplits(log, from);
  }

  lemma CancelOneMade<B(!new), S(!new)>(
      m: Machine<B, S>, registered: map<string, B>, good: B -> bool, fit: PbOrder -> bool, entries: seq<Entry>,
      live: Live<B>, e: Entry) returns (more: seq<Entry>)
    requires Lawful(m) && Storing(m, good, fit) && Proper(fit, e) && Made(m, registered, good, entries, live.books)
    ensures more == if e.what.Of? && e.what.command.Cancel? then [e] else []
    ensures Lands(m, registered, good, entries + more, live.seen, CancelOne(m, live, e))
  {
    if e.what.command.Cancel? {
      more := [e];
      MadeMore(m, registered, good, fit, entries, live, e);
    } else {
      more := [];
      assert entries + [] == entries;
    }
  }

  lemma TailSplits(log: seq<Entry>, from: nat)
    requires from < |log|
    ensures var tail := Tail(log, from);
            tail != [] && tail[..|tail| - 1] == Tail(log[..|log| - 1], from) && tail[|tail| - 1] == log[|log| - 1]
  {
  }

  lemma {:induction false} CancelsBehind(kept: seq<Entry>, log: seq<Entry>, from: nat)
    requires Numbered(log)
    ensures forall e :: e in WithCancels(kept, log, from) ==>
              e in kept || (from < e.walSeq <= |log| && log[e.walSeq - 1] == e && e.what.Of? && e.what.command.Cancel?)
    decreases |log|
  {
    if |log| > from { CancelsBehind(kept, log[..|log| - 1], from); }
  }

  lemma HeldLoads<B(!new), S(!new)>(
      m: Machine<B, S>, registered: map<string, B>, good: B -> bool, fit: PbOrder -> bool, disk: Disk<S>,
      kept: seq<Entry>)
    requires Storing(m, good, fit) && Holds(m, registered, good, disk, kept)
    ensures Loads(m, disk.saved)
    ensures Carried(m, registered, kept) == Some(Loaded(m, registered, disk.saved))
  {
    var books := Carried(m, registered, kept).value;
    if disk == Saved(m, books, disk.number) {
      assert SavesBack(m, books);
      LoadedOver(m, registered, books, disk.number);
    } else {
      var none: map<string, S> := map[];
      assert Loaded(m, registered, none) == registered;
    }
  }

  lemma RecoveryLands<B(!new), S(!new)>(
      m: Machine<B, S>, registered: map<string, B>, good: B -> bool, fit: PbOrder -> bool, disk: Disk<S>,
      log: seq<Entry>, kept: seq<Entry>)
    requires Lawful(m) && Storing(m, good, fit) && AllProper(fit, log) && Holds(m, registered, good, disk, kept)
    ensures Lands(m, registered, good, WithCancels(kept, log, disk.number), IdsOf(log),
                  Recovered(m, registered, disk, log))
  {
    HeldLoads(m, registered, good, fit, disk, kept);
    RecoveryAppliesOnlyCancels(m, registered, disk, log);
    ReplaysCancels(m, registered, good, fit, Live(Loaded(m, registered, disk.saved), IdsOf(log)), log, disk.number,
                   kept);
  }

  lemma RecoveredIsGrounded<B(!new), S(!new)>(
      m: Machine<B, S>, registered: map<string, B>, good: B -> bool, disk: Disk<S>, log: seq<Entry>, marks: Marks,
      live: Live<B>)
    requires Numbered(log) && InLog(marks.kept, log, |log|) && Holds(m, registered, good, disk, marks.kept)
    requires marks.applied == WithCancels(marks.kept, log, disk.number)
    requires Lands(m, registered, good, marks.applied, IdsOf(log), Some(live))
    ensures Grounded(m, registered, good, log, |log|, Memory(live, |log|, disk, {}), marks)
  {
    CancelsBehind(marks.kept, log, disk.number);
    SeenInLog(marks.applied, log);
  }

  lemma CrashKeepsSane<B(!new), S(!new)>(
      env: Env<B, S>, registered: map<string, B>, good: B -> bool, fit: PbOrder -> bool, t: Tracked<B, S>, extra: nat)
    requires Lawful(env.m) && Storing(env.m, good, fit) && Sane(env, registered, good, fit, t)
    ensures AfterCrash(env, registered, t, extra).Some?
    ensures Sane(env, registered, good, fit, AfterCrash(env, registered, t, extra).value)
  {
    var log, disk, kept := Left(t.core, extra), t.core.mem.disk, t.marks.kept;
    LeftIsSound(fit, t.core, extra, kept);
    RecoveryLands(env.m, registered, good, fit, disk, log, kept);
    var live := Recovered(env.m, registered, disk, log).value;
    RecoveredIsGrounded(env.m, registered, good, disk, log, Marks(WithCancels(kept, log, disk.number), kept), live);
  }

  lemma LeftIsSound<B, S>(fit: PbOrder -> bool, core: Core<B, S>, extra: nat, kept: seq<Entry>)
    requires Numbered(core.log) && AllProper(fit, core.log) && InLog(kept, core.log, core.durable)
    requires core.durable <= |core.log|
    ensures var log := Left(core, extra); Numbered(log) && AllProper(fit, log) && InLog(kept, log, |log|)
  {
    LeftIsPrefix(core, extra);
  }

  lemma LeftIsPrefix<B, S>(core: Core<B, S>, extra: nat)
    requires core.durable <= |core.log|
    ensures Left(core, extra) <= core.log && core.durable <= |Left(core, extra)|
  {
  }

  lemma SeenInLog(entries: seq<Entry>, log: seq<Entry>)
    requires InLog(entries, log, |log|)
    ensures NewOf(entries) <= IdsOf(log)
  {
    forall id | id in NewOf(entries) ensures id in IdsOf(log) {
      var e :| e in entries && id in NewIds(e);
      IdsHold(log, e.walSeq - 1);
    }
  }

  lemma AfterKeepsSane<B(!new), S(!new)>(
      env: Env<B, S>, registered: map<string, B>, good: B -> bool, fit: PbOrder -> bool, t: Tracked<B, S>, step: Step)
    requires Lawful(env.m) && Storing(env.m, good, fit) && Sane(env, registered, good, fit, t) && FitStep(fit, step)
    ensures After(env, registered, t, step).Some?
    ensures Sane(env, registered, good, fit, After(env, registered, t, step).value)
  {
    match step
    case Take(c, fate) => TakeKeepsSane(env, registered, good, fit, t, c, fate);
    case Committed(syncOk) =>
      if syncOk && t.pending != [] {
        GroundedItems(env, registered, good, fit, t.core.log, t.core.mem, t.marks, t.pending);
      }
    case Snapshot =>
      if env.saves(|t.core.log|) {
        assert Holds(env.m, registered, good, Saved(env.m, t.core.mem.live.books, |t.core.log|), t.marks.applied);
      }
    case MarkReadOnly(_) =>
    case Crashed(extra) => CrashKeepsSane(env, registered, good, fit, t, extra);
  }

  lemma {:induction false} EveryRunIsSane<B(!new), S(!new)>(
      env: Env<B, S>, registered: map<string, B>, good: B -> bool, fit: PbOrder -> bool, steps: seq<Step>)
    requires Lawful(env.m) && Storing(env.m, good, fit) && AllOf(good, registered) && Fitting(fit, steps)
    ensures Run(env, registered, steps).Some?
    ensures Sane(env, registered, good, fit, Run(env, registered, steps).value)
  {
    if steps == [] {
      var none: map<string, S> := map[];
      assert Holds(env.m, registered, good, Disk(0, none), []);
    } else {
      var n := |steps| - 1;
      assert forall i :: 0 <= i < n ==> steps[..n][i] == steps[i];
      EveryRunIsSane(env, registered, good, fit, steps[..n]);
      AfterKeepsSane(env, registered, good, fit, Run(env, registered, steps[..n]).value, steps[n]);
    }
  }

  // Whatever a run meets, what memory has performed is durable, and the books are exactly what
  // the performed entries make of the registered ones; recovery never fails.
  lemma EveryRunIsDurable<B(!new), S(!new)>(
      env: Env<B, S>, registered: map<string, B>, good: B -> bool, fit: PbOrder -> bool, steps: seq<Step>)
    requires Lawful(env.m) && Storing(env.m, good, fit) && AllOf(good, registered) && Fitting(fit, steps)
    ensures Run(env, registered, steps).Some?
    ensures var t := Run(env, registered, steps).value;
            && t.core.mem.recovered <= t.core.durable <= |t.core.log| && Numbered(t.core.log)
            && (forall e :: e in t.marks.applied ==> 1 <= e.walSeq <= t.core.durable && t.core.log[e.walSeq - 1] == e)
            && Carried(env.m, registered, t.marks.applied) == Some(t.core.mem.live.books)
            && AllOf(good, t.core.mem.live.books)
  {
    EveryRunIsSane(env, registered, good, fit, steps);
  }

  // ---- Nothing is performed twice ----

  ghost predicate Always<B(!new), S(!new)>(env: Env<B, S>, registered: map<string, B>, steps: seq<Step>,
                                           holds: Tracked<B, S> -> bool) {
    && (steps != [] ==> Always(env, registered, steps[..|steps| - 1], holds))
    && Run(env, registered, steps).Some? && holds(Run(env, registered, steps).value)
  }

  ghost predicate Each<B(!new), S(!new)>(env: Env<B, S>, registered: map<string, B>, steps: seq<Step>,
                                         may: (Tracked<B, S>, Step) -> bool) {
    steps != [] ==>
      var n := |steps| - 1;
      && Each(env, registered, steps[..n], may)
      && Run(env, registered, steps[..n]).Some? && may(Run(env, registered, steps[..n]).value, steps[n])
  }

  ghost predicate Distinct(entries: seq<Entry>) {
    forall i, j :: 0 <= i < j < |entries| ==> entries[i] != entries[j]
  }

  function FirstOpen(items: seq<Item>): Option<Item> {
    if items == [] then None
    else
      var n := |items| - 1;
      match FirstOpen(items[..n])
      case Some(f) => Some(f)
      case None => if items[n].answer == None then Some(items[n]) else None
  }

  predicate Blocked<B, S>(mem: Memory<B, S>, c: Command) {
    c.NewOrder? && c.order.Some? && c.order.value.symbol in mem.readOnly
  }

  // A batch whose first command has been performed is committed again.
  predicate Again<B(==), S>(t: Tracked<B, S>, step: Step) {
    && step == Committed(true) && FirstOpen(t.pending).Some?
    && EntryOf(FirstOpen(t.pending).value) in t.marks.applied
    && !Blocked(t.core.mem, FirstOpen(t.pending).value.command)
  }

  // Whether an order is accepted depends on the order and the symbols there are.
  ghost predicate Steady<B(!new), S(!new)>(m: Machine<B, S>) {
    forall books: map<string, B>, more: map<string, B>, pb, n, k
      {:trigger m.matchNew(books, pb, n), m.matchNew(more, pb, k)} ::
      m.matchNew(books, pb, n).Some? && books.Keys <= more.Keys ==> m.matchNew(more, pb, k).Some?
  }

  ghost predicate Ahead(items: seq<Item>, entries: seq<Entry>) {
    forall i, e :: 0 <= i < |items| && items[i].answer == None && e in entries ==> e.walSeq < items[i].walSeq
  }

  ghost predicate Rising(items: seq<Item>) {
    && (forall i :: 0 <= i < |items| && items[i].answer == None ==> 1 <= items[i].walSeq)
    && (forall i, j :: 0 <= i < j < |items| && items[i].answer == None && items[j].answer == None ==>
          items[i].walSeq < items[j].walSeq)
  }

  ghost predicate UpTo(entries: seq<Entry>, n: nat) { forall e :: e in entries ==> e.walSeq <= n }

  // The first command of what waits has been performed, and would be again.
  ghost predicate Half<B, S>(m: Machine<B, S>, t: Tracked<B, S>) {
    && FirstOpen(t.pending).Some?
    && var f := FirstOpen(t.pending).value;
       EntryOf(f) in t.marks.applied && Perform(m, t.core.mem.live, f.command, f.walSeq).Some?
  }

  ghost predicate MarksOnce<B, S>(mem: Memory<B, S>, marks: Marks) {
    Distinct(marks.applied) && Distinct(marks.kept) && UpTo(marks.kept, mem.disk.number)
  }

  ghost predicate Once<B, S>(env: Env<B, S>, t: Tracked<B, S>) {
    && MarksOnce(t.core.mem, t.marks) && Rising(t.pending)
    && (Ahead(t.pending, t.marks.applied) || Half(env.m, t))
  }

  lemma {:induction false} MarkedUnder<B, S>(env: Env<B, S>, mem: Memory<B, S>, items: seq<Item>, marks: Marks, n: nat)
    requires UpTo(marks.applied, n)
    requires forall i :: 0 <= i < |items| && items[i].answer == None ==> items[i].walSeq <= n
    ensures UpTo(MarkItems(env, mem, items, marks).applied, n)
  {
    if items != [] { MarkedUnder(env, mem, items[..|items| - 1], marks, n); }
  }

  lemma MarkedOnce<B, S>(env: Env<B, S>, mem: Memory<B, S>, marks: Marks, p: Performed<B>, e: Entry)
    requires MarksOnce(mem, marks) && 0 < e.walSeq && UpTo(marks.applied, e.walSeq - 1)
    ensures MarksOnce(Finish(env, mem, p, e.walSeq), MarkOne(env, marks, e))
  {
    var a := marks.applied + [e];
    forall i, j | 0 <= i < j < |a| ensures a[i] != a[j] {
      assert a[i] in marks.applied;
    }
  }

  lemma LastOpen(items: seq<Item>, entries: seq<Entry>)
    requires Rising(items) && Ahead(items, entries) && items != []
    ensures var n := |items| - 1;
            && Rising(items[..n]) && Ahead(items[..n], entries)
            && (items[n].answer == None ==>
                  && 1 <= items[n].walSeq && UpTo(entries, items[n].walSeq - 1)
                  && (forall i :: 0 <= i < n && items[..n][i].answer == None ==>
                        items[..n][i].walSeq <= items[n].walSeq - 1))
  {
  }

  lemma {:induction false} ItemsOnce<B, S>(env: Env<B, S>, mem: Memory<B, S>, items: seq<Item>, marks: Marks)
    requires MarksOnce(mem, marks) && Rising(items) && Ahead(items, marks.applied)
    ensures MarksOnce(CommitItems(env, mem, items).0.mem, MarkItems(env, mem, items, marks))
  {
    if items != [] {
      var n := |items| - 1;
      LastOpen(items, marks.applied);
      ItemsOnce(env, mem, items[..n], marks);
      var (a, ok) := CommitItems(env, mem, items[..n]);
      var before := MarkItems(env, mem, items[..n], marks);
      if ok && items[n].answer == None && Applies(env, a.mem, items[n].command, items[n].walSeq) {
        var p := ApplyLive(env, a.mem, items[n].command, items[n].walSeq).value;
        MarkedUnder(env, mem, items[..n], marks, items[n].walSeq - 1);
        MarkedOnce(env, a.mem, before, p, EntryOf(items[n]));
      }
    }
  }

  // A commit performs the first open command, or nothing at all.
  lemma {:induction false} FirstDecides<B, S>(env: Env<B, S>, mem: Memory<B, S>, items: seq<Item>, marks: Marks)
    ensures var (a, ok) := CommitItems(env, mem, items);
            var after := MarkItems(env, mem, items, marks);
            match FirstOpen(items)
            case None => ok && a.mem == mem && after == marks
            case Some(f) =>
              if Applies(env, mem, f.command, f.walSeq) then marks.applied + [EntryOf(f)] <= after.applied
              else !ok && a.mem == mem && after == marks
  {
    if items != [] { FirstDecides(env, mem, items[..|items| - 1], marks); }
  }

  lemma {:induction false} KeysGrow<B(!new), S(!new)>(env: Env<B, S>, mem: Memory<B, S>, items: seq<Item>)
    requires Lawful(env.m)
    ensures mem.live.books.Keys <= CommitItems(env, mem, items).0.mem.live.books.Keys
  {
    if items != [] { KeysGrow(env, mem, items[..|items| - 1]); }
  }

  lemma StillAccepted<B(!new), S(!new)>(m: Machine<B, S>, live: Live<B>, now: Live<B>, c: Command, n: nat)
    requires Lawful(m) && Steady(m) && Perform(m, live, c, n).Some? && live.books.Keys <= now.books.Keys
    ensures Perform(m, now, c, n).Some?
  {
    if c.NewOrder? {
      var pb := c.order.value;
      assert m.matchNew(live.books, pb, n).Some?;
      assert m.matchNew(now.books, pb, n).Some?;
    }
  }

  lemma CommitOnce<B(!new), S(!new)>(env: Env<B, S>, registered: map<string, B>, t: Tracked<B, S>)
    requires Lawful(env.m) && Steady(env.m) && Once(env, t)
    ensures var after := After(env, registered, t, Committed(true)).value;
            if Again(t, Committed(true)) then !Distinct(after.marks.applied) else Once(env, after)
  {
    var after := After(env, registered, t, Committed(true)).value;
    FirstDecides(env, t.core.mem, t.pending, t.marks);
    if t.pending != [] && FirstOpen(t.pending).Some? {
      var f := FirstOpen(t.pending).value;
      FirstIsOpen(t.pending);
      if Applies(env, t.core.mem, f.command, f.walSeq) {
        if EntryOf(f) in t.marks.applied {
          var i :| 0 <= i < |t.marks.applied| && t.marks.applied[i] == EntryOf(f);
          assert after.marks.applied[i] == after.marks.applied[|t.marks.applied|];
        } else {
          ItemsOnce(env, t.core.mem, t.pending, t.marks);
          KeysGrow(env, t.core.mem, t.pending);
          StillAccepted(env.m, t.core.mem.live, after.core.mem.live, f.command, f.walSeq);
          assert after.marks.applied[|t.marks.applied|] == EntryOf(f);
        }
      }
    }
  }

  lemma {:induction false} FirstIsOpen(items: seq<Item>)
    ensures FirstOpen(items).Some? ==>
              exists i :: 0 <= i < |items| && items[i] == FirstOpen(items).value && items[i].answer == None
  {
    if items != [] {
      var n := |items| - 1;
      FirstIsOpen(items[..n]);
      if FirstOpen(items[..n]).Some? {
        var i :| 0 <= i < n && items[..n][i] == FirstOpen(items[..n]).value && items[..n][i].answer == None;
        assert items[i] == FirstOpen(items).value;
      }
    }
  }

  lemma StagedOnce<B, S>(env: Env<B, S>, t: Tracked<B, S>, core: Core<B, S>, item: Item)
    requires Once(env, t) && core.mem == t.core.mem && Waiting(t.pending, t.core.log)
    requires UpTo(t.marks.applied, |t.core.log|)
    requires item.answer == None ==> item.walSeq == |t.core.log| + 1
    ensures Once(env, t.(core := core, pending := t.pending + [item]))
  {
    var items := t.pending + [item];
    assert items[..|t.pending|] == t.pending;
    assert Rising(items);
    if Ahead(t.pending, t.marks.applied) { assert Ahead(items, t.marks.applied); }
  }

  lemma TakeOnce<B(!new), S(!new)>(
      env: Env<B, S>, registered: map<string, B>, good: B -> bool, fit: PbOrder -> bool, t: Tracked<B, S>,
      c: Command, fate: Fate)
    requires Sane(env, registered, good, fit, t) && Once(env, t)
    ensures Once(env, After(env, registered, t, Take(c, fate)).value)
  {
    assert UpTo(t.marks.applied, |t.core.log|);
    if env.grouped {
      var (core, item) := Stage(env, t.core, c, fate);
      if item.Some? { StagedOnce(env, t, core, item.value); } else { assert t.pending + [] == t.pending; }
    } else {
      ImmediateOnce(env, registered, t, c, fate);
    }
  }

  lemma ImmediateOnce<B(!new), S(!new)>(env: Env<B, S>, registered: map<string, B>, t: Tracked<B, S>, c: Command,
                                        fate: Fate)
    requires Once(env, t) && !env.grouped && t.pending == [] && UpTo(t.marks.applied, |t.core.log|)
    ensures Once(env, After(env, registered, t, Take(c, fate)).value)
  {
    var n := |t.core.log| + 1;
    if Checked(t.core.mem, c) == ToLog && fate == Written && Applies(env, t.core.mem, c, n) {
      MarkedOnce(env, t.core.mem, t.marks, ApplyLive(env, t.core.mem, c, n).value, Entry(n, Of(c)));
    }
  }

  lemma {:induction false} CancelsOnce(kept: seq<Entry>, log: seq<Entry>, from: nat)
    requires Numbered(log) && Distinct(kept) && UpTo(kept, from)
    ensures Distinct(WithCancels(kept, log, from))
    ensures UpTo(WithCancels(kept, log, from), if |log| <= from then from else |log|)
    decreases |log|
  {
    if |log| > from {
      var n := |log| - 1;
      CancelsOnce(kept, log[..n], from);
      var before := WithCancels(kept, log[..n], from);
      assert forall i :: 0 <= i < |before| ==> before[i] in before;
    }
  }

  lemma CrashOnce<B(!new), S(!new)>(
      env: Env<B, S>, registered: map<string, B>, good: B -> bool, fit: PbOrder -> bool, t: Tracked<B, S>, extra: nat)
    requires Sane(env, registered, good, fit, t) && Once(env, t) && After(env, registered, t, Crashed(extra)).Some?
    ensures Once(env, After(env, registered, t, Crashed(extra)).value)
  {
    LeftIsPrefix(t.core, extra);
    assert Numbered(Left(t.core, extra));
    CancelsOnce(t.marks.kept, Left(t.core, extra), t.core.mem.disk.number);
  }

  lemma AfterOnce<B(!new), S(!new)>(
      env: Env<B, S>, registered: map<string, B>, good: B -> bool, fit: PbOrder -> bool, t: Tracked<B, S>, step: Step)
    requires Lawful(env.m) && Steady(env.m) && Sane(env, registered, good, fit, t) && Once(env, t)
    requires After(env, registered, t, step).Some?
    ensures var after := After(env, registered, t, step).value;
            if Again(t, step) then !Distinct(after.marks.applied) else Once(env, after)
  {
    match step
    case Take(c, fate) => TakeOnce(env, registered, good, fit, t, c, fate);
    case Committed(syncOk) => if syncOk { CommitOnce(env, registered, t); }
    case Snapshot => assert UpTo(t.marks.applied, |t.core.log|);
    case MarkReadOnly(_) =>
    case Crashed(extra) => CrashOnce(env, registered, good, fit, t, extra);
  }

  lemma {:induction false} OnceWhile<B(!new), S(!new)>(
      env: Env<B, S>, registered: map<string, B>, good: B -> bool, fit: PbOrder -> bool, steps: seq<Step>,
      once: Tracked<B, S> -> bool, may: (Tracked<B, S>, Step) -> bool)
    requires Lawful(env.m) && Steady(env.m) && Storing(env.m, good, fit) && AllOf(good, registered)
    requires Fitting(fit, steps)
    requires forall t {:trigger once(t)} :: once(t) <==> Distinct(t.marks.applied)
    requires forall t, step {:trigger may(t, step)} :: may(t, step) <==> !Again(t, step)
    ensures Run(env, registered, steps).Some?
    ensures Always(env, registered, steps, once) <==> Each(env, registered, steps, may)
    ensures Each(env, registered, steps, may) ==> Once(env, Run(env, registered, steps).value)
  {
    EveryRunIsSane(env, registered, good, fit, steps);
    if steps != [] {
      var n := |steps| - 1;
      assert forall i :: 0 <= i < n ==> steps[..n][i] == steps[i];
      OnceWhile(env, registered, good, fit, steps[..n], once, may);
      if Each(env, registered, steps[..n], may) {
        EveryRunIsSane(env, registered, good, fit, steps[..n]);
        AfterOnce(env, registered, good, fit, Run(env, registered, steps[..n]).value, steps[n]);
      }
    }
  }

  // Over every run, no entry is performed twice exactly when no batch whose first command has been
  // performed is committed again.
  lemma AppliedOnceExactlyWhen<B(!new), S(!new)>(
      env: Env<B, S>, registered: map<string, B>, good: B -> bool, fit: PbOrder -> bool, steps: seq<Step>)
    requires Lawful(env.m) && Steady(env.m) && Storing(env.m, good, fit) && AllOf(good, registered)
    requires Fitting(fit, steps)
    ensures Always(env, registered, steps, (t: Tracked<B, S>) => Distinct(t.marks.applied)) <==>
            Each(env, registered, steps, (t: Tracked<B, S>, step: Step) => !Again(t, step))
  {
    OnceWhile(env, registered, good, fit, steps, (t: Tracked<B, S>) => Distinct(t.marks.applied),
              (t: Tracked<B, S>, step: Step) => !Again(t, step));
  }

  // ---- Memory is the replay of the log ----

  predicate Repeats(log: seq<Entry>, e: Entry) { NewIds(e) * IdsOf(log) != {} }

  // The entries that a replay performs: all but new orders whose id an earlier entry has.
  function Trace(log: seq<Entry>): seq<Entry> {
    if log == [] then []
    else
      var n := |log| - 1;
      Trace(log[..n]) + if Repeats(log[..n], log[n]) then [] else [log[n]]
  }

  function Waits(items: seq<Item>): seq<Entry> {
    if items == [] then []
    else
      var n := |items| - 1;
      Waits(items[..n]) + if items[n].answer == None then [EntryOf(items[n])] else []
  }

  // What memory has performed, with what waits for the commit, is what a replay of the log performs.
  ghost predicate AsReplayed<B, S>(t: Tracked<B, S>) {
    t.marks.applied + Waits(t.pending) == Trace(t.core.log)
  }

  // Everything in the log that the snapshot does not hold is a cancellation behind its number.
  ghost predicate OnlyCancelsMissing(log: seq<Entry>, marks: Marks, number: nat) {
    forall e :: e in Trace(log) && e !in marks.kept ==> number < e.walSeq && e.what.Of? && e.what.command.Cancel?
  }

  // What is logged is performed, or staged, unless its id is in the log; a commit goes through or
  // fails at its first command; and a crash finds a snapshot that holds all new orders.
  ghost predicate Faithful<B, S>(env: Env<B, S>, t: Tracked<B, S>, step: Step) {
    match step
    case Take(c, fate) =>
      var n := |t.core.log| + 1;
      Checked(t.core.mem, c) == ToLog && fate != Refused ==>
        ((fate == Written && (env.grouped || Applies(env, t.core.mem, c, n))) <==>
         !Repeats(t.core.log, Entry(n, Of(c))))
    case Committed(syncOk) =>
      syncOk && FirstOpen(t.pending).Some?
      && Applies(env, t.core.mem, FirstOpen(t.pending).value.command, FirstOpen(t.pending).value.walSeq) ==>
        CommitItems(env, t.core.mem, t.pending).1
    case Snapshot => true
    case MarkReadOnly(_) => true
    case Crashed(extra) => OnlyCancelsMissing(Left(t.core, extra), t.marks, t.core.mem.disk.number)
  }

  ghost predicate Kept<B, S>(t: Tracked<B, S>) {
    && t.marks.kept <= Trace(t.core.log) && UpTo(t.marks.kept, t.core.mem.disk.number)
  }

  lemma {:induction false} TraceInLog(log: seq<Entry>)
    requires Numbered(log)
    ensures InLog(Trace(log), log, |log|) && Increasing(Trace(log))
  {
    if log != [] {
      var n := |log| - 1;
      TraceInLog(log[..n]);
      TraceGrows(log, Trace(log[..n]), log[n]);
    }
  }

  lemma TraceGrows(log: seq<Entry>, trace: seq<Entry>, e: Entry)
    requires Numbered(log) && log != [] && e == log[|log| - 1]
    requires InLog(trace, log[..|log| - 1], |log| - 1) && Increasing(trace)
    ensures InLog(trace, log, |log|) && InLog(trace + [e], log, |log|) && Increasing(trace + [e])
  {
    forall i | 0 <= i < |trace| ensures trace[i].walSeq < e.walSeq {
      assert trace[i] in trace;
    }
  }

  lemma TraceMore(log: seq<Entry>, e: Entry)
    ensures Trace(log + [e]) == Trace(log) + if Repeats(log, e) then [] else [e]
  {
    assert (log + [e])[..|log|] == log;
  }

  lemma {:induction false} TracePrefix(log: seq<Entry>, k: nat)
    requires Numbered(log) && k <= |log|
    ensures Trace(log[..k]) <= Trace(log)
    ensures forall i :: |Trace(log[..k])| <= i < |Trace(log)| ==> k < Trace(log)[i].walSeq
    decreases |log|
  {
    if k == |log| {
      assert log[..k] == log;
    } else {
      var n := |log| - 1;
      TracePrefix(log[..n], k);
      assert log[..n][..k] == log[..k];
    }
  }

  lemma WaitsMore(items: seq<Item>, item: Item)
    ensures Waits(items + [item]) == Waits(items) + if item.answer == None then [EntryOf(item)] else []
  {
    assert (items + [item])[..|items|] == items;
  }

  lemma {:induction false} OpenWaits(items: seq<Item>, i: nat)
    requires i < |items| && items[i].answer == None
    ensures EntryOf(items[i]) in Waits(items)
    decreases |items|
  {
    if i < |items| - 1 { OpenWaits(items[..|items| - 1], i); }
  }

  lemma {:induction false} NoneWaits(items: seq<Item>)
    ensures FirstOpen(items) == None <==> Waits(items) == []
  {
    if items != [] { NoneWaits(items[..|items| - 1]); }
  }

  ghost predicate Increasing(entries: seq<Entry>) {
    forall i, j :: 0 <= i < j < |entries| ==> entries[i].walSeq < entries[j].walSeq
  }

  lemma IncreasingPrefix(a: seq<Entry>, e: Entry)
    requires Increasing(a + [e])
    ensures Increasing(a) && forall x :: x in a ==> x.walSeq < e.walSeq
  {
    assert forall i :: 0 <= i < |a| ==> (a + [e])[i] == a[i];
    forall x | x in a ensures x.walSeq < e.walSeq {
      var i :| 0 <= i < |a| && a[i] == x;
      assert (a + [e])[|a|] == e;
    }
  }

  lemma {:induction false} WaitsInOrder(a: seq<Entry>, items: seq<Item>)
    requires Increasing(a + Waits(items))
    requires forall i :: 0 <= i < |items| && items[i].answer == None ==> 1 <= items[i].walSeq
    ensures Ahead(items, a) && Rising(items)
  {
    if items != [] {
      var n := |items| - 1;
      var before := a + Waits(items[..n]);
      if items[n].answer == None {
        var e := EntryOf(items[n]);
        assert before + [e] == a + Waits(items);
        IncreasingPrefix(before, e);
        forall i | 0 <= i < n && items[i].answer == None ensures items[i].walSeq < items[n].walSeq {
          OpenWaits(items[..n], i);
          assert items[..n][i] == items[i];
        }
      } else {
        assert before == a + Waits(items);
      }
      WaitsInOrder(a, items[..n]);
      RisesOne(a, items);
    }
  }

  lemma RisesOne(a: seq<Entry>, items: seq<Item>)
    requires items != [] && Ahead(items[..|items| - 1], a) && Rising(items[..|items| - 1])
    requires var last := items[|items| - 1];
             last.answer == None ==>
               && 1 <= last.walSeq && (forall e :: e in a ==> e.walSeq < last.walSeq)
               && (forall i :: 0 <= i < |items| - 1 && items[i].answer == None ==> items[i].walSeq < last.walSeq)
    ensures Ahead(items, a) && Rising(items)
  {
    assert forall i :: 0 <= i < |items| - 1 ==> items[..|items| - 1][i] == items[i];
  }

  lemma {:induction false} MarkedAll<B, S>(env: Env<B, S>, mem: Memory<B, S>, items: seq<Item>, marks: Marks)
    ensures var after := MarkItems(env, mem, items, marks);
            && (CommitItems(env, mem, items).1 ==> after.applied == marks.applied + Waits(items))
            && (after.kept == marks.kept || after.kept <= after.applied)
  {
    if items == [] {
      assert marks.applied + [] == marks.applied;
    } else {
      MarkedAll(env, mem, items[..|items| - 1], marks);
    }
  }

  // ---- The steps, one by one ----

  ghost predicate InStep<B, S>(t: Tracked<B, S>) { AsReplayed(t) && Kept(t) }

  lemma OnceInStep<B, S>(t: Tracked<B, S>)
    requires InStep(t) && Numbered(t.core.log) && Waiting(t.pending, t.core.log)
    ensures MarksOnce(t.core.mem, t.marks) && Rising(t.pending) && Ahead(t.pending, t.marks.applied)
  {
    TraceInLog(t.core.log);
    WaitsInOrder(t.marks.applied, t.pending);
    assert forall i :: 0 <= i < |t.marks.applied| ==> t.marks.applied[i] == Trace(t.core.log)[i];
    assert forall i :: 0 <= i < |t.marks.kept| ==> t.marks.kept[i] == Trace(t.core.log)[i];
  }

  lemma CommitInStep<B(!new), S(!new)>(env: Env<B, S>, registered: map<string, B>, t: Tracked<B, S>)
    requires InStep(t) && Numbered(t.core.log) && Waiting(t.pending, t.core.log)
    ensures var after := After(env, registered, t, Committed(true)).value;
            if Faithful(env, t, Committed(true)) then InStep(after) else !AsReplayed(after)
  {
    OnceInStep(t);
    FirstDecides(env, t.core.mem, t.pending, t.marks);
    NoneWaits(t.pending);
    MarkedAll(env, t.core.mem, t.pending, t.marks);
    ItemsOnce(env, t.core.mem, t.pending, t.marks);
  }

  function Only(yes: bool, e: Entry): seq<Entry> { if yes then [e] else [] }

  // A step that logs e or not, and performs or stages it or not.
  lemma OneInStep<B, S>(t: Tracked<B, S>, after: Tracked<B, S>, e: Entry, logs: bool, has: bool)
    requires InStep(t) && after.core.log == t.core.log + Only(logs, e) && (has ==> logs)
    requires after.marks.applied + Waits(after.pending) == (t.marks.applied + Waits(t.pending)) + Only(has, e)
    ensures AsReplayed(after) <==> (logs ==> (has <==> !Repeats(t.core.log, e)))
    ensures Trace(t.core.log) <= Trace(after.core.log)
  {
    TraceMore(t.core.log, e);
    assert t.core.log + [] == t.core.log;
    var trace := Trace(t.core.log);
    assert trace + [] == trace;
    assert |trace + [e]| != |trace|;
  }

  lemma StagedInStep<B(!new), S(!new)>(
      env: Env<B, S>, registered: map<string, B>, t: Tracked<B, S>, c: Command, fate: Fate)
    requires InStep(t) && env.grouped
    ensures var after := After(env, registered, t, Take(c, fate)).value;
            if Faithful(env, t, Take(c, fate)) then InStep(after) else !AsReplayed(after)
  {
    var e := Entry(|t.core.log| + 1, Of(c));
    var logs := Checked(t.core.mem, c) == ToLog && fate != Refused;
    var after := StagedGrows(env, t, c, fate);
    Joined(t.marks.applied, Waits(t.pending), Only(logs && fate == Written, e));
    OneInStep(t, after, e, logs, logs && fate == Written);
  }

  lemma StagedGrows<B(!new), S(!new)>(env: Env<B, S>, t: Tracked<B, S>, c: Command, fate: Fate)
      returns (after: Tracked<B, S>)
    requires env.grouped
    ensures after == AfterTake(env, t, c, fate)
    ensures var e := Entry(|t.core.log| + 1, Of(c));
            var logs := Checked(t.core.mem, c) == ToLog && fate != Refused;
            && after.core.log == t.core.log + Only(logs, e) && after.marks == t.marks && after.core.mem == t.core.mem
            && Waits(after.pending) == Waits(t.pending) + Only(logs && fate == Written, e)
  {
    after := AfterTake(env, t, c, fate);
    var item := Stage(env, t.core, c, fate).1;
    assert Waits(t.pending) + [] == Waits(t.pending) && t.pending + [] == t.pending && t.core.log + [] == t.core.log;
    if item.Some? { WaitsMore(t.pending, item.value); }
  }

  lemma ImmediateInStep<B(!new), S(!new)>(
      env: Env<B, S>, registered: map<string, B>, t: Tracked<B, S>, c: Command, fate: Fate)
    requires InStep(t) && !env.grouped && t.pending == [] && Numbered(t.core.log)
    ensures var after := After(env, registered, t, Take(c, fate)).value;
            if Faithful(env, t, Take(c, fate)) then InStep(after) else !AsReplayed(after)
  {
    var n := |t.core.log| + 1;
    var logs := Checked(t.core.mem, c) == ToLog && fate != Refused;
    var has := logs && fate == Written && Applies(env, t.core.mem, c, n);
    var after := ImmediateGrows(env, t, c, fate);
    GrownInStep(t, after, Entry(n, Of(c)), logs, has);
  }

  lemma GrownInStep<B(!new), S(!new)>(t: Tracked<B, S>, after: Tracked<B, S>, e: Entry, logs: bool, has: bool)
    requires InStep(t) && t.pending == [] == after.pending && Numbered(t.core.log) && e.walSeq == |t.core.log| + 1
    requires after.core.log == t.core.log + Only(logs, e) && (has ==> logs)
    requires after.marks.applied == t.marks.applied + Only(has, e)
    requires || (after.marks.kept == t.marks.kept && after.core.mem.disk == t.core.mem.disk)
             || (after.marks.kept == after.marks.applied && after.core.mem.disk.number == e.walSeq)
    ensures AsReplayed(after) <==> (logs ==> (has <==> !Repeats(t.core.log, e)))
    ensures AsReplayed(after) ==> InStep(after)
  {
    assert (t.marks.applied + Only(has, e)) + [] == (t.marks.applied + []) + Only(has, e);
    OneInStep(t, after, e, logs, has);
    assert after.marks.applied + [] == after.marks.applied && t.marks.applied + [] == t.marks.applied;
    TraceMoreUpTo(t.core.log, after.marks.applied, Only(has, e));
  }

  lemma TraceMoreUpTo(log: seq<Entry>, applied: seq<Entry>, more: seq<Entry>)
    requires Numbered(log) && applied == Trace(log) + more && UpTo(more, |log| + 1)
    ensures UpTo(applied, |log| + 1)
  {
    TraceInLog(log);
  }

  lemma ImmediateGrows<B(!new), S(!new)>(env: Env<B, S>, t: Tracked<B, S>, c: Command, fate: Fate)
      returns (after: Tracked<B, S>)
    requires !env.grouped && t.pending == []
    ensures after == AfterTake(env, t, c, fate)
    ensures var n := |t.core.log| + 1;
            var e := Entry(n, Of(c));
            var logs := Checked(t.core.mem, c) == ToLog && fate != Refused;
            var has := logs && fate == Written && Applies(env, t.core.mem, c, n);
            && after.core.log == t.core.log + Only(logs, e) && after.pending == []
            && after.marks.applied == t.marks.applied + Only(has, e)
            && ((after.marks.kept == t.marks.kept && after.core.mem.disk == t.core.mem.disk)
                || (after.marks.kept == after.marks.applied && after.core.mem.disk.number == n))
  {
    after := AfterTake(env, t, c, fate);
    assert t.marks.applied + [] == t.marks.applied && t.core.log + [] == t.core.log;
  }

  lemma TakeInStep<B(!new), S(!new)>(
      env: Env<B, S>, registered: map<string, B>, t: Tracked<B, S>, c: Command, fate: Fate)
    requires InStep(t) && Numbered(t.core.log) && (env.grouped || t.pending == [])
    ensures var after := After(env, registered, t, Take(c, fate)).value;
            if Faithful(env, t, Take(c, fate)) then InStep(after) else !AsReplayed(after)
  {
    if env.grouped {
      StagedInStep(env, registered, t, c, fate);
    } else {
      ImmediateInStep(env, registered, t, c, fate);
    }
  }

  lemma Joined<T>(a: seq<T>, b: seq<T>, c: seq<T>)
    ensures a + (b + c) == (a + b) + c
  {
  }

  // ---- A crash ----

  lemma LastKept(kept: seq<Entry>, trace: seq<Entry>, e: Entry)
    requires kept <= trace + [e] && forall x :: x in trace ==> x.walSeq < e.walSeq
    ensures if e in kept then kept == trace + [e] else kept <= trace
  {
    assert (trace + [e])[|trace|] == e;
    if |kept| == |trace| + 1 { assert kept[|trace|] == e; }
  }

  lemma MissingShrinks(log: seq<Entry>, marks: Marks, from: nat)
    requires OnlyCancelsMissing(log, marks, from) && log != []
    ensures OnlyCancelsMissing(log[..|log| - 1], marks, from)
  {
    assert forall e :: e in Trace(log[..|log| - 1]) ==> e in Trace(log);
  }

  lemma TraceEarlier(log: seq<Entry>)
    requires Numbered(log) && log != []
    ensures forall x :: x in Trace(log[..|log| - 1]) ==> x.walSeq < |log|
  {
    TraceInLog(log[..|log| - 1]);
  }

  lemma {:induction false} CancelsComplete(marks: Marks, log: seq<Entry>, from: nat)
    requires Numbered(log) && marks.kept <= Trace(log) && UpTo(marks.kept, from)
    requires OnlyCancelsMissing(log, marks, from)
    ensures WithCancels(marks.kept, log, from) == Trace(log)
    decreases |log|
  {
    if log != [] {
      var n := |log| - 1;
      var e, before := log[n], Trace(log[..n]);
      TraceEarlier(log);
      MissingShrinks(log, marks, from);
      if Repeats(log[..n], e) {
        CancelsComplete(marks, log[..n], from);
      } else {
        LastKept(marks.kept, before, e);
        assert (before + [e])[|before|] == e;
        if e !in marks.kept { CancelsComplete(marks, log[..n], from); }
      }
    }
  }

  // Recovery performs the trace of what is left exactly if the snapshot lacks only cancellations.
  lemma CancelsCompleteExactly(marks: Marks, log: seq<Entry>, from: nat)
    requires Numbered(log) && marks.kept <= Trace(log) && UpTo(marks.kept, from)
    ensures WithCancels(marks.kept, log, from) == Trace(log) <==> OnlyCancelsMissing(log, marks, from)
  {
    CancelsBehind(marks.kept, log, from);
    if OnlyCancelsMissing(log, marks, from) { CancelsComplete(marks, log, from); }
  }

  lemma NumberAt(entries: seq<Entry>, all: seq<Entry>, n: nat, i: nat)
    requires entries <= all && UpTo(entries, n)
    ensures i < |entries| ==> i < |all| && all[i].walSeq <= n
  {
    if i < |entries| { assert entries[i] in entries; }
  }

  lemma KeptInLeft(log: seq<Entry>, left: seq<Entry>, kept: seq<Entry>)
    requires Numbered(log) && left <= log && kept <= Trace(log) && UpTo(kept, |left|)
    ensures kept <= Trace(left)
  {
    assert log[..|left|] == left;
    TracePrefix(log, |left|);
    NumberAt(kept, Trace(log), |left|, |Trace(left)|);
  }

  lemma CrashInStep<B(!new), S(!new)>(env: Env<B, S>, registered: map<string, B>, t: Tracked<B, S>, extra: nat)
    requires InStep(t) && Numbered(t.core.log) && t.core.durable <= |t.core.log|
    requires InLog(t.marks.kept, t.core.log, t.core.durable) && After(env, registered, t, Crashed(extra)).Some?
    ensures var after := After(env, registered, t, Crashed(extra)).value;
            if Faithful(env, t, Crashed(extra)) then InStep(after) else !AsReplayed(after)
  {
    var log, kept, number := Left(t.core, extra), t.marks.kept, t.core.mem.disk.number;
    LeftIsPrefix(t.core, extra);
    assert UpTo(kept, |log|) && Numbered(log);
    KeptInLeft(t.core.log, log, kept);
    CancelsCompleteExactly(t.marks, log, number);
    assert WithCancels(kept, log, number) + [] == WithCancels(kept, log, number);
  }

  lemma AfterInStep<B(!new), S(!new)>(
      env: Env<B, S>, registered: map<string, B>, good: B -> bool, fit: PbOrder -> bool, t: Tracked<B, S>, step: Step)
    requires Sane(env, registered, good, fit, t) && InStep(t) && After(env, registered, t, step).Some?
    ensures var after := After(env, registered, t, step).value;
            if Faithful(env, t, step) then InStep(after) else !AsReplayed(after)
  {
    match step
    case Take(c, fate) => TakeInStep(env, registered, t, c, fate);
    case Committed(syncOk) => if syncOk { CommitInStep(env, registered, t); }
    case Snapshot => assert UpTo(t.marks.applied, |t.core.log|);
    case MarkReadOnly(_) =>
    case Crashed(extra) => CrashInStep(env, registered, t, extra);
  }

  lemma {:induction false} InStepWhile<B(!new), S(!new)>(
      env: Env<B, S>, registered: map<string, B>, good: B -> bool, fit: PbOrder -> bool, steps: seq<Step>,
      replayed: Tracked<B, S> -> bool, may: (Tracked<B, S>, Step) -> bool)
    requires Lawful(env.m) && Storing(env.m, good, fit) && AllOf(good, registered) && Fitting(fit, steps)
    requires forall t {:trigger replayed(t)} :: replayed(t) <==> AsReplayed(t)
    requires forall t, step {:trigger may(t, step)} :: may(t, step) <==> Faithful(env, t, step)
    ensures Run(env, registered, steps).Some?
    ensures Always(env, registered, steps, replayed) <==> Each(env, registered, steps, may)
    ensures Each(env, registered, steps, may) ==> InStep(Run(env, registered, steps).value)
  {
    EveryRunIsSane(env, registered, good, fit, steps);
    if steps != [] {
      var n := |steps| - 1;
      assert forall i :: 0 <= i < n ==> steps[..n][i] == steps[i];
      InStepWhile(env, registered, good, fit, steps[..n], replayed, may);
      if Each(env, registered, steps[..n], may) {
        EveryRunIsSane(env, registered, good, fit, steps[..n]);
        AfterInStep(env, registered, good, fit, Run(env, registered, steps[..n]).value, steps[n]);
      }
    }
  }

  // Over every run, memory and what waits stay exactly what a replay of the log performs, in that
  // order, if and only if every step is faithful.
  lemma AsReplayedExactlyWhen<B(!new), S(!new)>(
      env: Env<B, S>, registered: map<string, B>, good: B -> bool, fit: PbOrder -> bool, steps: seq<Step>)
    requires Lawful(env.m) && Storing(env.m, good, fit) && AllOf(good, registered) && Fitting(fit, steps)
    ensures Always(env, registered, steps, (t: Tracked<B, S>) => AsReplayed(t)) <==>
            Each(env, registered, steps, (t: Tracked<B, S>, step: Step) => Faithful(env, t, step))
  {
    InStepWhile(env, registered, good, fit, steps, (t: Tracked<B, S>) => AsReplayed(t),
                (t: Tracked<B, S>, step: Step) => Faithful(env, t, step));
  }

  // ---- What that means for the books ----

  // A replay performs the trace of the log, and nothing else.
  lemma {:induction false} ReplayPerformsTrace<B(!new), S(!new)>(
      m: Machine<B, S>, registered: map<string, B>, fit: PbOrder -> bool, log: seq<Entry>)
    requires AllProper(fit, log)
    ensures Replayed(m, Live(registered, {}), log) ==
            match Carried(m, registered, Trace(log))
            case None => None
            case Some(books) => Some(Live(books, IdsOf(log)))
  {
    if log != [] {
      var n := |log| - 1;
      var e := log[n];
      assert Proper(fit, e);
      assert forall i :: 0 <= i < n ==> log[..n][i] == log[i];
      ReplayPerformsTrace(m, registered, fit, log[..n]);
      CarriedMore(m, registered, Trace(log[..n]), e);
      assert Trace(log[..n]) + [] == Trace(log[..n]);
      if Carried(m, registered, Trace(log[..n])).Some? {
        OneOfTrace(m, fit, Carried(m, registered, Trace(log[..n])).value, log[..n], e);
      }
    }
  }

  lemma OneOfTrace<B(!new), S(!new)>(m: Machine<B, S>, fit: PbOrder -> bool, books: map<string, B>, log: seq<Entry>,
                                     e: Entry)
    requires Proper(fit, e)
    ensures ReplayOne(m, Live(books, IdsOf(log)), e) ==
            if Repeats(log, e) then Some(Live(books, IdsOf(log) + NewIds(e)))
            else match Perform(m, Live(books, {}), e.what.command, e.walSeq)
                 case None => None
                 case Some(p) => Some(Live(p.live.books, IdsOf(log) + NewIds(e)))
  {
    var c := e.what.command;
    if c.NewOrder? {
      var id := IdOf(c.order);
      assert NewIds(e) == {id};
      if id in IdsOf(log) {
        assert id in NewIds(e) * IdsOf(log) && IdsOf(log) + {id} == IdsOf(log);
      } else {
        assert NewIds(e) * IdsOf(log) == {};
      }
    } else {
      assert NewIds(e) == {} && IdsOf(log) + {} == IdsOf(log);
    }
  }

  lemma {:induction false} TraceHasIds(log: seq<Entry>)
    ensures IdsOf(log) <= NewOf(Trace(log))
  {
    if log != [] {
      var n := |log| - 1;
      TraceHasIds(log[..n]);
      assert forall e :: e in Trace(log[..n]) ==> e in Trace(log);
      if !Repeats(log[..n], log[n]) { assert log[n] in Trace(log); }
    }
  }

  // The snapshot holds what its number says.
  ghost predicate Labelled<B, S>(t: Tracked<B, S>) {
    t.core.mem.disk.number <= |t.core.log| && t.marks.kept == Trace(t.core.log[..t.core.mem.disk.number])
  }

  // When every step has been faithful, what a crash leaves of the log replays to the books of
  // just these entries, and if nothing waits and nothing is lost, to the memory of the engine.
  // Recovery with the index cut at the snapshot gives that replay if the snapshot holds what its
  // number says; as written it gives it if only cancellations are logged behind it.
  lemma CrashLosesNothing<B(!new), S(!new)>(
      env: Env<B, S>, registered: map<string, B>, good: B -> bool, fit: PbOrder -> bool, steps: seq<Step>, extra: nat)
    requires Lawful(env.m) && Storing(env.m, good, fit) && AllOf(good, registered) && Fitting(fit, steps)
    requires Each(env, registered, steps, (t: Tracked<B, S>, step: Step) => Faithful(env, t, step))
    ensures Run(env, registered, steps).Some?
    ensures var t := Run(env, registered, steps).value;
            var log, disk := Left(t.core, extra), t.core.mem.disk;
            var replay := Replayed(env.m, Live(registered, {}), log);
            && (log == t.core.log && FirstOpen(t.pending) == None ==> replay == Some(t.core.mem.live))
            && (Labelled(t) && disk.number <= |log| ==>
                  && RecoveredWithCut(env.m, registered, disk, log) == replay
                  && (NoNewOrders(log[disk.number..]) ==> Recovered(env.m, registered, disk, log) == replay))
  {
    InStepWhile(env, registered, good, fit, steps, (t: Tracked<B, S>) => AsReplayed(t),
                (t: Tracked<B, S>, step: Step) => Faithful(env, t, step));
    EveryRunIsSane(env, registered, good, fit, steps);
    var t := Run(env, registered, steps).value;
    if FirstOpen(t.pending) == None { IdleIsReplay(env, registered, good, fit, t); }
    if Labelled(t) && t.core.mem.disk.number <= |Left(t.core, extra)| {
      LabelledRecovers(env, registered, good, fit, t, extra);
    }
  }

  lemma IdleIsReplay<B(!new), S(!new)>(
      env: Env<B, S>, registered: map<string, B>, good: B -> bool, fit: PbOrder -> bool, t: Tracked<B, S>)
    requires Sane(env, registered, good, fit, t) && AsReplayed(t) && FirstOpen(t.pending) == None
    ensures Replayed(env.m, Live(registered, {}), t.core.log) == Some(t.core.mem.live)
  {
    NoneWaits(t.pending);
    assert t.marks.applied + [] == t.marks.applied;
    ReplayPerformsTrace(env.m, registered, fit, t.core.log);
    TraceHasIds(t.core.log);
    assert t.marks.applied == Trace(t.core.log);
    assert t.core.mem.live.seen == IdsOf(t.core.log);
  }

  lemma LabelledRecovers<B(!new), S(!new)>(
      env: Env<B, S>, registered: map<string, B>, good: B -> bool, fit: PbOrder -> bool, t: Tracked<B, S>, extra: nat)
    requires Lawful(env.m) && Storing(env.m, good, fit) && Sane(env, registered, good, fit, t) && Labelled(t)
    requires t.core.mem.disk.number <= |Left(t.core, extra)|
    ensures var log, disk := Left(t.core, extra), t.core.mem.disk;
            var replay := Replayed(env.m, Live(registered, {}), log);
            && RecoveredWithCut(env.m, registered, disk, log) == replay
            && (NoNewOrders(log[disk.number..]) ==> Recovered(env.m, registered, disk, log) == replay)
  {
    var log, disk := Left(t.core, extra), t.core.mem.disk;
    LeftIsPrefix(t.core, extra);
    var head := t.core.log[..disk.number];
    assert log[..disk.number] == head;
    assert AllProper(fit, head);
    ReplayPerformsTrace(env.m, registered, fit, head);
    var books := Carried(env.m, registered, t.marks.kept).value;
    assert SavesBack(env.m, books);
    assert SnapshotOf(env.m, registered, disk, log);
    RecoveryWithCutIsFullReplay(env.m, registered, disk, log);
    if NoNewOrders(log[disk.number..]) { RecoveryIsFullReplayWithoutNewOrders(env.m, registered, disk, log); }
  }

  // ---- When the snapshot holds what its number says ----

  // What is not durable belongs to commands that wait.
  ghost predicate Settled<B, S>(t: Tracked<B, S>) { FirstOpen(t.pending) == None ==> t.core.durable == |t.core.log| }

  // A snapshot is taken while a command waits.
  predicate Hasty<B, S>(env: Env<B, S>, t: Tracked<B, S>, step: Step) {
    step.Snapshot? && env.saves(|t.core.log|) && FirstOpen(t.pending).Some?
  }

  // With nothing waiting, all ids of the log have been seen.
  lemma IdleHasSeen<B(!new), S(!new)>(
      env: Env<B, S>, registered: map<string, B>, good: B -> bool, fit: PbOrder -> bool, t: Tracked<B, S>, c: Command)
    requires Sane(env, registered, good, fit, t) && AsReplayed(t) && FirstOpen(t.pending) == None
    requires Checked(t.core.mem, c) == ToLog
    ensures !Repeats(t.core.log, Entry(|t.core.log| + 1, Of(c)))
  {
    NoneWaits(t.pending);
    assert t.marks.applied + [] == t.marks.applied;
    TraceHasIds(t.core.log);
    assert IdsOf(t.core.log) <= t.core.mem.live.seen;
  }

  lemma OpenStays(items: seq<Item>, item: Item)
    ensures FirstOpen(items + [item]) == None ==> FirstOpen(items) == None && item.answer.Some?
  {
    assert (items + [item])[..|items|] == items;
  }

  lemma TakeSettles<B(!new), S(!new)>(
      env: Env<B, S>, registered: map<string, B>, good: B -> bool, fit: PbOrder -> bool, t: Tracked<B, S>,
      c: Command, fate: Fate)
    requires Sane(env, registered, good, fit, t) && AsReplayed(t) && Settled(t) && Faithful(env, t, Take(c, fate))
    ensures Settled(After(env, registered, t, Take(c, fate)).value)
  {
    if FirstOpen(t.pending) == None && Checked(t.core.mem, c) == ToLog {
      IdleHasSeen(env, registered, good, fit, t, c);
    }
    if env.grouped {
      var item := Stage(env, t.core, c, fate).1;
      if item.Some? { OpenStays(t.pending, item.value); } else { assert t.pending + [] == t.pending; }
    }
  }

  lemma AfterSettles<B(!new), S(!new)>(
      env: Env<B, S>, registered: map<string, B>, good: B -> bool, fit: PbOrder -> bool, t: Tracked<B, S>, step: Step)
    requires Sane(env, registered, good, fit, t) && AsReplayed(t) && Settled(t) && Faithful(env, t, step)
    requires After(env, registered, t, step).Some?
    ensures Settled(After(env, registered, t, step).value)
  {
    if step.Take? { TakeSettles(env, registered, good, fit, t, step.command, step.fate); }
  }

  lemma SamePrefix(all: seq<Entry>, kept: seq<Entry>, trace: seq<Entry>)
    requires Increasing(all) && kept <= all && trace <= all && kept != []
    requires UpTo(trace, kept[|kept| - 1].walSeq)
    requires forall i :: |trace| <= i < |all| ==> kept[|kept| - 1].walSeq < all[i].walSeq
    ensures kept == trace
  {
    var k := |kept| - 1;
    assert kept[k] == all[k];
    NumberAt(trace, all, kept[k].walSeq, |kept|);
  }

  lemma TraceUpTo(log: seq<Entry>)
    requires Numbered(log)
    ensures UpTo(Trace(log), |log|) && Increasing(Trace(log))
  {
    TraceInLog(log);
  }

  lemma LastNumber(entries: seq<Entry>, all: seq<Entry>, n: nat)
    requires entries <= all && entries != [] && UpTo(all, n)
    ensures entries[|entries| - 1].walSeq <= n
  {
    assert all[|entries| - 1] in all;
  }

  // Entries up to the last of them are the trace up to its number.
  lemma PrefixIsTrace(log: seq<Entry>, kept: seq<Entry>)
    requires Numbered(log) && kept <= Trace(log) && kept != []
    ensures var n := kept[|kept| - 1].walSeq; n <= |log| && kept == Trace(log[..n])
  {
    TraceUpTo(log);
    LastNumber(kept, Trace(log), |log|);
    var n := kept[|kept| - 1].walSeq;
    TracePrefix(log, n);
    TraceUpTo(log[..n]);
    SamePrefix(Trace(log), kept, Trace(log[..n]));
  }

  // A commit leaves the snapshot, or one of all that was applied when it was taken.
  lemma {:induction false} MarkedLast<B, S>(env: Env<B, S>, mem: Memory<B, S>, items: seq<Item>, marks: Marks)
    ensures var now, after := CommitItems(env, mem, items).0.mem, MarkItems(env, mem, items, marks);
            || (after.kept == marks.kept && now.disk == mem.disk)
            || (after.kept != [] && after.kept <= after.applied
                && after.kept[|after.kept| - 1].walSeq == now.disk.number)
  {
    if items != [] {
      MarkedLast(env, mem, items[..|items| - 1], marks);
      MarkedAll(env, mem, items[..|items| - 1], marks);
    }
  }

  ghost predicate LabelledWell<B, S>(t: Tracked<B, S>) { Labelled(t) && t.core.mem.disk.number <= t.core.durable }

  lemma PrefixLabelled(log: seq<Entry>, longer: seq<Entry>, n: nat)
    requires log <= longer && n <= |log|
    ensures log[..n] == longer[..n]
  {
  }

  lemma CommitLabels<B(!new), S(!new)>(
      env: Env<B, S>, registered: map<string, B>, good: B -> bool, fit: PbOrder -> bool, t: Tracked<B, S>)
    requires Sane(env, registered, good, fit, t) && InStep(t) && LabelledWell(t) && Faithful(env, t, Committed(true))
    ensures LabelledWell(After(env, registered, t, Committed(true)).value)
  {
    var after := After(env, registered, t, Committed(true)).value;
    CommitInStep(env, registered, t);
    MarkedLast(env, t.core.mem, t.pending, t.marks);
    CommitKeepsLog(env, registered, good, fit, t);
    NewLabel(t, after);
  }

  lemma CommitKeepsLog<B(!new), S(!new)>(
      env: Env<B, S>, registered: map<string, B>, good: B -> bool, fit: PbOrder -> bool, t: Tracked<B, S>)
    requires Sane(env, registered, good, fit, t)
    ensures var after := After(env, registered, t, Committed(true)).value;
            && after.core.log == t.core.log
            && if t.pending == [] then after == t
               else after.core.durable == |t.core.log|
                    && after.core.mem == CommitItems(env, t.core.mem, t.pending).0.mem
                    && after.marks == MarkItems(env, t.core.mem, t.pending, t.marks)
  {
  }

  lemma NewLabel<B, S>(t: Tracked<B, S>, after: Tracked<B, S>)
    requires LabelledWell(t) && InStep(after) && Numbered(after.core.log) && after.core.log == t.core.log
    requires after == t || after.core.durable == |t.core.log|
    requires || (after.marks.kept == t.marks.kept && after.core.mem.disk == t.core.mem.disk)
             || (after.marks.kept != [] && after.marks.kept <= after.marks.applied
                 && after.marks.kept[|after.marks.kept| - 1].walSeq == after.core.mem.disk.number)
    ensures LabelledWell(after)
  {
    if after.marks.kept != [] && after.marks.kept <= after.marks.applied {
      PrefixOfTrace(after);
      PrefixIsTrace(after.core.log, after.marks.kept);
    }
  }

  lemma PrefixOfTrace<B, S>(t: Tracked<B, S>)
    requires AsReplayed(t) && t.marks.kept <= t.marks.applied
    ensures t.marks.kept <= Trace(t.core.log)
  {
  }

  lemma OldLabel<B, S>(t: Tracked<B, S>, after: Tracked<B, S>)
    requires LabelledWell(t) && t.core.log <= after.core.log && t.core.durable <= after.core.durable
    requires after.marks.kept == t.marks.kept && after.core.mem.disk == t.core.mem.disk
    ensures LabelledWell(after)
  {
    PrefixLabelled(t.core.log, after.core.log, t.core.mem.disk.number);
  }

  lemma FullLabel<B, S>(t: Tracked<B, S>)
    requires AsReplayed(t) && FirstOpen(t.pending) == None && t.marks.kept == t.marks.applied
    requires t.core.mem.disk.number == t.core.durable == |t.core.log|
    ensures LabelledWell(t)
  {
    NoneWaits(t.pending);
    assert t.marks.applied + [] == t.marks.applied && t.core.log[..|t.core.log|] == t.core.log;
  }

  // What taking a command does to the log and to the snapshot.
  lemma TakeShape<B(!new), S(!new)>(
      env: Env<B, S>, registered: map<string, B>, t: Tracked<B, S>, c: Command, fate: Fate)
    requires (env.grouped || t.pending == []) && t.core.durable <= |t.core.log|
    ensures var after := After(env, registered, t, Take(c, fate)).value;
            && t.core.log <= after.core.log && t.core.durable <= after.core.durable
            && ((after.marks.kept == t.marks.kept && after.core.mem.disk == t.core.mem.disk)
                || (after.pending == [] && after.marks.kept == after.marks.applied
                    && after.core.mem.disk.number == after.core.durable == |after.core.log|))
  {
  }

  lemma TakeLabels<B(!new), S(!new)>(
      env: Env<B, S>, registered: map<string, B>, good: B -> bool, fit: PbOrder -> bool, t: Tracked<B, S>,
      c: Command, fate: Fate)
    requires Sane(env, registered, good, fit, t) && InStep(t) && LabelledWell(t) && Faithful(env, t, Take(c, fate))
    ensures LabelledWell(After(env, registered, t, Take(c, fate)).value)
  {
    var after := After(env, registered, t, Take(c, fate)).value;
    TakeShape(env, registered, t, c, fate);
    TakeInStep(env, registered, t, c, fate);
    if after.marks.kept == t.marks.kept && after.core.mem.disk == t.core.mem.disk {
      OldLabel(t, after);
    } else {
      FullLabel(after);
    }
  }

  lemma AfterLabels<B(!new), S(!new)>(
      env: Env<B, S>, registered: map<string, B>, good: B -> bool, fit: PbOrder -> bool, t: Tracked<B, S>, step: Step)
    requires Sane(env, registered, good, fit, t) && InStep(t) && Settled(t) && LabelledWell(t) && Faithful(env, t, step)
    requires After(env, registered, t, step).Some?
    ensures var after := After(env, registered, t, step).value;
            if Hasty(env, t, step) then !Labelled(after) else LabelledWell(after)
  {
    match step
    case Take(c, fate) => TakeLabels(env, registered, good, fit, t, c, fate);
    case Committed(syncOk) => if syncOk { CommitLabels(env, registered, good, fit, t); }
    case Snapshot =>
      NoneWaits(t.pending);
      assert t.core.log[..|t.core.log|] == t.core.log;
      assert t.marks.applied + [] == t.marks.applied;
    case MarkReadOnly(_) =>
    case Crashed(extra) =>
      LeftIsPrefix(t.core, extra);
      PrefixLabelled(Left(t.core, extra), t.core.log, t.core.mem.disk.number);
  }

  lemma {:induction false} LabelledWhile<B(!new), S(!new)>(
      env: Env<B, S>, registered: map<string, B>, good: B -> bool, fit: PbOrder -> bool, steps: seq<Step>,
      faithful: (Tracked<B, S>, Step) -> bool, labelled: Tracked<B, S> -> bool, may: (Tracked<B, S>, Step) -> bool)
    requires Lawful(env.m) && Storing(env.m, good, fit) && AllOf(good, registered) && Fitting(fit, steps)
    requires forall t, step {:trigger faithful(t, step)} :: faithful(t, step) <==> Faithful(env, t, step)
    requires forall t {:trigger labelled(t)} :: labelled(t) <==> Labelled(t)
    requires forall t, step {:trigger may(t, step)} :: may(t, step) <==> !Hasty(env, t, step)
    requires Each(env, registered, steps, faithful)
    ensures Run(env, registered, steps).Some? && Settled(Run(env, registered, steps).value)
    ensures Always(env, registered, steps, labelled) <==> Each(env, registered, steps, may)
    ensures Each(env, registered, steps, may) ==> LabelledWell(Run(env, registered, steps).value)
  {
    EveryRunIsSane(env, registered, good, fit, steps);
    if steps != [] {
      var n := |steps| - 1;
      assert forall i :: 0 <= i < n ==> steps[..n][i] == steps[i];
      LabelledWhile(env, registered, good, fit, steps[..n], faithful, labelled, may);
      EveryRunIsSane(env, registered, good, fit, steps[..n]);
      InStepWhile(env, registered, good, fit, steps[..n], (t: Tracked<B, S>) => AsReplayed(t), faithful);
      var t := Run(env, registered, steps[..n]).value;
      AfterSettles(env, registered, good, fit, t, steps[n]);
      if Each(env, registered, steps[..n], may) { AfterLabels(env, registered, good, fit, t, steps[n]); }
    }
  }

  // Over every run of faithful steps, the snapshot on disk always holds what its number says
  // exactly when none is taken while a command waits for its commit.
  lemma LabelledExactlyWhen<B(!new), S(!new)>(
      env: Env<B, S>, registered: map<string, B>, good: B -> bool, fit: PbOrder -> bool, steps: seq<Step>)
    requires Lawful(env.m) && Storing(env.m, good, fit) && AllOf(good, registered) && Fitting(fit, steps)
    requires Each(env, registered, steps, (t: Tracked<B, S>, step: Step) => Faithful(env, t, step))
    ensures Always(env, registered, steps, (t: Tracked<B, S>) => Labelled(t)) <==>
            Each(env, registered, steps, (t: Tracked<B, S>, step: Step) => !Hasty(env, t, step))
  {
    LabelledWhile(env, registered, good, fit, steps, (t: Tracked<B, S>, step: Step) => Faithful(env, t, step),
                  (t: Tracked<B, S>) => Labelled(t), (t: Tracked<B, S>, step: Step) => !Hasty(env, t, step));
  }

  ghost predicate IdsApart(entries: seq<Entry>) {
    forall i, j :: 0 <= i < j < |entries| ==> NewIds(entries[i]) !! NewIds(entries[j])
  }

  lemma ApartMore(entries: seq<Entry>, ids: set<nat>, e: Entry)
    requires IdsApart(entries) && NewOf(entries) <= ids && NewIds(e) * ids == {}
    ensures IdsApart(entries + [e]) && NewOf(entries + [e]) <= ids + NewIds(e)
  {
    forall i | 0 <= i < |entries| ensures NewIds(entries[i]) <= NewOf(entries) {
      assert entries[i] in entries;
    }
    assert forall i :: 0 <= i < |entries| ==> NewIds(entries[i]) !! NewIds(e);
  }

  lemma {:induction false} TraceNamesOnce(log: seq<Entry>)
    ensures IdsApart(Trace(log)) && NewOf(Trace(log)) <= IdsOf(log)
  {
    if log != [] {
      var n := |log| - 1;
      TraceNamesOnce(log[..n]);
      if !Repeats(log[..n], log[n]) { ApartMore(Trace(log[..n]), IdsOf(log[..n]), log[n]); }
    }
  }

  // When every step has been faithful, no order id has been performed as new twice.
  lemma EveryIdOnce<B(!new), S(!new)>(
      env: Env<B, S>, registered: map<string, B>, good: B -> bool, fit: PbOrder -> bool, steps: seq<Step>)
    requires Lawful(env.m) && Storing(env.m, good, fit) && AllOf(good, registered) && Fitting(fit, steps)
    requires Each(env, registered, steps, (t: Tracked<B, S>, step: Step) => Faithful(env, t, step))
    ensures Run(env, registered, steps).Some?
    ensures IdsApart(Run(env, registered, steps).value.marks.applied)
  {
    InStepWhile(env, registered, good, fit, steps, (t: Tracked<B, S>) => AsReplayed(t),
                (t: Tracked<B, S>, step: Step) => Faithful(env, t, step));
    var t := Run(env, registered, steps).value;
    TraceNamesOnce(t.core.log);
    assert forall i :: 0 <= i < |t.marks.applied| ==> t.marks.applied[i] == Trace(t.core.log)[i];
  }

  lemma RunMore<B, S>(env: Env<B, S>, registered: map<string, B>, steps: seq<Step>, step: Step)
    ensures Run(env, registered, steps + [step]) ==
            match Run(env, registered, steps)
            case None => None
            case Some(t) => After(env, registered, t, step)
  {
    assert (steps + [step])[..|steps|] == steps;
  }

  lemma OneRefused<B(!new), S(!new)>(env: Env<B, S>, registered: map<string, B>, pb: PbOrder)
    requires !env.grouped && pb.id != 0 && env.m.matchNew(registered, pb, 1) == None
    ensures var began: Tracked<B, S> := Began(registered);
            var log := [Entry(1, Of(NewOrder(Some(pb))))];
            Run(env, registered, [Take(NewOrder(Some(pb)), Written)]) ==
            Some(began.(core := began.core.(log := log, durable := 1)))
  {
    var began: Tracked<B, S> := Began(registered);
    var step := Take(NewOrder(Some(pb)), Written);
    assert [] + [step] == [step];
    RunMore(env, registered, [], step);
    assert began.core.log + [Entry(1, Of(NewOrder(Some(pb))))] == [Entry(1, Of(NewOrder(Some(pb))))];
    assert Perform(env.m, began.core.mem.live, NewOrder(Some(pb)), 1) == None;
  }

  lemma OneEntryReplayed<B, S>(m: Machine<B, S>, live: Live<B>, e: Entry)
    ensures Replayed(m, live, [e]) == ReplayOne(m, live, e)
  {
    assert [e][..0] == [];
  }

  // An order that is logged and then refused: the log can no longer be replayed, nor recovered
  // from with the index cut, while recovery as it is written opens and forgets the order.
  lemma RefusedOrderStops<B(!new), S(!new)>(env: Env<B, S>, registered: map<string, B>, pb: PbOrder)
    requires !env.grouped && pb.id != 0 && env.m.matchNew(registered, pb, 1) == None
    ensures var run := Run(env, registered, [Take(NewOrder(Some(pb)), Written)]);
            && run.Some?
            && var t := run.value;
               && t.core.log == [Entry(1, Of(NewOrder(Some(pb))))] && t.marks.applied == [] && !AsReplayed(t)
               && t.core.durable == 1
               && Replayed(env.m, Live(registered, {}), t.core.log) == None
               && RecoveredWithCut(env.m, registered, t.core.mem.disk, t.core.log) == None
               && Recovered(env.m, registered, t.core.mem.disk, t.core.log) == Some(Live(registered, {pb.id}))
  {
    var e := Entry(1, Of(NewOrder(Some(pb))));
    OneRefused(env, registered, pb);
    TraceMore([], e);
    assert [] + [e] == [e] && [e][..0] == [];
    assert IdsOf([e]) == {} + {pb.id} == {pb.id};
    var none: map<string, S> := map[];
    assert Loaded(env.m, registered, none) == registered;
    OneEntryReplayed(env.m, Live(registered, {}), e);
    OneEntryReplayed(env.m, Live(registered, {pb.id}), e);
  }

  // A batch of two commands of which the second fails.
  lemma HalfCommitted<B, S>(env: Env<B, S>, t: Tracked<B, S>, i: Item, j: Item)
    requires env.grouped && env.every == 0 && t.pending == [i, j] && i.answer == None && j.answer == None
    requires ApplyLive(env, t.core.mem, i.command, i.walSeq).Some?
    requires var live := ApplyLive(env, t.core.mem, i.command, i.walSeq).value.live;
             ApplyLive(env, t.core.mem.(live := live, recovered := i.walSeq), j.command, j.walSeq) == None
    ensures var live := ApplyLive(env, t.core.mem, i.command, i.walSeq).value.live;
            var mem := t.core.mem.(live := live, recovered := i.walSeq);
            CommitItems(env, t.core.mem, [i, j]) ==
              (Applying(mem, CommitItems(env, t.core.mem, [i]).0.outcomes), false)
            && MarkItems(env, t.core.mem, [i, j], t.marks) == t.marks.(applied := t.marks.applied + [EntryOf(i)])
  {
    assert [i, j][..1] == [i] && [i][..0] == [];
    var mem := t.core.mem;
    assert CommitItems(env, mem, []) == (Applying(mem, []), true) && MarkItems(env, mem, [], t.marks) == t.marks;
    assert CommitItems(env, mem, [i]).1 && MarkItems(env, mem, [i], t.marks) == MarkOne(env, t.marks, EntryOf(i));
  }

  // A batch of an order that is accepted and one that is refused: each time it is committed, the
  // first order is performed again.
  lemma CommittedAgainAppliesTwice<B(!new), S(!new)>(env: Env<B, S>, registered: map<string, B>, a: PbOrder, b: PbOrder)
    requires env.grouped && env.every == 0 && a.id != 0 && b.id != 0
    requires env.m.matchNew(registered, a, 1).Some?
    requires var books := env.m.matchNew(registered, a, 1).value.books;
             env.m.matchNew(books, b, 2) == None && env.m.matchNew(books, a, 1).Some?
             && env.m.matchNew(env.m.matchNew(books, a, 1).value.books, b, 2) == None
    ensures var steps := [Take(NewOrder(Some(a)), Written), Take(NewOrder(Some(b)), Written), Committed(true),
                          Committed(true)];
            var e := Entry(1, Of(NewOrder(Some(a))));
            && Run(env, registered, steps).Some?
            && Run(env, registered, steps).value.marks.applied == [e, e]
            && Run(env, registered, steps[..3]).Some? && Again(Run(env, registered, steps[..3]).value, Committed(true))
  {
    var x, y := NewOrder(Some(a)), NewOrder(Some(b));
    var i, j := Item(x, 1, None), Item(y, 2, None);
    var t0: Tracked<B, S> := Began(registered);
    var t1 := t0.(core := t0.core.(log := [Entry(1, Of(x))]), pending := [i]);
    var t2 := t1.(core := t1.core.(log := [Entry(1, Of(x)), Entry(2, Of(y))]), pending := [i, j]);
    assert After(env, registered, t0, Take(x, Written)) == Some(t1) by {
      assert t0.core.log + [Entry(1, Of(x))] == t1.core.log && t0.pending + [i] == t1.pending;
    }
    assert After(env, registered, t1, Take(y, Written)) == Some(t2) by {
      assert t1.core.log + [Entry(2, Of(y))] == t2.core.log && t1.pending + [j] == t2.pending;
    }
    var t3 := HalfStep(env, registered, t2, i, j);
    var t4 := HalfStep(env, registered, t3, i, j);
    var steps := [Take(x, Written), Take(y, Written), Committed(true), Committed(true)];
    RunOfFour(env, registered, steps, t1, t2, t3, t4);
    assert t3.marks.applied == [EntryOf(i)] && EntryOf(i) in t3.marks.applied;
    FirstOfTwo(i, j);
  }

  lemma FirstOfTwo(i: Item, j: Item)
    requires i.answer == None
    ensures FirstOpen([i, j]) == Some(i)
  {
    assert [i, j][..1] == [i] && [i][..0] == [];
    assert FirstOpen([i]) == Some(i);
  }

  lemma HalfStep<B(!new), S(!new)>(env: Env<B, S>, registered: map<string, B>, t: Tracked<B, S>, i: Item, j: Item)
      returns (after: Tracked<B, S>)
    requires env.grouped && env.every == 0 && t.pending == [i, j] && i.answer == None && j.answer == None
    requires ApplyLive(env, t.core.mem, i.command, i.walSeq).Some?
    requires var live := ApplyLive(env, t.core.mem, i.command, i.walSeq).value.live;
             ApplyLive(env, t.core.mem.(live := live, recovered := i.walSeq), j.command, j.walSeq) == None
    ensures Some(after) == After(env, registered, t, Committed(true))
    ensures after.pending == [i, j] && after.marks.applied == t.marks.applied + [EntryOf(i)]
    ensures after.core.mem.live == ApplyLive(env, t.core.mem, i.command, i.walSeq).value.live
    ensures after.core.mem.readOnly == t.core.mem.readOnly
  {
    HalfCommitted(env, t, i, j);
    after := After(env, registered, t, Committed(true)).value;
  }

  lemma RunNext<B(!new), S(!new)>(env: Env<B, S>, registered: map<string, B>, steps: seq<Step>, i: nat,
                                  t: Tracked<B, S>, after: Tracked<B, S>)
    requires i < |steps| && Run(env, registered, steps[..i]) == Some(t)
    requires After(env, registered, t, steps[i]) == Some(after)
    ensures Run(env, registered, steps[..i + 1]) == Some(after)
  {
    assert steps[..i + 1] == steps[..i] + [steps[i]];
    RunMore(env, registered, steps[..i], steps[i]);
  }

  lemma RunOfFour<B(!new), S(!new)>(env: Env<B, S>, registered: map<string, B>, steps: seq<Step>, t1: Tracked<B, S>,
                                    t2: Tracked<B, S>, t3: Tracked<B, S>, t4: Tracked<B, S>)
    requires |steps| == 4
    requires After(env, registered, Began(registered), steps[0]) == Some(t1)
    requires After(env, registered, t1, steps[1]) == Some(t2) && After(env, registered, t2, steps[2]) == Some(t3)
    requires After(env, registered, t3, steps[3]) == Some(t4)
    ensures Run(env, registered, steps[..3]) == Some(t3) && Run(env, registered, steps) == Some(t4)
  {
    RunNext(env, registered, steps, 0, Began(registered), t1);
    RunNext(env, registered, steps, 1, t1, t2);
    RunNext(env, registered, steps, 2, t2, t3);
    RunNext(env, registered, steps, 3, t3, t4);
    assert steps[..4] == steps;
  }
}
