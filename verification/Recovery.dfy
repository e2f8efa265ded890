// The durability protocol of one matching shard on values: a command is logged, made durable and
// only then applied; after a crash the newest snapshot and the log behind it are replayed.
module Recovery {
  import opened Wrappers
  import opened Orders
  import opened Convert

  // A command as it comes in; a new order may lack its order.
  datatype Command = NewOrder(order: Option<PbOrder>) | Cancel(symbol: string, id: nat)

  // A log entry that cannot be decoded, or is of an unknown type, is garbled.
  datatype Payload = Of(command: Command) | Garbled

  datatype Entry = Entry(walSeq: nat, what: Payload)

  // The shard as recovery sees it: what a new order and a cancellation do to the books of all
  // symbols, and how a book is saved in a snapshot and loaded back.  B is a book, S a saved one.
  datatype Machine<!B(==), !S> = Machine(
    matchNew: (map<string, B>, PbOrder, nat) -> Option<Applied<B>>,
    cancel: (map<string, B>, string, nat) -> map<string, B>,
    save: B -> S,
    load: S -> Option<B>)

  datatype Applied<B> = Applied(books: map<string, B>, trades: seq<Trade>)

  // The machine refuses orders without an id, and never loses a symbol.
  ghost predicate Lawful<B(!new), S(!new)>(m: Machine<B, S>) {
    && (forall books: map<string, B>, pb, n {:trigger m.matchNew(books, pb, n)} ::
          m.matchNew(books, pb, n).Some? ==> pb.id != 0 && books.Keys <= m.matchNew(books, pb, n).value.books.Keys)
    && (forall books: map<string, B>, symbol, id {:trigger m.cancel(books, symbol, id)} ::
          books.Keys <= m.cancel(books, symbol, id).Keys)
  }

  datatype Live<B> = Live(books: map<string, B>, seen: set<nat>)

  datatype Performed<B> = Performed(live: Live<B>, trades: seq<Trade>)

  function IdOf(order: Option<PbOrder>): nat { if order == None then 0 else order.value.id }

  // One command applied to memory.
  function Perform<B(==), S>(m: Machine<B, S>, live: Live<B>, c: Command, n: nat): Option<Performed<B>> {
    match c
    case NewOrder(None) => None
    case NewOrder(Some(pb)) =>
      (match m.matchNew(live.books, pb, n)
       case None => None
       case Some(a) => Some(Performed(Live(a.books, live.seen + {pb.id}), a.trades)))
    case Cancel(symbol, id) =>
      if symbol == "" then None
      else Some(Performed(Live(m.cancel(live.books, symbol, id), live.seen), []))
  }

  // One log entry replayed: a new order whose id has been seen is skipped.
  function ReplayOne<B(==), S>(m: Machine<B, S>, live: Live<B>, e: Entry): Option<Live<B>> {
    match e.what
    case Garbled => None
    case Of(c) =>
      if c.NewOrder? && IdOf(c.order) in live.seen then Some(live)
      else
        match Perform(m, live, c, e.walSeq)
        case None => None
        case Some(p) => Some(p.live)
  }

  function Replayed<B(==), S>(m: Machine<B, S>, live: Live<B>, log: seq<Entry>): Option<Live<B>> {
    if log == [] then Some(live)
    else
      match Replayed(m, live, log[..|log| - 1])
      case None => None
      case Some(l) => ReplayOne(m, l, log[|log| - 1])
  }

  // The order ids that a log mentions as new.
  function IdsOf(log: seq<Entry>): set<nat> {
    if log == [] then {} else IdsOf(log[..|log| - 1]) + NewIds(log[|log| - 1])
  }

  function NewIds(e: Entry): set<nat> {
    if e.what.Of? && e.what.command.NewOrder? && IdOf(e.what.command.order) != 0
    then {IdOf(e.what.command.order)} else {}
  }

  ghost predicate Numbered(log: seq<Entry>) {
    forall i :: 0 <= i < |log| ==> log[i].walSeq == i + 1
  }

  // ---- Recovery ----

  // The symbol snapshots on disk; all of them carry one number.
  datatype Disk<S> = Disk(number: nat, saved: map<string, S>)

  function Saved<B(==), S>(m: Machine<B, S>, books: map<string, B>, number: nat): Disk<S> {
    Disk(number, map symbol | symbol in books :: m.save(books[symbol]))
  }

  predicate Loads<B(==), S>(m: Machine<B, S>, saved: map<string, S>) {
    forall symbol :: symbol in saved ==> m.load(saved[symbol]).Some?
  }

  // The registered symbols with what the snapshots hold.
  function Loaded<B(==), S>(m: Machine<B, S>, registered: map<string, B>, saved: map<string, S>): map<string, B>
    requires Loads(m, saved)
  {
    registered + map symbol | symbol in saved :: m.load(saved[symbol]).value
  }

  function Tail(log: seq<Entry>, from: nat): seq<Entry> { if from <= |log| then log[from..] else [] }
  function Head(log: seq<Entry>, to: nat): seq<Entry> { if to <= |log| then log[..to] else log }

  // What recovery starts from: the snapshot, with the ids of the entries in `indexed` seen.
  function Restart<B(==), S>(m: Machine<B, S>, registered: map<string, B>, disk: Disk<S>, log: seq<Entry>,
                         indexed: seq<Entry>): Option<Live<B>> {
    if !Loads(m, disk.saved) then None
    else Replayed(m, Live(Loaded(m, registered, disk.saved), IdsOf(indexed)), Tail(log, disk.number))
  }

  // Recovery as it is written: the whole log is indexed before the tail is replayed.
  function Recovered<B(==), S>(m: Machine<B, S>, registered: map<string, B>, disk: Disk<S>, log: seq<Entry>):
    Option<Live<B>>
  {
    Restart(m, registered, disk, log, log)
  }

  // Recovery with the index cut at the snapshot.
  function RecoveredWithCut<B(==), S>(m: Machine<B, S>, registered: map<string, B>, disk: Disk<S>, log: seq<Entry>):
    Option<Live<B>>
  {
    Restart(m, registered, disk, log, Head(log, disk.number))
  }

  // ---- What recovery as written computes ----

  // A replay that leaves out all new orders.
  function CancelsReplayed<B(==), S>(m: Machine<B, S>, live: Live<B>, log: seq<Entry>): Option<Live<B>> {
    if log == [] then Some(live)
    else
      match CancelsReplayed(m, live, log[..|log| - 1])
      case None => None
      case Some(l) => CancelOne(m, l, log[|log| - 1])
  }

  function CancelOne<B(==), S>(m: Machine<B, S>, live: Live<B>, e: Entry): Option<Live<B>> {
    if e.what.Of? && e.what.command.NewOrder? && IdOf(e.what.command.order) != 0 then Some(live)
    else ReplayOne(m, live, e)
  }

  lemma {:induction false} IdsHold(log: seq<Entry>, i: nat)
    requires i < |log|
    ensures NewIds(log[i]) <= IdsOf(log)
    decreases |log|
  {
    if i < |log| - 1 {
      IdsHold(log[..|log| - 1], i);
      assert log[..|log| - 1][i] == log[i];
    }
  }

  lemma {:induction false} NoZeroId(log: seq<Entry>)
    ensures 0 !in IdsOf(log)
  {
    if log != [] { NoZeroId(log[..|log| - 1]); }
  }

  // As written, recovery applies exactly the cancellations of the tail to the snapshot: every new
  // order behind the snapshot is lost, whatever the log holds.
  lemma RecoveryAppliesOnlyCancels<B(!new), S(!new)>(m: Machine<B, S>, registered: map<string, B>, disk: Disk<S>,
                                                     log: seq<Entry>)
    requires Lawful(m) && Loads(m, disk.saved)
    ensures Recovered(m, registered, disk, log) ==
            CancelsReplayed(m, Live(Loaded(m, registered, disk.saved), IdsOf(log)), Tail(log, disk.number))
  {
    var tail := Tail(log, disk.number);
    forall i | 0 <= i < |tail| ensures NewIds(tail[i]) <= IdsOf(log) {
      IdsHold(log, disk.number + i);
      assert tail[i] == log[disk.number + i];
    }
    NoZeroId(log);
    OnlyCancels(m, Live(Loaded(m, registered, disk.saved), IdsOf(log)), tail);
  }

  lemma {:induction false} OnlyCancels<B(!new), S(!new)>(m: Machine<B, S>, live: Live<B>, log: seq<Entry>)
    requires Lawful(m) && 0 !in live.seen
    requires forall i :: 0 <= i < |log| ==> NewIds(log[i]) <= live.seen
    ensures Replayed(m, live, log) == CancelsReplayed(m, live, log)
    ensures Replayed(m, live, log).Some? ==> Replayed(m, live, log).value.seen == live.seen
  {
    if log != [] {
      var n := |log| - 1;
      assert forall i :: 0 <= i < n ==> log[..n][i] == log[i];
      OnlyCancels(m, live, log[..n]);
      if Replayed(m, live, log[..n]).Some? {
        OneCancel(m, Replayed(m, live, log[..n]).value, log[n]);
      }
    }
  }

  lemma OneCancel<B(!new), S(!new)>(m: Machine<B, S>, live: Live<B>, e: Entry)
    requires Lawful(m) && 0 !in live.seen && NewIds(e) <= live.seen
    ensures ReplayOne(m, live, e) == CancelOne(m, live, e)
    ensures ReplayOne(m, live, e).Some? ==> ReplayOne(m, live, e).value.seen == live.seen
  {
  }

  // ---- Full replay ----

  lemma {:induction false} ReplayInTwo<B, S>(m: Machine<B, S>, live: Live<B>, log: seq<Entry>, i: nat)
    requires i <= |log|
    ensures Replayed(m, live, log) == match Replayed(m, live, log[..i])
                                      case None => None
                                      case Some(l) => Replayed(m, l, log[i..])
    decreases |log|
  {
    if i == |log| {
      assert log[..i] == log && log[i..] == [];
    } else {
      var n := |log| - 1;
      ReplayInTwo(m, live, log[..n], i);
      assert log[..n][..i] == log[..i] && log[..n][i..] == log[i..][..n - i];
      assert log[i..][n - i] == log[n];
    }
  }

  // A replay that succeeds has seen exactly the ids of its log, and keeps all symbols.
  lemma {:induction false} ReplayedSeen<B(!new), S(!new)>(m: Machine<B, S>, live: Live<B>, log: seq<Entry>)
    requires Lawful(m) && Replayed(m, live, log).Some? && 0 !in live.seen
    ensures Replayed(m, live, log).value.seen == live.seen + IdsOf(log)
    ensures live.books.Keys <= Replayed(m, live, log).value.books.Keys
  {
    NoZeroId(log);
    if log != [] {
      var n := |log| - 1;
      ReplayedSeen(m, live, log[..n]);
      OneSeen(m, Replayed(m, live, log[..n]).value, log[n]);
    }
  }

  lemma OneSeen<B(!new), S(!new)>(m: Machine<B, S>, live: Live<B>, e: Entry)
    requires Lawful(m) && 0 !in live.seen && ReplayOne(m, live, e).Some?
    ensures ReplayOne(m, live, e).value.seen == live.seen + NewIds(e)
    ensures live.books.Keys <= ReplayOne(m, live, e).value.books.Keys
  {
  }

  ghost predicate SavesBack<B, S>(m: Machine<B, S>, books: map<string, B>) {
    forall symbol :: symbol in books ==> m.load(m.save(books[symbol])) == Some(books[symbol])
  }

  lemma LoadedOver<B, S>(m: Machine<B, S>, registered: map<string, B>, books: map<string, B>, number: nat)
    requires SavesBack(m, books)
    ensures Loads(m, Saved(m, books, number).saved)
    ensures Loaded(m, registered, Saved(m, books, number).saved) == registered + books
    ensures registered.Keys <= books.Keys ==> Loaded(m, registered, Saved(m, books, number).saved) == books
  {
  }

  // The snapshot holds the books after the first `number` entries, or there is none yet.
  ghost predicate SnapshotOf<B, S>(m: Machine<B, S>, registered: map<string, B>, disk: Disk<S>, log: seq<Entry>) {
    && disk.number <= |log|
    && var at := Replayed(m, Live(registered, {}), log[..disk.number]);
       at.Some? && (disk == Disk(0, map[])
                    || (SavesBack(m, at.value.books) && disk == Saved(m, at.value.books, disk.number)))
  }

  // With the index cut at the snapshot, recovery is the replay of the whole log from nothing.
  lemma RecoveryWithCutIsFullReplay<B(!new), S(!new)>(m: Machine<B, S>, registered: map<string, B>, disk: Disk<S>,
                                                      log: seq<Entry>)
    requires Lawful(m) && SnapshotOf(m, registered, disk, log)
    ensures RecoveredWithCut(m, registered, disk, log) == Replayed(m, Live(registered, {}), log)
  {
    var s := disk.number;
    var at := Replayed(m, Live(registered, {}), log[..s]).value;
    ReplayedSeen(m, Live(registered, {}), log[..s]);
    if disk == Disk(0, map[]) {
      var none: map<string, S> := map[];
      assert log[..0] == [] && Loaded(m, registered, none) == registered;
    } else {
      LoadedOver(m, registered, at.books, s);
    }
    ReplayInTwo(m, Live(registered, {}), log, s);
    assert at == Live(at.books, IdsOf(log[..s]));
  }

  ghost predicate NoNewOrders(log: seq<Entry>) {
    forall i :: 0 <= i < |log| ==> log[i].what.Of? ==> log[i].what.command.Cancel?
  }

  // As written, recovery is that full replay when no new order is logged behind the snapshot.
  lemma RecoveryIsFullReplayWithoutNewOrders<B(!new), S(!new)>(
      m: Machine<B, S>, registered: map<string, B>, disk: Disk<S>, log: seq<Entry>)
    requires Lawful(m) && SnapshotOf(m, registered, disk, log) && NoNewOrders(log[disk.number..])
    ensures Recovered(m, registered, disk, log) == Replayed(m, Live(registered, {}), log)
  {
    NoNewIds(log, disk.number);
    RecoveryWithCutIsFullReplay(m, registered, disk, log);
  }

  lemma {:induction false} NoNewIds(log: seq<Entry>, i: nat)
    requires i <= |log| && NoNewOrders(log[i..])
    ensures IdsOf(log) == IdsOf(log[..i])
    decreases |log|
  {
    if i == |log| {
      assert log[..i] == log;
    } else {
      var n := |log| - 1;
      assert log[i..][n - i] == log[n];
      assert log[..n][i..] == log[i..][..n - i] && log[..n][..i] == log[..i];
      assert forall k :: 0 <= k < n - i ==> log[..n][i..][k] == log[i..][k];
      NoNewIds(log[..n], i);
    }
  }
}
