// Writing the snapshots of all symbols can stop half-way.  Then the symbols have snapshots of
// different numbers, and recovery replays the log behind the highest of them for all symbols.
module HalfSnapshots {
  import opened Wrappers
  import opened Orders
  import opened Convert
  import opened Recovery
  import Sums
  import Shard
  import M = Matcher

  datatype Kept<S> = Kept(number: nat, saved: S)

  // The newest snapshot of each symbol, and the number in the manifest.
  datatype Folder<S> = Folder(kept: map<string, Kept<S>>, manifest: nat)

  function Overwritten<B(==), S>(m: Machine<B, S>, kept: map<string, Kept<S>>, books: map<string, B>,
                                 written: set<string>, n: nat): map<string, Kept<S>>
    requires written <= books.Keys
  {
    kept + map symbol | symbol in written :: Kept(n, m.save(books[symbol]))
  }

  // One symbol after the other, in no particular order, up to the first that cannot be saved; the
  // manifest comes last.
  method WriteSnapshots<B(==), S>(m: Machine<B, S>, folder: Folder<S>, books: map<string, B>, n: nat,
                                  canSave: string -> bool, manifestOk: bool)
      returns (after: Folder<S>, ok: bool, written: set<string>)
    ensures written <= books.Keys && after.kept == Overwritten(m, folder.kept, books, written, n)
    ensures after.manifest == if ok then n else folder.manifest
    ensures ok <==> manifestOk && forall symbol :: symbol in books ==> canSave(symbol)
    ensures (forall symbol :: symbol in books ==> canSave(symbol)) ==> written == books.Keys
    ensures forall symbol :: symbol in written ==> canSave(symbol)
  {
    var kept, todo := folder.kept, books.Keys;
    written := {};
    while todo != {}
      invariant todo <= books.Keys && written == books.Keys - todo
      invariant kept == Overwritten(m, folder.kept, books, written, n)
      invariant forall symbol :: symbol in written ==> canSave(symbol)
      decreases todo
    {
      ghost var some := Sums.SomeElement(todo);
      var symbol :| symbol in todo;
      if !canSave(symbol) { return folder.(kept := kept), false, written; }
      kept := kept[symbol := Kept(n, m.save(books[symbol]))];
      todo := todo - {symbol};
      written := written + {symbol};
    }
    ok := manifestOk;
    after := Folder(kept, if ok then n else folder.manifest);
  }

  // The highest number of a snapshot or of the manifest.
  ghost predicate IsNewest<S>(folder: Folder<S>, n: nat) {
    && folder.manifest <= n && (forall symbol :: symbol in folder.kept ==> folder.kept[symbol].number <= n)
    && (folder.manifest == n || exists symbol :: symbol in folder.kept && folder.kept[symbol].number == n)
  }

  method Newest<S>(folder: Folder<S>) returns (n: nat)
    ensures IsNewest(folder, n)
  {
    n := folder.manifest;
    var todo := folder.kept.Keys;
    while todo != {}
      invariant todo <= folder.kept.Keys && folder.manifest <= n
      invariant forall symbol :: symbol in folder.kept && symbol !in todo ==> folder.kept[symbol].number <= n
      invariant folder.manifest == n || exists symbol :: symbol in folder.kept && folder.kept[symbol].number == n
      decreases todo
    {
      ghost var some := Sums.SomeElement(todo);
      var symbol :| symbol in todo;
      if folder.kept[symbol].number > n { n := folder.kept[symbol].number; }
      todo := todo - {symbol};
    }
  }

  function SavedIn<S>(folder: Folder<S>): map<string, S> {
    map symbol | symbol in folder.kept :: folder.kept[symbol].saved
  }

  // Recovery as it is written, from a folder whose newest number is n.
  function RecoveredFrom<B(==), S>(m: Machine<B, S>, registered: map<string, B>, folder: Folder<S>, n: nat,
                                   log: seq<Entry>): Option<Live<B>>
  {
    Recovered(m, registered, Disk(n, SavedIn(folder)), log)
  }

  function FullFolder<B(==), S>(m: Machine<B, S>, books: map<string, B>, n: nat): Folder<S> {
    Folder(map symbol | symbol in books :: Kept(n, m.save(books[symbol])), n)
  }

  // The books of the symbols written as they are now, the others as they were.
  function Mixed<B>(was: map<string, B>, now: map<string, B>, written: set<string>): map<string, B>
    requires written <= now.Keys
  {
    was + map symbol | symbol in written :: now[symbol]
  }

  function HalfFolder<B(==), S>(m: Machine<B, S>, was: map<string, B>, now: map<string, B>, n0: nat, n: nat,
                                written: set<string>): Folder<S>
    requires written <= now.Keys
  {
    Folder(Overwritten(m, FullFolder(m, was, n0).kept, now, written, n), n0)
  }

  lemma HalfFolderHolds<B(!new), S(!new)>(
      m: Machine<B, S>, was: map<string, B>, now: map<string, B>, n0: nat, n: nat, written: set<string>)
    requires written <= now.Keys
    ensures var saved := SavedIn(HalfFolder(m, was, now, n0, n, written));
            && saved.Keys == was.Keys + written
            && forall s :: s in saved ==> saved[s] == m.save(Mixed(was, now, written)[s])
  {
  }

  lemma LoadsBack<B(!new), S(!new)>(m: Machine<B, S>, registered: map<string, B>, saved: map<string, S>,
                                    books: map<string, B>)
    requires saved.Keys == books.Keys && registered.Keys <= books.Keys
    requires forall s :: s in saved ==> m.load(saved[s]) == Some(books[s])
    ensures Loads(m, saved) && Loaded(m, registered, saved) == books
  {
  }

  lemma MixedIsLoaded<B(!new), S(!new)>(
      m: Machine<B, S>, registered: map<string, B>, was: map<string, B>, now: map<string, B>, n0: nat, n: nat,
      written: set<string>)
    requires SavesBack(m, was) && SavesBack(m, now) && registered.Keys <= was.Keys && written <= now.Keys
    ensures var saved := SavedIn(HalfFolder(m, was, now, n0, n, written));
            Loads(m, saved) && Loaded(m, registered, saved) == Mixed(was, now, written)
  {
    var saved, mixed := SavedIn(HalfFolder(m, was, now, n0, n, written)), Mixed(was, now, written);
    HalfFolderHolds(m, was, now, n0, n, written);
    forall s | s in saved ensures m.load(saved[s]) == Some(mixed[s]) {
      assert mixed[s] == if s in written then now[s] else was[s];
    }
    LoadsBack(m, registered, saved, mixed);
  }

  lemma MixedIsNowExactlyWhen<B(!new)>(was: map<string, B>, now: map<string, B>, written: set<string>)
    requires was.Keys <= now.Keys && written <= now.Keys
    ensures Mixed(was, now, written) == now <==>
            forall symbol :: symbol in now && symbol !in written ==> symbol in was && was[symbol] == now[symbol]
  {
    var mixed := Mixed(was, now, written);
    if forall s :: s in now && s !in written ==> s in was && was[s] == now[s] { assert mixed.Keys == now.Keys; }
    if mixed == now {
      forall s | s in now && s !in written ensures s in was && was[s] == now[s] {
        assert s in mixed;
      }
    }
  }

  lemma HalfIsNewest<B(!new), S(!new)>(m: Machine<B, S>, was: map<string, B>, now: map<string, B>, n0: nat, n: nat,
                                       written: set<string>)
    requires n0 <= n && written <= now.Keys && written != {}
    ensures IsNewest(HalfFolder(m, was, now, n0, n, written), n)
  {
    var symbol := Sums.SomeElement(written);
    assert HalfFolder(m, was, now, n0, n, written).kept[symbol].number == n;
  }

  // Snapshots were complete at number n0; at number n only some symbols could be written.  Recovery
  // goes on from the mixture with what was logged behind n, so it gives back the books of that moment
  // exactly when no other symbol has changed in between.
  lemma HalfWrittenRecovers<B(!new), S(!new)>(
      m: Machine<B, S>, registered: map<string, B>, was: map<string, B>, now: map<string, B>, n0: nat, n: nat,
      written: set<string>, log: seq<Entry>)
    requires Lawful(m) && SavesBack(m, was) && SavesBack(m, now) && registered.Keys <= was.Keys <= now.Keys
    requires n0 <= n <= |log| && written <= now.Keys && written != {}
    ensures var folder := HalfFolder(m, was, now, n0, n, written);
            && IsNewest(folder, n)
            && RecoveredFrom(m, registered, folder, n, log) ==
               CancelsReplayed(m, Live(Mixed(was, now, written), IdsOf(log)), Tail(log, n))
    ensures Mixed(was, now, written) == now <==>
            forall symbol :: symbol in now && symbol !in written ==> symbol in was && was[symbol] == now[symbol]
  {
    HalfIsNewest(m, was, now, n0, n, written);
    MixedIsLoaded(m, registered, was, now, n0, n, written);
    RecoveryAppliesOnlyCancels(m, registered, Disk(n, SavedIn(HalfFolder(m, was, now, n0, n, written))), log);
    MixedIsNowExactlyWhen(was, now, written);
  }

  // ---- The real shard ----

  function SymbolOf(c: Command): string {
    match c
    case NewOrder(None) => ""
    case NewOrder(Some(pb)) => pb.symbol
    case Cancel(symbol, _) => symbol
  }

  ghost predicate Concerns(log: seq<Entry>, symbol: string) {
    exists i :: 0 <= i < |log| && log[i].what.Of? && SymbolOf(log[i].what.command) == symbol
  }

  // A symbol keeps its book as long as none of its commands is logged.
  lemma {:induction false} OthersLeaveAlone(setting: Shard.Setting, live: Live<M.Book>, log: seq<Entry>,
                                            symbol: string)
    requires !Concerns(log, symbol) && Replayed(Shard.ShardMachine(setting), live, log).Some?
    ensures var books := Replayed(Shard.ShardMachine(setting), live, log).value.books;
            (symbol in books <==> symbol in live.books) && (symbol in books ==> books[symbol] == live.books[symbol])
  {
    if log != [] {
      var m, n := Shard.ShardMachine(setting), |log| - 1;
      assert forall i :: 0 <= i < n ==> log[..n][i] == log[i];
      OthersLeaveAlone(setting, live, log[..n], symbol);
      OneLeavesAlone(setting, Replayed(m, live, log[..n]).value, log[n], symbol);
    }
  }

  lemma OneLeavesAlone(setting: Shard.Setting, live: Live<M.Book>, e: Entry, symbol: string)
    requires e.what.Of? ==> SymbolOf(e.what.command) != symbol
    requires ReplayOne(Shard.ShardMachine(setting), live, e).Some?
    ensures var books := ReplayOne(Shard.ShardMachine(setting), live, e).value.books;
            (symbol in books <==> symbol in live.books) && (symbol in books ==> books[symbol] == live.books[symbol])
  {
    var m, c := Shard.ShardMachine(setting), e.what.command;
    if c.Cancel? {
      assert m.cancel(live.books, c.symbol, c.id) == Shard.CancelIn(live.books, c.symbol, c.id);
    } else if c.order.Some? {
      assert m.matchNew(live.books, c.order.value, e.walSeq) ==
             Shard.MatchNew(setting, live.books, c.order.value, e.walSeq);
    }
  }

  // The books after n0 entries and after all of them.
  lemma BooksThenAndNow(setting: Shard.Setting, registered: Shard.Books, n0: nat, log: seq<Entry>)
      returns (was: Live<M.Book>, now: Live<M.Book>)
    requires n0 <= |log| && Replayed(Shard.ShardMachine(setting), Live(registered, {}), log).Some?
    ensures var m := Shard.ShardMachine(setting);
            && Replayed(m, Live(registered, {}), log[..n0]) == Some(was)
            && Replayed(m, Live(registered, {}), log) == Some(now) && Replayed(m, was, log[n0..]) == Some(now)
    ensures registered.Keys <= was.books.Keys <= now.books.Keys
  {
    var m := Shard.ShardMachine(setting);
    Shard.ShardIsLawful(setting);
    ReplayInTwo(m, Live(registered, {}), log, n0);
    was := Replayed(m, Live(registered, {}), log[..n0]).value;
    now := Replayed(m, Live(registered, {}), log).value;
    ReplayedSeen(m, Live(registered, {}), log[..n0]);
    NoZeroId(log[..n0]);
    ReplayedSeen(m, was, log[n0..]);
  }

  // So with the real matcher a half-written snapshot brings back the whole shard if every symbol that
  // was not written has had no command since the complete one.
  lemma UntouchedSymbolsSurvive(setting: Shard.Setting, registered: Shard.Books, n0: nat, written: set<string>,
                                log: seq<Entry>) returns (was: Live<M.Book>, now: Live<M.Book>)
    requires n0 <= |log| && Replayed(Shard.ShardMachine(setting), Live(registered, {}), log).Some?
    requires Shard.AllGood(registered) && Shard.TickingAlways(setting) && Shard.AllSized(log)
    requires written != {}
    requires written <= Replayed(Shard.ShardMachine(setting), Live(registered, {}), log).value.books.Keys
    requires forall symbol :: symbol !in written ==> !Concerns(log[n0..], symbol)
    ensures var m := Shard.ShardMachine(setting);
            && Replayed(m, Live(registered, {}), log[..n0]) == Some(was)
            && Replayed(m, Live(registered, {}), log) == Some(now)
            && RecoveredFrom(m, registered, HalfFolder(m, was.books, now.books, n0, |log|, written), |log|, log)
               == Some(Live(now.books, IdsOf(log)))
  {
    var m := Shard.ShardMachine(setting);
    was, now := BooksThenAndNow(setting, registered, n0, log);
    assert forall i :: 0 <= i < n0 ==> log[..n0][i] == log[i];
    Shard.ReplayKeepsGood(setting, registered, log[..n0]);
    Shard.ReplayKeepsGood(setting, registered, log);
    Shard.ShardIsLawful(setting);
    Shard.GoodSavesBack(setting, was.books);
    Shard.GoodSavesBack(setting, now.books);
    forall symbol | symbol in now.books && symbol !in written
      ensures symbol in was.books && was.books[symbol] == now.books[symbol]
    {
      OthersLeaveAlone(setting, was, log[n0..], symbol);
    }
    HalfWrittenRecovers(m, registered, was.books, now.books, n0, |log|, written, log);
  }
}
