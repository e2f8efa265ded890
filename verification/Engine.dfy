// The persistent engine: the log is written first, memory changes after, snapshots now and then,
// and recovery when it is opened.
module Engine {
  import opened Wrappers
  import opened Orders
  import opened Convert
  import opened Recovery
  import opened GroupCommit
  import Sums

  class PersistentEngine<B(==), S> {
    const env: Env<B, S>
    var books: map<string, B>
    var seen: set<nat>
    var log: seq<Entry>
    var durable: nat
    var recovered: nat
    var snapshotSeq: nat
    var disk: Disk<S>
    var readOnly: set<string>
    var pending: seq<Item>

    ghost function Value(): Core<B, S>
      reads this
    {
      Core(Memory(Live(books, seen), recovered, disk, readOnly), log, durable)
    }

    // Memory as it is after opening the files, before recovery.
    constructor (env: Env<B, S>, registered: map<string, B>, log: seq<Entry>, disk: Disk<S>)
      ensures this.env == env && pending == [] && snapshotSeq == 0
      ensures Value() == Core(Memory(Live(registered, {}), 0, disk, {}), log, |log|)
    {
      this.env := env;
      books, seen, this.log, durable := registered, {}, log, |log|;
      recovered, snapshotSeq, this.disk, readOnly, pending := 0, 0, disk, {}, [];
    }

    method Append(c: Command, fate: Fate) returns (walSeq: Option<nat>)
      modifies this`log, this`durable
      ensures Value() == Logged(env, old(Value()), c, fate)
      ensures walSeq == if fate == Written then Some(|old(log)| + 1) else None
    {
      if fate == Refused { return None; }
      var n := |log| + 1;
      log := log + [Entry(n, Of(c))];
      if fate == Unsynced { return None; }
      if !env.grouped { durable := n; }
      walSeq := Some(n);
    }

    // A new order goes to the matcher and its id is remembered; a cancellation to its book.
    method Apply(c: Command, n: nat) returns (trades: Option<seq<Trade>>)
      modifies this`books, this`seen
      ensures match ApplyLive(env, old(Value()).mem, c, n)
              case None => trades == None && Value() == old(Value())
              case Some(p) => trades == Some(p.trades)
                              && Value() == old(Value()).(mem := old(Value()).mem.(live := p.live))
    {
      match c {
        case NewOrder(None) => return None;
        case NewOrder(Some(pb)) =>
          if pb.symbol in readOnly { return None; }
          var a := env.m.matchNew(books, pb, n);
          if a == None { return None; }
          books, seen := a.value.books, seen + {pb.id};
          return Some(a.value.trades);
        case Cancel(symbol, id) =>
          if symbol == "" { return None; }
          books := env.m.cancel(books, symbol, id);
          return Some([]);
      }
    }

    method WriteSnapshots(n: nat) returns (ok: bool)
      modifies this`disk, this`snapshotSeq
      ensures ok == env.saves(n) && Value() == old(Value()).(mem := Snapped(env, old(Value()).mem, n))
      ensures snapshotSeq == if ok then n else old(snapshotSeq)
    {
      var saved: map<string, S> := map[];
      var todo := books.Keys;
      while todo != {}
        invariant todo <= books.Keys && saved.Keys == books.Keys - todo
        invariant forall symbol :: symbol in saved ==> saved[symbol] == env.m.save(books[symbol])
        invariant disk == old(disk) && snapshotSeq == old(snapshotSeq)
        decreases todo
      {
        ghost var some := Sums.SomeElement(todo);
        var symbol :| symbol in todo;
        saved := saved[symbol := env.m.save(books[symbol])];
        todo := todo - {symbol};
      }
      if !env.saves(n) { return false; }
      assert saved == map symbol | symbol in books :: env.m.save(books[symbol]);
      disk, snapshotSeq := Disk(n, saved), n;
      ok := true;
    }

    method MaybeSnapshot(n: nat)
      modifies this`disk, this`snapshotSeq
      ensures Value() == if env.every == 0 || n % env.every != 0 then old(Value())
                         else old(Value()).(mem := Snapped(env, old(Value()).mem, n))
    {
      if env.every == 0 || n % env.every != 0 { return; }
      var ok := WriteSnapshots(n);
    }

    method TakeSnapshotNow() returns (ok: bool)
      modifies this`disk, this`snapshotSeq
      ensures Value() == SnapshotNow(env, old(Value()))
    {
      ok := WriteSnapshots(|log|);
    }

    method SnapshotIfStale() returns (ok: bool)
      modifies this`disk, this`snapshotSeq
      ensures Value() == if |log| > old(snapshotSeq) then SnapshotNow(env, old(Value())) else old(Value())
    {
      if |log| <= snapshotSeq { return true; }
      ok := WriteSnapshots(|log|);
    }

    method ApplyNewOrderImmediate(order: Option<PbOrder>, fate: Fate) returns (reply: Reply)
      modifies this
      ensures (Value(), reply) == Immediate(env, old(Value()), NewOrder(order), fate) && pending == old(pending)
    {
      if order == None { return Failed(InvalidCommand); }
      if order.value.symbol in readOnly { return Replied(READ_ONLY); }
      if order.value.id == 0 { return Failed(InvalidCommand); }
      if order.value.id in seen { return Replied(DUPLICATE); }
      reply := LogAndApply(NewOrder(order), fate);
    }

    method ApplyCancelImmediate(symbol: string, id: nat, fate: Fate) returns (reply: Reply)
      modifies this
      ensures (Value(), reply) == Immediate(env, old(Value()), Cancel(symbol, id), fate) && pending == old(pending)
    {
      if symbol == "" || id == 0 { return Failed(InvalidCommand); }
      reply := LogAndApply(Cancel(symbol, id), fate);
    }

    method LogAndApply(c: Command, fate: Fate) returns (reply: Reply)
      requires Checked(Value().mem, c) == ToLog
      modifies this
      ensures (Value(), reply) == Immediate(env, old(Value()), c, fate) && pending == old(pending)
    {
      var walSeq := Append(c, fate);
      if walSeq == None { return Failed(WalError); }
      var trades := Apply(c, walSeq.value);
      if trades == None { return Failed(ApplyError); }
      recovered := walSeq.value;
      MaybeSnapshot(walSeq.value);
      reply := Replied(Outcome(trades.value, walSeq.value, false, false));
    }

    method StageNewOrder(order: Option<PbOrder>, fate: Fate) returns (ok: bool)
      modifies this
      ensures var (after, item) := Stage(env, old(Value()), NewOrder(order), fate);
              && Value() == after && ok == item.Some?
              && pending == old(pending) + (if ok then [item.value] else [])
    {
      if order == None { return false; }
      var c := NewOrder(order);
      if order.value.symbol in readOnly {
        pending := pending + [Item(c, 0, Some(READ_ONLY))];
        return true;
      }
      if order.value.id == 0 { return false; }
      if order.value.id in seen {
        pending := pending + [Item(c, 0, Some(DUPLICATE))];
        return true;
      }
      var walSeq := Append(c, fate);
      if walSeq == None { return false; }
      pending := pending + [Item(c, walSeq.value, None)];
      ok := true;
    }

    method StageCancel(symbol: string, id: nat, fate: Fate) returns (ok: bool)
      modifies this
      ensures var (after, item) := Stage(env, old(Value()), Cancel(symbol, id), fate);
              && Value() == after && ok == item.Some?
              && pending == old(pending) + (if ok then [item.value] else [])
    {
      if symbol == "" || id == 0 { return false; }
      var c := Cancel(symbol, id);
      var walSeq := Append(c, fate);
      if walSeq == None { return false; }
      pending := pending + [Item(c, walSeq.value, None)];
      ok := true;
    }

    // One sync for all that is staged, then each item in order; a failure leaves all of it staged.
    method CommitBatch(syncOk: bool) returns (outcomes: Option<seq<Outcome>>)
      modifies this
      ensures (Value(), outcomes) == Commit(env, old(Value()), old(pending), syncOk)
      ensures pending == if outcomes.Some? then [] else old(pending)
    {
      if |pending| == 0 { return Some([]); }
      if env.grouped {
        if !syncOk { return None; }
        durable := |log|;
      }
      ghost var synced := Value();
      var out := [];
      for i := 0 to |pending|
        invariant pending == old(pending)
        invariant CommitItems(env, synced.mem, pending[..i]) == (Applying(Value().mem, out), true)
        invariant log == synced.log && durable == synced.durable
      {
        var item := pending[i];
        assert pending[..i + 1][..i] == pending[..i];
        ghost var before := Value().mem;
        if item.answer.Some? {
          out := out + [item.answer.value];
        } else {
          var trades := Apply(item.command, item.walSeq);
          if trades == None {
            FailureStays(env, synced.mem, pending, i + 1);
            return None;
          }
          recovered := item.walSeq;
          MaybeSnapshot(item.walSeq);
          out := out + [Outcome(trades.value, item.walSeq, false, false)];
        }
      }
      assert pending[..|pending|] == pending;
      pending := [];
      outcomes := Some(out);
    }

    // ---- Opening ----

    method LoadSnapshots() returns (ok: bool)
      modifies this`books, this`snapshotSeq
      ensures ok == Loads(env.m, disk.saved)
      ensures ok ==> books == Loaded(env.m, old(books), disk.saved) && snapshotSeq == disk.number
    {
      var todo := disk.saved.Keys;
      while todo != {}
        invariant todo <= disk.saved.Keys && books.Keys == old(books).Keys + (disk.saved.Keys - todo)
        invariant forall symbol :: symbol in disk.saved && symbol !in todo ==>
                    env.m.load(disk.saved[symbol]) == Some(books[symbol])
        invariant forall symbol :: symbol in old(books) && (symbol !in disk.saved || symbol in todo) ==>
                    books[symbol] == old(books)[symbol]
        decreases todo
      {
        ghost var some := Sums.SomeElement(todo);
        var symbol :| symbol in todo;
        var book := env.m.load(disk.saved[symbol]);
        if book == None { return false; }
        books := books[symbol := book.value];
        todo := todo - {symbol};
      }
      assert Loads(env.m, disk.saved);
      assert books == Loaded(env.m, old(books), disk.saved);
      snapshotSeq := disk.number;
      ok := true;
    }

    method BuildSeen()
      modifies this`seen
      ensures seen == old(seen) + IdsOf(log)
    {
      for i := 0 to |log|
        invariant seen == old(seen) + IdsOf(log[..i])
      {
        assert log[..i + 1][..i] == log[..i];
        var e := log[i];
        if e.what.Of? && e.what.command.NewOrder? && IdOf(e.what.command.order) != 0 {
          seen := seen + {IdOf(e.what.command.order)};
        }
      }
      assert log[..|log|] == log;
    }

    method ApplyRecord(e: Entry) returns (ok: bool)
      requires readOnly == {}
      modifies this`books, this`seen
      ensures ReplayOne(env.m, Live(old(books), old(seen)), e) == if ok then Some(Live(books, seen)) else None
    {
      match e.what {
        case Garbled => return false;
        case Of(c) =>
          if c.NewOrder? && IdOf(c.order) in seen { return true; }
          var trades := Apply(c, e.walSeq);
          return trades != None;
      }
    }

    method ReplayWAL(from: nat) returns (ok: bool)
      requires Numbered(log) && readOnly == {}
      modifies this`books, this`seen
      ensures Replayed(env.m, Live(old(books), old(seen)), Tail(log, from)) ==
              if ok then Some(Live(books, seen)) else None
    {
      ghost var start := Live(books, seen);
      for i := 0 to |log|
        invariant Replayed(env.m, start, Tail(log[..i], from)) == Some(Live(books, seen))
      {
        assert log[..i + 1][..i] == log[..i];
        if log[i].walSeq > from {
          TailGrows(log, i, from);
          var one := ApplyRecord(log[i]);
          if !one {
            assert Tail(log[..i + 1], from) == Tail(log, from)[..i + 1 - from];
            ReplayFails(env.m, start, Tail(log, from), i + 1 - from);
            return false;
          }
        }
      }
      assert log[..|log|] == log;
      ok := true;
    }

    // Snapshots, then the index of the whole log, then the log behind the snapshots.
    method Recover() returns (ok: bool)
      requires Numbered(log) && readOnly == {} && seen == {}
      modifies this
      ensures Recovered(env.m, old(books), disk, log) == if ok then Some(Live(books, seen)) else None
      ensures log == old(log) && disk == old(disk) && durable == old(durable)
      ensures ok ==> recovered == |log| && snapshotSeq == disk.number
    {
      ok := LoadSnapshots();
      if !ok { return; }
      BuildSeen();
      assert seen == IdsOf(log);
      ok := ReplayWAL(disk.number);
      if ok { recovered := |log|; }
    }
  }

  lemma TailGrows(log: seq<Entry>, i: nat, from: nat)
    requires from <= i < |log|
    ensures Tail(log[..i + 1], from) == Tail(log[..i], from) + [log[i]]
    ensures Tail(log[..i + 1], from)[..i - from] == Tail(log[..i], from)
  {
  }

  lemma {:induction false} FailureStays<B, S>(env: Env<B, S>, mem: Memory<B, S>, items: seq<Item>, k: nat)
    requires k <= |items| && !CommitItems(env, mem, items[..k]).1
    ensures CommitItems(env, mem, items) == CommitItems(env, mem, items[..k])
    decreases |items|
  {
    if k == |items| {
      assert items[..k] == items;
    } else {
      var n := |items| - 1;
      assert items[..n][..k] == items[..k];
      FailureStays(env, mem, items[..n], k);
    }
  }

  lemma {:induction false} ReplayFails<B, S>(m: Machine<B, S>, live: Live<B>, log: seq<Entry>, k: nat)
    requires k <= |log| && Replayed(m, live, log[..k]) == None
    ensures Replayed(m, live, log) == None
    decreases |log|
  {
    if k == |log| {
      assert log[..k] == log;
    } else {
      var n := |log| - 1;
      assert log[..n][..k] == log[..k];
      ReplayFails(m, live, log[..n], k);
    }
  }
}
