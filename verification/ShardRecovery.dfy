// Recovery of the matching shard: when recovery as written rebuilds the books, what a snapshot
// taken between staging and commit loses, and runs of the engine with the real matcher.
module ShardRecovery {
  import opened Wrappers
  import opened Orders
  import opened Convert
  import opened Matcher
  import opened BookInvariant
  import opened Snapshots
  import opened Shard
  import R = Recovery
  import G = GroupCommit

  // ---- A book with one order ----

  function Lone(x: Order): Book {
    if x.side == Buy then Book([], [x], map[x.id := x]) else Book([x], [], map[x.id := x])
  }

  lemma LoneIsGood(x: Order)
    requires Storable(x) && x.updateTime != ZERO_TIME && x.remaining <= x.quantity
    ensures Good(Lone(x))
  {
  }

  // A maker of one unit that the taker accepts.
  function MakerFor(taker: Order, id: nat): Order {
    Order(id, "", taker.symbol, 1, 1, Opposite(taker.side), Limit, if taker.price > 0 then taker.price else 1, 1, 1, 0)
  }

  lemma MakerIsTaken(taker: Order, id: nat, n: nat, clock: Clock)
    requires taker.remaining > 0 && taker.id != id && (taker.typ == Market || taker.price > 0)
    ensures var out := Match(Lone(MakerFor(taker, id)), taker, n, clock);
            out.Matched? ==> id !in out.book.live
    ensures var side := Opposite(taker.side);
            var s := Sweep(Lone(MakerFor(taker, id)).At(side), Lone(MakerFor(taker, id)).live, taker, n, clock, 0);
            && s.opposite == [] && s.live == map[] && s.ticks == 1
            && s.taker == Reduced(taker, MakerFor(taker, id), clock(0))
  {
    var x := MakerFor(taker, id);
    var b := Lone(x);
    var side := Opposite(taker.side);
    assert b.At(side) == [x] && !StopMatch(taker, x.price);
    SweepUnrolled([x], b.live, taker, n, clock, 0);
    var rest := Reduced(taker, x, clock(0));
    assert [x][1..] == [];
    assert Sweep([], b.live - {id}, rest, n, clock, 1) == Swept([], b.live - {id}, rest, [], 1);
  }

  // ---- An order id over a replay ----

  ghost predicate Gone(books: Books, symbol: string, id: nat) {
    symbol in books && id !in books[symbol].live
  }

  ghost predicate Alone(books: Books, x: Order) {
    x.symbol in books && books[x.symbol] == Lone(x)
  }

  predicate Mentions(e: R.Entry, id: nat) {
    e.what.Of? &&
    match e.what.command
    case NewOrder(order) => R.IdOf(order) == id
    case Cancel(_, k) => k == id
  }

  ghost predicate Unmentioned(log: seq<R.Entry>, id: nat) {
    forall i :: 0 <= i < |log| ==> !Mentions(log[i], id)
  }

  lemma MatchKeepsGone(b: Book, order: Order, n: nat, clock: Clock, id: nat)
    requires Sound(b) && order.remaining > 0 && id !in b.live && order.id != id
    ensures Match(b, order, n, clock).Matched? ==> id !in Match(b, order, n, clock).book.live
  {
    SweepKeepsCoherent(b, order, n, clock, 0);
    var r := Sweep(b.At(Opposite(order.side)), b.live, order, n, clock, 0);
    assert id !in r.live;
  }

  lemma MatchNewKeepsGone(setting: Setting, books: Books, pb: PbOrder, n: nat, symbol: string, id: nat)
    requires AllGood(books) && Gone(books, symbol, id) && pb.id != id
    requires MatchNew(setting, books, pb, n).Some?
    ensures Gone(MatchNew(setting, books, pb, n).value.books, symbol, id)
  {
    ConvertedOrders(pb);
    var order := OrderFromProto(pb).value;
    if symbol == order.symbol { MatchKeepsGone(books[symbol], order, n, setting.clocks(n), id); }
  }

  lemma CancelInKeeps(books: Books, symbol: string, id: nat, x: Order)
    requires AllGood(books) && id != x.id
    ensures Alone(books, x) ==> Alone(CancelIn(books, symbol, id), x)
  {
  }

  lemma CancelInKeepsGone(books: Books, symbol: string, id: nat, k: nat, at: string)
    requires AllGood(books) && Gone(books, at, k)
    ensures Gone(CancelIn(books, symbol, id), at, k)
  {
    if symbol in books { CancelKeepsSound(books[symbol], id); }
  }

  // What one entry replayed does, in terms of the books.
  lemma OneReplayed(setting: Setting, live: R.Live<Book>, e: R.Entry)
    ensures var r := R.ReplayOne(ShardMachine(setting), live, e);
            match e.what
            case Garbled => r == None
            case Of(NewOrder(None)) => r == if 0 in live.seen then Some(live) else None
            case Of(NewOrder(Some(pb))) =>
              r == if pb.id in live.seen then Some(live)
                   else (match MatchNew(setting, live.books, pb, e.walSeq)
                         case None => None
                         case Some(a) => Some(R.Live(a.books, live.seen + {pb.id})))
            case Of(Cancel(symbol, id)) =>
              r == if symbol == "" then None else Some(R.Live(CancelIn(live.books, symbol, id), live.seen))
  {
  }

  lemma OneKeepsGone(setting: Setting, live: R.Live<Book>, e: R.Entry, symbol: string, id: nat)
    requires AllGood(live.books) && AllSized([e]) && Gone(live.books, symbol, id) && !Mentions(e, id)
    ensures var r := R.ReplayOne(ShardMachine(setting), live, e);
            r.Some? ==> Gone(r.value.books, symbol, id)
  {
    assert [e][0] == e;
    OneReplayed(setting, live, e);
    match e.what
    case Garbled =>
    case Of(NewOrder(None)) =>
    case Of(NewOrder(Some(pb))) =>
      if pb.id !in live.seen && MatchNew(setting, live.books, pb, e.walSeq).Some? {
        MatchNewKeepsGone(setting, live.books, pb, e.walSeq, symbol, id);
      }
    case Of(Cancel(at, k)) => CancelInKeepsGone(live.books, at, k, id, symbol);
  }

  lemma {:induction false} ReplayKeepsGone(setting: Setting, live: R.Live<Book>, log: seq<R.Entry>, symbol: string,
                                           id: nat)
    requires AllGood(live.books) && TickingAlways(setting) && AllSized(log) && Unmentioned(log, id)
    requires Gone(live.books, symbol, id)
    ensures var r := R.Replayed(ShardMachine(setting), live, log);
            r.Some? ==> Gone(r.value.books, symbol, id) && AllGood(r.value.books)
    decreases |log|
  {
    if log != [] {
      var m, n := ShardMachine(setting), |log| - 1;
      assert forall i :: 0 <= i < n ==> log[..n][i] == log[i];
      ReplayKeepsGone(setting, live, log[..n], symbol, id);
      if R.Replayed(m, live, log[..n]).Some? {
        var before := R.Replayed(m, live, log[..n]).value;
        assert AllSized([log[n]]) by { assert [log[n]][0] == log[n]; }
        OneKeepsGone(setting, before, log[n], symbol, id);
        if R.ReplayOne(m, before, log[n]).Some? { ReplayOneKeepsGood(setting, before, log[n]); }
      }
    }
  }

  // ---- Entries that change nothing about a lone order ----

  // Recovery knows what to do with the entry.
  predicate Readable(e: R.Entry) {
    match e.what
    case Garbled => false
    case Of(NewOrder(order)) => R.IdOf(order) != 0
    case Of(Cancel(symbol, _)) => symbol != ""
  }

  predicate AllReadable(log: seq<R.Entry>) { forall i :: 0 <= i < |log| ==> Readable(log[i]) }

  // A new order that no entry of the head has.
  predicate Fresh(e: R.Entry, seen: set<nat>) {
    e.what.Of? && e.what.command.NewOrder? && R.IdOf(e.what.command.order) !in seen
  }

  predicate NoneFresh(log: seq<R.Entry>, seen: set<nat>) { forall i :: 0 <= i < |log| ==> !Fresh(log[i], seen) }

  // As long as nothing is fresh, only cancellations are applied: the lone order stays alone.
  lemma {:induction false} ReplayKeepsAlone(setting: Setting, live: R.Live<Book>, log: seq<R.Entry>, x: Order)
    requires AllGood(live.books) && AllReadable(log) && NoneFresh(log, live.seen) && Unmentioned(log, x.id)
    requires Alone(live.books, x)
    ensures var r := R.Replayed(ShardMachine(setting), live, log);
            r.Some? && r.value.seen == live.seen && Alone(r.value.books, x) && AllGood(r.value.books)
    decreases |log|
  {
    if log != [] {
      var n := |log| - 1;
      assert forall i :: 0 <= i < n ==> log[..n][i] == log[i];
      ReplayKeepsAlone(setting, live, log[..n], x);
      OneKeepsAlone(setting, R.Replayed(ShardMachine(setting), live, log[..n]).value, log[n], x);
    }
  }

  lemma OneKeepsAlone(setting: Setting, live: R.Live<Book>, e: R.Entry, x: Order)
    requires AllGood(live.books) && Readable(e) && !Fresh(e, live.seen) && !Mentions(e, x.id) && Alone(live.books, x)
    ensures var r := R.ReplayOne(ShardMachine(setting), live, e);
            r.Some? && r.value.seen == live.seen && Alone(r.value.books, x) && AllGood(r.value.books)
  {
    OneReplayed(setting, live, e);
    if e.what.command.Cancel? {
      CancelInKeeps(live.books, e.what.command.symbol, e.what.command.id, x);
      CancelInKeepsGood(live.books, e.what.command.symbol, e.what.command.id);
    }
  }

  // ---- When recovery as written rebuilds the books ----

  function FirstFresh(log: seq<R.Entry>, seen: set<nat>): (p: nat)
    requires !NoneFresh(log, seen)
    ensures p < |log| && Fresh(log[p], seen) && NoneFresh(log[..p], seen)
    decreases |log|
  {
    var n := |log| - 1;
    if !NoneFresh(log[..n], seen) then
      var p := FirstFresh(log[..n], seen);
      assert log[..n][..p] == log[..p];
      p
    else
      assert forall i :: 0 <= i < n ==> log[..n][i] == log[i];
      n
  }

  function Bound(e: R.Entry): nat {
    match e.what
    case Garbled => 1
    case Of(NewOrder(order)) => R.IdOf(order) + 1
    case Of(Cancel(_, id)) => id + 1
  }

  ghost predicate NoneFrom(log: seq<R.Entry>, id: nat) { forall k :: id <= k ==> Unmentioned(log, k) }

  lemma NoneFromMore(log: seq<R.Entry>, before: nat, id: nat)
    requires log != [] && NoneFrom(log[..|log| - 1], before) && before <= id && Bound(log[|log| - 1]) <= id
    ensures NoneFrom(log, id)
  {
    forall k | id <= k ensures Unmentioned(log, k) {
      assert Unmentioned(log[..|log| - 1], k);
      assert forall i :: 0 <= i < |log| - 1 ==> log[..|log| - 1][i] == log[i];
    }
  }

  function Unused(log: seq<R.Entry>): (id: nat)
    ensures id > 0 && NoneFrom(log, id)
    decreases |log|
  {
    if log == [] then 1
    else
      var before, bound := Unused(log[..|log| - 1]), Bound(log[|log| - 1]);
      var id := if before < bound then bound else before;
      NoneFromMore(log, before, id);
      id
  }

  // The order a fresh entry converts to, or any order.
  function TakerOf(pb: PbOrder): Order {
    match OrderFromProto(pb)
    case Done(order) => order
    case Rejected(_) => Order(pb.id, "", "A", 1, 1, Buy, Limit, 1, 1, 1, 0)
  }

  // The fresh order takes the maker, if it is accepted at all.
  lemma FreshTakes(setting: Setting, live: R.Live<Book>, e: R.Entry, x: Order)
    requires AllGood(live.books) && TickingAlways(setting) && AllSized([e]) && Readable(e) && Fresh(e, live.seen)
    requires !Mentions(e, x.id) && x == MakerFor(TakerOf(e.what.command.order.value), x.id) && Alone(live.books, x)
    ensures var r := R.ReplayOne(ShardMachine(setting), live, e);
            r.Some? ==> Gone(r.value.books, x.symbol, x.id) && AllGood(r.value.books)
  {
    var pb := e.what.command.order.value;
    OneReplayed(setting, live, e);
    if MatchNew(setting, live.books, pb, e.walSeq).Some? {
      ConvertedOrders(pb);
      MakerIsTaken(TakerOf(pb), x.id, e.walSeq, setting.clocks(e.walSeq));
      ReplayOneKeepsGood(setting, live, e);
    }
  }

  lemma SubLog(log: seq<R.Entry>, i: nat, j: nat)
    requires i <= j <= |log|
    ensures AllReadable(log) ==> AllReadable(log[i..j])
    ensures AllSized(log) ==> AllSized(log[i..j])
    ensures forall k :: Unmentioned(log, k) ==> Unmentioned(log[i..j], k)
    ensures forall k :: 0 <= k < j - i ==> log[i..j][k] == log[i + k]
  {
  }

  // The books of the counterexample: a maker that the first fresh order takes under full replay,
  // while recovery as written leaves it alone.
  lemma FreshOrderIsLost(setting: Setting, registered: Books, tail: seq<R.Entry>, seen: set<nat>, all: set<nat>)
      returns (books: Books)
    requires AllGood(registered) && TickingAlways(setting) && AllSized(tail) && AllReadable(tail)
    requires !NoneFresh(tail, seen) && NoneFresh(tail, all)
    ensures AllGood(books)
    ensures var m := ShardMachine(setting);
            R.Replayed(m, R.Live(registered + books, all), tail) !=
            R.Replayed(m, R.Live(registered + books, seen), tail)
  {
    var id := Unused(tail);
    assert Unmentioned(tail, id);
    var x := MakerFor(TakerOf(tail[FirstFresh(tail, seen)].what.command.order.value), id);
    TakerIsStorable(tail[FirstFresh(tail, seen)].what.command.order.value, id);
    LoneIsGood(x);
    books := map[x.symbol := Lone(x)];
    ReplayKeepsAlone(setting, R.Live(registered + books, all), tail, x);
    ReplayTakes(setting, R.Live(registered + books, seen), tail, x);
  }

  ghost predicate IfAny(r: Option<R.Live<Book>>, x: Order) {
    r.Some? ==> Gone(r.value.books, x.symbol, x.id) && AllGood(r.value.books)
  }

  lemma FirstFreshTakes(setting: Setting, start: R.Live<Book>, tail: seq<R.Entry>, x: Order) returns (p: nat)
    requires AllGood(start.books) && TickingAlways(setting) && AllSized(tail) && AllReadable(tail)
    requires !NoneFresh(tail, start.seen) && Unmentioned(tail, x.id) && Alone(start.books, x)
    requires x == MakerFor(TakerOf(tail[FirstFresh(tail, start.seen)].what.command.order.value), x.id)
    ensures p < |tail| && IfAny(R.Replayed(ShardMachine(setting), start, tail[..p + 1]), x)
  {
    var m := ShardMachine(setting);
    p := FirstFresh(tail, start.seen);
    SubLog(tail, 0, p);
    assert tail[0..p] == tail[..p];
    ReplayKeepsAlone(setting, start, tail[..p], x);
    SubLog(tail, p, p + 1);
    assert tail[p..p + 1] == [tail[p]];
    FreshTakes(setting, R.Replayed(m, start, tail[..p]).value, tail[p], x);
    assert tail[..p + 1][..p] == tail[..p];
  }

  lemma ReplayTakes(setting: Setting, start: R.Live<Book>, tail: seq<R.Entry>, x: Order)
    requires AllGood(start.books) && TickingAlways(setting) && AllSized(tail) && AllReadable(tail)
    requires !NoneFresh(tail, start.seen) && Unmentioned(tail, x.id) && Alone(start.books, x)
    requires x == MakerFor(TakerOf(tail[FirstFresh(tail, start.seen)].what.command.order.value), x.id)
    ensures IfAny(R.Replayed(ShardMachine(setting), start, tail), x)
  {
    var m := ShardMachine(setting);
    var p := FirstFreshTakes(setting, start, tail, x);
    R.ReplayInTwo(m, start, tail, p + 1);
    SubLog(tail, p + 1, |tail|);
    assert tail[p + 1..|tail|] == tail[p + 1..];
    var taken := R.Replayed(m, start, tail[..p + 1]);
    if taken.Some? { ReplayKeepsGone(setting, taken.value, tail[p + 1..], x.symbol, x.id); }
  }

  lemma TakerIsStorable(pb: PbOrder, id: nat)
    requires pb.id != 0 && id != 0
    ensures Storable(MakerFor(TakerOf(pb), id))
  {
  }

  // What recovery cannot read makes every replay fail.
  lemma {:induction false} UnreadableFails(setting: Setting, live: R.Live<Book>, log: seq<R.Entry>)
    requires !AllReadable(log) && 0 !in live.seen
    ensures R.Replayed(ShardMachine(setting), live, log) == None
    decreases |log|
  {
    var m, n := ShardMachine(setting), |log| - 1;
    assert forall i :: 0 <= i < n ==> log[..n][i] == log[i];
    if !AllReadable(log[..n]) {
      UnreadableFails(setting, live, log[..n]);
    } else if R.Replayed(m, live, log[..n]).Some? {
      ShardIsLawful(setting);
      R.ReplayedSeen(m, live, log[..n]);
      R.NoZeroId(log[..n]);
      OneReplayed(setting, R.Replayed(m, live, log[..n]).value, log[n]);
    }
  }

  lemma {:induction false} NoneFreshAddsNothing(log: seq<R.Entry>, s: nat)
    requires s <= |log| && NoneFresh(log[s..], R.IdsOf(log[..s]))
    ensures R.IdsOf(log) == R.IdsOf(log[..s])
    decreases |log|
  {
    if s == |log| {
      assert log[..s] == log;
    } else {
      var n := |log| - 1;
      assert log[s..][n - s] == log[n];
      assert log[..n][s..] == log[s..][..n - s] && log[..n][..s] == log[..s];
      assert forall k :: 0 <= k < n - s ==> log[..n][s..][k] == log[s..][k];
      NoneFreshAddsNothing(log[..n], s);
    }
  }

  lemma NoneFreshWithAll(log: seq<R.Entry>, s: nat)
    requires s <= |log| && AllReadable(log[s..])
    ensures NoneFresh(log[s..], R.IdsOf(log))
  {
    forall i | 0 <= i < |log[s..]| ensures !Fresh(log[s..][i], R.IdsOf(log)) {
      R.IdsHold(log, s + i);
      assert log[s..][i] == log[s + i];
    }
  }

  // Both kinds of recovery give the same for all starting books exactly when the tail has no
  // fresh order, or cannot be read at all.
  lemma SameFromAllBooks(setting: Setting, registered: Books, log: seq<R.Entry>, s: nat)
    requires TickingAlways(setting) && AllGood(registered) && s <= |log| && AllSized(log[s..])
    ensures var m := ShardMachine(setting);
            (forall books: Books | AllGood(books) ::
               R.Replayed(m, R.Live(registered + books, R.IdsOf(log)), log[s..]) ==
               R.Replayed(m, R.Live(registered + books, R.IdsOf(log[..s])), log[s..])) <==>
            (!AllReadable(log[s..]) || NoneFresh(log[s..], R.IdsOf(log[..s])))
  {
    var all, seen := R.IdsOf(log), R.IdsOf(log[..s]);
    R.NoZeroId(log);
    R.NoZeroId(log[..s]);
    if !AllReadable(log[s..]) {
      forall books: Books | AllGood(books)
        ensures R.Replayed(ShardMachine(setting), R.Live(registered + books, all), log[s..]) ==
                R.Replayed(ShardMachine(setting), R.Live(registered + books, seen), log[s..])
      {
        UnreadableFails(setting, R.Live(registered + books, all), log[s..]);
        UnreadableFails(setting, R.Live(registered + books, seen), log[s..]);
      }
    } else if NoneFresh(log[s..], seen) {
      NoneFreshAddsNothing(log, s);
    } else {
      NoneFreshWithAll(log, s);
      var books := FreshOrderIsLost(setting, registered, log[s..], seen, all);
    }
  }

  // Recovery as it is written gives, from every snapshot of good books, what recovery with the
  // index cut at the snapshot gives, exactly when the log behind the snapshot holds no new order
  // that the log before it lacks, or cannot be read at all.
  lemma RecoveryExactlyWhen(setting: Setting, registered: Books, log: seq<R.Entry>, s: nat)
    requires TickingAlways(setting) && AllGood(registered) && s <= |log| && AllSized(log[s..])
    ensures var m := ShardMachine(setting);
            (forall books: Books | AllGood(books) ::
               R.Recovered(m, registered, R.Saved(m, books, s), log) ==
               R.RecoveredWithCut(m, registered, R.Saved(m, books, s), log)) <==>
            (!AllReadable(log[s..]) || NoneFresh(log[s..], R.IdsOf(log[..s])))
  {
    var m := ShardMachine(setting);
    SameFromAllBooks(setting, registered, log, s);
    forall books: Books | AllGood(books)
      ensures R.Recovered(m, registered, R.Saved(m, books, s), log) ==
              R.Replayed(m, R.Live(registered + books, R.IdsOf(log)), log[s..])
      ensures R.RecoveredWithCut(m, registered, R.Saved(m, books, s), log) ==
              R.Replayed(m, R.Live(registered + books, R.IdsOf(log[..s])), log[s..])
    {
      GoodSavesBack(setting, books);
      R.LoadedOver(m, registered, books, s);
    }
  }

  // Without a snapshot: recovery as it is written is the replay of the log for all books it may
  // start from exactly when the log holds no new order, or cannot be read.
  lemma RecoveryFromNothingExactlyWhen(setting: Setting, log: seq<R.Entry>)
    requires TickingAlways(setting) && AllSized(log)
    ensures var m := ShardMachine(setting);
            (forall registered: Books | AllGood(registered) ::
               R.Recovered(m, registered, R.Disk(0, map[]), log) == R.Replayed(m, R.Live(registered, {}), log)) <==>
            (!AllReadable(log) || R.NoNewOrders(log))
  {
    var m := ShardMachine(setting);
    var none: Books := map[];
    assert log[0..] == log && log[..0] == [];
    SameFromAllBooks(setting, none, log, 0);
    forall books: Books | AllGood(books)
      ensures R.Recovered(m, books, R.Disk(0, map[]), log) == R.Replayed(m, R.Live(none + books, R.IdsOf(log)), log)
    {
      assert none + books == books;
      var saved: map<string, SavedBook> := map[];
      assert R.Loaded(m, books, saved) == books;
    }
    assert forall books: Books :: none + books == books;
  }

  // One order that matches nothing, and no snapshot: full replay has it resting, recovery as
  // written does not.
  lemma RestingOrderIsForgotten(setting: Setting, pb: PbOrder)
    requires OrderFromProto(pb).Done? && OrderFromProto(pb).value.typ == Limit
    requires setting.accepts(pb.symbol, OrderFromProto(pb).value)
    ensures var m := ShardMachine(setting);
            var registered: Books := map[pb.symbol := EMPTY_BOOK];
            var log := [R.Entry(1, R.Of(R.NewOrder(Some(pb))))];
            && R.Recovered(m, registered, R.Disk(0, map[]), log) == Some(R.Live(registered, {pb.id}))
            && R.Replayed(m, R.Live(registered, {}), log).Some?
            && var books := R.Replayed(m, R.Live(registered, {}), log).value.books;
               pb.symbol in books && pb.id in books[pb.symbol].live
  {
    var m := ShardMachine(setting);
    var registered: Books := map[pb.symbol := EMPTY_BOOK];
    var e := R.Entry(1, R.Of(R.NewOrder(Some(pb))));
    var log := [e];
    ConvertedOrders(pb);
    assert log[..0] == [] && R.IdsOf(log) == {} + {pb.id} == {pb.id};
    var none: map<string, SavedBook> := map[];
    assert R.Loaded(m, registered, none) == registered;
    OneReplayed(setting, R.Live(registered, {pb.id}), e);
    OneReplayed(setting, R.Live(registered, {}), e);
    assert R.Replayed(m, R.Live(registered, {pb.id}), log) == R.ReplayOne(m, R.Live(registered, {pb.id}), e);
    assert R.Replayed(m, R.Live(registered, {}), log) == R.ReplayOne(m, R.Live(registered, {}), e);
  }

  // ---- A snapshot between staging and commit ----

  function Empties(symbols: set<string>): Books { map symbol | symbol in symbols :: EMPTY_BOOK }

  ghost predicate Stays(setting: Setting, books: Books, seen: set<nat>, tail: seq<R.Entry>) {
    var r := R.Replayed(ShardMachine(setting), R.Live(books, seen), tail);
    r.Some? && r.value.books == books
  }

  // Two books that the first entry makes the same cannot both come out unchanged.
  lemma MadeSame(setting: Setting, a: Books, b: Books, seen: set<nat>, tail: seq<R.Entry>)
    requires tail != [] && a != b
    requires var m := ShardMachine(setting);
             R.ReplayOne(m, R.Live(a, seen), tail[0]) == R.ReplayOne(m, R.Live(b, seen), tail[0])
    ensures !Stays(setting, a, seen, tail) || !Stays(setting, b, seen, tail)
  {
    var m := ShardMachine(setting);
    forall books: Books ensures R.Replayed(m, R.Live(books, seen), tail[..1]) ==
                                R.ReplayOne(m, R.Live(books, seen), tail[0])
    {
      assert tail[..1][..0] == [] && tail[..1][0] == tail[0];
    }
    R.ReplayInTwo(m, R.Live(a, seen), tail, 1);
    R.ReplayInTwo(m, R.Live(b, seen), tail, 1);
  }

  lemma TakenAlike(taker: Order, i: nat, j: nat, n: nat, clock: Clock)
    requires taker.remaining > 0 && taker.id != i && taker.id != j && (taker.typ == Market || taker.price > 0)
    ensures var x := Match(Lone(MakerFor(taker, i)), taker, n, clock);
            var y := Match(Lone(MakerFor(taker, j)), taker, n, clock);
            (x.Matched? <==> y.Matched?) && (x.Matched? ==> x.book == y.book)
  {
    MakerIsTaken(taker, i, n, clock);
    MakerIsTaken(taker, j, n, clock);
  }

  // One symbol holds one order, the others none.
  function Around(symbols: set<string>, x: Order): Books {
    map symbol | symbol in symbols :: if symbol == x.symbol then Lone(x) else EMPTY_BOOK
  }

  lemma AroundIsGood(symbols: set<string>, x: Order)
    requires Storable(x) && x.updateTime != ZERO_TIME && x.remaining <= x.quantity
    ensures AllGood(Around(symbols, x))
  {
    EmptyIsGood();
    LoneIsGood(x);
  }

  lemma SamePlace(symbols: set<string>, x: Order, y: Order, b: Book)
    requires x.symbol == y.symbol && x.symbol in symbols && x != y
    ensures Around(symbols, x)[x.symbol := b] == Around(symbols, y)[x.symbol := b]
    ensures Around(symbols, x) != Around(symbols, y)
  {
    assert Around(symbols, x)[x.symbol] == Lone(x) && Around(symbols, y)[x.symbol] == Lone(y);
  }

  // Of two books that the first entry makes the same, one does not come out unchanged.
  lemma OneOfTwo(setting: Setting, symbols: set<string>, seen: set<nat>, tail: seq<R.Entry>, x: Order, y: Order)
      returns (books: Books)
    requires tail != [] && x.symbol == y.symbol && x.symbol in symbols && x != y
    requires Storable(x) && x.updateTime != ZERO_TIME && x.remaining <= x.quantity
    requires Storable(y) && y.updateTime != ZERO_TIME && y.remaining <= y.quantity
    requires var m := ShardMachine(setting);
             R.ReplayOne(m, R.Live(Around(symbols, x), seen), tail[0]) ==
             R.ReplayOne(m, R.Live(Around(symbols, y), seen), tail[0])
    ensures AllGood(books) && books.Keys == symbols && !Stays(setting, books, seen, tail)
  {
    AroundIsGood(symbols, x);
    AroundIsGood(symbols, y);
    SamePlace(symbols, x, y, EMPTY_BOOK);
    MadeSame(setting, Around(symbols, x), Around(symbols, y), seen, tail);
    books := if Stays(setting, Around(symbols, x), seen, tail) then Around(symbols, y) else Around(symbols, x);
  }

  lemma OrderTakesEither(setting: Setting, symbols: set<string>, seen: set<nat>, tail: seq<R.Entry>)
      returns (books: Books)
    requires tail != [] && Readable(tail[0]) && Fresh(tail[0], seen)
    ensures AllGood(books) && books.Keys == symbols && !Stays(setting, books, seen, tail)
  {
    var e := tail[0];
    var pb := e.what.command.order.value;
    var taker := TakerOf(pb);
    if taker.symbol in symbols {
      var x, y := MakerFor(taker, taker.id + 1), MakerFor(taker, taker.id + 2);
      TakerIsStorable(pb, x.id);
      TakerIsStorable(pb, y.id);
      OrderMadeSame(setting, symbols, seen, e, x, y);
      books := OneOfTwo(setting, symbols, seen, tail, x, y);
    } else {
      books := Empties(symbols);
      EmptyIsGood();
      OneReplayed(setting, R.Live(books, seen), e);
      FirstFails(setting, R.Live(books, seen), tail);
    }
  }

  lemma OrderMadeSame(setting: Setting, symbols: set<string>, seen: set<nat>, e: R.Entry, x: Order, y: Order)
    requires Readable(e) && Fresh(e, seen)
    requires var taker := TakerOf(e.what.command.order.value);
             && x == MakerFor(taker, taker.id + 1) && y == MakerFor(taker, taker.id + 2) && taker.symbol in symbols
    ensures var m := ShardMachine(setting);
            R.ReplayOne(m, R.Live(Around(symbols, x), seen), e) == R.ReplayOne(m, R.Live(Around(symbols, y), seen), e)
  {
    var pb := e.what.command.order.value;
    var taker := TakerOf(pb);
    OneReplayed(setting, R.Live(Around(symbols, x), seen), e);
    OneReplayed(setting, R.Live(Around(symbols, y), seen), e);
    if OrderFromProto(pb).Done? {
      ConvertedOrders(pb);
      var clock := setting.clocks(e.walSeq);
      TakenAlike(taker, x.id, y.id, e.walSeq, clock);
      assert Around(symbols, x)[taker.symbol] == Lone(x) && Around(symbols, y)[taker.symbol] == Lone(y);
      if Match(Lone(x), taker, e.walSeq, clock).Matched? {
        SamePlace(symbols, x, y, Match(Lone(x), taker, e.walSeq, clock).book);
      }
    }
  }

  lemma FirstFails(setting: Setting, live: R.Live<Book>, tail: seq<R.Entry>)
    requires tail != [] && R.ReplayOne(ShardMachine(setting), live, tail[0]) == None
    ensures R.Replayed(ShardMachine(setting), live, tail) == None
  {
    assert tail[..1][..0] == [] && tail[..1][0] == tail[0];
    R.ReplayInTwo(ShardMachine(setting), live, tail, 1);
  }

  lemma CancelTakesEither(setting: Setting, symbols: set<string>, seen: set<nat>, tail: seq<R.Entry>)
      returns (books: Books)
    requires tail != [] && Readable(tail[0]) && tail[0].what.command.Cancel? && tail[0].what.command.id != 0
    requires 0 !in seen
    ensures AllGood(books) && books.Keys == symbols && !Stays(setting, books, seen, tail)
  {
    var c := tail[0].what.command;
    if c.symbol in symbols {
      var x := Order(c.id, "", c.symbol, 1, 1, Buy, Limit, 1, 1, 1, 0);
      var y := x.(price := 2);
      CancelMadeEmpty(setting, symbols, seen, tail[0], x);
      CancelMadeEmpty(setting, symbols, seen, tail[0], y);
      books := OneOfTwo(setting, symbols, seen, tail, x, y);
    } else {
      books := Empties(symbols);
      EmptyIsGood();
      CancelAddsSymbol(setting, books, seen, tail);
    }
  }

  lemma CancelMadeEmpty(setting: Setting, symbols: set<string>, seen: set<nat>, e: R.Entry, x: Order)
    requires e.what == R.Of(R.Cancel(x.symbol, x.id)) && x.symbol != "" && x.symbol in symbols
    ensures R.ReplayOne(ShardMachine(setting), R.Live(Around(symbols, x), seen), e) ==
            Some(R.Live(Empties(symbols), seen))
  {
    OneReplayed(setting, R.Live(Around(symbols, x), seen), e);
    LoneCancelled(x);
    assert CancelIn(Around(symbols, x), x.symbol, x.id) == Empties(symbols);
  }

  lemma LoneCancelled(x: Order)
    ensures Cancel(Lone(x), x.id) == EMPTY_BOOK
  {
    ComparatorsAreThreeWay();
  }

  lemma CancelAddsSymbol(setting: Setting, books: Books, seen: set<nat>, tail: seq<R.Entry>)
    requires tail != [] && Readable(tail[0]) && tail[0].what.command.Cancel? && 0 !in seen
    requires tail[0].what.command.symbol !in books
    ensures !Stays(setting, books, seen, tail)
  {
    var m, e := ShardMachine(setting), tail[0];
    OneReplayed(setting, R.Live(books, seen), e);
    assert tail[..1][..0] == [] && tail[..1][0] == e;
    R.ReplayInTwo(m, R.Live(books, seen), tail, 1);
    var after := R.ReplayOne(m, R.Live(books, seen), e).value;
    if R.Replayed(m, after, tail[1..]).Some? {
      ShardIsLawful(setting);
      R.ReplayedSeen(m, after, tail[1..]);
      assert e.what.command.symbol in after.books.Keys;
    }
  }

  function WithBooks<S>(core: G.Core<Book, S>, books: Books): G.Core<Book, S> {
    core.(mem := core.mem.(live := core.mem.live.(books := books)))
  }

  // What is staged does not depend on the books, and recovery can read it.
  lemma {:induction false} StagedWhatever<S>(env: G.Env<Book, S>, core: G.Core<Book, S>, books: Books,
                                             cs: seq<R.Command>)
    ensures G.StageAll(env, WithBooks(core, books), cs) ==
            match G.StageAll(env, core, cs)
            case None => None
            case Some(b) => Some(G.Batch(WithBooks(b.core, books), b.items))
    decreases |cs|
  {
    if cs != [] { StagedWhatever(env, core, books, cs[..|cs| - 1]); }
  }

  predicate Stageable(e: R.Entry, seen: set<nat>) {
    && Readable(e)
    && (if e.what.command.NewOrder? then R.IdOf(e.what.command.order) !in seen else e.what.command.id != 0)
  }

  lemma {:induction false} StagedEntries<S>(env: G.Env<Book, S>, core: G.Core<Book, S>, cs: seq<R.Command>)
    requires G.StageAll(env, core, cs).Some?
    ensures var b := G.StageAll(env, core, cs).value;
            && core.log <= b.core.log && b.core.mem == core.mem
            && forall i :: |core.log| <= i < |b.core.log| ==> Stageable(b.core.log[i], core.mem.live.seen)
    decreases |cs|
  {
    if cs != [] {
      var n := |cs| - 1;
      StagedEntries(env, core, cs[..n]);
      StagedOne(env, G.StageAll(env, core, cs[..n]).value.core, cs[n]);
    }
  }

  lemma StagedOne<S>(env: G.Env<Book, S>, core: G.Core<Book, S>, c: R.Command)
    ensures var after := G.Stage(env, core, c, G.Written).0;
            && after.mem == core.mem
            && (after.log == core.log ||
                (|after.log| == |core.log| + 1 && core.log <= after.log
                 && Stageable(after.log[|core.log|], core.mem.live.seen)))
  {
  }

  lemma StagedTailMatters(setting: Setting, symbols: set<string>, seen: set<nat>, tail: seq<R.Entry>)
      returns (books: Books)
    requires tail != [] && Stageable(tail[0], seen) && 0 !in seen
    ensures AllGood(books) && books.Keys == symbols && !Stays(setting, books, seen, tail)
  {
    if tail[0].what.command.NewOrder? {
      books := OrderTakesEither(setting, symbols, seen, tail);
    } else {
      books := CancelTakesEither(setting, symbols, seen, tail);
    }
  }

  // The engine with these books stages the batch and takes a snapshot, and recovers from it.
  ghost predicate SnapshotRecovers(env: G.Env<Book, SavedBook>, core: G.Core<Book, SavedBook>, registered: Books,
                                   books: Books, cs: seq<R.Command>, live: R.Live<Book>) {
    match G.StageAll(env, WithBooks(core, books), cs)
    case None => false
    case Some(b) =>
      var disk := G.SnapshotNow(env, b.core).mem.disk;
      && R.RecoveredWithCut(env.m, registered, disk, b.core.log) == Some(live)
      && R.Recovered(env.m, registered, disk, b.core.log) == Some(live)
  }

  lemma StagedSnapshotRecovers(setting: Setting, env: G.Env<Book, SavedBook>, core: G.Core<Book, SavedBook>,
                               registered: Books, books: Books, cs: seq<R.Command>)
    requires env.m == ShardMachine(setting) && AllGood(books) && registered.Keys <= books.Keys
    requires G.StageAll(env, core, cs).Some? && env.saves(|G.StageAll(env, core, cs).value.core.log|)
    ensures var log := G.StageAll(env, core, cs).value.core.log;
            SnapshotRecovers(env, core, registered, books, cs, R.Live(books, R.IdsOf(log)))
  {
    var log := G.StageAll(env, core, cs).value.core.log;
    StagedWhatever(env, core, books, cs);
    StagedEntries(env, core, cs);
    GoodSavesBack(setting, books);
    R.LoadedOver(env.m, registered, books, |log|);
    assert R.Tail(log, |log|) == [] && R.Head(log, |log|) == log;
  }

  // A snapshot taken after staging a batch is labelled with numbers that have not been applied:
  // a recovery from it gives the books as they were before the batch.  For all books of the given
  // symbols that is what a replay of the batch makes of them only if the batch logged nothing.
  lemma SnapshotWhileStagedExactlyWhen(setting: Setting, env: G.Env<Book, SavedBook>,
                                       core: G.Core<Book, SavedBook>, registered: Books, symbols: set<string>,
                                       cs: seq<R.Command>)
    requires env.m == ShardMachine(setting) && G.StageAll(env, core, cs).Some? && registered.Keys <= symbols
    requires core.mem.live.seen == R.IdsOf(core.log) && env.saves(|G.StageAll(env, core, cs).value.core.log|)
    ensures var log := G.StageAll(env, core, cs).value.core.log;
            && |core.log| <= |log|
            && (forall books: Books | AllGood(books) && books.Keys == symbols ::
                  SnapshotRecovers(env, core, registered, books, cs, R.Live(books, R.IdsOf(log))))
            && ((forall books: Books | AllGood(books) && books.Keys == symbols ::
                   Stays(setting, books, R.IdsOf(core.log), log[|core.log|..])) <==> log == core.log)
  {
    var log := G.StageAll(env, core, cs).value.core.log;
    StagedEntries(env, core, cs);
    forall books: Books | AllGood(books) && books.Keys == symbols
      ensures SnapshotRecovers(env, core, registered, books, cs, R.Live(books, R.IdsOf(log)))
    {
      StagedSnapshotRecovers(setting, env, core, registered, books, cs);
    }
    var tail := log[|core.log|..];
    if tail == [] {
      assert log == core.log;
    } else {
      assert tail[0] == log[|core.log|];
      R.NoZeroId(core.log);
      var books := StagedTailMatters(setting, symbols, R.IdsOf(core.log), tail);
    }
  }
}
