// The matching shard as a machine for recovery: order books by symbol, and their snapshots.
module Shard {
  import opened Wrappers
  import opened Orders
  import opened Convert
  import opened Matcher
  import opened BookInvariant
  import opened Snapshots
  import R = Recovery

  // Registered symbols have rules an order must meet; time is a function of the command number.
  datatype Setting = Setting(accepts: (string, Order) -> bool, clocks: nat -> Clock)

  type Books = map<string, Book>

  datatype SavedBook = SavedBook(bids: seq<PriceLevel>, asks: seq<PriceLevel>)

  function MatchNew(setting: Setting, books: Books, pb: PbOrder, n: nat): Option<R.Applied<Book>> {
    match OrderFromProto(pb)
    case Rejected(_) => None
    case Done(order) =>
      if order.symbol !in books || !setting.accepts(order.symbol, order) then None
      else
        match Match(books[order.symbol], order, n, setting.clocks(n))
        case UnsupportedType => None
        case Matched(b, trades) => Some(R.Applied(books[order.symbol := b], trades))
  }

  // Cancelling in a symbol that nobody registered creates its book.
  function CancelIn(books: Books, symbol: string, id: nat): Books {
    books[symbol := Cancel(if symbol in books then books[symbol] else EMPTY_BOOK, id)]
  }

  function Save(b: Book): SavedBook { SavedBook(Exported(b.bids), Exported(b.asks)) }

  function Load(clock: Clock, s: SavedBook): Option<Book> {
    match Restored(EMPTY_BOOK, FromProtos(Flatten(s.bids)) + FromProtos(Flatten(s.asks)), clock, 0)
    case Rejected(_) => None
    case Done(b) => Some(b)
  }

  function ShardMachine(setting: Setting): R.Machine<Book, SavedBook> {
    R.Machine((books: Books, pb: PbOrder, n: nat) => MatchNew(setting, books, pb, n),
              (books: Books, symbol: string, id: nat) => CancelIn(books, symbol, id),
              (b: Book) => Save(b),
              (s: SavedBook) => Load(setting.clocks(0), s))
  }

  // An order is matched in the book of its symbol, and the books of other symbols stay as they are.
  lemma OnlyItsBookMatches(setting: Setting, books: Books, pb: PbOrder, n: nat)
    requires MatchNew(setting, books, pb, n).Some?
    ensures OrderFromProto(pb).Done? && pb.symbol in books
    ensures var a, order := MatchNew(setting, books, pb, n).value, OrderFromProto(pb).value;
            && a.books.Keys == books.Keys
            && (forall symbol :: symbol in books && symbol != pb.symbol ==> a.books[symbol] == books[symbol])
            && Match(books[pb.symbol], order, n, setting.clocks(n)) == Matched(a.books[pb.symbol], a.trades)
  {
    ConvertedOrders(pb);
  }

  // A cancellation takes its order out of the book of its symbol, and changes nothing else.
  lemma OnlyItsBookCancels(books: Books, symbol: string, id: nat)
    requires AllGood(books)
    ensures var after := CancelIn(books, symbol, id);
            && after.Keys == books.Keys + {symbol}
            && (forall other :: other in books && other != symbol ==> after[other] == books[other])
            && after[symbol].live == (if symbol in books then books[symbol].live - {id} else map[])
  {
    EmptyIsGood();
    CancelKeepsSound(if symbol in books then books[symbol] else EMPTY_BOOK, id);
  }

  lemma ShardIsLawful(setting: Setting)
    ensures R.Lawful(ShardMachine(setting))
  {
  }

  ghost predicate Good(b: Book) { Sound(b) && AllStorable(b) }

  ghost predicate AllGood(books: Books) { forall symbol :: symbol in books ==> Good(books[symbol]) }

  ghost predicate TickingAlways(setting: Setting) {
    forall n {:trigger setting.clocks(n)} :: Ticking(setting.clocks(n))
  }

  // The conversion lets a limit order in whose remainder exceeds its quantity; nobody sends one.
  predicate Sized(pb: PbOrder) { OrderFromProto(pb).Done? ==> WellSized(OrderFromProto(pb).value) }

  ghost predicate AllSized(log: seq<R.Entry>) {
    forall i ::
      0 <= i < |log| && log[i].what.Of? && log[i].what.command.NewOrder? && log[i].what.command.order.Some? ==>
        Sized(log[i].what.command.order.value)
  }

  lemma EmptyIsGood()
    ensures Good(EMPTY_BOOK)
  {
  }

  lemma MatchNewKeepsGood(setting: Setting, books: Books, pb: PbOrder, n: nat)
    requires AllGood(books) && TickingAlways(setting) && Sized(pb) && MatchNew(setting, books, pb, n).Some?
    ensures AllGood(MatchNew(setting, books, pb, n).value.books)
  {
    ConvertedOrders(pb);
    var order := OrderFromProto(pb).value;
    var b := books[order.symbol];
    assert Good(b) && Ticking(setting.clocks(n));
    MatchKeepsSound(b, order, n, setting.clocks(n));
    MatchKeepsStorable(b, order, n, setting.clocks(n));
  }

  lemma CancelInKeepsGood(books: Books, symbol: string, id: nat)
    requires AllGood(books)
    ensures AllGood(CancelIn(books, symbol, id))
  {
    EmptyIsGood();
    var b := if symbol in books then books[symbol] else EMPTY_BOOK;
    CancelKeepsSound(b, id);
  }

  lemma {:induction false} ReplayKeepsGood(setting: Setting, registered: Books, log: seq<R.Entry>)
    requires AllGood(registered) && TickingAlways(setting) && AllSized(log)
    requires R.Replayed(ShardMachine(setting), R.Live(registered, {}), log).Some?
    ensures AllGood(R.Replayed(ShardMachine(setting), R.Live(registered, {}), log).value.books)
  {
    if log != [] {
      var m, n := ShardMachine(setting), |log| - 1;
      assert forall i :: 0 <= i < n ==> log[..n][i] == log[i];
      ReplayKeepsGood(setting, registered, log[..n]);
      ReplayOneKeepsGood(setting, R.Replayed(m, R.Live(registered, {}), log[..n]).value, log[n]);
    }
  }

  lemma ReplayOneKeepsGood(setting: Setting, live: R.Live<Book>, e: R.Entry)
    requires AllGood(live.books) && TickingAlways(setting) && AllSized([e])
    requires R.ReplayOne(ShardMachine(setting), live, e).Some?
    ensures AllGood(R.ReplayOne(ShardMachine(setting), live, e).value.books)
  {
    assert [e][0] == e;
    var c, m := e.what.command, ShardMachine(setting);
    if c.NewOrder? && c.order.Some? {
      assert m.matchNew(live.books, c.order.value, e.walSeq) == MatchNew(setting, live.books, c.order.value, e.walSeq);
      if MatchNew(setting, live.books, c.order.value, e.walSeq).Some? {
        MatchNewKeepsGood(setting, live.books, c.order.value, e.walSeq);
      }
    } else if c.Cancel? {
      assert m.cancel(live.books, c.symbol, c.id) == CancelIn(live.books, c.symbol, c.id);
      CancelInKeepsGood(live.books, c.symbol, c.id);
    }
  }

  lemma GoodSavesBack(setting: Setting, books: Books)
    requires AllGood(books)
    ensures R.SavesBack(ShardMachine(setting), books)
  {
    var m := ShardMachine(setting);
    forall symbol | symbol in books ensures m.load(m.save(books[symbol])) == Some(books[symbol]) {
      assert Good(books[symbol]);
      SnapshotRoundTrip(books[symbol], setting.clocks(0));
      assert m.save(books[symbol]) == Save(books[symbol]);
      assert m.load(Save(books[symbol])) == Load(setting.clocks(0), Save(books[symbol]));
    }
  }
}
