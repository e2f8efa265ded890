// Exporting a book as price levels and restoring it.
module Snapshots {
  import opened Sorting
  import opened Wrappers
  import opened Orders
  import opened Matcher
  import opened BookInvariant
  import opened Convert

  datatype PriceLevel = PriceLevel(price: int, orders: seq<PbOrder>)

  datatype Snapshot = Snapshot(shardId: string, symbol: string, seqId: nat, timestamp: int,
                               bids: seq<PriceLevel>, asks: seq<PriceLevel>, orderMap: map<nat, PbOrder>)

  datatype SnapshotError =
    NilSnapshot | BadOrder(error: ConvertError) | SpreadViolation | SizeMismatch | InactiveOrder(id: nat)

  // The best bid is below the best ask, if there are both.
  predicate SpreadOk(b: Book) {
    b.bids != [] && b.asks != [] ==> b.bids[0].price < b.asks[0].price
  }

  // One more order at the end of the levels exported so far: it opens a level unless the last
  // level has its price.
  function WithOrder(levels: seq<PriceLevel>, o: Order): seq<PriceLevel> {
    var n := |levels|;
    if n == 0 || levels[n - 1].price != o.price then levels + [PriceLevel(o.price, [OrderToProto(o)])]
    else levels[..n - 1] + [levels[n - 1].(orders := levels[n - 1].orders + [OrderToProto(o)])]
  }

  function Exported(s: seq<Order>): seq<PriceLevel> {
    if s == [] then [] else WithOrder(Exported(s[..|s| - 1]), s[|s| - 1])
  }

  function Flatten(levels: seq<PriceLevel>): seq<PbOrder> {
    if levels == [] then [] else Flatten(levels[..|levels| - 1]) + levels[|levels| - 1].orders
  }

  lemma {:induction false} FlattenInTwo(levels: seq<PriceLevel>, i: nat)
    requires i <= |levels|
    ensures Flatten(levels) == Flatten(levels[..i]) + Flatten(levels[i..])
  {
    var n := |levels|;
    if i < n {
      FlattenInTwo(levels[..n - 1], i);
      assert levels[..n - 1][..i] == levels[..i];
      assert levels[..n - 1][i..] == levels[i..][..n - 1 - i];
    } else {
      assert levels[..i] == levels;
    }
  }

  lemma ExportedNext(s: seq<Order>, k: nat)
    requires k < |s|
    ensures Exported(s[..k + 1]) == WithOrder(Exported(s[..k]), s[k])
  {
    assert s[..k + 1][..k] == s[..k];
  }

  function Protos(s: seq<Order>): seq<PbOrder> { seq(|s|, i requires 0 <= i < |s| => OrderToProto(s[i])) }

  predicate Better(side: Side, p: int, q: int) { if side == Buy then p > q else p < q }

  // One price to a level, none of them empty, and the prices run strictly from best to worst.
  ghost predicate ProperLevels(levels: seq<PriceLevel>, side: Side) {
    && (forall i :: 0 <= i < |levels| ==> ProperLevel(levels[i]))
    && (forall i, j :: 0 <= i < j < |levels| ==> Better(side, levels[i].price, levels[j].price))
  }

  ghost predicate ProperLevel(l: PriceLevel) {
    l.orders != [] && forall j :: 0 <= j < |l.orders| ==> l.orders[j].price == Text(l.price)
  }

  lemma FlattenWithOrder(levels: seq<PriceLevel>, o: Order)
    ensures Flatten(WithOrder(levels, o)) == Flatten(levels) + [OrderToProto(o)]
  {
  }

  lemma WithOrderProper(levels: seq<PriceLevel>, o: Order, side: Side)
    requires ProperLevels(levels, side)
    requires levels == [] || levels[|levels| - 1].price == o.price || Better(side, levels[|levels| - 1].price, o.price)
    ensures ProperLevels(WithOrder(levels, o), side)
    ensures WithOrder(levels, o) != [] && WithOrder(levels, o)[|WithOrder(levels, o)| - 1].price == o.price
  {
  }

  ghost predicate LevelsOf(levels: seq<PriceLevel>, s: seq<Order>, side: Side) {
    && Flatten(levels) == Protos(s)
    && ProperLevels(levels, side)
    && (s == [] ==> levels == [])
    && (s != [] ==> levels != [] && levels[|levels| - 1].price == s[|s| - 1].price)
  }

  // The export keeps every order, in order, and groups them by price.
  lemma {:induction false} ExportGroupsByPrice(s: seq<Order>, side: Side)
    requires Sorted(Comparator(side), s)
    ensures LevelsOf(Exported(s), s, side)
  {
    if s != [] {
      var t, o := s[..|s| - 1], s[|s| - 1];
      ExportGroupsByPrice(t, side);
      if t != [] { PriceGoesOn(s, side); }
      ExportStep(Exported(t), t, o, side);
      assert s == t + [o];
    }
  }

  lemma ExportStep(levels: seq<PriceLevel>, s: seq<Order>, o: Order, side: Side)
    requires LevelsOf(levels, s, side)
    requires s != [] ==> s[|s| - 1].price == o.price || Better(side, s[|s| - 1].price, o.price)
    ensures LevelsOf(WithOrder(levels, o), s + [o], side)
  {
    FlattenWithOrder(levels, o);
    WithOrderProper(levels, o, side);
    ProtosGrow(s, o);
  }

  lemma PriceGoesOn(s: seq<Order>, side: Side)
    requires Sorted(Comparator(side), s) && |s| > 1
    ensures var p, q := s[|s| - 2].price, s[|s| - 1].price; p == q || Better(side, p, q)
  {
  }

  lemma ProtosGrow(s: seq<Order>, o: Order)
    ensures Protos(s + [o]) == Protos(s) + [OrderToProto(o)]
  {
  }

  // ---- Restoring ----

  function FromProtos(pbs: seq<PbOrder>): seq<Converted<Order>> {
    seq(|pbs|, i requires 0 <= i < |pbs| => OrderFromProto(pbs[i]))
  }

  // Orders entered one by one until one of them does not convert.
  function EnterAll<B>(b: B, orders: seq<Converted<Order>>, enter: (B, Order, nat) -> B, k: nat): Converted<B>
    decreases |orders|
  {
    if orders == [] then Done(b)
    else if orders[0].Rejected? then Rejected(orders[0].error)
    else EnterAll(enter(b, orders[0].value, k), orders[1..], enter, k + 1)
  }

  function Entering(clock: Clock): (Book, Order, nat) -> Book {
    (b: Book, o: Order, k: nat) => Insert(b, o, clock(k))
  }

  // `enter` is insertion with the clock; the marker Step says where a proof may look inside.
  ghost predicate Step(b: Book, o: Order, k: nat) { true }

  ghost predicate IsEntering(enter: (Book, Order, nat) -> Book, clock: Clock) {
    forall b, o, k {:trigger Step(b, o, k)} :: Step(b, o, k) ==> enter(b, o, k) == Insert(b, o, clock(k))
  }

  function Restored(b: Book, orders: seq<Converted<Order>>, clock: Clock, k: nat): Converted<Book> {
    EnterAll(b, orders, Entering(clock), k)
  }

  lemma {:induction false} EnterInTwo<B>(b: B, x: seq<Converted<Order>>, y: seq<Converted<Order>>,
                                         enter: (B, Order, nat) -> B, k: nat)
    ensures EnterAll(b, x + y, enter, k) ==
            var r := EnterAll(b, x, enter, k);
            if r.Done? then EnterAll(r.value, y, enter, k + |x|) else r
    decreases |x|
  {
    if x == [] {
      assert x + y == y;
    } else {
      assert (x + y)[0] == x[0] && (x + y)[1..] == x[1..] + y;
      if x[0].Done? { EnterInTwo(enter(b, x[0].value, k), x[1..], y, enter, k + 1); }
    }
  }

  lemma LevelStep<B>(levels: seq<PriceLevel>, i: nat, b: B, enter: (B, Order, nat) -> B, from: nat)
    requires i < |levels|
    ensures |Flatten(levels[..i + 1])| == |Flatten(levels[..i])| + |levels[i].orders|
    ensures EnterAll(b, FromProtos(Flatten(levels[..i + 1])), enter, from) ==
            var r := EnterAll(b, FromProtos(Flatten(levels[..i])), enter, from);
            if r.Done?
            then EnterAll(r.value, FromProtos(levels[i].orders), enter, from + |Flatten(levels[..i])|)
            else r
  {
    var x, y := FromProtos(Flatten(levels[..i])), FromProtos(levels[i].orders);
    assert levels[..i + 1][..i] == levels[..i];
    assert FromProtos(Flatten(levels[..i + 1])) == x + y;
    EnterInTwo(b, x, y, enter, from);
  }

  lemma OrderStep<B>(orders: seq<PbOrder>, i: nat, b: B, enter: (B, Order, nat) -> B, k: nat)
    requires i < |orders|
    ensures EnterAll(b, FromProtos(orders[i..]), enter, k) ==
            var o := OrderFromProto(orders[i]);
            if o.Rejected? then Rejected(o.error)
            else EnterAll(enter(b, o.value, k), FromProtos(orders[i + 1..]), enter, k + 1)
  {
    assert FromProtos(orders[i..])[0] == OrderFromProto(orders[i]);
    assert FromProtos(orders[i..])[1..] == FromProtos(orders[i + 1..]);
  }

  // Once an order does not convert, the levels that follow do not matter.
  lemma RestOfLevels<B>(levels: seq<PriceLevel>, i: nat, b: B, enter: (B, Order, nat) -> B, from: nat)
    requires i <= |levels|
    requires EnterAll(b, FromProtos(Flatten(levels[..i])), enter, from).Rejected?
    ensures EnterAll(b, FromProtos(Flatten(levels)), enter, from) ==
            EnterAll(b, FromProtos(Flatten(levels[..i])), enter, from)
  {
    FlattenInTwo(levels, i);
    var x, y := FromProtos(Flatten(levels[..i])), FromProtos(Flatten(levels[i..]));
    assert FromProtos(Flatten(levels)) == x + y;
    EnterInTwo(b, x, y, enter, from);
  }

  // The next level is entered, or what it fails with is what entering all levels fails with.
  lemma LevelEntered<B>(levels: seq<PriceLevel>, i: nat, b: B, now: B, enter: (B, Order, nat) -> B, from: nat)
    requires i < |levels|
    requires EnterAll(b, FromProtos(Flatten(levels[..i])), enter, from) == Done(now)
    ensures |Flatten(levels[..i + 1])| == |Flatten(levels[..i])| + |levels[i].orders|
    ensures var r := EnterAll(now, FromProtos(levels[i].orders), enter, from + |Flatten(levels[..i])|);
            if r.Done? then EnterAll(b, FromProtos(Flatten(levels[..i + 1])), enter, from) == r
            else EnterAll(b, FromProtos(Flatten(levels)), enter, from) == r
  {
    LevelStep(levels, i, b, enter, from);
    var r := EnterAll(now, FromProtos(levels[i].orders), enter, from + |Flatten(levels[..i])|);
    if r.Rejected? { RestOfLevels(levels, i + 1, b, enter, from); }
  }

  // The map of live orders once the orders of s have been entered one after the other.
  function Entered(live: map<nat, Order>, s: seq<Order>): map<nat, Order> {
    if s == [] then live else Entered(live, s[..|s| - 1])[s[|s| - 1].id := s[|s| - 1]]
  }

  ghost predicate DistinctIds(s: seq<Order>) {
    forall i, j :: 0 <= i < j < |s| ==> s[i].id != s[j].id
  }

  ghost predicate NoneLive(live: map<nat, Order>, s: seq<Order>) {
    forall i :: 0 <= i < |s| ==> s[i].id !in live
  }

  lemma {:induction false} EnteredHas(live: map<nat, Order>, s: seq<Order>, id: nat)
    requires DistinctIds(s)
    ensures forall i :: 0 <= i < |s| && s[i].id == id ==> id in Entered(live, s) && Entered(live, s)[id] == s[i]
    ensures (forall i :: 0 <= i < |s| ==> s[i].id != id) ==>
              (id in Entered(live, s) <==> id in live) && (id in live ==> Entered(live, s)[id] == live[id])
  {
    if s != [] {
      EnteredHas(live, s[..|s| - 1], id);
      forall i | 0 <= i < |s| - 1 ensures s[i] == s[..|s| - 1][i] {}
    }
  }

  lemma {:induction false} EnteredSize(live: map<nat, Order>, s: seq<Order>)
    requires DistinctIds(s) && NoneLive(live, s)
    ensures |Entered(live, s)| == |live| + |s|
  {
    if s != [] {
      var n := |s| - 1;
      EnteredSize(live, s[..n]);
      EnteredHas(live, s[..n], s[n].id);
    }
  }

  ghost predicate Stored(s: seq<Order>) {
    forall i :: 0 <= i < |s| ==> Storable(s[i]) && s[i].updateTime != ZERO_TIME
  }

  // What restoring one side needs to know about its orders.
  ghost predicate Enterable(live: map<nat, Order>, s: seq<Order>, side: Side) {
    && Sorted(Comparator(side), s) && DistinctIds(s) && NoneLive(live, s) && Stored(s)
    && (forall i :: 0 <= i < |s| ==> s[i].side == side)
  }

  // The front part of a sorted list takes the next element at its end.
  lemma PutAtEnd(side: Side, s: seq<Order>, i: nat)
    requires Sorted(Comparator(side), s) && i < |s|
    ensures Put(Comparator(side), s[..i], s[i]) == s[..i + 1]
  {
    PositionAtEnd(Comparator(side), s[..i], s[i]);
  }

  lemma {:induction false} PositionAtEnd(cmp: (Order, Order) -> int, s: seq<Order>, v: Order)
    requires forall j :: 0 <= j < |s| ==> cmp(s[j], v) < 0
    ensures Position(cmp, s, v) == |s|
  {
    if s != [] { PositionAtEnd(cmp, s[1..], v); }
  }

  lemma EnterOne(base: Book, side: Side, s: seq<Order>, i: nat, now: int)
    requires Enterable(base.live, s, side) && i < |s|
    ensures Insert(base.With(side, s[..i], Entered(base.live, s[..i])), s[i], now) ==
            base.With(side, s[..i + 1], Entered(base.live, s[..i + 1]))
  {
    PutAtEnd(side, s, i);
    EnteredHas(base.live, s[..i], s[i].id);
    assert s[..i + 1][..i] == s[..i];
  }

  lemma {:induction false} SideRestored(base: Book, side: Side, s: seq<Order>, i: nat, clock: Clock, k: nat)
    requires Enterable(base.live, s, side) && i <= |s|
    ensures Restored(base.With(side, s[..i], Entered(base.live, s[..i])), FromProtos(Protos(s[i..])), clock, k) ==
            Done(base.With(side, s, Entered(base.live, s)))
    decreases |s| - i
  {
    if i < |s| {
      var orders := FromProtos(Protos(s[i..]));
      assert orders[0] == Done(s[i]) by { OrderRoundTrip(s[i]); }
      assert orders[1..] == FromProtos(Protos(s[i + 1..]));
      EnterOne(base, side, s, i, clock(k));
      SideRestored(base, side, s, i + 1, clock, k + 1);
    } else {
      assert s[..i] == s;
    }
  }

  ghost predicate AllStorable(b: Book) { StorableMap(b.live) }

  ghost predicate StorableMap(live: map<nat, Order>) {
    forall id :: id in live ==> Storable(live[id]) && live[id].updateTime != ZERO_TIME
  }

  // The lists of a coherent book name each order once.
  lemma ListedOnce(s: seq<Order>, live: map<nat, Order>, side: Side)
    requires ListsSide(s, live, side)
    ensures DistinctIds(s)
    ensures forall i :: 0 <= i < |s| ==> Holds(live, s[i]) && s[i].side == side
  {
  }

  lemma BothSidesEnterable(b: Book)
    requires Coherent(b) && AllStorable(b)
    ensures Enterable(map[], b.bids, Buy)
    ensures Enterable(Entered(map[], b.bids), b.asks, Sell)
    ensures Entered(Entered(map[], b.bids), b.asks) == b.live
  {
    ListedOnce(b.bids, b.live, Buy);
    ListedOnce(b.asks, b.live, Sell);
    var half := Entered(map[], b.bids);
    forall i | 0 <= i < |b.asks| ensures b.asks[i].id !in half {
      EnteredHas(map[], b.bids, b.asks[i].id);
    }
    EnteredIsLive(b);
  }

  // Entering all orders of both lists gives back the order map.
  lemma EnteredIsLive(b: Book)
    requires Coherent(b) && DistinctIds(b.bids) && DistinctIds(b.asks)
    ensures Entered(Entered(map[], b.bids), b.asks) == b.live
  {
    var half := Entered(map[], b.bids);
    var whole := Entered(half, b.asks);
    forall id ensures id in whole <==> id in b.live
              ensures id in b.live ==> id in whole && whole[id] == b.live[id]
    {
      EnteredHas(map[], b.bids, id);
      EnteredHas(half, b.asks, id);
      if id in b.live {
        assert Holds(b.live, b.live[id]);
        assert b.live[id] in (if b.live[id].side == Buy then b.bids else b.asks);
      }
    }
    assert whole == b.live;
  }

  // A book and its order map have as many orders.
  lemma OrderMapSize(b: Book)
    requires Coherent(b) && AllStorable(b)
    ensures |b.live| == |b.bids| + |b.asks|
  {
    BothSidesEnterable(b);
    EnteredSize(map[], b.bids);
    EnteredSize(Entered(map[], b.bids), b.asks);
  }

  // Exporting a sound book and restoring it, bids first, gives the same book.
  lemma SnapshotRoundTrip(b: Book, clock: Clock)
    requires Sound(b) && AllStorable(b)
    ensures Restored(EMPTY_BOOK, FromProtos(Flatten(Exported(b.bids))) + FromProtos(Flatten(Exported(b.asks))),
                     clock, 0) == Done(b)
  {
    ExportGroupsByPrice(b.bids, Buy);
    ExportGroupsByPrice(b.asks, Sell);
    var x, y := FromProtos(Flatten(Exported(b.bids))), FromProtos(Flatten(Exported(b.asks)));
    BothSidesRestored(b, x, y, clock);
    RestoredNow(EMPTY_BOOK, x + y, clock, 0, b);
  }

  lemma BothSidesRestored(b: Book, x: seq<Converted<Order>>, y: seq<Converted<Order>>, clock: Clock)
    requires Coherent(b) && AllStorable(b) && x == FromProtos(Protos(b.bids)) && y == FromProtos(Protos(b.asks))
    ensures RestoresTo(EMPTY_BOOK, x + y, clock, 0, b)
  {
    var half := OneSideAndTheOther(b, x, y, clock);
    EnteredThenEntered(EMPTY_BOOK, half, b, x, y, clock, 0);
  }

  lemma OneSideAndTheOther(b: Book, x: seq<Converted<Order>>, y: seq<Converted<Order>>, clock: Clock)
    returns (half: Book)
    requires Coherent(b) && AllStorable(b) && x == FromProtos(Protos(b.bids)) && y == FromProtos(Protos(b.asks))
    ensures RestoresTo(EMPTY_BOOK, x, clock, 0, half) && RestoresTo(half, y, clock, |x|, b)
  {
    half := Book([], b.bids, Entered(map[], b.bids));
    BothSidesEnterable(b);
    BidsRestored(b.bids, half, clock);
    AsksRestored(b.asks, half, clock, |x|);
  }

  // Both checks made on a restored book pass for the order map exported with it.
  lemma SnapshotValidates(b: Book, active: map<nat, PbOrder>)
    requires Sound(b) && AllStorable(b) && active.Keys == b.live.Keys
    ensures SpreadOk(b) && |active| == |b.bids| + |b.asks|
    ensures forall id :: id in active ==> Resting(b, b.live[id])
  {
    if b.bids != [] && b.asks != [] { BestBidBelowBestAsk(b); }
    OrderMapSize(b);
    assert |active| == |active.Keys| && |b.live| == |b.live.Keys|;
    forall id | id in active ensures Resting(b, b.live[id]) { HeldIsResting(b, b.live[id]); }
  }

  // A marker: a proof that looks inside RestoresTo asserts Looking(0).
  ghost predicate Looking(z: int) { true }

  ghost predicate RestoresTo(a: Book, orders: seq<Converted<Order>>, clock: Clock, k: nat, b: Book) {
    forall z {:trigger Looking(z)} :: Looking(z) ==> Restored(a, orders, clock, k) == Done(b)
  }

  lemma RestoredNow(a: Book, orders: seq<Converted<Order>>, clock: Clock, k: nat, b: Book)
    requires RestoresTo(a, orders, clock, k, b)
    ensures Restored(a, orders, clock, k) == Done(b)
  {
    assert Looking(0);
  }

  lemma BidsRestored(bids: seq<Order>, half: Book, clock: Clock)
    requires Enterable(map[], bids, Buy) && half == Book([], bids, Entered(map[], bids))
    ensures RestoresTo(EMPTY_BOOK, FromProtos(Protos(bids)), clock, 0, half)
  {
    WholeSideRestored(EMPTY_BOOK, Buy, bids, clock, 0);
  }

  lemma AsksRestored(asks: seq<Order>, half: Book, clock: Clock, k: nat)
    requires Enterable(half.live, asks, Sell) && half.asks == []
    ensures RestoresTo(half, FromProtos(Protos(asks)), clock, k, Book(asks, half.bids, Entered(half.live, asks)))
  {
    WholeSideRestored(half, Sell, asks, clock, k);
  }

  lemma EnteredThenEntered(a: Book, b: Book, c: Book, x: seq<Converted<Order>>, y: seq<Converted<Order>>,
                           clock: Clock, k: nat)
    requires RestoresTo(a, x, clock, k, b) && RestoresTo(b, y, clock, k + |x|, c)
    ensures RestoresTo(a, x + y, clock, k, c)
  {
    assert Looking(0);
    EnterInTwo(a, x, y, Entering(clock), k);
  }

  lemma WholeSideRestored(base: Book, side: Side, s: seq<Order>, clock: Clock, k: nat)
    requires Enterable(base.live, s, side) && base.At(side) == []
    ensures RestoresTo(base, FromProtos(Protos(s)), clock, k, base.With(side, s, Entered(base.live, s)))
  {
    SideRestored(base, side, s, 0, clock, k);
    assert s[0..] == s && s[..0] == [];
    assert base.With(side, [], base.live) == base;
  }

  // ---- Every reachable book can be stored ----

  ghost predicate Ticking(clock: Clock) { forall k :: clock(k) != ZERO_TIME }

  ghost predicate Timed(live: map<nat, Order>) {
    forall id :: id in live ==> live[id].updateTime != ZERO_TIME
  }

  lemma LaterIsStorable(live': map<nat, Order>, live: map<nat, Order>)
    requires StorableMap(live) && AllLater(live', live) && Timed(live')
    ensures StorableMap(live')
  {
  }

  lemma InsertKeepsStorable(b: Book, o: Order, now: int)
    requires AllStorable(b) && Storable(o) && now != ZERO_TIME
    ensures AllStorable(Insert(b, o, now))
  {
  }

  lemma MatchKeepsStorable(b: Book, order: Order, commandSeq: nat, clock: Clock)
    requires Sound(b) && AllStorable(b) && WellSized(order) && Ticking(clock)
    requires order.typ == Limit ==> Storable(Prepared(order))
    ensures Match(b, order, commandSeq, clock).Matched? ==> AllStorable(Match(b, order, commandSeq, clock).book)
  {
    var taker := Prepared(order);
    var side := Opposite(taker.side);
    var r := Sweep(b.At(side), b.live, taker, commandSeq, clock, 0);
    var b' := b.With(side, r.opposite, r.live);
    SweepKeepsCoherent(b, taker, commandSeq, clock, 0);
    SweepStampsTime(b.At(side), b.live, taker, commandSeq, clock, 0);
    LaterIsStorable(r.live, b.live);
    if taker.typ == Limit && r.taker.remaining > 0 {
      InsertKeepsStorable(b', r.taker, clock(r.ticks));
    }
  }

  // Whatever a sweep changes carries a clock reading.
  lemma {:induction false} SweepStampsTime(s: seq<Order>, live: map<nat, Order>, taker: Order,
                                           commandSeq: nat, clock: Clock, ticks: nat)
    requires Ticking(clock)
    requires Timed(live)
    ensures Timed(Sweep(s, live, taker, commandSeq, clock, ticks).live)
    decreases |s|
  {
    if s != [] && taker.remaining != 0 && !StopMatch(taker, s[0].price) {
      SweepUnrolled(s, live, taker, commandSeq, clock, ticks);
      if taker.remaining >= s[0].remaining {
        SweepStampsTime(s[1..], live - {s[0].id}, Reduced(taker, s[0], clock(ticks)), commandSeq, clock, ticks + 1);
      }
    }
  }

  lemma {:induction false} EveryReachedBookIsStorable(cs: seq<Command>, clocks: nat -> Clock)
    requires forall i :: 0 <= i < |cs| && cs[i].NewOrder? ==> WellSized(cs[i].order)
    requires forall i :: 0 <= i < |cs| && cs[i].NewOrder? && cs[i].order.typ == Limit ==>
               Storable(Prepared(cs[i].order))
    requires forall i :: Ticking(clocks(i))
    ensures AllStorable(Reached(cs, clocks))
  {
    if cs != [] {
      var n := |cs| - 1;
      EveryReachedBookIsStorable(cs[..n], clocks);
      EveryReachedBookIsSound(cs[..n], clocks);
      var b := Reached(cs[..n], clocks);
      match cs[n]
      case NewOrder(order) => MatchKeepsStorable(b, order, |cs|, clocks(|cs|));
      case CancelOrder(id) => CancelKeepsSound(b, id);
    }
  }
}
