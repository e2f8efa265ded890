// Price-time priority and the effect of matching, said of prices, times, ids and quantities alone.
module Priority {
  import opened Sorting
  import opened Wrappers
  import opened Orders
  import opened Matcher
  import opened BookInvariant

  // The higher bid or the lower ask, then the earlier time, then the smaller id.
  predicate GoesBefore(a: Order, b: Order) {
    || (if b.side == Buy then a.price > b.price else a.price < b.price)
    || (a.price == b.price && a.updateTime < b.updateTime)
    || (a.price == b.price && a.updateTime == b.updateTime && a.id < b.id)
  }

  ghost predicate ListedByPriceAndAge(s: seq<Order>) {
    forall i, j :: 0 <= i < j < |s| ==> GoesBefore(s[i], s[j]) && !GoesBefore(s[j], s[i])
  }

  // In a coherent book the better price comes first, and the older order at a price.
  lemma ListedInOrder(b: Book)
    requires Coherent(b)
    ensures ListedByPriceAndAge(b.asks) && ListedByPriceAndAge(b.bids)
  {
    SideIsListed(b, Sell);
    SideIsListed(b, Buy);
  }

  lemma SideIsListed(b: Book, side: Side)
    requires Coherent(b)
    ensures ListedByPriceAndAge(b.At(side))
  {
    var s := b.At(side);
    assert ListsSide(s, b.live, side);
    forall i, j | 0 <= i < j < |s| ensures GoesBefore(s[i], s[j]) && !GoesBefore(s[j], s[i]) {
      assert s[i] in s && s[j] in s;
      assert Comparator(side)(s[i], s[j]) < 0;
    }
  }

  // So it is in every book that a series of commands reaches, whatever orders the conversion lets in.
  lemma EveryReachedBookIsListed(cs: seq<Command>, clocks: nat -> Clock)
    requires forall i :: 0 <= i < |cs| && cs[i].NewOrder? ==> cs[i].order.quantity > 0 && cs[i].order.remaining >= 0
    ensures ListedByPriceAndAge(Reached(cs, clocks).asks) && ListedByPriceAndAge(Reached(cs, clocks).bids)
  {
    ReachedIsConsistent(cs, clocks);
    ListedInOrder(Reached(cs, clocks));
  }

  lemma {:induction false} ReachedIsConsistent(cs: seq<Command>, clocks: nat -> Clock)
    requires forall i :: 0 <= i < |cs| && cs[i].NewOrder? ==> cs[i].order.quantity > 0 && cs[i].order.remaining >= 0
    ensures Consistent(Reached(cs, clocks))
  {
    if cs != [] {
      var b := Reached(cs[..|cs| - 1], clocks);
      ReachedIsConsistent(cs[..|cs| - 1], clocks);
      match cs[|cs| - 1]
      case NewOrder(order) => MatchKeepsSound(b, order, |cs|, clocks(|cs|));
      case CancelOrder(id) => if id in b.live { DropKeepsCoherent(b, b.live[id]); }
    }
  }

  // A remainder of zero stands for the whole quantity.
  function Size(o: Order): int { if o.remaining == 0 then o.quantity else o.remaining }

  // The k-th trade is one with a resting order of the other side, at its price and within the
  // limit; every order that goes before the maker has traded all it had before, and no maker
  // trades twice.
  ghost predicate Fair(b: Book, order: Order, n: nat, trades: seq<Trade>, k: nat)
    requires k < |trades|
  {
    var t := trades[k];
    && t.maker in b.live && t.taker == order.id && t.key == TradeKey(n, t.maker, order.id) && t.symbol == order.symbol
    && (var maker := b.live[t.maker];
        && maker.side != order.side && t.price == maker.price && 0 < t.quantity <= maker.remaining
        && (order.typ == Limit ==> if order.side == Buy then t.price <= order.price else t.price >= order.price)
        && (forall id :: id in b.live && b.live[id].side != order.side && GoesBefore(b.live[id], maker) ==>
              UsedUp(b.live[id], trades[..k])))
    && (forall j :: 0 <= j < k ==> trades[j].maker != t.maker)
  }

  ghost predicate UsedUp(o: Order, trades: seq<Trade>) {
    exists j :: 0 <= j < |trades| && trades[j].maker == o.id && trades[j].quantity == o.remaining
  }

  ghost predicate AllFair(b: Book, order: Order, n: nat, trades: seq<Trade>) {
    forall k :: 0 <= k < |trades| ==> Fair(b, order, n, trades, k)
  }

  lemma ServedInOrder(b: Book, order: Order, n: nat, clock: Clock)
    requires Coherent(b) && Positive(b) && order.quantity > 0 && order.remaining >= 0
    requires Match(b, order, n, clock).Matched?
    ensures AllFair(b, order, n, Match(b, order, n, clock).trades)
  {
    var taker, s := Prepared(order), b.At(Opposite(order.side));
    var trades := Match(b, order, n, clock).trades;
    SidePositive(b, Opposite(order.side));
    SideIsListed(b, Opposite(order.side));
    SweepFollowsPriority(s, b.live, taker, n, clock, 0);
    TradesAreLabelled(s, b.live, taker, n, clock, 0);
    forall k | 0 <= k < |trades| ensures Fair(b, order, n, trades, k) {
      MakerIsFirst(b, taker, trades, k);
    }
  }

  // So in every run each order is served in the book that the commands before it reach.
  lemma EveryRunServesInOrder(cs: seq<Command>, clocks: nat -> Clock, i: nat)
    requires forall j :: 0 <= j < |cs| && cs[j].NewOrder? ==> cs[j].order.quantity > 0 && cs[j].order.remaining >= 0
    requires i < |cs| && cs[i].NewOrder? && !cs[i].order.typ.UnknownType?
    ensures var b, order := Reached(cs[..i], clocks), cs[i].order;
            var out := Match(b, order, i + 1, clocks(i + 1));
            && out.Matched? && Reached(cs[..i + 1], clocks) == out.book
            && AllFair(b, order, i + 1, out.trades)
  {
    assert cs[..i + 1][..i] == cs[..i];
    ReachedIsConsistent(cs[..i], clocks);
    ServedInOrder(Reached(cs[..i], clocks), cs[i].order, i + 1, clocks(i + 1));
  }

  lemma {:induction false} TradesAreLabelled(s: seq<Order>, live: map<nat, Order>, taker: Order,
                                             commandSeq: nat, clock: Clock, ticks: nat)
    ensures forall t :: t in Sweep(s, live, taker, commandSeq, clock, ticks).trades ==>
              t.key == TradeKey(commandSeq, t.maker, taker.id) && t.symbol == taker.symbol
    decreases |s|
  {
    if s != [] && taker.remaining != 0 && !StopMatch(taker, s[0].price) {
      SweepUnrolled(s, live, taker, commandSeq, clock, ticks);
      if taker.remaining >= s[0].remaining {
        var taker' := Reduced(taker, s[0], clock(ticks));
        TradesAreLabelled(s[1..], live - {s[0].id}, taker', commandSeq, clock, ticks + 1);
      }
    }
  }

  lemma AheadIsUsedUp(s: seq<Order>, n: nat, t: int, takerId: nat, trades: seq<Trade>, j: nat, k: nat)
    requires AllPositive(s) && ByPriority(s, n, t, takerId, trades) && j < k < |trades|
    ensures trades[j].maker == s[j].id && trades[j].quantity == s[j].remaining
  {
    AheadGrows(s, j + 1, k);
    assert Share(s, k, t) > 0;
  }

  lemma PlaceOf(b: Book, side: Side, o: Order) returns (i: nat)
    requires Coherent(b) && Holds(b.live, o) && o.side == side
    ensures i < |b.At(side)| && b.At(side)[i] == o
  {
    assert ListsSide(b.At(side), b.live, side);
    i :| 0 <= i < |b.At(side)| && b.At(side)[i] == o;
  }

  lemma AtPlace(b: Book, side: Side, i: nat)
    requires Coherent(b) && i < |b.At(side)|
    ensures Holds(b.live, b.At(side)[i]) && b.At(side)[i].side == side
  {
    assert ListsSide(b.At(side), b.live, side);
    assert b.At(side)[i] in b.At(side);
  }

  lemma MakerIsFirst(b: Book, taker: Order, trades: seq<Trade>, k: nat)
    requires Coherent(b) && ListedByPriceAndAge(b.At(Opposite(taker.side))) && k < |trades|
    requires AllPositive(b.At(Opposite(taker.side)))
    requires var s := b.At(Opposite(taker.side));
             ByPriority(s, Acceptable(s, taker), taker.remaining, taker.id, trades)
    ensures var t := trades[k];
            && t.maker in b.live && b.live[t.maker].side != taker.side && t.price == b.live[t.maker].price
            && t.quantity <= b.live[t.maker].remaining
            && (forall id | id in b.live && b.live[id].side != taker.side && GoesBefore(b.live[id], b.live[t.maker]) ::
                  UsedUp(b.live[id], trades[..k]))
            && (forall j :: 0 <= j < k ==> trades[j].maker != t.maker)
  {
    var side := Opposite(taker.side);
    AtPlace(b, side, k);
    forall id | id in b.live && b.live[id].side != taker.side && GoesBefore(b.live[id], b.live[trades[k].maker])
      ensures UsedUp(b.live[id], trades[..k])
    {
      var s := b.At(side);
      var j := PlaceOf(b, side, b.live[id]);
      EarlierIsUsedUp(s, Acceptable(s, taker), taker.remaining, taker.id, trades, j, k);
    }
    forall j | 0 <= j < k ensures trades[j].maker != trades[k].maker {
      AtPlace(b, side, j);
    }
  }

  lemma InFront(s: seq<Order>, j: nat, k: nat)
    requires ListedByPriceAndAge(s) && j < |s| && k < |s|
    ensures GoesBefore(s[j], s[k]) <==> j < k
  {
  }

  lemma EarlierIsUsedUp(s: seq<Order>, n: nat, t: int, takerId: nat, trades: seq<Trade>, j: nat, k: nat)
    requires AllPositive(s) && ListedByPriceAndAge(s) && ByPriority(s, n, t, takerId, trades)
    requires k < |trades| && j < |s| && GoesBefore(s[j], s[k])
    ensures UsedUp(s[j], trades[..k])
  {
    InFront(s, j, k);
    AheadIsUsedUp(s, n, t, takerId, trades, j, k);
    assert trades[..k][j] == trades[j];
  }

  // An order that is not filled leaves nothing behind that it could have traded with.
  lemma NothingAcceptableIsLeft(b: Book, order: Order, n: nat, clock: Clock)
    requires Coherent(b) && Positive(b) && order.quantity > 0 && order.remaining >= 0
    requires Match(b, order, n, clock).Matched?
    ensures var r := Match(b, order, n, clock);
            && TradedQuantity(r.trades) <= Size(order)
            && (TradedQuantity(r.trades) < Size(order) ==>
                  forall id :: id in r.book.live && r.book.live[id].side != order.side ==>
                    && order.typ == Limit
                    && if order.side == Buy then r.book.live[id].price > order.price
                       else r.book.live[id].price < order.price)
  {
    var taker, side := Prepared(order), Opposite(order.side);
    var s := b.At(side);
    var r := Sweep(s, b.live, taker, n, clock, 0);
    SidePositive(b, side);
    SweepFollowsPriority(s, b.live, taker, n, clock, 0);
    OthersAreTooDear(b, taker, n, clock);
    var b' := b.With(side, r.opposite, r.live);
    BookAfter(b, order, n, clock);
    OnlyItselfIsNew(b', r.taker, clock(r.ticks));
    SweepKeepsCoherent(b, taker, n, clock, 0);
    assert r.taker.side == order.side && b'.live == r.live;
  }

  // The book after a match: that of the sweep, with what is left of a limit order.
  lemma BookAfter(b: Book, order: Order, n: nat, clock: Clock)
    requires Match(b, order, n, clock).Matched?
    ensures var side := Opposite(order.side);
            var r := Sweep(b.At(side), b.live, Prepared(order), n, clock, 0);
            var b' := b.With(side, r.opposite, r.live);
            && Match(b, order, n, clock).trades == r.trades
            && Match(b, order, n, clock).book ==
               if order.typ == Limit && r.taker.remaining > 0 then Insert(b', r.taker, clock(r.ticks)) else b'
  {
  }

  lemma OnlyItselfIsNew(b: Book, o: Order, now: int)
    ensures var after := Insert(b, o, now).live;
            forall id :: id in after && after[id].side != o.side ==> id in b.live && b.live[id] == after[id]
  {
  }

  lemma OthersAreTooDear(b: Book, taker: Order, n: nat, clock: Clock)
    requires Coherent(b) && Positive(b) && taker.remaining >= 0
    ensures var r := Sweep(b.At(Opposite(taker.side)), b.live, taker, n, clock, 0);
            r.taker.remaining > 0 ==>
              forall id :: id in r.live && r.live[id].side != taker.side ==> StopMatch(taker, r.live[id].price)
  {
    var side := Opposite(taker.side);
    var r := Sweep(b.At(side), b.live, taker, n, clock, 0);
    SidePositive(b, side);
    assert ListsSide(b.At(side), b.live, side);
    SweepExhausts(b.At(side), b.live, taker, n, clock, 0);
    SweepKeepsCoherent(b, taker, n, clock, 0);
    var b' := b.With(side, r.opposite, r.live);
    forall id | id in r.live && r.live[id].side != taker.side && r.taker.remaining > 0
      ensures StopMatch(taker, r.live[id].price)
    {
      var i := PlaceOf(b', side, r.live[id]);
      assert r.opposite[i] in r.opposite;
    }
  }

  // What the trades take from an order.
  function TakenFrom(id: nat, trades: seq<Trade>): int {
    if trades == [] then 0
    else (if trades[0].maker == id then trades[0].quantity else 0) + TakenFrom(id, trades[1..])
  }

  // Every order loses exactly what it traded, and is gone when that was all.
  ghost predicate Reduces(live: map<nat, Order>, trades: seq<Trade>, after: map<nat, Order>) {
    && (forall id :: id in after <==> id in live && TakenFrom(id, trades) < live[id].remaining)
    && (forall id :: id in after ==>
          && after[id] == live[id].(remaining := after[id].remaining, updateTime := after[id].updateTime)
          && after[id].remaining == live[id].remaining - TakenFrom(id, trades)
          && (TakenFrom(id, trades) == 0 ==> after[id] == live[id]))
  }

  lemma {:induction false} SweepReduces(b: Book, taker: Order, commandSeq: nat, clock: Clock, ticks: nat)
    requires Coherent(b) && Positive(b) && taker.remaining >= 0
    ensures var r := Sweep(b.At(Opposite(taker.side)), b.live, taker, commandSeq, clock, ticks);
            Reduces(b.live, r.trades, r.live)
    decreases |b.At(Opposite(taker.side))|
  {
    var side := Opposite(taker.side);
    var s := b.At(side);
    if s != [] && taker.remaining != 0 && !StopMatch(taker, s[0].price) {
      SweepUnrolled(s, b.live, taker, commandSeq, clock, ticks);
      FrontOf(b, side);
      if taker.remaining >= s[0].remaining {
        var taker' := Reduced(taker, s[0], clock(ticks));
        var b1 := b.With(side, s[1..], b.live - {s[0].id});
        SweepReduces(b1, taker', commandSeq, clock, ticks + 1);
        TradesArePositive(b1, taker', commandSeq, clock, ticks + 1);
        FirstIsUsedUp(b.live, TradeOf(taker, s[0], s[0].remaining, commandSeq, clock(ticks)),
                      Sweep(s[1..], b1.live, taker', commandSeq, clock, ticks + 1));
      } else {
        StopReduces(b.live, taker, s[0], StoppedAt(s, b.live, taker, commandSeq, clock, ticks));
      }
    }
  }

  lemma FrontOf(b: Book, side: Side)
    requires Coherent(b) && Positive(b) && b.At(side) != []
    ensures var o := b.At(side)[0];
            var b1 := b.With(side, b.At(side)[1..], b.live - {o.id});
            && Holds(b.live, o) && o.remaining > 0 && Coherent(b1) && Positive(b1)
            && b1.At(side) == b.At(side)[1..] && b1.live == b.live - {o.id}
  {
    MakerLeaves(b, side);
  }

  lemma TradesArePositive(b: Book, taker: Order, n: nat, clock: Clock, ticks: nat)
    requires Coherent(b) && Positive(b) && taker.remaining >= 0
    ensures var r := Sweep(b.At(Opposite(taker.side)), b.live, taker, n, clock, ticks);
            && (forall i :: 0 <= i < |r.trades| ==> r.trades[i].quantity > 0)
            && r.taker.remaining == taker.remaining - TradedQuantity(r.trades)
  {
    SidePositive(b, Opposite(taker.side));
    SweepFollowsPriority(b.At(Opposite(taker.side)), b.live, taker, n, clock, ticks);
  }

  lemma StopReduces(live: map<nat, Order>, taker: Order, maker: Order, r: Swept)
    requires Holds(live, maker) && 0 < taker.remaining < maker.remaining
    requires forall id :: id in live ==> live[id].remaining > 0
    requires |r.trades| == 1 && r.trades[0].maker == maker.id && r.trades[0].quantity == taker.remaining
    requires maker.id in r.live && r.live == live[maker.id := r.live[maker.id]]
    requires r.live[maker.id] == maker.(remaining := maker.remaining - taker.remaining,
                                        updateTime := r.live[maker.id].updateTime)
    ensures Reduces(live, r.trades, r.live)
  {
    forall id ensures TakenFrom(id, r.trades) == if id == maker.id then taker.remaining else 0 {
      assert r.trades[1..] == [];
    }
  }

  // The time that decides the place of what is left of an order: that of its last trade.
  function Stamp(order: Order, trades: seq<Trade>): int {
    if trades == [] then order.updateTime else trades[|trades| - 1].createTime
  }

  lemma {:induction false} LastTradeStamps(s: seq<Order>, live: map<nat, Order>, taker: Order,
                                           commandSeq: nat, clock: Clock, ticks: nat)
    ensures var r := Sweep(s, live, taker, commandSeq, clock, ticks);
            r.taker.updateTime == Stamp(taker, r.trades)
    decreases |s|
  {
    if s != [] && taker.remaining != 0 && !StopMatch(taker, s[0].price) {
      SweepUnrolled(s, live, taker, commandSeq, clock, ticks);
      if taker.remaining >= s[0].remaining {
        LastTradeStamps(s[1..], live - {s[0].id}, Reduced(taker, s[0], clock(ticks)), commandSeq, clock, ticks + 1);
      }
    }
  }

  // What is left of a limit order rests under its id, and keeps all but its remainder and its time.
  ghost predicate RestsAs(order: Order, left: int, trades: seq<Trade>, after: map<nat, Order>) {
    && (order.id in after <==> order.typ == Limit && left > 0)
    && (order.id in after ==>
          && after[order.id] == order.(remaining := left, updateTime := after[order.id].updateTime)
          && (Stamp(order, trades) != ZERO_TIME ==> after[order.id].updateTime == Stamp(order, trades)))
  }

  // Matching an order with a new id: every order loses exactly what it traded, and what is left of
  // a limit order rests.
  lemma MatchReduces(b: Book, order: Order, n: nat, clock: Clock)
    requires Coherent(b) && Positive(b) && order.quantity > 0 && order.remaining >= 0 && order.id !in b.live
    requires Match(b, order, n, clock).Matched?
    ensures var r := Match(b, order, n, clock);
            && Reduces(b.live, r.trades, r.book.live - {order.id})
            && RestsAs(order, Size(order) - TradedQuantity(r.trades), r.trades, r.book.live)
  {
    var side := Opposite(order.side);
    var r := Sweep(b.At(side), b.live, Prepared(order), n, clock, 0);
    SweptIs(b, Prepared(order), n, clock);
    BookAfter(b, order, n, clock);
    RestIs(order, b.With(side, r.opposite, r.live), r.taker, clock(r.ticks), r.trades);
  }

  lemma SweptIs(b: Book, taker: Order, n: nat, clock: Clock)
    requires Coherent(b) && Positive(b) && taker.remaining >= 0
    ensures var r := Sweep(b.At(Opposite(taker.side)), b.live, taker, n, clock, 0);
            && Reduces(b.live, r.trades, r.live) && r.live.Keys <= b.live.Keys
            && r.taker == taker.(remaining := taker.remaining - TradedQuantity(r.trades),
                                 updateTime := Stamp(taker, r.trades))
            && r.taker.remaining >= 0
  {
    TradesArePositive(b, taker, n, clock, 0);
    SweepReduces(b, taker, n, clock, 0);
    SweepKeepsCoherent(b, taker, n, clock, 0);
    LastTradeStamps(b.At(Opposite(taker.side)), b.live, taker, n, clock, 0);
  }

  lemma RestIs(order: Order, b: Book, taker: Order, now: int, trades: seq<Trade>)
    requires order.id !in b.live && taker.remaining >= 0
    requires taker == order.(remaining := Size(order) - TradedQuantity(trades), updateTime := Stamp(order, trades))
    ensures var after := if order.typ == Limit && taker.remaining > 0 then Insert(b, taker, now).live else b.live;
            RestsAs(order, taker.remaining, trades, after) && after - {order.id} == b.live
  {
    if order.typ == Limit && taker.remaining > 0 { NewRests(b, taker, now); }
    assert b.live - {order.id} == b.live;
  }

  lemma NewRests(b: Book, o: Order, now: int)
    requires o.id !in b.live
    ensures var after := Insert(b, o, now).live;
            && o.id in after && after - {o.id} == b.live
            && after[o.id] == o.(updateTime := after[o.id].updateTime)
            && (o.updateTime != ZERO_TIME ==> after[o.id] == o)
  {
    var o' := Insert(b, o, now).live[o.id];
    assert Insert(b, o, now).live == b.live[o.id := o'];
    assert b.live[o.id := o'] - {o.id} == b.live;
  }

  lemma FirstIsUsedUp(live: map<nat, Order>, first: Trade, rest: Swept)
    requires first.maker in live && first.quantity == live[first.maker].remaining > 0
    requires Reduces(live - {first.maker}, rest.trades, rest.live)
    requires forall i :: 0 <= i < |rest.trades| ==> rest.trades[i].quantity > 0
    ensures Reduces(live, [first] + rest.trades, rest.live)
  {
    assert ([first] + rest.trades)[1..] == rest.trades;
    forall id ensures TakenFrom(id, [first] + rest.trades) ==
                      (if first.maker == id then first.quantity else 0) + TakenFrom(id, rest.trades) {}
    NothingIsGiven(first.maker, rest.trades);
  }

  lemma {:induction false} NothingIsGiven(id: nat, trades: seq<Trade>)
    requires forall i :: 0 <= i < |trades| ==> trades[i].quantity > 0
    ensures TakenFrom(id, trades) >= 0
  {
    if trades != [] { NothingIsGiven(id, trades[1..]); }
  }
}
