// The in-memory order book: two skip lists and a map of live orders, changed in place.  Each
// method is proved to take the book's value where the functions of Matcher say.
module OrderBooks {
  import opened Sorting
  import opened Wrappers
  import opened SkipLists
  import opened Orders
  import M = Matcher
  import C = Convert
  import S = Snapshots

  datatype Result<+T> = Success(value: T) | Failure(error: string)

  ghost predicate InBook(z: int) { true }

  class OrderBook {
    var symbol: string
    var asks: SkipList<Order>
    var bids: SkipList<Order>
    var orderMap: map<nat, Order>
    ghost var Repr: set<object>

    ghost predicate WellFormed()
      reads this`asks, this`bids, this`Repr, asks, asks.Repr, bids, bids.Repr
    {
      && asks in Repr && bids in Repr
      && asks.Repr <= Repr && bids.Repr <= Repr
      && this !in asks.Repr && this !in bids.Repr && asks.Repr !! bids.Repr
      && asks.Valid() && asks.compare == CompareAsk
      && bids.Valid() && bids.compare == CompareBid
    }

    // As in SkipList, the invariant opens up only where the marker is asserted.
    ghost predicate Valid()
      reads this`asks, this`bids, this`Repr, asks, asks.Repr, bids, bids.Repr
      ensures Valid() ==> this in Repr
    {
      && this in Repr
      && (forall z {:trigger InBook(z)} :: InBook(z) ==> WellFormed())
    }

    ghost function Value(): M.Book
      reads this, asks, bids
    {
      M.Book(asks.contents, bids.contents, orderMap)
    }

    constructor (symbol: string)
      ensures Valid() && fresh(Repr)
      ensures Value() == M.EMPTY_BOOK && this.symbol == symbol
    {
      ComparatorsAreThreeWay();
      this.symbol := symbol;
      orderMap := map[];
      var a := new SkipList<Order>(CompareAsk);
      var b := new SkipList<Order>(CompareBid);
      asks, bids := a, b;
      Repr := {this} + a.Repr + b.Repr;
    }

    method SiteBook(side: Side) returns (list: SkipList<Order>)
      requires Valid()
      ensures list == (if side == Buy then bids else asks) && list.Valid()
      ensures list.contents == Value().At(side) && list.compare == Comparator(side)
    {
      assert InBook(0);
      list := if side == Buy then bids else asks;
    }

    method BestAsk() returns (price: Option<int>)
      requires Valid()
      ensures price == if asks.contents == [] then None else Some(asks.contents[0].price)
    {
      assert InBook(0);
      var front := asks.Front();
      price := if front.Some? then Some(front.value.price) else None;
    }

    method BestBid() returns (price: Option<int>)
      requires Valid()
      ensures price == if bids.contents == [] then None else Some(bids.contents[0].price)
    {
      assert InBook(0);
      var front := bids.Front();
      price := if front.Some? then Some(front.value.price) else None;
    }

    method HasActiveOrder(id: nat) returns (b: bool)
      requires Valid()
      ensures b == (id in orderMap && M.Resting(Value(), orderMap[id]))
      ensures b == (id in orderMap && var o := orderMap[id];
                                      Find(Comparator(o.side), Value().At(o.side), o).Some?)
    {
      if id !in orderMap {
        return false;
      }
      var list := SiteBook(orderMap[id].side);
      b := list.Contains(orderMap[id]);
    }

    // One list changes, the rest of the book does not.
    method PutOn(o: Order)
      requires this in Repr && WellFormed()
      modifies Repr
      ensures this in Repr && WellFormed() && fresh(Repr - old(Repr))
      ensures Value() == old(Value().With(o.side, Put(Comparator(o.side), Value().At(o.side), o), orderMap))
    {
      if o.side == Buy {
        bids.Insert(o);
        Repr := Repr + bids.Repr;
      } else {
        asks.Insert(o);
        Repr := Repr + asks.Repr;
      }
    }

    method TakeOff(o: Order)
      requires this in Repr && WellFormed()
      modifies Repr
      ensures this in Repr && WellFormed() && fresh(Repr - old(Repr))
      ensures Value() == old(Value().With(o.side, Remove(Comparator(o.side), Value().At(o.side), o), orderMap))
    {
      if o.side == Buy {
        DeleteFrom(bids, o);
        Repr := Repr + bids.Repr;
      } else {
        DeleteFrom(asks, o);
        Repr := Repr + asks.Repr;
      }
    }

    static method DeleteFrom(list: SkipList<Order>, o: Order)
      requires list.Valid()
      modifies list.Repr
      ensures list.Valid() && fresh(list.Repr - old(list.Repr))
      ensures list.contents == Remove(list.compare, old(list.contents), o)
    {
      var found := list.Delete(o);
    }

    method InsertOrder(order: Order, now: int)
      requires Valid()
      modifies Repr
      ensures Valid() && fresh(Repr - old(Repr))
      ensures Value() == M.Insert(old(Value()), order, now)
    {
      assert InBook(0);
      var o := if order.updateTime == ZERO_TIME then order.(updateTime := now) else order;
      if o.id in orderMap {
        var resting := HasActiveOrder(o.id);
        if resting {
          return;
        }
      }
      orderMap := orderMap[o.id := o];
      PutOn(o);
    }

    method RemoveOrder(id: nat)
      requires Valid()
      modifies Repr
      ensures Valid() && fresh(Repr - old(Repr))
      ensures Value() == M.Cancel(old(Value()), id)
    {
      assert InBook(0);
      if id !in orderMap {
        return;
      }
      TakeOff(orderMap[id]);
      orderMap := orderMap - {id};
    }

    method Match(order: Order, commandSeq: nat, clock: M.Clock) returns (r: Result<seq<Trade>>)
      requires Valid()
      modifies Repr
      ensures Valid() && fresh(Repr - old(Repr))
      ensures match M.Match(old(Value()), order, commandSeq, clock)
              case Matched(b, trades) => r == Success(trades) && Value() == b
              case UnsupportedType => r.Failure? && Value() == old(Value())
    {
      var taker := M.Prepared(order);
      match taker.typ
      case Limit =>
        r := MatchLimit(taker, commandSeq, clock);
      case Market =>
        r := MatchMarket(taker, commandSeq, clock);
      case UnknownType(_) =>
        r := Failure("unsupported order type");
    }

    method MatchLimit(order: Order, commandSeq: nat, clock: M.Clock) returns (r: Result<seq<Trade>>)
      requires Valid() && order == M.Prepared(order) && order.typ == Limit
      modifies Repr
      ensures Valid() && fresh(Repr - old(Repr))
      ensures var out := M.Match(old(Value()), order, commandSeq, clock);
              r == Success(out.trades) && Value() == out.book
    {
      var trades, taker, ticks := MatchAgainstOpposite(order, commandSeq, clock);
      if taker.remaining > 0 {
        InsertOrder(taker, clock(ticks));
      }
      r := Success(trades);
    }

    method MatchMarket(order: Order, commandSeq: nat, clock: M.Clock) returns (r: Result<seq<Trade>>)
      requires Valid() && order == M.Prepared(order) && order.typ == Market
      modifies Repr
      ensures Valid() && fresh(Repr - old(Repr))
      ensures var out := M.Match(old(Value()), order, commandSeq, clock);
              r == Success(out.trades) && Value() == out.book
    {
      var trades, taker, ticks := MatchAgainstOpposite(order, commandSeq, clock);
      r := Success(trades);
    }

    method MatchAgainstOpposite(order: Order, commandSeq: nat, clock: M.Clock)
      returns (trades: seq<Trade>, taker: Order, ticks: nat)
      requires Valid()
      modifies Repr
      ensures Valid() && fresh(Repr - old(Repr))
      ensures var side := Opposite(order.side);
              var swept := M.Sweep(old(Value()).At(side), old(orderMap), order, commandSeq, clock, 0);
              && Value() == old(Value()).With(side, swept.opposite, swept.live)
              && (trades, taker, ticks) == (swept.trades, swept.taker, swept.ticks)
    {
      assert InBook(0);
      if order.side == Buy {
        ghost var other := bids.contents;
        trades, taker, ticks := MatchAgainstBook(asks, order, commandSeq, clock);
        assert bids.Valid() && bids.contents == other;
        Repr := Repr + asks.Repr;
      } else {
        ghost var other := asks.contents;
        trades, taker, ticks := MatchAgainstBook(bids, order, commandSeq, clock);
        assert asks.Valid() && asks.contents == other;
        Repr := Repr + bids.Repr;
      }
    }

    // The loop holds an iterator into the list while it deletes the maker it has just passed
    // and puts a partly filled maker back in.
    method MatchAgainstBook(book: SkipList<Order>, order: Order, commandSeq: nat, clock: M.Clock)
      returns (trades: seq<Trade>, taker: Order, ticks: nat)
      requires book.Valid() && this !in book.Repr
      requires book.compare == Comparator(Opposite(order.side))
      modifies this`orderMap, book.Repr
      ensures book.Valid() && fresh(book.Repr - old(book.Repr))
      ensures M.Swept(book.contents, orderMap, taker, trades, ticks) ==
              M.Sweep(old(book.contents), old(orderMap), order, commandSeq, clock, 0)
    {
      ghost var whole := M.Sweep(book.contents, orderMap, order, commandSeq, clock, 0);
      trades, taker, ticks := [], order, 0;
      var iter := new SkipIterator(book);
      ghost var k: nat := 1;
      assert whole == After([], whole);
      var value := iter.MoveNext(book, k);
      k := if value.Some? then k + 1 else k;
      while value.Some?
        invariant book.Valid() && fresh(book.Repr - old(book.Repr)) && this !in book.Repr && iter !in book.Repr
        invariant 0 < k <= |book.nodes| && iter.current == At(book.nodes, k)
        invariant taker.side == order.side
        invariant taker.remaining != 0 ==>
                    value == if book.contents == [] then None else Some(book.contents[0])
        invariant taker.remaining != 0 && value.Some? ==> k == 2
        invariant whole == After(trades, M.Sweep(book.contents, orderMap, taker, commandSeq, clock, ticks))
        decreases if taker.remaining == 0 || value.None? then 0 else 1 + |book.contents|
      {
        if taker.remaining == 0 {
          break;
        }
        var maker := value.value;
        if M.StopMatch(taker, maker.price) {
          break;
        }
        ghost var before := M.Sweep(book.contents, orderMap, taker, commandSeq, clock, ticks);
        var trade;
        ghost var soFar := trades;
        k, trade, taker, ticks := Fill(book, iter, maker, taker, commandSeq, clock, ticks);
        trades := trades + [trade];
        AfterStep(whole, soFar, before, trade, M.Sweep(book.contents, orderMap, taker, commandSeq, clock, ticks));
        value := iter.MoveNext(book, k);
        k := if value.Some? then k + 1 else k;
      }
      assert trades + [] == trades;
    }

    // One fill: the maker at the front leaves the list, and comes back if it is not used up.
    // The iterator already stands on the next node; k is where that node is afterwards.
    method Fill(book: SkipList<Order>, iter: SkipIterator<Order>, first: Order, order: Order,
                commandSeq: nat, clock: M.Clock, before: nat)
      returns (ghost k: nat, trade: Trade, taker: Order, ticks: nat)
      requires book.Valid() && this !in book.Repr && iter !in book.Repr
      requires book.compare == Comparator(Opposite(order.side))
      requires book.contents != [] && first == book.contents[0] && iter.current == At(book.nodes, 2)
      requires order.remaining != 0 && !M.StopMatch(order, first.price)
      modifies this`orderMap, book.Repr
      ensures book.Valid() && fresh(book.Repr - old(book.Repr))
      ensures 0 < k <= |book.nodes| && iter.current == At(book.nodes, k)
      ensures taker.side == order.side
      ensures taker.remaining != 0 ==> k == 1 && |book.contents| < |old(book.contents)|
      ensures M.Sweep(old(book.contents), old(orderMap), order, commandSeq, clock, before) ==
              After([trade], M.Sweep(book.contents, orderMap, taker, commandSeq, clock, ticks))
    {
      var maker, matchQty := first, Min(order.remaining, first.remaining);
      ghost var s, live := book.contents, orderMap;
      maker := maker.(remaining := maker.remaining - matchQty);
      k, ticks := 1, before;
      DeleteFront(book, Opposite(order.side), maker);
      if maker.remaining == 0 {
        orderMap := orderMap - {maker.id};
      } else {
        maker := maker.(updateTime := clock(ticks));
        ticks := ticks + 1;
        k := Reinsert(book, iter, maker);
        orderMap := orderMap[maker.id := maker];
      }
      FillIsSweepStep(s, live, order, matchQty, commandSeq, clock, before, book.contents, orderMap, maker, ticks);
      taker := order.(remaining := order.remaining - matchQty, updateTime := clock(ticks));
      ticks := ticks + 1;
      trade := M.TradeOf(order, maker, matchQty, commandSeq, taker.updateTime);
    }

    method DeleteFront(book: SkipList<Order>, side: Side, maker: Order)
      requires book.Valid() && book.compare == Comparator(side)
      requires book.contents != [] && maker == book.contents[0].(remaining := maker.remaining)
      modifies book.Repr
      ensures book.Valid() && fresh(book.Repr - old(book.Repr))
      ensures book.contents == old(book.contents)[1..]
      ensures book.nodes == old(book.nodes)[..1] + old(book.nodes)[2..]
    {
      SameKey(side, book.contents[0], maker);
      var found := book.Delete(maker);
    }

    method Reinsert(book: SkipList<Order>, iter: SkipIterator<Order>, maker: Order) returns (ghost k: nat)
      requires book.Valid() && iter !in book.Repr && iter.current == At(book.nodes, 1)
      modifies book.Repr
      ensures book.Valid() && fresh(book.Repr - old(book.Repr))
      ensures book.contents == Put(book.compare, old(book.contents), maker)
      ensures 0 < k <= |book.nodes| && iter.current == At(book.nodes, k)
    {
      if iter.current != null { book.NotHead(1); }
      book.Insert(maker);
      k := if iter.current == null then |book.nodes| else IndexOf(book.nodes, iter.current);
    }

    // ---- Snapshots ----

    method ExportLevels(side: Side) returns (levels: seq<S.PriceLevel>)
      requires Valid()
      ensures levels == S.Exported(Value().At(side))
    {
      var book := SiteBook(side);
      levels := ExportList(book);
    }

    static method ExportList(book: SkipList<Order>) returns (levels: seq<S.PriceLevel>)
      requires book.Valid()
      ensures levels == S.Exported(book.contents)
    {
      ghost var s := book.contents;
      levels := [];
      var current: Option<S.PriceLevel> := None;
      var iter: SkipIterator<Order> := new SkipIterator(book);
      ghost var k: nat := 0;
      var value := iter.MoveNext(book, 1);
      while value.Some?
        invariant iter !in book.Repr && k <= |s| && value == (if k < |s| then Some(s[k]) else None)
        invariant iter.current == At(book.nodes, if k < |s| then k + 2 else k + 1)
        invariant WithOpen(levels, current) == S.Exported(s[..k])
        invariant current == None ==> levels == []
        decreases |s| - k
      {
        var o := value.value;
        S.ExportedNext(s, k);
        OpenStep(levels, current, o);
        if current == None || current.value.price != o.price {
          if current.Some? { levels := levels + [current.value]; }
          current := Some(S.PriceLevel(o.price, [C.OrderToProto(o)]));
        } else {
          current := Some(current.value.(orders := current.value.orders + [C.OrderToProto(o)]));
        }
        k := k + 1;
        value := iter.MoveNext(book, k + 1);
      }
      assert s[..k] == s;
      if current.Some? { levels := levels + [current.value]; }
    }

    method ExportSnapshot(shardId: string, seqId: nat, ts: int) returns (snap: S.Snapshot)
      requires Valid()
      ensures snap.bids == S.Exported(Value().bids) && snap.asks == S.Exported(Value().asks)
      ensures snap.orderMap.Keys == orderMap.Keys
      ensures forall id :: id in orderMap ==> snap.orderMap[id] == C.OrderToProto(orderMap[id])
      ensures snap.shardId == shardId && snap.symbol == symbol && snap.seqId == seqId && snap.timestamp == ts
    {
      var active := map id | id in orderMap :: C.OrderToProto(orderMap[id]);
      var bidLevels := ExportLevels(Buy);
      var askLevels := ExportLevels(Sell);
      snap := S.Snapshot(shardId, symbol, seqId, ts, bidLevels, askLevels, active);
    }

    method RestoreLevels(levels: seq<S.PriceLevel>, clock: M.Clock, from: nat,
                         ghost enter: (M.Book, Order, nat) -> M.Book) returns (r: C.Converted<nat>)
      requires Valid() && S.IsEntering(enter, clock)
      modifies Repr
      ensures Valid() && fresh(Repr - old(Repr))
      ensures var b := S.EnterAll(old(Value()), S.FromProtos(S.Flatten(levels)), enter, from);
              if b.Done? then r == C.Done(from + |S.Flatten(levels)|) && Value() == b.value
              else r == C.Rejected(b.error)
    {
      var k := from;
      ghost var was := Value();
      for i := 0 to |levels|
        invariant Valid() && fresh(Repr - old(Repr))
        invariant k == from + |S.Flatten(levels[..i])|
        invariant S.EnterAll(was, S.FromProtos(S.Flatten(levels[..i])), enter, from) == C.Done(Value())
      {
        S.LevelEntered(levels, i, was, Value(), enter, from);
        ghost var now := Value();
        var done := RestoreOrders(levels[i].orders, clock, k, enter);
        assert done.Done? ==> S.EnterAll(now, S.FromProtos(levels[i].orders), enter, k) == C.Done(Value());
        if done.Rejected? {
          return C.Rejected(done.error);
        }
        k := done.value;
      }
      assert levels[..|levels|] == levels;
      r := C.Done(k);
    }

    method RestoreOrders(orders: seq<C.PbOrder>, clock: M.Clock, from: nat,
                         ghost enter: (M.Book, Order, nat) -> M.Book) returns (r: C.Converted<nat>)
      requires Valid() && S.IsEntering(enter, clock)
      modifies Repr
      ensures Valid() && fresh(Repr - old(Repr))
      ensures var b := S.EnterAll(old(Value()), S.FromProtos(orders), enter, from);
              if b.Done? then r == C.Done(from + |orders|) && Value() == b.value else r == C.Rejected(b.error)
    {
      ghost var whole := S.EnterAll(Value(), S.FromProtos(orders), enter, from);
      assert orders[0..] == orders;
      for i := 0 to |orders|
        invariant Valid() && fresh(Repr - old(Repr))
        invariant whole == S.EnterAll(Value(), S.FromProtos(orders[i..]), enter, from + i)
      {
        var converted := C.OrderFromProto(orders[i]);
        S.OrderStep(orders, i, Value(), enter, from + i);
        if converted.Rejected? {
          return C.Rejected(converted.error);
        }
        assert S.Step(Value(), converted.value, from + i);
        InsertOrder(converted.value, clock(from + i));
      }
      r := C.Done(from + |orders|);
    }

    // The book is replaced by what the snapshot holds, and checked.
    method RestoreFromSnapshot(snap: Option<S.Snapshot>, clock: M.Clock) returns (r: Option<S.SnapshotError>)
      requires Valid()
      modifies Repr
      ensures Valid() && fresh(Repr - old(Repr))
      ensures snap == None ==> r == Some(S.NilSnapshot) && Value() == old(Value())
      ensures snap.Some? ==>
                var orders := S.FromProtos(S.Flatten(snap.value.bids)) + S.FromProtos(S.Flatten(snap.value.asks));
                var b := S.Restored(M.EMPTY_BOOK, orders, clock, 0);
                if b.Rejected? then r == Some(S.BadOrder(b.error))
                else Value() == b.value && (r == if S.SpreadOk(b.value) then None else Some(S.SpreadViolation))
    {
      if snap == None {
        return Some(S.NilSnapshot);
      }
      Reset(snap.value.symbol);
      var done := RestoreSides(snap.value, clock, S.Entering(clock));
      if done.Rejected? {
        return Some(S.BadOrder(done.error));
      }
      r := Validate();
    }

    method RestoreSides(snap: S.Snapshot, clock: M.Clock, ghost enter: (M.Book, Order, nat) -> M.Book)
      returns (r: C.Converted<nat>)
      requires Valid() && S.IsEntering(enter, clock)
      modifies Repr
      ensures Valid() && fresh(Repr - old(Repr))
      ensures var b := S.EnterAll(old(Value()),
                                  S.FromProtos(S.Flatten(snap.bids)) + S.FromProtos(S.Flatten(snap.asks)), enter, 0);
              if b.Done? then r.Done? && Value() == b.value else r == C.Rejected(b.error)
    {
      S.EnterInTwo(Value(), S.FromProtos(S.Flatten(snap.bids)), S.FromProtos(S.Flatten(snap.asks)), enter, 0);
      r := RestoreLevels(snap.bids, clock, 0, enter);
      if r.Done? {
        r := RestoreLevels(snap.asks, clock, r.value, enter);
      }
    }

    method Reset(symbol: string)
      modifies this
      ensures Valid() && fresh(Repr - {this}) && Value() == M.EMPTY_BOOK && this.symbol == symbol
    {
      ComparatorsAreThreeWay();
      var a := new SkipList<Order>(CompareAsk);
      var b := new SkipList<Order>(CompareBid);
      this.symbol, asks, bids, orderMap := symbol, a, b, map[];
      Repr := {this} + a.Repr + b.Repr;
    }

    method Validate() returns (r: Option<S.SnapshotError>)
      requires Valid()
      ensures var b := Value();
              r == if b.bids == [] || b.asks == [] || b.bids[0].price < b.asks[0].price then None
                   else Some(S.SpreadViolation)
    {
      var bid := BestBid();
      var ask := BestAsk();
      if bid.Some? && ask.Some? && !(bid.value < ask.value) {
        return Some(S.SpreadViolation);
      }
      r := None;
    }

    method ValidateWithOrderMap(active: Option<map<nat, C.PbOrder>>) returns (r: Option<S.SnapshotError>)
      requires Valid()
      ensures r == None <==>
                (Value().bids == [] || Value().asks == [] || Value().bids[0].price < Value().asks[0].price) &&
                (active == None ||
                 (|active.value| == |Value().bids| + |Value().asks|
                  && forall id :: id in active.value ==> id in orderMap && M.Resting(Value(), orderMap[id])))
    {
      assert InBook(0);
      r := Validate();
      if r.Some? || active == None {
        return;
      }
      var nb := bids.Size();
      var na := asks.Size();
      if |active.value| != nb + na {
        return Some(S.SizeMismatch);
      }
      var ids := active.value.Keys;
      while ids != {}
        invariant ids <= active.value.Keys
        invariant forall id :: id in active.value.Keys - ids ==> id in orderMap && M.Resting(Value(), orderMap[id])
        decreases ids
      {
        var id :| id in ids;
        var found := HasActiveOrder(id);
        if !found {
          return Some(S.InactiveOrder(id));
        }
        ids := ids - {id};
      }
    }
  }

  // The levels closed so far and the one still open.
  function WithOpen(levels: seq<S.PriceLevel>, current: Option<S.PriceLevel>): seq<S.PriceLevel> {
    if current.Some? then levels + [current.value] else levels
  }

  lemma OpenStep(levels: seq<S.PriceLevel>, current: Option<S.PriceLevel>, o: Order)
    requires current == None ==> levels == []
    ensures var newLevel := S.PriceLevel(o.price, [C.OrderToProto(o)]);
            S.WithOrder(WithOpen(levels, current), o) ==
            if current == None || current.value.price != o.price then
              WithOpen(WithOpen(levels, current), Some(newLevel))
            else levels + [current.value.(orders := current.value.orders + [C.OrderToProto(o)])]
  {
  }

  // The whole result, when some trades have been made and the rest is still to come.
  ghost function After(trades: seq<Trade>, rest: M.Swept): M.Swept { rest.(trades := trades + rest.trades) }

  // The state after one fill is where the sweep of the functional model goes on.
  lemma FillIsSweepStep(s: seq<Order>, live: map<nat, Order>, order: Order, q: int,
                        commandSeq: nat, clock: M.Clock, t: nat,
                        s': seq<Order>, live': map<nat, Order>, maker: Order, ticks: nat)
    requires s != [] && order.remaining != 0 && !M.StopMatch(order, s[0].price)
    requires q == Min(order.remaining, s[0].remaining)
    requires maker.remaining == s[0].remaining - q
    requires maker.remaining == 0 ==>
               ticks == t && maker == s[0].(remaining := 0) && s' == s[1..] && live' == live - {s[0].id}
    requires maker.remaining != 0 ==>
               && ticks == t + 1 && maker == s[0].(remaining := maker.remaining, updateTime := clock(t))
               && s' == Put(Comparator(Opposite(order.side)), s[1..], maker) && live' == live[s[0].id := maker]
    ensures var taker := order.(remaining := order.remaining - q, updateTime := clock(ticks));
            M.Sweep(s, live, order, commandSeq, clock, t) ==
            After([M.TradeOf(order, maker, q, commandSeq, clock(ticks))],
                  M.Sweep(s', live', taker, commandSeq, clock, ticks + 1))
  {
  }

  lemma AfterStep(whole: M.Swept, soFar: seq<Trade>, before: M.Swept, trade: Trade, rest: M.Swept)
    requires whole == After(soFar, before) && before == After([trade], rest)
    ensures whole == After(soFar + [trade], rest)
  {
  }

  ghost function IndexOf(nodes: seq<SkipNode<Order>>, n: SkipNode<Order>): (k: nat)
    requires n in nodes
    ensures k < |nodes| && nodes[k] == n
  {
    var k :| 0 <= k < |nodes| && nodes[k] == n;
    k
  }
}
