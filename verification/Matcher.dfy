// What the order book computes, on values: the two sides as sorted sequences and the map of
// live orders by id.  The class OrderBook is proved to compute exactly these functions.
module Matcher {
  import opened Sorting
  import opened Wrappers
  import opened Orders

  datatype Book = Book(asks: seq<Order>, bids: seq<Order>, live: map<nat, Order>) {
    function At(side: Side): seq<Order> { if side == Buy then bids else asks }

    function With(side: Side, s: seq<Order>, live': map<nat, Order>): Book {
      if side == Buy then Book(asks, s, live') else Book(s, bids, live')
    }
  }

  const EMPTY_BOOK := Book([], [], map[])

  // The k-th reading of the clock while one command is applied.
  type Clock = nat -> int

  function Prepared(taker: Order): Order {
    if taker.remaining == 0 then taker.(remaining := taker.quantity) else taker
  }

  // A limit taker does not trade beyond its price; a market taker takes any price.
  predicate StopMatch(taker: Order, makerPrice: int) {
    && taker.typ != Market
    && (if taker.side == Buy then makerPrice > taker.price else makerPrice < taker.price)
  }

  function TradeOf(taker: Order, maker: Order, quantity: int, commandSeq: nat, time: int): Trade {
    Trade(TradeKey(commandSeq, maker.id, taker.id), taker.symbol, time, maker.price, quantity, maker.id, taker.id)
  }

  datatype Swept = Swept(opposite: seq<Order>, live: map<nat, Order>, taker: Order, trades: seq<Trade>, ticks: nat)

  // The taker meets the resting orders front to back.  A maker that is used up leaves the book;
  // one that is not is stamped with the current time and takes its new place.
  function Sweep(opposite: seq<Order>, live: map<nat, Order>, taker: Order,
                 commandSeq: nat, clock: Clock, ticks: nat): Swept
    decreases |opposite|
  {
    if opposite == [] || taker.remaining == 0 || StopMatch(taker, opposite[0].price) then
      Swept(opposite, live, taker, [], ticks)
    else
      var maker := opposite[0];
      var q := Min(taker.remaining, maker.remaining);
      if maker.remaining == q then
        var taker' := taker.(remaining := taker.remaining - q, updateTime := clock(ticks));
        var rest := Sweep(opposite[1..], live - {maker.id}, taker', commandSeq, clock, ticks + 1);
        rest.(trades := [TradeOf(taker, maker, q, commandSeq, taker'.updateTime)] + rest.trades)
      else
        var maker' := maker.(remaining := maker.remaining - q, updateTime := clock(ticks));
        var taker' := taker.(remaining := taker.remaining - q, updateTime := clock(ticks + 1));
        Swept(Put(Comparator(Opposite(taker.side)), opposite[1..], maker'), live[maker.id := maker'], taker',
              [TradeOf(taker, maker, q, commandSeq, taker'.updateTime)], ticks + 2)
  }

  // The two ways a sweep goes past its first maker.
  function StoppedAt(opposite: seq<Order>, live: map<nat, Order>, taker: Order,
                     commandSeq: nat, clock: Clock, ticks: nat): Swept
    requires opposite != []
  {
    var maker := opposite[0];
    var maker' := maker.(remaining := maker.remaining - taker.remaining, updateTime := clock(ticks));
    Swept(Put(Comparator(Opposite(taker.side)), opposite[1..], maker'), live[maker.id := maker'],
          taker.(remaining := 0, updateTime := clock(ticks + 1)),
          [TradeOf(taker, maker, taker.remaining, commandSeq, clock(ticks + 1))], ticks + 2)
  }

  function Reduced(taker: Order, maker: Order, now: int): Order {
    taker.(remaining := taker.remaining - maker.remaining, updateTime := now)
  }

  lemma SweepUnrolled(s: seq<Order>, live: map<nat, Order>, taker: Order,
                      commandSeq: nat, clock: Clock, ticks: nat)
    requires s != [] && taker.remaining != 0 && !StopMatch(taker, s[0].price)
    ensures taker.remaining < s[0].remaining ==>
              Sweep(s, live, taker, commandSeq, clock, ticks) == StoppedAt(s, live, taker, commandSeq, clock, ticks)
    ensures taker.remaining >= s[0].remaining ==>
              var taker' := Reduced(taker, s[0], clock(ticks));
              var rest := Sweep(s[1..], live - {s[0].id}, taker', commandSeq, clock, ticks + 1);
              Sweep(s, live, taker, commandSeq, clock, ticks) ==
              rest.(trades := [TradeOf(taker, s[0], s[0].remaining, commandSeq, clock(ticks))] + rest.trades)
  {
  }

  // An order whose id is already live and in its list is not inserted again.
  function Insert(b: Book, o: Order, now: int): Book {
    var o' := if o.updateTime == ZERO_TIME then o.(updateTime := now) else o;
    if o.id in b.live && Resting(b, b.live[o.id]) then b
    else b.With(o.side, Put(Comparator(o.side), b.At(o.side), o'), b.live[o.id := o'])
  }

  predicate Resting(b: Book, o: Order) {
    Find(Comparator(o.side), b.At(o.side), o).Some?
  }

  function Cancel(b: Book, id: nat): Book {
    if id !in b.live then b
    else
      var o := b.live[id];
      b.With(o.side, Remove(Comparator(o.side), b.At(o.side), o), b.live - {id})
  }

  datatype Outcome = Matched(book: Book, trades: seq<Trade>) | UnsupportedType

  function Match(b: Book, order: Order, commandSeq: nat, clock: Clock): Outcome {
    var taker := Prepared(order);
    var side := Opposite(taker.side);
    var swept := Sweep(b.At(side), b.live, taker, commandSeq, clock, 0);
    var b' := b.With(side, swept.opposite, swept.live);
    match taker.typ
    case Limit =>
      if swept.taker.remaining > 0
      then Matched(Insert(b', swept.taker, clock(swept.ticks)), swept.trades)
      else Matched(b', swept.trades)
    case Market => Matched(b', swept.trades)
    case UnknownType(_) => UnsupportedType
  }

  // ---- What a sweep does: price-time priority, stated without running it ----

  // The quantity resting in front of position i.
  function Ahead(s: seq<Order>, i: nat): int
    requires i <= |s|
  {
    if i == 0 then 0 else Ahead(s, i - 1) + s[i - 1].remaining
  }

  lemma {:induction false} AheadShift(s: seq<Order>, i: nat)
    requires 0 < i <= |s|
    ensures Ahead(s, i) == s[0].remaining + Ahead(s[1..], i - 1)
  {
    if i > 1 { AheadShift(s, i - 1); }
  }

  // How many of the leading orders the taker may trade with.
  function Acceptable(s: seq<Order>, taker: Order): (n: nat)
    ensures n <= |s|
    ensures forall i :: 0 <= i < n ==> !StopMatch(taker, s[i].price)
    ensures n < |s| ==> StopMatch(taker, s[n].price)
  {
    if s == [] || StopMatch(taker, s[0].price) then 0 else 1 + Acceptable(s[1..], taker)
  }

  // What maker i gives to a taker of size t: what t leaves after the orders ahead of it, but
  // no more than it has.
  function Share(s: seq<Order>, i: nat, t: int): int
    requires i < |s|
  {
    var left := t - Ahead(s, i);
    if left <= 0 then 0 else Min(left, s[i].remaining)
  }

  ghost predicate AllPositive(s: seq<Order>) {
    forall i :: 0 <= i < |s| ==> s[i].remaining > 0
  }

  function TradedQuantity(trades: seq<Trade>): int {
    if trades == [] then 0 else trades[0].quantity + TradedQuantity(trades[1..])
  }

  // Of the first n orders of s, those with a positive share of t trade, in order, each at its
  // own price and for exactly its share.
  ghost predicate ByPriority(s: seq<Order>, n: nat, t: int, takerId: nat, trades: seq<Trade>) {
    && |trades| <= n <= |s|
    && (forall i :: 0 <= i < |trades| ==>
          && trades[i].maker == s[i].id && trades[i].taker == takerId && trades[i].price == s[i].price
          && trades[i].quantity == Share(s, i, t) > 0)
    && (forall i :: |trades| <= i < n ==> Share(s, i, t) == 0)
  }

  ghost predicate SweptByPriority(s: seq<Order>, taker: Order, r: Swept) {
    && ByPriority(s, Acceptable(s, taker), taker.remaining, taker.id, r.trades)
    && r.taker.remaining == taker.remaining - TradedQuantity(r.trades) >= 0
  }

  // A sweep is price-time priority: who trades, at what price and for how much is fixed by the
  // quantity resting ahead of each maker, and the taker loses exactly what is traded.
  lemma {:induction false} SweepFollowsPriority(s: seq<Order>, live: map<nat, Order>, taker: Order,
                                                commandSeq: nat, clock: Clock, ticks: nat)
    requires AllPositive(s) && taker.remaining >= 0
    ensures SweptByPriority(s, taker, Sweep(s, live, taker, commandSeq, clock, ticks))
    decreases |s|
  {
    if s == [] || taker.remaining == 0 || StopMatch(taker, s[0].price) {
      if taker.remaining == 0 { NothingLeft(s, 0, 0); }
    } else if taker.remaining < s[0].remaining {
      SweepStopsInside(s, live, taker, commandSeq, clock, ticks);
    } else {
      var taker' := taker.(remaining := taker.remaining - s[0].remaining, updateTime := clock(ticks));
      SweepFollowsPriority(s[1..], live - {s[0].id}, taker', commandSeq, clock, ticks + 1);
      SweepGoesOn(s, live, taker, commandSeq, clock, ticks);
    }
  }

  lemma SweepStopsInside(s: seq<Order>, live: map<nat, Order>, taker: Order,
                         commandSeq: nat, clock: Clock, ticks: nat)
    requires AllPositive(s) && s != [] && !StopMatch(taker, s[0].price)
    requires 0 < taker.remaining < s[0].remaining
    ensures SweptByPriority(s, taker, Sweep(s, live, taker, commandSeq, clock, ticks))
  {
    NothingLeft(s, 1, taker.remaining);
  }

  lemma SweepGoesOn(s: seq<Order>, live: map<nat, Order>, taker: Order,
                    commandSeq: nat, clock: Clock, ticks: nat)
    requires AllPositive(s) && s != [] && !StopMatch(taker, s[0].price)
    requires taker.remaining >= s[0].remaining
    requires var taker' := taker.(remaining := taker.remaining - s[0].remaining, updateTime := clock(ticks));
             SweptByPriority(s[1..], taker', Sweep(s[1..], live - {s[0].id}, taker', commandSeq, clock, ticks + 1))
    ensures SweptByPriority(s, taker, Sweep(s, live, taker, commandSeq, clock, ticks))
  {
    var taker' := taker.(remaining := taker.remaining - s[0].remaining, updateTime := clock(ticks));
    var rest := Sweep(s[1..], live - {s[0].id}, taker', commandSeq, clock, ticks + 1);
    var r := Sweep(s, live, taker, commandSeq, clock, ticks);
    assert r.taker == rest.taker;
    PriorityGoesOn(s, taker, taker', rest, r);
  }

  lemma PriorityGoesOn(s: seq<Order>, taker: Order, taker': Order, rest: Swept, r: Swept)
    requires s != [] && !StopMatch(taker, s[0].price) && taker.remaining >= s[0].remaining > 0
    requires (taker'.id, taker'.typ, taker'.side, taker'.price) == (taker.id, taker.typ, taker.side, taker.price)
    requires taker'.remaining == taker.remaining - s[0].remaining
    requires SweptByPriority(s[1..], taker', rest)
    requires r.taker == rest.taker && |r.trades| > 0 && r.trades[1..] == rest.trades
    requires (r.trades[0].maker, r.trades[0].taker, r.trades[0].price, r.trades[0].quantity) ==
             (s[0].id, taker.id, s[0].price, s[0].remaining)
    ensures SweptByPriority(s, taker, r)
  {
    AcceptableIgnoresSize(s[1..], taker, taker');
    PriorityStep(s, Acceptable(s, taker), taker.remaining, taker.id, r.trades);
  }

  lemma PriorityStep(s: seq<Order>, n: nat, t: int, takerId: nat, trades: seq<Trade>)
    requires s != [] && trades != [] && n > 0 && t >= s[0].remaining > 0
    requires trades[0].maker == s[0].id && trades[0].taker == takerId && trades[0].price == s[0].price
    requires trades[0].quantity == s[0].remaining
    requires ByPriority(s[1..], n - 1, t - s[0].remaining, takerId, trades[1..])
    ensures ByPriority(s, n, t, takerId, trades)
  {
    forall i | 0 < i < n ensures Share(s, i, t) == Share(s[1..], i - 1, t - s[0].remaining) {
      AheadShift(s, i);
    }
    forall i | 0 < i < |trades| ensures trades[i] == trades[1..][i - 1] {
    }
  }

  // From position i on nobody gets a share once the orders ahead of i cover the taker.
  lemma NothingLeft(s: seq<Order>, i: nat, t: int)
    requires AllPositive(s) && i <= |s| && t <= Ahead(s, i)
    ensures forall j :: i <= j < |s| ==> Share(s, j, t) == 0
  {
    forall j | i <= j < |s| ensures Share(s, j, t) == 0 { AheadGrows(s, i, j); }
  }

  lemma {:induction false} AheadGrows(s: seq<Order>, i: nat, j: nat)
    requires AllPositive(s) && i <= j <= |s|
    ensures Ahead(s, i) <= Ahead(s, j)
    decreases j
  {
    if i < j { AheadGrows(s, i, j - 1); }
  }

  // The list without its first k orders; the last of these stays when q is less than it had,
  // stamped with the given time and put where that stamp belongs.
  function Left(s: seq<Order>, k: nat, q: int, put: (seq<Order>, Order) -> seq<Order>, stamp: int): seq<Order>
    requires 0 < k <= |s|
  {
    var last := s[k - 1];
    if q < last.remaining then put(s[k..], last.(remaining := last.remaining - q, updateTime := stamp)) else s[k..]
  }

  function PutOn(side: Side): (seq<Order>, Order) -> seq<Order> {
    (s: seq<Order>, o: Order) => Put(Comparator(side), s, o)
  }

  // A marker: a proof that looks inside LeavesRest asserts Looking(0).
  ghost predicate Looking(z: int) { true }

  // The makers that traded are gone from the front, the others untouched; only the last one may
  // be left with a part.
  ghost predicate LeavesRest(s: seq<Order>, put: (seq<Order>, Order) -> seq<Order>, r: Swept, clock: Clock,
                             ticks: nat) {
    forall z {:trigger Looking(z)} :: Looking(z) ==>
      && |r.trades| <= |s|
      && r.opposite == if r.trades == [] then s
                       else Left(s, |r.trades|, r.trades[|r.trades| - 1].quantity, put, clock(ticks + |r.trades| - 1))
  }

  lemma {:induction false} SweepLeavesRest(s: seq<Order>, live: map<nat, Order>, taker: Order,
                                           commandSeq: nat, clock: Clock, ticks: nat)
    requires AllPositive(s) && taker.remaining >= 0
    ensures LeavesRest(s, PutOn(Opposite(taker.side)), Sweep(s, live, taker, commandSeq, clock, ticks), clock, ticks)
    decreases |s|
  {
    if s != [] && taker.remaining != 0 && !StopMatch(taker, s[0].price) {
      SweepUnrolled(s, live, taker, commandSeq, clock, ticks);
      if taker.remaining >= s[0].remaining {
        var taker' := Reduced(taker, s[0], clock(ticks));
        var rest := Sweep(s[1..], live - {s[0].id}, taker', commandSeq, clock, ticks + 1);
        SweepLeavesRest(s[1..], live - {s[0].id}, taker', commandSeq, clock, ticks + 1);
        RestGoesOn(s, PutOn(Opposite(taker.side)), rest,
                   TradeOf(taker, s[0], s[0].remaining, commandSeq, clock(ticks)), clock, ticks);
      } else {
        StopLeavesRest(s, live, taker, commandSeq, clock, ticks);
      }
    }
  }

  lemma StopLeavesRest(s: seq<Order>, live: map<nat, Order>, taker: Order, commandSeq: nat, clock: Clock, ticks: nat)
    requires s != [] && 0 < taker.remaining < s[0].remaining
    ensures LeavesRest(s, PutOn(Opposite(taker.side)), StoppedAt(s, live, taker, commandSeq, clock, ticks), clock,
                       ticks)
  {
  }

  lemma RestGoesOn(s: seq<Order>, put: (seq<Order>, Order) -> seq<Order>, rest: Swept, first: Trade, clock: Clock,
                   ticks: nat)
    requires s != [] && LeavesRest(s[1..], put, rest, clock, ticks + 1) && first.quantity == s[0].remaining
    ensures LeavesRest(s, put, rest.(trades := [first] + rest.trades), clock, ticks)
  {
  }

  // What is left of the taker is what the acceptable orders together could not fill.
  lemma {:induction false} ResidualIsUnfilled(s: seq<Order>, live: map<nat, Order>, taker: Order,
                                              commandSeq: nat, clock: Clock, ticks: nat)
    requires AllPositive(s) && taker.remaining >= 0
    ensures var depth := Ahead(s, Acceptable(s, taker));
            Sweep(s, live, taker, commandSeq, clock, ticks).taker.remaining ==
            if taker.remaining > depth then taker.remaining - depth else 0
    decreases |s|
  {
    var n := Acceptable(s, taker);
    AheadGrows(s, 0, n);
    if s != [] && taker.remaining != 0 && !StopMatch(taker, s[0].price) {
      SweepUnrolled(s, live, taker, commandSeq, clock, ticks);
      if taker.remaining < s[0].remaining {
        AheadGrows(s, 1, n);
      } else {
        var taker' := Reduced(taker, s[0], clock(ticks));
        ResidualIsUnfilled(s[1..], live - {s[0].id}, taker', commandSeq, clock, ticks + 1);
        AcceptableIgnoresSize(s[1..], taker, taker');
        AheadShift(s, n);
      }
    }
  }

  lemma {:induction false} AcceptableIgnoresSize(s: seq<Order>, a: Order, b: Order)
    requires a.typ == b.typ && a.side == b.side && a.price == b.price
    ensures Acceptable(s, a) == Acceptable(s, b)
  {
  }
}
