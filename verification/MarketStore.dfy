// The market-data mirror of one symbol: open orders per side, and a per-price index that is
// kept up to date by differences.
module MarketStore {
  import opened Sorting
  import opened Wrappers
  import opened Sums

  datatype Entry = Entry(side: string, price: int, remaining: int)

  // A decimal string as it arrives; None stands for one that does not parse.
  type Parsed = Option<int>

  datatype StoreError = InvalidDecimal | NegativeRemaining | UnknownSide | OrderIdRequired

  // What an order adds to the level of price p.
  ghost function AtPrice(p: int): (nat, Entry) -> int {
    (id: nat, e: Entry) => if e.price == p then e.remaining else 0
  }

  // A price without a level counts as zero.
  function Level(levels: map<int, int>, p: int): int { if p in levels then levels[p] else 0 }

  class OrderBookSide {
    var orders: map<nat, Entry>
    var levels: map<int, int>

    // Each level is the sum of the remainders of the orders at its price.
    ghost predicate Indexed()
      reads this
    {
      forall p {:trigger Level(levels, p)} :: Level(levels, p) == Sum(orders, AtPrice(p))
    }

    constructor ()
      ensures orders == map[] && levels == map[] && Indexed()
    {
      orders, levels := map[], map[];
    }

    method Shift(price: int, delta: int)
      modifies this`levels
      ensures forall p {:trigger Level(levels, p)} ::
                Level(levels, p) == Level(old(levels), p) + if p == price then delta else 0
      ensures levels.Keys <= old(levels).Keys + {price}
    {
      levels := levels[price := Level(levels, price) + delta];
    }

    method DropIfZero(price: int)
      modifies this`levels
      ensures forall p {:trigger Level(levels, p)} :: Level(levels, p) == Level(old(levels), p)
      ensures price in levels ==> levels[price] != 0
      ensures levels.Keys <= old(levels).Keys
    {
      if Level(levels, price) == 0 {
        levels := levels - {price};
      }
    }

    method Upsert(id: nat, entry: Entry)
      requires Indexed()
      modifies this
      ensures Indexed() && orders == old(orders)[id := entry]
    {
      ghost var before := orders;
      ghost var index := levels;
      if id in orders {
        var was := orders[id];
        Shift(was.price, -was.remaining);
        DropIfZero(was.price);
      }
      orders := orders[id := entry];
      Shift(entry.price, entry.remaining);
      forall p ensures Level(levels, p) == Sum(orders, AtPrice(p)) {
        SumUpdate(before, id, entry, AtPrice(p));
        assert Level(index, p) == Sum(before, AtPrice(p));
      }
    }

    method SetRemaining(id: nat, remaining: int) returns (found: bool)
      requires Indexed()
      modifies this
      ensures Indexed() && found == (id in old(orders))
      ensures orders == if found then old(orders)[id := old(orders)[id].(remaining := remaining)] else old(orders)
    {
      if id !in orders {
        return false;
      }
      found := true;
      ghost var before := orders;
      ghost var index := levels;
      var entry := orders[id];
      if entry.remaining == remaining {
        assert orders == orders[id := entry];
        return;
      }
      Shift(entry.price, remaining - entry.remaining);
      DropIfZero(entry.price);
      orders := orders[id := entry.(remaining := remaining)];
      forall p ensures Level(levels, p) == Sum(orders, AtPrice(p)) {
        SumUpdate(before, id, orders[id], AtPrice(p));
        assert Level(index, p) == Sum(before, AtPrice(p));
      }
    }

    method Remove(id: nat) returns (found: bool)
      requires Indexed()
      modifies this
      ensures Indexed() && found == (id in old(orders)) && orders == old(orders) - {id}
    {
      if id !in orders {
        return false;
      }
      found := true;
      ghost var before := orders;
      ghost var index := levels;
      var entry := orders[id];
      orders := orders - {id};
      Shift(entry.price, -entry.remaining);
      DropIfZero(entry.price);
      forall p ensures Level(levels, p) == Sum(orders, AtPrice(p)) {
        SumRemove(before, id, AtPrice(p));
        assert Level(index, p) == Sum(before, AtPrice(p));
      }
    }
  }

  // The orders of both sides, without the index.
  datatype Mirror = Mirror(bids: map<nat, Entry>, asks: map<nat, Entry>)

  function Accept(m: Mirror, id: nat, side: string, price: Parsed, remaining: Parsed): Option<Mirror> {
    if id == 0 || price == None || remaining == None || remaining.value < 0 then None
    else
      var entry := Entry(side, price.value, remaining.value);
      if side == "BUY" then Some(m.(bids := m.bids[id := entry]))
      else if side == "SELL" then Some(m.(asks := m.asks[id := entry]))
      else None
  }

  function SetTo(m: Mirror, id: nat, remaining: Parsed): Option<Mirror> {
    if id == 0 || remaining == None || remaining.value < 0 then None
    else if id in m.bids then Some(m.(bids := m.bids[id := m.bids[id].(remaining := remaining.value)]))
    else if id in m.asks then Some(m.(asks := m.asks[id := m.asks[id].(remaining := remaining.value)]))
    else Some(m)
  }

  // Removal looks at the asks only when the bids do not have the order.
  function Drop(m: Mirror, id: nat): Option<Mirror> {
    if id == 0 then None
    else if id in m.bids then Some(m.(bids := m.bids - {id}))
    else Some(m.(asks := m.asks - {id}))
  }

  class OrderBookState {
    var lastUpdateId: nat
    const bids: OrderBookSide
    const asks: OrderBookSide

    ghost predicate Valid()
      reads this, bids, asks
    {
      bids != asks && bids.Indexed() && asks.Indexed()
    }

    ghost function Value(): Mirror
      reads this, bids, asks
    {
      Mirror(bids.orders, asks.orders)
    }

    constructor ()
      ensures Valid() && Value() == Mirror(map[], map[]) && lastUpdateId == 0 && fresh(bids) && fresh(asks)
    {
      lastUpdateId := 0;
      bids := new OrderBookSide();
      asks := new OrderBookSide();
    }

    method ApplyAccepted(id: nat, side: string, price: Parsed, remaining: Parsed) returns (err: Option<StoreError>)
      requires Valid()
      modifies this, bids, asks
      ensures Valid()
      ensures err == None <==> Accept(old(Value()), id, side, price, remaining).Some?
      ensures err == None ==> Some(Value()) == Accept(old(Value()), id, side, price, remaining)
                              && lastUpdateId == old(lastUpdateId) + 1
      ensures err != None ==> Value() == old(Value()) && lastUpdateId == old(lastUpdateId)
    {
      if id == 0 { return Some(OrderIdRequired); }
      if price == None || remaining == None { return Some(InvalidDecimal); }
      if remaining.value < 0 { return Some(NegativeRemaining); }
      var entry := Entry(side, price.value, remaining.value);
      if side == "BUY" {
        bids.Upsert(id, entry);
      } else if side == "SELL" {
        asks.Upsert(id, entry);
      } else {
        return Some(UnknownSide);
      }
      lastUpdateId := lastUpdateId + 1;
      err := None;
    }

    method ApplyRemaining(id: nat, remaining: Parsed) returns (err: Option<StoreError>)
      requires Valid()
      modifies this, bids, asks
      ensures Valid()
      ensures err == None <==> SetTo(old(Value()), id, remaining).Some?
      ensures err == None ==> Some(Value()) == SetTo(old(Value()), id, remaining)
      ensures err != None ==> Value() == old(Value())
      ensures lastUpdateId == old(lastUpdateId) +
              if err == None && (id in old(bids.orders) || id in old(asks.orders)) then 1 else 0
    {
      if id == 0 { return Some(OrderIdRequired); }
      if remaining == None { return Some(InvalidDecimal); }
      if remaining.value < 0 { return Some(NegativeRemaining); }
      err := None;
      var found := bids.SetRemaining(id, remaining.value);
      if !found {
        found := asks.SetRemaining(id, remaining.value);
      }
      if found {
        lastUpdateId := lastUpdateId + 1;
      }
    }

    method ApplyRemove(id: nat) returns (err: Option<StoreError>)
      requires Valid()
      modifies this, bids, asks
      ensures Valid()
      ensures err == None <==> Drop(old(Value()), id).Some?
      ensures err == None ==> Some(Value()) == Drop(old(Value()), id)
      ensures err != None ==> Value() == old(Value())
      ensures lastUpdateId == old(lastUpdateId) +
              if err == None && (id in old(bids.orders) || id in old(asks.orders)) then 1 else 0
    {
      if id == 0 { return Some(OrderIdRequired); }
      err := None;
      var found := bids.Remove(id);
      if !found {
        assert bids.orders == old(bids.orders);
        found := asks.Remove(id);
      }
      if found {
        lastUpdateId := lastUpdateId + 1;
      }
    }
  }

  // ---- Depth ----

  datatype PriceLevel = PriceLevel(price: int, quantity: int)

  function CompareLevels(desc: bool): (PriceLevel, PriceLevel) -> int {
    (a: PriceLevel, b: PriceLevel) => if desc then b.price - a.price else a.price - b.price
  }

  lemma CompareLevelsIsThreeWay(desc: bool)
    ensures ThreeWay(CompareLevels(desc))
  {
  }

  // Prices fall along the bids and rise along the asks.
  ghost predicate BestFirst(out: seq<PriceLevel>, desc: bool) {
    forall i, j :: 0 <= i < j < |out| ==> if desc then out[i].price > out[j].price else out[i].price < out[j].price
  }

  lemma SortedIsBestFirst(out: seq<PriceLevel>, desc: bool)
    ensures Sorted(CompareLevels(desc), out) <==> BestFirst(out, desc)
  {
  }

  // The best `limit` positive levels, best first; a level that is left out of a full list has a
  // worse price than all in it.
  ghost predicate TopLevels(out: seq<PriceLevel>, quantity: int -> int, limit: nat, desc: bool) {
    && |out| <= limit
    && BestFirst(out, desc)
    && (forall l :: l in out ==> l.quantity == quantity(l.price) > 0)
    && (forall p :: quantity(p) > 0 ==>
          PriceLevel(p, quantity(p)) in out
          || (|out| == limit && forall l :: l in out ==> if desc then l.price > p else l.price < p))
  }

  // The first of them is the best there is.
  lemma TopIsBest(out: seq<PriceLevel>, quantity: int -> int, limit: nat, desc: bool)
    requires TopLevels(out, quantity, limit, desc) && limit > 0
    ensures forall p :: quantity(p) > 0 ==>
              out != [] && (if desc then p <= out[0].price else out[0].price <= p)
    ensures out != [] ==> out[0].quantity == quantity(out[0].price) > 0
  {
    forall p | quantity(p) > 0
      ensures out != [] && (if desc then p <= out[0].price else out[0].price <= p)
    {
      var l := PriceLevel(p, quantity(p));
      if l in out {
        var i :| 0 <= i < |out| && out[i] == l;
      } else {
        assert out[0] in out;
      }
    }
  }

  // The levels read as a total function of the price.
  function AsQuantities(levels: map<int, int>): int -> int { p => Level(levels, p) }

  method SnapshotLevels(levels: map<int, int>, limit: nat, desc: bool) returns (out: seq<PriceLevel>)
    ensures TopLevels(out, AsQuantities(levels), limit, desc)
  {
    var all := PositiveLevels(levels, desc);
    out := if |all| > limit then all[..limit] else all;
    FirstAreTop(all, out, levels, limit, desc);
  }

  ghost predicate AllPositiveLevels(s: seq<PriceLevel>, levels: map<int, int>, left: set<int>, desc: bool) {
    && Sorted(CompareLevels(desc), s)
    && (forall l :: l in s <==> l.price in levels && l.price !in left && levels[l.price] == l.quantity > 0)
  }

  method PositiveLevels(levels: map<int, int>, desc: bool) returns (s: seq<PriceLevel>)
    ensures AllPositiveLevels(s, levels, {}, desc)
  {
    var prices := levels.Keys;
    s := [];
    while prices != {}
      invariant prices <= levels.Keys
      invariant AllPositiveLevels(s, levels, prices, desc)
      decreases prices
    {
      ghost var some := SomeElement(prices);
      var price :| price in prices;
      LevelAdded(s, levels, prices, price, desc);
      if levels[price] > 0 {
        s := Put(CompareLevels(desc), s, PriceLevel(price, levels[price]));
      }
      prices := prices - {price};
    }
  }

  lemma LevelAdded(s: seq<PriceLevel>, levels: map<int, int>, left: set<int>, price: int, desc: bool)
    requires AllPositiveLevels(s, levels, left, desc) && price in levels && price in left
    ensures var l := PriceLevel(price, levels[price]);
            AllPositiveLevels(if l.quantity > 0 then Put(CompareLevels(desc), s, l) else s, levels, left - {price},
                              desc)
  {
    var l, cmp := PriceLevel(price, levels[price]), CompareLevels(desc);
    CompareLevelsIsThreeWay(desc);
    if l.quantity > 0 {
      PutSorted(cmp, s, l);
      forall x ensures x in Put(cmp, s, l) <==>
                       x.price in levels && x.price !in left - {price} && levels[x.price] == x.quantity > 0 {
        PutIsSetInsert(cmp, s, l, x);
      }
    }
  }

  lemma FirstAreTop(all: seq<PriceLevel>, out: seq<PriceLevel>, levels: map<int, int>, limit: nat, desc: bool)
    requires AllPositiveLevels(all, levels, {}, desc)
    requires out == if |all| > limit then all[..limit] else all
    ensures TopLevels(out, AsQuantities(levels), limit, desc)
  {
    SortedIsBestFirst(all, desc);
    assert forall i :: 0 <= i < |out| ==> all[i] == out[i] && all[i] in out;
    forall l | l in all && l !in out
      ensures |out| == limit && forall x :: x in out ==> if desc then x.price > l.price else x.price < l.price
    {
      var k :| 0 <= k < |all| && all[k] == l;
      assert k >= |out|;
    }
  }

  // The quantity open at each price.
  ghost function Totals(orders: map<nat, Entry>): int -> int { p => Sum(orders, AtPrice(p)) }

  // A depth snapshot of an indexed side: the best levels of the totals over its orders.
  method SnapshotSide(side: OrderBookSide, limit: nat, desc: bool) returns (out: seq<PriceLevel>)
    requires side.Indexed()
    ensures TopLevels(out, Totals(side.orders), limit, desc)
  {
    out := SnapshotLevels(side.levels, limit, desc);
    forall p ensures AsQuantities(side.levels)(p) == Totals(side.orders)(p) {
      assert Level(side.levels, p) == Sum(side.orders, AtPrice(p));
    }
    SameQuantities(out, AsQuantities(side.levels), Totals(side.orders), limit, desc);
  }

  lemma SameQuantities(out: seq<PriceLevel>, f: int -> int, g: int -> int, limit: nat, desc: bool)
    requires TopLevels(out, f, limit, desc)
    requires forall p :: f(p) == g(p)
    ensures TopLevels(out, g, limit, desc)
  {
  }

  // The top levels are determined by the totals.
  lemma TopLevelsUnique(a: seq<PriceLevel>, b: seq<PriceLevel>, f: int -> int, limit: nat, desc: bool)
    requires TopLevels(a, f, limit, desc) && TopLevels(b, f, limit, desc)
    ensures a == b
  {
    CompareLevelsIsThreeWay(desc);
    SortedIsBestFirst(a, desc);
    SortedIsBestFirst(b, desc);
    forall l ensures l in a <==> l in b {
      if l in a && l !in b { TopContains(a, b, f, limit, desc, l); }
      if l in b && l !in a { TopContains(b, a, f, limit, desc, l); }
    }
    SortedIsUnique(CompareLevels(desc), a, b);
  }

  lemma TopContains(a: seq<PriceLevel>, b: seq<PriceLevel>, f: int -> int, limit: nat, desc: bool, l: PriceLevel)
    requires TopLevels(a, f, limit, desc) && TopLevels(b, f, limit, desc)
    requires l in a
    ensures l in b
  {
    if l !in b {
      // b is full of levels better than l, so one of them is not among the fewer of a.
      assert forall x :: x in b ==> if desc then x.price > l.price else x.price < l.price;
      forall x | x in b ensures x in a {
        assert x == PriceLevel(x.price, f(x.price));
      }
      MoreThanFits(a, b, l, desc);
    }
  }

  lemma MoreThanFits(a: seq<PriceLevel>, b: seq<PriceLevel>, l: PriceLevel, desc: bool)
    requires BestFirst(b, desc) && l in a && l !in b
    requires forall x :: x in b ==> x in a
    ensures |a| > |b|
  {
    var sa, sb := set x | x in a, set x | x in b;
    forall i, j | 0 <= i < j < |b| ensures b[i] != b[j] {
      assert b[i].price != b[j].price;
    }
    DistinctSize(b);
    SetSize(a);
    assert sb + {l} <= sa;
    Subset(sb + {l}, sa);
  }

  lemma {:induction false} DistinctSize(s: seq<PriceLevel>)
    requires forall i, j :: 0 <= i < j < |s| ==> s[i] != s[j]
    ensures |set x | x in s| == |s|
  {
    if s != [] {
      var t, x := s[..|s| - 1], s[|s| - 1];
      DistinctSize(t);
      assert s == t + [x];
      ElementsGrow(t, x);
      assert x !in t;
    }
  }

  lemma {:induction false} SetSize(s: seq<PriceLevel>)
    ensures |set x | x in s| <= |s|
  {
    if s != [] {
      var t, x := s[..|s| - 1], s[|s| - 1];
      SetSize(t);
      ElementsGrow(t, x);
      assert s == t + [x];
    }
  }

  lemma ElementsGrow(t: seq<PriceLevel>, x: PriceLevel)
    ensures (set y | y in t + [x]) == (set y | y in t) + {x}
  {
  }

  lemma {:induction false} Subset(a: set<PriceLevel>, b: set<PriceLevel>)
    requires a <= b
    ensures |a| <= |b|
  {
    if a != {} {
      var x :| x in a;
      Subset(a - {x}, b - {x});
    }
  }
}
