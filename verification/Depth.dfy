// The depth publisher: a full snapshot of a symbol first, then only the levels that changed; and
// the client that folds what it is sent.
module Depth {
  import opened Sorting
  import opened Wrappers
  import opened MarketStore
  import Sums

  datatype DepthSnapshot = DepthSnapshot(lastUpdateId: nat, bids: seq<PriceLevel>, asks: seq<PriceLevel>)

  datatype Message = Full(bids: seq<PriceLevel>, asks: seq<PriceLevel>)
                   | Delta(bids: seq<PriceLevel>, asks: seq<PriceLevel>)

  function Clamped(limit: int): nat {
    if limit <= 0 then 20 else if limit > 100 then 100 else limit
  }

  // A limit is taken as it is exactly from 1 to 100; there are never more than 100 levels.
  lemma ClampedIs(limit: int)
    ensures 1 <= Clamped(limit) <= 100
    ensures Clamped(limit) == limit <==> 1 <= limit <= 100
    ensures limit <= 0 ==> Clamped(limit) == 20
    ensures limit > 100 ==> Clamped(limit) == 100
  {
  }

  // The best levels of both sides, bids from the highest price and asks from the lowest.
  ghost predicate IsDepthOf(snap: DepthSnapshot, m: Mirror, limit: int) {
    && TopLevels(snap.bids, Totals(m.bids), Clamped(limit), true)
    && TopLevels(snap.asks, Totals(m.asks), Clamped(limit), false)
  }

  method SnapshotOrderBook(book: OrderBookState, limit: int) returns (snap: DepthSnapshot)
    requires book.Valid()
    ensures snap.lastUpdateId == book.lastUpdateId && IsDepthOf(snap, book.Value(), limit)
    ensures |snap.bids| <= 100 && |snap.asks| <= 100
    ensures 1 <= limit ==> |snap.bids| <= limit && |snap.asks| <= limit
    ensures forall p :: Totals(book.bids.orders)(p) > 0 ==> snap.bids != [] && p <= snap.bids[0].price
    ensures forall p :: Totals(book.asks.orders)(p) > 0 ==> snap.asks != [] && snap.asks[0].price <= p
    ensures snap.bids != [] ==> Totals(book.bids.orders)(snap.bids[0].price) == snap.bids[0].quantity > 0
    ensures snap.asks != [] ==> Totals(book.asks.orders)(snap.asks[0].price) == snap.asks[0].quantity > 0
  {
    var bids := SnapshotSide(book.bids, Clamped(limit), true);
    var asks := SnapshotSide(book.asks, Clamped(limit), false);
    snap := DepthSnapshot(book.lastUpdateId, bids, asks);
    TopIsBest(bids, Totals(book.bids.orders), Clamped(limit), true);
    TopIsBest(asks, Totals(book.asks.orders), Clamped(limit), false);
  }

  // A list of levels as a map from price to quantity.
  function AsMap(levels: seq<PriceLevel>): map<int, int> {
    if levels == [] then map[]
    else AsMap(levels[..|levels| - 1])[levels[|levels| - 1].price := levels[|levels| - 1].quantity]
  }

  // Price p must be sent with quantity q, 0 standing for a level that is gone.
  predicate Differs(prev: map<int, int>, curr: map<int, int>, p: int, q: int) {
    || (p in curr && q == curr[p] && !(p in prev && prev[p] == q))
    || (p in prev && p !in curr && q == 0)
  }

  ghost predicate DistinctPrices(levels: seq<PriceLevel>) {
    forall i, j :: 0 <= i < j < |levels| ==> levels[i].price != levels[j].price
  }

  // Each difference once, in any order: maps are walked in no particular order.
  ghost predicate IsDelta(changed: seq<PriceLevel>, prev: map<int, int>, curr: map<int, int>) {
    && DistinctPrices(changed)
    && (forall l :: l in changed <==> Differs(prev, curr, l.price, l.quantity))
  }

  // The differences at the prices that have been looked at.
  ghost predicate IsDeltaOn(changed: seq<PriceLevel>, prev: map<int, int>, curr: map<int, int>, seen: set<int>) {
    && DistinctPrices(changed)
    && (forall l :: l in changed <==> l.price in seen && Differs(prev, curr, l.price, l.quantity))
  }

  lemma DeltaExtended(changed: seq<PriceLevel>, prev: map<int, int>, curr: map<int, int>, seen: set<int>, p: int,
                      q: int)
    requires IsDeltaOn(changed, prev, curr, seen) && p !in seen
    requires Differs(prev, curr, p, q)
    ensures IsDeltaOn(changed + [PriceLevel(p, q)], prev, curr, seen + {p})
  {
  }

  lemma DeltaUnchanged(changed: seq<PriceLevel>, prev: map<int, int>, curr: map<int, int>, seen: set<int>, p: int)
    requires IsDeltaOn(changed, prev, curr, seen) && p !in seen
    requires forall q :: !Differs(prev, curr, p, q)
    ensures IsDeltaOn(changed, prev, curr, seen + {p})
  {
  }

  method DiffOneSide(prev: seq<PriceLevel>, curr: seq<PriceLevel>) returns (changed: seq<PriceLevel>)
    ensures IsDelta(changed, AsMap(prev), AsMap(curr))
  {
    var prevMap := BuildMap(prev);
    var currMap := BuildMap(curr);
    changed := [];
    var todo := currMap.Keys;
    while todo != {}
      invariant todo <= currMap.Keys
      invariant IsDeltaOn(changed, prevMap, currMap, currMap.Keys - todo)
      decreases todo
    {
      ghost var some := Sums.SomeElement(todo);
      var p :| p in todo;
      assert currMap.Keys - (todo - {p}) == currMap.Keys - todo + {p};
      if p !in prevMap || prevMap[p] != currMap[p] {
        DeltaExtended(changed, prevMap, currMap, currMap.Keys - todo, p, currMap[p]);
        changed := changed + [PriceLevel(p, currMap[p])];
      } else {
        DeltaUnchanged(changed, prevMap, currMap, currMap.Keys - todo, p);
      }
      todo := todo - {p};
    }
    todo := prevMap.Keys;
    while todo != {}
      invariant todo <= prevMap.Keys
      invariant IsDeltaOn(changed, prevMap, currMap, currMap.Keys + (prevMap.Keys - todo))
      decreases todo
    {
      ghost var some := Sums.SomeElement(todo);
      var p :| p in todo;
      ghost var seen := currMap.Keys + (prevMap.Keys - todo);
      assert currMap.Keys + (prevMap.Keys - (todo - {p})) == seen + {p};
      if p !in currMap {
        DeltaExtended(changed, prevMap, currMap, seen, p, 0);
        changed := changed + [PriceLevel(p, 0)];
      } else {
        assert seen + {p} == seen;
      }
      todo := todo - {p};
    }
  }

  method BuildMap(levels: seq<PriceLevel>) returns (m: map<int, int>)
    ensures m == AsMap(levels)
  {
    m := map[];
    for i := 0 to |levels|
      invariant m == AsMap(levels[..i])
    {
      assert levels[..i + 1][..i] == levels[..i];
      m := m[levels[i].price := levels[i].quantity];
    }
    assert levels[..|levels|] == levels;
  }

  // ---- The client ----

  function Folded(view: map<int, int>, delta: seq<PriceLevel>): map<int, int> {
    if delta == [] then view
    else
      var l := delta[|delta| - 1];
      var before := Folded(view, delta[..|delta| - 1]);
      if l.quantity == 0 then before - {l.price} else before[l.price := l.quantity]
  }

  ghost predicate Mentions(delta: seq<PriceLevel>, p: int) {
    exists i :: 0 <= i < |delta| && delta[i].price == p
  }

  // At one price the fold does what the delta says there, and nothing where it is silent.
  lemma {:induction false} FoldedAt(view: map<int, int>, delta: seq<PriceLevel>, p: int)
    requires DistinctPrices(delta)
    ensures !Mentions(delta, p) ==> (p in Folded(view, delta) <==> p in view)
                                    && (p in view ==> Folded(view, delta)[p] == view[p])
    ensures forall i :: 0 <= i < |delta| && delta[i].price == p ==>
              if delta[i].quantity == 0 then p !in Folded(view, delta)
              else p in Folded(view, delta) && Folded(view, delta)[p] == delta[i].quantity
  {
    if delta != [] {
      var n := |delta| - 1;
      FoldedAt(view, delta[..n], p);
      if delta[n].price != p {
        assert Mentions(delta[..n], p) ==> Mentions(delta, p) by {
          if Mentions(delta[..n], p) {
            var i :| 0 <= i < n && delta[..n][i].price == p;
            assert delta[i].price == p;
          }
        }
        assert forall i :: 0 <= i < n ==> delta[..n][i] == delta[i];
      }
    }
  }

  ghost predicate PositiveMap(m: map<int, int>) { forall p :: p in m ==> m[p] > 0 }

  // Folding the differences from prev to curr into prev gives curr, in whatever order they come.
  lemma DeltaRebuilds(changed: seq<PriceLevel>, prev: map<int, int>, curr: map<int, int>)
    requires IsDelta(changed, prev, curr) && PositiveMap(curr)
    ensures Folded(prev, changed) == curr
  {
    forall p
      ensures (p in Folded(prev, changed) <==> p in curr) && (p in curr ==> Folded(prev, changed)[p] == curr[p])
    {
      FoldedAt(prev, changed, p);
      if Mentions(changed, p) {
        var i :| 0 <= i < |changed| && changed[i].price == p;
        assert changed[i] in changed;
      } else {
        assert p in curr ==> PriceLevel(p, curr[p]) !in changed;
        assert PriceLevel(p, 0) !in changed;
      }
    }
  }

  lemma {:induction false} AsMapOfProper(levels: seq<PriceLevel>)
    requires forall l :: l in levels ==> l.quantity > 0
    ensures PositiveMap(AsMap(levels))
  {
    if levels != [] { AsMapOfProper(levels[..|levels| - 1]); }
  }

  // ---- The publisher ----

  datatype Step = Tick(symbol: string, snap: Option<DepthSnapshot>, delivered: bool, sent: Option<Message>)
                | Restart

  type Records = map<string, DepthSnapshot>

  predicate Idle(step: Step) {
    step.Tick? && (step.snap == None || step.snap.value.lastUpdateId == 0)
  }

  predicate NeedsFull(last: Records, symbol: string) {
    symbol !in last || last[symbol].lastUpdateId == 0
  }

  predicate SameLevels(a: DepthSnapshot, b: DepthSnapshot) {
    AsMap(a.bids) == AsMap(b.bids) && AsMap(a.asks) == AsMap(b.asks)
  }

  // What the publisher has recorded after a step.  A failed publish records nothing.
  function Recorded(last: Records, step: Step): Records {
    if step.Restart? then map[]
    else if Idle(step) then last
    else
      var s, snap := step.symbol, step.snap.value;
      if NeedsFull(last, s) then (if step.delivered then last[s := snap] else last)
      else if SameLevels(last[s], snap) || step.delivered then last[s := snap]
      else last
  }

  // What reaches the clients: nothing, a full snapshot, or the differences to the last record.
  ghost predicate Sends(last: Records, step: Step) {
    step.Tick? ==>
      if Idle(step) || !step.delivered then step.sent == None
      else
        var s, snap := step.symbol, step.snap.value;
        if NeedsFull(last, s) then step.sent == Some(Full(snap.bids, snap.asks))
        else if SameLevels(last[s], snap) then step.sent == None
        else
          && step.sent.Some? && step.sent.value.Delta?
          && IsDelta(step.sent.value.bids, AsMap(last[s].bids), AsMap(snap.bids))
          && IsDelta(step.sent.value.asks, AsMap(last[s].asks), AsMap(snap.asks))
  }

  lemma EmptyDelta(changed: seq<PriceLevel>, prev: map<int, int>, curr: map<int, int>)
    requires IsDelta(changed, prev, curr)
    ensures changed == [] <==> prev == curr
  {
    if changed == [] {
      forall p ensures (p in prev <==> p in curr) && (p in curr ==> prev[p] == curr[p]) {
        if p in curr { assert PriceLevel(p, curr[p]) !in changed; }
        assert PriceLevel(p, 0) !in changed;
      }
    } else {
      assert changed[0] in changed;
    }
  }

  class DepthPublisher {
    var lastBySymbol: Records

    constructor ()
      ensures lastBySymbol == map[]
    {
      lastBySymbol := map[];
    }

    // One symbol of one tick; delivered says whether a publish would succeed.
    method PublishTick(symbol: string, snap: Option<DepthSnapshot>, delivered: bool) returns (sent: Option<Message>)
      modifies this
      ensures var step := Tick(symbol, snap, delivered, sent);
              Sends(old(lastBySymbol), step) && lastBySymbol == Recorded(old(lastBySymbol), step)
      ensures delivered && snap.Some? && snap.value.lastUpdateId != 0 ==>
                lastBySymbol == old(lastBySymbol)[symbol := snap.value]
    {
      sent := None;
      if snap == None || snap.value.lastUpdateId == 0 {
        return;
      }
      var curr := snap.value;
      if symbol !in lastBySymbol || lastBySymbol[symbol].lastUpdateId == 0 {
        if !delivered { return; }
        sent := Some(Full(curr.bids, curr.asks));
        lastBySymbol := lastBySymbol[symbol := curr];
        return;
      }
      var prev := lastBySymbol[symbol];
      var bids := DiffOneSide(prev.bids, curr.bids);
      var asks := DiffOneSide(prev.asks, curr.asks);
      EmptyDelta(bids, AsMap(prev.bids), AsMap(curr.bids));
      EmptyDelta(asks, AsMap(prev.asks), AsMap(curr.asks));
      if |bids| == 0 && |asks| == 0 {
        lastBySymbol := lastBySymbol[symbol := curr];
        return;
      }
      if delivered {
        sent := Some(Delta(bids, asks));
        lastBySymbol := lastBySymbol[symbol := curr];
      }
    }
  }

  // ---- Runs ----

  datatype View = View(bids: map<int, int>, asks: map<int, int>)

  // The client of one symbol: a full snapshot replaces its view, a delta is folded into it.
  function Received(view: Option<View>, m: Message): Option<View> {
    match m
    case Full(bids, asks) => Some(View(AsMap(bids), AsMap(asks)))
    case Delta(bids, asks) =>
      if view == None then None else Some(View(Folded(view.value.bids, bids), Folded(view.value.asks, asks)))
  }

  function Client(symbol: string, steps: seq<Step>): Option<View> {
    if steps == [] then None
    else
      var before, step := Client(symbol, steps[..|steps| - 1]), steps[|steps| - 1];
      if step.Tick? && step.symbol == symbol && step.sent.Some? then Received(before, step.sent.value) else before
  }

  function Publisher(steps: seq<Step>): Records {
    if steps == [] then map[] else Recorded(Publisher(steps[..|steps| - 1]), steps[|steps| - 1])
  }

  // A run: every tick shows some depth snapshot of some book, and sends what the publisher sends.
  ghost predicate IsRun(steps: seq<Step>) {
    steps == [] ||
    (IsRun(steps[..|steps| - 1]) && Sends(Publisher(steps[..|steps| - 1]), steps[|steps| - 1])
     && Shows(steps[|steps| - 1]))
  }

  ghost predicate Shows(step: Step) {
    step.Tick? && step.snap.Some? ==> exists m: Mirror, limit: int :: IsDepthOf(step.snap.value, m, limit)
  }

  function LevelsOf(snap: DepthSnapshot): View { View(AsMap(snap.bids), AsMap(snap.asks)) }

  ghost predicate Following(last: Records, symbol: string, view: Option<View>) {
    symbol in last ==> last[symbol].lastUpdateId != 0 && view == Some(LevelsOf(last[symbol]))
  }

  // After any run, with failed publishes and restarts of the publisher, a client that heard it
  // from the start holds exactly the levels the publisher last recorded.
  lemma {:induction false} ClientFollowsPublisher(symbol: string, steps: seq<Step>)
    requires IsRun(steps)
    ensures Following(Publisher(steps), symbol, Client(symbol, steps))
  {
    if steps != [] {
      var before, step := steps[..|steps| - 1], steps[|steps| - 1];
      ClientFollowsPublisher(symbol, before);
      if step.Tick? && !Idle(step) && step.symbol == symbol {
        ShownIsPositive(step);
        TickFollowed(Publisher(before), symbol, Client(symbol, before), step);
      }
    }
  }

  // Once a tick with something to show is delivered, the client has exactly the levels shown.
  lemma ClientSeesWhatIsShown(symbol: string, steps: seq<Step>, snap: DepthSnapshot, sent: Option<Message>)
    requires IsRun(steps + [Tick(symbol, Some(snap), true, sent)]) && snap.lastUpdateId != 0
    ensures Client(symbol, steps + [Tick(symbol, Some(snap), true, sent)]) == Some(LevelsOf(snap))
  {
    var all := steps + [Tick(symbol, Some(snap), true, sent)];
    assert all[..|all| - 1] == steps;
    ClientFollowsPublisher(symbol, all);
  }

  lemma ShownIsPositive(step: Step)
    requires Shows(step) && step.Tick? && step.snap.Some?
    ensures PositiveMap(AsMap(step.snap.value.bids)) && PositiveMap(AsMap(step.snap.value.asks))
  {
    var m, limit :| IsDepthOf(step.snap.value, m, limit);
    AsMapOfProper(step.snap.value.bids);
    AsMapOfProper(step.snap.value.asks);
  }

  lemma TickFollowed(last: Records, symbol: string, view: Option<View>, step: Step)
    requires step.Tick? && !Idle(step) && step.symbol == symbol
    requires Sends(last, step) && Following(last, symbol, view)
    requires PositiveMap(AsMap(step.snap.value.bids)) && PositiveMap(AsMap(step.snap.value.asks))
    ensures Following(Recorded(last, step), symbol, if step.sent.Some? then Received(view, step.sent.value) else view)
  {
    var snap := step.snap.value;
    if step.delivered && !NeedsFull(last, symbol) && !SameLevels(last[symbol], snap) {
      DeltaRebuilds(step.sent.value.bids, AsMap(last[symbol].bids), AsMap(snap.bids));
      DeltaRebuilds(step.sent.value.asks, AsMap(last[symbol].asks), AsMap(snap.asks));
    }
  }

  // The map determines the list: a client that sorts its levels has the publisher's lists.
  lemma LevelsAreDetermined(a: seq<PriceLevel>, b: seq<PriceLevel>, desc: bool)
    requires BestFirst(a, desc) && BestFirst(b, desc)
    ensures AsMap(a) == AsMap(b) <==> a == b
  {
    if AsMap(a) == AsMap(b) {
      CompareLevelsIsThreeWay(desc);
      SortedIsBestFirst(a, desc);
      SortedIsBestFirst(b, desc);
      SortedPricesDiffer(a, desc);
      SortedPricesDiffer(b, desc);
      forall l ensures l in a <==> l in b {
        AsMapHolds(a, l);
        AsMapHolds(b, l);
      }
      SortedIsUnique(CompareLevels(desc), a, b);
    }
  }

  lemma SortedPricesDiffer(a: seq<PriceLevel>, desc: bool)
    requires BestFirst(a, desc)
    ensures DistinctPrices(a)
  {
  }

  lemma {:induction false} AsMapHolds(a: seq<PriceLevel>, l: PriceLevel)
    requires DistinctPrices(a)
    ensures l in a <==> l.price in AsMap(a) && AsMap(a)[l.price] == l.quantity
    ensures l.price in AsMap(a) <==> Mentions(a, l.price)
  {
    if a != [] {
      var n := |a| - 1;
      AsMapHolds(a[..n], l);
      MentionsMore(a, l.price);
      assert a == a[..n] + [a[n]];
      assert Mentions(a[..n], a[n].price) ==> false;
    }
  }

  lemma MentionsMore(a: seq<PriceLevel>, p: int)
    requires a != []
    ensures Mentions(a, p) <==> Mentions(a[..|a| - 1], p) || a[|a| - 1].price == p
  {
    var n := |a| - 1;
    if Mentions(a, p) && a[n].price != p {
      var i :| 0 <= i < |a| && a[i].price == p;
      assert a[..n][i].price == p;
    }
  }
}
