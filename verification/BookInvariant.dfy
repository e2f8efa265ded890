// What every reachable order book keeps: both sides strictly sorted, an order map that agrees
// with them entry by entry, open quantities in range, and the best bid below the best ask.
module BookInvariant {
  import opened Sorting
  import opened Wrappers
  import opened Orders
  import opened Matcher

  predicate Holds(live: map<nat, Order>, x: Order) { x.id in live && live[x.id] == x }

  ghost predicate Keyed(live: map<nat, Order>) {
    forall id :: id in live ==> live[id].id == id
  }

  // A list is sorted and holds exactly the live orders of its side.
  ghost predicate ListsSide(s: seq<Order>, live: map<nat, Order>, side: Side) {
    && Sorted(Comparator(side), s)
    && (forall x :: x in s <==> Holds(live, x) && x.side == side)
  }

  // The two lists and the order map hold the same orders.
  ghost predicate Coherent(b: Book) {
    && Keyed(b.live)
    && ListsSide(b.asks, b.live, Sell)
    && ListsSide(b.bids, b.live, Buy)
  }

  ghost predicate Positive(b: Book) { forall id :: id in b.live ==> 0 < b.live[id].remaining }

  ghost predicate InSize(b: Book) { forall id :: id in b.live ==> b.live[id].remaining <= b.live[id].quantity }

  ghost predicate Open(b: Book) { Positive(b) && InSize(b) }

  ghost predicate Uncrossed(b: Book) {
    forall i, j :: i in b.live && j in b.live && b.live[i].side == Buy && b.live[j].side == Sell ==>
      b.live[i].price < b.live[j].price
  }

  ghost predicate Sound(b: Book) { Coherent(b) && Open(b) && Uncrossed(b) }

  // Sound but for the size of what rests.
  ghost predicate Consistent(b: Book) { Coherent(b) && Positive(b) && Uncrossed(b) }

  // What can rest of the order is not more than its quantity; a remainder of 0 stands for the
  // whole quantity.
  predicate WellSized(o: Order) {
    o.quantity > 0 && o.remaining >= 0 && (o.typ == Limit ==> o.remaining <= o.quantity)
  }

  lemma PutLists(s: seq<Order>, live: map<nat, Order>, o: Order)
    requires ListsSide(s, live, o.side) && o.id !in live
    ensures ListsSide(Put(Comparator(o.side), s, o), live[o.id := o], o.side)
  {
    var cmp := Comparator(o.side);
    ComparatorsAreThreeWay();
    PutSorted(cmp, s, o);
    forall x ensures x in Put(cmp, s, o) <==> Holds(live[o.id := o], x) && x.side == o.side {
      PutIsSetInsert(cmp, s, o, x);
      SameKey(o.side, x, o);
    }
  }

  lemma RemoveLists(s: seq<Order>, live: map<nat, Order>, o: Order)
    requires ListsSide(s, live, o.side) && Holds(live, o)
    ensures ListsSide(Remove(Comparator(o.side), s, o), live - {o.id}, o.side)
  {
    var cmp := Comparator(o.side);
    ComparatorsAreThreeWay();
    RemoveSorted(cmp, s, o);
    forall x ensures x in Remove(cmp, s, o) <==> Holds(live - {o.id}, x) && x.side == o.side {
      RemoveIsSetDelete(cmp, s, o, x);
      SameKey(o.side, x, o);
    }
  }

  // The list of the other side does not notice.
  lemma OtherSideLists(s: seq<Order>, live: map<nat, Order>, o: Order)
    requires ListsSide(s, live, Opposite(o.side))
    ensures o.id !in live ==> ListsSide(s, live[o.id := o], Opposite(o.side))
    ensures Holds(live, o) ==> ListsSide(s, live - {o.id}, Opposite(o.side))
  {
  }

  lemma AddKeepsCoherent(b: Book, o: Order)
    requires Coherent(b) && o.id !in b.live
    ensures Coherent(b.With(o.side, Put(Comparator(o.side), b.At(o.side), o), b.live[o.id := o]))
  {
    PutLists(b.At(o.side), b.live, o);
    OtherSideLists(b.At(Opposite(o.side)), b.live, o);
  }

  lemma DropKeepsCoherent(b: Book, o: Order)
    requires Coherent(b) && Holds(b.live, o)
    ensures Coherent(b.With(o.side, Remove(Comparator(o.side), b.At(o.side), o), b.live - {o.id}))
  {
    RemoveLists(b.At(o.side), b.live, o);
    OtherSideLists(b.At(Opposite(o.side)), b.live, o);
  }

  // An order of a coherent book is found under its own key.
  lemma HeldIsResting(b: Book, o: Order)
    requires Coherent(b) && Holds(b.live, o)
    ensures Resting(b, o) && Find(Comparator(o.side), b.At(o.side), o) == Some(o)
  {
    ComparatorsAreThreeWay();
    assert ListsSide(b.At(o.side), b.live, o.side);
    FindIsSetMember(Comparator(o.side), b.At(o.side), o, o);
  }

  // An id is in the map exactly when some listed order has it, and the map holds that order.
  lemma FoundIsListed(b: Book, id: nat)
    requires Coherent(b)
    ensures id in b.live <==> exists o :: o in b.asks + b.bids && o.id == id
    ensures forall o :: o in b.asks + b.bids && o.id == id ==> id in b.live && b.live[id] == o
  {
    if id in b.live {
      var o := b.live[id];
      assert Holds(b.live, o);
      assert o in b.At(o.side);
      assert o in b.asks + b.bids;
    }
  }

  lemma InsertKeepsCoherent(b: Book, o: Order, now: int)
    requires Coherent(b)
    ensures Coherent(Insert(b, o, now))
    ensures o.id in b.live ==> Insert(b, o, now) == b
  {
    if o.id in b.live {
      HeldIsResting(b, b.live[o.id]);
    } else {
      AddKeepsCoherent(b, if o.updateTime == ZERO_TIME then o.(updateTime := now) else o);
    }
  }

  // What trading may change in a resting order.
  predicate Later(x: Order, was: Order) {
    && x == was.(remaining := x.remaining, updateTime := x.updateTime)
    && 0 < x.remaining <= was.remaining
  }

  ghost predicate AllLater(live': map<nat, Order>, live: map<nat, Order>) {
    forall id :: id in live' ==> id in live && Later(live'[id], live[id])
  }

  // What a sweep leaves: a coherent book whose orders were there before, and the same taker
  // with less to trade.
  ghost predicate SweptWell(b: Book, taker: Order, r: Swept) {
    && Coherent(b.With(Opposite(taker.side), r.opposite, r.live))
    && AllLater(r.live, b.live)
    && r.taker == taker.(remaining := r.taker.remaining, updateTime := r.taker.updateTime)
    && 0 <= r.taker.remaining <= taker.remaining
  }

  lemma {:induction false} SweepKeepsCoherent(b: Book, taker: Order, commandSeq: nat, clock: Clock, ticks: nat)
    requires Coherent(b) && Positive(b) && taker.remaining >= 0
    ensures SweptWell(b, taker, Sweep(b.At(Opposite(taker.side)), b.live, taker, commandSeq, clock, ticks))
    decreases |b.At(Opposite(taker.side))|
  {
    var side := Opposite(taker.side);
    var s := b.At(side);
    if s == [] || taker.remaining == 0 || StopMatch(taker, s[0].price) {
      assert b.With(side, s, b.live) == b;
    } else {
      SweepUnrolled(s, b.live, taker, commandSeq, clock, ticks);
      if taker.remaining < s[0].remaining {
        MakerStays(b, taker, commandSeq, clock, ticks);
      } else {
        MakerLeaves(b, side);
        var b1 := b.With(side, s[1..], b.live - {s[0].id});
        var taker' := Reduced(taker, s[0], clock(ticks));
        SweepKeepsCoherent(b1, taker', commandSeq, clock, ticks + 1);
        SweptOnward(b, b1, taker, taker',
                    Sweep(s[1..], b1.live, taker', commandSeq, clock, ticks + 1),
                    Sweep(s, b.live, taker, commandSeq, clock, ticks));
      }
    }
  }

  lemma MakerLeaves(b: Book, side: Side)
    requires Coherent(b) && b.At(side) != []
    ensures Holds(b.live, b.At(side)[0]) && b.At(side)[0].side == side
    ensures Coherent(b.With(side, b.At(side)[1..], b.live - {b.At(side)[0].id}))
  {
    assert ListsSide(b.At(side), b.live, side);
    assert b.At(side)[0] in b.At(side);
    FrontRemoved(side, b.At(side));
    DropKeepsCoherent(b, b.At(side)[0]);
  }

  lemma PutBack(live: map<nat, Order>, k: nat, o: Order)
    ensures (live - {k})[k := o] == live[k := o]
  {
  }

  lemma ReplaceLists(s: seq<Order>, live: map<nat, Order>, o: Order, o': Order)
    requires ListsSide(s, live, o.side) && Holds(live, o) && o'.id == o.id && o'.side == o.side
    ensures ListsSide(Put(Comparator(o.side), Remove(Comparator(o.side), s, o), o'), live[o.id := o'], o.side)
  {
    RemoveLists(s, live, o);
    PutLists(Remove(Comparator(o.side), s, o), live - {o.id}, o');
    PutBack(live, o.id, o');
  }

  lemma ReplaceOther(s: seq<Order>, live: map<nat, Order>, o: Order, o': Order)
    requires ListsSide(s, live, Opposite(o.side)) && Holds(live, o) && o'.id == o.id && o'.side == o.side
    ensures ListsSide(s, live[o.id := o'], Opposite(o.side))
  {
  }

  lemma ReplaceKeepsCoherent(b: Book, o: Order, o': Order)
    requires Coherent(b) && Holds(b.live, o) && o'.id == o.id && o'.side == o.side
    ensures Coherent(b.With(o.side, Put(Comparator(o.side), Remove(Comparator(o.side), b.At(o.side), o), o'),
                            b.live[o.id := o']))
  {
    ReplaceLists(b.At(o.side), b.live, o, o');
    ReplaceOther(b.At(Opposite(o.side)), b.live, o, o');
  }

  lemma MakerStays(b: Book, taker: Order, commandSeq: nat, clock: Clock, ticks: nat)
    requires var s := b.At(Opposite(taker.side));
             Coherent(b) && Positive(b) && s != [] && 0 < taker.remaining < s[0].remaining
    ensures SweptWell(b, taker, StoppedAt(b.At(Opposite(taker.side)), b.live, taker, commandSeq, clock, ticks))
  {
    var side := Opposite(taker.side);
    var maker := b.At(side)[0];
    var maker' := maker.(remaining := maker.remaining - taker.remaining, updateTime := clock(ticks));
    var r := StoppedAt(b.At(side), b.live, taker, commandSeq, clock, ticks);
    MakerLeaves(b, side);
    assert AllLater(r.live, b.live) by { OneLater(b.live, maker, maker'); }
    assert Coherent(b.With(side, r.opposite, r.live)) by {
      FrontRemoved(side, b.At(side));
      ReplaceKeepsCoherent(b, maker, maker');
    }
  }

  lemma OneLater(live: map<nat, Order>, o: Order, o': Order)
    requires Holds(live, o) && Later(o', o)
    requires forall id :: id in live ==> 0 < live[id].remaining
    ensures AllLater(live[o.id := o'], live)
  {
  }

  lemma SweptOnward(b: Book, b1: Book, taker: Order, taker': Order, rest: Swept, r: Swept)
    requires b1.live.Keys <= b.live.Keys && forall id :: id in b1.live ==> b1.live[id] == b.live[id]
    requires b1 == b.With(Opposite(taker.side), b1.At(Opposite(taker.side)), b1.live)
    requires taker' == taker.(remaining := taker'.remaining, updateTime := taker'.updateTime)
    requires taker'.remaining <= taker.remaining
    requires SweptWell(b1, taker', rest)
    requires (r.opposite, r.live, r.taker) == (rest.opposite, rest.live, rest.taker)
    ensures SweptWell(b, taker, r)
  {
  }

  lemma FrontRemoved(side: Side, s: seq<Order>)
    requires s != []
    ensures Remove(Comparator(side), s, s[0]) == s[1..]
  {
  }

  // A taker that is not used up has met every order it may trade with.
  lemma {:induction false} SweepExhausts(s: seq<Order>, live: map<nat, Order>, taker: Order,
                                         commandSeq: nat, clock: Clock, ticks: nat)
    requires Sorted(Comparator(Opposite(taker.side)), s) && AllPositive(s) && taker.remaining >= 0
    ensures var r := Sweep(s, live, taker, commandSeq, clock, ticks);
            r.taker.remaining > 0 ==> forall x :: x in r.opposite ==> StopMatch(taker, x.price)
    decreases |s|
  {
    if s == [] || taker.remaining == 0 {
    } else if StopMatch(taker, s[0].price) {
      forall x | x in s ensures StopMatch(taker, x.price) {
        var i :| 0 <= i < |s| && s[i] == x;
        assert i > 0 ==> Comparator(Opposite(taker.side))(s[0], s[i]) < 0;
      }
    } else if taker.remaining >= s[0].remaining {
      var taker' := taker.(remaining := taker.remaining - s[0].remaining, updateTime := clock(ticks));
      SweepExhausts(s[1..], live - {s[0].id}, taker', commandSeq, clock, ticks + 1);
    }
  }

  lemma SidePositive(b: Book, side: Side)
    requires Coherent(b) && Positive(b)
    ensures AllPositive(b.At(side))
  {
  }

  // Every order keeps the book consistent, whatever the clock does and whether or not the order
  // id is new; and one that is well sized keeps it sound.
  lemma MatchKeepsSound(b: Book, order: Order, commandSeq: nat, clock: Clock)
    requires Consistent(b) && order.quantity > 0 && order.remaining >= 0
    ensures Match(b, order, commandSeq, clock).Matched? ==> Consistent(Match(b, order, commandSeq, clock).book)
    ensures Match(b, order, commandSeq, clock).Matched? && InSize(b) && WellSized(order) ==>
              Sound(Match(b, order, commandSeq, clock).book)
  {
    var taker := Prepared(order);
    var side := Opposite(taker.side);
    var r := Sweep(b.At(side), b.live, taker, commandSeq, clock, 0);
    var b' := b.With(side, r.opposite, r.live);
    SweepKeepsCoherent(b, taker, commandSeq, clock, 0);
    assert Positive(b') && Uncrossed(b') && (InSize(b) ==> InSize(b'));
    if taker.typ == Limit && r.taker.remaining > 0 {
      SidePositive(b, side);
      SweepExhausts(b.At(side), b.live, taker, commandSeq, clock, 0);
      InsertKeepsCoherent(b', r.taker, clock(r.ticks));
      ResidualDoesNotCross(b', r.taker, clock(r.ticks));
    }
  }

  ghost predicate SafeEverywhere(order: Order) {
    forall b: Book, n: nat, clock: Clock {:trigger Match(b, order, n, clock)} ::
      Sound(b) && Match(b, order, n, clock).Matched? ==> Sound(Match(b, order, n, clock).book)
  }

  // The conversion from protobuf lets in a remainder above the quantity.  An order is safe for
  // every sound book exactly when it cannot rest with such a remainder.
  lemma SafeExactlyWhen(order: Order)
    requires order.quantity > 0 && order.remaining >= 0
    ensures SafeEverywhere(order) <==> (order.typ == Limit ==> order.remaining <= order.quantity)
  {
    if order.typ == Limit && order.remaining > order.quantity {
      var clock: Clock := k => 1;
      var b := Match(EMPTY_BOOK, order, 1, clock).book;
      assert order.id in b.live && b.live[order.id].remaining > b.live[order.id].quantity;
      assert Sound(EMPTY_BOOK) && !Sound(b);
    } else {
      forall b: Book, n: nat, clock: Clock | Sound(b) && Match(b, order, n, clock).Matched?
        ensures Sound(Match(b, order, n, clock).book)
      {
        MatchKeepsSound(b, order, n, clock);
      }
    }
  }

  lemma ResidualDoesNotCross(b: Book, taker: Order, now: int)
    requires Consistent(b) && 0 < taker.remaining && taker.typ == Limit
    requires forall x :: x in b.At(Opposite(taker.side)) ==> StopMatch(taker, x.price)
    ensures Positive(Insert(b, taker, now)) && Uncrossed(Insert(b, taker, now))
    ensures InSize(b) && taker.remaining <= taker.quantity ==> InSize(Insert(b, taker, now))
  {
    if taker.id in b.live {
      InsertKeepsCoherent(b, taker, now);
    } else {
      forall id | id in b.live && b.live[id].side != taker.side ensures StopMatch(taker, b.live[id].price) {
        assert Holds(b.live, b.live[id]);
      }
    }
  }

  lemma CancelKeepsSound(b: Book, id: nat)
    requires Sound(b)
    ensures Sound(Cancel(b, id)) && Cancel(b, id).live == b.live - {id}
  {
    if id in b.live { DropKeepsCoherent(b, b.live[id]); }
  }

  datatype Command = NewOrder(order: Order) | CancelOrder(id: nat)

  function Apply(b: Book, c: Command, commandSeq: nat, clock: Clock): Book {
    match c
    case NewOrder(order) =>
      var out := Match(b, order, commandSeq, clock);
      if out.Matched? then out.book else b
    case CancelOrder(id) => Cancel(b, id)
  }

  // The book after a run of commands; command k reads the clock clocks(k).
  function Reached(cs: seq<Command>, clocks: nat -> Clock): Book {
    if cs == [] then EMPTY_BOOK
    else Apply(Reached(cs[..|cs| - 1], clocks), cs[|cs| - 1], |cs|, clocks(|cs|))
  }

  lemma {:induction false} EveryReachedBookIsSound(cs: seq<Command>, clocks: nat -> Clock)
    requires forall i :: 0 <= i < |cs| && cs[i].NewOrder? ==> WellSized(cs[i].order)
    ensures Sound(Reached(cs, clocks))
  {
    if cs != [] {
      var b := Reached(cs[..|cs| - 1], clocks);
      EveryReachedBookIsSound(cs[..|cs| - 1], clocks);
      match cs[|cs| - 1]
      case NewOrder(order) => MatchKeepsSound(b, order, |cs|, clocks(|cs|));
      case CancelOrder(id) => CancelKeepsSound(b, id);
    }
  }

  // In a sound book the fronts of the two lists are the best prices, and they do not cross.
  lemma BestBidBelowBestAsk(b: Book)
    requires Sound(b) && b.asks != [] && b.bids != []
    ensures b.bids[0].price < b.asks[0].price
    ensures forall x :: x in b.asks ==> b.asks[0].price <= x.price
    ensures forall x :: x in b.bids ==> x.price <= b.bids[0].price
  {
  }
}
