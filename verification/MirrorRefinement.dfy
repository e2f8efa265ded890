// The market-data mirror refines the matching book: folding the events of a batch, all built
// against the book as it is after the batch, leaves exactly the resting orders in the mirror.
module MirrorRefinement {
  import opened Wrappers
  import opened Orders
  import opened Convert
  import opened Events
  import opened MarketStore
  import opened MatchHandlers
  import M = Matcher
  import I = BookInvariant

  // ---- The mirror as one map ----

  ghost predicate Proper(m: Mirror) {
    && m.bids.Keys !! m.asks.Keys
    && (forall id :: id in m.bids ==> m.bids[id].side == "BUY")
    && (forall id :: id in m.asks ==> m.asks[id].side == "SELL")
  }

  function All(m: Mirror): map<nat, Entry> { m.bids + m.asks }

  // What each event does to the one map.
  function Entered(o: PbOrder): Entry
    requires o.price.Text? && EnteredRemaining(o).Text?
  {
    Entry(SideToString(o.side), o.price.value, EnteredRemaining(o).value)
  }

  lemma AcceptedAdds(m: Mirror, ev: MatchEvent)
    requires Proper(m) && ev.orderId != 0 && ev.symbol != "" && ev.typ == Accepted && ev.order.Some?
    requires var o := ev.order.value;
             && o.typ == PbLimit && o.side != PbNoSide && o.price.Text?
             && EnteredRemaining(o).Text? && EnteredRemaining(o).value >= 0
    requires ev.orderId !in All(m)
    ensures Apply(m, ev).Some?
    ensures var m' := Apply(m, ev).value; Proper(m') && All(m') == All(m)[ev.orderId := Entered(ev.order.value)]
  {
  }

  lemma RemainingSets(m: Mirror, id: nat, v: int)
    requires Proper(m) && id != 0 && v >= 0
    ensures SetTo(m, id, Some(v)).Some?
    ensures var m' := SetTo(m, id, Some(v)).value;
            && Proper(m')
            && All(m') == if id in All(m) then All(m)[id := All(m)[id].(remaining := v)] else All(m)
  {
  }

  lemma DropRemoves(m: Mirror, id: nat)
    requires Proper(m) && id != 0
    ensures Drop(m, id).Some? && Proper(Drop(m, id).value) && All(Drop(m, id).value) == All(m) - {id}
  {
  }

  // ---- Commands ----

  datatype Cmd = New(order: NewOrderCommand) | Cancel(cancel: CancelCommand)

  // A command the service sends: its order converts, is well sized, and does not carry an
  // explicit remainder of zero or less.
  predicate ValidCmd(c: Cmd) {
    match c
    case New(n) =>
      && OrderFromProto(n.order).Done? && I.WellSized(OrderFromProto(n.order).value)
      && (n.order.remaining.Text? ==> n.order.remaining.value > 0)
    case Cancel(x) => x.id != 0 && x.symbol != ""
  }

  function OrderOf(n: NewOrderCommand): Order
    requires OrderFromProto(n.order).Done?
  {
    OrderFromProto(n.order).value
  }

  function BookAfter(b: M.Book, c: Cmd, seqId: nat, clock: M.Clock): M.Book
    requires ValidCmd(c)
  {
    match c
    case New(n) => I.Apply(b, I.NewOrder(OrderOf(n)), seqId, clock)
    case Cancel(x) => M.Cancel(b, x.id)
  }

  function TradesOf(b: M.Book, c: Cmd, seqId: nat, clock: M.Clock): seq<Trade>
    requires ValidCmd(c)
  {
    if c.Cancel? then []
    else
      var out := M.Match(b, OrderOf(c.order), seqId, clock);
      if out.Matched? then out.trades else []
  }

  // The match events of a command, built against a book f.
  function EventsOf(c: Cmd, trades: seq<Trade>, f: M.Book, seqId: nat): seq<MatchEvent> {
    match c
    case New(n) => NewOrderEvents(f, n, trades, seqId).matchEvents
    case Cancel(x) => CancelEvents(x, seqId)
  }

  function Makers(trades: seq<Trade>): set<nat> { set i | 0 <= i < |trades| :: trades[i].maker }

  // ---- What one command does to the book ----

  ghost predicate Names(s: seq<Order>, live: map<nat, Order>) {
    && (forall i :: 0 <= i < |s| ==> s[i].id in live)
    && (forall i, j :: 0 <= i < j < |s| ==> s[i].id != s[j].id)
  }

  // Only orders that trade are changed or removed by a sweep.
  ghost predicate Touches(live: map<nat, Order>, taker: Order, r: M.Swept) {
    && Makers(r.trades) <= live.Keys
    && (forall id :: id in live && id !in Makers(r.trades) ==> id in r.live && r.live[id] == live[id])
    && (r.trades == [] ==> r.taker == taker)
  }

  lemma {:induction false} SweepTouches(s: seq<Order>, live: map<nat, Order>, taker: Order,
                                        seqId: nat, clock: M.Clock, ticks: nat)
    requires Names(s, live)
    ensures Touches(live, taker, M.Sweep(s, live, taker, seqId, clock, ticks))
    decreases |s|
  {
    if s != [] && taker.remaining != 0 && !M.StopMatch(taker, s[0].price) {
      M.SweepUnrolled(s, live, taker, seqId, clock, ticks);
      var r := M.Sweep(s, live, taker, seqId, clock, ticks);
      if taker.remaining < s[0].remaining {
        assert r.trades[0].maker == s[0].id;
        assert s[0].id in Makers(r.trades);
      } else {
        var taker' := M.Reduced(taker, s[0], clock(ticks));
        var rest := M.Sweep(s[1..], live - {s[0].id}, taker', seqId, clock, ticks + 1);
        SweepTouches(s[1..], live - {s[0].id}, taker', seqId, clock, ticks + 1);
        MakersCons(r.trades[0], rest.trades);
      }
    }
  }

  lemma MakersCons(t: Trade, trades: seq<Trade>)
    ensures Makers([t] + trades) == {t.maker} + Makers(trades)
  {
    var all := [t] + trades;
    forall i | 0 <= i < |trades| ensures trades[i].maker in Makers(all) { assert all[i + 1] == trades[i]; }
    assert all[0] == t;
    forall i | 0 < i < |all| ensures all[i].maker in Makers(trades) { assert all[i] == trades[i - 1]; }
  }

  // What a new order does to the live orders.
  ghost predicate NewOrderEffect(b: M.Book, o: Order, trades: seq<Trade>, b': M.Book) {
    && I.Sound(b')
    && Makers(trades) <= b.live.Keys
    && (forall id :: id in b'.live && id != o.id ==> id in b.live && I.Later(b'.live[id], b.live[id]))
    && (forall id :: id in b.live && id !in Makers(trades) ==> id in b'.live && b'.live[id] == b.live[id])
    && (o.id in b'.live ==>
          && o.typ == Limit && b'.live[o.id].side == o.side && b'.live[o.id].price == o.price
          && b'.live[o.id].remaining <= o.remaining)
    && (trades == [] && o.typ == Limit ==> o.id in b'.live && b'.live[o.id].remaining == o.remaining)
  }

  lemma SideNames(b: M.Book, side: Side)
    requires I.Coherent(b)
    ensures Names(b.At(side), b.live)
  {
  }

  // What is in the book behind a sweep: the makers, and the residual of a limit order.
  lemma MatchedLive(b: M.Book, o: Order, seqId: nat, clock: M.Clock)
    requires I.Coherent(b) && I.Open(b) && o.remaining > 0 && !o.typ.UnknownType? && o.id !in b.live
    ensures var r, out := M.Sweep(b.At(Opposite(o.side)), b.live, o, seqId, clock, 0), M.Match(b, o, seqId, clock);
            && I.SweptWell(b, o, r) && out.Matched? && out.trades == r.trades
            && if o.typ == Limit && r.taker.remaining > 0
               then o.id in out.book.live && Residual(out.book.live[o.id], r.taker)
                    && out.book.live == r.live[o.id := out.book.live[o.id]]
               else out.book.live == r.live
  {
    var side := Opposite(o.side);
    var r := M.Sweep(b.At(side), b.live, o, seqId, clock, 0);
    I.SweepKeepsCoherent(b, o, seqId, clock, 0);
    assert o.id !in r.live && r.taker.id == o.id;
    InsertedLive(b.With(side, r.opposite, r.live), r.taker, clock(r.ticks));
    assert M.Prepared(o) == o;
  }

  lemma InsertedLive(b: M.Book, o: Order, now: int)
    requires o.id !in b.live
    ensures var live' := M.Insert(b, o, now).live;
            o.id in live' && Residual(live'[o.id], o) && live' == b.live[o.id := live'[o.id]]
  {
  }

  predicate Residual(x: Order, taker: Order) { x == taker.(updateTime := x.updateTime) }

  lemma EffectOfSweep(live: map<nat, Order>, o: Order, r: M.Swept, live': map<nat, Order>)
    requires I.AllLater(r.live, live) && Touches(live, o, r) && o.id !in live && o.remaining > 0
    requires r.taker == o.(remaining := r.taker.remaining, updateTime := r.taker.updateTime)
    requires r.taker.remaining <= o.remaining
    requires if o.typ == Limit && r.taker.remaining > 0
             then o.id in live' && Residual(live'[o.id], r.taker) && live' == r.live[o.id := live'[o.id]]
             else live' == r.live
    ensures forall id :: id in live' && id != o.id ==> id in live && I.Later(live'[id], live[id])
    ensures forall id :: id in live && id !in Makers(r.trades) ==> id in live' && live'[id] == live[id]
    ensures o.id in live' ==> o.typ == Limit && live'[o.id].side == o.side && live'[o.id].price == o.price
                              && live'[o.id].remaining <= o.remaining
    ensures r.trades == [] && o.typ == Limit ==> o.id in live' && live'[o.id].remaining == o.remaining
  {
  }

  lemma NewOrderChanges(b: M.Book, o: Order, seqId: nat, clock: M.Clock)
    requires I.Sound(b) && I.WellSized(o) && o.remaining > 0 && !o.typ.UnknownType? && o.id !in b.live
    ensures var out := M.Match(b, o, seqId, clock); out.Matched? && NewOrderEffect(b, o, out.trades, out.book)
  {
    var side := Opposite(o.side);
    var r := M.Sweep(b.At(side), b.live, o, seqId, clock, 0);
    MatchedLive(b, o, seqId, clock);
    SideNames(b, side);
    SweepTouches(b.At(side), b.live, o, seqId, clock, 0);
    I.MatchKeepsSound(b, o, seqId, clock);
    EffectOfSweep(b.live, o, r, M.Match(b, o, seqId, clock).book.live);
  }

  // The orders of f come from b, no bigger than they were, or are among the new ids.
  ghost predicate Descends(b: M.Book, f: M.Book, news: set<nat>) {
    forall id {:trigger Descended(b, f, news, id)} :: Descended(b, f, news, id)
  }

  ghost predicate Descended(b: M.Book, f: M.Book, news: set<nat>, id: nat) {
    id in f.live ==>
      id in news ||
      (id in b.live && f.live[id].side == b.live[id].side && f.live[id].price == b.live[id].price
       && f.live[id].remaining <= b.live[id].remaining)
  }

  // ---- What its events do to the mirror ----

  function ApplyAll(m: Mirror, evs: seq<MatchEvent>): Option<Mirror>
    decreases |evs|
  {
    if evs == [] then Some(m)
    else
      var m' := Apply(m, evs[0]);
      if m' == None then None else ApplyAll(m'.value, evs[1..])
  }

  lemma {:induction false} ApplyInTwo(m: Mirror, x: seq<MatchEvent>, y: seq<MatchEvent>)
    ensures ApplyAll(m, x + y) == if ApplyAll(m, x) == None then None else ApplyAll(ApplyAll(m, x).value, y)
    decreases |x|
  {
    if x == [] {
      assert x + y == y;
    } else {
      assert (x + y)[0] == x[0] && (x + y)[1..] == x[1..] + y;
      if Apply(m, x[0]).Some? { ApplyInTwo(Apply(m, x[0]).value, x[1..], y); }
    }
  }

  // Makers still in f get the remainder they have there; the others are gone.
  ghost function AfterMakers(v: map<nat, Entry>, f: M.Book, makers: set<nat>): map<nat, Entry> {
    map id | id in v && (id in makers ==> id in f.live) ::
      if id in makers then v[id].(remaining := f.live[id].remaining) else v[id]
  }

  // Applying evs to m succeeds and leaves the orders v.
  ghost predicate Yields(m: Mirror, evs: seq<MatchEvent>, v: map<nat, Entry>) {
    var m' := ApplyAll(m, evs);
    m'.Some? && Proper(m'.value) && All(m'.value) == v
  }

  lemma {:induction false} MakerEventsApplied(m: Mirror, f: M.Book, symbol: string, trades: seq<Trade>,
                                              commandId: nat, seqId: nat)
    requires Proper(m) && I.Open(f) && symbol != "" && 0 !in Makers(trades)
    ensures Yields(m, MakerEvents(f, symbol, trades, commandId, seqId), AfterMakers(All(m), f, Makers(trades)))
  {
    if trades == [] {
      assert AfterMakers(All(m), f, {}) == All(m);
    } else {
      var rest, t := trades[..|trades| - 1], trades[|trades| - 1];
      assert trades == rest + [t];
      MakersSnoc(rest, t);
      MakerEventsApplied(m, f, symbol, rest, commandId, seqId);
      LastMakerEvent(f, symbol, rest, t, commandId, seqId);
      if t.maker !in Makers(rest) {
        var evs := MakerEvents(f, symbol, rest, commandId, seqId);
        ApplyInTwo(m, evs, [MakerFill(f, symbol, t, commandId, seqId)]);
        OneMakerApplied(ApplyAll(m, evs).value, All(m), f, Makers(rest), t, symbol, commandId, seqId);
      } else {
        assert Makers(trades) == Makers(rest);
      }
    }
  }

  lemma LastMakerEvent(f: M.Book, symbol: string, rest: seq<Trade>, t: Trade, commandId: nat, seqId: nat)
    ensures MakerEvents(f, symbol, rest + [t], commandId, seqId) ==
            MakerEvents(f, symbol, rest, commandId, seqId)
            + if t.maker in Makers(rest) then [] else [MakerFill(f, symbol, t, commandId, seqId)]
  {
  }

  lemma MakersSnoc(trades: seq<Trade>, t: Trade)
    ensures Makers(trades + [t]) == Makers(trades) + {t.maker}
  {
    var all := trades + [t];
    forall i | 0 <= i < |trades| ensures trades[i].maker in Makers(all) { assert all[i] == trades[i]; }
    assert all[|trades|] == t;
    forall i | 0 <= i < |trades| ensures all[i].maker in Makers(trades) { assert all[i] == trades[i]; }
  }

  lemma OneMakerApplied(m: Mirror, v: map<nat, Entry>, f: M.Book, makers: set<nat>,
                        tr: Trade, symbol: string, commandId: nat, seqId: nat)
    requires Proper(m) && I.Open(f) && symbol != "" && tr.maker != 0
    requires All(m) == AfterMakers(v, f, makers)
    ensures Yields(m, [MakerFill(f, symbol, tr, commandId, seqId)], AfterMakers(v, f, makers + {tr.maker}))
  {
    var ev := MakerFill(f, symbol, tr, commandId, seqId);
    if tr.maker in f.live {
      RemainingSets(m, tr.maker, f.live[tr.maker].remaining);
    } else {
      DropRemoves(m, tr.maker);
    }
    assert ApplyAll(m, [ev]) == Apply(m, ev);
    MakersOneMore(v, f, makers, tr.maker);
  }

  lemma MakersOneMore(v: map<nat, Entry>, f: M.Book, makers: set<nat>, id: nat)
    ensures var w := AfterMakers(v, f, makers);
            AfterMakers(v, f, makers + {id}) ==
            if id !in f.live then w - {id}
            else if id in w then w[id := w[id].(remaining := f.live[id].remaining)] else w
  {
  }

  // ---- One command, on both sides ----

  // The mirror v follows the book b on the way to the book f: it has no order that b has not,
  // and every order of b that is still in f, at no less than f's remainder; for the orders of
  // `exact` the remainder is that of b or already that of f.
  ghost predicate Tracks(v: map<nat, Entry>, b: M.Book, f: M.Book, exact: set<nat>) {
    forall id {:trigger Tracked(v, b, f, exact, id)} :: Tracked(v, b, f, exact, id)
  }

  ghost predicate Tracked(v: map<nat, Entry>, b: M.Book, f: M.Book, exact: set<nat>, id: nat) {
    && (id in v ==> id in b.live && SameQuote(v[id], b.live[id]))
    && (id in b.live && id in f.live ==>
          && id in v && v[id].remaining >= f.live[id].remaining
          && (id in exact ==> v[id].remaining == b.live[id].remaining || v[id].remaining == f.live[id].remaining))
  }

  predicate SameQuote(e: Entry, o: Order) {
    e.side == (if o.side == Buy then "BUY" else "SELL") && e.price == o.price
  }

  // The orders whose mirrored remainder is exact: those that entered without trading or have
  // traded as maker since.
  function ExactAfter(exact: set<nat>, c: Cmd, trades: seq<Trade>): set<nat> {
    match c
    case New(n) => exact - {n.order.id} + Makers(trades) + (if trades == [] then {n.order.id} else {})
    case Cancel(_) => exact
  }

  // What the taker's own events leave of it.
  ghost function AfterTaker(v: map<nat, Entry>, id: nat, f: M.Book, trades: seq<Trade>): map<nat, Entry> {
    if trades != [] && id !in f.live then v - {id} else v
  }

  lemma NewOrderEventsApplied(m: Mirror, c: Cmd, f: M.Book, trades: seq<Trade>, seqId: nat)
    requires c.New? && ValidCmd(c) && Proper(m) && I.Open(f) && 0 !in Makers(trades)
    requires c.order.order.id !in All(m) && c.order.order.id !in Makers(trades)
    ensures var o := OrderOf(c.order);
            Yields(m, EventsOf(c, trades, f, seqId), NewOrderMirror(All(m), f, o, trades))
  {
    var pb, o := c.order.order, OrderOf(c.order);
    var id := CommandId(c.order.commandId, pb.id);
    var accepted := MatchEvent(id, pb.symbol, pb.id, Accepted, Some(pb), seqId);
    var makers := MakerEvents(f, pb.symbol, trades, id, seqId);
    var m1 := Apply(m, accepted).value;
    if o.typ == Limit { AcceptedAdds(m, accepted); }
    assert ApplyAll(m, [accepted]) == Some(m1);
    MakerEventsApplied(m1, f, pb.symbol, trades, id, seqId);
    ApplyInTwo(m, [accepted], makers);
    if trades != [] {
      var m2 := ApplyAll(m1, makers).value;
      var taker := TakerFill(f, pb, id, seqId);
      ApplyInTwo(m, [accepted] + makers, [taker]);
      TakerApplied(m2, c, f, seqId);
    } else {
      assert [accepted] + makers + [] == [accepted] + makers;
    }
  }

  // A taker reported as partly filled keeps the remainder it came with.
  lemma TakerApplied(m: Mirror, c: Cmd, f: M.Book, seqId: nat)
    requires c.New? && ValidCmd(c) && Proper(m)
    requires c.order.order.id in All(m) ==> All(m)[c.order.order.id].remaining == OrderOf(c.order).remaining
    ensures var pb := c.order.order;
            Yields(m, [TakerFill(f, pb, CommandId(c.order.commandId, pb.id), seqId)],
                   if pb.id in f.live then All(m) else All(m) - {pb.id})
  {
    var pb := c.order.order;
    var ev := TakerFill(f, pb, CommandId(c.order.commandId, pb.id), seqId);
    assert ApplyAll(m, [ev]) == Apply(m, ev);
    if pb.id !in f.live {
      DropRemoves(m, pb.id);
    } else if pb.remaining.Text? {
      RemainingSets(m, pb.id, pb.remaining.value);
    }
  }

  function MirroredEntry(o: Order): Entry { Entry(if o.side == Buy then "BUY" else "SELL", o.price, o.remaining) }

  ghost function NewOrderMirror(v: map<nat, Entry>, f: M.Book, o: Order, trades: seq<Trade>): map<nat, Entry> {
    AfterTaker(AfterMakers(if o.typ == Limit then v[o.id := MirroredEntry(o)] else v, f, Makers(trades)), o.id, f,
               trades)
  }

  lemma NewOrderTracked(v: map<nat, Entry>, b: M.Book, b': M.Book, f: M.Book, o: Order, trades: seq<Trade>,
                        exact: set<nat>, news: set<nat>, id: nat)
    requires Tracked(v, b, f, exact, id) && o.id !in b.live && !o.typ.UnknownType?
    requires NewOrderEffect(b, o, trades, b') && Descended(b', f, news, id)
    requires news !! b.live.Keys && o.id !in news
    ensures Tracked(NewOrderMirror(v, f, o, trades), b', f,
                    exact - {o.id} + Makers(trades) + (if trades == [] then {o.id} else {}), id)
  {
    var w := if o.typ == Limit then v[o.id := MirroredEntry(o)] else v;
    if id == o.id {
      assert id !in Makers(trades) && id !in v;
    } else if id in Makers(trades) {
      assert id in AfterMakers(w, f, Makers(trades)) <==> id in v && id in f.live;
    } else {
      assert id in AfterMakers(w, f, Makers(trades)) <==> id in v;
    }
  }

  lemma CancelTracks(v: map<nat, Entry>, b: M.Book, f: M.Book, cancelled: nat, exact: set<nat>)
    requires Tracks(v, b, f, exact) && I.Sound(b)
    ensures Tracks(v - {cancelled}, M.Cancel(b, cancelled), f, exact)
  {
    I.CancelKeepsSound(b, cancelled);
    forall id ensures Tracked(v - {cancelled}, M.Cancel(b, cancelled), f, exact, id) {
      assert Tracked(v, b, f, exact, id);
    }
  }

  // ---- Batches ----

  function RunBook(b: M.Book, cs: seq<Cmd>, seqId: nat, clocks: nat -> M.Clock): M.Book
    requires forall i :: 0 <= i < |cs| ==> ValidCmd(cs[i])
    decreases |cs|
  {
    if cs == [] then b
    else RunBook(BookAfter(b, cs[0], seqId, clocks(seqId)), cs[1..], seqId + 1, clocks)
  }

  // The events of the commands, all built against f.
  function RunEvents(b: M.Book, cs: seq<Cmd>, f: M.Book, seqId: nat, clocks: nat -> M.Clock): seq<MatchEvent>
    requires forall i :: 0 <= i < |cs| ==> ValidCmd(cs[i])
    decreases |cs|
  {
    if cs == [] then []
    else
      EventsOf(cs[0], TradesOf(b, cs[0], seqId, clocks(seqId)), f, seqId)
      + RunEvents(BookAfter(b, cs[0], seqId, clocks(seqId)), cs[1..], f, seqId + 1, clocks)
  }

  ghost function RunExact(b: M.Book, cs: seq<Cmd>, exact: set<nat>, seqId: nat, clocks: nat -> M.Clock): set<nat>
    requires forall i :: 0 <= i < |cs| ==> ValidCmd(cs[i])
    decreases |cs|
  {
    if cs == [] then exact
    else RunExact(BookAfter(b, cs[0], seqId, clocks(seqId)), cs[1..],
                  ExactAfter(exact, cs[0], TradesOf(b, cs[0], seqId, clocks(seqId))), seqId + 1, clocks)
  }

  function NewIds(cs: seq<Cmd>): set<nat> {
    set i | 0 <= i < |cs| && cs[i].New? :: cs[i].order.order.id
  }

  // New orders carry ids that are neither resting nor used twice: anything else is recognised
  // as a duplicate before it reaches the book.
  ghost predicate FreshIds(b: M.Book, cs: seq<Cmd>) {
    && NewIds(cs) !! b.live.Keys
    && (forall i, j :: 0 <= i < j < |cs| && cs[i].New? && cs[j].New? ==> cs[i].order.order.id != cs[j].order.order.id)
  }

  ghost predicate Ready(b: M.Book, cs: seq<Cmd>) {
    && I.Sound(b) && 0 !in b.live && FreshIds(b, cs)
    && (forall i :: 0 <= i < |cs| ==> ValidCmd(cs[i]))
  }

  lemma NewIdsSplit(cs: seq<Cmd>)
    requires cs != []
    ensures NewIds(cs) == if cs[0].New? then NewIds(cs[1..]) + {cs[0].order.order.id} else NewIds(cs[1..])
  {
  }

  lemma FirstIsNotRepeated(b: M.Book, cs: seq<Cmd>)
    requires cs != [] && cs[0].New? && FreshIds(b, cs)
    ensures cs[0].order.order.id !in NewIds(cs[1..])
  {
  }

  lemma CommandKeepsReady(b: M.Book, cs: seq<Cmd>, seqId: nat, clock: M.Clock)
    requires cs != [] && Ready(b, cs)
    ensures var b' := BookAfter(b, cs[0], seqId, clock);
            && Ready(b', cs[1..])
            && b'.live.Keys <= b.live.Keys + (if cs[0].New? then {cs[0].order.order.id} else {})
    ensures cs[0].New? ==>
              NewOrderEffect(b, OrderOf(cs[0].order), TradesOf(b, cs[0], seqId, clock),
                             BookAfter(b, cs[0], seqId, clock))
              && cs[0].order.order.id !in NewIds(cs[1..])
  {
    NewIdsSplit(cs);
    match cs[0]
    case New(n) =>
      ConvertedOrders(n.order);
      assert n.order.id in NewIds(cs);
      NewOrderChanges(b, OrderOf(n), seqId, clock);
      FirstIsNotRepeated(b, cs);
    case Cancel(x) =>
      I.CancelKeepsSound(b, x.id);
  }

  lemma DescendsThroughOrder(b: M.Book, o: Order, trades: seq<Trade>, b': M.Book, f: M.Book, news: set<nat>)
    requires NewOrderEffect(b, o, trades, b') && Descends(b', f, news)
    ensures Descends(b, f, news + {o.id})
  {
    forall id ensures Descended(b, f, news + {o.id}, id) {
      assert Descended(b', f, news, id);
    }
  }

  lemma DescendsThroughCancel(b: M.Book, x: nat, f: M.Book, news: set<nat>)
    requires I.Sound(b) && Descends(M.Cancel(b, x), f, news)
    ensures Descends(b, f, news)
  {
    I.CancelKeepsSound(b, x);
    forall id ensures Descended(b, f, news, id) {
      assert Descended(M.Cancel(b, x), f, news, id);
    }
  }

  // What descends from the book after a command descends from the one before.
  lemma DescendsFurther(b: M.Book, cs: seq<Cmd>, f: M.Book, seqId: nat, clock: M.Clock)
    requires cs != [] && Ready(b, cs)
    requires Descends(BookAfter(b, cs[0], seqId, clock), f, NewIds(cs[1..]))
    ensures Descends(b, f, NewIds(cs))
  {
    NewIdsSplit(cs);
    match cs[0]
    case New(n) =>
      CommandKeepsReady(b, cs, seqId, clock);
      ConvertedOrders(n.order);
      DescendsThroughOrder(b, OrderOf(n), TradesOf(b, cs[0], seqId, clock), BookAfter(b, cs[0], seqId, clock), f,
                           NewIds(cs[1..]));
    case Cancel(x) =>
      DescendsThroughCancel(b, x.id, f, NewIds(cs[1..]));
  }

  lemma {:induction false} RunDescends(b: M.Book, cs: seq<Cmd>, seqId: nat, clocks: nat -> M.Clock)
    requires Ready(b, cs)
    ensures Descends(b, RunBook(b, cs, seqId, clocks), NewIds(cs)) && I.Sound(RunBook(b, cs, seqId, clocks))
    decreases |cs|
  {
    if cs != [] {
      CommandKeepsReady(b, cs, seqId, clocks(seqId));
      RunDescends(BookAfter(b, cs[0], seqId, clocks(seqId)), cs[1..], seqId + 1, clocks);
      DescendsFurther(b, cs, RunBook(b, cs, seqId, clocks), seqId, clocks(seqId));
    }
  }

  // The mirror after a command's events still tracks the book.
  ghost predicate StepTracks(m: Mirror, evs: seq<MatchEvent>, b': M.Book, f: M.Book, exact: set<nat>) {
    var m' := ApplyAll(m, evs);
    m'.Some? && Proper(m'.value) && Tracks(All(m'.value), b', f, exact)
  }

  lemma NewOrderStep(m: Mirror, b: M.Book, cs: seq<Cmd>, f: M.Book, exact: set<nat>, seqId: nat, clock: M.Clock)
    requires cs != [] && cs[0].New? && Ready(b, cs) && Proper(m) && I.Sound(f)
    requires Tracks(All(m), b, f, exact)
    requires Descends(BookAfter(b, cs[0], seqId, clock), f, NewIds(cs[1..]))
    ensures var trades := TradesOf(b, cs[0], seqId, clock);
            StepTracks(m, EventsOf(cs[0], trades, f, seqId), BookAfter(b, cs[0], seqId, clock), f,
                       ExactAfter(exact, cs[0], trades))
  {
    var trades, b', o := TradesOf(b, cs[0], seqId, clock), BookAfter(b, cs[0], seqId, clock), OrderOf(cs[0].order);
    var news := NewIds(cs[1..]);
    CommandKeepsReady(b, cs, seqId, clock);
    NewIdsSplit(cs);
    ConvertedOrders(cs[0].order.order);
    assert Tracked(All(m), b, f, exact, o.id);
    NewOrderEventsApplied(m, cs[0], f, trades, seqId);
    forall id ensures Tracked(NewOrderMirror(All(m), f, o, trades), b', f, ExactAfter(exact, cs[0], trades), id) {
      assert Tracked(All(m), b, f, exact, id) && Descended(b', f, news, id);
      NewOrderTracked(All(m), b, b', f, o, trades, exact, news, id);
    }
  }

  lemma CancelStep(m: Mirror, b: M.Book, x: CancelCommand, f: M.Book, exact: set<nat>, seqId: nat)
    requires I.Sound(b) && Proper(m) && x.id != 0 && x.symbol != ""
    requires Tracks(All(m), b, f, exact)
    ensures StepTracks(m, CancelEvents(x, seqId), M.Cancel(b, x.id), f, exact)
  {
    var evs := CancelEvents(x, seqId);
    assert ApplyAll(m, evs) == Apply(m, evs[0]);
    DropRemoves(m, x.id);
    CancelTracks(All(m), b, f, x.id, exact);
  }

  lemma {:induction false} RunTracks(m: Mirror, b: M.Book, cs: seq<Cmd>, f: M.Book, exact: set<nat>,
                                     seqId: nat, clocks: nat -> M.Clock)
    requires Ready(b, cs) && Proper(m) && f == RunBook(b, cs, seqId, clocks)
    requires Tracks(All(m), b, f, exact)
    ensures StepTracks(m, RunEvents(b, cs, f, seqId, clocks), f, f, RunExact(b, cs, exact, seqId, clocks))
    decreases |cs|
  {
    if cs != [] {
      var b' := BookAfter(b, cs[0], seqId, clocks(seqId));
      var trades := TradesOf(b, cs[0], seqId, clocks(seqId));
      var evs := EventsOf(cs[0], trades, f, seqId);
      CommandKeepsReady(b, cs, seqId, clocks(seqId));
      RunDescends(b', cs[1..], seqId + 1, clocks);
      assert StepTracks(m, evs, b', f, ExactAfter(exact, cs[0], trades)) by {
        if cs[0].New? {
          NewOrderStep(m, b, cs, f, exact, seqId, clocks(seqId));
        } else {
          CancelStep(m, b, cs[0].cancel, f, exact, seqId);
        }
      }
      RunTracks(ApplyAll(m, evs).value, b', cs[1..], f, ExactAfter(exact, cs[0], trades), seqId + 1, clocks);
      ApplyInTwo(m, evs, RunEvents(b', cs[1..], f, seqId + 1, clocks));
    }
  }

  // The mirror shows exactly the resting orders, at their price and side and with no less than
  // they have left; exactly what they have left for the orders of `exact`.
  ghost predicate Mirrors(m: Mirror, b: M.Book, exact: set<nat>) {
    && Proper(m) && All(m).Keys == b.live.Keys
    && (forall id :: id in b.live ==>
          && SameQuote(All(m)[id], b.live[id])
          && All(m)[id].remaining >= b.live[id].remaining
          && (id in exact ==> All(m)[id].remaining == b.live[id].remaining))
  }

  // Batch after batch the mirror stays in step with the book; a batch of one is the path
  // without group commit.
  lemma BatchKeepsMirror(m: Mirror, b: M.Book, cs: seq<Cmd>, exact: set<nat>, seqId: nat, clocks: nat -> M.Clock)
    requires Ready(b, cs) && Mirrors(m, b, exact)
    ensures var f := RunBook(b, cs, seqId, clocks);
            var m' := ApplyAll(m, RunEvents(b, cs, f, seqId, clocks));
            m'.Some? && Mirrors(m'.value, f, RunExact(b, cs, exact, seqId, clocks))
  {
    var f := RunBook(b, cs, seqId, clocks);
    RunDescends(b, cs, seqId, clocks);
    StartsTracking(m, b, f, exact, NewIds(cs));
    RunTracks(m, b, cs, f, exact, seqId, clocks);
    EndsMirrored(ApplyAll(m, RunEvents(b, cs, f, seqId, clocks)).value, f, RunExact(b, cs, exact, seqId, clocks));
  }

  function Concat(batches: seq<seq<Cmd>>): seq<Cmd> {
    if batches == [] then [] else batches[0] + Concat(batches[1..])
  }

  // The matching book and its mirror, between batches.
  datatype System = System(mirror: Mirror, book: M.Book, exact: set<nat>, seqId: nat)

  ghost predicate InStep(st: System) { Mirrors(st.mirror, st.book, st.exact) }

  ghost function BatchDone(st: System, cs: seq<Cmd>, clocks: nat -> M.Clock): Option<System>
    requires forall i :: 0 <= i < |cs| ==> ValidCmd(cs[i])
  {
    var f := RunBook(st.book, cs, st.seqId, clocks);
    var m' := ApplyAll(st.mirror, RunEvents(st.book, cs, f, st.seqId, clocks));
    if m' == None then None
    else Some(System(m'.value, f, RunExact(st.book, cs, st.exact, st.seqId, clocks), st.seqId + |cs|))
  }

  ghost predicate AllValid(batches: seq<seq<Cmd>>) {
    forall i, j :: 0 <= i < |batches| && 0 <= j < |batches[i]| ==> ValidCmd(batches[i][j])
  }

  ghost function BatchesDone(st: System, batches: seq<seq<Cmd>>, clocks: nat -> M.Clock): Option<System>
    requires AllValid(batches)
    decreases |batches|
  {
    if batches == [] then Some(st)
    else
      var next := BatchDone(st, batches[0], clocks);
      if next == None then None else BatchesDone(next.value, batches[1..], clocks)
  }

  lemma BatchStep(st: System, cs: seq<Cmd>, rest: seq<Cmd>, clocks: nat -> M.Clock)
    requires Ready(st.book, cs + rest) && InStep(st)
    ensures (forall i :: 0 <= i < |cs| ==> ValidCmd(cs[i])) && BatchDone(st, cs, clocks).Some?
    ensures var next := BatchDone(st, cs, clocks).value; InStep(next) && Ready(next.book, rest)
  {
    RunKeepsReady(st.book, cs, rest, st.seqId, clocks);
    BatchKeepsMirror(st.mirror, st.book, cs, st.exact, st.seqId, clocks);
  }

  // Over any run, however it is cut into batches, the mirror ends in step with the book.
  lemma {:induction false} EveryRunKeepsMirror(st: System, batches: seq<seq<Cmd>>, clocks: nat -> M.Clock)
    requires AllValid(batches) && Ready(st.book, Concat(batches)) && InStep(st)
    ensures BatchesDone(st, batches, clocks).Some? && InStep(BatchesDone(st, batches, clocks).value)
    decreases |batches|
  {
    if batches != [] {
      BatchStep(st, batches[0], Concat(batches[1..]), clocks);
      EveryRunKeepsMirror(BatchDone(st, batches[0], clocks).value, batches[1..], clocks);
    }
  }

  lemma {:induction false} RunKeepsReady(b: M.Book, x: seq<Cmd>, y: seq<Cmd>, seqId: nat, clocks: nat -> M.Clock)
    requires Ready(b, x + y)
    ensures Ready(b, x) && Ready(RunBook(b, x, seqId, clocks), y)
    decreases |x|
  {
    PrefixReady(b, x, y);
    if x == [] {
      assert x + y == y;
    } else {
      assert (x + y)[0] == x[0] && (x + y)[1..] == x[1..] + y;
      CommandKeepsReady(b, x + y, seqId, clocks(seqId));
      RunKeepsReady(BookAfter(b, x[0], seqId, clocks(seqId)), x[1..], y, seqId + 1, clocks);
    }
  }

  lemma PrefixReady(b: M.Book, x: seq<Cmd>, y: seq<Cmd>)
    requires Ready(b, x + y)
    ensures Ready(b, x)
  {
    forall i | 0 <= i < |x| ensures x[i] == (x + y)[i] {}
    forall i | 0 <= i < |x| && x[i].New? ensures x[i].order.order.id in NewIds(x + y) {
      assert (x + y)[i] == x[i];
    }
  }

  lemma StartsTracking(m: Mirror, b: M.Book, f: M.Book, exact: set<nat>, news: set<nat>)
    requires Mirrors(m, b, exact) && Descends(b, f, news) && news !! b.live.Keys
    ensures Tracks(All(m), b, f, exact)
  {
    forall id ensures Tracked(All(m), b, f, exact, id) { assert Descended(b, f, news, id); }
  }

  lemma EndsMirrored(m: Mirror, f: M.Book, exact: set<nat>)
    requires Proper(m) && Tracks(All(m), f, f, exact)
    ensures Mirrors(m, f, exact)
  {
    forall id ensures Tracked(All(m), f, f, exact, id) {}
    assert forall id :: id in All(m) || id in f.live ==> Tracked(All(m), f, f, exact, id);
  }

  // An explicit remainder of zero is taken as the whole quantity by the matcher and as zero by
  // the mirror: exactly then does an accepted order enter the two differently.
  lemma EnteredAlike(pb: PbOrder)
    requires OrderFromProto(pb).Done? && pb.typ == PbLimit
    ensures Value(EnteredRemaining(pb)) == Some(OrderFromProto(pb).value.remaining) <==>
            (pb.remaining.Text? ==> pb.remaining.value > 0)
  {
  }
}
