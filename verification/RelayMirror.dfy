// The market-data mirror behind the relay: the relay sends records again, the mirror applies them
// again, and still ends where one pass over the outbox ends.
module RelayMirror {
  import opened Wrappers
  import opened Events
  import opened MarketStore
  import opened MatchHandlers
  import opened Relay
  import opened Outbox = OutboxRecord
  import C = Convert
  import F = Framing

  // How a record reads for the mirror of one symbol: as one of its match events, or not at all.
  type Decode = Record -> Option<MatchEvent>

  // An event that cannot be applied is skipped.
  function Consume(decode: Decode, m: Mirror, r: Record): Mirror {
    match decode(r)
    case None => m
    case Some(ev) => match Apply(m, ev) case None => m case Some(m') => m'
  }

  function ConsumeAll(decode: Decode, m: Mirror, rs: seq<Record>): Mirror {
    if rs == [] then m else Consume(decode, ConsumeAll(decode, m, rs[..|rs| - 1]), rs[|rs| - 1])
  }

  const NOTHING := Mirror(map[], map[])

  // One pass over the records of the outbox up to number n.
  function OnePass(decode: Decode, outbox: seq<Record>, n: nat): Mirror
    requires n <= |outbox|
  {
    ConsumeAll(decode, NOTHING, Between(outbox, 0, n))
  }

  // ---- One order ----

  // An order is only ever accepted on one side.
  predicate OnSide(side: nat -> bool, ev: MatchEvent) {
    ev.typ == Accepted && ev.order.Some? && ev.order.value.typ != C.PbMarket
    && SideToString(ev.order.value.side) in {"BUY", "SELL"} ==>
      side(ev.orderId) == (SideToString(ev.order.value.side) == "BUY")
  }

  predicate Sided(side: nat -> bool, m: Mirror) {
    (forall id :: id in m.bids ==> side(id)) && (forall id :: id in m.asks ==> !side(id))
  }

  function View(side: nat -> bool, m: Mirror, id: nat): Option<Entry> {
    var orders := if side(id) then m.bids else m.asks;
    if id in orders then Some(orders[id]) else None
  }

  // What an event does to the one order it is about: it puts it in or takes it out, whatever was
  // there before, or sets what remains of it, or does nothing.
  datatype Deed = PutIn(entry: Entry) | TakeOut | SetRemaining(remaining: int) | Nothing

  function DeedOf(ev: MatchEvent): Deed {
    if ev.orderId == 0 || ev.symbol == "" then Nothing
    else
      match ev.typ
      case Accepted =>
        if ev.order == None || ev.order.value.typ == C.PbMarket then Nothing
        else
          var o := ev.order.value;
          var price, rem := Value(o.price), Value(EnteredRemaining(o));
          if price == None || rem == None || rem.value < 0 || SideToString(o.side) !in {"BUY", "SELL"} then Nothing
          else PutIn(Entry(SideToString(o.side), price.value, rem.value))
      case PartialFilled =>
        if ev.order == None || ev.order.value.remaining == C.Absent then Nothing
        else
          var rem := Value(ev.order.value.remaining);
          if rem == None || rem.value < 0 then Nothing else SetRemaining(rem.value)
      case Filled => TakeOut
      case Canceled => TakeOut
  }

  function Do(o: Option<Entry>, d: Deed): Option<Entry> {
    match d
    case PutIn(e) => Some(e)
    case TakeOut => None
    case SetRemaining(v) => if o == None then None else Some(o.value.(remaining := v))
    case Nothing => o
  }

  // What the record does to the order of that id.
  function DeedFor(decode: Decode, r: Record, id: nat): Deed {
    match decode(r)
    case None => Nothing
    case Some(ev) => if ev.orderId == id then DeedOf(ev) else Nothing
  }

  predicate RecordOnSide(decode: Decode, side: nat -> bool, r: Record) {
    decode(r).Some? ==> OnSide(side, decode(r).value)
  }

  lemma ConsumeDoes(decode: Decode, side: nat -> bool, m: Mirror, r: Record)
    requires Sided(side, m) && RecordOnSide(decode, side, r)
    ensures Sided(side, Consume(decode, m, r))
    ensures forall id :: View(side, Consume(decode, m, r), id) == Do(View(side, m, id), DeedFor(decode, r, id))
  {
  }

  function DoAll(decode: Decode, rs: seq<Record>, id: nat, o: Option<Entry>): Option<Entry> {
    if rs == [] then o
    else Do(DoAll(decode, rs[..|rs| - 1], id, o), DeedFor(decode, rs[|rs| - 1], id))
  }

  ghost predicate AllOnSide(decode: Decode, side: nat -> bool, rs: seq<Record>) {
    forall i :: 0 <= i < |rs| ==> RecordOnSide(decode, side, rs[i])
  }

  lemma {:induction false} ConsumeAllDoes(decode: Decode, side: nat -> bool, m: Mirror, rs: seq<Record>)
    requires Sided(side, m) && AllOnSide(decode, side, rs)
    ensures Sided(side, ConsumeAll(decode, m, rs))
    ensures forall id :: View(side, ConsumeAll(decode, m, rs), id) == DoAll(decode, rs, id, View(side, m, id))
  {
    if rs != [] {
      var n := |rs| - 1;
      assert forall i :: 0 <= i < n ==> rs[..n][i] == rs[i];
      ConsumeAllDoes(decode, side, m, rs[..n]);
      ConsumeDoes(decode, side, ConsumeAll(decode, m, rs[..n]), rs[n]);
    }
  }

  lemma SameViews(side: nat -> bool, a: Mirror, b: Mirror)
    requires Sided(side, a) && Sided(side, b) && forall id :: View(side, a, id) == View(side, b, id)
    ensures a == b
  {
    forall id ensures id in a.bids <==> id in b.bids ensures id in a.bids ==> a.bids[id] == b.bids[id] {
      assert View(side, a, id) == View(side, b, id);
    }
    forall id ensures id in a.asks <==> id in b.asks ensures id in a.asks ==> a.asks[id] == b.asks[id] {
      assert View(side, a, id) == View(side, b, id);
    }
    assert a.bids == b.bids && a.asks == b.asks;
  }

  // ---- Applied once more ----

  predicate Alike(a: Option<Entry>, b: Option<Entry>) {
    a == b || (a.Some? && b.Some? && a.value == b.value.(remaining := a.value.remaining))
  }

  // After records that put the order in, take it out or set it, nothing but what they do can be seen.
  ghost predicate Touches(decode: Decode, rs: seq<Record>, id: nat) {
    exists i :: 0 <= i < |rs| && DeedFor(decode, rs[i], id) != Nothing
  }

  lemma {:induction false} StaysAlike(decode: Decode, rs: seq<Record>, id: nat, a: Option<Entry>, b: Option<Entry>)
    requires Alike(a, b)
    ensures Alike(DoAll(decode, rs, id, a), DoAll(decode, rs, id, b))
    ensures Touches(decode, rs, id) ==> DoAll(decode, rs, id, a) == DoAll(decode, rs, id, b)
  {
    if rs != [] {
      var n := |rs| - 1;
      StaysAlike(decode, rs[..n], id, a, b);
      if Touches(decode, rs, id) && DeedFor(decode, rs[n], id) == Nothing {
        var i :| 0 <= i < |rs| && DeedFor(decode, rs[i], id) != Nothing;
        assert rs[..n][i] == rs[i];
      }
    }
  }

  // A record that puts the order in or takes it out makes the past forgotten.
  lemma {:induction false} Forgets(decode: Decode, rs: seq<Record>, i: nat, id: nat, a: Option<Entry>, b: Option<Entry>)
    requires i < |rs| && (DeedFor(decode, rs[i], id).PutIn? || DeedFor(decode, rs[i], id).TakeOut?)
    ensures DoAll(decode, rs, id, a) == DoAll(decode, rs, id, b)
    decreases |rs|
  {
    if i < |rs| - 1 { Forgets(decode, rs[..|rs| - 1], i, id, a, b); }
  }

  // A record applied in front of records that hold it changes nothing of what they leave.
  lemma Absorbed(decode: Decode, rs: seq<Record>, i: nat, id: nat, o: Option<Entry>)
    requires i < |rs|
    ensures DoAll(decode, rs, id, Do(o, DeedFor(decode, rs[i], id))) == DoAll(decode, rs, id, o)
  {
    var d := DeedFor(decode, rs[i], id);
    if d.PutIn? || d.TakeOut? {
      Forgets(decode, rs, i, id, Do(o, d), o);
    } else if d.SetRemaining? {
      assert Alike(Do(o, d), o);
      StaysAlike(decode, rs, id, Do(o, d), o);
    }
  }

  lemma MirrorAbsorbs(decode: Decode, side: nat -> bool, rs: seq<Record>, i: nat, m: Mirror)
    requires Sided(side, m) && AllOnSide(decode, side, rs) && i < |rs|
    ensures ConsumeAll(decode, Consume(decode, m, rs[i]), rs) == ConsumeAll(decode, m, rs)
  {
    var m' := Consume(decode, m, rs[i]);
    ConsumeDoes(decode, side, m, rs[i]);
    ConsumeAllDoes(decode, side, m, rs);
    ConsumeAllDoes(decode, side, m', rs);
    forall id ensures View(side, ConsumeAll(decode, m', rs), id) == View(side, ConsumeAll(decode, m, rs), id) {
      Absorbed(decode, rs, i, id, View(side, m, id));
    }
    SameViews(side, ConsumeAll(decode, m', rs), ConsumeAll(decode, m, rs));
  }

  lemma {:induction false} ConsumeInTwo(decode: Decode, m: Mirror, a: seq<Record>, b: seq<Record>)
    ensures ConsumeAll(decode, m, a + b) == ConsumeAll(decode, ConsumeAll(decode, m, a), b)
  {
    if b == [] {
      assert a + b == a;
    } else {
      var n := |b| - 1;
      ConsumeInTwo(decode, m, a, b[..n]);
      assert (a + b)[..|a| + n] == a + b[..n];
    }
  }

  lemma ConsumeOne(decode: Decode, m: Mirror, rs: seq<Record>, r: Record)
    ensures ConsumeAll(decode, m, rs + [r]) == Consume(decode, ConsumeAll(decode, m, rs), r)
    ensures ConsumeAll(decode, m, [r] + rs) == ConsumeAll(decode, Consume(decode, m, r), rs)
  {
    assert (rs + [r])[..|rs|] == rs && [r][..0] == [];
    assert ConsumeAll(decode, m, [r]) == Consume(decode, m, r);
    ConsumeInTwo(decode, m, [r], rs);
  }

  // ---- What has been sent ----

  function MirrorOf(decode: Decode, h: seq<Record>): Mirror { ConsumeAll(decode, NOTHING, h) }

  // Wherever the relay may go on between lo and pos, what is behind that place up to the highest
  // record ever sent leads the mirror to one pass over the outbox.
  ghost predicate Heals(decode: Decode, outbox: seq<Record>, h: seq<Record>, lo: nat, pos: nat) {
    && lo <= pos <= |outbox| && Top(h) <= |outbox|
    && forall q :: lo <= q <= pos ==>
         ConsumeAll(decode, MirrorOf(decode, h), Between(outbox, q, Top(h))) == OnePass(decode, outbox, Top(h))
  }

  lemma {:induction false} BetweenIsKnown(outbox: seq<Record>, from: nat, end: nat, i: nat)
    requires from <= i < end <= |outbox| && KnownTopic(outbox[i])
    ensures exists j :: 0 <= j < |Between(outbox, from, end)| && Between(outbox, from, end)[j] == outbox[i]
    decreases end
  {
    if i == end - 1 {
      assert Between(outbox, from, end)[|Between(outbox, from, end)| - 1] == outbox[i];
    } else {
      BetweenIsKnown(outbox, from, end - 1, i);
      var j :| 0 <= j < |Between(outbox, from, end - 1)| && Between(outbox, from, end - 1)[j] == outbox[i];
      assert Between(outbox, from, end)[j] == outbox[i];
    }
  }

  lemma {:induction false} BetweenOnSide(decode: Decode, side: nat -> bool, outbox: seq<Record>, from: nat, end: nat)
    requires AllOnSide(decode, side, outbox) && end <= |outbox|
    ensures AllOnSide(decode, side, Between(outbox, from, end))
    decreases end
  {
    if from < end {
      BetweenOnSide(decode, side, outbox, from, end - 1);
      assert RecordOnSide(decode, side, outbox[end - 1]);
    }
  }

  lemma {:induction false} BetweenFirst(outbox: seq<Record>, from: nat, end: nat)
    requires from < end <= |outbox|
    ensures Between(outbox, from, end) ==
            (if KnownTopic(outbox[from]) then [outbox[from]] else []) + Between(outbox, from + 1, end)
    decreases end
  {
    if from + 1 < end { BetweenFirst(outbox, from, end - 1); }
  }

  // The next record is sent, again or for the first time.
  lemma SendingHeals(decode: Decode, side: nat -> bool, outbox: seq<Record>, h: seq<Record>, lo: nat, pos: nat)
    requires Numbered(outbox) && AllOnSide(decode, side, outbox) && AllOnSide(decode, side, h)
    requires pos < |outbox| && Covers(outbox, h, pos) && Heals(decode, outbox, h, lo, pos)
    ensures var h' := h + if KnownTopic(outbox[pos]) then [outbox[pos]] else [];
            Heals(decode, outbox, h', lo, pos + 1)
  {
    var r, m, top := outbox[pos], MirrorOf(decode, h), Top(h);
    if !KnownTopic(r) {
      assert h + [] == h;
      if pos < top {
        BetweenFirst(outbox, pos, top);
        assert [] + Between(outbox, pos + 1, top) == Between(outbox, pos + 1, top);
      }
      assert Between(outbox, pos + 1, top) == Between(outbox, pos, top);
    } else {
      var h' := h + [r];
      assert h'[..|h|] == h;
      ConsumeOne(decode, NOTHING, h, r);
      ConsumeAllDoes(decode, side, NOTHING, h);
      if pos < top {
        AgainHeals(decode, side, outbox, h, lo, pos);
      } else {
        NewHeals(decode, side, outbox, h, lo, pos);
      }
    }
  }

  // A record below the highest one is sent again.
  lemma AgainHeals(decode: Decode, side: nat -> bool, outbox: seq<Record>, h: seq<Record>, lo: nat, pos: nat)
    requires AllOnSide(decode, side, outbox) && Sided(side, MirrorOf(decode, h))
    requires pos < Top(h) && Heals(decode, outbox, h, lo, pos) && KnownTopic(outbox[pos])
    ensures forall q :: lo <= q <= pos + 1 ==>
              ConsumeAll(decode, Consume(decode, MirrorOf(decode, h), outbox[pos]), Between(outbox, q, Top(h))) ==
              OnePass(decode, outbox, Top(h))
  {
    var r, m, top := outbox[pos], MirrorOf(decode, h), Top(h);
    forall q | lo <= q <= pos + 1
      ensures ConsumeAll(decode, Consume(decode, m, r), Between(outbox, q, top)) == OnePass(decode, outbox, top)
    {
      if q <= pos {
        BetweenIsKnown(outbox, q, top, pos);
        var j :| 0 <= j < |Between(outbox, q, top)| && Between(outbox, q, top)[j] == r;
        BetweenOnSide(decode, side, outbox, q, top);
        MirrorAbsorbs(decode, side, Between(outbox, q, top), j, m);
      } else {
        BetweenFirst(outbox, pos, top);
        ConsumeOne(decode, m, Between(outbox, pos + 1, top), r);
      }
    }
  }

  // A record beyond the highest one is sent for the first time.
  lemma NewHeals(decode: Decode, side: nat -> bool, outbox: seq<Record>, h: seq<Record>, lo: nat, pos: nat)
    requires Numbered(outbox) && AllOnSide(decode, side, outbox) && Sided(side, MirrorOf(decode, h))
    requires Top(h) <= pos < |outbox| && Covers(outbox, h, pos) && Heals(decode, outbox, h, lo, pos)
    requires KnownTopic(outbox[pos])
    ensures Heals(decode, outbox, h + [outbox[pos]], lo, pos + 1)
  {
    var r, m, top := outbox[pos], MirrorOf(decode, h), Top(h);
    var h' := h + [r];
    assert h'[..|h|] == h && Top(h') == pos + 1;
    ConsumeOne(decode, NOTHING, h, r);
    SilentKnown(outbox, top, pos);
    ConsumeOne(decode, NOTHING, Between(outbox, 0, pos), r);
    assert Between(outbox, pos, top) == [];
    assert m == OnePass(decode, outbox, top);
    var end := pos + 1;
    assert OnePass(decode, outbox, end) == Consume(decode, m, r);
    forall q | lo <= q <= end
      ensures ConsumeAll(decode, Consume(decode, m, r), Between(outbox, q, end)) == OnePass(decode, outbox, end)
    {
      if q <= pos {
        SilentBetween(outbox, top, q, pos);
        NewAbsorbed(decode, side, outbox, q, pos, m);
      }
    }
  }

  // The records from q on hold the new one, so that it may as well have been consumed before.
  lemma NewAbsorbed(decode: Decode, side: nat -> bool, outbox: seq<Record>, q: nat, pos: nat, m: Mirror)
    requires AllOnSide(decode, side, outbox) && Sided(side, m) && q <= pos < |outbox| && KnownTopic(outbox[pos])
    ensures ConsumeAll(decode, Consume(decode, m, outbox[pos]), Between(outbox, q, pos + 1)) ==
            Consume(decode, ConsumeAll(decode, m, Between(outbox, q, pos)), outbox[pos])
  {
    var r, rs := outbox[pos], Between(outbox, q, pos + 1);
    BetweenIsKnown(outbox, q, pos + 1, pos);
    var j :| 0 <= j < |rs| && rs[j] == r;
    BetweenOnSide(decode, side, outbox, q, pos + 1);
    MirrorAbsorbs(decode, side, rs, j, m);
    ConsumeOne(decode, m, Between(outbox, q, pos), r);
  }

  lemma {:induction false} SilentBetween(outbox: seq<Record>, top: nat, q: nat, pos: nat)
    requires top <= pos <= |outbox| && Silent(outbox, top, pos)
    ensures Between(outbox, q, pos) == Between(outbox, q, top)
    decreases pos
  {
    if top < pos { SilentBetween(outbox, top, q, pos - 1); }
  }

  // ---- Runs of the relay ----

  ghost predicate SentTo(decode: Decode, side: nat -> bool, outbox: seq<Record>, h: seq<Record>, lo: nat, end: nat) {
    Heals(decode, outbox, h, lo, end) && AllOnSide(decode, side, h) && Covers(outbox, h, end)
  }

  lemma OneSent(decode: Decode, side: nat -> bool, outbox: seq<Record>, h: seq<Record>, lo: nat, end: nat)
      returns (h': seq<Record>)
    requires Numbered(outbox) && AllOnSide(decode, side, outbox) && end < |outbox|
    requires SentTo(decode, side, outbox, h, lo, end)
    ensures h' == h + if KnownTopic(outbox[end]) then [outbox[end]] else []
    ensures SentTo(decode, side, outbox, h', lo, end + 1)
  {
    SendingHeals(decode, side, outbox, h, lo, end);
    h' := SentNext(outbox, h, end + 1);
    assert RecordOnSide(decode, side, outbox[end]);
  }

  // A batch is sent from some place on.
  lemma {:induction false} BatchHeals(decode: Decode, side: nat -> bool, outbox: seq<Record>, h: seq<Record>, lo: nat,
                                      after: nat, end: nat) returns (h': seq<Record>)
    requires Numbered(outbox) && AllOnSide(decode, side, outbox)
    requires after <= end <= |outbox| && SentTo(decode, side, outbox, h, lo, after)
    ensures h' == h + Between(outbox, after, end) && SentTo(decode, side, outbox, h', lo, end)
    decreases end
  {
    if end == after {
      h' := h;
      Unchanged(outbox, h, after);
    } else {
      var before := BatchHeals(decode, side, outbox, h, lo, after, end - 1);
      h' := OneSent(decode, side, outbox, before, lo, end - 1);
      F.Associative(h, Between(outbox, after, end - 1), if KnownTopic(outbox[end - 1]) then [outbox[end - 1]] else []);
    }
  }

  // The relay goes on where its memory stands, or at the cursor on disk after a restart.
  function GoesOnAt(st: State): nat { if st.published > 0 then st.published else st.meta }

  ghost predicate Healing(decode: Decode, side: nat -> bool, sys: System) {
    && AllOnSide(decode, side, sys.outbox) && AllOnSide(decode, side, sys.relay.history)
    && Safe(sys) && MetaFollows(sys.relay)
    && Heals(decode, sys.outbox, sys.relay.history, sys.relay.meta, GoesOnAt(sys.relay))
  }

  lemma HealsLess(decode: Decode, outbox: seq<Record>, h: seq<Record>, lo: nat, pos: nat, lo': nat, pos': nat)
    requires Heals(decode, outbox, h, lo, pos) && lo <= lo' <= pos' <= pos
    ensures Heals(decode, outbox, h, lo', pos')
  {
  }

  lemma PollHeals(decode: Decode, side: nat -> bool, sys: System, step: Step)
    requires Healing(decode, side, sys) && step.Poll? && step.loadOk && Possible(sys, step)
    ensures Healing(decode, side, Next(sys, step))
  {
    var after, recs, now := Cursor(sys.relay, true), Recs(sys, step), Next(sys, step).relay;
    PollIsSafe(sys, step);
    FollowsAfterPoll(sys, step);
    if recs == [] {
      NothingPolled(sys.relay, step.loadOk, step.saveOk);
    } else {
      SomeHeals(decode, side, sys, step, after, recs, now);
    }
  }

  lemma SomeHeals(decode: Decode, side: nat -> bool, sys: System, step: Step, after: nat, recs: seq<Record>, now: State)
    requires Healing(decode, side, sys) && step.Poll? && step.loadOk && Possible(sys, step)
    requires after == Cursor(sys.relay, true) && recs == Recs(sys, step) != [] && now == Next(sys, step).relay
    requires MetaFollows(now)
    ensures AllOnSide(decode, side, now.history)
    ensures Heals(decode, sys.outbox, now.history, now.meta, GoesOnAt(now))
  {
    var end := after + step.k + step.d;
    HistoryGrows(sys, step, after, recs, now, end);
    var h' := BatchHeals(decode, side, sys.outbox, sys.relay.history, sys.relay.meta, after, end);
    CursorsStay(sys, step, after, recs, now, end);
    HealsLess(decode, sys.outbox, h', sys.relay.meta, end, now.meta, GoesOnAt(now));
  }

  lemma HistoryGrows(sys: System, step: Step, after: nat, recs: seq<Record>, now: State, end: nat)
    requires Covers(sys.outbox, sys.relay.history, Top(sys.relay.history)) && after <= Top(sys.relay.history)
    requires step.Poll? && step.loadOk && step.k + step.d <= |recs|
    requires after == Cursor(sys.relay, true) && recs == Recs(sys, step) != []
    requires now == Polled(sys.relay, recs, true, step.k, step.d, step.saveOk) && end == after + step.k + step.d
    ensures after <= end <= |sys.outbox| && now.history == sys.relay.history + Between(sys.outbox, after, end)
    ensures Covers(sys.outbox, sys.relay.history, after)
  {
    UnpublishedSlice(sys.outbox, after, step.limit);
    BetweenShift(sys.outbox, after, after + |recs|, step.k + step.d);
  }

  lemma CursorsStay(sys: System, step: Step, after: nat, recs: seq<Record>, now: State, end: nat)
    requires Safe(sys) && MetaFollows(sys.relay) && step.Poll? && step.loadOk && Possible(sys, step)
    requires after == Cursor(sys.relay, true) && recs == Recs(sys, step) != [] && now == Next(sys, step).relay
    requires end == after + step.k + step.d && MetaFollows(now)
    ensures sys.relay.meta <= now.meta <= GoesOnAt(now) <= end
  {
    UnpublishedSlice(sys.outbox, after, step.limit);
    LastKnownGrows(sys.outbox, after, after + |recs|, step.k);
    LastKnownBelow(sys.outbox, after, after + |recs|, step.k);
  }

  lemma {:induction false} LastKnownBelow(outbox: seq<Record>, after: nat, stop: nat, k: nat)
    requires Numbered(outbox) && after + k <= stop <= |outbox|
    ensures LastKnown(outbox[after..stop], k, after) <= after + k
    decreases k
  {
    if k > 0 { LastKnownBelow(outbox, after, stop, k - 1); }
  }

  lemma GrowHeals(decode: Decode, side: nat -> bool, sys: System, r: Record)
    requires Healing(decode, side, sys) && r.outboxSeq == |sys.outbox| + 1 && RecordOnSide(decode, side, r)
    ensures Healing(decode, side, Next(sys, Grow(r)))
  {
    var top, h := Top(sys.relay.history), sys.relay.history;
    StepIsSafe(sys, Grow(r));
    BetweenGrown(sys.outbox, r, top);
    forall q | sys.relay.meta <= q <= GoesOnAt(sys.relay)
      ensures Between(sys.outbox + [r], q, top) == Between(sys.outbox, q, top)
    {
      BetweenGrownFrom(sys.outbox, r, q, top);
    }
  }

  lemma {:induction false} BetweenGrownFrom(outbox: seq<Record>, r: Record, from: nat, end: nat)
    requires end <= |outbox|
    ensures Between(outbox + [r], from, end) == Between(outbox, from, end)
    decreases end
  {
    if from < end { BetweenGrownFrom(outbox, r, from, end - 1); }
  }

  ghost predicate StepOnSide(decode: Decode, side: nat -> bool, step: Step) {
    step.Grow? ==> RecordOnSide(decode, side, step.r)
  }

  lemma {:induction false} EveryRunHeals(decode: Decode, side: nat -> bool, steps: seq<Step>)
    requires IsRun(steps)
    requires forall i :: 0 <= i < |steps| ==> FileIsRead(steps[i]) && StepOnSide(decode, side, steps[i])
    ensures Healing(decode, side, AfterRun(steps))
  {
    if steps != [] {
      var n := |steps| - 1;
      assert forall i :: 0 <= i < n ==> steps[..n][i] == steps[i];
      EveryRunHeals(decode, side, steps[..n]);
      var sys := AfterRun(steps[..n]);
      match steps[n]
      case Grow(r) =>
        assert StepOnSide(decode, side, steps[n]);
        GrowHeals(decode, side, sys, r);
      case Poll(_, _, _, _, _, _) =>
        assert FileIsRead(steps[n]);
        PollHeals(decode, side, sys, steps[n]);
      case Crash =>
        HealsLess(decode, sys.outbox, sys.relay.history, sys.relay.meta, GoesOnAt(sys.relay),
                  sys.relay.meta, sys.relay.meta);
    }
  }

  // Over every run with failed writes, failed saves and restarts in which the cursor file can be
  // read: once the relay has confirmed all that it ever sent, the mirror that has consumed everything
  // from Kafka, repetitions included, is that of one pass over the outbox.
  lemma MirrorCatchesUp(decode: Decode, side: nat -> bool, steps: seq<Step>)
    requires IsRun(steps)
    requires forall i :: 0 <= i < |steps| ==> FileIsRead(steps[i]) && StepOnSide(decode, side, steps[i])
    ensures var sys := AfterRun(steps);
            && Top(sys.relay.history) <= |sys.outbox|
            && (GoesOnAt(sys.relay) >= Top(sys.relay.history) ==>
                  MirrorOf(decode, sys.relay.history) == OnePass(decode, sys.outbox, Top(sys.relay.history)))
  {
    EveryRunHeals(decode, side, steps);
    var sys := AfterRun(steps);
    var top, at := Top(sys.relay.history), GoesOnAt(sys.relay);
    if at >= top { assert Between(sys.outbox, at, top) == []; }
  }

  // ---- When the cursor file cannot be read ----

  lemma RunMore(steps: seq<Step>, step: Step)
    requires IsRun(steps) && Possible(AfterRun(steps), step)
    ensures IsRun(steps + [step]) && AfterRun(steps + [step]) == Next(AfterRun(steps), step)
  {
    assert (steps + [step])[..|steps|] == steps;
  }

  // Two records of one group, sent and confirmed.
  lemma BothSent(a: Record, b: Record) returns (steps: seq<Step>)
    requires a.outboxSeq == 1 && b.outboxSeq == 2 && KnownTopic(a) && Together(a, b)
    ensures IsRun(steps) && AfterRun(steps) == System([a, b], State(2, 2, [a, b]))
  {
    RunMore([], Grow(a));
    assert [] + [Grow(a)] == [Grow(a)] && [] + [a] == [a];
    RunMore([Grow(a)], Grow(b));
    var grown := [Grow(a)] + [Grow(b)];
    assert AfterRun(grown) == System([a, b], State(0, 0, []));
    var poll, rs := Poll(2, true, true, 2, 0, true), [a, b];
    assert Recs(AfterRun(grown), poll) == rs;
    assert Between(rs, 0, 1) == [a] && Between(rs, 0, 2) == [a] + [b];
    RunMore(grown, poll);
    steps := grown + [poll];
    assert [] + [a, b] == [a, b];
  }

  // After a restart the cursor file cannot be read: the relay begins again with the order's
  // acceptance, the rest of the write fails, the file can be read again, and the relay goes on behind
  // the cancellation.  The mirror keeps an order that is gone.
  lemma UnreadableCursorLeavesOrder(decode: Decode, a: Record, b: Record, id: nat, entry: Entry)
      returns (steps: seq<Step>)
    requires a.outboxSeq == 1 && b.outboxSeq == 2 && KnownTopic(a) && Together(a, b)
    requires DeedFor(decode, a, id) == PutIn(entry) && DeedFor(decode, b, id) == TakeOut
    requires exists side :: RecordOnSide(decode, side, a) && RecordOnSide(decode, side, b)
    ensures IsRun(steps)
    ensures var sys := AfterRun(steps);
            && GoesOnAt(sys.relay) == Top(sys.relay.history) == 2 && |sys.outbox| == 2
            && MirrorOf(decode, sys.relay.history) != OnePass(decode, sys.outbox, 2)
  {
    var before := BothSent(a, b);
    var sent := System([a, b], State(2, 2, [a, b]));
    RunMore(before, Crash);
    var poll := Poll(2, true, false, 0, 1, true);
    var down := Next(sent, Crash);
    assert Recs(down, poll) == [a, b];
    assert Between([a, b], 0, 1) == [a];
    RunMore(before + [Crash], poll);
    steps := before + [Crash] + [poll];
    assert Polled(down.relay, [a, b], false, 0, 1, true) == State(0, 2, [a, b] + [a]);
    var side :| RecordOnSide(decode, side, a) && RecordOnSide(decode, side, b);
    GhostOrder(decode, side, a, b, id, entry);
    assert [a, b] + [a] == [a, b, a];
  }

  lemma GhostOrder(decode: Decode, side: nat -> bool, a: Record, b: Record, id: nat, entry: Entry)
    requires a.outboxSeq == 1 && b.outboxSeq == 2 && KnownTopic(a) && KnownTopic(b)
    requires DeedFor(decode, a, id) == PutIn(entry) && DeedFor(decode, b, id) == TakeOut
    requires RecordOnSide(decode, side, a) && RecordOnSide(decode, side, b)
    ensures Top([a, b, a]) == 2 && MirrorOf(decode, [a, b, a]) != OnePass(decode, [a, b], 2)
  {
    assert [a, b, a][..2] == [a, b] && [a, b][..1] == [a] && [a][..0] == [];
    assert Between([a, b], 0, 1) == [a] && Between([a, b], 0, 2) == [a] + [b] == [a, b];
    assert Top([a]) == 1 && Top([a, b]) == 2;
    ConsumeAllDoes(decode, side, NOTHING, [a, b, a]);
    ConsumeAllDoes(decode, side, NOTHING, [a, b]);
    assert View(side, MirrorOf(decode, [a, b, a]), id) == Some(entry);
    assert View(side, MirrorOf(decode, [a, b]), id) == None;
  }
}
