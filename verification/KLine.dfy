// K-line aggregation: one open bar per interval, closed when a trade falls into a later bucket.
module KLine {
  import opened Multiples

  datatype Interval = Sec1 | Min1 | Min15 | Hour1 | Hour4 | Hour6 | Day1

  const DEFAULT_INTERVALS := [Sec1, Min1, Min15, Hour1, Hour4, Hour6, Day1]

  function DurationMs(iv: Interval): (d: int)
    ensures d > 0
  {
    match iv
    case Sec1 => 1000
    case Min1 => 60 * 1000
    case Min15 => 15 * 60 * 1000
    case Hour1 => 60 * 60 * 1000
    case Hour4 => 4 * 60 * 60 * 1000
    case Hour6 => 6 * 60 * 60 * 1000
    case Day1 => 24 * 60 * 60 * 1000
  }

  // How many of an interval make a day of 86 400 000 milliseconds.
  lemma IntervalsMakeDay(iv: Interval)
    ensures 86_400_000 == DurationMs(iv) * match iv
                                           case Sec1 => 86_400
                                           case Min1 => 1440
                                           case Min15 => 96
                                           case Hour1 => 24
                                           case Hour4 => 6
                                           case Hour6 => 4
                                           case Day1 => 1
  {
  }

  // An interval is a whole number of another exactly when it is no shorter, but for six hours and four.
  lemma DividesExactlyWhen(a: Interval, b: Interval)
    ensures DurationMs(b) % DurationMs(a) == 0 <==> DurationMs(a) <= DurationMs(b) && (a, b) != (Hour4, Hour6)
  {
    var n := DurationMs(b);
    match a
    case Sec1 => assert n % 1000 == 0;
    case Min1 => assert n % 60_000 == 0 <==> 60_000 <= n;
    case Min15 => assert n % 900_000 == 0 <==> 900_000 <= n;
    case Hour1 => assert n % 3_600_000 == 0 <==> 3_600_000 <= n;
    case Hour4 => assert n % 14_400_000 == 0 <==> 14_400_000 <= n && b != Hour6;
    case Hour6 => assert n % 21_600_000 == 0 <==> 21_600_000 <= n;
    case Day1 => assert n % 86_400_000 == 0 <==> 86_400_000 <= n;
  }

  // The remainder of Go: it has the sign of the dividend.
  function Rem(a: int, d: int): int
    requires d > 0
  {
    if a >= 0 then a % d else -((-a) % d)
  }

  function BucketStart(d: int, t: int): int
    requires d > 0
  {
    t - Rem(t, d)
  }

  datatype Trade = Trade(price: int, quantity: int, time: int)

  datatype Bar = Bar(openTime: int, open: int, high: int, low: int, close: int, volume: int, updatedAt: int)

  function NewFromTrade(openTime: int, t: Trade): Bar {
    Bar(openTime, t.price, t.price, t.price, t.price, t.quantity, t.time)
  }

  function Max(a: int, b: int): int { if a >= b then a else b }
  function Min(a: int, b: int): int { if a <= b then a else b }

  function WithTrade(b: Bar, t: Trade): Bar {
    Bar(b.openTime, b.open, Max(b.high, t.price), Min(b.low, t.price), t.price, b.volume + t.quantity, t.time)
  }

  // The bars of one interval in order; the last one is still open.
  function AddTrade(d: int, bars: seq<Bar>, t: Trade): seq<Bar>
    requires d > 0
  {
    var n, bucket := |bars|, BucketStart(d, t.time);
    if n == 0 then [NewFromTrade(bucket, t)]
    else if t.time < bars[n - 1].openTime then bars
    else if bucket == bars[n - 1].openTime then bars[n - 1 := WithTrade(bars[n - 1], t)]
    else bars + [NewFromTrade(bucket, t)]
  }

  function Bars(d: int, ts: seq<Trade>): seq<Bar>
    requires d > 0
  {
    if ts == [] then [] else AddTrade(d, Bars(d, ts[..|ts| - 1]), ts[|ts| - 1])
  }

  datatype ClosedEvent = ClosedEvent(symbol: string, interval: Interval, bar: Bar)

  ghost predicate Once(ivs: seq<Interval>) { forall i, j :: 0 <= i < j < |ivs| ==> ivs[i] != ivs[j] }

  class Aggregator {
    // The open bar of each symbol and interval.
    var open: OpenBars
    const intervals: seq<Interval>

    constructor ()
      ensures open == map[] && intervals == DEFAULT_INTERVALS && Once(intervals)
    {
      open, intervals := map[], DEFAULT_INTERVALS;
    }

    // One interval of one symbol.
    method ApplyOneInterval(symbol: string, iv: Interval, t: Trade) returns (closed: seq<ClosedEvent>)
      modifies this
      ensures var after := After(symbol, iv, t, old(open));
              && 0 < |after| <= 2 && open == old(open)[(symbol, iv) := after[|after| - 1]]
              && closed == (if |after| == 1 then [] else [ClosedEvent(symbol, iv, after[0])])
    {
      var bucket := BucketStart(DurationMs(iv), t.time);
      var key := (symbol, iv);
      if key !in open {
        open := open[key := NewFromTrade(bucket, t)];
        return [];
      }
      var cur := open[key];
      if t.time < cur.openTime {
        assert open == open[key := cur];
        return [];
      }
      if bucket == cur.openTime {
        open := open[key := WithTrade(cur, t)];
        return [];
      }
      closed := [ClosedEvent(symbol, iv, cur)];
      open := open[key := NewFromTrade(bucket, t)];
    }

    // Every interval sees the trade; other symbols do not.
    method ApplyTrade(symbol: string, t: Trade) returns (closed: seq<ClosedEvent>)
      requires Once(intervals)
      modifies this
      ensures forall key: (string, Interval) :: key.0 != symbol || key.1 !in intervals ==> Same(key, old(open), open)
      ensures forall iv :: iv in intervals ==> Advanced(symbol, iv, t, old(open), open, closed)
      ensures forall iv :: iv !in intervals ==> NoneOf(iv, closed)
    {
      closed := [];
      for i := 0 to |intervals|
        invariant forall key: (string, Interval) :: key.0 != symbol || key.1 !in intervals[..i] ==>
                    Same(key, old(open), open)
        invariant forall iv :: iv !in intervals[..i] ==> NoneOf(iv, closed)
        invariant forall iv :: iv in intervals[..i] ==> Advanced(symbol, iv, t, old(open), open, closed)
      {
        ghost var before, soFar := open, closed;
        var iv := intervals[i];
        assert iv !in intervals[..i] && Same((symbol, iv), old(open), open);
        var one := ApplyOneInterval(symbol, iv, t);
        closed := closed + one;
        assert intervals[..i + 1] == intervals[..i] + [iv];
        forall other | other in intervals[..i] ensures Advanced(symbol, other, t, old(open), open, closed) {
          AdvancedKept(symbol, other, t, old(open), before, soFar, open, one);
        }
        AdvancedNow(symbol, iv, t, old(open), before, soFar, open, one);
      }
      assert intervals[..|intervals|] == intervals;
    }
  }

  type OpenBars = map<(string, Interval), Bar>

  ghost predicate Same(key: (string, Interval), was: OpenBars, now: OpenBars) {
    (key in now <==> key in was) && (key in now ==> now[key] == was[key])
  }

  ghost predicate NoneOf(iv: Interval, closed: seq<ClosedEvent>) {
    forall i :: 0 <= i < |closed| ==> closed[i].interval != iv
  }

  // The bars of one interval after a trade: the one that was open, if it is closed now, and the
  // one that is open now.
  ghost function After(symbol: string, iv: Interval, t: Trade, was: OpenBars): seq<Bar> {
    AddTrade(DurationMs(iv), if (symbol, iv) in was then [was[(symbol, iv)]] else [], t)
  }

  // What a trade does to one interval of its symbol.
  ghost predicate Advanced(symbol: string, iv: Interval, t: Trade, was: OpenBars, now: OpenBars,
                           closed: seq<ClosedEvent>) {
    var after := After(symbol, iv, t, was);
    && |after| > 0 && (symbol, iv) in now && now[(symbol, iv)] == after[|after| - 1]
    && (|after| == 1 ==> NoneOf(iv, closed))
    && (|after| > 1 ==> |after| == 2 && ClosedOnce(iv, ClosedEvent(symbol, iv, after[0]), closed))
  }

  ghost predicate ClosedOnce(iv: Interval, e: ClosedEvent, closed: seq<ClosedEvent>) {
    exists i :: 0 <= i < |closed| && closed[i] == e && NoneOf(iv, closed[..i]) && NoneOf(iv, closed[i + 1..])
  }

  lemma AdvancedNow(symbol: string, iv: Interval, t: Trade, was: OpenBars, before: OpenBars, soFar: seq<ClosedEvent>,
                    now: OpenBars, one: seq<ClosedEvent>)
    requires Same((symbol, iv), was, before) && NoneOf(iv, soFar)
    requires var after := After(symbol, iv, t, before);
             && 0 < |after| <= 2 && now == before[(symbol, iv) := after[|after| - 1]]
             && one == (if |after| == 1 then [] else [ClosedEvent(symbol, iv, after[0])])
    ensures Advanced(symbol, iv, t, was, now, soFar + one)
  {
    var after := After(symbol, iv, t, was);
    assert after == After(symbol, iv, t, before);
    if |after| == 2 {
      assert (soFar + one)[|soFar|] == ClosedEvent(symbol, iv, after[0]) && (soFar + one)[..|soFar|] == soFar;
    }
  }

  lemma AdvancedKept(symbol: string, iv: Interval, t: Trade, was: OpenBars, before: OpenBars, soFar: seq<ClosedEvent>,
                     now: OpenBars, one: seq<ClosedEvent>)
    requires Advanced(symbol, iv, t, was, before, soFar)
    requires Same((symbol, iv), before, now) && NoneOf(iv, one)
    ensures Advanced(symbol, iv, t, was, now, soFar + one)
  {
    var after := After(symbol, iv, t, was);
    if |after| == 2 { ClosedOnceKept(iv, ClosedEvent(symbol, iv, after[0]), soFar, one); }
  }

  lemma ClosedOnceKept(iv: Interval, e: ClosedEvent, soFar: seq<ClosedEvent>, one: seq<ClosedEvent>)
    requires ClosedOnce(iv, e, soFar) && NoneOf(iv, one)
    ensures ClosedOnce(iv, e, soFar + one)
  {
    var i :| 0 <= i < |soFar| && soFar[i] == e && NoneOf(iv, soFar[..i]) && NoneOf(iv, soFar[i + 1..]);
    var all := soFar + one;
    assert all[..i] == soFar[..i] && all[i + 1..] == soFar[i + 1..] + one;
    assert all[i] == e;
  }

  // The bars one interval has closed, and the one it keeps open, after a series of trades.
  datatype Stream = Stream(closed: seq<Bar>, current: seq<Bar>)

  function Streamed(d: int, ts: seq<Trade>): Stream
    requires d > 0
  {
    if ts == [] then Stream([], []) else Fed(d, Streamed(d, ts[..|ts| - 1]), ts[|ts| - 1])
  }

  function Fed(d: int, was: Stream, t: Trade): Stream
    requires d > 0
  {
    var after := AddTrade(d, was.current, t);
    if after == [] then was else Stream(was.closed + after[..|after| - 1], after[|after| - 1..])
  }

  // Closing a bar and forgetting it loses nothing: closed bars and open bar are all the bars.
  lemma {:induction false} StreamedBars(d: int, ts: seq<Trade>)
    requires d > 0
    ensures Streamed(d, ts).closed + Streamed(d, ts).current == Bars(d, ts)
    ensures |Streamed(d, ts).current| == if ts == [] then 0 else 1
  {
    if ts != [] {
      StreamedBars(d, ts[..|ts| - 1]);
      var was := Streamed(d, ts[..|ts| - 1]);
      if was.current == [] {
        assert was.closed == [];
      } else {
        FedBars(d, was, Bars(d, ts[..|ts| - 1]), ts[|ts| - 1]);
      }
    }
  }

  lemma FedBars(d: int, was: Stream, bars: seq<Bar>, t: Trade)
    requires d > 0 && |was.current| == 1 && was.closed + was.current == bars
    ensures Fed(d, was, t).closed + Fed(d, was, t).current == AddTrade(d, bars, t)
    ensures |Fed(d, was, t).current| == 1
  {
  }

  // ---- Any order of trades ----

  function Volume(bars: seq<Bar>): int {
    if bars == [] then 0 else Volume(bars[..|bars| - 1]) + bars[|bars| - 1].volume
  }

  // The volume of the trades that are not earlier than the open bar when they arrive.
  function AcceptedVolume(d: int, ts: seq<Trade>): int
    requires d > 0
  {
    if ts == [] then 0
    else
      var n := |ts| - 1;
      var bars := Bars(d, ts[..n]);
      AcceptedVolume(d, ts[..n]) + (if bars == [] || ts[n].time >= bars[|bars| - 1].openTime then ts[n].quantity else 0)
  }

  ghost predicate Aligned(d: int, bars: seq<Bar>)
    requires d > 0
  {
    && (forall i :: 0 <= i < |bars| ==> bars[i].openTime % d == 0)
    && (forall i, j :: 0 <= i < j < |bars| ==> bars[i].openTime < bars[j].openTime)
  }

  // A bucket starts at a multiple of d; no multiple of d lies between it and the time.
  lemma BucketIsAligned(d: int, t: int)
    requires d > 0
    ensures BucketStart(d, t) % d == 0
    ensures t >= 0 ==> 0 <= BucketStart(d, t) <= t < BucketStart(d, t) + d
    ensures t < 0 ==> t <= BucketStart(d, t) < t + d
  {
    if t >= 0 {
      FloorIs(d, t);
      assert BucketStart(d, t) == Floor(d, t);
    } else {
      FloorIs(d, -t);
      NegatedMultiple(d, Floor(d, -t));
      assert BucketStart(d, t) == -Floor(d, -t);
    }
  }

  lemma LaterBucket(d: int, opening: int, t: int)
    requires d > 0 && opening % d == 0 && t >= opening
    ensures BucketStart(d, t) >= opening
  {
    BucketIsAligned(d, t);
    if BucketStart(d, t) < opening { MultiplesApart(d, BucketStart(d, t), opening); }
  }

  lemma OneTradeAligned(d: int, bars: seq<Bar>, t: Trade)
    requires d > 0 && Aligned(d, bars)
    ensures Aligned(d, AddTrade(d, bars, t))
  {
    BucketIsAligned(d, t.time);
    if bars != [] && t.time >= bars[|bars| - 1].openTime { LaterBucket(d, bars[|bars| - 1].openTime, t.time); }
  }

  lemma OneTradeVolume(d: int, bars: seq<Bar>, t: Trade)
    requires d > 0
    ensures Volume(AddTrade(d, bars, t)) ==
            Volume(bars) + if bars == [] || t.time >= bars[|bars| - 1].openTime then t.quantity else 0
  {
    var bar := NewFromTrade(BucketStart(d, t.time), t);
    VolumeMore(bars, bar);
    if bars == [] {
      assert [] + [bar] == [bar];
    } else {
      VolumeOfLast(bars, WithTrade(bars[|bars| - 1], t));
    }
  }

  lemma VolumeMore(bars: seq<Bar>, bar: Bar)
    ensures Volume(bars + [bar]) == Volume(bars) + bar.volume
  {
    assert (bars + [bar])[..|bars|] == bars;
  }

  // Whatever the order of the trades, bars open at strictly increasing multiples of the interval
  // and hold together exactly the trades that were not too late when they arrived.
  lemma {:induction false} BarsAdvance(d: int, ts: seq<Trade>)
    requires d > 0
    ensures Aligned(d, Bars(d, ts)) && Volume(Bars(d, ts)) == AcceptedVolume(d, ts)
  {
    if ts != [] {
      BarsAdvance(d, ts[..|ts| - 1]);
      OneTradeAligned(d, Bars(d, ts[..|ts| - 1]), ts[|ts| - 1]);
      OneTradeVolume(d, Bars(d, ts[..|ts| - 1]), ts[|ts| - 1]);
    }
  }

  lemma VolumeOfLast(bars: seq<Bar>, b: Bar)
    requires bars != []
    ensures Volume(bars[|bars| - 1 := b]) == Volume(bars) - bars[|bars| - 1].volume + b.volume
  {
  }

  // ---- Trades in the order of their times: coarse bars are merges of fine bars ----

  function Combine(a: Bar, b: Bar): Bar {
    Bar(a.openTime, a.open, Max(a.high, b.high), Min(a.low, b.low), b.close, a.volume + b.volume, b.updatedAt)
  }

  // The bar that stands for all of the given ones.
  function Merged(start: int, bars: seq<Bar>): Bar
    requires bars != []
  {
    var n := |bars| - 1;
    if n == 0 then bars[0].(openTime := start) else Combine(Merged(start, bars[..n]), bars[n])
  }

  function Buckets(d: int): int -> int
    requires d > 0
  {
    t => BucketStart(d, t)
  }

  // The bars whose opening times fall into the bucket that starts at start.
  function Within(bucket: int -> int, start: int, bars: seq<Bar>): seq<Bar> {
    if bars == [] then []
    else
      var n := |bars| - 1;
      Within(bucket, start, bars[..n]) + if bucket(bars[n].openTime) == start then [bars[n]] else []
  }

  ghost predicate IsMerge(bucket: int -> int, fine: seq<Bar>, c: Bar) {
    var parts := Within(bucket, c.openTime, fine);
    parts != [] && c == Merged(c.openTime, parts)
  }

  ghost predicate HasBucket(coarse: seq<Bar>, start: int) {
    exists i :: 0 <= i < |coarse| && coarse[i].openTime == start
  }

  // The coarse bars are the fine bars, put together bucket by bucket.
  ghost predicate Grouped(bucket: int -> int, coarse: seq<Bar>, fine: seq<Bar>) {
    && (forall i :: 0 <= i < |coarse| ==> IsMerge(bucket, fine, coarse[i]))
    && (forall i :: 0 <= i < |fine| ==> HasBucket(coarse, bucket(fine[i].openTime)))
  }

  // Trades in time order, none of them before from.
  ghost predicate InTimeOrderFrom(from: int, ts: seq<Trade>) {
    && (forall i :: 0 <= i < |ts| ==> ts[i].time >= from)
    && (forall i, j :: 0 <= i <= j < |ts| ==> ts[i].time <= ts[j].time)
  }

  ghost predicate InTimeOrder(ts: seq<Trade>) { InTimeOrderFrom(0, ts) }

  lemma {:induction false} LastBarIsCurrent(d: int, ts: seq<Trade>)
    requires d > 0 && InTimeOrder(ts) && ts != []
    ensures Bars(d, ts) != []
    ensures Bars(d, ts)[|Bars(d, ts)| - 1].openTime == BucketStart(d, ts[|ts| - 1].time) <= ts[|ts| - 1].time
  {
    BucketIsAligned(d, ts[|ts| - 1].time);
    if |ts| > 1 {
      var before := ts[..|ts| - 1];
      LastBarIsCurrent(d, before);
      assert before[|before| - 1].time <= ts[|ts| - 1].time;
    }
  }

  // A bucket of fine lies inside one bucket of coarse.
  lemma NestedBuckets(fine: int, coarse: int, t: int)
    requires fine > 0 && coarse > 0 && coarse % fine == 0 && t >= 0
    ensures BucketStart(coarse, BucketStart(fine, t)) == BucketStart(coarse, t)
  {
    BucketIsAligned(fine, t);
    BucketIsAligned(coarse, t);
    CoarseStartsNoLater(fine, coarse, BucketStart(fine, t), BucketStart(coarse, t), t);
    OnlyBucket(coarse, BucketStart(fine, t), BucketStart(coarse, t));
  }

  lemma CoarseStartsNoLater(fine: int, coarse: int, a: int, b: int, t: int)
    requires fine > 0 && coarse > 0 && coarse % fine == 0
    requires a % fine == 0 && b % coarse == 0 && t < a + fine && b <= t
    ensures b <= a
  {
    MultipleOfMultiple(fine, coarse, b);
    if a < b { MultiplesApart(fine, a, b); }
  }

  lemma OnlyBucket(d: int, t: int, b: int)
    requires d > 0 && t >= 0 && b % d == 0 && b <= t < b + d
    ensures BucketStart(d, t) == b
  {
    var c := BucketStart(d, t);
    BucketIsAligned(d, t);
    if b < c { MultiplesApart(d, b, c); }
    if c < b { MultiplesApart(d, c, b); }
  }

  lemma WithinNone(bucket: int -> int, start: int, bars: seq<Bar>)
    requires forall i :: 0 <= i < |bars| ==> bucket(bars[i].openTime) != start
    ensures Within(bucket, start, bars) == []
  {
  }

  lemma WithinLast(bucket: int -> int, start: int, bars: seq<Bar>, b: Bar)
    ensures Within(bucket, start, bars + [b]) ==
            Within(bucket, start, bars) + if bucket(b.openTime) == start then [b] else []
  {
  }

  lemma MergedLast(start: int, bars: seq<Bar>, b: Bar)
    requires bars != []
    ensures Merged(start, bars + [b]) == Combine(Merged(start, bars), b)
  {
  }

  lemma CombineTrade(start: int, bars: seq<Bar>, b: Bar, t: Trade)
    ensures Merged(start, bars + [WithTrade(b, t)]) == WithTrade(Merged(start, bars + [b]), t)
  {
  }

  // Less than one bucket before the epoch the remainder is the time itself: the bucket starts at 0.
  lemma JustBeforeTheEpoch(d: int, t: int)
    requires d > 0 && -d < t < 0
    ensures BucketStart(d, t) == 0
  {
    assert (-t) % d == -t;
  }

  // Bars of trades that all come after -d: those before the epoch share the bar that opens at 0,
  // and only the first of them is in it.
  lemma {:induction false} LastBarFromAbove(d: int, ts: seq<Trade>)
    requires d > 0 && InTimeOrderFrom(-d + 1, ts) && ts != []
    ensures Bars(d, ts) != []
    ensures Bars(d, ts)[|Bars(d, ts)| - 1].openTime == BucketStart(d, ts[|ts| - 1].time)
  {
    var t := ts[|ts| - 1].time;
    if t < 0 { JustBeforeTheEpoch(d, t); } else { BucketIsAligned(d, t); }
    if |ts| > 1 {
      var before := ts[..|ts| - 1];
      LastBarFromAbove(d, before);
      var t0 := before[|before| - 1].time;
      assert t0 <= t;
      if t0 < 0 { JustBeforeTheEpoch(d, t0); } else { BucketIsAligned(d, t0); }
    }
  }

  lemma NestedFromAbove(fineStep: int, step: int, t: int)
    requires 0 < fineStep <= step && step % fineStep == 0 && t > -fineStep
    ensures BucketStart(step, BucketStart(fineStep, t)) == BucketStart(step, t)
    ensures t >= 0 ==> BucketStart(fineStep, t) <= t && BucketStart(step, t) <= t
    ensures t < 0 ==> BucketStart(fineStep, t) == 0 == BucketStart(step, t)
  {
    if t < 0 {
      JustBeforeTheEpoch(fineStep, t);
      JustBeforeTheEpoch(step, t);
    } else {
      NestedBuckets(fineStep, step, t);
      BucketIsAligned(fineStep, t);
      BucketIsAligned(step, t);
    }
  }

  // For trades in time order after -fineStep, each coarse bar is the merge of the fine bars in its
  // bucket, and every fine bar is in one.
  lemma {:induction false} CoarseBarsMergeFineBars(fineStep: int, step: int, ts: seq<Trade>)
    requires 0 < fineStep <= step && step % fineStep == 0 && InTimeOrderFrom(-fineStep + 1, ts)
    ensures Grouped(Buckets(step), Bars(step, ts), Bars(fineStep, ts))
  {
    if |ts| == 1 {
      NestedFromAbove(fineStep, step, ts[0].time);
      FirstBars(fineStep, step, ts[0]);
      assert ts == [ts[0]];
    } else if ts != [] {
      CoarseBarsMergeFineBars(fineStep, step, ts[..|ts| - 1]);
      NextIsMerged(fineStep, step, ts);
    }
  }

  lemma NextIsMerged(fineStep: int, step: int, ts: seq<Trade>)
    requires 0 < fineStep <= step && step % fineStep == 0 && InTimeOrderFrom(-fineStep + 1, ts) && |ts| > 1
    requires Grouped(Buckets(step), Bars(step, ts[..|ts| - 1]), Bars(fineStep, ts[..|ts| - 1]))
    ensures Grouped(Buckets(step), Bars(step, ts), Bars(fineStep, ts))
  {
    var before := ts[..|ts| - 1];
    TimesBefore(fineStep, step, ts);
    CoarseStep(fineStep, step, Bars(fineStep, before), Bars(step, before), before[|before| - 1].time, ts[|ts| - 1]);
    assert Bars(step, ts) == AddTrade(step, Bars(step, before), ts[|ts| - 1]);
    assert Bars(fineStep, ts) == AddTrade(fineStep, Bars(fineStep, before), ts[|ts| - 1]);
  }

  // The bars in front of the last trade end with those of the trade before it.
  lemma TimesBefore(fineStep: int, step: int, ts: seq<Trade>)
    requires 0 < fineStep <= step && InTimeOrderFrom(-fineStep + 1, ts) && |ts| > 1
    ensures var before := ts[..|ts| - 1];
            var t0, fine, coarse := before[|before| - 1].time, Bars(fineStep, before), Bars(step, before);
            && -fineStep < t0 <= ts[|ts| - 1].time
            && fine != [] && fine[|fine| - 1].openTime == BucketStart(fineStep, t0)
            && coarse != [] && coarse[|coarse| - 1].openTime == BucketStart(step, t0) && Aligned(step, coarse)
  {
    var before := ts[..|ts| - 1];
    LastBarFromAbove(fineStep, before);
    LastBarFromAbove(step, before);
    BarsAdvance(step, before);
  }

  lemma CoarseStep(fineStep: int, step: int, fine: seq<Bar>, coarse: seq<Bar>, t0: int, t: Trade)
    requires 0 < fineStep <= step && step % fineStep == 0 && -fineStep < t0 <= t.time
    requires fine != [] && fine[|fine| - 1].openTime == BucketStart(fineStep, t0)
    requires coarse != [] && coarse[|coarse| - 1].openTime == BucketStart(step, t0)
    requires Grouped(Buckets(step), coarse, fine) && Aligned(step, coarse)
    ensures Grouped(Buckets(step), AddTrade(step, coarse, t), AddTrade(fineStep, fine, t))
  {
    NestedFromAbove(fineStep, step, t0);
    NestedFromAbove(fineStep, step, t.time);
    if t.time >= 0 { GroupedStep(fineStep, step, fine, coarse, t); }
  }

  ghost predicate GroupedFrom(fineStep: int, step: int, from: int)
    requires fineStep > 0 && step > 0
  {
    forall ts: seq<Trade> {:trigger Bars(step, ts)} :: InTimeOrderFrom(from, ts) ==>
      Grouped(Buckets(step), Bars(step, ts), Bars(fineStep, ts))
  }

  // The hierarchy holds for all trades from a time on exactly if that time is after -fineStep: of
  // two trades at -fineStep the coarse bars drop one.
  lemma GroupedExactlyFrom(fineStep: int, step: int, from: int)
    requires 0 < fineStep < step && step % fineStep == 0
    ensures GroupedFrom(fineStep, step, from) <==> from > -fineStep
  {
    if from > -fineStep {
      forall ts: seq<Trade> {:trigger Bars(step, ts)} | InTimeOrderFrom(from, ts)
        ensures Grouped(Buckets(step), Bars(step, ts), Bars(fineStep, ts))
      {
        CoarseBarsMergeFineBars(fineStep, step, ts);
      }
    } else {
      TwoTradesBreak(fineStep, step);
      var t := Trade(1, 1, -fineStep);
      assert InTimeOrderFrom(from, [t, t]);
    }
  }

  lemma TwoTradesBreak(fineStep: int, step: int)
    requires 0 < fineStep < step
    ensures var t := Trade(1, 1, -fineStep);
            !Grouped(Buckets(step), Bars(step, [t, t]), Bars(fineStep, [t, t]))
  {
    var t := Trade(1, 1, -fineStep);
    assert fineStep % fineStep == 0 by { MultipleHasNoRest(fineStep, 1); }
    assert BucketStart(fineStep, t.time) == -fineStep;
    JustBeforeTheEpoch(step, t.time);
    TwoBars(fineStep, t, t);
    TwoBars(step, t, t);
    NotTheMerge(Buckets(step), WithTrade(NewFromTrade(-fineStep, t), t), NewFromTrade(0, t));
  }

  lemma NotTheMerge(bucket: int -> int, f: Bar, c: Bar)
    requires bucket(f.openTime) == c.openTime && f.volume != c.volume
    ensures !Grouped(bucket, [c], [f])
  {
    WithinLast(bucket, c.openTime, [], f);
    assert [] + [f] == [f] && Within(bucket, c.openTime, [f]) == [f];
    assert !IsMerge(bucket, [f], [c][0]);
  }

  lemma TwoBars(d: int, a: Trade, b: Trade)
    requires d > 0
    ensures Bars(d, [a, b]) == AddTrade(d, [NewFromTrade(BucketStart(d, a.time), a)], b)
  {
    assert [a, b][..1] == [a] && [a][..0] == [];
    assert Bars(d, [a]) == [NewFromTrade(BucketStart(d, a.time), a)];
  }

  lemma FirstBars(fineStep: int, step: int, t: Trade)
    requires fineStep > 0 && step > 0
    requires BucketStart(step, BucketStart(fineStep, t.time)) == BucketStart(step, t.time)
    ensures Grouped(Buckets(step), Bars(step, [t]), Bars(fineStep, [t]))
  {
    var f := NewFromTrade(BucketStart(fineStep, t.time), t);
    var c := NewFromTrade(BucketStart(step, t.time), t);
    assert Bars(step, [t]) == [c] && Bars(fineStep, [t]) == [f];
    WithinLast(Buckets(step), c.openTime, [], f);
    assert [] + [f] == [f];
    assert Within(Buckets(step), c.openTime, [f]) == [f];
    assert [c][0].openTime == c.openTime;
  }

  lemma GroupedStep(fineStep: int, step: int, fine: seq<Bar>, coarse: seq<Bar>, t: Trade)
    requires fineStep > 0 && step > 0 && fine != [] && coarse != []
    requires coarse[|coarse| - 1].openTime == BucketStart(step, fine[|fine| - 1].openTime)
    requires fine[|fine| - 1].openTime <= t.time && coarse[|coarse| - 1].openTime <= t.time
    requires BucketStart(step, BucketStart(fineStep, t.time)) == BucketStart(step, t.time)
    requires Grouped(Buckets(step), coarse, fine) && Aligned(step, coarse)
    ensures Grouped(Buckets(step), AddTrade(step, coarse, t), AddTrade(fineStep, fine, t))
  {
    var at := BucketStart(fineStep, t.time);
    assert Increasing(coarse);
    if at == fine[|fine| - 1].openTime {
      LastFineGrows(Buckets(step), fine, coarse, t);
    } else if BucketStart(step, t.time) == coarse[|coarse| - 1].openTime {
      NewFineInLastCoarse(Buckets(step), fine, coarse, at, t);
    } else {
      LaterBucket(step, coarse[|coarse| - 1].openTime, t.time);
      NewCoarse(Buckets(step), fine, coarse, at, t);
    }
  }

  ghost predicate Increasing(bars: seq<Bar>) {
    forall i, j :: 0 <= i < j < |bars| ==> bars[i].openTime < bars[j].openTime
  }

  lemma LastFineGrows(bucket: int -> int, fine: seq<Bar>, coarse: seq<Bar>, t: Trade)
    requires fine != [] && coarse != [] && Increasing(coarse) && Grouped(bucket, coarse, fine)
    requires coarse[|coarse| - 1].openTime == bucket(fine[|fine| - 1].openTime)
    ensures Grouped(bucket, coarse[|coarse| - 1 := WithTrade(coarse[|coarse| - 1], t)],
                    fine[|fine| - 1 := WithTrade(fine[|fine| - 1], t)])
  {
    var m, n := |fine| - 1, |coarse| - 1;
    var f, last := fine[m], coarse[n];
    var f', last' := WithTrade(f, t), WithTrade(last, t);
    var fine', coarse' := fine[m := f'], coarse[n := last'];
    assert fine == fine[..m] + [f] && fine' == fine[..m] + [f'];
    forall i | 0 <= i <= n ensures IsMerge(bucket, fine', coarse'[i]) {
      WithinLast(bucket, coarse[i].openTime, fine[..m], f);
      WithinLast(bucket, coarse[i].openTime, fine[..m], f');
      assert IsMerge(bucket, fine, coarse[i]);
      if i == n { CombineTrade(last.openTime, Within(bucket, last.openTime, fine[..m]), f, t); }
    }
    forall i | 0 <= i <= m ensures HasBucket(coarse', bucket(fine'[i].openTime)) {
      assert fine'[i].openTime == fine[i].openTime;
      BucketKept(coarse, last', bucket(fine[i].openTime));
    }
  }

  lemma BucketKept(coarse: seq<Bar>, last: Bar, start: int)
    requires coarse != [] && HasBucket(coarse, start) && last.openTime == coarse[|coarse| - 1].openTime
    ensures HasBucket(coarse[|coarse| - 1 := last], start)
  {
    var i :| 0 <= i < |coarse| && coarse[i].openTime == start;
    assert coarse[|coarse| - 1 := last][i].openTime == start;
  }

  lemma NewFineInLastCoarse(bucket: int -> int, fine: seq<Bar>, coarse: seq<Bar>, at: int, t: Trade)
    requires coarse != [] && Increasing(coarse) && Grouped(bucket, coarse, fine)
    requires coarse[|coarse| - 1].openTime == bucket(at)
    ensures Grouped(bucket, coarse[|coarse| - 1 := WithTrade(coarse[|coarse| - 1], t)], fine + [NewFromTrade(at, t)])
  {
    var n := |coarse| - 1;
    var last, f := coarse[n], NewFromTrade(at, t);
    var last' := WithTrade(last, t);
    var fine', coarse' := fine + [f], coarse[n := last'];
    forall i | 0 <= i <= n ensures IsMerge(bucket, fine', coarse'[i]) {
      WithinLast(bucket, coarse[i].openTime, fine, f);
      assert IsMerge(bucket, fine, coarse[i]);
      if i == n {
        MergedLast(last.openTime, Within(bucket, last.openTime, fine), f);
        assert coarse'[n] == Combine(last, f);
      } else {
        assert Within(bucket, coarse[i].openTime, fine') == Within(bucket, coarse[i].openTime, fine);
      }
    }
    forall i | 0 <= i < |fine'| ensures HasBucket(coarse', bucket(fine'[i].openTime)) {
      if i < |fine| {
        BucketKept(coarse, last', bucket(fine[i].openTime));
      } else {
        assert coarse'[n].openTime == bucket(at);
      }
    }
  }

  lemma NewCoarse(bucket: int -> int, fine: seq<Bar>, coarse: seq<Bar>, at: int, t: Trade)
    requires coarse != [] && Increasing(coarse) && Grouped(bucket, coarse, fine)
    requires coarse[|coarse| - 1].openTime < bucket(at)
    ensures Grouped(bucket, coarse + [NewFromTrade(bucket(at), t)], fine + [NewFromTrade(at, t)])
  {
    var f, c := NewFromTrade(at, t), NewFromTrade(bucket(at), t);
    var fine', coarse' := fine + [f], coarse + [c];
    forall i | 0 <= i < |fine| ensures bucket(fine[i].openTime) != bucket(at) {
      assert HasBucket(coarse, bucket(fine[i].openTime));
    }
    WithinNone(bucket, bucket(at), fine);
    forall i | 0 <= i < |coarse'| ensures IsMerge(bucket, fine', coarse'[i]) {
      WithinLast(bucket, coarse'[i].openTime, fine, f);
      if i < |coarse| {
        assert IsMerge(bucket, fine, coarse[i]) && coarse[i].openTime < bucket(at);
        assert Within(bucket, coarse[i].openTime, fine') == Within(bucket, coarse[i].openTime, fine);
      } else {
        assert Within(bucket, bucket(at), fine') == [f];
        assert Merged(bucket(at), [f]) == c;
      }
    }
    forall i | 0 <= i < |fine'| ensures HasBucket(coarse', bucket(fine'[i].openTime)) {
      if i < |fine| {
        BucketGrown(coarse, c, bucket(fine[i].openTime));
      } else {
        assert coarse'[|coarse|].openTime == bucket(at);
      }
    }
  }

  lemma BucketGrown(coarse: seq<Bar>, c: Bar, start: int)
    requires HasBucket(coarse, start)
    ensures HasBucket(coarse + [c], start)
  {
    var i :| 0 <= i < |coarse| && coarse[i].openTime == start;
    assert (coarse + [c])[i].openTime == start;
  }

  // ---- Trades in the order of their times: a bar sums up the trades in its bucket ----

  // The trades whose times fall into the bucket that starts at start, in order.
  function InBucket(bucket: int -> int, start: int, ts: seq<Trade>): seq<Trade> {
    if ts == [] then []
    else
      var n := |ts| - 1;
      InBucket(bucket, start, ts[..n]) + if bucket(ts[n].time) == start then [ts[n]] else []
  }

  function Quantities(ts: seq<Trade>): int {
    if ts == [] then 0 else Quantities(ts[..|ts| - 1]) + ts[|ts| - 1].quantity
  }

  ghost predicate IsPriceOf(p: int, ts: seq<Trade>) { exists i :: 0 <= i < |ts| && ts[i].price == p }

  // First and last price, highest and lowest price, total quantity and last time of some trades.
  ghost predicate SumsUp(b: Bar, ts: seq<Trade>) {
    && ts != [] && b.open == ts[0].price && b.close == ts[|ts| - 1].price && b.updatedAt == ts[|ts| - 1].time
    && b.volume == Quantities(ts)
    && (forall i :: 0 <= i < |ts| ==> b.low <= ts[i].price <= b.high)
    && IsPriceOf(b.high, ts) && IsPriceOf(b.low, ts)
  }

  lemma SumsUpFirst(openTime: int, t: Trade)
    ensures SumsUp(NewFromTrade(openTime, t), [t])
  {
  }

  lemma SumsUpMore(b: Bar, ts: seq<Trade>, t: Trade)
    requires SumsUp(b, ts)
    ensures SumsUp(WithTrade(b, t), ts + [t])
  {
  }

  // Each bar sums up exactly the trades in its bucket, and each trade is in one.
  ghost predicate Complete(bucket: int -> int, bars: seq<Bar>, ts: seq<Trade>) {
    && (forall i :: 0 <= i < |bars| ==> SumsUp(bars[i], InBucket(bucket, bars[i].openTime, ts)))
    && (forall i :: 0 <= i < |ts| ==> HasBucket(bars, bucket(ts[i].time)))
  }

  lemma InBucketLast(bucket: int -> int, start: int, ts: seq<Trade>, t: Trade)
    ensures InBucket(bucket, start, ts + [t]) ==
            InBucket(bucket, start, ts) + if bucket(t.time) == start then [t] else []
  {
  }

  lemma InBucketNone(bucket: int -> int, start: int, ts: seq<Trade>)
    requires forall i :: 0 <= i < |ts| ==> bucket(ts[i].time) != start
    ensures InBucket(bucket, start, ts) == []
  {
  }

  lemma {:induction false} BarsSumUpTrades(d: int, ts: seq<Trade>)
    requires d > 0 && InTimeOrder(ts)
    ensures Complete(Buckets(d), Bars(d, ts), ts)
  {
    if ts != [] {
      var before, t := ts[..|ts| - 1], ts[|ts| - 1];
      BarsSumUpTrades(d, before);
      assert ts == before + [t];
      if before == [] {
        FirstTrade(d, t);
      } else {
        BarsAdvance(d, before);
        LastBarBefore(d, ts);
        OneMoreTrade(d, Bars(d, before), before, t);
      }
    }
  }

  lemma LastBarBefore(d: int, ts: seq<Trade>)
    requires d > 0 && InTimeOrder(ts) && |ts| > 1
    ensures var bars := Bars(d, ts[..|ts| - 1]); bars != [] && bars[|bars| - 1].openTime <= ts[|ts| - 1].time
  {
    var before := ts[..|ts| - 1];
    LastBarIsCurrent(d, before);
    assert before[|before| - 1].time <= ts[|ts| - 1].time;
  }

  lemma FirstTrade(d: int, t: Trade)
    requires d > 0
    ensures Complete(Buckets(d), Bars(d, [t]), [t])
  {
    TradeOpensBar(Buckets(d), [], [], t);
    assert [] + [t] == [t] && [] + [NewFromTrade(BucketStart(d, t.time), t)] == Bars(d, [t]);
  }

  lemma OneMoreTrade(d: int, bars: seq<Bar>, ts: seq<Trade>, t: Trade)
    requires d > 0 && bars != [] && bars[|bars| - 1].openTime <= t.time
    requires Aligned(d, bars) && Complete(Buckets(d), bars, ts)
    ensures Complete(Buckets(d), AddTrade(d, bars, t), ts + [t])
  {
    assert Increasing(bars);
    if BucketStart(d, t.time) == bars[|bars| - 1].openTime {
      TradeJoinsBar(Buckets(d), bars, ts, t);
    } else {
      LaterBucket(d, bars[|bars| - 1].openTime, t.time);
      TradeOpensBar(Buckets(d), bars, ts, t);
    }
  }

  lemma TradeJoinsBar(bucket: int -> int, bars: seq<Bar>, ts: seq<Trade>, t: Trade)
    requires bars != [] && Increasing(bars) && Complete(bucket, bars, ts) && bars[|bars| - 1].openTime == bucket(t.time)
    ensures Complete(bucket, bars[|bars| - 1 := WithTrade(bars[|bars| - 1], t)], ts + [t])
  {
    var n := |bars| - 1;
    var last' := WithTrade(bars[n], t);
    var bars', ts' := bars[n := last'], ts + [t];
    forall i | 0 <= i <= n ensures SumsUp(bars'[i], InBucket(bucket, bars'[i].openTime, ts')) {
      if i == n {
        InBucketLast(bucket, bars[n].openTime, ts, t);
        SumsUpMore(bars[n], InBucket(bucket, bars[n].openTime, ts), t);
      } else {
        OtherBarKept(bucket, bars[i], ts, t);
      }
    }
    forall i | 0 <= i < |ts'| ensures HasBucket(bars', bucket(ts'[i].time)) {
      if i < |ts| { BucketKept(bars, last', bucket(ts[i].time)); } else { assert bars'[n].openTime == bucket(t.time); }
    }
  }

  lemma TradeOpensBar(bucket: int -> int, bars: seq<Bar>, ts: seq<Trade>, t: Trade)
    requires Increasing(bars) && Complete(bucket, bars, ts)
    requires bars != [] ==> bars[|bars| - 1].openTime < bucket(t.time)
    ensures Complete(bucket, bars + [NewFromTrade(bucket(t.time), t)], ts + [t])
  {
    var bar := NewFromTrade(bucket(t.time), t);
    var bars', ts' := bars + [bar], ts + [t];
    forall i | 0 <= i < |ts| ensures bucket(ts[i].time) != bucket(t.time) {
      assert HasBucket(bars, bucket(ts[i].time));
    }
    NewBarSumsUp(bucket, ts, t);
    forall i | 0 <= i < |bars'| ensures SumsUp(bars'[i], InBucket(bucket, bars'[i].openTime, ts')) {
      if i < |bars| { OtherBarKept(bucket, bars[i], ts, t); }
    }
    forall i | 0 <= i < |ts'| ensures HasBucket(bars', bucket(ts'[i].time)) {
      if i < |ts| {
        BucketGrown(bars, bar, bucket(ts[i].time));
      } else {
        assert bars'[|bars|].openTime == bucket(t.time);
      }
    }
  }

  lemma OtherBarKept(bucket: int -> int, b: Bar, ts: seq<Trade>, t: Trade)
    requires SumsUp(b, InBucket(bucket, b.openTime, ts)) && bucket(t.time) != b.openTime
    ensures SumsUp(b, InBucket(bucket, b.openTime, ts + [t]))
  {
    InBucketLast(bucket, b.openTime, ts, t);
    assert InBucket(bucket, b.openTime, ts + [t]) == InBucket(bucket, b.openTime, ts);
  }

  lemma NewBarSumsUp(bucket: int -> int, ts: seq<Trade>, t: Trade)
    requires forall i :: 0 <= i < |ts| ==> bucket(ts[i].time) != bucket(t.time)
    ensures SumsUp(NewFromTrade(bucket(t.time), t), InBucket(bucket, bucket(t.time), ts + [t]))
  {
    InBucketNone(bucket, bucket(t.time), ts);
    InBucketLast(bucket, bucket(t.time), ts, t);
    SumsUpFirst(bucket(t.time), t);
    assert [] + [t] == [t];
  }
}
