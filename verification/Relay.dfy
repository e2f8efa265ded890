// The relay of one worker: it reads the outbox behind its cursor, writes the records to Kafka in
// groups of one topic and key, and moves the cursor to the last record of the last written group.
module Relay {
  import opened Bytes
  import opened SegmentedLog
  import opened Sorting
  import opened Wrappers
  import opened Outbox = OutboxRecord
  import Framing
  import Logs

  predicate KnownTopic(r: Record) { r.topic == TOPIC_MATCH || r.topic == TOPIC_TRADE }

  // The records with known topics from position from up to end.
  function Between(rs: seq<Record>, from: nat, end: nat): seq<Record>
    requires end <= |rs|
  {
    if end <= from then []
    else Between(rs, from, end - 1) + if KnownTopic(rs[end - 1]) then [rs[end - 1]] else []
  }

  // The number of the last record with a known topic among the first k.
  function LastKnown(rs: seq<Record>, k: nat, after: nat): nat
    requires k <= |rs|
  {
    if k == 0 then after
    else if KnownTopic(rs[k - 1]) then rs[k - 1].outboxSeq
    else LastKnown(rs, k - 1, after)
  }

  // What outlives a poll: the cursor in memory, the cursor on disk, and all that Kafka has got.
  datatype State = State(published: nat, meta: nat, history: seq<Record>)

  // Where the next poll starts.  A cursor file that cannot be read counts as zero.
  function Cursor(st: State, loadOk: bool): nat {
    if st.published > 0 then st.published else if loadOk then st.meta else 0
  }

  // One poll whose writes went well for the first k records; of the group behind them, whose write
  // failed, d records arrived nevertheless.
  function Polled(st: State, recs: seq<Record>, loadOk: bool, k: nat, d: nat, saveOk: bool): State
    requires k + d <= |recs|
  {
    var after := Cursor(st, loadOk);
    var lastOk := LastKnown(recs, k, after);
    State(if lastOk > after then lastOk else after,
          if lastOk > after && saveOk then lastOk else st.meta,
          st.history + Between(recs, 0, k + d))
  }

  // The records from i to j have one known topic and one key.
  ghost predicate OneGroup(rs: seq<Record>, i: nat, j: nat) {
    && i <= j <= |rs|
    && (forall x :: i <= x < j ==> KnownTopic(rs[x]) && rs[x].topic == rs[i].topic && rs[x].key == rs[i].key)
  }

  // Two records that one write sends together if they follow each other.
  predicate Together(a: Record, b: Record) { KnownTopic(a) && a.topic == b.topic && a.key == b.key }

  // A write can end in front of record k: groups are as long as they can be.
  predicate Boundary(rs: seq<Record>, k: nat) {
    k <= |rs| && (0 < k < |rs| ==> !Together(rs[k - 1], rs[k]))
  }

  // What a write answers: how many of its records arrived, and whether it reports success.
  datatype Written = Written(arrived: nat, ok: bool)

  ghost predicate Honest(outcome: (nat, nat) -> Written) {
    forall n, size :: outcome(n, size).arrived <= size && (outcome(n, size).ok ==> outcome(n, size).arrived == size)
  }

  lemma {:induction false} BetweenGroup(rs: seq<Record>, i: nat, j: nat)
    requires OneGroup(rs, i, j)
    ensures Between(rs, i, j) == rs[i..j]
    decreases j
  {
    if i < j { BetweenGroup(rs, i, j - 1); }
  }

  lemma {:induction false} BetweenSplit(rs: seq<Record>, from: nat, mid: nat, end: nat)
    requires from <= mid <= end <= |rs|
    ensures Between(rs, from, end) == Between(rs, from, mid) + Between(rs, mid, end)
    decreases end
  {
    if mid < end { BetweenSplit(rs, from, mid, end - 1); }
  }

  lemma GroupArrives(rs: seq<Record>, i: nat, d: nat, j: nat)
    requires OneGroup(rs, i, j) && i + d <= j
    ensures Between(rs, 0, i + d) == Between(rs, 0, i) + rs[i..i + d]
  {
    BetweenSplit(rs, 0, i, i + d);
    BetweenGroup(rs, i, i + d);
  }

  function Batch(fetched: Option<seq<Record>>): seq<Record> {
    if fetched == None then [] else fetched.value
  }

  ghost predicate AllAfter(rs: seq<Record>, after: nat) { forall i :: 0 <= i < |rs| ==> rs[i].outboxSeq > after }

  lemma FetchedIsNewer(crc: Framing.Crc, files: seq<seq<byte>>, after: nat, limit: nat)
    ensures AllAfter(Batch(Fetched(Logs.OutboxCodec(crc), files, after, limit)), after)
  {
    NewerIsBehind(crc, ReadSegments(OutboxFormat(crc), files).records, after);
  }

  lemma {:induction false} NewerIsBehind(crc: Framing.Crc, rs: seq<Record>, after: nat)
    ensures AllAfter(Newer(Logs.OutboxCodec(crc), rs, after), after)
  {
    if rs != [] { NewerIsBehind(crc, rs[1..], after); }
  }

  class RelayWorker {
    const crc: Framing.Crc
    var published: nat
    // The cursor file; zero stands for no file.
    var meta: nat
    ghost var history: seq<Record>

    ghost function Value(): State reads this { State(published, meta, history) }

    constructor (crc: Framing.Crc, meta: nat)
      ensures this.crc == crc && Value() == State(0, meta, [])
    {
      this.crc, published, this.meta, history := crc, 0, meta, [];
    }

    method LoadPublished(loadOk: bool) returns (after: nat)
      modifies this
      ensures after == published == Cursor(old(Value()), loadOk)
      ensures meta == old(meta) && history == old(history)
    {
      if published > 0 { return published; }
      if !loadOk { return 0; }
      published := meta;
      after := published;
    }

    method StorePublished(seqNo: nat, saveOk: bool) returns (ok: bool)
      modifies this
      ensures ok == saveOk && Value() == State(seqNo, if saveOk then seqNo else old(meta), old(history))
    {
      published := seqNo;
      if saveOk { meta := seqNo; }
      ok := saveOk;
    }

    // The longest run of records behind recs[i] that share its topic and key.
    method GroupEnd(recs: seq<Record>, i: nat, after: nat) returns (j: nat)
      requires i < |recs| && KnownTopic(recs[i]) && AllAfter(recs, after)
      ensures i < j && OneGroup(recs, i, j)
      ensures j < |recs| ==> !OneGroup(recs, i, j + 1)
    {
      j := i + 1;
      while j < |recs| && recs[j].outboxSeq > after && recs[j].topic == recs[i].topic && recs[j].key == recs[i].key
        invariant i < j && OneGroup(recs, i, j)
      {
        j := j + 1;
      }
    }

    // One poll.  outcome gives the answer to the n-th write of a poll, for a group of that size.
    method PollOnce(files: seq<seq<byte>>, batchSize: int, loadOk: bool, outcome: (nat, nat) -> Written, saveOk: bool)
        returns (n: nat, ghost recs: seq<Record>, ghost k: nat, ghost d: nat)
      requires Honest(outcome)
      modifies this
      ensures var after := Cursor(old(Value()), loadOk);
              var limit := if batchSize <= 0 then 256 else batchSize;
              && recs == Batch(Fetched(Logs.OutboxCodec(crc), files, after, limit))
              && n == |recs| && Boundary(recs, k) && OneGroup(recs, k, k + d)
              && Value() == Polled(old(Value()), recs, loadOk, k, d, saveOk)
      ensures (forall i, size :: outcome(i, size).ok) ==> k == |recs|
    {
      var after := LoadPublished(loadOk);
      var fetched := FetchUnpublished(Logs.OutboxCodec(crc), files, after, batchSize);
      var rs := Batch(fetched);
      // No record of the batch is at or before the cursor.
      FetchedIsNewer(crc, files, after, Limited(batchSize));
      var lastOk;
      lastOk, k, d := Publish(rs, after, outcome);
      if lastOk > after {
        var saved := StorePublished(lastOk, saveOk);
      }
      n, recs := |rs|, rs;
    }

    // Writes the batch group by group up to the first write that fails.
    method Publish(rs: seq<Record>, after: nat, outcome: (nat, nat) -> Written)
        returns (lastOk: nat, ghost k: nat, ghost d: nat)
      requires Honest(outcome) && AllAfter(rs, after)
      modifies this`history
      ensures Boundary(rs, k) && OneGroup(rs, k, k + d) && lastOk == LastKnown(rs, k, after)
      ensures history == old(history) + Between(rs, 0, k + d)
      ensures (forall i, size :: outcome(i, size).ok) ==> k == |rs|
    {
      lastOk, k, d := after, 0, 0;
      var i, calls := 0, 0;
      while i < |rs|
        invariant i == k <= |rs| && d == 0 && Boundary(rs, k)
        invariant lastOk == LastKnown(rs, k, after)
        invariant history == old(history) + Between(rs, 0, k)
      {
        if !KnownTopic(rs[i]) {
          assert Between(rs, 0, i + 1) == Between(rs, 0, i);
          i, k := i + 1, k + 1;
        } else {
          var j := GroupEnd(rs, i, after);
          var answer := outcome(calls, j - i);
          calls := calls + 1;
          GroupArrives(rs, i, answer.arrived, j);
          Framing.Associative(old(history), Between(rs, 0, i), rs[i..i + answer.arrived]);
          history := history + rs[i..i + answer.arrived];
          if !answer.ok {
            d := answer.arrived;
            return;
          }
          lastOk := rs[j - 1].outboxSeq;
          i, k := j, j;
        }
      }
    }
  }

  // ---- Runs ----

  // The highest number written so far.
  function Top(h: seq<Record>): nat {
    if h == [] then 0
    else
      var top, n := Top(h[..|h| - 1]), h[|h| - 1].outboxSeq;
      if n > top then n else top
  }

  // The history without what was sent again: a record counts when it is beyond all before it.
  function Collapsed(h: seq<Record>): seq<Record> {
    if h == [] then []
    else
      var before, r := h[..|h| - 1], h[|h| - 1];
      Collapsed(before) + if r.outboxSeq > Top(before) then [r] else []
  }

  ghost predicate Numbered(outbox: seq<Record>) {
    forall i :: 0 <= i < |outbox| ==> outbox[i].outboxSeq == i + 1
  }

  // The records behind number from, at most limit of them.
  function Unpublished(outbox: seq<Record>, from: nat, limit: nat): seq<Record> {
    if from >= |outbox| then []
    else if |outbox| - from <= limit then outbox[from..] else outbox[from..from + limit]
  }

  lemma UnpublishedSlice(outbox: seq<Record>, from: nat, limit: nat)
    ensures var recs := Unpublished(outbox, from, limit);
            recs != [] ==> from + |recs| <= |outbox| && recs == outbox[from..from + |recs|]
  {
  }

  // On a numbered outbox that is how far a fetch from its files gets.
  lemma FetchIsUnpublished(crc: Framing.Crc, files: seq<seq<byte>>, outbox: seq<Record>, from: nat, limit: nat)
    requires Numbered(outbox) && ReadSegments(OutboxFormat(crc), files) == Framing.Scan(outbox, None)
    ensures Fetched(Logs.OutboxCodec(crc), files, from, limit) == Some(Unpublished(outbox, from, limit))
  {
    var i := if from <= |outbox| then from else |outbox|;
    NewerIsEnd(Logs.OutboxCodec(crc), outbox, from, i);
    LimitedEnd(outbox, from, i, limit);
  }

  lemma LimitedEnd(outbox: seq<Record>, from: nat, i: nat, limit: nat)
    requires i == if from <= |outbox| then from else |outbox|
    ensures (if |outbox[i..]| >= limit then outbox[i..][..limit] else outbox[i..]) == Unpublished(outbox, from, limit)
  {
  }

  datatype System = System(outbox: seq<Record>, relay: State)

  // A record is appended and synced; the worker polls, reading the files or failing to; the worker
  // starts again with what is on disk.
  datatype Step = Grow(r: Record)
                | Poll(limit: nat, fetchOk: bool, loadOk: bool, k: nat, d: nat, saveOk: bool)
                | Crash

  function Recs(sys: System, step: Step): seq<Record>
    requires step.Poll?
  {
    if step.fetchOk then Unpublished(sys.outbox, Cursor(sys.relay, step.loadOk), step.limit) else []
  }

  ghost predicate Possible(sys: System, step: Step) {
    match step
    case Grow(r) => r.outboxSeq == |sys.outbox| + 1
    case Poll(_, _, _, k, d, _) => Boundary(Recs(sys, step), k) && OneGroup(Recs(sys, step), k, k + d)
    case Crash => true
  }

  function Next(sys: System, step: Step): System {
    match step
    case Grow(r) => sys.(outbox := sys.outbox + [r])
    case Poll(_, _, loadOk, k, d, saveOk) =>
      if k + d > |Recs(sys, step)| then sys
      else sys.(relay := Polled(sys.relay, Recs(sys, step), loadOk, k, d, saveOk))
    case Crash => sys.(relay := sys.relay.(published := 0))
  }

  const START := System([], State(0, 0, []))

  function AfterRun(steps: seq<Step>): System {
    if steps == [] then START else Next(AfterRun(steps[..|steps| - 1]), steps[|steps| - 1])
  }

  ghost predicate IsRun(steps: seq<Step>) {
    steps == [] || (IsRun(steps[..|steps| - 1]) && Possible(AfterRun(steps[..|steps| - 1]), steps[|steps| - 1]))
  }

  // Kafka has the known records of the outbox up to the highest number written, in order and
  // without a gap once repetitions are dropped, and no cursor is beyond that number.
  ghost predicate Safe(sys: System) {
    && Numbered(sys.outbox)
    && Covers(sys.outbox, sys.relay.history, Top(sys.relay.history))
    && sys.relay.meta <= Top(sys.relay.history) && sys.relay.published <= Top(sys.relay.history)
  }

  lemma {:induction false} EveryRunIsSafe(steps: seq<Step>)
    requires IsRun(steps)
    ensures Safe(AfterRun(steps))
  {
    if steps != [] {
      EveryRunIsSafe(steps[..|steps| - 1]);
      StepIsSafe(AfterRun(steps[..|steps| - 1]), steps[|steps| - 1]);
    }
  }

  lemma StepIsSafe(sys: System, step: Step)
    requires Safe(sys) && Possible(sys, step)
    ensures Safe(Next(sys, step))
  {
    match step
    case Grow(r) =>
      var top := Top(sys.relay.history);
      BetweenGrown(sys.outbox, r, top);
    case Poll(_, _, loadOk, k, d, saveOk) => PollIsSafe(sys, step);
    case Crash =>
  }

  lemma {:induction false} BetweenGrown(outbox: seq<Record>, r: Record, end: nat)
    requires end <= |outbox|
    ensures Between(outbox + [r], 0, end) == Between(outbox, 0, end)
  {
    if end > 0 { BetweenGrown(outbox, r, end - 1); }
  }

  lemma PollIsSafe(sys: System, step: Step)
    requires Safe(sys) && step.Poll? && Possible(sys, step)
    ensures Safe(Next(sys, step))
  {
    var after, recs := Cursor(sys.relay, step.loadOk), Recs(sys, step);
    if recs == [] {
      NothingPolled(sys.relay, step.loadOk, step.saveOk);
    } else {
      UnpublishedSlice(sys.outbox, after, step.limit);
      SomePolled(sys.outbox, sys.relay, recs, after + |recs|, step);
    }
  }

  lemma NothingPolled(st: State, loadOk: bool, saveOk: bool)
    ensures Polled(st, [], loadOk, 0, 0, saveOk) == st.(published := Cursor(st, loadOk))
  {
  }

  lemma SomePolled(outbox: seq<Record>, st: State, recs: seq<Record>, stop: nat, step: Step)
    requires step.Poll? && Safe(System(outbox, st)) && step.k + step.d <= |recs|
    requires Cursor(st, step.loadOk) <= stop <= |outbox| && recs == outbox[Cursor(st, step.loadOk)..stop]
    ensures Safe(System(outbox, Polled(st, recs, step.loadOk, step.k, step.d, step.saveOk)))
  {
    var after, k, d := Cursor(st, step.loadOk), step.k, step.d;
    var now := Polled(st, recs, step.loadOk, k, d, step.saveOk);
    BetweenShift(outbox, after, stop, k + d);
    var h' := Resent(outbox, st.history, after, after + k + d);
    assert now.history == h';
    LastKnownIsSent(outbox, h', after, stop, k);
    CoversTop(outbox, h', after + k + d);
  }

  // Positions in a batch are numbers in the outbox.
  lemma {:induction false} BetweenShift(outbox: seq<Record>, after: nat, stop: nat, n: nat)
    requires after <= stop <= |outbox| && n <= stop - after
    ensures Between(outbox[after..stop], 0, n) == Between(outbox, after, after + n)
    decreases n
  {
    if n > 0 { BetweenShift(outbox, after, stop, n - 1); }
  }

  lemma CoversTop(outbox: seq<Record>, h: seq<Record>, end: nat)
    requires Covers(outbox, h, end)
    ensures Covers(outbox, h, Top(h))
  {
  }

  // The end of the outbox behind T has nothing to send up to e.
  ghost predicate Silent(outbox: seq<Record>, from: nat, end: nat) {
    forall i :: from <= i < end && i < |outbox| ==> !KnownTopic(outbox[i])
  }

  // The history collapses to the known records up to its top, and covers everything up to end.
  ghost predicate Covers(outbox: seq<Record>, h: seq<Record>, end: nat) {
    && Top(h) <= |outbox| && Collapsed(h) == Between(outbox, 0, Top(h)) && Silent(outbox, Top(h), end)
  }

  // Writing the known records from after on, wherever after is below the highest number written,
  // leaves a history that collapses to a longer prefix of the known records.
  lemma {:induction false} Resent(outbox: seq<Record>, h: seq<Record>, after: nat, end: nat) returns (h': seq<Record>)
    requires Numbered(outbox) && after <= Top(h) && after <= end <= |outbox|
    requires Covers(outbox, h, Top(h))
    ensures h' == h + Between(outbox, after, end)
    ensures Top(h) <= Top(h') && Covers(outbox, h', end)
    decreases end
  {
    if after == end {
      h' := h;
      Unchanged(outbox, h, after);
    } else {
      var before := Resent(outbox, h, after, end - 1);
      h' := SentNext(outbox, before, end);
      Framing.Associative(h, Between(outbox, after, end - 1),
                          if KnownTopic(outbox[end - 1]) then [outbox[end - 1]] else []);
    }
  }

  lemma SentNext(outbox: seq<Record>, h: seq<Record>, end: nat) returns (h': seq<Record>)
    requires Numbered(outbox) && 0 < end <= |outbox| && Covers(outbox, h, end - 1)
    ensures h' == h + if KnownTopic(outbox[end - 1]) then [outbox[end - 1]] else []
    ensures Top(h) <= Top(h') && Covers(outbox, h', end)
  {
    if KnownTopic(outbox[end - 1]) {
      h' := h + [outbox[end - 1]];
      SentOneMore(outbox, h, end);
    } else {
      h' := h;
      assert h + [] == h;
    }
  }

  lemma Unchanged(outbox: seq<Record>, h: seq<Record>, after: nat)
    requires after <= |outbox|
    ensures h + Between(outbox, after, after) == h
  {
  }

  lemma SentOneMore(outbox: seq<Record>, h: seq<Record>, end: nat)
    requires Numbered(outbox) && 0 < end <= |outbox| && KnownTopic(outbox[end - 1]) && Covers(outbox, h, end - 1)
    ensures var h' := h + [outbox[end - 1]];
            Top(h) <= Top(h') && Covers(outbox, h', end)
  {
    var r, top := outbox[end - 1], Top(h);
    assert (h + [r])[..|h|] == h;
    if end > top {
      SilentKnown(outbox, top, end - 1);
    } else {
      assert Collapsed(h) + [] == Collapsed(h);
    }
  }

  lemma {:induction false} SilentKnown(outbox: seq<Record>, from: nat, end: nat)
    requires from <= end <= |outbox| && Silent(outbox, from, end)
    ensures Between(outbox, 0, end) == Between(outbox, 0, from)
    decreases end
  {
    if from < end {
      SilentKnown(outbox, from, end - 1);
      assert Between(outbox, 0, end) == Between(outbox, 0, end - 1) + [];
    }
  }

  // The cursor after a poll is the number of a record that has been written, or the old cursor.
  lemma {:induction false} LastKnownIsSent(outbox: seq<Record>, h: seq<Record>, after: nat, stop: nat, k: nat)
    requires Numbered(outbox) && after + k <= stop <= |outbox|
    requires after <= Top(h) && Silent(outbox, Top(h), after + k)
    ensures after <= LastKnown(outbox[after..stop], k, after) <= Top(h)
    decreases k
  {
    if k > 0 { LastKnownIsSent(outbox, h, after, stop, k - 1); }
  }

  // So every record with a known topic up to the cursor on disk has been written.
  lemma CursorIsCovered(steps: seq<Step>, i: nat)
    requires IsRun(steps)
    requires i < |AfterRun(steps).outbox| && i < AfterRun(steps).relay.meta && KnownTopic(AfterRun(steps).outbox[i])
    ensures AfterRun(steps).outbox[i] in AfterRun(steps).relay.history
  {
    EveryRunIsSafe(steps);
    var sys := AfterRun(steps);
    BetweenHolds(sys.outbox, Top(sys.relay.history), i);
    CollapsedFrom(sys.relay.history, sys.outbox[i]);
  }

  lemma {:induction false} BetweenHolds(outbox: seq<Record>, n: nat, i: nat)
    requires i < n <= |outbox| && KnownTopic(outbox[i])
    ensures outbox[i] in Between(outbox, 0, n)
  {
    if i < n - 1 { BetweenHolds(outbox, n - 1, i); }
  }

  lemma {:induction false} CollapsedFrom(h: seq<Record>, r: Record)
    requires r in Collapsed(h)
    ensures r in h
  {
    if r != h[|h| - 1] { CollapsedFrom(h[..|h| - 1], r); }
  }

  // ---- The cursor on disk ----

  ghost predicate MetaFollows(st: State) { st.published > 0 ==> st.meta <= st.published }

  // What one poll does to the cursor on disk.
  lemma CursorAfterPoll(sys: System, step: Step)
    requires step.Poll? && Possible(sys, step)
    ensures var after := Cursor(sys.relay, step.loadOk);
            var last := LastKnown(Recs(sys, step), step.k, after);
            Next(sys, step).relay.meta < sys.relay.meta <==> step.saveOk && after < last < sys.relay.meta
  {
  }

  // The last known record among the first k, and nothing but unknown ones behind it.
  lemma {:induction false} LastKnownIsKnown(recs: seq<Record>, k: nat, after: nat) returns (i: nat)
    requires k <= |recs| && LastKnown(recs, k, after) > after
    ensures i < k && KnownTopic(recs[i]) && recs[i].outboxSeq == LastKnown(recs, k, after)
    ensures forall j :: i < j < k ==> !KnownTopic(recs[j])
  {
    if KnownTopic(recs[k - 1]) { i := k - 1; } else { i := LastKnownIsKnown(recs, k - 1, after); }
  }

  // With polls of that size, one of the polls that are possible moves the cursor on disk back.
  ghost predicate CanFall(sys: System, limit: nat) {
    exists step: Step :: step.Poll? && step.limit == limit && Possible(sys, step)
                         && Next(sys, step).relay.meta < sys.relay.meta
  }

  // In the batch a write ends with a record to send whose number is below n.
  ghost predicate EndsBelow(recs: seq<Record>, n: nat) {
    exists i :: 0 <= i < |recs| && KnownTopic(recs[i]) && recs[i].outboxSeq < n
                && (i + 1 < |recs| ==> !Together(recs[i], recs[i + 1]))
  }

  // With the configured size of a batch, some poll may move the cursor on disk back exactly when in
  // the batch behind the cursor in memory, which a restart sets to zero, a write ends below the
  // cursor on disk.
  lemma CursorCanFallExactlyWhen(sys: System, limit: nat)
    requires Safe(sys)
    ensures CanFall(sys, limit) <==>
            EndsBelow(Unpublished(sys.outbox, sys.relay.published, limit), sys.relay.meta)
  {
    var recs := Unpublished(sys.outbox, sys.relay.published, limit);
    if CanFall(sys, limit) {
      var step: Step :| step.Poll? && step.limit == limit && Possible(sys, step)
                        && Next(sys, step).relay.meta < sys.relay.meta;
      FallShowsEnd(sys, step);
    }
    if EndsBelow(recs, sys.relay.meta) {
      var i :| 0 <= i < |recs| && KnownTopic(recs[i]) && recs[i].outboxSeq < sys.relay.meta
               && (i + 1 < |recs| ==> !Together(recs[i], recs[i + 1]));
      EndMakesFall(sys, limit, i);
    }
  }

  lemma FallShowsEnd(sys: System, step: Step)
    requires Safe(sys) && step.Poll? && Possible(sys, step) && Next(sys, step).relay.meta < sys.relay.meta
    ensures EndsBelow(Unpublished(sys.outbox, sys.relay.published, step.limit), sys.relay.meta)
  {
    CursorAfterPoll(sys, step);
    var recs, after := Recs(sys, step), Cursor(sys.relay, step.loadOk);
    UnpublishedSlice(sys.outbox, after, step.limit);
    var i := LastKnownIsKnown(recs, step.k, after);
    assert after == sys.relay.published;
    assert i + 1 < |recs| ==> !Together(recs[i], recs[i + 1]);
  }

  lemma EndMakesFall(sys: System, limit: nat, i: nat)
    requires Safe(sys) && i < |Unpublished(sys.outbox, sys.relay.published, limit)|
    requires var recs := Unpublished(sys.outbox, sys.relay.published, limit);
             && KnownTopic(recs[i]) && recs[i].outboxSeq < sys.relay.meta
             && (i + 1 < |recs| ==> !Together(recs[i], recs[i + 1]))
    ensures CanFall(sys, limit)
  {
    var after := sys.relay.published;
    var step := Poll(limit, true, false, i + 1, 0, true);
    UnpublishedSlice(sys.outbox, after, limit);
    assert Cursor(sys.relay, false) == after;
    assert Recs(sys, step)[i] == sys.outbox[after + i];
    CursorAfterPoll(sys, step);
  }

  lemma {:induction false} LastKnownGrows(outbox: seq<Record>, after: nat, stop: nat, k: nat)
    requires Numbered(outbox) && after + k <= stop <= |outbox|
    ensures after <= LastKnown(outbox[after..stop], k, after)
    decreases k
  {
    if k > 0 { LastKnownGrows(outbox, after, stop, k - 1); }
  }

  ghost predicate FileIsRead(step: Step) { step.Poll? ==> step.loadOk }

  // As long as the cursor file can be read, the cursor on disk never moves back: not by failed
  // writes, not by failed saves, not by crashes.
  lemma {:induction false} CursorNeverFalls(steps: seq<Step>, i: nat)
    requires IsRun(steps) && i <= |steps| && forall j :: 0 <= j < |steps| ==> FileIsRead(steps[j])
    ensures AfterRun(steps[..i]).relay.meta <= AfterRun(steps).relay.meta
    ensures MetaFollows(AfterRun(steps).relay)
    decreases |steps|
  {
    if steps != [] {
      var n := |steps| - 1;
      var before := steps[..n];
      CursorNeverFalls(before, if i <= n then i else n);
      if i <= n { assert before[..i] == steps[..i]; } else { assert steps[..i] == steps; }
      EveryRunIsSafe(before);
      var sys, step := AfterRun(before), steps[n];
      assert FileIsRead(step);
      if step.Poll? {
        CursorAfterPoll(sys, step);
        FollowsAfterPoll(sys, step);
      }
    } else {
      assert steps[..i] == [];
    }
  }

  lemma FollowsAfterPoll(sys: System, step: Step)
    requires Safe(sys) && MetaFollows(sys.relay) && step.Poll? && step.loadOk && Possible(sys, step)
    ensures MetaFollows(Next(sys, step).relay)
  {
  }
}
