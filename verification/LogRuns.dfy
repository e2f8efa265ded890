// Every run of a segmented log: appends, syncs and rotations that may fail, and crashes that leave
// any bytes behind the synced ones, each followed by opening the log again.
module LogRuns {
  import opened Bytes
  import opened Framing
  import opened SegmentedLog
  import opened Wrappers

  // The records appended, the last number known, the bytes of the newest segment and how many of
  // them are on disk for sure, and whether the log could be opened.
  datatype LogState<R> = LogState(segments: Segments<R>, lastSeq: u64, file: seq<byte>, synced: nat, isOpen: bool)

  datatype Step<R> = Append(r: R, full: bool, syncOk: bool, closeOk: bool)
                   | Sync(ok: bool)
                   | Crash(bytes: nat)

  function EmptyLog<R>(): LogState<R> { LogState(Segments([], [], 0), 0, [], 0, true) }

  // The newest segment is scanned for the last number; if it cannot be read, the log stays closed.
  function Reopened<R>(c: Codec<R>, older: seq<seq<R>>, file: seq<byte>): LogState<R> {
    var scan := ScanAll(c.format, file);
    LogState(Segments(older, scan.records, |scan.records|), LastSeq(c, scan.records), file, |file|, scan.error == None)
  }

  function Grown<R>(c: Codec<R>, st: LogState<R>, rec: R, s: Segments<R>): LogState<R> {
    if |s.older| > |st.segments.older| then LogState(s, c.seqOf(rec), [], 0, true)
    else
      var file := st.file + Frame(c.format, rec);
      LogState(s, c.seqOf(rec), file, if s.synced == |s.current| then |file| else st.synced, true)
  }

  // A crash leaves some bytes of the newest segment, and the log is opened again.
  function Next<R>(c: Codec<R>, group: bool, st: LogState<R>, step: Step<R>): LogState<R> {
    if !st.isOpen then st
    else
      match step
      case Append(r, full, syncOk, closeOk) =>
        var rec := c.withSeq(r, Successor(st.lastSeq));
        if (st.lastSeq != 0 && c.seqOf(rec) <= st.lastSeq) || |c.format.body(rec)| > MAX_BODY then st
        else Grown(c, st, rec, Appended(st.segments, rec, group, full, syncOk, closeOk).0)
      case Sync(ok) => if ok then st.(segments := Synced(st.segments), synced := |st.file|) else st
      case Crash(bytes) => if bytes > |st.file| then st else Reopened(c, st.segments.older, st.file[..bytes])
  }

  function After<R>(c: Codec<R>, group: bool, steps: seq<Step<R>>): LogState<R> {
    if steps == [] then EmptyLog() else Next(c, group, After(c, group, steps[..|steps| - 1]), steps[|steps| - 1])
  }

  // A crash keeps the synced bytes.
  predicate Possible<R(==)>(st: LogState<R>, step: Step<R>) {
    step.Crash? && st.isOpen ==> st.synced <= step.bytes <= |st.file|
  }

  predicate IsRun<R(==)>(c: Codec<R>, group: bool, steps: seq<Step<R>>) {
    steps == [] ||
    (IsRun(c, group, steps[..|steps| - 1])
     && Possible(After(c, group, steps[..|steps| - 1]), steps[|steps| - 1]))
  }

  // The cut is right behind a length prefix, or in front of all records of a newest segment that is
  // not the first: the log opens, with a stray prefix or without its last number.
  predicate BadCut<R(==)>(c: Codec<R>, st: LogState<R>, step: Step<R>) {
    && step.Crash? && st.isOpen && step.bytes <= |Frames(c.format, st.segments.current)|
    && var rs := st.segments.current;
       var k := Complete(c.format, rs, step.bytes);
       var left := step.bytes - |Frames(c.format, rs[..k])|;
       left == 4 || (left == 0 && k == 0 && Flat(st.segments.older) != [])
  }

  predicate NeverCutBadly<R(==)>(c: Codec<R>, group: bool, steps: seq<Step<R>>) {
    steps == [] ||
    (NeverCutBadly(c, group, steps[..|steps| - 1])
     && !BadCut(c, After(c, group, steps[..|steps| - 1]), steps[|steps| - 1]))
  }

  // The records are numbered 1, 2, 3, ... across all segments.
  ghost predicate Numbered<R>(c: Codec<R>, rs: seq<R>) {
    forall i :: 0 <= i < |rs| ==> c.seqOf(rs[i]) == i + 1
  }

  // While the log is open its last number is known, and whatever is appended will be read behind
  // the records that are there.
  ghost predicate Works<R(!new)>(c: Codec<R>, st: LogState<R>) {
    st.isOpen ==>
      && Numbered(c, All(st.segments)) && st.lastSeq == |All(st.segments)|
      && GoesOn(c.format, st.file, st.segments.current)
  }

  ghost predicate AlwaysWorks<R(!new)>(c: Codec<R>, group: bool, steps: seq<Step<R>>) {
    (steps != [] ==> AlwaysWorks(c, group, steps[..|steps| - 1])) && Works(c, After(c, group, steps))
  }

  // Every number leaves the record readable if it is small enough to be appended.
  ghost predicate Legible<R>(c: Codec<R>, r: R) {
    forall n: u64 {:trigger c.withSeq(r, n)} ::
      |c.format.body(c.withSeq(r, n))| <= MAX_BODY ==> Writable(c.format, c.withSeq(r, n))
  }

  ghost predicate AllLegible<R>(c: Codec<R>, steps: seq<Step<R>>) {
    forall i :: 0 <= i < |steps| && steps[i].Append? ==> Legible(c, steps[i].r)
  }

  // Behind the prefix of a lost record some record is not read.
  ghost predicate Exposed<R(!new)>(f: Format<R>, lost: R) { exists r :: Exposes(f, lost, r) }

  ghost predicate Exposing<R(!new)>(f: Format<R>) {
    forall lost: R {:trigger Exposed(f, lost)} :: Writable(f, lost) ==> Exposed(f, lost)
  }

  // ---- What every step keeps ----

  ghost predicate Good<R>(c: Codec<R>, st: LogState<R>) {
    && st.segments.synced <= |st.segments.current| && Readable(c.format, st.segments)
    && Numbered(c, All(st.segments))
    && if st.isOpen
       then && st.file == Frames(c.format, st.segments.current) && st.lastSeq == |All(st.segments)|
            && st.synced == |Frames(c.format, st.segments.current[..st.segments.synced])|
       else ScanAll(c.format, st.file) == Scan(st.segments.current, Some(Torn))
  }

  lemma WholeGoesOn<R(!new)>(f: Format<R>, rs: seq<R>)
    requires AllWritable(f, rs)
    ensures GoesOn(f, Frames(f, rs), rs)
  {
    forall more: seq<R> {:trigger Frames(f, more)} | AllWritable(f, more)
      ensures ScanAll(f, Frames(f, rs) + Frames(f, more)) == Scan(rs + more, None)
    {
      FramesAppend(f, rs, more);
      WholeFile(f, rs + more);
    }
  }

  lemma GoodWorks<R(!new)>(c: Codec<R>, st: LogState<R>)
    requires Good(c, st)
    ensures Works(c, st)
  {
    if st.isOpen { WholeGoesOn(c.format, st.segments.current); }
  }

  lemma NumberedSnoc<R>(c: Codec<R>, rs: seq<R>, r: R)
    requires Numbered(c, rs) && c.seqOf(r) == |rs| + 1
    ensures Numbered(c, rs + [r])
  {
  }

  lemma AppendKeepsGood<R(!new)>(c: Codec<R>, st: LogState<R>, rec: R, group: bool, full: bool, syncOk: bool,
                                 closeOk: bool)
    requires Good(c, st) && st.isOpen && Writable(c.format, rec) && c.seqOf(rec) == st.lastSeq + 1
    ensures var s := Appended(st.segments, rec, group, full, syncOk, closeOk).0;
            Good(c, Grown(c, st, rec, s)) && Durable(st.segments) <= Durable(s)
  {
    var s := Appended(st.segments, rec, group, full, syncOk, closeOk).0;
    AppendKeepsOrder(st.segments, rec, group, full, syncOk, closeOk);
    NumberedSnoc(c, All(st.segments), rec);
    FramesSnoc(c.format, st.segments.current, rec);
    var more := st.segments.current + [rec];
    assert more[..st.segments.synced] == st.segments.current[..st.segments.synced] && more[..|more|] == more;
  }

  // What a crash leaves, by where the cut is.
  lemma CrashLeaves<R(!new)>(c: Codec<R>, st: LogState<R>, bytes: nat) returns (k: nat)
    requires Good(c, st) && st.isOpen && st.synced <= bytes <= |st.file|
    ensures k == Complete(c.format, st.segments.current, bytes) && st.segments.synced <= k <= |st.segments.current|
    ensures var left := bytes - |Frames(c.format, st.segments.current[..k])|;
            var after := Reopened(c, st.segments.older, st.file[..bytes]);
            && after.segments == Segments(st.segments.older, st.segments.current[..k], k)
            && ScanAll(c.format, st.file[..bytes]) ==
               Scan(st.segments.current[..k], if left == 0 || left == 4 then None else Some(Torn))
  {
    k := Complete(c.format, st.segments.current, bytes);
    CutFile(c.format, st.segments.current, bytes, k);
    CompleteHoldsSynced(c.format, st.segments, bytes);
  }

  lemma CutKeepsOrder<R>(c: Codec<R>, s: Segments<R>, k: nat)
    requires Numbered(c, All(s)) && Readable(c.format, s) && s.synced <= k <= |s.current|
    ensures var s' := Segments(s.older, s.current[..k], k);
            && Numbered(c, All(s')) && Readable(c.format, s') && Durable(s) <= Durable(s')
            && (LastSeq(c, s'.current) == |All(s')| <==> k > 0 || Flat(s.older) == [])
  {
    var s' := Segments(s.older, s.current[..k], k);
    var n := |Flat(s.older)|;
    assert s.current[..k][..k] == s.current[..k];
    assert All(s') == All(s)[..n + k] && Durable(s) == All(s)[..n + s.synced];
    if k > 0 { assert s'.current[k - 1] == All(s)[n + k - 1]; }
  }

  // The file as it is after a cut at a boundary or behind a length prefix.
  lemma CutBytes<R(!new)>(f: Format<R>, rs: seq<R>, bytes: nat, k: nat)
    requires AllWritable(f, rs) && bytes <= |Frames(f, rs)| && CutAt(f, rs, bytes, k)
    ensures bytes == |Frames(f, rs[..k])| ==> Frames(f, rs)[..bytes] == Frames(f, rs[..k])
  {
    BeforeCut(f, rs, k);
  }

  lemma StrayPrefixStops<R(!new)>(f: Format<R>, rs: seq<R>, bytes: nat, k: nat)
    requires Exposing(f) && AllWritable(f, rs) && bytes <= |Frames(f, rs)| && CutAt(f, rs, bytes, k)
    requires bytes == |Frames(f, rs[..k])| + 4
    ensures !GoesOn(f, Frames(f, rs)[..bytes], rs[..k])
  {
    BeforeCut(f, rs, k);
    assert rs[k..] != [];
    assert Exposed(f, rs[k]);
    var probe :| Exposes(f, rs[k], probe);
    GoesOnExactlyWhen(f, rs, bytes, k, probe);
  }

  lemma CrashKeepsExactlyWhen<R(!new)>(c: Codec<R>, group: bool, st: LogState<R>, bytes: nat)
    requires Good(c, st) && st.isOpen && st.synced <= bytes <= |st.file| && Exposing(c.format)
    ensures var after := Next(c, group, st, Crash(bytes));
            && (!BadCut(c, st, Crash(bytes)) ==> Good(c, after) && Durable(st.segments) <= Durable(after.segments))
            && (BadCut(c, st, Crash(bytes)) ==> !Works(c, after))
  {
    var f, rs := c.format, st.segments.current;
    var k := CrashLeaves(c, st, bytes);
    var left := bytes - |Frames(f, rs[..k])|;
    CutKeepsOrder(c, st.segments, k);
    CutBytes(f, rs, bytes, k);
    if left == 4 { StrayPrefixStops(f, rs, bytes, k); }
    assert rs[..k][..k] == rs[..k];
  }

  lemma StepKeepsExactlyWhen<R(!new)>(c: Codec<R>, group: bool, st: LogState<R>, step: Step<R>)
    requires Numbering(c) && Exposing(c.format) && Good(c, st) && Possible(st, step)
    requires step.Append? ==> Legible(c, step.r)
    ensures var after := Next(c, group, st, step);
            && (!BadCut(c, st, step) ==>
                  && Good(c, after) && Durable(st.segments) <= Durable(after.segments))
            && (BadCut(c, st, step) ==> !Works(c, after))
  {
    if st.isOpen {
      match step
      case Append(r, full, syncOk, closeOk) =>
        var rec := c.withSeq(r, Successor(st.lastSeq));
        if !(st.lastSeq != 0 && c.seqOf(rec) <= st.lastSeq) && |c.format.body(rec)| <= MAX_BODY {
          AppendKeepsGood(c, st, rec, group, full, syncOk, closeOk);
        }
      case Sync(ok) =>
        assert st.segments.current[..|st.segments.current|] == st.segments.current;
        assert Durable(Synced(st.segments)) == All(st.segments);
      case Crash(bytes) => CrashKeepsExactlyWhen(c, group, st, bytes);
    }
  }

  // Over every run the log works at every point, its last number known and all that is appended
  // readable behind what is there, exactly when no crash makes one of the two bad cuts.
  lemma {:induction false} WorksExactlyWhen<R(!new)>(c: Codec<R>, group: bool, steps: seq<Step<R>>)
    requires Numbering(c) && Exposing(c.format) && IsRun(c, group, steps) && AllLegible(c, steps)
    ensures AlwaysWorks(c, group, steps) <==> NeverCutBadly(c, group, steps)
    ensures NeverCutBadly(c, group, steps) ==> Good(c, After(c, group, steps))
  {
    if steps == [] {
      assert Good(c, After(c, group, steps));
    } else {
      var n := |steps| - 1;
      assert forall i :: 0 <= i < n ==> steps[..n][i] == steps[i];
      WorksExactlyWhen(c, group, steps[..n]);
      if NeverCutBadly(c, group, steps[..n]) {
        StepKeepsExactlyWhen(c, group, After(c, group, steps[..n]), steps[n]);
      }
    }
    if Good(c, After(c, group, steps)) { GoodWorks(c, After(c, group, steps)); }
  }

  // Over every such run the durable records are a prefix of all records, and a record that was
  // durable at some point is there at every later point.
  lemma {:induction false} DurableStays<R(!new)>(c: Codec<R>, group: bool, steps: seq<Step<R>>, i: nat)
    requires Numbering(c) && Exposing(c.format) && IsRun(c, group, steps) && AllLegible(c, steps)
    requires NeverCutBadly(c, group, steps) && i <= |steps|
    ensures After(c, group, steps).segments.synced <= |After(c, group, steps).segments.current|
    ensures After(c, group, steps[..i]).segments.synced <= |After(c, group, steps[..i]).segments.current|
    ensures Durable(After(c, group, steps[..i]).segments) <= Durable(After(c, group, steps).segments)
            <= All(After(c, group, steps).segments)
    decreases |steps|
  {
    WorksExactlyWhen(c, group, steps);
    DurableIsPrefix(After(c, group, steps).segments);
    if i == |steps| {
      assert steps[..i] == steps;
    } else {
      var n := |steps| - 1;
      assert forall i :: 0 <= i < n ==> steps[..n][i] == steps[i];
      DurableStays(c, group, steps[..n], i);
      assert steps[..n][..i] == steps[..i];
      WorksExactlyWhen(c, group, steps[..n]);
      StepKeepsExactlyWhen(c, group, After(c, group, steps[..n]), steps[n]);
    }
  }

  // After every such run, reading from k gives exactly the records numbered k + 1, k + 2, ...
  lemma ReadFromAfterRun<R(!new)>(c: Codec<R>, group: bool, steps: seq<Step<R>>, k: nat)
    requires Numbering(c) && Exposing(c.format) && IsRun(c, group, steps) && AllLegible(c, steps)
    requires NeverCutBadly(c, group, steps)
    ensures var rs := All(After(c, group, steps).segments);
            Numbered(c, rs) && Newer(c, rs, k) == if k <= |rs| then rs[k..] else []
  {
    WorksExactlyWhen(c, group, steps);
    var rs := All(After(c, group, steps).segments);
    NewerIsEnd(c, rs, k, if k <= |rs| then k else |rs|);
  }

  // ---- What is on disk after a run ----

  function OlderFiles<R>(f: Format<R>, ss: seq<seq<R>>): seq<seq<byte>> {
    seq(|ss|, i requires 0 <= i < |ss| => Frames(f, ss[i]))
  }

  function OnDisk<R>(f: Format<R>, st: LogState<R>): seq<seq<byte>> {
    OlderFiles(f, st.segments.older) + [st.file]
  }

  lemma {:induction false} ReadBehindOlder<R>(f: Format<R>, ss: seq<seq<R>>, last: seq<byte>)
    requires forall i :: 0 <= i < |ss| ==> AllWritable(f, ss[i])
    ensures ReadSegments(f, OlderFiles(f, ss) + [last]) ==
              Scan(Flat(ss) + ScanAll(f, last).records, ScanAll(f, last).error)
  {
    var files, scan := OlderFiles(f, ss) + [last], ScanAll(f, last);
    if ss == [] {
      assert files == [last] && files[1..] == [];
      assert [] + scan.records == scan.records && scan.records + [] == scan.records;
    } else {
      ReadBehindOlder(f, ss[1..], last);
      assert files[1..] == OlderFiles(f, ss[1..]) + [last] && files[0] == Frames(f, ss[0]);
      WholeFile(f, ss[0]);
      FlatFirst(ss);
      Associative(ss[0], Flat(ss[1..]), scan.records);
    }
  }

  // After every such run the files read back as all records, in order; if a crash tore a record that
  // was not synced, the reader reports it, and the log is not open.
  lemma ReadsBackAfterRun<R(!new)>(c: Codec<R>, group: bool, steps: seq<Step<R>>)
    requires Numbering(c) && Exposing(c.format) && IsRun(c, group, steps) && AllLegible(c, steps)
    requires NeverCutBadly(c, group, steps)
    ensures var st := After(c, group, steps);
            ReadSegments(c.format, OnDisk(c.format, st)) ==
            Scan(All(st.segments), if st.isOpen then None else Some(Torn))
  {
    WorksExactlyWhen(c, group, steps);
    var st := After(c, group, steps);
    if st.isOpen { WholeFile(c.format, st.segments.current); }
    ReadBehindOlder(c.format, st.segments.older, st.file);
  }

  // An empty newest segment: a full segment is closed, the process restarts before the next append,
  // and the numbers begin again at one.
  lemma NumbersRepeat<R(!new)>(c: Codec<R>, a: R, b: R)
    requires Numbering(c)
    requires |c.format.body(c.withSeq(a, 1))| <= MAX_BODY && |c.format.body(c.withSeq(b, 1))| <= MAX_BODY
    ensures var st := After(c, false, [Append(a, true, true, true), Crash(0), Append(b, false, true, true)]);
            All(st.segments) == [c.withSeq(a, 1), c.withSeq(b, 1)] && !Increasing(c, All(st.segments))
  {
    var first, second := c.withSeq(a, 1), c.withSeq(b, 1);
    AfterThree(c, false, Append(a, true, true, true), Crash(0), Append(b, false, true, true));
    FirstAppend(c, a, Segments([], [], 0), true);
    var one := LogState(Segments([[first]], [], 0), 1, [], 0, true);
    assert Rotated(Segments([], [first], 1)) == one.segments;
    assert Next(c, false, one, Crash(0)) == LogState(one.segments, 0, [], 0, true);
    FirstAppend(c, b, one.segments, false);
    FlatSnoc([], [first]);
    assert [[first]] == [] + [[first]];
    var all := [first] + [second];
    assert c.seqOf(all[0]) == c.seqOf(all[1]);
  }

  lemma FirstAppend<R(!new)>(c: Codec<R>, r: R, s: Segments<R>, full: bool)
    requires Numbering(c) && s.current == [] && |c.format.body(c.withSeq(r, 1))| <= MAX_BODY
    ensures var s' := Segments(s.older, [c.withSeq(r, 1)], 1);
            var frame := Frame(c.format, c.withSeq(r, 1));
            Next(c, false, LogState(s, 0, [], 0, true), Append(r, full, true, true)) ==
            if full then LogState(Rotated(s'), 1, [], 0, true) else LogState(s', 1, frame, |frame|, true)
  {
    assert s.current + [c.withSeq(r, 1)] == [c.withSeq(r, 1)];
    assert [] + Frame(c.format, c.withSeq(r, 1)) == Frame(c.format, c.withSeq(r, 1));
  }

  lemma AfterThree<R>(c: Codec<R>, group: bool, x: Step<R>, y: Step<R>, z: Step<R>)
    ensures After(c, group, [x, y, z]) == Next(c, group, Next(c, group, Next(c, group, EmptyLog(), x), y), z)
  {
    assert [x, y, z][..2] == [x, y] && [x, y][..1] == [x] && [x][..0] == [];
    assert After(c, group, [x]) == Next(c, group, EmptyLog(), x);
    assert After(c, group, [x, y]) == Next(c, group, After(c, group, [x]), y);
  }
}
