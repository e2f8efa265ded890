// The engine over the bytes of its log: appends and syncs go to the segments, and a crash cuts the
// newest segment at any byte behind the synced ones.
module EngineOnDisk {
  import opened Wrappers
  import opened Convert
  import opened Framing
  import opened Recovery
  import opened GroupCommit
  import opened SegmentedLog
  import E = EngineRuns
  import L = LogRuns

  // How commands become records, and how records read as commands.
  datatype Setting<!B(==), !S, !R> = Setting(
    env: Env<B, S>, registered: map<string, B>, codec: Codec<R>, encode: Command -> R, decode: R -> Payload)

  // The engine, its log, and whether the process is up.
  datatype Host<!B, !S, R> = Host(t: E.Tracked<B, S>, st: L.LogState<R>, up: bool)

  datatype Step = Take(command: Command, full: bool, syncOk: bool, closeOk: bool)
                | Committed(syncOk: bool)
                | Snapshot
                | MarkReadOnly(symbol: string)
                | Crash(bytes: nat)

  function Began<B, S, R>(setting: Setting<B, S, R>): Host<B, S, R> {
    Host(E.Began(setting.registered), L.EmptyLog(), true)
  }

  predicate TooMuch<R>(c: Codec<R>, st: L.LogState<R>, rec: R) {
    (st.lastSeq != 0 && c.seqOf(rec) <= st.lastSeq) || |c.format.body(rec)| > MAX_BODY
  }

  function RecordFor<R>(c: Codec<R>, st: L.LogState<R>, r: R): R { c.withSeq(r, Successor(st.lastSeq)) }

  // What the engine is told of an append.
  function FateOf<R>(c: Codec<R>, group: bool, st: L.LogState<R>, r: R, full: bool, syncOk: bool, closeOk: bool): Fate {
    if TooMuch(c, st, RecordFor(c, st, r)) then Refused
    else if Appended(st.segments, RecordFor(c, st, r), group, full, syncOk, closeOk).1 then Written
    else Unsynced
  }

  function AfterTake<B(==), S, R>(setting: Setting<B, S, R>, d: Host<B, S, R>, c: Command, full: bool, syncOk: bool,
                                  closeOk: bool): Host<B, S, R> {
    var env, r := setting.env, setting.encode(c);
    if Checked(d.t.core.mem, c) != ToLog then d.(t := E.AfterTake(env, d.t, c, Refused))
    else
      var fate := FateOf(setting.codec, env.grouped, d.st, r, full, syncOk, closeOk);
      d.(t := E.AfterTake(env, d.t, c, fate),
         st := L.Next(setting.codec, env.grouped, d.st, L.Append(r, full, syncOk, closeOk)))
  }

  function AfterCommit<B(==), S, R>(setting: Setting<B, S, R>, d: Host<B, S, R>, syncOk: bool): Host<B, S, R> {
    if d.t.pending == [] then d
    else
      d.(t := E.AfterCommit(setting.env, d.t, syncOk),
         st := L.Next(setting.codec, setting.env.grouped, d.st, L.Sync(syncOk)))
  }

  // The log is opened again; if that fails the process does not come up.
  function AfterCrash<B(==), S, R>(setting: Setting<B, S, R>, d: Host<B, S, R>, bytes: nat): Host<B, S, R> {
    var st := L.Next(setting.codec, setting.env.grouped, d.st, L.Crash(bytes));
    var n := |All(st.segments)|;
    var extra := if n < d.t.core.durable then 0 else n - d.t.core.durable;
    if !st.isOpen then d.(st := st, up := false)
    else
      match E.AfterCrash(setting.env, setting.registered, d.t, extra)
      case None => d.(st := st, up := false)
      case Some(t) => Host(t, st, true)
  }

  function Next<B(==), S, R>(setting: Setting<B, S, R>, d: Host<B, S, R>, step: Step): Host<B, S, R> {
    if !d.up then d
    else
      match step
      case Take(c, full, syncOk, closeOk) => AfterTake(setting, d, c, full, syncOk, closeOk)
      case Committed(syncOk) => AfterCommit(setting, d, syncOk)
      case Snapshot => d.(t := E.AfterSnapshot(setting.env, d.t))
      case MarkReadOnly(symbol) => d.(t := E.AfterMark(d.t, symbol))
      case Crash(bytes) => AfterCrash(setting, d, bytes)
  }

  function After<B(==), S, R>(setting: Setting<B, S, R>, steps: seq<Step>): Host<B, S, R> {
    if steps == [] then Began(setting) else Next(setting, After(setting, steps[..|steps| - 1]), steps[|steps| - 1])
  }

  // A crash keeps the synced bytes and makes none of the two cuts after which the log goes wrong.
  predicate Possible<B, S, R(==)>(setting: Setting<B, S, R>, d: Host<B, S, R>, step: Step) {
    step.Crash? && d.up ==>
      L.Possible(d.st, L.Crash(step.bytes)) && !L.BadCut(setting.codec, d.st, L.Crash(step.bytes))
  }

  ghost predicate IsRun<B(!new), S(!new), R(!new)>(setting: Setting<B, S, R>, steps: seq<Step>) {
    steps != [] ==>
      var n := |steps| - 1;
      IsRun(setting, steps[..n]) && Possible(setting, After(setting, steps[..n]), steps[n])
  }

  // ---- The log in memory is the log on disk ----

  ghost predicate Matches<B(!new), S(!new), R(!new)>(setting: Setting<B, S, R>, log: seq<Entry>, rs: seq<R>) {
    && |log| == |rs|
    && forall i :: 0 <= i < |rs| ==> log[i] == Entry(setting.codec.seqOf(rs[i]), setting.decode(rs[i]))
  }

  // A marker: a proof that looks inside the next predicate asserts Shown(0).
  ghost predicate Shown(z: int) { true }

  // What every command needs of its encoding, and the engine of its matcher.
  ghost predicate Laws<B(!new), S(!new), R(!new)>(setting: Setting<B, S, R>, good: B -> bool, fit: PbOrder -> bool) {
    forall z {:trigger Shown(z)} :: Shown(z) ==>
      && Lawful(setting.env.m) && E.Storing(setting.env.m, good, fit) && E.AllOf(good, setting.registered)
      && Numbering(setting.codec) && L.Exposing(setting.codec.format)
      && (forall c {:trigger setting.encode(c)} :: L.Legible(setting.codec, setting.encode(c)))
      && (forall c, n: nat {:trigger setting.codec.withSeq(setting.encode(c), n)} ::
            n < 0x1_0000_0000_0000_0000 ==> setting.decode(setting.codec.withSeq(setting.encode(c), n)) == Of(c))
  }

  ghost predicate Fits(fit: PbOrder -> bool, step: Step) {
    step.Take? ==> E.FitStep(fit, E.Take(step.command, Written))
  }

  // While the process is up, the entries that memory knows are the records on disk, and what memory
  // takes for durable is; when it is down, a crash has torn a record.
  ghost predicate Linked<B(!new), S(!new), R(!new)>(setting: Setting<B, S, R>, d: Host<B, S, R>) {
    && L.Good(setting.codec, d.st) && d.up == d.st.isOpen
    && (d.up ==>
          && Matches(setting, d.t.core.log, All(d.st.segments))
          && d.t.core.durable <= |Durable(d.st.segments)|)
  }

  ghost predicate Sound<B(!new), S(!new), R(!new)>(setting: Setting<B, S, R>, good: B -> bool, fit: PbOrder -> bool,
                                                   d: Host<B, S, R>) {
    && Linked(setting, d)
    && forall z {:trigger Shown(z)} :: Shown(z) ==> E.Sane(setting.env, setting.registered, good, fit, d.t)
  }

  lemma DurableFirst<R>(s: Segments<R>)
    requires s.synced <= |s.current|
    ensures |Durable(s)| <= |All(s)|
    ensures Durable(Synced(s)) == All(s)
  {
  }

  // An append that is reported as written without group commit is durable.
  lemma WrittenIsDurable<R>(s: Segments<R>, r: R, full: bool, syncOk: bool, closeOk: bool)
    requires Appended(s, r, false, full, syncOk, closeOk).1
    ensures var s' := Appended(s, r, false, full, syncOk, closeOk).0;
            s'.synced <= |s'.current| && Durable(s') == All(s')
  {
  }

  lemma MatchesMore<B(!new), S(!new), R(!new)>(setting: Setting<B, S, R>, log: seq<Entry>, rs: seq<R>, e: Entry, r: R)
    requires Matches(setting, log, rs) && e == Entry(setting.codec.seqOf(r), setting.decode(r))
    ensures Matches(setting, log + [e], rs + [r])
  {
  }

  lemma EncodedIs<B(!new), S(!new), R(!new)>(setting: Setting<B, S, R>, good: B -> bool, fit: PbOrder -> bool,
                                             c: Command, n: nat)
    requires Laws(setting, good, fit) && n < 0x1_0000_0000_0000_0000
    ensures var rec := setting.codec.withSeq(setting.encode(c), n);
            && setting.codec.seqOf(rec) == n && setting.decode(rec) == Of(c)
            && (|setting.codec.format.body(rec)| <= MAX_BODY ==> Writable(setting.codec.format, rec))
  {
    assert Shown(0);
    assert L.Legible(setting.codec, setting.encode(c));
  }

  // The disk after an append, by its fate.
  lemma DiskAppends<R(!new)>(c: Codec<R>, group: bool, st: L.LogState<R>, r: R, full: bool, syncOk: bool,
                             closeOk: bool) returns (fate: Fate, after: L.LogState<R>)
    requires L.Good(c, st) && st.isOpen && c.seqOf(RecordFor(c, st, r)) == Successor(st.lastSeq)
    requires |c.format.body(RecordFor(c, st, r))| <= MAX_BODY ==> Writable(c.format, RecordFor(c, st, r))
    ensures fate == FateOf(c, group, st, r, full, syncOk, closeOk)
    ensures after == L.Next(c, group, st, L.Append(r, full, syncOk, closeOk)) && L.Good(c, after) && after.isOpen
    ensures fate == Refused ==> after == st
    ensures fate != Refused ==>
              && All(after.segments) == All(st.segments) + [RecordFor(c, st, r)]
              && Successor(st.lastSeq) == |All(st.segments)| + 1
              && |Durable(st.segments)| <= |Durable(after.segments)|
    ensures fate == Written && !group ==> |Durable(after.segments)| == |All(after.segments)|
  {
    var rec := RecordFor(c, st, r);
    fate := FateOf(c, group, st, r, full, syncOk, closeOk);
    after := L.Next(c, group, st, L.Append(r, full, syncOk, closeOk));
    if fate != Refused {
      L.AppendKeepsGood(c, st, rec, group, full, syncOk, closeOk);
      AppendKeepsOrder(st.segments, rec, group, full, syncOk, closeOk);
      if !group && fate == Written { WrittenIsDurable(st.segments, rec, full, syncOk, closeOk); }
    }
  }

  // The log and the disk after an append.
  lemma AppendLinks<B(!new), S(!new), R(!new)>(
      setting: Setting<B, S, R>, good: B -> bool, fit: PbOrder -> bool, core: Core<B, S>, st: L.LogState<R>, c: Command,
      full: bool, syncOk: bool, closeOk: bool) returns (fate: Fate, after: L.LogState<R>)
    requires Laws(setting, good, fit) && L.Good(setting.codec, st) && st.isOpen
    requires Matches(setting, core.log, All(st.segments)) && core.durable <= |Durable(st.segments)|
    ensures fate == FateOf(setting.codec, setting.env.grouped, st, setting.encode(c), full, syncOk, closeOk)
    ensures after == L.Next(setting.codec, setting.env.grouped, st, L.Append(setting.encode(c), full, syncOk, closeOk))
    ensures L.Good(setting.codec, after) && after.isOpen
    ensures Matches(setting, Logged(setting.env, core, c, fate).log, All(after.segments))
    ensures Logged(setting.env, core, c, fate).durable <= |Durable(after.segments)|
  {
    EncodedIs(setting, good, fit, c, Successor(st.lastSeq));
    fate, after := DiskAppends(setting.codec, setting.env.grouped, st, setting.encode(c), full, syncOk, closeOk);
    if fate != Refused {
      MatchesMore(setting, core.log, All(st.segments), Entry(|core.log| + 1, Of(c)),
                  RecordFor(setting.codec, st, setting.encode(c)));
    }
  }

  // ---- Step by step ----

  lemma TakeLogs<B, S>(env: Env<B, S>, t: E.Tracked<B, S>, c: Command, fate: Fate)
    ensures var after := E.AfterTake(env, t, c, fate).core;
            if Checked(t.core.mem, c) == ToLog
            then after.log == Logged(env, t.core, c, fate).log && after.durable == Logged(env, t.core, c, fate).durable
            else after == t.core
  {
  }

  lemma TakeIsSound<B(!new), S(!new), R(!new)>(
      setting: Setting<B, S, R>, good: B -> bool, fit: PbOrder -> bool, d: Host<B, S, R>, c: Command, full: bool,
      syncOk: bool, closeOk: bool)
    requires Laws(setting, good, fit) && Sound(setting, good, fit, d) && d.up
    requires Fits(fit, Take(c, full, syncOk, closeOk))
    ensures Sound(setting, good, fit, AfterTake(setting, d, c, full, syncOk, closeOk))
  {
    var fate, after := AppendLinks(setting, good, fit, d.t.core, d.st, c, full, syncOk, closeOk);
    var told := if Checked(d.t.core.mem, c) == ToLog then fate else Refused;
    TakeLogs(setting.env, d.t, c, told);
    TakeIsSane(setting, good, fit, d.t, c, told);
  }

  lemma TakeIsSane<B(!new), S(!new), R(!new)>(
      setting: Setting<B, S, R>, good: B -> bool, fit: PbOrder -> bool, t: E.Tracked<B, S>, c: Command, fate: Fate)
    requires Laws(setting, good, fit) && E.FitStep(fit, E.Take(c, Written))
    requires forall z {:trigger Shown(z)} :: Shown(z) ==> E.Sane(setting.env, setting.registered, good, fit, t)
    ensures E.Sane(setting.env, setting.registered, good, fit, E.AfterTake(setting.env, t, c, fate))
  {
    assert Shown(0);
    E.TakeKeepsSane(setting.env, setting.registered, good, fit, t, c, fate);
  }

  lemma CommitIsSound<B(!new), S(!new), R(!new)>(
      setting: Setting<B, S, R>, good: B -> bool, fit: PbOrder -> bool, d: Host<B, S, R>, syncOk: bool)
    requires Laws(setting, good, fit) && Sound(setting, good, fit, d) && d.up
    ensures Sound(setting, good, fit, AfterCommit(setting, d, syncOk))
  {
    if d.t.pending != [] {
      assert Shown(0);
      E.AfterKeepsSane(setting.env, setting.registered, good, fit, d.t, E.Committed(syncOk));
      L.StepKeepsExactlyWhen(setting.codec, setting.env.grouped, d.st, L.Sync(syncOk));
      DurableFirst(d.st.segments);
    }
  }

  lemma OtherIsSane<B(!new), S(!new), R(!new)>(
      setting: Setting<B, S, R>, good: B -> bool, fit: PbOrder -> bool, t: E.Tracked<B, S>, step: E.Step)
    requires Laws(setting, good, fit) && (step.Snapshot? || step.MarkReadOnly?)
    requires forall z {:trigger Shown(z)} :: Shown(z) ==> E.Sane(setting.env, setting.registered, good, fit, t)
    ensures E.After(setting.env, setting.registered, t, step).Some?
    ensures E.Sane(setting.env, setting.registered, good, fit, E.After(setting.env, setting.registered, t, step).value)
  {
    assert Shown(0);
    E.AfterKeepsSane(setting.env, setting.registered, good, fit, t, step);
  }

  // The cut goes through a record.
  predicate Tears<B, S, R(==)>(setting: Setting<B, S, R>, d: Host<B, S, R>, step: Step) {
    && step.Crash? && d.up && step.bytes <= |Frames(setting.codec.format, d.st.segments.current)|
    && var rs := d.st.segments.current;
       step.bytes != |Frames(setting.codec.format, rs[..Complete(setting.codec.format, rs, step.bytes)])|
  }

  // What a crash leaves of the records, and when the log opens again.
  lemma DiskAfterCrash<B(!new), S(!new), R(!new)>(
      setting: Setting<B, S, R>, good: B -> bool, fit: PbOrder -> bool, d: Host<B, S, R>, bytes: nat)
      returns (st: L.LogState<R>)
    requires Laws(setting, good, fit) && Linked(setting, d) && d.up && Possible(setting, d, Crash(bytes))
    ensures st == L.Next(setting.codec, setting.env.grouped, d.st, L.Crash(bytes)) && L.Good(setting.codec, st)
    ensures All(st.segments) <= All(d.st.segments)
    ensures |Durable(d.st.segments)| <= |All(st.segments)| == |Durable(st.segments)|
    ensures st.isOpen <==> !Tears(setting, d, Crash(bytes))
  {
    assert Shown(0);
    var c := setting.codec;
    L.StepKeepsExactlyWhen(c, setting.env.grouped, d.st, L.Crash(bytes));
    st := L.Next(c, setting.env.grouped, d.st, L.Crash(bytes));
    var k := L.CrashLeaves(c, d.st, bytes);
    DurableFirst(st.segments);
    var older, rs := Flat(d.st.segments.older), d.st.segments.current;
    assert older + rs[..k] == (older + rs)[..|older| + k];
  }

  lemma CrashIsSound<B(!new), S(!new), R(!new)>(
      setting: Setting<B, S, R>, good: B -> bool, fit: PbOrder -> bool, d: Host<B, S, R>, bytes: nat)
    requires Laws(setting, good, fit) && Sound(setting, good, fit, d) && d.up && Possible(setting, d, Crash(bytes))
    ensures Sound(setting, good, fit, AfterCrash(setting, d, bytes))
    ensures AfterCrash(setting, d, bytes).up <==> !Tears(setting, d, Crash(bytes))
  {
    var st := DiskAfterCrash(setting, good, fit, d, bytes);
    if st.isOpen {
      var n := |All(st.segments)|;
      var t := MemoryAfterCrash(setting, good, fit, d, n);
      PrefixMatches(setting, d.t.core.log, All(d.st.segments), n);
      assert All(st.segments) == All(d.st.segments)[..n];
    }
  }

  lemma PrefixMatches<B(!new), S(!new), R(!new)>(setting: Setting<B, S, R>, log: seq<Entry>, rs: seq<R>, n: nat)
    requires Matches(setting, log, rs) && n <= |rs|
    ensures Matches(setting, log[..n], rs[..n])
  {
  }

  // Recovery from the first n records, which hold all that memory took for durable.
  lemma MemoryAfterCrash<B(!new), S(!new), R(!new)>(
      setting: Setting<B, S, R>, good: B -> bool, fit: PbOrder -> bool, d: Host<B, S, R>, n: nat)
      returns (t: E.Tracked<B, S>)
    requires Laws(setting, good, fit) && Sound(setting, good, fit, d) && d.t.core.durable <= n <= |d.t.core.log|
    ensures E.AfterCrash(setting.env, setting.registered, d.t, n - d.t.core.durable) == Some(t)
    ensures t.core.log == d.t.core.log[..n] && t.core.durable == n
    ensures E.Sane(setting.env, setting.registered, good, fit, t)
  {
    assert Shown(0);
    E.CrashKeepsSane(setting.env, setting.registered, good, fit, d.t, n - d.t.core.durable);
    t := E.AfterCrash(setting.env, setting.registered, d.t, n - d.t.core.durable).value;
    assert d.t.core.log[..|d.t.core.log|] == d.t.core.log;
  }

  lemma StepIsSound<B(!new), S(!new), R(!new)>(
      setting: Setting<B, S, R>, good: B -> bool, fit: PbOrder -> bool, d: Host<B, S, R>, step: Step)
    requires Laws(setting, good, fit) && Sound(setting, good, fit, d) && Possible(setting, d, step) && Fits(fit, step)
    ensures Sound(setting, good, fit, Next(setting, d, step))
    ensures d.up ==> (Next(setting, d, step).up <==> !Tears(setting, d, step))
  {
    if d.up {
      match step
      case Take(c, full, syncOk, closeOk) => TakeIsSound(setting, good, fit, d, c, full, syncOk, closeOk);
      case Committed(syncOk) => CommitIsSound(setting, good, fit, d, syncOk);
      case Snapshot => OtherIsSane(setting, good, fit, d.t, E.Snapshot);
      case MarkReadOnly(symbol) => OtherIsSane(setting, good, fit, d.t, E.MarkReadOnly(symbol));
      case Crash(bytes) => CrashIsSound(setting, good, fit, d, bytes);
    }
  }

  // ---- Runs ----

  ghost predicate NeverTorn<B(!new), S(!new), R(!new)>(setting: Setting<B, S, R>, steps: seq<Step>) {
    steps != [] ==>
      var n := |steps| - 1;
      NeverTorn(setting, steps[..n]) && !Tears(setting, After(setting, steps[..n]), steps[n])
  }

  // Over every run the entries in memory are the records on disk, what memory has performed is
  // durable there, and the process is up exactly when no crash has cut through a record.
  lemma {:induction false} EveryRunIsSound<B(!new), S(!new), R(!new)>(
      setting: Setting<B, S, R>, good: B -> bool, fit: PbOrder -> bool, steps: seq<Step>)
    requires Laws(setting, good, fit) && IsRun(setting, steps)
    requires forall i :: 0 <= i < |steps| ==> Fits(fit, steps[i])
    ensures Sound(setting, good, fit, After(setting, steps))
    ensures After(setting, steps).up <==> NeverTorn(setting, steps)
  {
    if steps == [] {
      assert Shown(0);
      E.EveryRunIsSane(setting.env, setting.registered, good, fit, []);
    } else {
      var n := |steps| - 1;
      assert forall i :: 0 <= i < n ==> steps[..n][i] == steps[i];
      EveryRunIsSound(setting, good, fit, steps[..n]);
      StepIsSound(setting, good, fit, After(setting, steps[..n]), steps[n]);
    }
  }

  // So, in the engine's own terms: while it is up, every entry that it has performed is among the
  // records that no crash can take, its books are what they make, and the records are numbered.
  lemma EveryRunIsDurableOnDisk<B(!new), S(!new), R(!new)>(
      setting: Setting<B, S, R>, good: B -> bool, fit: PbOrder -> bool, steps: seq<Step>)
    requires Laws(setting, good, fit) && IsRun(setting, steps)
    requires forall i :: 0 <= i < |steps| ==> Fits(fit, steps[i])
    ensures var d := After(setting, steps);
            d.up ==>
              && Matches(setting, d.t.core.log, All(d.st.segments)) && L.Numbered(setting.codec, All(d.st.segments))
              && d.st.segments.synced <= |d.st.segments.current|
              && (forall e :: e in d.t.marks.applied ==>
                    && 1 <= e.walSeq <= |Durable(d.st.segments)|
                    && e == Entry(e.walSeq, setting.decode(Durable(d.st.segments)[e.walSeq - 1])))
              && E.Carried(setting.env.m, setting.registered, d.t.marks.applied) == Some(d.t.core.mem.live.books)
  {
    EveryRunIsSound(setting, good, fit, steps);
    assert Shown(0);
    var d := After(setting, steps);
    if d.up {
      DurableIsPrefix(d.st.segments);
      forall e | e in d.t.marks.applied
        ensures 1 <= e.walSeq <= |Durable(d.st.segments)|
        ensures e == Entry(e.walSeq, setting.decode(Durable(d.st.segments)[e.walSeq - 1]))
      {
        assert d.t.core.log[e.walSeq - 1] == e;
        assert Durable(d.st.segments)[e.walSeq - 1] == All(d.st.segments)[e.walSeq - 1];
      }
    }
  }
}
