// The loop that takes commands from the command topic: each is logged and applied, alone or in a
// batch, its events go to the outbox, and only then is its offset committed.
module CommandConsumer {
  import opened Wrappers
  import opened Orders
  import opened Convert
  import opened Recovery
  import opened GroupCommit
  import E = EngineRuns

  datatype Message = Message(commandId: nat, command: Command)

  // build makes the events of a command out of the books, its trades and its place in the log; V is
  // an event.
  datatype Setup<!B(==), !S, !V> = Setup(
    env: Env<B, S>, registered: map<string, B>, topic: seq<Message>,
    build: (map<string, B>, Message, seq<Trade>, nat) -> seq<V>)

  // The events built for a log entry, and how long the log was by then.
  datatype Job<V> = Job(walSeq: nat, cut: nat, events: seq<V>)

  // The engine, the offset of each entry of its log, all events ever built, the outbox and how much
  // of it is synced, the next offset, whether the loop still runs, and the offsets of commands that
  // were passed over because their symbol was read-only.
  datatype Service<!B, !S, !V> = Service(
    t: E.Tracked<B, S>, offsets: seq<nat>, jobs: seq<Job<V>>, outbox: seq<V>, synced: nat, position: nat,
    running: bool, passed: set<nat>)

  // How many events of a batch the outbox takes before an append fails, and the sync behind them.
  datatype Sent = Sent(reached: nat, syncOk: bool)

  // One takes a message without group commit, Many a batch with it.  Restart ends the process at any
  // moment, keeps what is synced of both files and some of what is not, recovers, and begins behind
  // the largest offset in the log.  Rewind is a redelivery to a running consumer.
  datatype Step =
    | One(fate: Fate, sent: Sent)
    | Many(n: nat, fates: nat -> Fate, syncOk: bool, sent: Sent)
    | Snapshot
    | MarkReadOnly(symbol: string)
    | Rewind(to: nat)
    | Restart(extra: nat, extraEvents: nat)

  function Began<B, S, V>(setup: Setup<B, S, V>): Service<B, S, V> {
    Service(E.Began(setup.registered), [], [], [], 0, 0, true, {})
  }

  function Concat<V>(jobs: seq<Job<V>>): seq<V> {
    if jobs == [] then [] else Concat(jobs[..|jobs| - 1]) + jobs[|jobs| - 1].events
  }

  predicate Logs<B, S>(t: E.Tracked<B, S>, after: E.Tracked<B, S>) { |t.core.log| < |after.core.log| }

  // The events go to the outbox, up to the first append that fails; then they are synced.
  function Send<B, S, V>(s: Service<B, S, V>, jobs: seq<Job<V>>, n: nat, sent: Sent): Service<B, S, V> {
    var all := Concat(jobs);
    var done := s.(jobs := s.jobs + jobs);
    if sent.reached < |all| then done.(outbox := s.outbox + all[..sent.reached], running := false)
    else if !sent.syncOk then done.(outbox := s.outbox + all, running := false)
    else done.(outbox := s.outbox + all, synced := |s.outbox + all|, position := s.position + n)
  }

  predicate PassesOver(o: Outcome) { o.duplicate || o.readOnly }

  function PassedOver(o: Outcome, at: nat): set<nat> { if o.readOnly then {at} else {} }

  function HandleOne<B(==), S, V>(setup: Setup<B, S, V>, s: Service<B, S, V>, fate: Fate, sent: Sent): Service<B, S, V>
    requires s.position < |setup.topic|
  {
    var msg := setup.topic[s.position];
    var t := E.AfterTake(setup.env, s.t, msg.command, fate);
    var s' := s.(t := t, offsets := if Logs(s.t, t) then s.offsets + [s.position] else s.offsets);
    match Immediate(setup.env, s.t.core, msg.command, fate).1
    case Failed(_) => s'.(running := false)
    case Replied(o) =>
      if PassesOver(o) then s'.(position := s.position + 1, passed := s.passed + PassedOver(o, s.position))
      else
        var job := Job(o.walSeq, |t.core.log|, setup.build(t.core.mem.live.books, msg, o.trades, o.walSeq));
        Send(s', [job], 1, sent)
  }

  // The engine with the next n messages staged, up to the first that fails, with the offsets logged and
  // those passed over.
  datatype Staged<!B, !S> = Staged(t: E.Tracked<B, S>, offsets: seq<nat>, passed: set<nat>, ok: bool)

  function StageMany<B(==), S, V>(setup: Setup<B, S, V>, s: Service<B, S, V>, n: nat, fates: nat -> Fate): Staged<B, S>
    requires s.position + n <= |setup.topic|
  {
    if n == 0 then Staged(s.t, s.offsets, s.passed, true)
    else
      var k := n - 1;
      var before := StageMany(setup, s, k, fates);
      if !before.ok then before else StageNext(setup, before, s.position + k, fates(k))
  }

  function StageNext<B(==), S, V>(setup: Setup<B, S, V>, before: Staged<B, S>, at: nat, fate: Fate): Staged<B, S>
    requires at < |setup.topic|
  {
    var c := setup.topic[at].command;
    var t := E.AfterTake(setup.env, before.t, c, fate);
    var item := Stage(setup.env, before.t.core, c, fate).1;
    Staged(t, if Logs(before.t, t) then before.offsets + [at] else before.offsets,
           if item.Some? && item.value.answer.Some? then before.passed + PassedOver(item.value.answer.value, at)
           else before.passed,
           item.Some?)
  }

  // The events of a committed batch, all built against the books as they are behind it.
  function BatchJobs<B(==), S, V>(setup: Setup<B, S, V>, t: E.Tracked<B, S>, from: nat, outcomes: seq<Outcome>):
    seq<Job<V>>
    requires from + |outcomes| <= |setup.topic|
  {
    if outcomes == [] then []
    else
      var n := |outcomes| - 1;
      var o := outcomes[n];
      BatchJobs(setup, t, from, outcomes[..n])
      + if PassesOver(o) then []
        else [Job(o.walSeq, |t.core.log|,
                  setup.build(t.core.mem.live.books, setup.topic[from + n], o.trades, o.walSeq))]
  }

  function HandleMany<B(==), S, V>(setup: Setup<B, S, V>, s: Service<B, S, V>, n: nat, fates: nat -> Fate, syncOk: bool,
                                   sent: Sent): Service<B, S, V>
    requires s.position + n <= |setup.topic|
  {
    var staged := StageMany(setup, s, n, fates);
    var s' := s.(t := staged.t, offsets := staged.offsets, passed := staged.passed);
    if !staged.ok then s'.(running := false)
    else
      var t := E.AfterCommit(setup.env, staged.t, syncOk);
      match Commit(setup.env, staged.t.core, staged.t.pending, syncOk).1
      case None => s'.(t := t, running := false)
      case Some(outcomes) =>
        if |outcomes| != n then s'.(t := t, running := false)
        else Send(s'.(t := t), BatchJobs(setup, t, s.position, outcomes), n, sent)
  }

  // Behind the largest offset in the log; an offset of 0 counts as none.
  function StartAt(offsets: seq<nat>): nat {
    if offsets == [] then 0
    else
      var before, last := StartAt(offsets[..|offsets| - 1]), offsets[|offsets| - 1];
      if last == 0 || last < before then before else last + 1
  }

  function KeptEvents<B, S, V>(s: Service<B, S, V>, extra: nat): nat {
    if s.synced + extra < |s.outbox| then s.synced + extra else |s.outbox|
  }

  // What the service goes on with once the engine has recovered.
  function Restarted<B, S, V>(s: Service<B, S, V>, t: E.Tracked<B, S>, extraEvents: nat): Service<B, S, V> {
    var offsets := if |t.core.log| <= |s.offsets| then s.offsets[..|t.core.log|] else s.offsets;
    var kept := KeptEvents(s, extraEvents);
    s.(t := t, offsets := offsets, outbox := s.outbox[..kept], synced := kept, position := StartAt(offsets),
       running := true)
  }

  function Next<B(==), S, V>(setup: Setup<B, S, V>, s: Service<B, S, V>, step: Step): Service<B, S, V> {
    match step
    case One(fate, sent) =>
      if !s.running || setup.env.grouped || |setup.topic| <= s.position then s else HandleOne(setup, s, fate, sent)
    case Many(n, fates, syncOk, sent) =>
      if !s.running || !setup.env.grouped || n == 0 || |setup.topic| < s.position + n then s
      else HandleMany(setup, s, n, fates, syncOk, sent)
    case Snapshot => if s.running then s.(t := E.AfterSnapshot(setup.env, s.t)) else s
    case MarkReadOnly(symbol) => if s.running then s.(t := E.AfterMark(s.t, symbol)) else s
    case Rewind(to) => if s.running && to <= s.position then s.(position := to) else s
    case Restart(extra, extraEvents) =>
      match E.AfterCrash(setup.env, setup.registered, s.t, extra)
      case None => s.(running := false)
      case Some(t) => Restarted(s, t, extraEvents)
  }

  function After<B(==), S, V>(setup: Setup<B, S, V>, steps: seq<Step>): Service<B, S, V> {
    if steps == [] then Began(setup) else Next(setup, After(setup, steps[..|steps| - 1]), steps[|steps| - 1])
  }

  // ---- What the log sends out ----

  // The events of entry i, by a replay of the log up to it, built against the replay up to cut.
  function Owed<B(==), S, V>(setup: Setup<B, S, V>, log: seq<Entry>, offsets: seq<nat>, i: nat, cut: nat):
    Option<seq<V>>
  {
    if i < |log| && i < |offsets| && offsets[i] < |setup.topic| && i < cut <= |log| && log[i].what.Of? then
      var before, behind := E.Carried(setup.env.m, setup.registered, log[..i]),
                            E.Carried(setup.env.m, setup.registered, log[..cut]);
      if before == None || behind == None then None
      else
        match Perform(setup.env.m, Live(before.value, {}), log[i].what.command, i + 1)
        case None => None
        case Some(p) => Some(setup.build(behind.value, setup.topic[offsets[i]], p.trades, i + 1))
    else None
  }

  // All that the first n entries of the log send out, with the length of the log at each building.
  function AllOwed<B(==), S, V>(setup: Setup<B, S, V>, log: seq<Entry>, offsets: seq<nat>, cuts: seq<nat>, n: nat):
    Option<seq<V>>
  {
    if n == 0 then Some([])
    else if |cuts| < n then None
    else
      var before, last := AllOwed(setup, log, offsets, cuts, n - 1), Owed(setup, log, offsets, n - 1, cuts[n - 1]);
      if before == None || last == None then None else Some(before.value + last.value)
  }

  function Cuts<V>(jobs: seq<Job<V>>): seq<nat> { seq(|jobs|, i requires 0 <= i < |jobs| => jobs[i].cut) }

  // Memory has performed the log, entry by entry, and the outbox holds exactly what the log sends out.
  ghost predicate Mirrors<B(!new), S(!new), V>(setup: Setup<B, S, V>, s: Service<B, S, V>) {
    && s.t.marks.applied == s.t.core.log
    && |s.jobs| == |s.t.core.log|
    && AllOwed(setup, s.t.core.log, s.offsets, Cuts(s.jobs), |s.t.core.log|) == Some(s.outbox)
  }

  // The log keeps no command whose events were not built, the outbox keeps all events that were, and
  // only cancellations come behind the snapshot.
  ghost predicate Whole<B, S, V>(s: Service<B, S, V>, step: Step) {
    step.Restart? ==>
      && |E.Left(s.t.core, step.extra)| == |s.jobs| && KeptEvents(s, step.extraEvents) == |Concat(s.jobs)|
      && NoNewOrders(Tail(E.Left(s.t.core, step.extra), s.t.core.mem.disk.number))
  }

  // ---- What every step keeps ----

  // A marker: a proof that looks inside the next two predicates asserts Shown(0).
  ghost predicate Shown(z: int) { true }

  ghost predicate Laws<B(!new), S(!new), V>(setup: Setup<B, S, V>, good: B -> bool, fit: PbOrder -> bool) {
    forall z {:trigger Shown(z)} :: Shown(z) ==>
      && Lawful(setup.env.m) && E.Storing(setup.env.m, good, fit) && E.AllOf(good, setup.registered)
      && forall i, fate :: 0 <= i < |setup.topic| ==> E.FitStep(fit, E.Take(setup.topic[i].command, fate))
  }

  // The invariant of the engine alone.
  ghost predicate Safe<B(!new), S(!new), V>(setup: Setup<B, S, V>, good: B -> bool, fit: PbOrder -> bool,
                                            t: E.Tracked<B, S>) {
    forall z {:trigger Shown(z)} :: Shown(z) ==> E.Sane(setup.env, setup.registered, good, fit, t)
  }

  ghost predicate CameFrom<B, S, V>(setup: Setup<B, S, V>, e: Entry, offset: nat) {
    offset < |setup.topic| && e.what == Of(setup.topic[offset].command)
  }

  // Each entry of the log was a message at its offset.
  ghost predicate FromTopic<B, S, V>(setup: Setup<B, S, V>, log: seq<Entry>, offsets: seq<nat>) {
    && |offsets| == |log|
    && forall i {:trigger offsets[i]} :: 0 <= i < |log| ==> CameFrom(setup, log[i], offsets[i])
  }

  // The k-th job here is the one of entry from + k, and its events are those that the log owes.
  ghost predicate Right<B(!new), S(!new), V>(setup: Setup<B, S, V>, log: seq<Entry>, offsets: seq<nat>, durable: nat,
                                             jobs: seq<Job<V>>, from: nat) {
    forall k :: 0 <= k < |jobs| ==>
      && jobs[k].walSeq == from + k + 1 && jobs[k].cut <= durable
      && Owed(setup, log, offsets, from + k, jobs[k].cut) == Some(jobs[k].events)
  }

  ghost predicate Labelled<B, S>(t: E.Tracked<B, S>) {
    && t.core.mem.disk.number <= t.core.durable <= |t.core.log|
    && t.marks.kept == t.core.log[..t.core.mem.disk.number]
  }

  // The engine is between two batches, and has performed its whole log.
  ghost predicate Idle<B, S>(t: E.Tracked<B, S>) {
    t.pending == [] && t.core.durable == |t.core.log| && t.marks.applied == t.core.log
  }

  ghost predicate Sound<B(!new), S(!new), V>(setup: Setup<B, S, V>, good: B -> bool, fit: PbOrder -> bool,
                                             s: Service<B, S, V>) {
    && Safe(setup, good, fit, s.t) && Labelled(s.t)
    && FromTopic(setup, s.t.core.log, s.offsets)
    && |s.jobs| <= s.t.core.durable && Right(setup, s.t.core.log, s.offsets, s.t.core.durable, s.jobs, 0)
    && s.synced <= |s.outbox| && s.outbox <= Concat(s.jobs)
    && (s.running ==> Idle(s.t) && |s.jobs| == |s.t.core.log| && s.outbox == Concat(s.jobs) && s.synced == |s.outbox|)
  }

  lemma ConcatOne<V>(jobs: seq<Job<V>>, job: Job<V>)
    ensures Concat(jobs + [job]) == Concat(jobs) + job.events
  {
    assert (jobs + [job])[..|jobs|] == jobs;
  }

  lemma {:induction false} ConcatAppend<V>(a: seq<Job<V>>, b: seq<Job<V>>)
    ensures Concat(a + b) == Concat(a) + Concat(b)
    decreases |b|
  {
    if b == [] {
      assert a + b == a;
    } else {
      var n := |b| - 1;
      ConcatAppend(a, b[..n]);
      ConcatOne(a + b[..n], b[n]);
      assert a + b == (a + b[..n]) + [b[n]];
      E.Joined(Concat(a), Concat(b[..n]), b[n].events);
    }
  }

  // A longer log owes the same for its first entries.
  lemma OwedStays<B(!new), S(!new), V>(setup: Setup<B, S, V>, log: seq<Entry>, offsets: seq<nat>, more: seq<Entry>,
                                       moreOffsets: seq<nat>, i: nat, cut: nat)
    requires log <= more && offsets <= moreOffsets && |offsets| == |log| && |moreOffsets| == |more|
    requires cut <= |log|
    ensures Owed(setup, more, moreOffsets, i, cut) == Owed(setup, log, offsets, i, cut)
  {
    if i < cut { assert more[..i] == log[..i] && more[..cut] == log[..cut]; }
  }

  // What is right of one log is right of another that has the same durable entries.
  lemma RightStays<B(!new), S(!new), V>(setup: Setup<B, S, V>, log: seq<Entry>, offsets: seq<nat>, durable: nat,
                                        more: seq<Entry>, moreOffsets: seq<nat>, moreDurable: nat, jobs: seq<Job<V>>)
    requires log <= more && offsets <= moreOffsets && |offsets| == |log| && |moreOffsets| == |more|
    requires durable <= |log|
    ensures durable <= moreDurable && Right(setup, log, offsets, durable, jobs, 0) ==>
              Right(setup, more, moreOffsets, moreDurable, jobs, 0)
    ensures moreDurable <= durable && Right(setup, more, moreOffsets, moreDurable, jobs, 0) ==>
              Right(setup, log, offsets, durable, jobs, 0)
  {
    forall k | 0 <= k < |jobs| && jobs[k].cut <= |log|
      ensures Owed(setup, more, moreOffsets, k, jobs[k].cut) == Owed(setup, log, offsets, k, jobs[k].cut)
    {
      OwedStays(setup, log, offsets, more, moreOffsets, k, jobs[k].cut);
    }
  }

  lemma {:induction false} OwedInAll<B(!new), S(!new), V>(setup: Setup<B, S, V>, log: seq<Entry>, offsets: seq<nat>,
                                                          durable: nat, jobs: seq<Job<V>>, n: nat)
    requires Right(setup, log, offsets, durable, jobs, 0) && n <= |jobs|
    ensures AllOwed(setup, log, offsets, Cuts(jobs), n) == Some(Concat(jobs[..n]))
  {
    if n > 0 {
      OwedInAll(setup, log, offsets, durable, jobs, n - 1);
      assert jobs[..n][..n - 1] == jobs[..n - 1];
      assert 0 + (n - 1) == n - 1 && Cuts(jobs)[n - 1] == jobs[n - 1].cut;
    }
  }

  // A running service mirrors its log.
  lemma RunningMirrors<B(!new), S(!new), V>(setup: Setup<B, S, V>, good: B -> bool, fit: PbOrder -> bool,
                                            s: Service<B, S, V>)
    requires Sound(setup, good, fit, s) && s.running
    ensures Mirrors(setup, s)
  {
    OwedInAll(setup, s.t.core.log, s.offsets, s.t.core.durable, s.jobs, |s.jobs|);
    assert s.jobs[..|s.jobs|] == s.jobs;
  }

  // The engine has performed more, in step with the events built for it: sending them keeps all.
  lemma SendKeeps<B(!new), S(!new), V>(setup: Setup<B, S, V>, good: B -> bool, fit: PbOrder -> bool,
                                       s: Service<B, S, V>, jobs: seq<Job<V>>, n: nat, sent: Sent)
    requires Safe(setup, good, fit, s.t) && Labelled(s.t) && Idle(s.t)
    requires FromTopic(setup, s.t.core.log, s.offsets) && s.running
    requires Right(setup, s.t.core.log, s.offsets, s.t.core.durable, s.jobs, 0)
    requires Right(setup, s.t.core.log, s.offsets, s.t.core.durable, jobs, |s.jobs|)
    requires |s.jobs| + |jobs| == |s.t.core.log| && s.outbox == Concat(s.jobs) && s.synced == |s.outbox|
    ensures Sound(setup, good, fit, Send(s, jobs, n, sent))
  {
    ConcatAppend(s.jobs, jobs);
    BothRight(setup, s.t.core.log, s.offsets, s.t.core.durable, s.jobs, jobs);
    var all := Concat(jobs);
    assert forall k :: 0 <= k <= |all| ==> s.outbox + all[..k] <= s.outbox + all;
  }

  lemma BothRight<B(!new), S(!new), V>(setup: Setup<B, S, V>, log: seq<Entry>, offsets: seq<nat>, durable: nat,
                                       a: seq<Job<V>>, b: seq<Job<V>>)
    requires Right(setup, log, offsets, durable, a, 0) && Right(setup, log, offsets, durable, b, |a|)
    ensures Right(setup, log, offsets, durable, a + b, 0)
  {
    forall k | 0 <= k < |a + b|
      ensures (a + b)[k].walSeq == k + 1 && (a + b)[k].cut <= durable
              && Owed(setup, log, offsets, k, (a + b)[k].cut) == Some((a + b)[k].events)
    {
      if k < |a| { assert 0 + k == k; } else { assert |a| + (k - |a|) == k; }
    }
  }

  // ---- One message without group commit ----

  lemma CarriedBooks<B(!new), S(!new), V>(setup: Setup<B, S, V>, good: B -> bool, fit: PbOrder -> bool,
                                          t: E.Tracked<B, S>)
    requires Safe(setup, good, fit, t)
    ensures E.Carried(setup.env.m, setup.registered, t.marks.applied) == Some(t.core.mem.live.books)
    ensures t.core.mem.live.seen <= IdsOf(t.core.log) && t.core.durable <= |t.core.log| && Numbered(t.core.log)
    ensures setup.env.grouped || t.pending == []
  {
    assert Shown(0);
  }

  // Trades depend on the books alone.
  lemma SameTrades<B(!new), S(!new)>(m: Machine<B, S>, live: Live<B>, c: Command, n: nat)
    ensures Perform(m, live, c, n).Some? <==> Perform(m, Live(live.books, {}), c, n).Some?
    ensures Perform(m, live, c, n).Some? ==>
              Perform(m, Live(live.books, {}), c, n).value.trades == Perform(m, live, c, n).value.trades
  {
  }

  lemma TakeIsSafe<B(!new), S(!new), V>(setup: Setup<B, S, V>, good: B -> bool, fit: PbOrder -> bool,
                                        t: E.Tracked<B, S>, at: nat, fate: Fate)
    requires Laws(setup, good, fit) && Safe(setup, good, fit, t) && at < |setup.topic|
    ensures Safe(setup, good, fit, E.AfterTake(setup.env, t, setup.topic[at].command, fate))
  {
    assert Shown(0);
    E.TakeKeepsSane(setup.env, setup.registered, good, fit, t, setup.topic[at].command, fate);
  }

  // What taking one command does to the engine, by its reply.
  lemma TakenAtOnce<B(!new), S(!new)>(env: Env<B, S>, t: E.Tracked<B, S>, c: Command, fate: Fate)
      returns (after: E.Tracked<B, S>)
    requires !env.grouped && Idle(t) && Labelled(t) && Numbered(t.core.log)
    ensures after == E.AfterTake(env, t, c, fate) && Labelled(after) && after.pending == []
    ensures t.core.durable <= after.core.durable <= |after.core.log|
    ensures var n := |t.core.log| + 1;
            var e := Entry(n, Of(c));
            && (after.core.log == t.core.log || after.core.log == t.core.log + [e])
            && match Immediate(env, t.core, c, fate).1
               case Failed(_) => true
               case Replied(o) =>
                 if PassesOver(o) then after == t && Checked(t.core.mem, c) == Answered(o)
                 else && after.core.log == t.core.log + [e] && Idle(after) && o.walSeq == n
                      && Perform(env.m, t.core.mem.live, c, n).Some?
                      && Perform(env.m, t.core.mem.live, c, n).value.trades == o.trades
  {
    after := E.ImmediateGrows(env, t, c, fate);
    assert t.core.log + [] == t.core.log && t.marks.applied + [] == t.marks.applied;
    AtOnceLabelled(t, after, Entry(|t.core.log| + 1, Of(c)));
  }

  lemma AtOnceLabelled<B(!new), S(!new)>(t: E.Tracked<B, S>, after: E.Tracked<B, S>, e: Entry)
    requires Idle(t) && Labelled(t) && Numbered(t.core.log) && e.walSeq == |t.core.log| + 1
    requires after.core.log == t.core.log || after.core.log == t.core.log + [e]
    requires t.core.durable <= after.core.durable <= |after.core.log|
    requires || (after.marks.kept == t.marks.kept && after.core.mem.disk == t.core.mem.disk)
             || (after.marks.kept == after.core.log && after.core.mem.disk.number == |after.core.log|
                 && after.core.durable == |after.core.log|)
    ensures Labelled(after)
  {
  }

  // An entry that memory has just performed, and what is built for it when the log is cut long.
  lemma OwedNow<B(!new), S(!new), V>(setup: Setup<B, S, V>, log: seq<Entry>, offsets: seq<nat>, i: nat, cut: nat,
                                     books: map<string, B>, live: Live<B>, trades: seq<Trade>)
    requires FromTopic(setup, log, offsets) && i < cut <= |log| && log[i].what.Of?
    requires E.Carried(setup.env.m, setup.registered, log[..i]) == Some(live.books)
    requires E.Carried(setup.env.m, setup.registered, log[..cut]) == Some(books)
    requires Perform(setup.env.m, live, log[i].what.command, i + 1).Some?
    requires Perform(setup.env.m, live, log[i].what.command, i + 1).value.trades == trades
    ensures Owed(setup, log, offsets, i, cut) == Some(setup.build(books, setup.topic[offsets[i]], trades, i + 1))
  {
    SameTrades(setup.env.m, live, log[i].what.command, i + 1);
  }

  lemma MoreFromTopic<B, S, V>(setup: Setup<B, S, V>, log: seq<Entry>, offsets: seq<nat>, after: seq<Entry>, at: nat)
    requires FromTopic(setup, log, offsets) && at < |setup.topic|
    requires after == log || after == log + [Entry(|log| + 1, Of(setup.topic[at].command))]
    ensures FromTopic(setup, after, if |log| < |after| then offsets + [at] else offsets)
  {
  }

  lemma PrefixFromTopic<B, S, V>(setup: Setup<B, S, V>, log: seq<Entry>, offsets: seq<nat>, n: nat)
    requires FromTopic(setup, log, offsets) && n <= |log|
    ensures FromTopic(setup, log[..n], offsets[..n])
  {
  }

  // The engine has taken a message; its offset is noted, and nothing is sent yet.
  lemma TakenIsSound<B(!new), S(!new), V>(setup: Setup<B, S, V>, good: B -> bool, fit: PbOrder -> bool,
                                          s: Service<B, S, V>, t: E.Tracked<B, S>, offsets: seq<nat>)
    requires Sound(setup, good, fit, s) && Safe(setup, good, fit, t) && Labelled(t)
    requires s.t.core.log <= t.core.log && s.offsets <= offsets && FromTopic(setup, t.core.log, offsets)
    requires s.t.core.durable <= t.core.durable
    ensures Right(setup, t.core.log, offsets, t.core.durable, s.jobs, 0)
    ensures forall passed :: Sound(setup, good, fit, s.(t := t, offsets := offsets, passed := passed, running := false))
  {
    RightStays(setup, s.t.core.log, s.offsets, s.t.core.durable, t.core.log, offsets, t.core.durable, s.jobs);
  }

  lemma OneIsRight<B(!new), S(!new), V>(setup: Setup<B, S, V>, good: B -> bool, fit: PbOrder -> bool,
                                        s: Service<B, S, V>, t: E.Tracked<B, S>, offsets: seq<nat>, trades: seq<Trade>)
    requires Sound(setup, good, fit, s) && s.running && s.position < |setup.topic|
    requires Safe(setup, good, fit, t) && Idle(t) && FromTopic(setup, t.core.log, offsets)
    requires var n, c := |s.t.core.log| + 1, setup.topic[s.position].command;
             && t.core.log == s.t.core.log + [Entry(n, Of(c))] && offsets == s.offsets + [s.position]
             && Perform(setup.env.m, s.t.core.mem.live, c, n).Some?
             && Perform(setup.env.m, s.t.core.mem.live, c, n).value.trades == trades
    ensures var n := |s.t.core.log| + 1;
            var job := Job(n, n, setup.build(t.core.mem.live.books, setup.topic[s.position], trades, n));
            Right(setup, t.core.log, offsets, t.core.durable, [job], |s.jobs|)
  {
    var i, log := |s.t.core.log|, t.core.log;
    CarriedBooks(setup, good, fit, s.t);
    CarriedBooks(setup, good, fit, t);
    assert log[..i] == s.t.core.log && log[..i + 1] == log;
    OwedNow(setup, log, offsets, i, i + 1, t.core.mem.live.books, s.t.core.mem.live, trades);
  }

  lemma OneKeeps<B(!new), S(!new), V>(setup: Setup<B, S, V>, good: B -> bool, fit: PbOrder -> bool,
                                      s: Service<B, S, V>, fate: Fate, sent: Sent)
    requires Laws(setup, good, fit) && Sound(setup, good, fit, s) && s.running && !setup.env.grouped
    requires s.position < |setup.topic|
    ensures Sound(setup, good, fit, HandleOne(setup, s, fate, sent))
  {
    var msg := setup.topic[s.position];
    CarriedBooks(setup, good, fit, s.t);
    var t := TakenAtOnce(setup.env, s.t, msg.command, fate);
    TakeIsSafe(setup, good, fit, s.t, s.position, fate);
    var offsets := if Logs(s.t, t) then s.offsets + [s.position] else s.offsets;
    MoreFromTopic(setup, s.t.core.log, s.offsets, t.core.log, s.position);
    TakenIsSound(setup, good, fit, s, t, offsets);
    var reply := Immediate(setup.env, s.t.core, msg.command, fate).1;
    if reply.Replied? && !PassesOver(reply.outcome) {
      var o := reply.outcome;
      OneIsRight(setup, good, fit, s, t, offsets, o.trades);
      var job := Job(o.walSeq, |t.core.log|, setup.build(t.core.mem.live.books, msg, o.trades, o.walSeq));
      SendKeeps(setup, good, fit, s.(t := t, offsets := offsets), [job], 1, sent);
    }
  }

  // ---- A batch ----

  // The k-th item is that of message from + k, whose offset stands beside its log entry.
  ghost predicate IsItem<B, S, V>(setup: Setup<B, S, V>, item: Item, at: nat, offsets: seq<nat>) {
    && at < |setup.topic| && item.command == setup.topic[at].command
    && (item.answer.Some? ==> PassesOver(item.answer.value))
    && (item.answer == None ==> 1 <= item.walSeq <= |offsets| && offsets[item.walSeq - 1] == at)
  }

  // The items that wait are numbered one after the other behind a log of length n.
  ghost predicate InOrder(items: seq<Item>, n: nat) {
    forall k {:trigger E.Waits(items[..k])} :: 0 <= k < |items| && items[k].answer == None ==>
      items[k].walSeq == n + |E.Waits(items[..k])| + 1
  }

  // The items of the messages from `from` on.
  ghost predicate Items<B, S, V>(setup: Setup<B, S, V>, items: seq<Item>, from: nat, n: nat, offsets: seq<nat>) {
    && (forall k :: 0 <= k < |items| ==> IsItem(setup, items[k], from + k, offsets))
    && InOrder(items, n)
  }

  // The engine with some messages staged: only the log and what waits have changed.
  ghost predicate StagedFrom<B, S, V>(setup: Setup<B, S, V>, s: Service<B, S, V>, staged: Staged<B, S>, n: nat) {
    && staged.t.core.mem == s.t.core.mem && staged.t.marks == s.t.marks
    && staged.t.core.durable == s.t.core.durable
    && s.t.core.log <= staged.t.core.log && s.offsets <= staged.offsets
    && FromTopic(setup, staged.t.core.log, staged.offsets)
    && (staged.ok ==>
          && |staged.t.pending| == n && Items(setup, staged.t.pending, s.position, |s.t.core.log|, staged.offsets)
          && staged.t.core.log == s.t.core.log + E.Waits(staged.t.pending))
  }

  ghost predicate WellStaged<B(!new), S(!new), V>(setup: Setup<B, S, V>, good: B -> bool, fit: PbOrder -> bool,
                                                  s: Service<B, S, V>, staged: Staged<B, S>, n: nat) {
    Safe(setup, good, fit, staged.t) && StagedFrom(setup, s, staged, n)
  }

  lemma NothingStaged<B(!new), S(!new), V>(setup: Setup<B, S, V>, good: B -> bool, fit: PbOrder -> bool,
                                           s: Service<B, S, V>)
    requires Safe(setup, good, fit, s.t) && FromTopic(setup, s.t.core.log, s.offsets) && s.t.pending == []
    ensures WellStaged(setup, good, fit, s, Staged(s.t, s.offsets, s.passed, true), 0)
  {
    assert s.t.core.log + [] == s.t.core.log;
  }

  lemma {:induction false} ManyStaged<B(!new), S(!new), V>(
      setup: Setup<B, S, V>, good: B -> bool, fit: PbOrder -> bool, s: Service<B, S, V>, n: nat, fates: nat -> Fate)
      returns (staged: Staged<B, S>)
    requires Laws(setup, good, fit) && setup.env.grouped && s.position + n <= |setup.topic|
    requires WellStaged(setup, good, fit, s, Staged(s.t, s.offsets, s.passed, true), 0)
    ensures staged == StageMany(setup, s, n, fates) && WellStaged(setup, good, fit, s, staged, n)
  {
    if n == 0 {
      staged := Staged(s.t, s.offsets, s.passed, true);
    } else {
      var before := ManyStaged(setup, good, fit, s, n - 1, fates);
      staged := StageOne(setup, good, fit, s, before, n - 1, fates(n - 1));
    }
  }

  lemma StageOne<B(!new), S(!new), V>(setup: Setup<B, S, V>, good: B -> bool, fit: PbOrder -> bool,
                                      s: Service<B, S, V>, before: Staged<B, S>, k: nat, fate: Fate)
      returns (after: Staged<B, S>)
    requires Laws(setup, good, fit) && setup.env.grouped && s.position + k < |setup.topic|
    requires WellStaged(setup, good, fit, s, before, k)
    ensures after == if before.ok then StageNext(setup, before, s.position + k, fate) else before
    ensures WellStaged(setup, good, fit, s, after, k + 1)
  {
    if before.ok {
      TakeIsSafe(setup, good, fit, before.t, s.position + k, fate);
      after := OneStaged(setup, s, before, k, fate);
    } else {
      after := before;
    }
  }

  // What staging one more message does, whatever comes of it.
  lemma NextStaged<B(!new), S(!new), V>(setup: Setup<B, S, V>, before: Staged<B, S>, at: nat, fate: Fate)
      returns (after: Staged<B, S>)
    requires setup.env.grouped && at < |setup.topic| && FromTopic(setup, before.t.core.log, before.offsets)
    ensures after == StageNext(setup, before, at, fate)
    ensures after.t == E.AfterTake(setup.env, before.t, setup.topic[at].command, fate)
    ensures after.t.core.mem == before.t.core.mem && after.t.marks == before.t.marks
    ensures after.t.core.durable == before.t.core.durable
    ensures before.t.core.log <= after.t.core.log && before.offsets <= after.offsets
    ensures FromTopic(setup, after.t.core.log, after.offsets)
    ensures after.ok ==>
              && |after.t.pending| == |before.t.pending| + 1
              && var item := after.t.pending[|before.t.pending|];
              && after.t.pending == before.t.pending + [item] && item.command == setup.topic[at].command
              && (item.answer.Some? ==> PassesOver(item.answer.value) && after.t.core.log == before.t.core.log)
              && (item.answer == None ==>
                    item.walSeq == |before.t.core.log| + 1 && after.offsets == before.offsets + [at]
                    && after.t.core.log == before.t.core.log + [E.EntryOf(item)])
  {
    var c := setup.topic[at].command;
    var t := E.StagedGrows(setup.env, before.t, c, fate);
    assert before.t.core.log + [] == before.t.core.log;
    MoreFromTopic(setup, before.t.core.log, before.offsets, t.core.log, at);
    after := StageNext(setup, before, at, fate);
  }

  lemma OneStaged<B(!new), S(!new), V>(setup: Setup<B, S, V>, s: Service<B, S, V>, before: Staged<B, S>, k: nat,
                                       fate: Fate) returns (after: Staged<B, S>)
    requires setup.env.grouped && s.position + k < |setup.topic| && StagedFrom(setup, s, before, k) && before.ok
    ensures after == StageNext(setup, before, s.position + k, fate)
    ensures after.t == E.AfterTake(setup.env, before.t, setup.topic[s.position + k].command, fate)
    ensures StagedFrom(setup, s, after, k + 1)
  {
    after := NextStaged(setup, before, s.position + k, fate);
    if after.ok { ItemStaged(setup, s, before, after.t, after.offsets, k, after.t.pending[k]); }
  }

  lemma ItemStaged<B(!new), S(!new), V>(setup: Setup<B, S, V>, s: Service<B, S, V>, before: Staged<B, S>,
                                        t: E.Tracked<B, S>, offsets: seq<nat>, k: nat, item: Item)
    requires s.position + k < |setup.topic| && StagedFrom(setup, s, before, k) && before.ok
    requires before.offsets <= offsets && (item.answer == None ==> offsets == before.offsets + [s.position + k])
    requires t.pending == before.t.pending + [item] && item.command == setup.topic[s.position + k].command
    requires item.answer.Some? ==> PassesOver(item.answer.value) && t.core.log == before.t.core.log
    requires item.answer == None ==>
               item.walSeq == |before.t.core.log| + 1 && t.core.log == before.t.core.log + [E.EntryOf(item)]
    ensures |t.pending| == k + 1 && Items(setup, t.pending, s.position, |s.t.core.log|, offsets)
    ensures t.core.log == s.t.core.log + E.Waits(t.pending)
  {
    E.WaitsMore(before.t.pending, item);
    assert E.Waits(before.t.pending) + [] == E.Waits(before.t.pending);
    OneMoreItem(setup, before.t.pending, s.position, |s.t.core.log|, before.offsets, offsets, item);
  }

  lemma OneMoreItem<B, S, V>(setup: Setup<B, S, V>, items: seq<Item>, from: nat, n: nat, before: seq<nat>,
                             offsets: seq<nat>, item: Item)
    requires Items(setup, items, from, n, before) && before <= offsets
    requires from + |items| < |setup.topic| && item.command == setup.topic[from + |items|].command
    requires item.answer.Some? ==> PassesOver(item.answer.value)
    requires item.answer == None ==>
               && item.walSeq == n + |E.Waits(items)| + 1 == |before| + 1 && offsets == before + [from + |items|]
    ensures Items(setup, items + [item], from, n, offsets)
  {
    var more := items + [item];
    forall k | 0 <= k < |more| ensures IsItem(setup, more[k], from + k, offsets) {
      if k < |items| { assert IsItem(setup, items[k], from + k, before); }
    }
    OneMoreInOrder(items, n, item);
  }

  lemma OneMoreInOrder(items: seq<Item>, n: nat, item: Item)
    requires InOrder(items, n) && (item.answer == None ==> item.walSeq == n + |E.Waits(items)| + 1)
    ensures InOrder(items + [item], n)
  {
    var more := items + [item];
    forall k {:trigger E.Waits(more[..k])} | 0 <= k < |more| && more[k].answer == None
      ensures more[k].walSeq == n + |E.Waits(more[..k])| + 1
    {
      if k < |items| {
        assert more[..k] == items[..k];
      } else {
        assert more[..k] == items;
      }
    }
  }

  // A staged batch behind a log that memory has performed.
  ghost predicate Batched<B(!new), S(!new), V>(setup: Setup<B, S, V>, good: B -> bool, fit: PbOrder -> bool,
                                               t: E.Tracked<B, S>, base: seq<Entry>, offsets: seq<nat>, from: nat) {
    && Safe(setup, good, fit, t) && FromTopic(setup, t.core.log, offsets)
    && t.marks.applied == base && t.core.log == base + E.Waits(t.pending)
    && Items(setup, t.pending, from, |base|, offsets)
  }

  // The memory after the first k items, and what has been performed by then.
  lemma MemoryAt<B(!new), S(!new), V>(setup: Setup<B, S, V>, good: B -> bool, fit: PbOrder -> bool,
                                      t: E.Tracked<B, S>, k: nat)
    requires Laws(setup, good, fit) && Safe(setup, good, fit, t) && k <= |t.pending|
    requires CommitItems(setup.env, t.core.mem, t.pending[..k]).1
    ensures var a := CommitItems(setup.env, t.core.mem, t.pending[..k]).0;
            E.Carried(setup.env.m, setup.registered, t.marks.applied + E.Waits(t.pending[..k]))
              == Some(a.mem.live.books)
  {
    assert Shown(0);
    E.MarkedAll(setup.env, t.core.mem, t.pending[..k], t.marks);
    assert forall i :: 0 <= i < k ==> t.pending[..k][i] == t.pending[i];
    assert E.Waiting(t.pending[..k], t.core.log);
    E.GroundedDurable(setup.env.m, setup.registered, good, t.core.log, t.core.durable, t.core.mem, t.marks);
    E.GroundedItems(setup.env, setup.registered, good, fit, t.core.log, t.core.mem, t.marks, t.pending[..k]);
  }

  lemma {:induction false} WaitsPrefix(items: seq<Item>, k: nat)
    requires k <= |items|
    ensures E.Waits(items[..k]) <= E.Waits(items)
    decreases |items|
  {
    if k < |items| {
      WaitsPrefix(items[..|items| - 1], k);
      assert items[..|items| - 1][..k] == items[..k];
    } else {
      assert items[..k] == items;
    }
  }

  // Where the k-th item is in the log.
  lemma ItemAt<B(!new), S(!new), V>(setup: Setup<B, S, V>, good: B -> bool, fit: PbOrder -> bool,
                                    t: E.Tracked<B, S>, base: seq<Entry>, offsets: seq<nat>, from: nat, k: nat)
      returns (i: nat)
    requires Batched(setup, good, fit, t, base, offsets, from) && k < |t.pending| && t.pending[k].answer == None
    ensures i == |base| + |E.Waits(t.pending[..k])| && t.pending[k].walSeq == i + 1
    ensures i < |t.core.log| == |offsets| && offsets[i] == from + k && t.core.log[i] == E.EntryOf(t.pending[k])
    ensures t.core.log[..i] == base + E.Waits(t.pending[..k])
  {
    var items, item := t.pending, t.pending[k];
    i := |base| + |E.Waits(items[..k])|;
    E.WaitsMore(items[..k], item);
    assert items[..k] + [item] == items[..k + 1];
    WaitsPrefix(items, k);
    WaitsPrefix(items, k + 1);
    assert t.core.log[i] == E.Waits(items)[|E.Waits(items[..k])|];
  }

  // The k-th item performed: its outcome has the trades that the log before it gives.
  lemma ItemOwes<B(!new), S(!new), V>(setup: Setup<B, S, V>, good: B -> bool, fit: PbOrder -> bool,
                                      t: E.Tracked<B, S>, base: seq<Entry>, offsets: seq<nat>, from: nat, k: nat,
                                      i: nat, mem: Memory<B, S>, p: Performed<B>, books: map<string, B>)
    requires Laws(setup, good, fit) && Batched(setup, good, fit, t, base, offsets, from) && k < |t.pending|
    requires t.pending[k].answer == None && CommitItems(setup.env, t.core.mem, t.pending[..k]).1
    requires mem == CommitItems(setup.env, t.core.mem, t.pending[..k]).0.mem
    requires i == |base| + |E.Waits(t.pending[..k])|
    requires ApplyLive(setup.env, mem, t.pending[k].command, i + 1) == Some(p)
    requires E.Carried(setup.env.m, setup.registered, t.core.log) == Some(books) && from + k < |setup.topic|
    ensures Owed(setup, t.core.log, offsets, i, |t.core.log|) ==
            Some(setup.build(books, setup.topic[from + k], p.trades, i + 1))
  {
    var j := ItemAt(setup, good, fit, t, base, offsets, from, k);
    MemoryAt(setup, good, fit, t, k);
    assert t.core.log[..|t.core.log|] == t.core.log;
    OwedNow(setup, t.core.log, offsets, i, |t.core.log|, books, mem.live, p.trades);
  }

  lemma JobsMore<B(!new), S(!new), V>(setup: Setup<B, S, V>, t: E.Tracked<B, S>, from: nat, outcomes: seq<Outcome>,
                                      o: Outcome)
    requires from + |outcomes| + 1 <= |setup.topic|
    ensures BatchJobs(setup, t, from, outcomes + [o]) == BatchJobs(setup, t, from, outcomes) +
              if PassesOver(o) then []
              else [Job(o.walSeq, |t.core.log|,
                        setup.build(t.core.mem.live.books, setup.topic[from + |outcomes|], o.trades, o.walSeq))]
  {
    assert (outcomes + [o])[..|outcomes|] == outcomes;
  }

  lemma RightMore<B(!new), S(!new), V>(setup: Setup<B, S, V>, log: seq<Entry>, offsets: seq<nat>, durable: nat,
                                       jobs: seq<Job<V>>, from: nat, job: Job<V>)
    requires Right(setup, log, offsets, durable, jobs, from)
    requires job.walSeq == from + |jobs| + 1 && job.cut <= durable
    requires Owed(setup, log, offsets, from + |jobs|, job.cut) == Some(job.events)
    ensures Right(setup, log, offsets, durable, jobs + [job], from)
  {
  }

  // One item more of a commit that has gone through so far.
  lemma NextCommitted<B, S>(env: Env<B, S>, mem: Memory<B, S>, items: seq<Item>, k: nat)
    requires k < |items| && CommitItems(env, mem, items[..k + 1]).1
    ensures CommitItems(env, mem, items[..k]).1
    ensures var (before, now) := (CommitItems(env, mem, items[..k]).0, CommitItems(env, mem, items[..k + 1]).0);
            && |now.outcomes| == |before.outcomes| + 1
            && var o := now.outcomes[|before.outcomes|];
               && now.outcomes == before.outcomes + [o]
               && (items[k].answer.Some? ==> o == items[k].answer.value)
               && (items[k].answer == None ==>
                     var p := ApplyLive(env, before.mem, items[k].command, items[k].walSeq);
                     p.Some? && o == Outcome(p.value.trades, items[k].walSeq, false, false))
  {
    assert items[..k + 1][..k] == items[..k];
  }

  // The jobs built for some outcomes are those of the w entries behind the first `base` ones.
  ghost predicate JobsFit<B(!new), S(!new), V>(setup: Setup<B, S, V>, after: E.Tracked<B, S>, offsets: seq<nat>,
                                               from: nat, outs: seq<Outcome>, base: nat, w: nat) {
    && from + |outs| <= |setup.topic|
    && |BatchJobs(setup, after, from, outs)| == w
    && Right(setup, after.core.log, offsets, |after.core.log|, BatchJobs(setup, after, from, outs), base)
  }

  lemma JobsFitMore<B(!new), S(!new), V>(setup: Setup<B, S, V>, after: E.Tracked<B, S>, offsets: seq<nat>, from: nat,
                                         outs: seq<Outcome>, o: Outcome, base: nat, w: nat)
    requires JobsFit(setup, after, offsets, from, outs, base, w) && from + |outs| + 1 <= |setup.topic|
    requires !PassesOver(o) ==>
               o.walSeq == base + w + 1
               && Owed(setup, after.core.log, offsets, base + w, |after.core.log|) ==
                  Some(setup.build(after.core.mem.live.books, setup.topic[from + |outs|], o.trades, o.walSeq))
    ensures JobsFit(setup, after, offsets, from, outs + [o], base, if PassesOver(o) then w else w + 1)
  {
    JobsMore(setup, after, from, outs, o);
    var jobs := BatchJobs(setup, after, from, outs);
    if PassesOver(o) {
      assert jobs + [] == jobs;
    } else {
      RightMore(setup, after.core.log, offsets, |after.core.log|, jobs, base,
                Job(o.walSeq, |after.core.log|,
                    setup.build(after.core.mem.live.books, setup.topic[from + |outs|], o.trades, o.walSeq)));
    }
  }

  // The jobs of the first k outcomes are those of the entries that the first k items logged.
  lemma {:induction false} JobsRight<B(!new), S(!new), V>(
      setup: Setup<B, S, V>, good: B -> bool, fit: PbOrder -> bool, t: E.Tracked<B, S>, base: seq<Entry>,
      offsets: seq<nat>, from: nat, k: nat, after: E.Tracked<B, S>)
    requires Laws(setup, good, fit) && Batched(setup, good, fit, t, base, offsets, from) && k <= |t.pending|
    requires from + |t.pending| <= |setup.topic| && after.core.log == t.core.log
    requires E.Carried(setup.env.m, setup.registered, t.core.log) == Some(after.core.mem.live.books)
    requires CommitItems(setup.env, t.core.mem, t.pending[..k]).1
    ensures var outs := CommitItems(setup.env, t.core.mem, t.pending[..k]).0.outcomes;
            |outs| == k && JobsFit(setup, after, offsets, from, outs, |base|, |E.Waits(t.pending[..k])|)
  {
    if k > 0 {
      NextCommitted(setup.env, t.core.mem, t.pending, k - 1);
      JobsRight(setup, good, fit, t, base, offsets, from, k - 1, after);
      NextJobRight(setup, good, fit, t, base, offsets, from, k - 1, after,
                   CommitItems(setup.env, t.core.mem, t.pending[..k - 1]).0,
                   CommitItems(setup.env, t.core.mem, t.pending[..k]).0.outcomes[k - 1]);
    }
  }

  lemma NextJobRight<B(!new), S(!new), V>(
      setup: Setup<B, S, V>, good: B -> bool, fit: PbOrder -> bool, t: E.Tracked<B, S>, base: seq<Entry>,
      offsets: seq<nat>, from: nat, j: nat, after: E.Tracked<B, S>, before: Applying<B, S>, o: Outcome)
    requires Laws(setup, good, fit) && Batched(setup, good, fit, t, base, offsets, from) && j < |t.pending|
    requires from + |t.pending| <= |setup.topic| && after.core.log == t.core.log
    requires E.Carried(setup.env.m, setup.registered, t.core.log) == Some(after.core.mem.live.books)
    requires CommitItems(setup.env, t.core.mem, t.pending[..j]) == (before, true) && |before.outcomes| == j
    requires t.pending[j].answer.Some? ==> o == t.pending[j].answer.value
    requires t.pending[j].answer == None ==>
               var p := ApplyLive(setup.env, before.mem, t.pending[j].command, t.pending[j].walSeq);
               p.Some? && o == Outcome(p.value.trades, t.pending[j].walSeq, false, false)
    requires JobsFit(setup, after, offsets, from, before.outcomes, |base|, |E.Waits(t.pending[..j])|)
    ensures JobsFit(setup, after, offsets, from, before.outcomes + [o], |base|, |E.Waits(t.pending[..j + 1])|)
  {
    var w := |E.Waits(t.pending[..j])|;
    ItemCounts(t.pending, j);
    if t.pending[j].answer == None {
      OpenItemOwes(setup, good, fit, t, base, offsets, from, j, after, before, o);
    } else {
      assert IsItem(setup, t.pending[j], from + j, offsets);
    }
    JobsFitMore(setup, after, offsets, from, before.outcomes, o, |base|, w);
    assert (if PassesOver(o) then w else w + 1) == |E.Waits(t.pending[..j + 1])|;
  }

  lemma ItemCounts(items: seq<Item>, j: nat)
    requires j < |items|
    ensures |E.Waits(items[..j + 1])| == |E.Waits(items[..j])| + if items[j].answer == None then 1 else 0
  {
    E.WaitsMore(items[..j], items[j]);
    assert items[..j] + [items[j]] == items[..j + 1];
  }

  lemma OpenItemOwes<B(!new), S(!new), V>(
      setup: Setup<B, S, V>, good: B -> bool, fit: PbOrder -> bool, t: E.Tracked<B, S>, base: seq<Entry>,
      offsets: seq<nat>, from: nat, j: nat, after: E.Tracked<B, S>, before: Applying<B, S>, o: Outcome)
    requires Laws(setup, good, fit) && Batched(setup, good, fit, t, base, offsets, from) && j < |t.pending|
    requires from + |t.pending| <= |setup.topic| && after.core.log == t.core.log
    requires E.Carried(setup.env.m, setup.registered, t.core.log) == Some(after.core.mem.live.books)
    requires CommitItems(setup.env, t.core.mem, t.pending[..j]) == (before, true) && t.pending[j].answer == None
    requires var p := ApplyLive(setup.env, before.mem, t.pending[j].command, t.pending[j].walSeq);
             p.Some? && o == Outcome(p.value.trades, t.pending[j].walSeq, false, false)
    ensures var i := |base| + |E.Waits(t.pending[..j])|;
            && o.walSeq == i + 1
            && Owed(setup, after.core.log, offsets, i, |after.core.log|) ==
               Some(setup.build(after.core.mem.live.books, setup.topic[from + j], o.trades, o.walSeq))
  {
    var i := ItemAt(setup, good, fit, t, base, offsets, from, j);
    var p := ApplyLive(setup.env, before.mem, t.pending[j].command, i + 1).value;
    ItemOwes(setup, good, fit, t, base, offsets, from, j, i, before.mem, p, after.core.mem.live.books);
  }

  // What a commit performs is a front part of the log.
  lemma {:induction false} MarkedPrefix<B, S>(env: Env<B, S>, mem: Memory<B, S>, items: seq<Item>, marks: E.Marks)
    ensures E.MarkItems(env, mem, items, marks).applied <= marks.applied + E.Waits(items)
    ensures CommitItems(env, mem, items).1 ==>
              E.MarkItems(env, mem, items, marks).applied == marks.applied + E.Waits(items)
  {
    if items == [] {
      assert marks.applied + [] == marks.applied;
    } else {
      MarkedPrefix(env, mem, items[..|items| - 1], marks);
    }
  }

  lemma KeptIsLabelled(kept: seq<Entry>, applied: seq<Entry>, log: seq<Entry>, n: nat)
    requires Numbered(log) && applied <= log && kept <= applied && kept != [] && kept[|kept| - 1].walSeq == n
    ensures n <= |log| && kept == log[..n]
  {
    assert kept[|kept| - 1] == log[|kept| - 1];
  }

  // A commit that is not stopped by the sync: what it does to the engine, whether it goes through or not.
  lemma Commits<B(!new), S(!new)>(env: Env<B, S>, t: E.Tracked<B, S>, base: seq<Entry>) returns (after: E.Tracked<B, S>)
    requires env.grouped && t.pending != [] && Labelled(t) && Numbered(t.core.log)
    requires t.marks.applied == base && t.core.log == base + E.Waits(t.pending)
    ensures after == E.AfterCommit(env, t, true) && after.core.log == t.core.log && Labelled(after)
    ensures t.core.durable <= after.core.durable
    ensures var outcomes := Commit(env, t.core, t.pending, true).1;
            && (outcomes.Some? <==> CommitItems(env, t.core.mem, t.pending).1)
            && (outcomes.Some? ==> outcomes.value == CommitItems(env, t.core.mem, t.pending).0.outcomes && Idle(after))
  {
    after := E.AfterCommit(env, t, true);
    MarkedPrefix(env, t.core.mem, t.pending, t.marks);
    E.MarkedLast(env, t.core.mem, t.pending, t.marks);
    var kept, applied := after.marks.kept, after.marks.applied;
    if kept != [] && kept <= applied && kept[|kept| - 1].walSeq == after.core.mem.disk.number {
      KeptIsLabelled(kept, applied, t.core.log, after.core.mem.disk.number);
    }
  }

  lemma CommitIsSafe<B(!new), S(!new), V>(setup: Setup<B, S, V>, good: B -> bool, fit: PbOrder -> bool,
                                          t: E.Tracked<B, S>, syncOk: bool)
    requires Laws(setup, good, fit) && Safe(setup, good, fit, t)
    ensures Safe(setup, good, fit, E.AfterCommit(setup.env, t, syncOk))
  {
    assert Shown(0);
    E.AfterKeepsSane(setup.env, setup.registered, good, fit, t, E.Committed(syncOk));
  }

  lemma FailedSync<B, S>(env: Env<B, S>, t: E.Tracked<B, S>)
    requires env.grouped && t.pending != []
    ensures E.AfterCommit(env, t, false) == t && Commit(env, t.core, t.pending, false).1 == None
  {
  }

  // The whole batch committed: the events are right, and sending them keeps everything.
  lemma CommittedKeeps<B(!new), S(!new), V>(setup: Setup<B, S, V>, good: B -> bool, fit: PbOrder -> bool,
                                            s: Service<B, S, V>, staged: Staged<B, S>, n: nat, after: E.Tracked<B, S>,
                                            outcomes: seq<Outcome>, passed: set<nat>, sent: Sent)
    requires Laws(setup, good, fit) && Sound(setup, good, fit, s) && s.running && s.position + n <= |setup.topic|
    requires Safe(setup, good, fit, staged.t) && StagedFrom(setup, s, staged, n) && staged.ok
    requires Safe(setup, good, fit, after) && Labelled(after) && Idle(after)
    requires after.core.log == staged.t.core.log && CommitItems(setup.env, staged.t.core.mem, staged.t.pending).1
    requires outcomes == CommitItems(setup.env, staged.t.core.mem, staged.t.pending).0.outcomes
    ensures |outcomes| == n
    ensures Sound(setup, good, fit,
                  Send(s.(t := after, offsets := staged.offsets, passed := passed),
                       BatchJobs(setup, after, s.position, outcomes), n, sent))
  {
    assert staged.t.pending[..n] == staged.t.pending;
    CarriedBooks(setup, good, fit, after);
    JobsRight(setup, good, fit, staged.t, s.t.core.log, staged.offsets, s.position, n, after);
    RightStays(setup, s.t.core.log, s.offsets, s.t.core.durable, after.core.log, staged.offsets, after.core.durable,
               s.jobs);
    SendKeeps(setup, good, fit, s.(t := after, offsets := staged.offsets, passed := passed),
              BatchJobs(setup, after, s.position, outcomes), n, sent);
  }

  lemma ManyKeeps<B(!new), S(!new), V>(setup: Setup<B, S, V>, good: B -> bool, fit: PbOrder -> bool,
                                       s: Service<B, S, V>, n: nat, fates: nat -> Fate, syncOk: bool, sent: Sent)
    requires Laws(setup, good, fit) && Sound(setup, good, fit, s) && s.running && setup.env.grouped
    requires 0 < n && s.position + n <= |setup.topic|
    ensures Sound(setup, good, fit, HandleMany(setup, s, n, fates, syncOk, sent))
  {
    NothingStaged(setup, good, fit, s);
    var staged := ManyStaged(setup, good, fit, s, n, fates);
    if !staged.ok {
      TakenIsSound(setup, good, fit, s, staged.t, staged.offsets);
    } else if !syncOk {
      FailedSync(setup.env, staged.t);
      TakenIsSound(setup, good, fit, s, staged.t, staged.offsets);
    } else {
      CarriedBooks(setup, good, fit, staged.t);
      var after := Commits(setup.env, staged.t, s.t.core.log);
      CommitIsSafe(setup, good, fit, staged.t, true);
      var outcomes := Commit(setup.env, staged.t.core, staged.t.pending, true).1;
      if outcomes == None {
        TakenIsSound(setup, good, fit, s, after, staged.offsets);
      } else {
        CommittedKeeps(setup, good, fit, s, staged, n, after, outcomes.value,
                       staged.passed, sent);
      }
    }
  }

  // ---- The other steps ----

  lemma SnapshotKeeps<B(!new), S(!new), V>(setup: Setup<B, S, V>, good: B -> bool, fit: PbOrder -> bool,
                                           s: Service<B, S, V>)
    requires Laws(setup, good, fit) && Sound(setup, good, fit, s) && s.running
    ensures Sound(setup, good, fit, s.(t := E.AfterSnapshot(setup.env, s.t)))
  {
    assert Safe(setup, good, fit, E.AfterSnapshot(setup.env, s.t)) by {
      assert Shown(0);
      E.AfterKeepsSane(setup.env, setup.registered, good, fit, s.t, E.Snapshot);
    }
    assert s.t.core.log[..|s.t.core.log|] == s.t.core.log;
  }

  lemma MarkKeeps<B(!new), S(!new), V>(setup: Setup<B, S, V>, good: B -> bool, fit: PbOrder -> bool,
                                       s: Service<B, S, V>, symbol: string)
    requires Laws(setup, good, fit) && Sound(setup, good, fit, s)
    ensures Sound(setup, good, fit, s.(t := E.AfterMark(s.t, symbol)))
  {
    assert Safe(setup, good, fit, E.AfterMark(s.t, symbol)) by {
      assert Shown(0);
      E.AfterKeepsSane(setup.env, setup.registered, good, fit, s.t, E.MarkReadOnly(symbol));
    }
  }

  // Recovery performs the whole log again exactly if nothing but cancellations comes behind the snapshot.
  lemma {:induction false} OnlyCancelsComeBack(log: seq<Entry>, from: nat)
    requires from <= |log| && forall i :: 0 <= i < |log| ==> log[i].what.Of?
    ensures |E.WithCancels(log[..from], log, from)| <= |log|
    ensures NoNewOrders(Tail(log, from)) ==> E.WithCancels(log[..from], log, from) == log
    ensures NoNewOrders(Tail(log, from)) || |E.WithCancels(log[..from], log, from)| < |log|
    decreases |log|
  {
    if |log| == from {
      assert log[..from] == log;
    } else {
      var n := |log| - 1;
      assert log[..n][..from] == log[..from];
      OnlyCancelsComeBack(log[..n], from);
      TailMore(log[..n], log[n], from);
      assert log == log[..n] + [log[n]];
    }
  }

  lemma TailMore(log: seq<Entry>, e: Entry, from: nat)
    requires from <= |log| && e.what.Of?
    ensures NoNewOrders(Tail(log + [e], from)) <==> NoNewOrders(Tail(log, from)) && e.what.command.Cancel?
  {
    var tail := Tail(log, from);
    assert Tail(log + [e], from) == tail + [e];
    assert (tail + [e])[|tail|] == e;
    assert forall i :: 0 <= i < |tail| ==> (tail + [e])[i] == tail[i];
  }

  lemma CrashIsSafe<B(!new), S(!new), V>(setup: Setup<B, S, V>, good: B -> bool, fit: PbOrder -> bool,
                                         t: E.Tracked<B, S>, extra: nat) returns (after: E.Tracked<B, S>)
    requires Laws(setup, good, fit) && Safe(setup, good, fit, t)
    ensures E.AfterCrash(setup.env, setup.registered, t, extra) == Some(after) && Safe(setup, good, fit, after)
  {
    assert Shown(0);
    E.CrashKeepsSane(setup.env, setup.registered, good, fit, t, extra);
    after := E.AfterCrash(setup.env, setup.registered, t, extra).value;
  }

  lemma CrashIs<B, S>(env: Env<B, S>, registered: map<string, B>, t: E.Tracked<B, S>, extra: nat,
                      after: E.Tracked<B, S>)
    requires E.AfterCrash(env, registered, t, extra) == Some(after)
    ensures after.core.log == E.Left(t.core, extra) && after.core.durable == |after.core.log| && after.pending == []
    ensures after.core.mem.disk == t.core.mem.disk
    ensures after.marks == E.Marks(E.WithCancels(t.marks.kept, after.core.log, t.core.mem.disk.number), t.marks.kept)
  {
  }

  // What is left of engine and log by a crash.
  lemma CrashLeaves<B(!new), S(!new), V>(setup: Setup<B, S, V>, good: B -> bool, fit: PbOrder -> bool,
                                         s: Service<B, S, V>, extra: nat) returns (t: E.Tracked<B, S>)
    requires Laws(setup, good, fit) && Sound(setup, good, fit, s)
    ensures E.AfterCrash(setup.env, setup.registered, s.t, extra) == Some(t) && Safe(setup, good, fit, t)
    ensures t.core.log == E.Left(s.t.core, extra) <= s.t.core.log && s.t.core.durable <= |t.core.log|
    ensures t.core.durable == |t.core.log| && t.pending == [] && Labelled(t)
    ensures t.marks.applied == t.core.log <==> NoNewOrders(Tail(t.core.log, s.t.core.mem.disk.number))
  {
    t := CrashIsSafe(setup, good, fit, s.t, extra);
    CrashIs(setup.env, setup.registered, s.t, extra, t);
    E.LeftIsPrefix(s.t.core, extra);
    var n := s.t.core.mem.disk.number;
    assert s.t.core.log[..n] == t.core.log[..n];
    forall i | 0 <= i < |t.core.log| ensures t.core.log[i].what.Of? {
      assert CameFrom(setup, s.t.core.log[i], s.offsets[i]);
    }
    OnlyCancelsComeBack(t.core.log, n);
  }

  // The log and the outbox that a restart finds, for the jobs there are.
  lemma KeptMirrors<B(!new), S(!new), V>(setup: Setup<B, S, V>, log: seq<Entry>, offsets: seq<nat>, jobs: seq<Job<V>>,
                                         outbox: seq<V>)
    requires Right(setup, log, offsets, |log|, jobs, 0) && outbox <= Concat(jobs)
    ensures |jobs| == |log| && AllOwed(setup, log, offsets, Cuts(jobs), |log|) == Some(outbox) <==>
            |jobs| == |log| && |outbox| == |Concat(jobs)|
  {
    if |jobs| == |log| {
      OwedInAll(setup, log, offsets, |log|, jobs, |jobs|);
      assert jobs[..|jobs|] == jobs;
      if |outbox| == |Concat(jobs)| { assert outbox == Concat(jobs); }
    }
  }

  // A restart leaves the outbox mirroring the log exactly when it is whole.
  lemma RestartKeepsExactlyWhen<B(!new), S(!new), V>(setup: Setup<B, S, V>, good: B -> bool, fit: PbOrder -> bool,
                                                     s: Service<B, S, V>, extra: nat, extraEvents: nat)
    requires Laws(setup, good, fit) && Sound(setup, good, fit, s)
    ensures var after := Next(setup, s, Restart(extra, extraEvents));
            && after.running
            && (Whole(s, Restart(extra, extraEvents)) ==> Sound(setup, good, fit, after))
            && (!Whole(s, Restart(extra, extraEvents)) ==> !Mirrors(setup, after))
  {
    var t := CrashLeaves(setup, good, fit, s, extra);
    RestartedMirrors(setup, good, fit, s, t, extraEvents);
    WholeIs(s, t, extra, extraEvents);
    RestartIs(setup, s, t, extra, extraEvents);
  }

  lemma RestartIs<B(!new), S(!new), V>(setup: Setup<B, S, V>, s: Service<B, S, V>, t: E.Tracked<B, S>, extra: nat,
                                       extraEvents: nat)
    requires E.AfterCrash(setup.env, setup.registered, s.t, extra) == Some(t)
    ensures Next(setup, s, Restart(extra, extraEvents)) == Restarted(s, t, extraEvents)
    ensures Restarted(s, t, extraEvents).running
  {
  }

  // The restart keeps as many entries as there are jobs, all their events, and no new order behind the
  // snapshot.
  predicate KeepsAll<B, S, V>(s: Service<B, S, V>, t: E.Tracked<B, S>, extraEvents: nat) {
    && |t.core.log| == |s.jobs| && KeptEvents(s, extraEvents) == |Concat(s.jobs)| && t.marks.applied == t.core.log
  }

  lemma WholeIs<B(!new), S(!new), V>(s: Service<B, S, V>, t: E.Tracked<B, S>, extra: nat, extraEvents: nat)
    requires t.core.log == E.Left(s.t.core, extra)
    requires t.marks.applied == t.core.log <==> NoNewOrders(Tail(t.core.log, s.t.core.mem.disk.number))
    ensures Whole(s, Restart(extra, extraEvents)) <==> KeepsAll(s, t, extraEvents)
  {
  }

  lemma RestartedMirrors<B(!new), S(!new), V>(setup: Setup<B, S, V>, good: B -> bool, fit: PbOrder -> bool,
                                              s: Service<B, S, V>, t: E.Tracked<B, S>, extraEvents: nat)
    requires Sound(setup, good, fit, s) && Safe(setup, good, fit, t) && Labelled(t) && t.pending == []
    requires t.core.log <= s.t.core.log && s.t.core.durable <= |t.core.log| == t.core.durable
    ensures var after := Restarted(s, t, extraEvents);
            && (KeepsAll(s, t, extraEvents) ==> Sound(setup, good, fit, after))
            && (!KeepsAll(s, t, extraEvents) ==> !Mirrors(setup, after))
  {
    var after, log := Restarted(s, t, extraEvents), t.core.log;
    PrefixFromTopic(setup, s.t.core.log, s.offsets, |log|);
    assert log == s.t.core.log[..|log|];
    RightStays(setup, log, after.offsets, |log|, s.t.core.log, s.offsets, s.t.core.durable, s.jobs);
    assert after.outbox <= Concat(s.jobs);
    KeptMirrors(setup, log, after.offsets, s.jobs, after.outbox);
  }

  // ---- Runs ----

  ghost predicate AlwaysMirrors<B(!new), S(!new), V>(setup: Setup<B, S, V>, steps: seq<Step>) {
    && (steps != [] ==> AlwaysMirrors(setup, steps[..|steps| - 1]))
    && (After(setup, steps).running ==> Mirrors(setup, After(setup, steps)))
  }

  ghost predicate AlwaysWhole<B(!new), S(!new), V>(setup: Setup<B, S, V>, steps: seq<Step>) {
    steps != [] ==>
      var n := |steps| - 1;
      AlwaysWhole(setup, steps[..n]) && Whole(After(setup, steps[..n]), steps[n])
  }

  lemma BeganIsSound<B(!new), S(!new), V>(setup: Setup<B, S, V>, good: B -> bool, fit: PbOrder -> bool)
    requires Laws(setup, good, fit)
    ensures Sound(setup, good, fit, Began(setup))
  {
    assert Safe(setup, good, fit, Began(setup).t) by {
      assert Shown(0);
      E.EveryRunIsSane(setup.env, setup.registered, good, fit, []);
    }
  }

  lemma StepKeeps<B(!new), S(!new), V>(setup: Setup<B, S, V>, good: B -> bool, fit: PbOrder -> bool,
                                       s: Service<B, S, V>, step: Step)
    requires Laws(setup, good, fit) && Sound(setup, good, fit, s)
    ensures if Whole(s, step) then Sound(setup, good, fit, Next(setup, s, step))
            else Next(setup, s, step).running && !Mirrors(setup, Next(setup, s, step))
  {
    if step.Restart? {
      RestartKeepsExactlyWhen(setup, good, fit, s, step.extra, step.extraEvents);
    } else {
      OtherStepKeeps(setup, good, fit, s, step);
    }
  }

  lemma OtherStepKeeps<B(!new), S(!new), V>(setup: Setup<B, S, V>, good: B -> bool, fit: PbOrder -> bool,
                                            s: Service<B, S, V>, step: Step)
    requires Laws(setup, good, fit) && Sound(setup, good, fit, s) && !step.Restart?
    ensures Sound(setup, good, fit, Next(setup, s, step))
  {
    match step
    case One(fate, sent) =>
      if s.running && !setup.env.grouped && s.position < |setup.topic| { OneKeeps(setup, good, fit, s, fate, sent); }
    case Many(n, fates, syncOk, sent) =>
      if s.running && setup.env.grouped && n > 0 && s.position + n <= |setup.topic| {
        ManyKeeps(setup, good, fit, s, n, fates, syncOk, sent);
      }
    case Snapshot => if s.running { SnapshotKeeps(setup, good, fit, s); }
    case MarkReadOnly(symbol) => if s.running { MarkKeeps(setup, good, fit, s, symbol); }
    case Rewind(to) =>
  }

  // Over every run, whatever the appends, syncs, commits and crashes do, with redeliveries and
  // restarts: whenever the loop runs, memory has performed the log and the outbox holds exactly the
  // events that the log sends out, each once and in order, if and only if every restart finds the
  // log without commands whose events were not built, the outbox with all events that were, and only
  // cancellations behind the snapshot.
  lemma {:induction false} MirrorsExactlyWhen<B(!new), S(!new), V>(
      setup: Setup<B, S, V>, good: B -> bool, fit: PbOrder -> bool, steps: seq<Step>)
    requires Laws(setup, good, fit)
    ensures AlwaysMirrors(setup, steps) <==> AlwaysWhole(setup, steps)
    ensures AlwaysWhole(setup, steps) ==> Sound(setup, good, fit, After(setup, steps))
  {
    if steps == [] {
      BeganIsSound(setup, good, fit);
    } else {
      var n := |steps| - 1;
      MirrorsExactlyWhen(setup, good, fit, steps[..n]);
      if AlwaysWhole(setup, steps[..n]) { StepKeeps(setup, good, fit, After(setup, steps[..n]), steps[n]); }
    }
    if Sound(setup, good, fit, After(setup, steps)) && After(setup, steps).running {
      RunningMirrors(setup, good, fit, After(setup, steps));
    }
  }

  // So a running service has all of log and outbox synced, nothing staged, and the books that the log
  // makes of the registered ones; a restart right then is whole as to log and outbox.
  lemma RunningServiceIs<B(!new), S(!new), V>(setup: Setup<B, S, V>, good: B -> bool, fit: PbOrder -> bool,
                                              steps: seq<Step>, extra: nat, extraEvents: nat)
    requires Laws(setup, good, fit) && AlwaysWhole(setup, steps) && After(setup, steps).running
    ensures var s := After(setup, steps);
            && s.t.pending == [] && s.t.core.durable == |s.t.core.log| && s.synced == |s.outbox|
            && E.Carried(setup.env.m, setup.registered, s.t.core.log) == Some(s.t.core.mem.live.books)
            && (Whole(s, Restart(extra, extraEvents)) <==>
                NoNewOrders(Tail(s.t.core.log, s.t.core.mem.disk.number)))
  {
    MirrorsExactlyWhen(setup, good, fit, steps);
    var s := After(setup, steps);
    CarriedBooks(setup, good, fit, s.t);
    assert E.Left(s.t.core, extra) == s.t.core.log;
  }

  // ---- No message is left out ----

  // The command at the offset is a new order whose id the log has.
  ghost predicate Known<B, S, V>(setup: Setup<B, S, V>, log: seq<Entry>, at: nat) {
    && at < |setup.topic| && setup.topic[at].command.NewOrder? && setup.topic[at].command.order.Some?
    && setup.topic[at].command.order.value.id in IdsOf(log)
  }

  // Every message below the bound is in the log, has its id there, or was passed over.
  ghost predicate Accounted<B, S, V>(setup: Setup<B, S, V>, log: seq<Entry>, offsets: seq<nat>, passed: set<nat>,
                                     bound: nat) {
    forall at :: 0 <= at < bound ==> at in offsets || at in passed || Known(setup, log, at)
  }

  // For each entry of the log this was so when it was written.
  ghost predicate AllAccounted<B, S, V>(setup: Setup<B, S, V>, log: seq<Entry>, offsets: seq<nat>, passed: set<nat>) {
    && |offsets| == |log|
    && forall j {:trigger offsets[j]} :: 0 <= j < |log| ==>
         Accounted(setup, log[..j], offsets[..j], passed, offsets[j])
  }

  lemma {:induction false} IdsGrow(log: seq<Entry>, more: seq<Entry>)
    requires log <= more
    ensures IdsOf(log) <= IdsOf(more)
    decreases |more|
  {
    if log != more {
      assert log <= more[..|more| - 1];
      IdsGrow(log, more[..|more| - 1]);
    }
  }

  lemma AccountedGrows<B, S, V>(setup: Setup<B, S, V>, log: seq<Entry>, offsets: seq<nat>, passed: set<nat>,
                                more: seq<Entry>, moreOffsets: seq<nat>, morePassed: set<nat>, bound: nat)
    requires Accounted(setup, log, offsets, passed, bound)
    requires log <= more && offsets <= moreOffsets && passed <= morePassed
    ensures Accounted(setup, more, moreOffsets, morePassed, bound)
  {
    IdsGrow(log, more);
  }

  // One message more, which the log takes or not.
  lemma OneMoreAccounted<B, S, V>(setup: Setup<B, S, V>, log: seq<Entry>, offsets: seq<nat>, passed: set<nat>,
                                  more: seq<Entry>, moreOffsets: seq<nat>, morePassed: set<nat>, at: nat)
    requires AllAccounted(setup, log, offsets, passed) && Accounted(setup, log, offsets, passed, at)
    requires passed <= morePassed && log <= more
    requires if |log| < |more| then |more| == |log| + 1 && moreOffsets == offsets + [at]
             else more == log && moreOffsets == offsets
    ensures AllAccounted(setup, more, moreOffsets, morePassed)
    ensures at in moreOffsets || at in morePassed || Known(setup, more, at) ==>
              Accounted(setup, more, moreOffsets, morePassed, at + 1)
  {
    forall j {:trigger moreOffsets[j]} | 0 <= j < |more|
      ensures Accounted(setup, more[..j], moreOffsets[..j], morePassed, moreOffsets[j])
    {
      assert more[..j] == log[..j] && moreOffsets[..j] == offsets[..j];
      AccountedGrows(setup, log[..j], offsets[..j], passed, log[..j], offsets[..j], morePassed, moreOffsets[j]);
      assert log[..|log|] == log && offsets[..|offsets|] == offsets;
    }
    AccountedGrows(setup, log, offsets, passed, more, moreOffsets, morePassed, at);
  }

  // What is passed over without being logged: an id that the log has, or a read-only symbol.
  lemma AnsweredIsAccounted<B(!new), S(!new), V>(setup: Setup<B, S, V>, good: B -> bool, fit: PbOrder -> bool,
                                                 t: E.Tracked<B, S>, at: nat, o: Outcome)
    requires Safe(setup, good, fit, t) && at < |setup.topic|
    requires Checked(t.core.mem, setup.topic[at].command) == Answered(o)
    ensures PassesOver(o) && (at in PassedOver(o, at) || Known(setup, t.core.log, at))
  {
    CarriedBooks(setup, good, fit, t);
  }

  // What holds over all runs, whole or not.
  ghost predicate Tidy<B(!new), S(!new), V>(setup: Setup<B, S, V>, good: B -> bool, fit: PbOrder -> bool,
                                            s: Service<B, S, V>) {
    && Safe(setup, good, fit, s.t) && FromTopic(setup, s.t.core.log, s.offsets)
    && AllAccounted(setup, s.t.core.log, s.offsets, s.passed)
    && (s.running ==> s.t.pending == [] && Accounted(setup, s.t.core.log, s.offsets, s.passed, s.position))
  }

  lemma TakenByReply<B(!new), S(!new)>(env: Env<B, S>, t: E.Tracked<B, S>, c: Command, fate: Fate)
      returns (after: E.Tracked<B, S>)
    requires !env.grouped && t.pending == []
    ensures after == E.AfterTake(env, t, c, fate) && after.pending == []
    ensures after.core.log == t.core.log || after.core.log == t.core.log + [Entry(|t.core.log| + 1, Of(c))]
    ensures match Immediate(env, t.core, c, fate).1
            case Failed(_) => true
            case Replied(o) =>
              if PassesOver(o) then Checked(t.core.mem, c) == Answered(o) else |after.core.log| == |t.core.log| + 1
  {
    after := E.ImmediateGrows(env, t, c, fate);
    assert t.core.log + [] == t.core.log;
  }

  lemma OneIsTidy<B(!new), S(!new), V>(setup: Setup<B, S, V>, good: B -> bool, fit: PbOrder -> bool,
                                       s: Service<B, S, V>, fate: Fate, sent: Sent)
    requires Laws(setup, good, fit) && Tidy(setup, good, fit, s) && s.running && !setup.env.grouped
    requires s.position < |setup.topic|
    ensures Tidy(setup, good, fit, HandleOne(setup, s, fate, sent))
  {
    var at, c := s.position, setup.topic[s.position].command;
    var t := TakenByReply(setup.env, s.t, c, fate);
    TakeIsSafe(setup, good, fit, s.t, at, fate);
    var offsets := if Logs(s.t, t) then s.offsets + [at] else s.offsets;
    MoreFromTopic(setup, s.t.core.log, s.offsets, t.core.log, at);
    var reply := Immediate(setup.env, s.t.core, c, fate).1;
    var passed := s.passed;
    if reply.Replied? && PassesOver(reply.outcome) {
      AnsweredIsAccounted(setup, good, fit, s.t, at, reply.outcome);
      IdsGrow(s.t.core.log, t.core.log);
      passed := s.passed + PassedOver(reply.outcome, at);
    } else if Logs(s.t, t) {
      assert offsets[|s.offsets|] == at;
    }
    OneMoreAccounted(setup, s.t.core.log, s.offsets, s.passed, t.core.log, offsets, passed, at);
  }

  ghost predicate TidyStaged<B(!new), S(!new), V>(setup: Setup<B, S, V>, good: B -> bool, fit: PbOrder -> bool,
                                                  staged: Staged<B, S>, bound: nat) {
    && Safe(setup, good, fit, staged.t) && FromTopic(setup, staged.t.core.log, staged.offsets)
    && AllAccounted(setup, staged.t.core.log, staged.offsets, staged.passed)
    && (staged.ok ==> Accounted(setup, staged.t.core.log, staged.offsets, staged.passed, bound))
  }

  // Staging a message logs it, or answers it at once, or fails.
  lemma StagedByReply<B(!new), S(!new), V>(setup: Setup<B, S, V>, before: Staged<B, S>, at: nat, fate: Fate)
      returns (after: Staged<B, S>)
    requires setup.env.grouped && at < |setup.topic|
    ensures after == StageNext(setup, before, at, fate)
    ensures after.t == E.AfterTake(setup.env, before.t, setup.topic[at].command, fate)
    ensures var log, e := before.t.core.log, Entry(|before.t.core.log| + 1, Of(setup.topic[at].command));
            after.t.core.log == log || after.t.core.log == log + [e]
    ensures after.offsets == if Logs(before.t, after.t) then before.offsets + [at] else before.offsets
    ensures before.passed <= after.passed
    ensures after.ok && !Logs(before.t, after.t) ==>
              var c := setup.topic[at].command;
              && Checked(before.t.core.mem, c).Answered?
              && after.passed == before.passed + PassedOver(Checked(before.t.core.mem, c).outcome, at)
  {
    var t := E.StagedGrows(setup.env, before.t, setup.topic[at].command, fate);
    assert before.t.core.log + [] == before.t.core.log;
    after := StageNext(setup, before, at, fate);
  }

  lemma NextIsTidy<B(!new), S(!new), V>(setup: Setup<B, S, V>, good: B -> bool, fit: PbOrder -> bool,
                                        before: Staged<B, S>, at: nat, fate: Fate) returns (after: Staged<B, S>)
    requires Laws(setup, good, fit) && setup.env.grouped && at < |setup.topic|
    requires TidyStaged(setup, good, fit, before, at)
    ensures after == if before.ok then StageNext(setup, before, at, fate) else before
    ensures TidyStaged(setup, good, fit, after, at + 1)
  {
    if !before.ok { return before; }
    after := StagedByReply(setup, before, at, fate);
    TakeIsSafe(setup, good, fit, before.t, at, fate);
    var log, more := before.t.core.log, after.t.core.log;
    MoreFromTopic(setup, log, before.offsets, more, at);
    if Logs(before.t, after.t) {
      assert after.offsets[|before.offsets|] == at;
    } else if after.ok {
      AnsweredIsAccounted(setup, good, fit, before.t, at, Checked(before.t.core.mem, setup.topic[at].command).outcome);
    }
    OneMoreAccounted(setup, log, before.offsets, before.passed, more, after.offsets, after.passed, at);
  }

  lemma {:induction false} ManyAreTidy<B(!new), S(!new), V>(
      setup: Setup<B, S, V>, good: B -> bool, fit: PbOrder -> bool, s: Service<B, S, V>, n: nat, fates: nat -> Fate)
      returns (staged: Staged<B, S>)
    requires Laws(setup, good, fit) && setup.env.grouped && s.position + n <= |setup.topic|
    requires Tidy(setup, good, fit, s) && s.running
    ensures staged == StageMany(setup, s, n, fates) && TidyStaged(setup, good, fit, staged, s.position + n)
  {
    if n == 0 {
      staged := Staged(s.t, s.offsets, s.passed, true);
    } else {
      var before := ManyAreTidy(setup, good, fit, s, n - 1, fates);
      staged := NextIsTidy(setup, good, fit, before, s.position + (n - 1), fates(n - 1));
    }
  }

  lemma CommitEmpties<B, S>(env: Env<B, S>, t: E.Tracked<B, S>, syncOk: bool)
    ensures E.AfterCommit(env, t, syncOk).core.log == t.core.log
    ensures Commit(env, t.core, t.pending, syncOk).1.Some? ==> E.AfterCommit(env, t, syncOk).pending == []
  {
  }

  lemma BatchIsTidy<B(!new), S(!new), V>(setup: Setup<B, S, V>, good: B -> bool, fit: PbOrder -> bool,
                                         s: Service<B, S, V>, n: nat, fates: nat -> Fate, syncOk: bool, sent: Sent)
    requires Laws(setup, good, fit) && Tidy(setup, good, fit, s) && s.running && setup.env.grouped
    requires s.position + n <= |setup.topic|
    ensures Tidy(setup, good, fit, HandleMany(setup, s, n, fates, syncOk, sent))
  {
    var staged := ManyAreTidy(setup, good, fit, s, n, fates);
    CommitEmpties(setup.env, staged.t, syncOk);
    CommitIsSafe(setup, good, fit, staged.t, syncOk);
  }

  lemma {:induction false} StartsBehindOne(offsets: seq<nat>)
    ensures StartAt(offsets) == 0 || exists j :: 0 <= j < |offsets| && StartAt(offsets) == offsets[j] + 1
  {
    if offsets != [] {
      var n := |offsets| - 1;
      StartsBehindOne(offsets[..n]);
      if StartAt(offsets) == StartAt(offsets[..n]) && StartAt(offsets) != 0 {
        var j :| 0 <= j < n && StartAt(offsets[..n]) == offsets[..n][j] + 1;
        assert offsets[j] == offsets[..n][j];
      } else if StartAt(offsets) != 0 {
        assert StartAt(offsets) == offsets[n] + 1;
      }
    }
  }

  // A loop that takes one message goes on behind it exactly when the engine replies and, unless that passes
  // the message over, all its events reach the outbox and are synced; otherwise it stops where it is.
  lemma MovesOnExactlyWhen<B(!new), S(!new), V>(setup: Setup<B, S, V>, s: Service<B, S, V>, fate: Fate, sent: Sent)
    requires s.running && !setup.env.grouped && s.position < |setup.topic|
    ensures var after, msg := Next(setup, s, One(fate, sent)), setup.topic[s.position];
            var reply := Immediate(setup.env, s.t.core, msg.command, fate).1;
            && after.position == (if after.running then s.position + 1 else s.position)
            && (after.running <==>
                  reply.Replied? && (reply.outcome.duplicate || reply.outcome.readOnly
                                     || (sent.syncOk && sent.reached >= |Concat(after.jobs[|s.jobs|..])|)))
            && s.jobs <= after.jobs
  {
    var after := Next(setup, s, One(fate, sent));
    assert after.jobs[|s.jobs|..] == [] || after.jobs[|s.jobs|..] == [after.jobs[|s.jobs|]];
  }

  // A batch moves the loop on by all its messages, or stops it where it is.
  lemma BatchMovesOn<B(!new), S(!new), V>(setup: Setup<B, S, V>, s: Service<B, S, V>, n: nat, fates: nat -> Fate,
                                          syncOk: bool, sent: Sent)
    requires s.running && setup.env.grouped && 0 < n && s.position + n <= |setup.topic|
    ensures var after := Next(setup, s, Many(n, fates, syncOk, sent));
            && after.position == (if after.running then s.position + n else s.position)
            && s.jobs <= after.jobs
            && (after.running ==> after.synced == |after.outbox| && syncOk)
  {
  }

  // It starts at the beginning if the log has no offset above 0, and right behind the largest otherwise.
  lemma {:induction false} StartsBehindLargest(offsets: seq<nat>)
    ensures (forall j :: 0 <= j < |offsets| ==> offsets[j] == 0) <==> StartAt(offsets) == 0
    ensures StartAt(offsets) != 0 ==>
              && (exists j :: 0 <= j < |offsets| && StartAt(offsets) == offsets[j] + 1)
              && (forall j :: 0 <= j < |offsets| ==> offsets[j] < StartAt(offsets))
  {
    StartsBehindOne(offsets);
    if offsets != [] {
      var n := |offsets| - 1;
      StartsBehindLargest(offsets[..n]);
      assert forall j :: 0 <= j < n ==> offsets[..n][j] == offsets[j];
    }
  }

  lemma PrefixAccounted<B, S, V>(setup: Setup<B, S, V>, log: seq<Entry>, offsets: seq<nat>, passed: set<nat>, n: nat)
    requires AllAccounted(setup, log, offsets, passed) && n <= |log|
    ensures AllAccounted(setup, log[..n], offsets[..n], passed)
    ensures Accounted(setup, log[..n], offsets[..n], passed, StartAt(offsets[..n]))
  {
    var less, lessOffsets := log[..n], offsets[..n];
    forall j {:trigger lessOffsets[j]} | 0 <= j < n
      ensures Accounted(setup, less[..j], lessOffsets[..j], passed, lessOffsets[j])
    {
      assert less[..j] == log[..j] && lessOffsets[..j] == offsets[..j] && lessOffsets[j] == offsets[j];
    }
    StartsBehindOne(lessOffsets);
    if StartAt(lessOffsets) != 0 {
      var j :| 0 <= j < |lessOffsets| && StartAt(lessOffsets) == lessOffsets[j] + 1;
      AccountedGrows(setup, less[..j], lessOffsets[..j], passed, less, lessOffsets, passed, lessOffsets[j]);
    }
  }

  lemma RestartIsTidy<B(!new), S(!new), V>(setup: Setup<B, S, V>, good: B -> bool, fit: PbOrder -> bool,
                                           s: Service<B, S, V>, extra: nat, extraEvents: nat)
    requires Laws(setup, good, fit) && Tidy(setup, good, fit, s)
    ensures Tidy(setup, good, fit, Next(setup, s, Restart(extra, extraEvents)))
  {
    var t := CrashShortens(setup, good, fit, s.t, extra);
    RestartedIsTidy(setup, good, fit, s, t, extraEvents);
    assert Next(setup, s, Restart(extra, extraEvents)) == Restarted(s, t, extraEvents);
  }

  lemma CrashShortens<B(!new), S(!new), V>(setup: Setup<B, S, V>, good: B -> bool, fit: PbOrder -> bool,
                                           t: E.Tracked<B, S>, extra: nat) returns (after: E.Tracked<B, S>)
    requires Laws(setup, good, fit) && Safe(setup, good, fit, t)
    ensures E.AfterCrash(setup.env, setup.registered, t, extra) == Some(after) && Safe(setup, good, fit, after)
    ensures after.core.log <= t.core.log && after.pending == []
  {
    after := CrashIsSafe(setup, good, fit, t, extra);
    CarriedBooks(setup, good, fit, t);
    CrashIs(setup.env, setup.registered, t, extra, after);
    E.LeftIsPrefix(t.core, extra);
  }

  lemma RestartedIsTidy<B(!new), S(!new), V>(setup: Setup<B, S, V>, good: B -> bool, fit: PbOrder -> bool,
                                             s: Service<B, S, V>, t: E.Tracked<B, S>, extraEvents: nat)
    requires Tidy(setup, good, fit, s) && Safe(setup, good, fit, t) && t.pending == []
    requires t.core.log <= s.t.core.log
    ensures Tidy(setup, good, fit, Restarted(s, t, extraEvents))
  {
    var n := |t.core.log|;
    assert t.core.log == s.t.core.log[..n];
    PrefixAccounted(setup, s.t.core.log, s.offsets, s.passed, n);
    PrefixFromTopic(setup, s.t.core.log, s.offsets, n);
  }

  lemma StepIsTidy<B(!new), S(!new), V>(setup: Setup<B, S, V>, good: B -> bool, fit: PbOrder -> bool,
                                        s: Service<B, S, V>, step: Step)
    requires Laws(setup, good, fit) && Tidy(setup, good, fit, s)
    ensures Tidy(setup, good, fit, Next(setup, s, step))
  {
    match step
    case One(fate, sent) =>
      if s.running && !setup.env.grouped && s.position < |setup.topic| { OneIsTidy(setup, good, fit, s, fate, sent); }
    case Many(n, fates, syncOk, sent) =>
      if s.running && setup.env.grouped && n > 0 && s.position + n <= |setup.topic| {
        BatchIsTidy(setup, good, fit, s, n, fates, syncOk, sent);
      }
    case Snapshot =>
      assert Safe(setup, good, fit, E.AfterSnapshot(setup.env, s.t)) by {
        assert Shown(0);
        E.AfterKeepsSane(setup.env, setup.registered, good, fit, s.t, E.Snapshot);
      }
    case MarkReadOnly(symbol) =>
      assert Safe(setup, good, fit, E.AfterMark(s.t, symbol)) by {
        assert Shown(0);
        E.AfterKeepsSane(setup.env, setup.registered, good, fit, s.t, E.MarkReadOnly(symbol));
      }
    case Rewind(to) =>
    case Restart(extra, extraEvents) => RestartIsTidy(setup, good, fit, s, extra, extraEvents);
  }

  lemma {:induction false} EveryRunIsTidy<B(!new), S(!new), V>(
      setup: Setup<B, S, V>, good: B -> bool, fit: PbOrder -> bool, steps: seq<Step>)
    requires Laws(setup, good, fit)
    ensures Tidy(setup, good, fit, After(setup, steps))
  {
    if steps == [] {
      BeganIsSound(setup, good, fit);
    } else {
      EveryRunIsTidy(setup, good, fit, steps[..|steps| - 1]);
      StepIsTidy(setup, good, fit, After(setup, steps[..|steps| - 1]), steps[|steps| - 1]);
    }
  }

  // Over every run, wherever the loop goes on, no message before that place is left out: each is in
  // the log, or is a new order whose id the log has, or was passed over because its symbol was
  // read-only.  And the log holds nothing but messages.
  lemma NothingIsLeftOut<B(!new), S(!new), V>(setup: Setup<B, S, V>, good: B -> bool, fit: PbOrder -> bool,
                                              steps: seq<Step>)
    requires Laws(setup, good, fit)
    ensures var s := After(setup, steps);
            && FromTopic(setup, s.t.core.log, s.offsets)
            && (s.running ==> Accounted(setup, s.t.core.log, s.offsets, s.passed, s.position))
  {
    EveryRunIsTidy(setup, good, fit, steps);
  }
}
