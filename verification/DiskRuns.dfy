// The engine on its disk: processes that die while the machine stays up, and crashes that leave any
// bytes of the log behind the synced ones.
module DiskRuns {
  import opened Wrappers
  import opened Convert
  import opened Recovery
  import opened GroupCommit
  import E = EngineRuns
  import L = LogRuns
  import S = SegmentedLog

  // ---- A process dies ----

  // A process that dies finds all that it wrote when it starts again, synced or not; it takes all of
  // it for durable, and the disk may still lose what was not synced.
  datatype Step = Engine(step: E.Step) | Died

  function AfterDeath<B(==), S>(env: Env<B, S>, registered: map<string, B>, t: E.Tracked<B, S>):
    Option<E.Tracked<B, S>>
  {
    match E.AfterCrash(env, registered, t, |t.core.log|)
    case None => None
    case Some(a) => Some(a.(core := a.core.(durable := t.core.durable)))
  }

  function Next<B(==), S>(env: Env<B, S>, registered: map<string, B>, t: E.Tracked<B, S>, step: Step):
    Option<E.Tracked<B, S>>
  {
    match step
    case Engine(s) => E.After(env, registered, t, s)
    case Died => AfterDeath(env, registered, t)
  }

  function Run<B(==), S>(env: Env<B, S>, registered: map<string, B>, steps: seq<Step>): Option<E.Tracked<B, S>> {
    if steps == [] then Some(E.Began(registered))
    else
      match Run(env, registered, steps[..|steps| - 1])
      case None => None
      case Some(t) => Next(env, registered, t, steps[|steps| - 1])
  }

  // What memory has performed is durable.
  ghost predicate Firm<B, S>(t: E.Tracked<B, S>) {
    && t.core.mem.recovered <= t.core.durable <= |t.core.log|
    && forall e :: e in t.marks.applied ==> 1 <= e.walSeq <= t.core.durable && t.core.log[e.walSeq - 1] == e
  }

  ghost predicate AlwaysFirm<B(!new), S(!new)>(env: Env<B, S>, registered: map<string, B>, steps: seq<Step>) {
    && (steps != [] ==> AlwaysFirm(env, registered, steps[..|steps| - 1]))
    && Run(env, registered, steps).Some? && Firm(Run(env, registered, steps).value)
  }

  // No process dies while some of the log is not synced.
  ghost predicate DiesSynced<B(!new), S(!new)>(env: Env<B, S>, registered: map<string, B>, steps: seq<Step>) {
    steps != [] ==>
      var n := |steps| - 1;
      && DiesSynced(env, registered, steps[..n])
      && (steps[n].Died? && Run(env, registered, steps[..n]).Some? ==>
            var core := Run(env, registered, steps[..n]).value.core; core.durable == |core.log|)
  }

  ghost predicate Fits(fit: PbOrder -> bool, steps: seq<Step>) {
    forall i :: 0 <= i < |steps| && steps[i].Engine? ==> E.FitStep(fit, steps[i].step)
  }

  lemma DeathIsFirmExactlyWhen<B(!new), S(!new)>(
      env: Env<B, S>, registered: map<string, B>, good: B -> bool, fit: PbOrder -> bool, t: E.Tracked<B, S>)
    requires Lawful(env.m) && E.Storing(env.m, good, fit) && E.Sane(env, registered, good, fit, t)
    ensures AfterDeath(env, registered, t).Some?
    ensures var after := AfterDeath(env, registered, t).value;
            if t.core.durable == |t.core.log| then E.Sane(env, registered, good, fit, after) else !Firm(after)
  {
    E.CrashKeepsSane(env, registered, good, fit, t, |t.core.log|);
    E.LeftIsPrefix(t.core, |t.core.log|);
    var a := E.AfterCrash(env, registered, t, |t.core.log|).value;
    assert a.core.log == t.core.log && a.core.mem.recovered == |t.core.log| == a.core.durable;
  }

  // Over every run, with processes that die at any moment beside crashes of the machine: what memory
  // has performed is durable at every point exactly when no process dies with unsynced entries.
  lemma {:induction false} FirmExactlyWhen<B(!new), S(!new)>(
      env: Env<B, S>, registered: map<string, B>, good: B -> bool, fit: PbOrder -> bool, steps: seq<Step>)
    requires Lawful(env.m) && E.Storing(env.m, good, fit) && E.AllOf(good, registered) && Fits(fit, steps)
    ensures AlwaysFirm(env, registered, steps) <==> DiesSynced(env, registered, steps)
    ensures DiesSynced(env, registered, steps) ==>
              Run(env, registered, steps).Some?
              && E.Sane(env, registered, good, fit, Run(env, registered, steps).value)
  {
    if steps == [] {
      E.EveryRunIsSane(env, registered, good, fit, []);
    } else {
      var n := |steps| - 1;
      assert forall i :: 0 <= i < n ==> steps[..n][i] == steps[i];
      FirmExactlyWhen(env, registered, good, fit, steps[..n]);
      if DiesSynced(env, registered, steps[..n]) {
        var t := Run(env, registered, steps[..n]).value;
        match steps[n]
        case Engine(s) => E.AfterKeepsSane(env, registered, good, fit, t, s);
        case Died => DeathIsFirmExactlyWhen(env, registered, good, fit, t);
      }
    }
    if DiesSynced(env, registered, steps) { SaneIsFirm(env, registered, good, fit, Run(env, registered, steps).value); }
  }

  lemma SaneIsFirm<B, S>(env: Env<B, S>, registered: map<string, B>, good: B -> bool, fit: PbOrder -> bool,
                         t: E.Tracked<B, S>)
    requires E.Sane(env, registered, good, fit, t)
    ensures Firm(t)
  {
  }
}
