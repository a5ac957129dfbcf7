/** The last stage of bootstrap: finalize() moves to the configured
    runlevel, runs the start scripts and the late hooks, and starts the
    TTYs. */
module Finalization {
  import opened Events
  import opened Context

  /** run_parts() of the configured directory, when one is set, is a
      directory, and the boot is not a rescue boot. */
  function StartScripts(o: Options, m: Machine): seq<Event>
  {
    if o.runparts.Some? && m.isDir(o.runparts.value) && !o.rescue then [RunParts(o.runparts.value)] else []
  }

  /** rc.local, when it is executable and the boot is not a rescue boot. */
  function RcLocalScript(o: Options, m: Machine): seq<Event>
  {
    if m.rcLocalExecutable && !o.rescue then [RcLocal] else []
  }

  /** The runlevel change up to the SVC_UP hook and the step after it. */
  function ServicesUp(level: int): seq<Event>
  {
    [SwitchRunlevel(level), PruneBootstrap, FireHook(SvcUp), StepAll]
  }

  /** The SYSTEM_UP hook, the step after it, silencing the log and the TTYs. */
  const SystemUpTail: seq<Event> :=
    [FireHook(SystemUp), StepAll, GoSilent, TtyStart]

  /** The calls of finalize() given its optional start scripts `a`, the
      configured runlevel and its optional rc.local `c`. */
  function FinalizeWith(a: seq<Event>, level: int, c: seq<Event>): seq<Event>
  {
    a + ServicesUp(level) + c + SystemUpTail
  }

  /** finalize(). */
  function Finalize(o: Options, m: Machine): seq<Event>
  {
    FinalizeWith(StartScripts(o, m), o.cfglevel, RcLocalScript(o, m))
  }

  /** The start scripts run exactly when a run-parts directory is set, is a
      directory, and the boot is not a rescue boot. */
  lemma FinalizeRunParts(o: Options, m: Machine, dir: string)
    ensures RunParts(dir) in Finalize(o, m) <==>
      o.runparts == Some(dir) && m.isDir(dir) && !o.rescue
  {
    var rest := ServicesUp(o.cfglevel) + RcLocalScript(o, m) + SystemUpTail;
    assert Finalize(o, m) == StartScripts(o, m) + rest;
    assert RunParts(dir) !in rest;
  }

  /** rc.local runs exactly when it is executable and the boot is not a
      rescue boot. */
  lemma FinalizeRcLocal(o: Options, m: Machine)
    ensures RcLocal in Finalize(o, m) <==> m.rcLocalExecutable && !o.rescue
  {
    var head := StartScripts(o, m) + ServicesUp(o.cfglevel);
    assert Finalize(o, m) == head + RcLocalScript(o, m) + SystemUpTail;
    assert RcLocal !in head;
  }

  /** A rescue boot runs neither the start scripts nor rc.local. */
  lemma FinalizeRescue(o: Options, m: Machine)
    requires o.rescue
    ensures forall k :: 0 <= k < |Finalize(o, m)| ==>
      !Finalize(o, m)[k].RunParts? && Finalize(o, m)[k] != RcLocal
  {
    assert Finalize(o, m) == ServicesUp(o.cfglevel) + SystemUpTail;
  }

  /** The runlevel switch fires SVC_UP and no other hook. */
  lemma ServicesUpHooks(level: int)
    ensures Hooks(ServicesUp(level)) == [SvcUp]
  {
    var b := ServicesUp(level);
    NoHooks(b[..2]);
    NoHooks(b[3..]);
    HooksConcat(b[..2], b[2..]);
    HooksConcat(b[2..3], b[3..]);
    assert b == b[..2] + (b[2..3] + b[3..]);
  }

  /** The tail of finalize() fires SYSTEM_UP and no other hook. */
  lemma SystemUpTailHooks()
    ensures Hooks(SystemUpTail) == [SystemUp]
  {
    var d := SystemUpTail;
    NoHooks(d[1..]);
    assert d == [d[0]] + d[1..];
    HooksConcat([d[0]], d[1..]);
  }

  /** finalize() fires SVC_UP and then SYSTEM_UP, and no other hook. */
  lemma FinalizeHooks(o: Options, m: Machine)
    ensures Hooks(Finalize(o, m)) == [SvcUp, SystemUp]
  {
    var a := StartScripts(o, m);
    var b := ServicesUp(o.cfglevel);
    var c := RcLocalScript(o, m);
    HooksConcat(a + b + c, SystemUpTail);
    HooksConcat(a + b, c);
    HooksConcat(a, b);
    NoHooks(a);
    NoHooks(c);
    ServicesUpHooks(o.cfglevel);
    SystemUpTailHooks();
  }

  /** finalize() changes to the configured runlevel exactly once. */
  lemma FinalizeRunlevelOnce(o: Options, m: Machine)
    ensures Count(Finalize(o, m), SwitchRunlevel(o.cfglevel)) == 1
  {
    var e := SwitchRunlevel(o.cfglevel);
    CountJoin(StartScripts(o, m), ServicesUp(o.cfglevel), RcLocalScript(o, m), SystemUpTail, e);
    CountAbsent(StartScripts(o, m), e);
    CountAbsent(RcLocalScript(o, m), e);
    CountFour(e, PruneBootstrap, FireHook(SvcUp), StepAll, e);
    CountFour(FireHook(SystemUp), StepAll, GoSilent, TtyStart, e);
  }

  /** finalize() starts the TTYs exactly once. */
  lemma FinalizeTtysOnce(o: Options, m: Machine)
    ensures Count(Finalize(o, m), TtyStart) == 1
  {
    CountJoin(StartScripts(o, m), ServicesUp(o.cfglevel), RcLocalScript(o, m), SystemUpTail, TtyStart);
    CountAbsent(StartScripts(o, m), TtyStart);
    CountAbsent(RcLocalScript(o, m), TtyStart);
    CountFour(SwitchRunlevel(o.cfglevel), PruneBootstrap, FireHook(SvcUp), StepAll, TtyStart);
    CountFour(FireHook(SystemUp), StepAll, GoSilent, TtyStart, TtyStart);
  }

  /** finalize() steps all services twice: after SVC_UP and after SYSTEM_UP. */
  lemma FinalizeSteps(o: Options, m: Machine)
    ensures Count(Finalize(o, m), StepAll) == 2
  {
    CountJoin(StartScripts(o, m), ServicesUp(o.cfglevel), RcLocalScript(o, m), SystemUpTail, StepAll);
    CountAbsent(StartScripts(o, m), StepAll);
    CountAbsent(RcLocalScript(o, m), StepAll);
    CountFour(SwitchRunlevel(o.cfglevel), PruneBootstrap, FireHook(SvcUp), StepAll, StepAll);
    CountFour(FireHook(SystemUp), StepAll, GoSilent, TtyStart, StepAll);
  }

  /** finalize() neither asks service_completed() nor reschedules anything. */
  lemma FinalizeNoGate(o: Options, m: Machine)
    ensures QueryCompleted !in Finalize(o, m) && Resubmit !in Finalize(o, m)
  {
  }

  /** finalize() runs its steps in order: the start scripts before the
      runlevel change, which precedes pruning the bootstrap-only services,
      which precedes SVC_UP. */
  lemma FinalizeOrder(o: Options, m: Machine)
    ensures o.runparts.Some? && m.isDir(o.runparts.value) && !o.rescue ==>
      Before(Finalize(o, m), RunParts(o.runparts.value), SwitchRunlevel(o.cfglevel))
    ensures Before(Finalize(o, m), SwitchRunlevel(o.cfglevel), PruneBootstrap)
    ensures Before(Finalize(o, m), PruneBootstrap, FireHook(SvcUp))
  {
    var f := Finalize(o, m);
    var n := |StartScripts(o, m)|;
    assert f[n] == SwitchRunlevel(o.cfglevel) && f[n + 1] == PruneBootstrap && f[n + 2] == FireHook(SvcUp);
    if n != 0 {
      assert f[0] == RunParts(o.runparts.value);
    }
  }

  /** rc.local runs after SVC_UP and before SYSTEM_UP, and the last two
      calls of finalize() silence the log and start the TTYs. */
  lemma FinalizeTail(o: Options, m: Machine)
    ensures m.rcLocalExecutable && !o.rescue ==>
      Before(Finalize(o, m), FireHook(SvcUp), RcLocal) && Before(Finalize(o, m), RcLocal, FireHook(SystemUp))
    ensures Finalize(o, m)[|Finalize(o, m)| - 2] == GoSilent
    ensures Finalize(o, m)[|Finalize(o, m)| - 1] == TtyStart
  {
    var f := Finalize(o, m);
    var n := |StartScripts(o, m)|;
    if m.rcLocalExecutable && !o.rescue {
      assert f[n + 2] == FireHook(SvcUp) && f[n + 4] == RcLocal && f[n + 5] == FireHook(SystemUp);
    }
  }

  /** Each hook of finalize() is followed at once by a step of all
      services. */
  lemma FinalizeStepsFollowHooks(o: Options, m: Machine)
    ensures forall i :: 0 <= i < |Finalize(o, m)| - 1 && Finalize(o, m)[i].FireHook? ==>
      Finalize(o, m)[i + 1] == StepAll
  {
    StepsAfterHooks(StartScripts(o, m), o.cfglevel, RcLocalScript(o, m));
  }

  /** rc.local runs right after the step that follows SVC_UP and right
      before SYSTEM_UP, whose step opens the last four calls. */
  lemma FinalizeRcLocalPlace(o: Options, m: Machine)
    ensures forall i :: 0 <= i < |Finalize(o, m)| && Finalize(o, m)[i] == RcLocal ==>
      0 < i < |Finalize(o, m)| - 1 && Finalize(o, m)[i - 1] == StepAll && Finalize(o, m)[i + 1] == FireHook(SystemUp)
    ensures Finalize(o, m)[|Finalize(o, m)| - 4] == FireHook(SystemUp)
    ensures Finalize(o, m)[|Finalize(o, m)| - 3] == StepAll
  {
    RcLocalBetween(StartScripts(o, m), o.cfglevel, RcLocalScript(o, m));
  }

  lemma StepsAfterHooks(a: seq<Event>, level: int, c: seq<Event>)
    requires a == [] || (|a| == 1 && a[0].RunParts?)
    requires c == [] || c == [RcLocal]
    ensures var f := FinalizeWith(a, level, c);
      forall i :: 0 <= i < |f| - 1 && f[i].FireHook? ==> f[i + 1] == StepAll
  {
    var f := FinalizeWith(a, level, c);
    var n := |a|;
    forall i | 0 <= i < |f| - 1 && f[i].FireHook?
      ensures f[i + 1] == StepAll
    {
      if i < n + 4 {
        assert f[n + 2] == FireHook(SvcUp) && f[n + 3] == StepAll;
        assert i == n + 2;
      } else {
        assert f[|f| - 4] == FireHook(SystemUp) && f[|f| - 3] == StepAll;
        assert i == |f| - 4;
      }
    }
  }

  lemma RcLocalBetween(a: seq<Event>, level: int, c: seq<Event>)
    requires a == [] || (|a| == 1 && a[0].RunParts?)
    requires c == [] || c == [RcLocal]
    ensures var f := FinalizeWith(a, level, c);
      (forall i :: 0 <= i < |f| && f[i] == RcLocal ==>
        0 < i < |f| - 1 && f[i - 1] == StepAll && f[i + 1] == FireHook(SystemUp))
      && f[|f| - 4] == FireHook(SystemUp) && f[|f| - 3] == StepAll
  {
    var f := FinalizeWith(a, level, c);
    var n := |a|;
    assert f[|f| - 4] == FireHook(SystemUp) && f[|f| - 3] == StepAll;
    forall i | 0 <= i < |f| && f[i] == RcLocal
      ensures 0 < i < |f| - 1 && f[i - 1] == StepAll && f[i + 1] == FireHook(SystemUp)
    {
      assert i == n + 4 && c == [RcLocal];
    }
  }
}
