/** The boot sequence of finit as PID 1: main() brings the system up to
    the point where the event loop takes over, and the two work items it
    schedules then start the service state machine and, once the bootstrap
    tasks are done or the wait is over, finalize the boot. */
module Sequencer {
  import opened Events
  import opened Context
  import opened Filesystems
  import opened CompletionGate
  import opened Finalization

  /** The delay in milliseconds of the finalize work item. */
  const FinalDelay: nat := 1000

  /** banner(): the BANNER hook always runs; the heading is printed only
      when the log is not silent. */
  function BannerShow(silent: bool): seq<Event>
  {
    [FireHook(Banner)] + (if silent then [] else [PrintBanner])
  }

  /** main() up to loading the plugins: a sane environment, the screen
      unless rescue or debug mode, then the plugins. */
  function Prologue(o: Options): seq<Event>
  {
    [SetEnv("PATH"), SetEnv("SHELL"), ChangeDir("/"), Umask(0)]
    + (if !o.rescue && !o.debug then [ScreenInit] else [])
    + [PluginInit]
  }

  /** Signals ignored and control groups set up before the filesystems. */
  const EarlySetup: seq<Event> :=
    [SigInit, CgroupInit]

  /** Configuration and conditions, with the one-shot conditions of the
      hooks that ran before the condition system existed. */
  const CondSetup: seq<Event> :=
    [ConfInit, CondInit, SetOneshot(Banner), SetOneshot(RootfsUp), SigSetup]

  /** After BASEFS_UP: watchers, the API, the final umask, and the two
      work items, the state machine first. */
  const StartLoop: seq<Event> :=
    [ConfMonitor, ApiInit, Umask(Umask022), Schedule(Crank, 0), Schedule(Final, FinalDelay)]

  /** Everything main() does before fs_init(). */
  function BeforeFs(o: Options): seq<Event>
  {
    Prologue(o) + BannerShow(o.silent) + EarlySetup
  }

  /** Everything main() does after fs_init(), up to entering the event loop. */
  const AfterFs: seq<Event> :=
    CondSetup + [FireHook(BasefsUp)] + StartLoop

  /** main() for PID 1, up to entering the event loop. */
  function Main(o: Options, m: Machine): seq<Event>
  {
    BeforeFs(o) + FsInit(m, o.rescue) + AfterFs
  }

  /** crank_worker(). */
  const CrankWorker: seq<Event> :=
    [SmInit, SmStep]

  /** The whole boot: main(), then the event loop running the crank work
      item (no delay) before the final one (1000 ms), which runs
      final_worker() until it finalizes. */
  function Boot(o: Options, m: Machine): seq<Event>
  {
    Main(o, m) + CrankWorker + Gate(m.completed, Finalize(o, m))
  }

  /** banner() fires BANNER first and prints the heading exactly when the
      log is not silent. */
  lemma BannerBehaviour(silent: bool)
    ensures BannerShow(silent)[0] == FireHook(Banner)
    ensures Hooks(BannerShow(silent)) == [Banner]
    ensures PrintBanner in BannerShow(silent) <==> !silent
  {
    var t: seq<Event> := if silent then [] else [PrintBanner];
    NoHooks(t);
    HooksConcat([FireHook(Banner)], t);
    assert [FireHook(Banner)][1..] == [];
  }

  /** Every event of `fs` is one fs_init() can make. */
  predicate FsPhase(fs: seq<Event>)
  {
    forall k :: 0 <= k < |fs| ==> FsPhaseEvent(fs[k])
  }

  lemma ScreenWith(o: Options, fs: seq<Event>)
    requires FsPhase(fs)
    ensures ScreenInit in BeforeFs(o) + fs + AfterFs <==> !o.rescue && !o.debug
  {
    assert ScreenInit !in fs by {
      assert forall k :: 0 <= k < |fs| ==> FsPhaseEvent(fs[k]);
    }
    assert ScreenInit in BeforeFs(o) <==> ScreenInit in Prologue(o);
  }

  /** The screen is set up exactly when the boot is neither a rescue nor a
      debug boot. */
  lemma MainScreen(o: Options, m: Machine)
    ensures ScreenInit in Main(o, m) <==> !o.rescue && !o.debug
  {
    FsInitEvents(m, o.rescue);
    ScreenWith(o, FsInit(m, o.rescue));
  }

  lemma BeforeFsHooks(o: Options)
    ensures Hooks(BeforeFs(o)) == [Banner]
  {
    BannerBehaviour(o.silent);
    NoHooks(Prologue(o));
    NoHooks(EarlySetup);
    HooksConcat(Prologue(o) + BannerShow(o.silent), EarlySetup);
    HooksConcat(Prologue(o), BannerShow(o.silent));
  }

  lemma AfterFsHooks()
    ensures Hooks(AfterFs) == [BasefsUp]
  {
    NoHooks(CondSetup);
    NoHooks(StartLoop);
    HooksConcat(CondSetup + [FireHook(BasefsUp)], StartLoop);
    HooksConcat(CondSetup, [FireHook(BasefsUp)]);
    assert [FireHook(BasefsUp)][1..] == [];
  }

  /** main() with a filesystem phase firing ROOTFS_UP, the hooks `me` and
      MOUNT_POST fires BANNER first and BASEFS_UP last around them. */
  lemma HooksWith(o: Options, fs: seq<Event>, me: seq<Hook>)
    requires Hooks(fs) == [RootfsUp] + me + [MountPost]
    ensures Hooks(BeforeFs(o) + fs + AfterFs) == [Banner, RootfsUp] + me + [MountPost, BasefsUp]
  {
    BeforeFsHooks(o);
    AfterFsHooks();
    HooksConcat(BeforeFs(o) + fs, AfterFs);
    HooksConcat(BeforeFs(o), fs);
    assert [Banner] + ([RootfsUp] + me + [MountPost]) + [BasefsUp] ==
      [Banner, RootfsUp] + me + [MountPost, BasefsUp];
  }

  /** main() fires BANNER, ROOTFS_UP, MOUNT_ERROR exactly when "mount -na"
      fails, MOUNT_POST and BASEFS_UP, in that order, and no other hook. */
  lemma MainHooks(o: Options, m: Machine)
    ensures Hooks(Main(o, m)) ==
      [Banner, RootfsUp] + (if m.mountExit != 0 then [MountError] else []) + [MountPost, BasefsUp]
  {
    FsInitHooks(m, o.rescue);
    HooksWith(o, FsInit(m, o.rescue), if m.mountExit != 0 then [MountError] else []);
  }

  lemma AfterFsOneshots()
    ensures Oneshots(AfterFs) == [Banner, RootfsUp]
  {
    var c := CondSetup;
    var pair: seq<Event> := [SetOneshot(Banner), SetOneshot(RootfsUp)];
    var rest: seq<Event> := [FireHook(BasefsUp)] + StartLoop;
    assert AfterFs == c[..2] + pair + (c[4..] + rest);
    NoOneshots(c[..2]);
    NoOneshots(c[4..] + rest);
    OneshotsConcat(c[..2] + pair, c[4..] + rest);
    OneshotsConcat(c[..2], pair);
    assert pair[1..] == [SetOneshot(RootfsUp)];
    assert pair[1..][1..] == [];
  }

  lemma OneshotsWith(o: Options, fs: seq<Event>)
    requires FsPhase(fs)
    ensures Oneshots(BeforeFs(o) + fs + AfterFs) == [Banner, RootfsUp]
  {
    NoOneshots(BeforeFs(o));
    NoOneshots(fs);
    AfterFsOneshots();
    OneshotsConcat(BeforeFs(o) + fs, AfterFs);
    OneshotsConcat(BeforeFs(o), fs);
  }

  /** main() sets exactly the one-shot conditions of BANNER and ROOTFS_UP,
      the two hooks that run before the condition system is up, in that
      order. */
  lemma MainOneshots(o: Options, m: Machine)
    ensures Oneshots(Main(o, m)) == [Banner, RootfsUp]
  {
    FsInitEvents(m, o.rescue);
    OneshotsWith(o, FsInit(m, o.rescue));
  }

  lemma AfterFsOrder()
    ensures Before(AfterFs, CondInit, SetOneshot(Banner))
    ensures Before(AfterFs, CondInit, SetOneshot(RootfsUp))
    ensures Before(AfterFs, SetOneshot(Banner), FireHook(BasefsUp))
    ensures Before(AfterFs, SetOneshot(RootfsUp), FireHook(BasefsUp))
  {
    var post := AfterFs;
    assert post[1] == CondInit && post[2] == SetOneshot(Banner) && post[3] == SetOneshot(RootfsUp);
    assert post[5] == FireHook(BasefsUp);
  }

  lemma OneshotOrderAround(pre: seq<Event>, post: seq<Event>)
    requires FireHook(Banner) in pre && FireHook(RootfsUp) in pre
    requires Before(post, CondInit, SetOneshot(Banner))
    requires Before(post, CondInit, SetOneshot(RootfsUp))
    requires Before(post, SetOneshot(Banner), FireHook(BasefsUp))
    requires Before(post, SetOneshot(RootfsUp), FireHook(BasefsUp))
    ensures Before(pre + post, CondInit, SetOneshot(Banner))
    ensures Before(pre + post, CondInit, SetOneshot(RootfsUp))
    ensures Before(pre + post, SetOneshot(Banner), FireHook(BasefsUp))
    ensures Before(pre + post, SetOneshot(RootfsUp), FireHook(BasefsUp))
    ensures Before(pre + post, FireHook(Banner), SetOneshot(Banner))
    ensures Before(pre + post, FireHook(RootfsUp), SetOneshot(RootfsUp))
  {
    BeforeRight(pre, post, CondInit, SetOneshot(Banner));
    BeforeRight(pre, post, CondInit, SetOneshot(RootfsUp));
    BeforeRight(pre, post, SetOneshot(Banner), FireHook(BasefsUp));
    BeforeRight(pre, post, SetOneshot(RootfsUp), FireHook(BasefsUp));
    BeforeAcross(pre, post, FireHook(Banner), SetOneshot(Banner));
    BeforeAcross(pre, post, FireHook(RootfsUp), SetOneshot(RootfsUp));
  }

  lemma OneshotOrderWith(o: Options, fs: seq<Event>)
    requires FireHook(RootfsUp) in fs
    ensures Before(BeforeFs(o) + fs + AfterFs, CondInit, SetOneshot(Banner))
    ensures Before(BeforeFs(o) + fs + AfterFs, CondInit, SetOneshot(RootfsUp))
    ensures Before(BeforeFs(o) + fs + AfterFs, SetOneshot(Banner), FireHook(BasefsUp))
    ensures Before(BeforeFs(o) + fs + AfterFs, SetOneshot(RootfsUp), FireHook(BasefsUp))
    ensures Before(BeforeFs(o) + fs + AfterFs, FireHook(Banner), SetOneshot(Banner))
    ensures Before(BeforeFs(o) + fs + AfterFs, FireHook(RootfsUp), SetOneshot(RootfsUp))
  {
    var pre := BeforeFs(o) + fs;
    assert FireHook(Banner) in pre by {
      BannerBehaviour(o.silent);
      assert pre[|Prologue(o)|] == FireHook(Banner);
    }
    assert FireHook(RootfsUp) in pre;
    AfterFsOrder();
    OneshotOrderAround(pre, AfterFs);
  }

  /** Both one-shot conditions are set after cond_init() and before
      BASEFS_UP fires, each after its own hook has run. */
  lemma MainOneshotOrder(o: Options, m: Machine)
    ensures Before(Main(o, m), CondInit, SetOneshot(Banner))
    ensures Before(Main(o, m), CondInit, SetOneshot(RootfsUp))
    ensures Before(Main(o, m), SetOneshot(Banner), FireHook(BasefsUp))
    ensures Before(Main(o, m), SetOneshot(RootfsUp), FireHook(BasefsUp))
    ensures Before(Main(o, m), FireHook(Banner), SetOneshot(Banner))
    ensures Before(Main(o, m), FireHook(RootfsUp), SetOneshot(RootfsUp))
  {
    FsInitHooks(m, o.rescue);
    assert FireHook(RootfsUp) in FsInit(m, o.rescue) by {
      var c := CheckPhase(m, o.rescue);
      MountPhaseOrder(m.mountExit);
      assert FsInit(m, o.rescue)[|c|] == FireHook(RootfsUp);
    }
    OneshotOrderWith(o, FsInit(m, o.rescue));
  }

  lemma PluginsFirstWith(o: Options, fs: seq<Event>)
    ensures forall k :: 0 <= k < |BeforeFs(o) + fs + AfterFs| && (BeforeFs(o) + fs + AfterFs)[k].FireHook? ==>
      PluginInit in (BeforeFs(o) + fs + AfterFs)[..k]
  {
    var t := BeforeFs(o) + fs + AfterFs;
    var p := Prologue(o);
    assert t[|p| - 1] == PluginInit;
    forall j | 0 <= j < |p|
      ensures !t[j].FireHook?
    {
      assert t[j] == p[j];
    }
    forall k | 0 <= k < |t| && t[k].FireHook?
      ensures PluginInit in t[..k]
    {
      assert t[..k][|p| - 1] == PluginInit;
    }
  }

  /** Plugins are loaded before any hook fires. */
  lemma MainPluginsFirst(o: Options, m: Machine)
    ensures forall k :: 0 <= k < |Main(o, m)| && Main(o, m)[k].FireHook? ==> PluginInit in Main(o, m)[..k]
  {
    PluginsFirstWith(o, FsInit(m, o.rescue));
  }

  lemma SchedulesWith(o: Options, fs: seq<Event>)
    requires FsPhase(fs)
    ensures var t := BeforeFs(o) + fs + AfterFs;
      t[|t| - 2] == Schedule(Crank, 0) && t[|t| - 1] == Schedule(Final, FinalDelay)
      && forall k :: 0 <= k < |t| - 2 ==> !t[k].Schedule?
  {
    var b := BeforeFs(o);
    var a := AfterFs;
    var t := b + fs + a;
    forall k | 0 <= k < |t| - 2
      ensures !t[k].Schedule?
    {
      if k < |b| {
        assert t[k] == b[k];
      } else if k < |b| + |fs| {
        assert t[k] == fs[k - |b|];
        assert FsPhaseEvent(fs[k - |b|]);
      } else {
        assert t[k] == a[k - |b| - |fs|];
      }
    }
  }

  /** main() ends by scheduling the state machine and then the finalize
      timer of 1000 ms, and schedules nothing else. */
  lemma MainSchedules(o: Options, m: Machine)
    ensures Main(o, m)[|Main(o, m)| - 2] == Schedule(Crank, 0)
    ensures Main(o, m)[|Main(o, m)| - 1] == Schedule(Final, FinalDelay)
    ensures forall k :: 0 <= k < |Main(o, m)| - 2 ==> !Main(o, m)[k].Schedule?
  {
    FsInitEvents(m, o.rescue);
    SchedulesWith(o, FsInit(m, o.rescue));
  }

  /** An event of the boot that only the work items make. */
  predicate LateEvent(e: Event)
  {
    || e == SmInit || e == SmStep || e == StepAll || e == QueryCompleted || e == Resubmit
    || e.RunParts? || e.SwitchRunlevel? || e == PruneBootstrap || e == RcLocal
    || e == GoSilent || e == TtyStart
  }

  lemma EarlyWith(o: Options, fs: seq<Event>)
    requires FsPhase(fs)
    ensures forall k :: 0 <= k < |BeforeFs(o) + fs + AfterFs| ==> !LateEvent((BeforeFs(o) + fs + AfterFs)[k])
  {
    var b := BeforeFs(o);
    var a := AfterFs;
    assert forall k :: 0 <= k < |b| ==> !LateEvent(b[k]);
    assert forall k :: 0 <= k < |a| ==> !LateEvent(a[k]);
    forall k | 0 <= k < |b + fs + a|
      ensures !LateEvent((b + fs + a)[k])
    {
      if k < |b| {
        assert (b + fs + a)[k] == b[k];
      } else if k < |b| + |fs| {
        assert (b + fs + a)[k] == fs[k - |b|];
        assert FsPhaseEvent(fs[k - |b|]);
      } else {
        assert (b + fs + a)[k] == a[k - |b| - |fs|];
      }
    }
  }

  lemma NoLateIn(t: seq<Event>, e: Event)
    requires forall k :: 0 <= k < |t| ==> !LateEvent(t[k])
    requires LateEvent(e)
    ensures e !in t
  {
  }

  /** main() itself makes none of the work items' events. */
  lemma MainEarly(o: Options, m: Machine, e: Event)
    requires LateEvent(e)
    ensures e !in Main(o, m)
  {
    FsInitEvents(m, o.rescue);
    EarlyWith(o, FsInit(m, o.rescue));
    NoLateIn(Main(o, m), e);
  }

  lemma CountAfterMain(main: seq<Event>, gate: seq<Event>, e: Event)
    requires e !in main
    ensures Count(main + CrankWorker + gate, e) == Count(CrankWorker, e) + Count(gate, e)
  {
    CountAbsent(main, e);
    CountConcat(main + CrankWorker, gate, e);
    CountConcat(main, CrankWorker, e);
  }

  /** Counting over the boot: main() contributes nothing to a late event. */
  lemma BootCount(o: Options, m: Machine, e: Event)
    requires LateEvent(e)
    ensures Count(Boot(o, m), e) ==
      Count(CrankWorker, e) + Count(Gate(m.completed, Finalize(o, m)), e)
  {
    MainEarly(o, m, e);
    CountAfterMain(Main(o, m), Gate(m.completed, Finalize(o, m)), e);
  }

  /** The crank worker fires no hook: the boot's hooks are main()'s
      followed by those of the final worker. */
  lemma HooksAfterMain(main: seq<Event>, gate: seq<Event>, me: seq<Hook>)
    requires Hooks(main) == [Banner, RootfsUp] + me + [MountPost, BasefsUp]
    requires Hooks(gate) == [SvcUp, SystemUp]
    ensures Hooks(main + CrankWorker + gate) ==
      [Banner, RootfsUp] + me + [MountPost, BasefsUp, SvcUp, SystemUp]
  {
    NoHooks(CrankWorker);
    HooksConcat(main + CrankWorker, gate);
    HooksConcat(main, CrankWorker);
    assert Hooks(main + CrankWorker) == Hooks(main) + [];
    assert [Banner, RootfsUp] + me + [MountPost, BasefsUp] + [SvcUp, SystemUp] ==
      [Banner, RootfsUp] + me + [MountPost, BasefsUp, SvcUp, SystemUp];
  }

  /** Over the whole boot the hooks fire in the order BANNER, ROOTFS_UP,
      MOUNT_ERROR (only when "mount -na" fails), MOUNT_POST, BASEFS_UP,
      SVC_UP, SYSTEM_UP, each once. */
  lemma BootHooks(o: Options, m: Machine)
    ensures Hooks(Boot(o, m)) ==
      [Banner, RootfsUp] + (if m.mountExit != 0 then [MountError] else [])
      + [MountPost, BasefsUp, SvcUp, SystemUp]
  {
    MainHooks(o, m);
    FinalizeHooks(o, m);
    FinalWorkerShaped(m.completed);
    GateHooks(FinalWorker(m.completed), Finalize(o, m));
    HooksAfterMain(Main(o, m), Gate(m.completed, Finalize(o, m)), if m.mountExit != 0 then [MountError] else []);
  }

  lemma CrankOnly(e: Event)
    requires e != SmInit && e != SmStep
    ensures Count(CrankWorker, e) == 0
  {
    CountAbsent(CrankWorker, e);
  }

  /** Over the whole boot, an event of finalize() other than the worker's
      own occurs exactly as often as in one finalize(). */
  lemma BootCountsFinalize(o: Options, m: Machine, e: Event)
    requires LateEvent(e) && !GateEvent(e) && e != SmInit && e != SmStep
    ensures Count(Boot(o, m), e) == Count(Finalize(o, m), e)
  {
    BootCount(o, m, e);
    CrankOnly(e);
    FinalWorkerShaped(m.completed);
    GateCountsFinalize(FinalWorker(m.completed), Finalize(o, m), e);
  }

  /** Whatever service_completed() answers, the boot changes to the
      configured runlevel exactly once: finalize() runs once. */
  lemma BootSwitchesOnce(o: Options, m: Machine)
    ensures Count(Boot(o, m), SwitchRunlevel(o.cfglevel)) == 1
  {
    FinalizeRunlevelOnce(o, m);
    BootCountsFinalize(o, m, SwitchRunlevel(o.cfglevel));
  }

  /** Whatever service_completed() answers, the boot starts the TTYs
      exactly once, at the very end of finalize(). */
  lemma BootTtysOnce(o: Options, m: Machine)
    ensures Count(Boot(o, m), TtyStart) == 1
  {
    FinalizeTtysOnce(o, m);
    BootCountsFinalize(o, m, TtyStart);
  }

  /** Over the whole boot, the worker's own events are those of the gate. */
  lemma BootGateCount(o: Options, m: Machine, e: Event)
    requires GateEvent(e)
    ensures Count(Boot(o, m), e) == Count(Gate(m.completed, Finalize(o, m)), e)
  {
    MainEarly(o, m, e);
    GateOnly(Main(o, m), Gate(m.completed, Finalize(o, m)), e);
  }

  lemma GateOnly(main: seq<Event>, gate: seq<Event>, e: Event)
    requires GateEvent(e) && e !in main
    ensures Count(main + CrankWorker + gate, e) == Count(gate, e)
  {
    CountAfterMain(main, gate, e);
    CrankOnly(e);
  }

  /** When service_completed() never answers yes, the boot reschedules the
      final work item 120 times, asks service_completed() 120 times, and
      steps all services 121 times in final_worker() plus twice in
      finalize(). */
  lemma BootNeverCompleted(o: Options, m: Machine)
    requires forall k :: 1 <= k <= Budget ==> !m.completed(k)
    ensures Count(Boot(o, m), Resubmit) == Budget
    ensures Count(Boot(o, m), QueryCompleted) == Budget
    ensures Count(Boot(o, m), StepAll) == Budget + 3
  {
    FinalizeNoGate(o, m);
    FinalizeSteps(o, m);
    GateNeverCompleted(m.completed, Finalize(o, m));
    BootGateCount(o, m, Resubmit);
    BootGateCount(o, m, QueryCompleted);
    BootGateCount(o, m, StepAll);
  }

  /** When service_completed() first answers yes on run k, the boot
      reschedules the final work item k - 1 times and asks k times. */
  lemma BootCompletedAt(o: Options, m: Machine, k: nat)
    requires 1 <= k <= Budget && m.completed(k)
    requires forall j :: 1 <= j < k ==> !m.completed(j)
    ensures Count(Boot(o, m), Resubmit) == k - 1
    ensures Count(Boot(o, m), QueryCompleted) == k
    ensures Count(Boot(o, m), StepAll) == k + 2
  {
    FinalizeNoGate(o, m);
    FinalizeSteps(o, m);
    GateCompletedAt(m.completed, Finalize(o, m), k);
    BootGateCount(o, m, Resubmit);
    BootGateCount(o, m, QueryCompleted);
    BootGateCount(o, m, StepAll);
  }
}
