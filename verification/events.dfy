/** The observable calls finit's boot sequence makes into its collaborators,
    and the trace vocabulary (counting, hook projection, ordering) used to
    state properties about them. */
module Events {

  /** Hook points of the plugin registry that the boot sequence fires. */
  datatype Hook = Banner | RootfsUp | MountError | MountPost | BasefsUp | SvcUp | SystemUp

  /** The two work items main() hands to the scheduler. */
  datatype Work = Crank | Final

  /** One call into a collaborator, in the order the boot sequence makes it. */
  datatype Event =
    | SetEnv(name: string)          // setenv()
    | ChangeDir(dir: string)        // chdir()
    | Umask(mask: int)              // umask()
    | ScreenInit                    // screen_init()
    | PluginInit                    // plugin_init(): load hook callbacks
    | FireHook(hook: Hook)          // plugin_run_hooks()
    | PrintBanner                   // print_banner()
    | SigInit                       // sig_init()
    | CgroupInit                    // cgroup_init()
    | FsckCheck(spec: string)       // run "fsck -a <spec>", spec as it fits the command buffer
    | RemountRw                     // run "mount -n -o remount,rw /"
    | RemountRefused                // error: "/" not remounted because fsck failed
    | MountAll                      // run "mount -na"
    | Swapon                        // run "swapon -ea"
    | ConfInit                      // conf_init()
    | CondInit                      // cond_init()
    | SetOneshot(cond: Hook)        // cond_set_oneshot() for a hook's condition
    | SigSetup                      // sig_setup()
    | ConfMonitor                   // conf_monitor()
    | ApiInit                       // api_init()
    | Schedule(work: Work, delay: nat)  // schedule_work()
    | SmInit                        // sm_init()
    | SmStep                        // sm_step()
    | StepAll                       // service_step_all(SVC_TYPE_ANY)
    | QueryCompleted                // service_completed()
    | Resubmit                      // final_worker reschedules itself
    | RunParts(dir: string)         // run_parts()
    | SwitchRunlevel(level: int)    // service_runlevel()
    | PruneBootstrap                // svc_prune_bootstrap()
    | RcLocal                       // run the rc.local script
    | GoSilent                      // log_silent()
    | TtyStart                      // tty_runlevel()

  /** Number of occurrences of `e` in `t`. */
  function Count(t: seq<Event>, e: Event): nat
  {
    if t == [] then 0 else (if t[0] == e then 1 else 0) + Count(t[1..], e)
  }

  /** The hook points fired in `t`, in firing order. */
  function Hooks(t: seq<Event>): seq<Hook>
  {
    if t == [] then [] else (if t[0].FireHook? then [t[0].hook] else []) + Hooks(t[1..])
  }

  /** The hook conditions `t` sets as one-shot conditions, in order. */
  function Oneshots(t: seq<Event>): seq<Hook>
  {
    if t == [] then [] else (if t[0].SetOneshot? then [t[0].cond] else []) + Oneshots(t[1..])
  }

  /** Some occurrence of `a` in `t` precedes some occurrence of `b`. */
  predicate Before(t: seq<Event>, a: Event, b: Event)
  {
    exists i, j :: 0 <= i < j < |t| && t[i] == a && t[j] == b
  }

  lemma {:induction false} CountConcat(x: seq<Event>, y: seq<Event>, e: Event)
    ensures Count(x + y, e) == Count(x, e) + Count(y, e)
  {
    if x == [] {
      assert x + y == y;
    } else {
      assert (x + y)[1..] == x[1..] + y;
      CountConcat(x[1..], y, e);
    }
  }

  lemma CountJoin(a: seq<Event>, b: seq<Event>, c: seq<Event>, d: seq<Event>, e: Event)
    ensures Count(a + b + c + d, e) == Count(a, e) + Count(b, e) + Count(c, e) + Count(d, e)
  {
    CountConcat(a + b + c, d, e);
    CountConcat(a + b, c, e);
    CountConcat(a, b, e);
  }

  /** Occurrences in a four-event sequence. */
  lemma CountFour(a: Event, b: Event, c: Event, d: Event, e: Event)
    ensures Count([a, b, c, d], e) ==
      (if a == e then 1 else 0) + (if b == e then 1 else 0) + (if c == e then 1 else 0) + (if d == e then 1 else 0)
  {
    assert [a, b, c, d] == [a] + [b] + [c] + [d];
    CountJoin([a], [b], [c], [d], e);
    CountSingle(a, e);
    CountSingle(b, e);
    CountSingle(c, e);
    CountSingle(d, e);
  }

  lemma CountSingle(x: Event, e: Event)
    ensures Count([x], e) == if x == e then 1 else 0
  {
    assert [x][1..] == [];
  }

  /** A trace of at most one event, present when `b` holds. */
  lemma CountFlag(b: bool, x: Event, e: Event)
    ensures Count(if b then [x] else [], e) == if b && x == e then 1 else 0
  {
    CountSingle(x, e);
  }

  lemma {:induction false} CountAbsent(t: seq<Event>, e: Event)
    ensures Count(t, e) == 0 <==> e !in t
  {
    if t != [] {
      CountAbsent(t[1..], e);
      assert t == [t[0]] + t[1..];
    }
  }

  lemma {:induction false} HooksConcat(x: seq<Event>, y: seq<Event>)
    ensures Hooks(x + y) == Hooks(x) + Hooks(y)
  {
    if x == [] {
      assert x + y == y;
    } else {
      var hd := if x[0].FireHook? then [x[0].hook] else [];
      assert (x + y)[1..] == x[1..] + y;
      assert Hooks(x + y) == hd + Hooks(x[1..] + y);
      HooksConcat(x[1..], y);
      assert hd + (Hooks(x[1..]) + Hooks(y)) == (hd + Hooks(x[1..])) + Hooks(y);
    }
  }

  lemma {:induction false} NoHooks(t: seq<Event>)
    requires forall k :: 0 <= k < |t| ==> !t[k].FireHook?
    ensures Hooks(t) == []
  {
    if t != [] {
      NoHooks(t[1..]);
    }
  }

  lemma {:induction false} OneshotsConcat(x: seq<Event>, y: seq<Event>)
    ensures Oneshots(x + y) == Oneshots(x) + Oneshots(y)
  {
    if x == [] {
      assert x + y == y;
    } else {
      var hd := if x[0].SetOneshot? then [x[0].cond] else [];
      assert (x + y)[1..] == x[1..] + y;
      assert Oneshots(x + y) == hd + Oneshots(x[1..] + y);
      OneshotsConcat(x[1..], y);
      assert hd + (Oneshots(x[1..]) + Oneshots(y)) == (hd + Oneshots(x[1..])) + Oneshots(y);
    }
  }

  lemma {:induction false} NoOneshots(t: seq<Event>)
    requires forall k :: 0 <= k < |t| ==> !t[k].SetOneshot?
    ensures Oneshots(t) == []
  {
    if t != [] {
      NoOneshots(t[1..]);
    }
  }

  lemma BeforeAcross(x: seq<Event>, y: seq<Event>, a: Event, b: Event)
    requires a in x && b in y
    ensures Before(x + y, a, b)
  {
    var i :| 0 <= i < |x| && x[i] == a;
    var j :| 0 <= j < |y| && y[j] == b;
    assert (x + y)[i] == a && (x + y)[|x| + j] == b;
  }

  lemma BeforeRight(x: seq<Event>, y: seq<Event>, a: Event, b: Event)
    requires Before(y, a, b)
    ensures Before(x + y, a, b)
  {
    var i, j :| 0 <= i < j < |y| && y[i] == a && y[j] == b;
    assert (x + y)[|x| + i] == a && (x + y)[|x| + j] == b;
  }
}
