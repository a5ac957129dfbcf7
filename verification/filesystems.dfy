/** The filesystem phase of boot: fsck of the fstab entries pass by pass,
    the read-write remount of "/", and mounting everything else. */
module Filesystems {
  import opened Events
  import opened Context

  /** fsck_all() runs passes 1 up to this one (the loop runs while pass < 10). */
  const LastPass: int := 9

  /** The mask 0022 (octal) that fs_init() sets once everything is mounted. */
  const Umask022: int := 18

  /** An entry fsck() may check: its spec names a block device or is a
      UUID= or LABEL= tag, and its mount point is not already mounted rw. */
  predicate Checkable(m: Machine, e: FsEntry)
  {
    && (m.isBlockDevice(e.spec) || m.stringMatch(e.spec, "UUID=") || m.stringMatch(e.spec, "LABEL="))
    && !m.mountedRw(e.file)
  }

  /** An entry fsck(pass) checks. */
  predicate Selected(m: Machine, e: FsEntry, pass: int)
  {
    e.passno == pass && Checkable(m, e)
  }

  /** The size of fsck()'s command buffer, terminating NUL included. */
  const CommandSize: int := 80

  /** The command fsck() runs, before the spec. */
  const FsckCommand: string := "fsck -a "

  /** The spec as it appears in the command fsck() runs: snprintf() into the
      buffer keeps only as much of it as fits, 71 characters. */
  function CommandSpec(spec: string): (a: string)
    ensures |FsckCommand| + |a| <= CommandSize - 1
    ensures a <= spec
    ensures |FsckCommand| + |spec| <= CommandSize - 1 <==> a == spec
    ensures |a| == if |FsckCommand| + |spec| <= CommandSize - 1 then |spec|
                   else CommandSize - 1 - |FsckCommand|
  {
    var room := CommandSize - 1 - |FsckCommand|;
    if |spec| <= room then spec else spec[..room]
  }

  /** The checks one fsck() call ran and the status it returns. */
  datatype Checked = Checked(trace: seq<Event>, rc: int)

  /** The loop of fsck(pass) over the open fstab: one check per selected
      entry, in fstab order, summing the exit statuses. */
  function CheckEntries(m: Machine, es: seq<FsEntry>, pass: int): (r: Checked)
    ensures |r.trace| <= |es|
    ensures forall k :: 0 <= k < |r.trace| ==> r.trace[k].FsckCheck?
  {
    if es == [] then Checked([], 0)
    else
      var rest := CheckEntries(m, es[1..], pass);
      if Selected(m, es[0], pass) then
        var arg := CommandSpec(es[0].spec);
        Checked([FsckCheck(arg)] + rest.trace, m.fsckExit(arg) + rest.rc)
      else
        rest
  }

  /** The entries of `es` that fsck(pass) checks, in fstab order. */
  function Selection(m: Machine, es: seq<FsEntry>, pass: int): (sel: seq<FsEntry>)
    ensures |sel| <= |es|
    ensures forall e :: e in sel <==> e in es && Selected(m, e, pass)
  {
    if es == [] then []
    else (if Selected(m, es[0], pass) then [es[0]] else []) + Selection(m, es[1..], pass)
  }

  /** One check of each entry of `sel`, in order. */
  function CheckEvents(sel: seq<FsEntry>): (t: seq<Event>)
    ensures |t| == |sel|
    ensures forall i :: 0 <= i < |sel| ==> t[i] == FsckCheck(CommandSpec(sel[i].spec))
  {
    seq(|sel|, i requires 0 <= i < |sel| => FsckCheck(CommandSpec(sel[i].spec)))
  }

  /** The sum of the exit statuses of the checks of `sel`. */
  function ExitSum(m: Machine, sel: seq<FsEntry>): int
  {
    if sel == [] then 0 else m.fsckExit(CommandSpec(sel[0].spec)) + ExitSum(m, sel[1..])
  }

  lemma CheckEventsCons(e: FsEntry, rest: seq<FsEntry>)
    ensures CheckEvents([e] + rest) == [FsckCheck(CommandSpec(e.spec))] + CheckEvents(rest)
  {
    var l := CheckEvents([e] + rest);
    var r := [FsckCheck(CommandSpec(e.spec))] + CheckEvents(rest);
    assert |l| == |r|;
    forall i | 0 <= i < |l|
      ensures l[i] == r[i]
    {
      if i > 0 {
        assert ([e] + rest)[i] == rest[i - 1];
      }
    }
  }

  /** fsck(pass) runs exactly one check per selected entry, in fstab order. */
  lemma {:induction false} CheckEntriesAgree(m: Machine, es: seq<FsEntry>, pass: int)
    ensures CheckEntries(m, es, pass).trace == CheckEvents(Selection(m, es, pass))
  {
    if es != [] {
      CheckEntriesAgree(m, es[1..], pass);
      var sel := Selection(m, es, pass);
      var rest := Selection(m, es[1..], pass);
      if Selected(m, es[0], pass) {
        assert sel == [es[0]] + rest;
        CheckEventsCons(es[0], rest);
        assert CheckEntries(m, es, pass).trace ==
          [FsckCheck(CommandSpec(es[0].spec))] + CheckEntries(m, es[1..], pass).trace;
      } else {
        assert sel == rest;
      }
    }
  }

  /** The loop of fsck(pass) sums the exit statuses of the checks of the
      selected entries. */
  lemma {:induction false} CheckEntriesSum(m: Machine, es: seq<FsEntry>, pass: int)
    ensures CheckEntries(m, es, pass).rc == ExitSum(m, Selection(m, es, pass))
  {
    if es != [] {
      CheckEntriesSum(m, es[1..], pass);
      var sel := Selection(m, es, pass);
      var rest := Selection(m, es[1..], pass);
      if Selected(m, es[0], pass) {
        assert sel[0] == es[0] && sel[1..] == rest;
      } else {
        assert sel == rest;
      }
    }
  }

  /** Every event of `t` is a check of an entry of `es` that fsck(pass) may check. */
  predicate OnlySelected(m: Machine, es: seq<FsEntry>, pass: int, t: seq<Event>)
  {
    forall k :: 0 <= k < |t| ==>
      t[k].FsckCheck? && exists i :: 0 <= i < |es| && Selected(m, es[i], pass) && CommandSpec(es[i].spec) == t[k].spec
  }

  /** Every check fsck(pass) runs is of an entry of that pass it may check. */
  lemma {:induction false} CheckEntriesSound(m: Machine, es: seq<FsEntry>, pass: int)
    ensures OnlySelected(m, es, pass, CheckEntries(m, es, pass).trace)
  {
    var t := CheckEntries(m, es, pass).trace;
    if es != [] {
      CheckEntriesSound(m, es[1..], pass);
      var rest := CheckEntries(m, es[1..], pass).trace;
      forall k | 0 <= k < |t|
        ensures t[k].FsckCheck? && exists i :: 0 <= i < |es| && Selected(m, es[i], pass) && CommandSpec(es[i].spec) == t[k].spec
      {
        if Selected(m, es[0], pass) && k == 0 {
          assert t[k] == FsckCheck(CommandSpec(es[0].spec));
        } else {
          var k' := if Selected(m, es[0], pass) then k - 1 else k;
          assert t[k] == rest[k'];
          var i :| 0 <= i < |es[1..]| && Selected(m, es[1..][i], pass) && CommandSpec(es[1..][i].spec) == rest[k'].spec;
          assert es[1..][i] == es[i + 1];
        }
      }
      assert OnlySelected(m, es, pass, t);
    }
  }

  /** fsck(pass) checks every entry of that pass it may check. */
  lemma {:induction false} CheckEntriesComplete(m: Machine, es: seq<FsEntry>, pass: int)
    ensures forall e :: e in es && Selected(m, e, pass) ==> FsckCheck(CommandSpec(e.spec)) in CheckEntries(m, es, pass).trace
  {
    if es != [] {
      CheckEntriesComplete(m, es[1..], pass);
      forall e | e in es && Selected(m, e, pass)
        ensures FsckCheck(CommandSpec(e.spec)) in CheckEntries(m, es, pass).trace
      {
        if e != es[0] {
          assert e in es[1..];
        }
      }
    }
  }

  /** With no entry to check, the loop of fsck(pass) runs nothing and its
      status stays 0. */
  lemma {:induction false} CheckEntriesNothing(m: Machine, es: seq<FsEntry>, pass: int)
    requires forall e :: e in es ==> !Selected(m, e, pass)
    ensures CheckEntries(m, es, pass) == Checked([], 0)
  {
    if es != [] {
      assert es[0] in es;
      assert forall e :: e in es[1..] ==> e in es;
      CheckEntriesNothing(m, es[1..], pass);
    }
  }

  /** When no check exits with a negative status, the summed status of the
      loop of fsck(pass) is zero exactly when every check it ran succeeded. */
  lemma {:induction false} CheckEntriesStatus(m: Machine, es: seq<FsEntry>, pass: int)
    requires forall e :: e in es && Selected(m, e, pass) ==> m.fsckExit(CommandSpec(e.spec)) >= 0
    ensures CheckEntries(m, es, pass).rc >= 0
    ensures CheckEntries(m, es, pass).rc == 0 <==>
      forall e :: e in es && Selected(m, e, pass) ==> m.fsckExit(CommandSpec(e.spec)) == 0
  {
    if es != [] {
      assert forall e :: e in es[1..] ==> e in es;
      assert forall e :: e in es ==> e == es[0] || e in es[1..];
      CheckEntriesStatus(m, es[1..], pass);
    }
  }

  /** fsck(pass): status 1 and no checks when fstab cannot be opened. */
  function Fsck(m: Machine, pass: int): (r: Checked)
    ensures m.fstab.None? ==> r == Checked([], 1)
    ensures forall k :: 0 <= k < |r.trace| ==> r.trace[k].FsckCheck?
  {
    match m.fstab
    case None => Checked([], 1)
    case Some(es) => CheckEntries(m, es, pass)
  }

  /** fsck(pass) as a whole: without fstab no check and status 1; with it,
      one check per selected entry in fstab order and the sum of their
      statuses. */
  lemma FsckSelected(m: Machine, pass: int)
    ensures m.fstab.None? ==> Fsck(m, pass) == Checked([], 1)
    ensures m.fstab.Some? ==>
      Fsck(m, pass).trace == CheckEvents(Selection(m, m.fstab.value, pass))
      && Fsck(m, pass).rc == ExitSum(m, Selection(m, m.fstab.value, pass))
  {
    if m.fstab.Some? {
      CheckEntriesAgree(m, m.fstab.value, pass);
      CheckEntriesSum(m, m.fstab.value, pass);
    }
  }

  /** fsck() of each pass on machine `m`. */
  function FsckOf(m: Machine): int -> Checked
  {
    p => Fsck(m, p)
  }

  /** The checks of passes `lo` up to `hi`, in ascending pass order, where
      `fsck(p)` is what one fsck() call of pass `p` does. */
  function Checks(fsck: int -> Checked, lo: int, hi: int): seq<Event>
    decreases hi - lo
  {
    if hi < lo then [] else fsck(lo).trace + Checks(fsck, lo + 1, hi)
  }

  /** fsck_all() ran passes 1 up to `last`, which ran `trace`, and returned `rc`. */
  datatype Sweep = Sweep(last: int, trace: seq<Event>, rc: int)

  /** The loop of fsck_all() from `pass` on, where `fsck(p)` is what one
      fsck() call of pass `p` does: stop after the first pass with a nonzero
      status, or after the last pass. */
  function FsckPasses(fsck: int -> Checked, pass: int): (r: Sweep)
    requires 1 <= pass <= LastPass
    decreases LastPass - pass
    ensures pass <= r.last <= LastPass
    ensures forall p :: pass <= p < r.last ==> fsck(p).rc == 0
    ensures r.rc == fsck(r.last).rc
    ensures r.rc != 0 || r.last == LastPass
    ensures r.rc == 0 <==> forall p :: pass <= p <= LastPass ==> fsck(p).rc == 0
    ensures r.trace == Checks(fsck, pass, r.last)
  {
    var one := fsck(pass);
    if one.rc != 0 || pass == LastPass then
      assert Checks(fsck, pass, pass) == one.trace + Checks(fsck, pass + 1, pass);
      Sweep(pass, one.trace, one.rc)
    else
      var rest := FsckPasses(fsck, pass + 1);
      Sweep(rest.last, one.trace + rest.trace, rest.rc)
  }

  /** fsck_all(): passes 1, 2, ... in ascending order, never beyond the last
      pass; the status is that of the first failing pass, so it is zero
      exactly when every pass succeeded. */
  function FsckAll(m: Machine): (r: Sweep)
    ensures 1 <= r.last <= LastPass
    ensures forall p :: 1 <= p < r.last ==> Fsck(m, p).rc == 0
    ensures r.rc == Fsck(m, r.last).rc
    ensures r.rc != 0 || r.last == LastPass
    ensures r.rc == 0 <==> forall p :: 1 <= p <= LastPass ==> Fsck(m, p).rc == 0
    ensures r.trace == Checks(FsckOf(m), 1, r.last)
  {
    assert forall p :: FsckOf(m)(p) == Fsck(m, p);
    FsckPasses(FsckOf(m), 1)
  }

  /** `i` is the first fstab entry whose mount point is "/". */
  predicate RootAt(es: seq<FsEntry>, i: int)
  {
    0 <= i < |es| && es[i].file == "/" && forall j :: 0 <= j < i ==> es[j].file != "/"
  }

  /** The scan of fs_remount_root() for the entry of "/". */
  function FindRoot(es: seq<FsEntry>): (r: Option<nat>)
    ensures r.None? <==> forall i :: 0 <= i < |es| ==> es[i].file != "/"
    ensures r.Some? ==> RootAt(es, r.value)
  {
    if es == [] then None
    else if es[0].file == "/" then Some(0)
    else
      match FindRoot(es[1..])
      case None => None
      case Some(i) => Some(i + 1)
  }

  /** "/" is listed in an fstab that can be opened, and not as read-only. */
  predicate RootListedRw(m: Machine)
  {
    m.fstab.Some? && exists i :: 0 <= i < |m.fstab.value| && RootAt(m.fstab.value, i) && m.fstab.value[i].kind != "ro"
  }

  /** fs_remount_root(fsckerr), the variant for systems without a sysroot. */
  function RemountRoot(m: Machine, fsckerr: int): (t: seq<Event>)
    ensures t == [] || t == [RemountRw] || t == [RemountRefused]
    ensures t == [RemountRw] <==> fsckerr == 0 && RootListedRw(m)
    ensures t == [RemountRefused] <==> fsckerr != 0 && RootListedRw(m)
  {
    match m.fstab
    case None => []
    case Some(es) =>
      match FindRoot(es)
      case None => []
      case Some(i) =>
        if es[i].kind == "ro" then []
        else if fsckerr != 0 then [RemountRefused]
        else [RemountRw]
  }

  /** The first half of fs_init(): fsck and the remount of "/", both
      skipped in rescue mode. */
  function CheckPhase(m: Machine, rescue: bool): seq<Event>
  {
    if rescue then []
    else var f := FsckAll(m); f.trace + RemountRoot(m, f.rc)
  }

  /** The second half of fs_init(), given the status of "mount -na". */
  function MountPhase(mountExit: int): seq<Event>
  {
    [FireHook(RootfsUp), MountAll]
    + (if mountExit != 0 then [FireHook(MountError)] else [])
    + [FireHook(MountPost), Swapon, Umask(Umask022)]
  }

  /** fs_init(). */
  function FsInit(m: Machine, rescue: bool): seq<Event>
  {
    CheckPhase(m, rescue) + MountPhase(m.mountExit)
  }

  /** An event of the check half of fs_init(). */
  predicate CheckEvent(e: Event)
  {
    e.FsckCheck? || e == RemountRw || e == RemountRefused
  }

  /** The events fs_init() can produce. */
  predicate FsPhaseEvent(e: Event)
  {
    || CheckEvent(e)
    || e == FireHook(RootfsUp) || e == FireHook(MountError) || e == FireHook(MountPost)
    || e == MountAll || e == Swapon || e == Umask(Umask022)
  }

  lemma {:induction false} ChecksAreFsck(m: Machine, lo: int, hi: int)
    decreases hi - lo
    ensures forall k :: 0 <= k < |Checks(FsckOf(m), lo, hi)| ==> Checks(FsckOf(m), lo, hi)[k].FsckCheck?
  {
    if lo <= hi {
      ChecksAreFsck(m, lo + 1, hi);
      var a: seq<Event> := Fsck(m, lo).trace;
      var b: seq<Event> := Checks(FsckOf(m), lo + 1, hi);
      assert Checks(FsckOf(m), lo, hi) == a + b;
      forall k | 0 <= k < |a + b|
        ensures (a + b)[k].FsckCheck?
      {
        if k >= |a| {
          assert (a + b)[k] == b[k - |a|];
        } else {
          assert (a + b)[k] == a[k];
        }
      }
    }
  }

  lemma CheckPhaseEvents(m: Machine, rescue: bool)
    ensures forall k :: 0 <= k < |CheckPhase(m, rescue)| ==> CheckEvent(CheckPhase(m, rescue)[k])
  {
    if !rescue {
      var f := FsckAll(m);
      ChecksAreFsck(m, 1, f.last);
      var rr := RemountRoot(m, f.rc);
      assert CheckPhase(m, rescue) == f.trace + rr;
    }
  }

  /** No event of the mount half of fs_init() is a check. */
  lemma MountPhaseEvents(mountExit: int)
    ensures forall k :: 0 <= k < |MountPhase(mountExit)| ==>
      !CheckEvent(MountPhase(mountExit)[k]) && FsPhaseEvent(MountPhase(mountExit)[k])
  {
  }

  lemma MountPhaseHooks(mountExit: int)
    ensures Hooks(MountPhase(mountExit)) == [RootfsUp] + (if mountExit != 0 then [MountError] else []) + [MountPost]
  {
    var me: seq<Event> := if mountExit != 0 then [FireHook(MountError)] else [];
    var tail: seq<Event> := [FireHook(MountPost), Swapon, Umask(Umask022)];
    var head: seq<Event> := [FireHook(RootfsUp), MountAll];
    assert MountPhase(mountExit) == head + me + tail;
    HooksConcat(head, me);
    HooksConcat(head + me, tail);
    NoHooks(head[1..]);
    NoHooks(tail[1..]);
  }

  lemma MountPhaseOrder(mountExit: int)
    ensures MountPhase(mountExit)[0] == FireHook(RootfsUp)
    ensures Before(MountPhase(mountExit), FireHook(RootfsUp), MountAll)
    ensures Before(MountPhase(mountExit), MountAll, FireHook(MountPost))
    ensures Before(MountPhase(mountExit), FireHook(MountPost), Swapon)
    ensures FireHook(MountError) in MountPhase(mountExit) <==> mountExit != 0
  {
    var t := MountPhase(mountExit);
    var n := if mountExit != 0 then 1 else 0;
    assert t[1] == MountAll;
    assert t[2 + n] == FireHook(MountPost) && t[3 + n] == Swapon;
  }

  lemma MountPhaseMountsOnce(mountExit: int)
    ensures Count(MountPhase(mountExit), MountAll) == 1
  {
    var me: seq<Event> := if mountExit != 0 then [FireHook(MountError)] else [];
    var tail: seq<Event> := [FireHook(MountPost), Swapon, Umask(Umask022)];
    var head: seq<Event> := [FireHook(RootfsUp), MountAll];
    assert MountPhase(mountExit) == head + (me + tail);
    assert MountAll !in me + tail;
    MountsOnceAfterRootfsUp(me + tail);
  }

  lemma MountsOnceAfterRootfsUp(rest: seq<Event>)
    requires MountAll !in rest
    ensures Count([FireHook(RootfsUp), MountAll] + rest, MountAll) == 1
  {
    var head := [FireHook(RootfsUp), MountAll];
    CountConcat(head, rest, MountAll);
    CountAbsent(rest, MountAll);
    assert Count(head, MountAll) == 1;
  }

  /** An event that is a check is none of the given others. */
  lemma NotInChecks(c: seq<Event>, e: Event)
    requires forall k :: 0 <= k < |c| ==> CheckEvent(c[k])
    requires !CheckEvent(e)
    ensures e !in c
  {
    forall k | 0 <= k < |c|
      ensures c[k] != e
    {
      assert CheckEvent(c[k]);
    }
  }

  /** The hooks of fs_init() for any check half made of checks only. */
  lemma ChecksThenMountHooks(c: seq<Event>, mountExit: int)
    requires forall k :: 0 <= k < |c| ==> CheckEvent(c[k])
    ensures Hooks(c + MountPhase(mountExit)) ==
      [RootfsUp] + (if mountExit != 0 then [MountError] else []) + [MountPost]
  {
    NoHooks(c);
    HooksConcat(c, MountPhase(mountExit));
    MountPhaseHooks(mountExit);
  }

  lemma ChecksThenMountError(c: seq<Event>, mountExit: int)
    requires forall k :: 0 <= k < |c| ==> CheckEvent(c[k])
    ensures FireHook(MountError) in c + MountPhase(mountExit) <==> mountExit != 0
  {
    MountPhaseOrder(mountExit);
    NotInChecks(c, FireHook(MountError));
  }

  /** Positions below |c| are exactly the checks, and ROOTFS_UP is not among them. */
  lemma ChecksFirst(c: seq<Event>, mountExit: int)
    requires forall k :: 0 <= k < |c| ==> CheckEvent(c[k])
    ensures forall i :: 0 <= i < |c + MountPhase(mountExit)| ==>
      (CheckEvent((c + MountPhase(mountExit))[i]) <==> i < |c|)
  {
    var mp := MountPhase(mountExit);
    MountPhaseEvents(mountExit);
    forall i | 0 <= i < |c + mp|
      ensures CheckEvent((c + mp)[i]) <==> i < |c|
    {
      if i < |c| {
        assert (c + mp)[i] == c[i];
      } else {
        assert (c + mp)[i] == mp[i - |c|];
      }
    }
  }

  lemma ChecksBeforeRootfsUp(c: seq<Event>, mountExit: int)
    requires forall k :: 0 <= k < |c| ==> CheckEvent(c[k])
    ensures forall i, j ::
      0 <= i < |c + MountPhase(mountExit)| && 0 <= j < |c + MountPhase(mountExit)| &&
      (c + MountPhase(mountExit))[j] == FireHook(RootfsUp) && CheckEvent((c + MountPhase(mountExit))[i])
      ==> i < j
  {
    ChecksFirst(c, mountExit);
    assert !CheckEvent(FireHook(RootfsUp));
  }

  lemma ChecksThenMountSteps(c: seq<Event>, mountExit: int)
    ensures Before(c + MountPhase(mountExit), FireHook(RootfsUp), MountAll)
    ensures Before(c + MountPhase(mountExit), MountAll, FireHook(MountPost))
    ensures Before(c + MountPhase(mountExit), FireHook(MountPost), Swapon)
  {
    var mp := MountPhase(mountExit);
    MountPhaseOrder(mountExit);
    BeforeRight(c, mp, FireHook(RootfsUp), MountAll);
    BeforeRight(c, mp, MountAll, FireHook(MountPost));
    BeforeRight(c, mp, FireHook(MountPost), Swapon);
  }

  lemma ChecksThenMountOnce(c: seq<Event>, mountExit: int)
    requires forall k :: 0 <= k < |c| ==> CheckEvent(c[k])
    ensures Count(c + MountPhase(mountExit), MountAll) == 1
  {
    MountPhaseMountsOnce(mountExit);
    CountConcat(c, MountPhase(mountExit), MountAll);
    NotInChecks(c, MountAll);
    CountAbsent(c, MountAll);
  }

  lemma CheckThenMountEvents(c: seq<Event>, mp: seq<Event>)
    requires forall k :: 0 <= k < |c| ==> CheckEvent(c[k])
    requires forall k :: 0 <= k < |mp| ==> FsPhaseEvent(mp[k])
    ensures forall k :: 0 <= k < |c + mp| ==> FsPhaseEvent((c + mp)[k])
  {
    forall k | 0 <= k < |c + mp|
      ensures FsPhaseEvent((c + mp)[k])
    {
      if k < |c| {
        assert (c + mp)[k] == c[k];
      } else {
        assert (c + mp)[k] == mp[k - |c|];
      }
    }
  }

  /** Every event of fs_init() is a filesystem-phase event. */
  lemma FsInitEvents(m: Machine, rescue: bool)
    ensures forall k :: 0 <= k < |FsInit(m, rescue)| ==> FsPhaseEvent(FsInit(m, rescue)[k])
  {
    var c := CheckPhase(m, rescue);
    var mp := MountPhase(m.mountExit);
    CheckPhaseEvents(m, rescue);
    MountPhaseEvents(m.mountExit);
    CheckThenMountEvents(c, mp);
    assert FsInit(m, rescue) == c + mp;
  }

  /** fs_init() fires ROOTFS_UP, then MOUNT_ERROR exactly when "mount -na"
      fails, then MOUNT_POST, and no other hook. */
  lemma FsInitHooks(m: Machine, rescue: bool)
    ensures Hooks(FsInit(m, rescue)) ==
      [RootfsUp] + (if m.mountExit != 0 then [MountError] else []) + [MountPost]
    ensures FireHook(MountError) in FsInit(m, rescue) <==> m.mountExit != 0
  {
    CheckPhaseEvents(m, rescue);
    ChecksThenMountHooks(CheckPhase(m, rescue), m.mountExit);
    ChecksThenMountError(CheckPhase(m, rescue), m.mountExit);
  }

  /** In rescue mode fs_init() runs no fsck and touches no remount. */
  lemma FsInitRescue(m: Machine)
    ensures forall k :: 0 <= k < |FsInit(m, true)| ==> !CheckEvent(FsInit(m, true)[k])
  {
    MountPhaseEvents(m.mountExit);
    assert FsInit(m, true) == MountPhase(m.mountExit);
  }

  /** Outside rescue mode, "/" is remounted read-write exactly when every
      fsck pass succeeded and "/" is listed and not read-only; with "/"
      listed and a failed pass, only the refusal is reported. */
  lemma FsInitRemount(m: Machine)
    ensures RemountRw in FsInit(m, false) <==> FsckAll(m).rc == 0 && RootListedRw(m)
    ensures RemountRefused in FsInit(m, false) <==> FsckAll(m).rc != 0 && RootListedRw(m)
  {
    var f := FsckAll(m);
    var rr := RemountRoot(m, f.rc);
    var mp := MountPhase(m.mountExit);
    ChecksAreFsck(m, 1, f.last);
    MountPhaseEvents(m.mountExit);
    assert FsInit(m, false) == f.trace + rr + mp;
    NotInFsck(f.trace, RemountRw);
    NotInFsck(f.trace, RemountRefused);
    assert RemountRw !in mp && RemountRefused !in mp by {
      assert CheckEvent(RemountRw) && CheckEvent(RemountRefused);
    }
  }

  lemma NotInFsck(t: seq<Event>, e: Event)
    requires forall k :: 0 <= k < |t| ==> t[k].FsckCheck?
    requires !e.FsckCheck?
    ensures e !in t
  {
  }

  /** fs_init() runs every check and remount before firing ROOTFS_UP. */
  lemma FsInitChecksFirst(m: Machine, rescue: bool)
    ensures forall i, j ::
      0 <= i < |FsInit(m, rescue)| && 0 <= j < |FsInit(m, rescue)| &&
      FsInit(m, rescue)[j] == FireHook(RootfsUp) && CheckEvent(FsInit(m, rescue)[i])
      ==> i < j
  {
    var c := CheckPhase(m, rescue);
    CheckPhaseEvents(m, rescue);
    ChecksBeforeRootfsUp(c, m.mountExit);
  }

  /** fs_init() fires ROOTFS_UP before "mount -na", which precedes
      MOUNT_POST, which precedes "swapon -ea"; the mount runs once. */
  lemma FsInitOrder(m: Machine, rescue: bool)
    ensures Before(FsInit(m, rescue), FireHook(RootfsUp), MountAll)
    ensures Before(FsInit(m, rescue), MountAll, FireHook(MountPost))
    ensures Before(FsInit(m, rescue), FireHook(MountPost), Swapon)
    ensures Count(FsInit(m, rescue), MountAll) == 1
  {
    var c := CheckPhase(m, rescue);
    CheckPhaseEvents(m, rescue);
    ChecksThenMountSteps(c, m.mountExit);
    ChecksThenMountOnce(c, m.mountExit);
  }

  /** A failing first fsck pass: no later pass runs, "/" is not remounted
      read-write, and mounting still proceeds. */
  lemma FirstPassFailure(m: Machine)
    requires Fsck(m, 1).rc != 0
    ensures FsckAll(m).last == 1
    ensures RemountRw !in FsInit(m, false)
    ensures MountAll in FsInit(m, false)
  {
    FsInitRemount(m);
    FsInitOrder(m, false);
    CountAbsent(FsInit(m, false), MountAll);
  }
}
