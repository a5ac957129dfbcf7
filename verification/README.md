# finit boot orchestration, modelled in Dafny

finit is a small init (PID 1) for Linux. When it runs as PID 1, `main()`:

- sets up a sane environment, the screen and the plugins;
- shows the banner;
- checks and mounts the filesystems (`fs_init()`: `fsck` pass by pass, remount of `/` read-write, `mount -na`, `swapon`);
- sets up configuration and conditions, and sets the one-shot conditions for the two hooks that ran before the condition system existed;
- fires `BASEFS_UP`;
- schedules two work items on its event loop. The crank worker starts the service state machine. The final worker steps all services and reschedules itself while the bootstrap tasks have not completed and its budget of 120 reschedules lasts (at most 121 runs); then it calls `finalize()`.
- `finalize()` runs the start scripts, changes to the configured runlevel, fires `SVC_UP`, runs `rc.local`, fires `SYSTEM_UP`, silences the log and starts the TTYs.

The model describes each of these as a pure function producing a trace, which is a sequence of `Event`s: hooks fired, commands run, work scheduled, calls into the service layer. The outside world is a `Machine` value holding every answer the boot depends on: the fstab, whether a spec is a block device, the exit codes of `fsck` and `mount`, whether `rc.local` is executable, and what `service_completed()` says on each run of the final worker. The boot flags (`rescue`, `debug`, silent log, run-parts directory, configured runlevel) are an `Options` value.

Files:

- `events.dfy` (module `Events`): the event alphabet, and counting, hook and one-shot projections of traces with their concatenation laws.
- `context.dfy` (module `Context`): fstab entries, boot options and the machine's answers.
- `filesystems.dfy` (module `Filesystems`): `fsck`, `fsck_all`, `fs_remount_root` (without `SYSROOT`) and `fs_init`.
- `completiongate.dfy` (module `CompletionGate`): the static counter and short-circuit test of `final_worker`, and the chain of runs it produces.
- `finalization.dfy` (module `Finalization`): `finalize`.
- `sequencer.dfy` (module `Sequencer`): `banner`, `main`, `crank_worker` and the whole boot trace.

## Model

| member | source | states |
|---|---|---|
| Filesystems.CheckEntries | src/finit.c:96-118 | The loop of `fsck(pass)` runs only `fsck -a` commands, and no more of them than fstab has entries. |
| Filesystems.CommandSpec | src/finit.c:97-116 | The spec in the command is the longest prefix of the spec that fits the 80-byte buffer after `fsck -a ` and the NUL: the whole spec when it fits, otherwise exactly its first 71 characters. |
| Filesystems.Selection | src/finit.c:100-114 | The entries of the pass that `fsck(pass)` checks: an entry is selected exactly when it is in fstab, belongs to the pass, names a block device or a `UUID=`/`LABEL=` tag, and is not mounted read-write. |
| Filesystems.CheckEntriesAgree | src/finit.c:96-117 | `fsck(pass)` runs exactly one check per selected entry, in fstab order. |
| Filesystems.CheckEntriesSum | src/finit.c:89-122 | When fstab opens, `fsck(pass)` returns the sum of the exit statuses of the selected entries' checks, each status being that of the command as actually run. |
| Filesystems.CheckEntriesSound | src/finit.c:96-117 | Every check `fsck(pass)` runs is on the (buffer-cut) spec of an fstab entry of that pass whose spec is a block device or a `UUID=`/`LABEL=` tag, and whose mount point is not already mounted read-write. |
| Filesystems.CheckEntriesComplete | src/finit.c:96-117 | Every fstab entry of the pass that passes those filters is checked. |
| Filesystems.CheckEntriesNothing | src/finit.c:89-122 | When fstab opens and none of its entries qualifies, `fsck(pass)` runs nothing and returns 0. |
| Filesystems.CheckEntriesStatus | src/finit.c:89-122 | When fstab opens and exit codes are nonnegative, the sum `fsck(pass)` returns is nonnegative, and it is 0 exactly when every check it ran exited 0. |
| Filesystems.Fsck | src/finit.c:86-94 | If fstab cannot be opened, `fsck` runs no check and returns 1. Whatever happens, it runs only `fsck -a` commands. |
| Filesystems.FsckSelected | src/finit.c:86-122 | The whole of `fsck(pass)`: when fstab cannot be opened, no check and status 1; when it opens, exactly one check per selected entry in fstab order, and the sum of those checks' exit statuses. |
| Filesystems.FsckPasses | src/finit.c:129-135 | The pass loop: passes run in ascending order and stop at the first failing pass or at pass 9. All passes before the last succeeded. The result is the last pass's status. The status is 0 exactly when every pass up to 9 returns 0. The trace is the passes' checks in order. |
| Filesystems.FsckAll | src/finit.c:125-136 | `fsck_all()` starts at pass 1 and never goes beyond pass 9. It returns the status of the first failing pass, so it returns 0 exactly when all nine passes return 0. |
| Filesystems.FirstPassFailure | src/finit.c:129-133 | A failing pass 1 stops the loop: no later pass runs, `/` is not remounted read-write, and `mount -na` still runs. |
| Filesystems.FindRoot | src/finit.c:146-149 | The scan finds the first fstab entry for `/`, and finds none exactly when `/` is not listed. |
| Filesystems.RemountRoot | src/finit.c:139-164 | `/` is remounted read-write exactly when fstab opens, lists `/` not as `ro`, and fsck succeeded. When fsck failed and `/` is so listed, the remount is refused instead. Otherwise `/` is left alone. |
| Filesystems.MountPhaseOrder | src/finit.c:186-195 | After the checks: `ROOTFS_UP` comes before `mount -na`, which comes before `MOUNT_POST`, which comes before `swapon`. `MOUNT_ERROR` fires exactly when the mount fails. |
| Filesystems.FsInitHooks | src/finit.c:176-197 | `fs_init()` fires `ROOTFS_UP`, then `MOUNT_ERROR` exactly when `mount -na` fails, then `MOUNT_POST`, and no other hook. This holds whether or not the boot is a rescue boot. |
| Filesystems.FsInitRescue | src/finit.c:180-183 | A rescue boot runs no fsck and no remount of `/`. |
| Filesystems.FsInitRemount | src/finit.c:180-183 | Outside rescue mode, `/` is remounted read-write exactly when `fsck_all()` returned 0 and `/` is listed and not read-only. It is refused exactly when `fsck_all()` failed and `/` is so listed. |
| Filesystems.FsInitChecksFirst | src/finit.c:180-187 | Every fsck check and remount happens before `ROOTFS_UP` fires. |
| Filesystems.FsInitOrder | src/finit.c:187-195 | In `fs_init()`: `ROOTFS_UP` comes before `mount -na`, which comes before `MOUNT_POST`, which comes before `swapon`. `mount -na` runs exactly once. |
| CompletionGate.Chain | src/finit.c:312-331 | The runs of `final_worker`. Every run leaves the counter one lower than the previous run. A run asks `service_completed()` exactly when the counter before it is positive. Every run but the last asked, was told "not yet", rescheduled and did not finalize. The last run finalizes and does not reschedule, and if it asked, it was told "done". There are at most counter + 1 runs. |
| CompletionGate.ChainExhausted | src/finit.c:319-330 | If every run within the counter is told "not yet", there is exactly one run more than the counter, and that last run does not ask. |
| CompletionGate.ChainStopsAt | src/finit.c:319-330 | If the first "done" comes on run k within the counter, the chain ends on that run, and that run asked. |
| CompletionGate.NeverCompleted | src/finit.c:312-331 | If the bootstrap never completes: 121 runs; the first 120 reschedule; the last finalizes without asking. |
| CompletionGate.CompletedAtRun | src/finit.c:312-331 | If `service_completed()` first says yes on run k ≤ 120, there are exactly k runs, no run k+1, and the last run asked. |
| CompletionGate.ChainUnasked | src/finit.c:319 | A last run that did not ask implies every run within the counter was told "not yet". |
| CompletionGate.ExhaustedIffNeverCompleted | src/finit.c:319-330 | The last run skips `service_completed()` exactly when it never said yes during runs 1 to 120. |
| CompletionGate.GateCountsFinalize | src/finit.c:312-331 | Over the chain, every event the worker does not make itself occurs as often as in one `finalize()`, so `finalize()` runs exactly once. |
| CompletionGate.GateResubmits | src/finit.c:319-322 | Every run but the last reschedules the worker. |
| CompletionGate.GateQueries | src/finit.c:319 | `service_completed()` is asked by every run but the last, and by the last only when its counter still allowed it. |
| CompletionGate.GateSteps | src/finit.c:316-317 | Every run steps all services once, in addition to the steps `finalize()` makes. |
| CompletionGate.GateHooks | src/finit.c:312-331 | The worker fires no hook of its own. The hooks of the chain are exactly those of one `finalize()`. |
| CompletionGate.GateNeverCompleted | src/finit.c:312-331 | If the bootstrap never completes: 120 reschedules, 120 queries, and 121 steps besides those of `finalize()`. |
| CompletionGate.GateCompletedAt | src/finit.c:312-331 | If the first "done" comes on run k: k − 1 reschedules, k queries, and k steps besides those of `finalize()`. |
| Finalization.FinalizeRunParts | src/finit.c:258-259 | The start scripts run exactly when a run-parts directory is configured, is a directory, and the boot is not a rescue boot. |
| Finalization.FinalizeRcLocal | src/finit.c:277-278 | `rc.local` runs exactly when it is executable and the boot is not a rescue boot. |
| Finalization.FinalizeRescue | src/finit.c:258-278 | A rescue boot runs neither the start scripts nor `rc.local`. |
| Finalization.FinalizeHooks | src/finit.c:273-282 | `finalize()` fires `SVC_UP` and then `SYSTEM_UP`, and no other hook. |
| Finalization.FinalizeRunlevelOnce | src/finit.c:265 | `finalize()` changes to the configured runlevel exactly once. |
| Finalization.FinalizeTtysOnce | src/finit.c:291 | `finalize()` starts the TTYs exactly once. |
| Finalization.FinalizeSteps | src/finit.c:274-283 | `finalize()` steps all services exactly twice. |
| Finalization.FinalizeOrder | src/finit.c:258-273 | The start scripts come before the runlevel change, which comes before pruning the bootstrap-only services, which comes before `SVC_UP`. |
| Finalization.FinalizeTail | src/finit.c:273-291 | `rc.local` runs after `SVC_UP` and before `SYSTEM_UP`. The last two calls silence the log and then start the TTYs. |
| Finalization.FinalizeStepsFollowHooks | src/finit.c:273-283 | Each of the two hooks of `finalize()` is followed at once by a step of all services. |
| Finalization.FinalizeRcLocalPlace | src/finit.c:274-287 | `rc.local`, when it runs, comes right after the step that follows `SVC_UP` and right before `SYSTEM_UP`. `SYSTEM_UP` and its step are the fourth- and third-last calls, before silencing the log and starting the TTYs. |
| Sequencer.BannerBehaviour | src/finit.c:73-81 | `banner()` fires `BANNER` first and fires no other hook. It prints the heading exactly when the log is not silent. |
| Sequencer.MainScreen | src/finit.c:373-374 | The screen is set up exactly when the boot is neither a rescue nor a debug boot. |
| Sequencer.MainHooks | src/finit.c:383-421 | `main()` fires `BANNER`, `ROOTFS_UP`, `MOUNT_ERROR` (only when `mount -na` fails), `MOUNT_POST` and `BASEFS_UP`, in that order. It fires no other hook. |
| Sequencer.MainOneshots | src/finit.c:414-415 | `main()` sets one-shot conditions for exactly `BANNER` and `ROOTFS_UP`, in that order. |
| Sequencer.MainOneshotOrder | src/finit.c:388-421 | Both one-shot conditions are set after `cond_init()` and before `BASEFS_UP` fires. Each is set after its own hook ran. |
| Sequencer.MainPluginsFirst | src/finit.c:381-388 | The plugins are loaded before any hook fires. |
| Sequencer.MainSchedules | src/finit.c:433-437 | `main()` ends by scheduling the crank work item (no delay) and then the final work item (1000 ms). It schedules nothing else. |
| Sequencer.MainEarly | src/finit.c:333-444 | `main()` itself never steps services, asks `service_completed()`, changes runlevel, runs start scripts or `rc.local`, or starts TTYs. Those happen only in the work items. |
| Sequencer.BootHooks | src/finit.c:253-444 | Over the whole boot, the hooks fire in this order: `BANNER`, `ROOTFS_UP`, `MOUNT_ERROR` (only when `mount -na` fails), `MOUNT_POST`, `BASEFS_UP`, `SVC_UP`, `SYSTEM_UP`. |
| Sequencer.BootSwitchesOnce | src/finit.c:312-331 | Whatever `service_completed()` answers, the boot changes to the configured runlevel exactly once. |
| Sequencer.BootTtysOnce | src/finit.c:312-331 | Whatever `service_completed()` answers, the boot starts the TTYs exactly once. |
| Sequencer.BootNeverCompleted | src/finit.c:312-331 | If the bootstrap never completes, the whole boot has 120 reschedules and 120 queries, and steps all services 123 times (121 in the worker, 2 in `finalize()`). |
| Sequencer.BootCompletedAt | src/finit.c:312-331 | If the first "done" comes on run k, the whole boot has k − 1 reschedules and k queries, and steps all services k + 2 times. |

## Left out

- `emergency_shell()`: it does something only in builds with `EMERGENCY_SHELL`. There, PID 1 forks; the child carries on with the boot, while PID 1 waits for the child to exit and then execs a shell. The model follows the process that carries on with the boot.
- The `SYSROOT` variant of `fs_remount_root()`: only the variant for systems without a sysroot is modelled.
- Client mode: `main()` run as a process other than PID 1 hands over to the client tool. The model starts at PID 1.
- The event loop and its timers.
  - The crank item (no delay) is modelled as running before the first final-worker run (1000 ms delay).
  - The delay is only recorded in the `Schedule` event.
  - Each reschedule is modelled as exactly one further run of `final_worker`.
- Plugins, conditions, configuration, the API, the state machine and the service layer are opaque events. Their internals are not part of this model.
- Real I/O is modelled as fields of `Machine` that the boot reads. This covers stat, fstab, `run_interactive`, `access` and `fisdir`. Each answer is fixed for the whole boot: in particular `fsckExit` gives one exit status per command text, so the same `fsck -a <spec>` run twice (a spec listed twice, or two long specs with the same first 71 characters) exits the same way both times.
- `string_match()` and `ismnt()` are abstract predicates.
- Log and debug messages are left out, including which message `final_worker` logs before it calls `finalize()`. Which message is printed depends on the counter after its decrement, not on whether the bootstrap completed, and the model says nothing about it.
- `finalize()` has no re-entry guard in the code. Running it exactly once is a property of the worker chain (`CompletionGate.GateCountsFinalize`), not a check inside `finalize()`.
- Filesystems.CheckEntriesStatus: assumes every check exits with a nonnegative status, as process exit codes are. The C sum of statuses is also not modelled with `int` overflow.
- Filesystems.CommandSpec: counts characters as bytes. A spec with multibyte characters would be cut at a different character than the one this model cuts at.
- Filesystems.RemountRoot: `fsck()` reopens fstab with `setfsent()` on each of its passes, and `fs_remount_root()` reopens it once more. The model uses one fstab, `Machine.fstab`, for all of these reads. It does not model the file changing between them.
- Screen, signal, cgroup, environment and umask calls are recorded in order as events. Their effects are not modelled.
