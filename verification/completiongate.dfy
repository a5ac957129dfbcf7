/** The completion gate of boot: final_worker() steps all services, and
    while its budget lasts and service_completed() says the bootstrap tasks
    are still running it reschedules itself; after that it finalizes. */
module CompletionGate {
  import opened Events

  /** The initial value of final_worker()'s static counter: runs allowed
      to wait before finalize() is forced. */
  const Budget: int := 120

  /** What one final_worker() call did, and its counter afterwards. */
  datatype Run = Run(queried: bool, resubmitted: bool, finalized: bool, cntAfter: int)

  /** One final_worker() call with the counter at `cnt`, being run number
      `run` (from 1) and `completed(run)` the answer service_completed()
      gives on that run. The counter is decremented after the comparison,
      and service_completed() is only asked when the comparison holds. */
  function WorkerRun(cnt: int, completed: nat -> bool, run: nat): Run
  {
    var queried := cnt > 0;
    var resubmit := queried && !completed(run);
    Run(queried, resubmit, !resubmit, cnt - 1)
  }

  /** The runs of final_worker() from run number `run` on, starting with
      the counter at `cnt`: each resubmission leads to exactly one more run. */
  function Chain(completed: nat -> bool, cnt: int, run: nat): (rs: seq<Run>)
    decreases if cnt > 0 then cnt else 0
    ensures 1 <= |rs| <= (if cnt > 0 then cnt else 0) + 1
    ensures forall i :: 0 <= i < |rs| ==> rs[i].cntAfter == cnt - 1 - i
    ensures forall i :: 0 <= i < |rs| ==> (rs[i].queried <==> cnt - i > 0)
    ensures forall i :: 0 <= i < |rs| - 1 ==> rs[i].resubmitted && !rs[i].finalized
    ensures forall i :: 0 <= i < |rs| - 1 ==> rs[i].queried
    ensures forall k :: run <= k < run + |rs| - 1 ==> !completed(k)
    ensures rs[|rs| - 1].finalized && !rs[|rs| - 1].resubmitted
    ensures rs[|rs| - 1].queried ==> completed(run + |rs| - 1)
  {
    var r := WorkerRun(cnt, completed, run);
    if r.resubmitted then [r] + Chain(completed, cnt - 1, run + 1) else [r]
  }

  /** All runs of final_worker() during one boot, its counter starting at
      the budget and the first run being run 1. */
  function FinalWorker(completed: nat -> bool): seq<Run>
  {
    Chain(completed, Budget, 1)
  }

  /** A chain whose every run within the counter is told "not yet" runs
      once more than the counter allows, and its last run does not ask. */
  lemma ChainExhausted(completed: nat -> bool, cnt: nat, run: nat)
    requires forall k :: run <= k < run + cnt ==> !completed(k)
    ensures |Chain(completed, cnt, run)| == cnt + 1
    ensures !Chain(completed, cnt, run)[cnt].queried
  {
    var rs := Chain(completed, cnt, run);
    assert !rs[|rs| - 1].queried;
  }

  /** A chain first told "done" on its run `k` (counted from 0) within the
      counter has exactly k + 1 runs, and the last one asked. */
  lemma ChainStopsAt(completed: nat -> bool, cnt: nat, run: nat, k: nat)
    requires k < cnt && completed(run + k)
    requires forall j :: run <= j < run + k ==> !completed(j)
    ensures |Chain(completed, cnt, run)| == k + 1
    ensures Chain(completed, cnt, run)[k].queried
  {
    var rs := Chain(completed, cnt, run);
    var i := |rs| - 1;
    assert i >= k by {
      assert rs[i].queried ==> completed(run + i);
    }
    if k < i {
      ChainWaited(completed, cnt, run, k);
      assert false;
    }
  }

  lemma ChainWaited(completed: nat -> bool, cnt: int, run: nat, j: nat)
    requires j < |Chain(completed, cnt, run)| - 1
    ensures !completed(run + j)
  {
    assert Chain(completed, cnt, run)[j].resubmitted;
  }

  /** If service_completed() never answers yes, final_worker() runs
      Budget + 1 times: every run but the last waits, and the last one no
      longer asks service_completed() before finalizing. */
  lemma NeverCompleted(completed: nat -> bool)
    requires forall k :: 1 <= k <= Budget ==> !completed(k)
    ensures |FinalWorker(completed)| == Budget + 1
    ensures !FinalWorker(completed)[Budget].queried
    ensures forall i :: 0 <= i < Budget ==> FinalWorker(completed)[i].resubmitted
  {
    ChainExhausted(completed, Budget, 1);
  }

  /** If service_completed() first answers yes on run k within the budget,
      final_worker() runs exactly k times and the last run asked it. */
  lemma CompletedAtRun(completed: nat -> bool, k: nat)
    requires 1 <= k <= Budget && completed(k)
    requires forall j :: 1 <= j < k ==> !completed(j)
    ensures |FinalWorker(completed)| == k
    ensures FinalWorker(completed)[k - 1].queried
  {
    ChainStopsAt(completed, Budget, 1, k - 1);
  }

  /** A chain whose last run did not ask was told "not yet" on every run
      within its counter. */
  lemma ChainUnasked(completed: nat -> bool, cnt: nat, run: nat)
    requires !Chain(completed, cnt, run)[|Chain(completed, cnt, run)| - 1].queried
    ensures forall k :: run <= k < run + cnt ==> !completed(k)
  {
    var rs := Chain(completed, cnt, run);
    assert |rs| - 1 >= cnt;
    forall k | run <= k < run + cnt
      ensures !completed(k)
    {
      ChainWaited(completed, cnt, run, k - run);
    }
  }

  /** final_worker() finalizes without asking service_completed() on its
      last run exactly when service_completed() never said yes within the
      budget: the wait ran out rather than the bootstrap completing. */
  lemma ExhaustedIffNeverCompleted(completed: nat -> bool)
    ensures !FinalWorker(completed)[|FinalWorker(completed)| - 1].queried <==>
      forall k :: 1 <= k <= Budget ==> !completed(k)
  {
    if !FinalWorker(completed)[|FinalWorker(completed)| - 1].queried {
      ChainUnasked(completed, Budget, 1);
    }
    if forall k :: 1 <= k <= Budget ==> !completed(k) {
      ChainExhausted(completed, Budget, 1);
    }
  }

  /** A resubmission chain: every run but the last asked, was resubmitted
      and did not finalize; the last finalized and was not resubmitted. */
  predicate Shaped(rs: seq<Run>)
  {
    && |rs| >= 1
    && (forall i :: 0 <= i < |rs| - 1 ==> rs[i].queried && rs[i].resubmitted && !rs[i].finalized)
    && rs[|rs| - 1].finalized && !rs[|rs| - 1].resubmitted
  }

  lemma FinalWorkerShaped(completed: nat -> bool)
    ensures Shaped(FinalWorker(completed))
  {
  }

  /** The calls one final_worker() run makes, `fin` being what finalize() does. */
  function RunEvents(r: Run, fin: seq<Event>): seq<Event>
  {
    [StepAll]
    + (if r.queried then [QueryCompleted] else [])
    + (if r.resubmitted then [Resubmit] else [])
    + (if r.finalized then fin else [])
  }

  /** The calls of a sequence of final_worker() runs, one after another. */
  function GateTrace(rs: seq<Run>, fin: seq<Event>): seq<Event>
  {
    if rs == [] then [] else RunEvents(rs[0], fin) + GateTrace(rs[1..], fin)
  }

  /** An event final_worker() makes itself rather than through finalize(). */
  predicate GateEvent(e: Event)
  {
    e == StepAll || e == QueryCompleted || e == Resubmit
  }

  /** How often one run makes the event `e`, part by part. */
  lemma RunCount(r: Run, fin: seq<Event>, e: Event)
    ensures Count(RunEvents(r, fin), e) ==
      Count([StepAll], e)
      + Count(if r.queried then [QueryCompleted] else [], e)
      + Count(if r.resubmitted then [Resubmit] else [], e)
      + (if r.finalized then Count(fin, e) else 0)
  {
    var q: seq<Event> := if r.queried then [QueryCompleted] else [];
    var s: seq<Event> := if r.resubmitted then [Resubmit] else [];
    var f: seq<Event> := if r.finalized then fin else [];
    CountJoin([StepAll], q, s, f, e);
  }

  /** An event the worker does not make itself comes only from finalize(). */
  lemma RunCountOther(r: Run, fin: seq<Event>, e: Event)
    requires !GateEvent(e)
    ensures Count(RunEvents(r, fin), e) == if r.finalized then Count(fin, e) else 0
  {
    RunCount(r, fin, e);
    CountSingle(StepAll, e);
    CountFlag(r.queried, QueryCompleted, e);
    CountFlag(r.resubmitted, Resubmit, e);
  }

  lemma RunCountResubmit(r: Run, fin: seq<Event>)
    ensures Count(RunEvents(r, fin), Resubmit) ==
      (if r.resubmitted then 1 else 0) + (if r.finalized then Count(fin, Resubmit) else 0)
  {
    RunCount(r, fin, Resubmit);
    CountSingle(StepAll, Resubmit);
    CountFlag(r.queried, QueryCompleted, Resubmit);
    CountFlag(r.resubmitted, Resubmit, Resubmit);
  }

  lemma RunCountQuery(r: Run, fin: seq<Event>)
    ensures Count(RunEvents(r, fin), QueryCompleted) ==
      (if r.queried then 1 else 0) + (if r.finalized then Count(fin, QueryCompleted) else 0)
  {
    RunCount(r, fin, QueryCompleted);
    CountSingle(StepAll, QueryCompleted);
    CountFlag(r.queried, QueryCompleted, QueryCompleted);
    CountFlag(r.resubmitted, Resubmit, QueryCompleted);
  }

  lemma RunCountStep(r: Run, fin: seq<Event>)
    ensures Count(RunEvents(r, fin), StepAll) == 1 + (if r.finalized then Count(fin, StepAll) else 0)
  {
    RunCount(r, fin, StepAll);
    CountSingle(StepAll, StepAll);
    CountFlag(r.queried, QueryCompleted, StepAll);
    CountFlag(r.resubmitted, Resubmit, StepAll);
  }

  /** Counting over a trace of runs splits at its first run. */
  lemma GateSplit(rs: seq<Run>, fin: seq<Event>, e: Event)
    requires Shaped(rs)
    ensures |rs| == 1 ==> Count(GateTrace(rs, fin), e) == Count(RunEvents(rs[0], fin), e)
    ensures |rs| > 1 ==> Shaped(rs[1..]) && rs[1..][|rs| - 2] == rs[|rs| - 1]
    ensures Count(GateTrace(rs, fin), e) == Count(RunEvents(rs[0], fin), e) + Count(GateTrace(rs[1..], fin), e)
  {
    CountConcat(RunEvents(rs[0], fin), GateTrace(rs[1..], fin), e);
    if |rs| == 1 {
      assert GateTrace(rs[1..], fin) == [];
    } else {
      assert forall i :: 0 <= i < |rs| - 2 ==> rs[1..][i] == rs[i + 1];
    }
  }

  /** Over a resubmission chain, every event not made by the worker itself
      occurs exactly as often as in one finalize(): finalize() runs once. */
  lemma {:induction false} GateCountsFinalize(rs: seq<Run>, fin: seq<Event>, e: Event)
    requires Shaped(rs)
    requires !GateEvent(e)
    ensures Count(GateTrace(rs, fin), e) == Count(fin, e)
  {
    GateSplit(rs, fin, e);
    RunCountOther(rs[0], fin, e);
    if |rs| > 1 {
      GateCountsFinalize(rs[1..], fin, e);
    }
  }

  /** Over a resubmission chain every run but the last reschedules the worker. */
  lemma {:induction false} GateResubmits(rs: seq<Run>, fin: seq<Event>)
    requires Shaped(rs)
    requires Resubmit !in fin
    ensures Count(GateTrace(rs, fin), Resubmit) == |rs| - 1
  {
    GateSplit(rs, fin, Resubmit);
    RunCountResubmit(rs[0], fin);
    CountAbsent(fin, Resubmit);
    if |rs| > 1 {
      GateResubmits(rs[1..], fin);
    }
  }

  /** Over a resubmission chain service_completed() is asked by every run
      but the last, and by the last only if its counter still allowed it. */
  lemma {:induction false} GateQueries(rs: seq<Run>, fin: seq<Event>)
    requires Shaped(rs)
    requires QueryCompleted !in fin
    ensures Count(GateTrace(rs, fin), QueryCompleted) ==
      |rs| - 1 + (if rs[|rs| - 1].queried then 1 else 0)
  {
    GateSplit(rs, fin, QueryCompleted);
    RunCountQuery(rs[0], fin);
    CountAbsent(fin, QueryCompleted);
    if |rs| > 1 {
      GateQueries(rs[1..], fin);
    }
  }

  /** Over a resubmission chain every run steps all services once, besides
      the steps finalize() makes. */
  lemma {:induction false} GateSteps(rs: seq<Run>, fin: seq<Event>)
    requires Shaped(rs)
    ensures Count(GateTrace(rs, fin), StepAll) == |rs| + Count(fin, StepAll)
  {
    GateSplit(rs, fin, StepAll);
    RunCountStep(rs[0], fin);
    if |rs| > 1 {
      GateSteps(rs[1..], fin);
    }
  }

  /** One run fires a hook only through finalize(). */
  lemma RunHooks(r: Run, fin: seq<Event>)
    ensures Hooks(RunEvents(r, fin)) == if r.finalized then Hooks(fin) else []
  {
    var p: seq<Event> := [StepAll]
      + (if r.queried then [QueryCompleted] else [])
      + (if r.resubmitted then [Resubmit] else []);
    var f: seq<Event> := if r.finalized then fin else [];
    assert RunEvents(r, fin) == p + f;
    NoHooks(p);
    HooksConcat(p, f);
    if !r.finalized {
      NoHooks(f);
    }
  }

  /** Over a resubmission chain, finalize()'s hooks fire once, in its order,
      and the worker fires none of its own. */
  lemma {:induction false} GateHooks(rs: seq<Run>, fin: seq<Event>)
    requires Shaped(rs)
    ensures Hooks(GateTrace(rs, fin)) == Hooks(fin)
  {
    var rest := GateTrace(rs[1..], fin);
    assert GateTrace(rs, fin) == RunEvents(rs[0], fin) + rest;
    HooksConcat(RunEvents(rs[0], fin), rest);
    RunHooks(rs[0], fin);
    if |rs| == 1 {
      assert rest == [];
    } else {
      assert Shaped(rs[1..]) by {
        assert forall i :: 0 <= i < |rs| - 2 ==> rs[1..][i] == rs[i + 1];
      }
      GateHooks(rs[1..], fin);
    }
  }

  /** The calls final_worker() makes over one boot, `fin` being what
      finalize() does. */
  function Gate(completed: nat -> bool, fin: seq<Event>): seq<Event>
  {
    GateTrace(FinalWorker(completed), fin)
  }

  /** Over a resubmission chain whose finalize() neither asks nor
      reschedules: the counts of the worker's own events. */
  lemma GateCounts(rs: seq<Run>, fin: seq<Event>)
    requires Shaped(rs)
    requires Resubmit !in fin && QueryCompleted !in fin
    ensures Count(GateTrace(rs, fin), Resubmit) == |rs| - 1
    ensures Count(GateTrace(rs, fin), QueryCompleted) ==
      |rs| - 1 + (if rs[|rs| - 1].queried then 1 else 0)
    ensures Count(GateTrace(rs, fin), StepAll) == |rs| + Count(fin, StepAll)
  {
    GateResubmits(rs, fin);
    GateQueries(rs, fin);
    GateSteps(rs, fin);
  }

  /** A chain told "not yet" on every run within its counter reschedules
      and asks once per unit of counter, and steps once more than that. */
  lemma ChainGateExhausted(completed: nat -> bool, cnt: nat, run: nat, fin: seq<Event>)
    requires forall k :: run <= k < run + cnt ==> !completed(k)
    requires Resubmit !in fin && QueryCompleted !in fin
    ensures Count(GateTrace(Chain(completed, cnt, run), fin), Resubmit) == cnt
    ensures Count(GateTrace(Chain(completed, cnt, run), fin), QueryCompleted) == cnt
    ensures Count(GateTrace(Chain(completed, cnt, run), fin), StepAll) == cnt + 1 + Count(fin, StepAll)
  {
    ChainExhausted(completed, cnt, run);
    GateCounts(Chain(completed, cnt, run), fin);
  }

  /** A chain first told "done" on its run `k` (from 0) within its counter
      reschedules k times, asks k + 1 times and steps k + 1 times. */
  lemma ChainGateStopsAt(completed: nat -> bool, cnt: nat, run: nat, k: nat, fin: seq<Event>)
    requires k < cnt && completed(run + k)
    requires forall j :: run <= j < run + k ==> !completed(j)
    requires Resubmit !in fin && QueryCompleted !in fin
    ensures Count(GateTrace(Chain(completed, cnt, run), fin), Resubmit) == k
    ensures Count(GateTrace(Chain(completed, cnt, run), fin), QueryCompleted) == k + 1
    ensures Count(GateTrace(Chain(completed, cnt, run), fin), StepAll) == k + 1 + Count(fin, StepAll)
  {
    ChainStopsAt(completed, cnt, run, k);
    GateCounts(Chain(completed, cnt, run), fin);
  }

  /** Never completed: Budget reschedules and Budget queries, then one
      finalize(). */
  lemma GateNeverCompleted(completed: nat -> bool, fin: seq<Event>)
    requires forall k :: 1 <= k <= Budget ==> !completed(k)
    requires Resubmit !in fin && QueryCompleted !in fin
    ensures Count(Gate(completed, fin), Resubmit) == Budget
    ensures Count(Gate(completed, fin), QueryCompleted) == Budget
    ensures Count(Gate(completed, fin), StepAll) == Budget + 1 + Count(fin, StepAll)
  {
    ChainGateExhausted(completed, Budget, 1, fin);
  }

  /** First completed on run k: k - 1 reschedules and k queries, then one
      finalize(). */
  lemma GateCompletedAt(completed: nat -> bool, fin: seq<Event>, k: nat)
    requires 1 <= k <= Budget && completed(k)
    requires forall j :: 1 <= j < k ==> !completed(j)
    requires Resubmit !in fin && QueryCompleted !in fin
    ensures Count(Gate(completed, fin), Resubmit) == k - 1
    ensures Count(Gate(completed, fin), QueryCompleted) == k
    ensures Count(Gate(completed, fin), StepAll) == k + Count(fin, StepAll)
  {
    ChainGateStopsAt(completed, Budget, 1, k - 1, fin);
  }
}
