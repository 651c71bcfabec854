/** What holds over whole runs of a thread pool, for any number of workers and calls and any interleaving. */
module PoolRuns {
  import opened Options
  import opened Measures
  import opened Tallies
  import opened ThreadPools
  import opened PoolSafety
  import opened PoolHistory
  import opened PoolCalls

  ghost predicate PoolInv(p: Pool) {
    WakeInv(p) && History(p) && EndsJustified(p)
  }

  lemma InitInv(nbThreads: nat, maxJobs: nat)
    ensures PoolInv(Init(nbThreads, maxJobs))
  {
    hide NumW, NumC;
    var p := Init(nbThreads, maxJobs);
    forall k | k != ReadyWorker ensures NumW(p.workers, k) == 0 {
      NumWZero(p.workers, k);
    }
    forall k ensures NumC(p.calls, k) == 0 {
      NumCZero(p.calls, k);
    }
  }

  lemma {:induction false} RunKeepsInv(p: Pool, steps: seq<Step>)
    requires PoolInv(p) && Legal(p, steps)
    ensures PoolInv(Exec(p, steps))
    decreases |steps|
  {
    hide Enabled, Apply, History, EndsJustified;
    if steps == [] {
    } else {
      StepKeepsHistory(p, steps[0]);
      StepKeepsWakeInv(p, steps[0]);
      StepKeepsEnds(p, steps[0]);
      RunKeepsInv(Apply(p, steps[0]), steps[1..]);
    }
  }

  /** In every reachable state no wakeup is lost and the history of every task is accounted for. */
  lemma ReachableIsSafe(nbThreads: nat, maxJobs: nat, steps: seq<Step>)
    requires Legal(Init(nbThreads, maxJobs), steps)
    ensures PoolInv(Exec(Init(nbThreads, maxJobs), steps))
  {
    hide PoolInv, Legal, Exec;
    InitInv(nbThreads, maxJobs);
    RunKeepsInv(Init(nbThreads, maxJobs), steps);
  }

  // ---- Order and permanence

  /** One step later: accepted tasks stay accepted, fates are only appended in the order of acceptance or
      completed, nothing restarts, and a pool that is stopped and empty stays so.  */
  ghost predicate Follows(p: Pool, q: Pool) {
    && |p.workers| == |q.workers| && |p.calls| <= |q.calls|
    && p.accepted <= q.accepted
    && |p.fates| <= |q.fates|
    && (forall k | 0 <= k < |p.fates| ::
          || q.fates[k] == p.fates[k]
          || (p.fates[k].InProgress? && q.fates[k] == Done(p.fates[k].worker)))
    && (forall w | 0 <= w < |p.workers| && p.workers[w].Exited? :: q.workers[w].Exited?)
    && (p.stop ==> q.stop && q.accepted == p.accepted && (p.tasks == [] ==> q.tasks == [] && |q.fates| == |p.fates|))
  }

  lemma SectionFollows(p: Pool, c: nat)
    requires Enabled(p, CallEnter(c))
    ensures Follows(p, CallSection(p, c))
  {}

  lemma ExecuteFollows(p: Pool, w: nat)
    requires FatesExact(p) && Enabled(p, Execute(w))
    ensures Follows(p, Apply(p, Execute(w)))
  {}

  lemma StepFollows(p: Pool, step: Step)
    requires FatesExact(p) && Enabled(p, step)
    ensures Follows(p, Apply(p, step))
  {
    hide CallSection;
    match step
    case CallEnter(c) => SectionFollows(p, c);
    case Execute(w) => ExecuteFollows(p, w);
    case _ => hide FatesExact;
  }

  lemma {:induction false} RunFollows(p: Pool, steps: seq<Step>)
    requires PoolInv(p) && Legal(p, steps)
    ensures Follows(p, Exec(p, steps))
    decreases |steps|
  {
    hide Enabled, Apply, WorkersServed, EnqueuersServed, WaitersServed, StopConsistent, FatesExact, EndsJustified;
    if steps == [] {
    } else {
      StepFollows(p, steps[0]);
      StepKeepsHistory(p, steps[0]);
      StepKeepsWakeInv(p, steps[0]);
      StepKeepsEnds(p, steps[0]);
      RunFollows(Apply(p, steps[0]), steps[1..]);
    }
  }

  /** Tasks enter, and so start, in the order of their calls: if enqueue a had been accepted when enqueue b was
      undecided or not begun, then the task of a comes first, and has left the queue whenever that of b has.  */
  lemma EarlierAcceptedFirst(p: Pool, steps: seq<Step>, a: nat, b: nat, j: nat, k: nat)
    requires PoolInv(p) && Legal(p, steps)
    requires a < |p.calls| && MarkOf(p.calls[a]) == Accepted
    requires b >= |p.calls| || MarkOf(p.calls[b]) == Unmarked
    requires var q := Exec(p, steps); j < |q.accepted| && k < |q.accepted| && q.accepted[j] == a && q.accepted[k] == b
    ensures j < |p.accepted| <= k
    ensures k < |Exec(p, steps).fates| ==> j < |Exec(p, steps).fates|
  {
    hide Legal, Exec, WakeInv, Order, FatesExact, WaitsExact, JoinsExact;
    RunFollows(p, steps);
    RunKeepsInv(p, steps);
    var i :| 0 <= i < |p.accepted| && p.accepted[i] == a;
    assert Exec(p, steps).accepted[i] == a;
  }

  /** Over any run of a new pool: the accepted tasks were enqueued, each by a call of its own, and the discarded ones
      fell to a call of `stop_now`.  */
  lemma TasksAreRequested(nbThreads: nat, maxJobs: nat, steps: seq<Step>)
    requires Legal(Init(nbThreads, maxJobs), steps)
    ensures var q, requests := Exec(Init(nbThreads, maxJobs), steps), Requests(steps);
            && (forall k | 0 <= k < |q.accepted| ::
                  q.accepted[k] < |requests| && requests[q.accepted[k]] == Enqueue)
            && (forall j, k | 0 <= j < k < |q.accepted| :: q.accepted[j] != q.accepted[k])
            && (forall k | 0 <= k < |q.fates| && q.fates[k].Discarded? ::
                  q.fates[k].call < |requests| && requests[q.fates[k].call] == StopPool(Immediate))
  {
    hide Legal, Exec, WakeInv, Order, WaitsExact, JoinsExact;
    ReachableIsSafe(nbThreads, maxJobs, steps);
    RunServes(Init(nbThreads, maxJobs), steps);
  }

  // ---- What an exit, a join and a wait mean

  lemma WorkerGone(p: Pool, w: nat)
    requires StopConsistent(p) && w < |p.workers| && p.workers[w].Exited?
    ensures p.stop && p.tasks == []
  {
    NumWUpdate(p.workers, w, p.workers[w]);
  }

  /** A worker exits only from a pool that is stopped and empty, and the pool stays so for ever. */
  lemma ExitIsFinal(p: Pool, w: nat, steps: seq<Step>)
    requires PoolInv(p) && Legal(p, steps)
    requires w < |p.workers| && p.workers[w].Exited?
    ensures p.stop && p.tasks == []
    ensures var q := Exec(p, steps);
            q.stop && q.tasks == [] && q.accepted == p.accepted && |q.workers| == |p.workers| && q.workers[w].Exited?
  {
    hide Legal, Exec, History;
    WorkerGone(p, w);
    RunFollows(p, steps);
  }

  predicate CallsStopNow(calls: seq<CallPc>) {
    exists c :: 0 <= c < |calls| && MarkOf(calls[c]) == Discarding
  }

  /** The destructor returns only after its joins: then every worker has exited. */
  lemma DestructorJoins(p: Pool, c: nat)
    requires PoolInv(p) && c < |p.calls|
    requires RequestOf(p.calls[c]) == StopPool(Destructor) && CallRoleOf(p.calls[c]) == Finished
    ensures p.calls[c] == DestroyDone && p.stop
    ensures forall w | 0 <= w < |p.workers| :: p.workers[w].Exited?
  {
    hide WakeInv, Order, AcceptExact, FatesExact, WaitsExact;
    assert HasStopped(p.calls[c]);
    assert MarkOf(p.calls[c]) == Destroyed;
  }

  /** When a call begun as the destructor has returned, every accepted task is done, or was discarded by a `stop_now`;
      without one, every accepted task is done.  */
  lemma DestructorDrains(p: Pool, c: nat)
    requires PoolInv(p) && |p.workers| > 0 && c < |p.calls|
    requires RequestOf(p.calls[c]) == StopPool(Destructor) && CallRoleOf(p.calls[c]) == Finished
    ensures p.stop && p.tasks == [] && |p.fates| == |p.accepted|
    ensures forall k | 0 <= k < |p.accepted| ::
              || p.fates[k].Done?
              || (&& p.fates[k].Discarded? && p.fates[k].call < |p.calls|
                  && MarkOf(p.calls[p.fates[k].call]) == Discarding)
    ensures !CallsStopNow(p.calls) ==> forall k | 0 <= k < |p.accepted| :: p.fates[k].Done?
  {
    hide AcceptExact, WaitsExact, EndsJustified, RequestOf;
    DestructorJoins(p, c);
    WorkerGone(p, 0);
  }

  /** Once a `stop_now` has been through its critical section the pool is stopped and empty for ever, nothing more is
      accepted, and what the call discarded is never run.  */
  lemma StopNowIsFinal(p: Pool, c: nat, steps: seq<Step>)
    requires PoolInv(p) && Legal(p, steps)
    requires c < |p.calls| && RequestOf(p.calls[c]) == StopPool(Immediate) && !p.calls[c].StopEntry?
    ensures p.stop && p.tasks == [] && |p.fates| == |p.accepted|
    ensures var q := Exec(p, steps);
            && q.stop && q.tasks == [] && q.accepted == p.accepted && |q.fates| == |p.fates|
            && forall k | 0 <= k < |p.fates| && p.fates[k].Discarded? :: q.fates[k] == p.fates[k]
  {
    hide Legal, Exec, WakeInv, AcceptExact, FatesExact, WaitsExact, JoinsExact;
    assert HasStopped(p.calls[c]) && MarkOf(p.calls[c]) == Discarding;
    RunFollows(p, steps);
  }

  /** From the call of `stop_now` on: exactly what was queued at that moment is discarded, by this call and for ever. */
  lemma StopNowDiscards(p: Pool, c: nat, steps: seq<Step>)
    requires PoolInv(p) && c < |p.calls| && p.calls[c] == StopEntry(Immediate)
    requires Legal(Apply(p, CallEnter(c)), steps)
    ensures var q := Exec(Apply(p, CallEnter(c)), steps);
            && q.stop && q.tasks == [] && q.accepted == p.accepted && |q.fates| == |p.accepted|
            && forall k | |p.fates| <= k < |p.accepted| :: q.fates[k] == Discarded(c)
  {
    var next := Apply(p, CallEnter(c));
    assert RequestOf(next.calls[c]) == StopPool(Immediate) && !next.calls[c].StopEntry?;
    StopDecides(p, c, Immediate);
    hide Legal, Exec, Apply, RequestOf, WakeInv, AcceptExact, FatesExact, WaitsExact, JoinsExact, EndsJustified;
    StepKeepsHistory(p, CallEnter(c));
    StepKeepsWakeInv(p, CallEnter(c));
    StepKeepsEnds(p, CallEnter(c));
    StopNowIsFinal(next, c, steps);
  }

  /** The other case: a pool without workers never runs anything, and what leaves its queue is discarded. */
  lemma NoWorkersNothingDone(p: Pool)
    requires PoolInv(p) && |p.workers| == 0
    ensures forall k | 0 <= k < |p.fates| :: p.fates[k].Discarded?
    ensures !CallsStopNow(p.calls) ==> |p.tasks| == |p.accepted|
  {
    hide WakeInv, AcceptExact, WaitsExact, JoinsExact;
    if p.fates != [] {
      assert p.fates[0].Discarded?;
    }
  }

  /** When wait_all has returned, every task accepted before its final check is done or discarded, for ever. */
  lemma WaitAllIsExact(p: Pool, c: nat, steps: seq<Step>)
    requires PoolInv(p) && Legal(p, steps)
    requires c < |p.calls| && p.calls[c].WaitDone?
    ensures p.calls[c].seen <= |p.fates| <= |p.accepted|
    ensures var q := Exec(p, steps);
            p.calls[c].seen <= |q.fates| && forall k | 0 <= k < p.calls[c].seen :: Settled(q.fates[k])
  {
    hide Legal, Exec, WakeInv, AcceptExact, FatesExact, JoinsExact;
    RunFollows(p, steps);
    assert MarkOf(p.calls[c]) == Waited(p.calls[c].seen);
  }

  /** The final check itself: `wait_all` returns in a step exactly when nothing is queued or in progress, that is,
      when every accepted task is done or discarded and no worker is still retiring.  */
  lemma WaitAllChecks(p: Pool, c: nat)
    requires PoolInv(p) && c < |p.calls| && (p.calls[c].WaitEntry? || p.calls[c].WaitWoken?)
    ensures var q := Apply(p, CallEnter(c));
            q.calls[c].WaitDone? <==>
              && |p.fates| == |p.accepted| && (forall k | 0 <= k < |p.fates| :: Settled(p.fates[k]))
              && (forall w | 0 <= w < |p.workers| :: !HoldOf(p.workers[w]).Finishing?)
    ensures var q := Apply(p, CallEnter(c)); q.calls[c] == WaitDone(|p.accepted|) || q.calls[c].WaitAsleep?
  {
    hide NumW, NumC, AcceptExact, WaitsExact, JoinsExact, EndsJustified;
    if p.nbWorking == 0 && p.tasks == [] {
      NothingLeft(p);
      forall w | 0 <= w < |p.workers| ensures !HoldOf(p.workers[w]).Finishing? {
        NumWUpdate(p.workers, w, p.workers[w]);
      }
    } else if p.tasks == [] && (forall w | 0 <= w < |p.workers| :: !HoldOf(p.workers[w]).Finishing?) {
      SomeoneHolds(p);
    }
  }

  lemma SomeoneHolds(p: Pool)
    requires WaitersServed(p) && FatesExact(p) && p.nbWorking > 0
    requires forall w | 0 <= w < |p.workers| :: !HoldOf(p.workers[w]).Finishing?
    ensures exists k :: 0 <= k < |p.fates| && p.fates[k].InProgress?
  {
    hide NumW;
    NumWZero(p.workers, RetiringWorker) by {
      assert forall w | 0 <= w < |p.workers| ::
               WorkerRoleOf(p.workers[w]) == RetiringWorker ==> HoldOf(p.workers[w]).Finishing?;
    }
    if forall w | 0 <= w < |p.workers| :: !HoldOf(p.workers[w]).Holds? {
      NumWZero(p.workers, TakingWorker) by {
        assert forall w | 0 <= w < |p.workers| ::
               WorkerRoleOf(p.workers[w]) == TakingWorker ==> HoldOf(p.workers[w]).Holds?;
      }
      NumWZero(p.workers, RunningWorker) by {
        assert forall w | 0 <= w < |p.workers| ::
               WorkerRoleOf(p.workers[w]) == RunningWorker ==> HoldOf(p.workers[w]).Holds?;
      }
      assert false;
    }
    var w :| 0 <= w < |p.workers| && HoldOf(p.workers[w]).Holds?;
    assert p.fates[HoldOf(p.workers[w]).task] == InProgress(w);
  }

  // ---- Termination

  function WorkerWeight(pc: WorkerPc): nat {
    match pc
    case Took(_) => 5
    case Running(_) => 4
    case Retiring(_) => 3
    case Ready => 2
    case Idle => 1
    case Roused => 1
    case Exited => 0
  }

  /** What the destructor still has to do once it has stopped a pool of `n` workers. */
  function JoinWeight(kind: StopKind, n: nat): nat {
    if kind == Destructor then n + 1 else 0
  }

  function CallWeight(pc: CallPc, n: nat): nat {
    match pc
    case EnqueueEntry => 8
    case EnqueueAsleep => 7
    case EnqueueWoken => 7
    case EnqueueNotify => 1
    case StopEntry(kind) => 3 + JoinWeight(kind, n)
    case StopNotifyWorkers(kind) => 2 + JoinWeight(kind, n)
    case StopNotifyEnqueuers(kind) => 1 + JoinWeight(kind, n)
    case Joining(i) => if i <= n then n - i + 1 else 0
    case WaitEntry => 2
    case WaitAsleep => 1
    case WaitWoken => 1
    case _ => 0
  }

  function CallWeightIn(n: nat): CallPc -> nat {
    (pc: CallPc) => CallWeight(pc, n)
  }

  function WorkersWork(workers: seq<WorkerPc>): nat {
    Sum(workers, WorkerWeight)
  }

  /** The work of the calls on a pool of n workers. */
  function CallsWork(calls: seq<CallPc>, n: nat): nat {
    Sum(calls, CallWeightIn(n))
  }

  function RousedWorkers(workers: seq<WorkerPc>): nat {
    Sum(workers, RousedBit)
  }

  function WokenCalls(calls: seq<CallPc>): nat {
    Sum(calls, WokenBit)
  }

  function RousedBit(pc: WorkerPc): nat {
    if pc.Roused? then 1 else 0
  }

  function WokenBit(pc: CallPc): nat {
    if pc.EnqueueWoken? || pc.WaitWoken? then 1 else 0
  }

  /** The steps left, not counting the returns to sleep. */
  function Work(p: Pool): nat {
    5 * |p.tasks| + WorkersWork(p.workers) + CallsWork(p.calls, |p.workers|)
  }

  function AwakeAgain(p: Pool): nat {
    RousedWorkers(p.workers) + WokenCalls(p.calls)
  }

  predicate OwnStep(step: Step) {
    !step.Begin? && !step.SpuriousWorker? && !step.SpuriousCall?
  }

  ghost predicate Descends(p: Pool, q: Pool) {
    Work(q) < Work(p) || (Work(q) == Work(p) && AwakeAgain(q) < AwakeAgain(p))
  }

  lemma WorkersUpdate(workers: seq<WorkerPc>, w: nat, pc: WorkerPc)
    requires w < |workers|
    ensures WorkersWork(workers[w := pc]) == WorkersWork(workers) - WorkerWeight(workers[w]) + WorkerWeight(pc)
    ensures RousedWorkers(workers[w := pc]) == RousedWorkers(workers) - RousedBit(workers[w]) + RousedBit(pc)
  {
    hide Sum;
    SumUpdate(workers, WorkerWeight, w, pc);
    SumUpdate(workers, RousedBit, w, pc);
  }

  lemma CallsUpdate(calls: seq<CallPc>, c: nat, pc: CallPc, m: nat)
    requires c < |calls|
    ensures CallsWork(calls[c := pc], m) == CallsWork(calls, m) - CallWeight(calls[c], m) + CallWeight(pc, m)
    ensures WokenCalls(calls[c := pc]) == WokenCalls(calls) - WokenBit(calls[c]) + WokenBit(pc)
  {
    hide Sum;
    SumUpdate(calls, CallWeightIn(m), c, pc);
    SumUpdate(calls, WokenBit, c, pc);
  }

  lemma RouseAllWork(workers: seq<WorkerPc>)
    ensures WorkersWork(RouseWorkers(workers)) == WorkersWork(workers)
  {
    hide Sum;
    SumSame(workers, RouseWorkers(workers), WorkerWeight);
  }

  lemma WakeAllWork(calls: seq<CallPc>, m: nat)
    ensures CallsWork(WakeWaiters(calls), m) == CallsWork(calls, m)
    ensures CallsWork(WakeEnqueuers(calls), m) == CallsWork(calls, m)
  {
    hide Sum;
    SumSame(calls, WakeWaiters(calls), CallWeightIn(m));
    SumSame(calls, WakeEnqueuers(calls), CallWeightIn(m));
  }

  lemma WorkerStepDescends(p: Pool, step: Step)
    requires Enabled(p, step)
    requires step.WorkerEnter? || step.NotifyEnqueuer? || step.Execute? || step.Retire?
    ensures Descends(p, Apply(p, step))
  {
    hide WorkersWork, CallsWork, RousedWorkers, WokenCalls;
    var q := Apply(p, step);
    var m := |p.workers|;
    WorkersUpdate(p.workers, step.w, q.workers[step.w]);
    if step.NotifyEnqueuer? && step.wake.Some? {
      CallsUpdate(p.calls, step.wake.value, EnqueueWoken, m);
    }
    if step.Retire? {
      WakeAllWork(p.calls, m);
    }
  }

  lemma CallEnterDescends(p: Pool, c: nat)
    requires Enabled(p, CallEnter(c))
    ensures Descends(p, CallSection(p, c))
  {
    hide WorkersWork, CallsWork, RousedWorkers, WokenCalls;
    var q := CallSection(p, c);
    var m := |p.workers|;
    WakeAllWork(p.calls, m);
    CallsUpdate(p.calls, c, q.calls[c], m);
    CallsUpdate(WakeWaiters(p.calls), c, q.calls[c], m);
  }

  lemma StopNotifyDescends(p: Pool, c: nat)
    requires Enabled(p, StopNotify(c))
    ensures Descends(p, StopNotifyStep(p, c))
  {
    hide WorkersWork, CallsWork, RousedWorkers, WokenCalls;
    var q := StopNotifyStep(p, c);
    var m := |p.workers|;
    if p.calls[c].StopNotifyWorkers? {
      RouseAllWork(p.workers);
      CallsUpdate(p.calls, c, q.calls[c], m);
    } else {
      WakeAllWork(p.calls, m);
      CallsUpdate(WakeEnqueuers(p.calls), c, q.calls[c], m);
    }
  }

  lemma CallNotifyDescends(p: Pool, step: Step)
    requires Enabled(p, step)
    requires step.NotifyWorker? || step.Join?
    ensures Descends(p, Apply(p, step))
  {
    hide WorkersWork, CallsWork, RousedWorkers, WokenCalls;
    var q := Apply(p, step);
    CallsUpdate(p.calls, step.c, q.calls[step.c], |p.workers|);
    if step.NotifyWorker? && step.wake.Some? {
      WorkersUpdate(p.workers, step.wake.value, Roused);
    }
  }

  /** Every step of a worker or a call, except a spurious wakeup, descends. */
  lemma StepDescends(p: Pool, step: Step)
    requires Enabled(p, step) && OwnStep(step)
    ensures Descends(p, Apply(p, step))
  {
    hide Descends, WorkerSection, RetireSection, CallSection, StopNotifyStep;
    match step
    case CallEnter(c) => CallEnterDescends(p, c);
    case NotifyWorker(_, _) => CallNotifyDescends(p, step);
    case StopNotify(c) => StopNotifyDescends(p, c);
    case Join(_) => CallNotifyDescends(p, step);
    case _ => WorkerStepDescends(p, step);
  }

  lemma AwakeBound(p: Pool)
    ensures AwakeAgain(p) <= |p.workers| + |p.calls|
  {
    hide Sum;
    SumBound(p.workers, RousedBit, 1);
    SumBound(p.calls, WokenBit, 1);
  }

  function Begins(steps: seq<Step>): nat {
    if steps == [] then 0 else (if steps[0].Begin? then 1 else 0) + Begins(steps[1..])
  }

  /** Bounds the steps left when `b` more calls will be made. */
  function Potential(p: Pool, b: nat): int {
    var n := |p.workers| + |p.calls| + b + 1;
    Work(p) * n + AwakeAgain(p) + b * ((8 + |p.workers|) * n + 1)
  }

  lemma AppendAddsWork(calls: seq<CallPc>, pc: CallPc, n: nat)
    ensures CallsWork(calls + [pc], n) == CallsWork(calls, n) + CallWeight(pc, n)
    ensures WokenCalls(calls + [pc]) == WokenCalls(calls) + WokenBit(pc)
  {
    hide Sum, CallWeight, WokenBit;
    SumAppend(calls, CallWeightIn(n), pc);
    SumAppend(calls, WokenBit, pc);
  }

  lemma BeginAddsWork(p: Pool, request: Request)
    ensures var q := p.(calls := p.calls + [Entered(request)]);
            Work(q) <= Work(p) + 8 + |p.workers| && AwakeAgain(q) == AwakeAgain(p)
  {
    hide CallWeight, WokenBit, Entered, WorkersWork, RousedWorkers, CallsWork, WokenCalls;
    EnteredWeight(request, |p.workers|);
    AppendAddsWork(p.calls, Entered(request), |p.workers|);
  }

  lemma EnteredWeight(request: Request, n: nat)
    ensures CallWeight(Entered(request), n) <= 8 + n && WokenBit(Entered(request)) == 0
  {}

  lemma PotentialFalls(p: Pool, step: Step, b: nat)
    requires Enabled(p, step) && (OwnStep(step) || step.Begin?)
    requires step.Begin? ==> b > 0
    ensures Potential(Apply(p, step), if step.Begin? then b - 1 else b) < Potential(p, b)
  {
    hide Work, AwakeAgain, WorkerSection, RetireSection, CallSection, StopNotifyStep;
    var q := Apply(p, step);
    var n := |p.workers| + |p.calls| + b + 1;
    AwakeBound(q);
    if step.Begin? {
      BeginAddsWork(p, step.request);
      BudgetPays(Work(p), Work(q), 8 + |p.workers|, b, n);
    } else {
      StepDescends(p, step);
      StepKeepsSizes(p, step);
      Lexicographic(Work(p), Work(q), AwakeAgain(p), AwakeAgain(q), n);
    }
  }

  lemma StepKeepsSizes(p: Pool, step: Step)
    requires Enabled(p, step) && OwnStep(step)
    ensures |Apply(p, step).workers| == |p.workers| && |Apply(p, step).calls| == |p.calls|
  {}

  lemma {:induction false} RunBound(p: Pool, steps: seq<Step>)
    requires Legal(p, steps)
    requires forall i | 0 <= i < |steps| :: OwnStep(steps[i]) || steps[i].Begin?
    ensures |steps| <= Potential(p, Begins(steps))
    decreases |steps|
  {
    hide Enabled, Apply, Work, AwakeAgain;
    if steps == [] {
      assert Work(p) * (|p.workers| + |p.calls| + 1) >= 0;
    } else {
      hide Potential;
      PotentialFalls(p, steps[0], Begins(steps));
      RunBound(Apply(p, steps[0]), steps[1..]);
    }
  }

  lemma BoundArithmetic(w: nat, k: nat, b: nat, n: nat)
    ensures w * n + b * (k * n + 1) == (w + b * k) * n + b
  {
    assert b * (k * n + 1) == b * (k * n) + b;
    assert b * (k * n) == (b * k) * n;
  }

  lemma InitWork(nbThreads: nat, maxJobs: nat)
    ensures Work(Init(nbThreads, maxJobs)) == 2 * nbThreads && AwakeAgain(Init(nbThreads, maxJobs)) == 0
  {
    var workers := Init(nbThreads, maxJobs).workers;
    SumUniform(workers, WorkerWeight, 2);
    SumUniform(workers, RousedBit, 0);
  }

  /** A run of b calls on n workers, without spurious wakeups and with tasks that return, has at most
      (2n + b(n + 8))(n + b + 1) + b steps.  */
  lemma RunsEnd(nbThreads: nat, maxJobs: nat, steps: seq<Step>)
    requires Legal(Init(nbThreads, maxJobs), steps)
    requires forall i | 0 <= i < |steps| :: OwnStep(steps[i]) || steps[i].Begin?
    ensures var b := Begins(steps);
            |steps| <= (2 * nbThreads + b * (8 + nbThreads)) * (nbThreads + b + 1) + b
  {
    hide Legal, Work, AwakeAgain, Begins;
    var b := Begins(steps);
    RunBound(Init(nbThreads, maxJobs), steps);
    InitWork(nbThreads, maxJobs);
    BoundArithmetic(2 * nbThreads, 8 + nbThreads, b, nbThreads + b + 1);
  }

  // ---- Terminal states

  /** No worker and no call can take a step of its own. */
  ghost predicate Quiescent(p: Pool) {
    forall step :: OwnStep(step) ==> !Enabled(p, step)
  }

  lemma WorkerStepOf(p: Pool, w: nat) returns (step: Step)
    requires WaitersServed(p) && w < |p.workers| && !p.workers[w].Idle? && !p.workers[w].Exited?
    ensures OwnStep(step) && Enabled(p, step)
  {
    hide NumW, NumC;
    NumWUpdate(p.workers, w, p.workers[w]);
    match p.workers[w]
    case Ready => step := WorkerEnter(w);
    case Roused => step := WorkerEnter(w);
    case Running(_) => step := Execute(w);
    case Retiring(_) => step := Retire(w);
    case Took(_) =>
      if c :| 0 <= c < |p.calls| && p.calls[c].EnqueueAsleep? {
        step := NotifyEnqueuer(w, Some(c));
      } else {
        step := NotifyEnqueuer(w, None);
      }
  }

  lemma CallStepOf(p: Pool, c: nat) returns (step: Step)
    requires c < |p.calls| && CallRoleOf(p.calls[c]) !in {Finished, EnqueuerAsleep, WaiterAsleep, JoiningWorkers}
    ensures OwnStep(step) && Enabled(p, step)
  {
    var pc := p.calls[c];
    if CanEnter(pc) {
      step := CallEnter(c);
    } else if !pc.EnqueueNotify? {
      step := StopNotify(c);
    } else if w :| 0 <= w < |p.workers| && p.workers[w].Idle? {
      step := NotifyWorker(c, Some(w));
    } else {
      step := NotifyWorker(c, None);
    }
  }

  /** When nothing can move, every worker sleeps or has exited, and no call is on its way. */
  lemma QuiescentShape(p: Pool)
    requires PoolInv(p) && Quiescent(p)
    ensures forall w | 0 <= w < |p.workers| :: p.workers[w].Idle? || p.workers[w].Exited?
    ensures forall c | 0 <= c < |p.calls| ::
              CallRoleOf(p.calls[c]) in {Finished, EnqueuerAsleep, WaiterAsleep, JoiningWorkers}
  {
    hide Enabled, History;
    forall w | 0 <= w < |p.workers| ensures p.workers[w].Idle? || p.workers[w].Exited? {
      if !p.workers[w].Idle? && !p.workers[w].Exited? {
        var step := WorkerStepOf(p, w);
      }
    }
    forall c | 0 <= c < |p.calls|
      ensures CallRoleOf(p.calls[c]) in {Finished, EnqueuerAsleep, WaiterAsleep, JoiningWorkers}
    {
      if CallRoleOf(p.calls[c]) !in {Finished, EnqueuerAsleep, WaiterAsleep, JoiningWorkers} {
        var step := CallStepOf(p, c);
      }
    }
  }

  lemma QuiescentCounts(p: Pool)
    requires PoolInv(p) && Quiescent(p)
    ensures NumC(p.calls, StopNotifyingWorkers) == NumC(p.calls, StopNotifyingEnqueuers) == 0
    ensures NumC(p.calls, EnqueueNotifying) == NumC(p.calls, EnqueuerWoken) == 0
    ensures NumW(p.workers, RousedWorker) == NumW(p.workers, TakingWorker) == p.nbWorking == 0
  {
    hide NumW, NumC, Quiescent, History;
    QuiescentShape(p);
    NumCZero(p.calls, StopNotifyingWorkers);
    NumCZero(p.calls, StopNotifyingEnqueuers);
    NumCZero(p.calls, EnqueueNotifying);
    NumCZero(p.calls, EnqueuerWoken);
    NumWZero(p.workers, RousedWorker);
    NumWZero(p.workers, TakingWorker);
    NumWZero(p.workers, RunningWorker);
    NumWZero(p.workers, RetiringWorker);
  }

  lemma JoinPossible(p: Pool, c: nat)
    requires JoinsExact(p) && c < |p.calls| && p.calls[c].Joining?
    requires forall w | 0 <= w < |p.workers| :: p.workers[w].Exited?
    ensures Enabled(p, Join(c))
  {
    assert MarkOf(p.calls[c]) == Joined(p.calls[c].next);
  }

  /** With at least one worker, a pool where nothing can move has drained its queue, blocks no call, and its
      workers are all asleep if it runs and all gone if it was stopped.  */
  lemma QuiescentIsDrained(p: Pool)
    requires PoolInv(p) && Quiescent(p) && |p.workers| > 0
    ensures p.tasks == []
    ensures forall c | 0 <= c < |p.calls| :: CallRoleOf(p.calls[c]) == Finished
    ensures forall w | 0 <= w < |p.workers| :: if p.stop then p.workers[w].Exited? else p.workers[w].Idle?
    ensures forall k | 0 <= k < |p.accepted| :: k < |p.fates| && Settled(p.fates[k])
  {
    hide NumW, NumC, AcceptExact, WaitsExact;
    QuiescentShape(p);
    QuiescentCounts(p);
    forall w | 0 <= w < |p.workers|
      ensures p.tasks == [] && (if p.stop then p.workers[w].Exited? else p.workers[w].Idle?)
    {
      NumWUpdate(p.workers, w, p.workers[w]);
    }
    assert p.workers[0].Idle? || p.workers[0].Exited?;
    NothingLeft(p);
    forall c | 0 <= c < |p.calls| ensures CallRoleOf(p.calls[c]) == Finished {
      NumCUpdate(p.calls, c, p.calls[c]);
      if p.calls[c].Joining? {
        JoinPossible(p, c);
      }
    }
  }
}
