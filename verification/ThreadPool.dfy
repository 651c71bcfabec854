/** The thread pool of `clst/clst/thread_pool.hpp` as a step machine.

    `workers` holds one program counter per worker thread, `calls` one per client call of `enqueue`/`submit`, `stop`,
    `stop_now`, `wait_all` or the destructor.  A critical section is one step, and so is every notify issued after
    unlocking; the notify_all on `working_cond` happens under the lock and belongs to its critical section.  A task
    is named by its place in the order of acceptance.  */
module ThreadPools {
  import opened Options

  datatype WorkerPc =
    | Ready                    // about to lock, at the head of the loop
    | Idle                     // waits on cond
    | Roused                   // will re-take the lock and re-check
    | Took(task: nat)          // about to notify cond_enqueue (bounded pools only)
    | Running(task: nat)
    | Retiring(task: nat)      // the task has returned
    | Exited

  /** `Destructor` is the destructor: it stops the pool and then joins the workers. */
  datatype StopKind = Graceful | Immediate | Destructor

  datatype CallPc =
    | EnqueueEntry
    | EnqueueAsleep                            // waits on cond_enqueue
    | EnqueueWoken
    | EnqueueNotify                            // accepted, about to notify cond
    | EnqueueDone
    | EnqueueThrew                             // EnqueueBlocked
    | StopEntry(kind: StopKind)
    | StopNotifyWorkers(kind: StopKind)        // about to notify_all on cond
    | StopNotifyEnqueuers(kind: StopKind)      // about to notify_all on cond_enqueue
    | StopDone(kind: StopKind)
    | Joining(next: nat)
    | DestroyDone
    | WaitEntry
    | WaitAsleep                               // waits on working_cond
    | WaitWoken
    | WaitDone(seen: nat)                      // `seen` tasks had been accepted at the final check

  datatype Request = Enqueue | StopPool(kind: StopKind) | WaitAll

  datatype Fate = InProgress(worker: nat) | Done(worker: nat) | Discarded(call: nat)

  /** `accepted[k]` is the call that enqueued task k, `fates[k]` what became of task k once it left the queue.
      Both only record history; no step reads them.  */
  datatype Pool = Pool(
    maxJobs: nat, stop: bool, tasks: seq<nat>, nbWorking: nat,
    workers: seq<WorkerPc>, calls: seq<CallPc>,
    accepted: seq<nat>, fates: seq<Fate>)

  datatype Step =
    | Begin(request: Request)
    | WorkerEnter(w: nat)
    | NotifyEnqueuer(w: nat, wake: Option<nat>)
    | Execute(w: nat)
    | Retire(w: nat)
    | CallEnter(c: nat)
    | NotifyWorker(c: nat, wake: Option<nat>)
    | StopNotify(c: nat)
    | Join(c: nat)
    | SpuriousWorker(w: nat)
    | SpuriousCall(c: nat)

  function Init(nbThreads: nat, maxJobs: nat): Pool {
    Pool(maxJobs, false, [], 0, seq(nbThreads, _ => Ready), [], [], [])
  }

  predicate CanEnter(pc: CallPc) {
    pc.EnqueueEntry? || pc.EnqueueWoken? || pc.StopEntry? || pc.WaitEntry? || pc.WaitWoken?
  }

  predicate Enabled(p: Pool, step: Step) {
    match step
    case Begin(_) => true
    case WorkerEnter(w) => w < |p.workers| && (p.workers[w].Ready? || p.workers[w].Roused?)
    case NotifyEnqueuer(w, wake) =>
      && w < |p.workers| && p.workers[w].Took?
      && (match wake
          case Some(c) => c < |p.calls| && p.calls[c].EnqueueAsleep?
          case None => forall c | 0 <= c < |p.calls| :: !p.calls[c].EnqueueAsleep?)
    case Execute(w) => w < |p.workers| && p.workers[w].Running?
    case Retire(w) => w < |p.workers| && p.workers[w].Retiring? && p.nbWorking > 0
    case CallEnter(c) => c < |p.calls| && CanEnter(p.calls[c])
    case NotifyWorker(c, wake) =>
      && c < |p.calls| && p.calls[c].EnqueueNotify?
      && (match wake
          case Some(w) => w < |p.workers| && p.workers[w].Idle?
          case None => forall w | 0 <= w < |p.workers| :: !p.workers[w].Idle?)
    case StopNotify(c) => c < |p.calls| && (p.calls[c].StopNotifyWorkers? || p.calls[c].StopNotifyEnqueuers?)
    case Join(c) =>
      && c < |p.calls| && p.calls[c].Joining? && p.calls[c].next <= |p.workers|
      && (p.calls[c].next < |p.workers| ==> p.workers[p.calls[c].next].Exited?)
    case SpuriousWorker(w) => w < |p.workers| && p.workers[w].Idle?
    case SpuriousCall(c) => c < |p.calls| && (p.calls[c].EnqueueAsleep? || p.calls[c].WaitAsleep?)
  }

  function Entered(request: Request): CallPc {
    match request
    case Enqueue => EnqueueEntry
    case StopPool(kind) => StopEntry(kind)
    case WaitAll => WaitEntry
  }

  function WorkerSection(p: Pool, w: nat): Pool
    requires w < |p.workers|
  {
    if !(p.stop || p.tasks != []) then
      p.(workers := p.workers[w := Idle])
    else if p.tasks == [] then
      p.(workers := p.workers[w := Exited])
    else
      p.(workers := p.workers[w := if p.maxJobs > 0 then Took(p.tasks[0]) else Running(p.tasks[0])],
         tasks := p.tasks[1..], nbWorking := p.nbWorking + 1, fates := p.fates + [InProgress(w)])
  }

  function SetFate(fates: seq<Fate>, k: nat, fate: Fate): seq<Fate> {
    if k < |fates| then fates[k := fate] else fates
  }

  function WakeWaiters(calls: seq<CallPc>): (woken: seq<CallPc>)
    ensures |woken| == |calls|
    ensures forall c | 0 <= c < |calls| && !calls[c].WaitAsleep? :: woken[c] == calls[c]
    ensures forall c | 0 <= c < |calls| && calls[c].WaitAsleep? :: woken[c] == WaitWoken
  {
    seq(|calls|, c requires 0 <= c < |calls| => if calls[c].WaitAsleep? then WaitWoken else calls[c])
  }

  function WakeEnqueuers(calls: seq<CallPc>): (woken: seq<CallPc>)
    ensures |woken| == |calls|
    ensures forall c | 0 <= c < |calls| && !calls[c].EnqueueAsleep? :: woken[c] == calls[c]
    ensures forall c | 0 <= c < |calls| && calls[c].EnqueueAsleep? :: woken[c] == EnqueueWoken
  {
    seq(|calls|, c requires 0 <= c < |calls| => if calls[c].EnqueueAsleep? then EnqueueWoken else calls[c])
  }

  function RouseWorkers(workers: seq<WorkerPc>): (roused: seq<WorkerPc>)
    ensures |roused| == |workers|
    ensures forall w | 0 <= w < |workers| && !workers[w].Idle? :: roused[w] == workers[w]
    ensures forall w | 0 <= w < |workers| && workers[w].Idle? :: roused[w] == Roused
  {
    seq(|workers|, w requires 0 <= w < |workers| => if workers[w].Idle? then Roused else workers[w])
  }

  function RetireSection(p: Pool, w: nat): Pool
    requires w < |p.workers| && p.nbWorking > 0
  {
    p.(workers := p.workers[w := Ready], nbWorking := p.nbWorking - 1,
       calls := if p.nbWorking == 1 then WakeWaiters(p.calls) else p.calls)
  }

  function EnqueueSection(p: Pool, c: nat): Pool
    requires c < |p.calls|
  {
    if p.maxJobs > 0 && !(|p.tasks| < p.maxJobs || p.stop) then
      p.(calls := p.calls[c := EnqueueAsleep])
    else if p.stop then
      p.(calls := p.calls[c := EnqueueThrew])
    else
      p.(calls := p.calls[c := EnqueueNotify], tasks := p.tasks + [|p.accepted|], accepted := p.accepted + [c])
  }

  function StopSection(p: Pool, c: nat, kind: StopKind): Pool
    requires c < |p.calls|
  {
    if kind == Immediate then
      p.(stop := true, tasks := [], fates := p.fates + seq(|p.tasks|, _ => Discarded(c)),
         calls := (if p.nbWorking == 0 then WakeWaiters(p.calls) else p.calls)[c := StopNotifyWorkers(kind)])
    else
      p.(stop := true, calls := p.calls[c := StopNotifyWorkers(kind)])
  }

  function WaitSection(p: Pool, c: nat): Pool
    requires c < |p.calls|
  {
    p.(calls := p.calls[c := if p.nbWorking == 0 && p.tasks == [] then WaitDone(|p.accepted|) else WaitAsleep])
  }

  function CallSection(p: Pool, c: nat): Pool
    requires c < |p.calls| && CanEnter(p.calls[c])
  {
    match p.calls[c]
    case EnqueueEntry => EnqueueSection(p, c)
    case EnqueueWoken => EnqueueSection(p, c)
    case StopEntry(kind) => StopSection(p, c, kind)
    case WaitEntry => WaitSection(p, c)
    case WaitWoken => WaitSection(p, c)
  }

  /** After its last notify `stop` returns; the destructor goes on to join. */
  function AfterStop(kind: StopKind): CallPc {
    if kind == Destructor then Joining(0) else StopDone(kind)
  }

  function StopNotifyStep(p: Pool, c: nat): Pool
    requires c < |p.calls| && (p.calls[c].StopNotifyWorkers? || p.calls[c].StopNotifyEnqueuers?)
  {
    match p.calls[c]
    case StopNotifyWorkers(kind) =>
      p.(workers := RouseWorkers(p.workers),
         calls := p.calls[c := if p.maxJobs > 0 then StopNotifyEnqueuers(kind) else AfterStop(kind)])
    case StopNotifyEnqueuers(kind) =>
      p.(calls := WakeEnqueuers(p.calls)[c := AfterStop(kind)])
  }

  function Awake(pc: CallPc): CallPc {
    if pc.EnqueueAsleep? then EnqueueWoken else if pc.WaitAsleep? then WaitWoken else pc
  }

  function Apply(p: Pool, step: Step): Pool
    requires Enabled(p, step)
  {
    match step
    case Begin(request) => p.(calls := p.calls + [Entered(request)])
    case WorkerEnter(w) => WorkerSection(p, w)
    case NotifyEnqueuer(w, wake) =>
      p.(workers := p.workers[w := Running(p.workers[w].task)],
         calls := if wake.Some? then p.calls[wake.value := EnqueueWoken] else p.calls)
    case Execute(w) =>
      p.(workers := p.workers[w := Retiring(p.workers[w].task)], fates := SetFate(p.fates, p.workers[w].task, Done(w)))
    case Retire(w) => RetireSection(p, w)
    case CallEnter(c) => CallSection(p, c)
    case NotifyWorker(c, wake) =>
      p.(calls := p.calls[c := EnqueueDone],
         workers := if wake.Some? then p.workers[wake.value := Roused] else p.workers)
    case StopNotify(c) => StopNotifyStep(p, c)
    case Join(c) =>
      p.(calls := p.calls[c := if p.calls[c].next < |p.workers| then Joining(p.calls[c].next + 1) else DestroyDone])
    case SpuriousWorker(w) => p.(workers := p.workers[w := Roused])
    case SpuriousCall(c) => p.(calls := p.calls[c := Awake(p.calls[c])])
  }

  predicate Legal(p: Pool, steps: seq<Step>)
    decreases |steps|
  {
    steps == [] || (Enabled(p, steps[0]) && Legal(Apply(p, steps[0]), steps[1..]))
  }

  function Exec(p: Pool, steps: seq<Step>): Pool
    requires Legal(p, steps)
    decreases |steps|
  {
    if steps == [] then p else Exec(Apply(p, steps[0]), steps[1..])
  }
}

/** No wakeup is lost on any of the three condition variables. */
module PoolSafety {
  import opened Options
  import opened Tallies
  import opened ThreadPools

  // ---- Counting

  datatype WorkerRole =
    | ReadyWorker | IdleWorker | RousedWorker | TakingWorker | RunningWorker | RetiringWorker | ExitedWorker

  datatype CallRole =
    | AtEnqueue | EnqueuerAsleep | EnqueuerWoken | EnqueueNotifying
    | AtStop | StopNotifyingWorkers | StopNotifyingEnqueuers | JoiningWorkers
    | AtWait | WaiterAsleep | WaiterWoken | Finished

  function WorkerRoleOf(pc: WorkerPc): WorkerRole {
    match pc
    case Ready => ReadyWorker
    case Idle => IdleWorker
    case Roused => RousedWorker
    case Took(_) => TakingWorker
    case Running(_) => RunningWorker
    case Retiring(_) => RetiringWorker
    case Exited => ExitedWorker
  }

  function CallRoleOf(pc: CallPc): CallRole {
    match pc
    case EnqueueEntry => AtEnqueue
    case EnqueueAsleep => EnqueuerAsleep
    case EnqueueWoken => EnqueuerWoken
    case EnqueueNotify => EnqueueNotifying
    case StopEntry(_) => AtStop
    case StopNotifyWorkers(_) => StopNotifyingWorkers
    case StopNotifyEnqueuers(_) => StopNotifyingEnqueuers
    case Joining(_) => JoiningWorkers
    case WaitEntry => AtWait
    case WaitAsleep => WaiterAsleep
    case WaitWoken => WaiterWoken
    case _ => Finished
  }

  function NumW(workers: seq<WorkerPc>, k: WorkerRole): nat {
    Count(workers, WorkerRoleOf, k)
  }

  function NumC(calls: seq<CallPc>, k: CallRole): nat {
    Count(calls, CallRoleOf, k)
  }

  lemma NumWUpdate(workers: seq<WorkerPc>, w: nat, pc: WorkerPc)
    requires w < |workers|
    ensures NumW(workers, WorkerRoleOf(workers[w])) > 0
    ensures forall k :: NumW(workers[w := pc], k) == NumW(workers, k)
                          - (if WorkerRoleOf(workers[w]) == k then 1 else 0) + (if WorkerRoleOf(pc) == k then 1 else 0)
  {
    CountUpdate(workers, WorkerRoleOf, w, pc);
  }

  lemma NumCUpdate(calls: seq<CallPc>, c: nat, pc: CallPc)
    requires c < |calls|
    ensures NumC(calls, CallRoleOf(calls[c])) > 0
    ensures forall k :: NumC(calls[c := pc], k) == NumC(calls, k)
                          - (if CallRoleOf(calls[c]) == k then 1 else 0) + (if CallRoleOf(pc) == k then 1 else 0)
  {
    CountUpdate(calls, CallRoleOf, c, pc);
  }

  lemma NumCAppend(calls: seq<CallPc>, pc: CallPc)
    ensures forall k :: NumC(calls + [pc], k) == NumC(calls, k) + (if CallRoleOf(pc) == k then 1 else 0)
  {
    CountAppend(calls, CallRoleOf, pc);
  }

  lemma NumWZero(workers: seq<WorkerPc>, k: WorkerRole)
    requires forall w | 0 <= w < |workers| :: WorkerRoleOf(workers[w]) != k
    ensures NumW(workers, k) == 0
  {
    CountZero(workers, WorkerRoleOf, k);
  }

  lemma NumCZero(calls: seq<CallPc>, k: CallRole)
    requires forall c | 0 <= c < |calls| :: CallRoleOf(calls[c]) != k
    ensures NumC(calls, k) == 0
  {
    CountZero(calls, CallRoleOf, k);
  }

  lemma RouseCounts(workers: seq<WorkerPc>)
    ensures NumW(RouseWorkers(workers), IdleWorker) == 0
    ensures NumW(RouseWorkers(workers), RousedWorker) == NumW(workers, RousedWorker) + NumW(workers, IdleWorker)
    ensures forall k :: k != IdleWorker && k != RousedWorker ==> NumW(RouseWorkers(workers), k) == NumW(workers, k)
  {
    CountMoved(workers, RouseWorkers(workers), WorkerRoleOf, IdleWorker, RousedWorker);
  }

  lemma WakeWaitersCounts(calls: seq<CallPc>)
    ensures NumC(WakeWaiters(calls), WaiterAsleep) == 0
    ensures NumC(WakeWaiters(calls), WaiterWoken) == NumC(calls, WaiterWoken) + NumC(calls, WaiterAsleep)
    ensures forall k :: k != WaiterAsleep && k != WaiterWoken ==> NumC(WakeWaiters(calls), k) == NumC(calls, k)
  {
    CountMoved(calls, WakeWaiters(calls), CallRoleOf, WaiterAsleep, WaiterWoken);
  }

  lemma WakeEnqueuersCounts(calls: seq<CallPc>)
    ensures NumC(WakeEnqueuers(calls), EnqueuerAsleep) == 0
    ensures NumC(WakeEnqueuers(calls), EnqueuerWoken) == NumC(calls, EnqueuerWoken) + NumC(calls, EnqueuerAsleep)
    ensures forall k :: k != EnqueuerAsleep && k != EnqueuerWoken ==> NumC(WakeEnqueuers(calls), k) == NumC(calls, k)
  {
    CountMoved(calls, WakeEnqueuers(calls), CallRoleOf, EnqueuerAsleep, EnqueuerWoken);
  }

  // ---- The invariant

  /** If a worker sleeps, then a stop's notify_all is on its way, or the pool is running and every queued task is
      matched by a pending notify or a worker already roused.  */
  predicate WorkersServed(p: Pool) {
    NumW(p.workers, IdleWorker) > 0 ==>
      || NumC(p.calls, StopNotifyingWorkers) > 0
      || (!p.stop && |p.tasks| <= NumC(p.calls, EnqueueNotifying) + NumW(p.workers, RousedWorker))
  }

  /** If an enqueuer sleeps, then a stop's notify_all is on its way, or the pool is running and every free place is
      matched by a pending notify or an enqueuer already woken.  */
  predicate EnqueuersServed(p: Pool) {
    NumC(p.calls, EnqueuerAsleep) > 0 ==>
      && p.maxJobs > 0
      && (|| NumC(p.calls, StopNotifyingWorkers) + NumC(p.calls, StopNotifyingEnqueuers) > 0
          || (!p.stop && p.maxJobs - |p.tasks| <= NumW(p.workers, TakingWorker) + NumC(p.calls, EnqueuerWoken)))
  }

  /** `nb_working` counts the workers between taking and retiring, and whoever sleeps in wait_all has something
      to wait for.  */
  predicate WaitersServed(p: Pool) {
    && p.nbWorking == NumW(p.workers, TakingWorker) + NumW(p.workers, RunningWorker) + NumW(p.workers, RetiringWorker)
    && (NumC(p.calls, WaiterAsleep) > 0 ==> p.nbWorking > 0 || p.tasks != [])
  }

  predicate StopConsistent(p: Pool) {
    && (NumW(p.workers, ExitedWorker) > 0 ==> p.stop && p.tasks == [])
    && (NumC(p.calls, StopNotifyingWorkers) > 0 ==> p.stop)
    && (NumC(p.calls, StopNotifyingEnqueuers) > 0 ==> p.stop)
    && (NumC(p.calls, JoiningWorkers) > 0 ==> p.stop)
    && (p.maxJobs > 0 ==> |p.tasks| <= p.maxJobs)
  }

  predicate WakeInv(p: Pool) {
    WorkersServed(p) && EnqueuersServed(p) && WaitersServed(p) && StopConsistent(p)
  }

  lemma WorkerSectionKeepsWakeInv(p: Pool, w: nat)
    requires WakeInv(p) && Enabled(p, WorkerEnter(w))
    ensures WakeInv(WorkerSection(p, w))
  {
    hide NumW, NumC;
    NumWUpdate(p.workers, w, WorkerSection(p, w).workers[w]);
  }

  lemma NotifyEnqueuerKeepsWakeInv(p: Pool, w: nat, wake: Option<nat>)
    requires WakeInv(p) && Enabled(p, NotifyEnqueuer(w, wake))
    ensures WakeInv(Apply(p, NotifyEnqueuer(w, wake)))
  {
    hide NumW, NumC;
    NumWUpdate(p.workers, w, Running(p.workers[w].task));
    if wake.Some? {
      NumCUpdate(p.calls, wake.value, EnqueueWoken);
    } else {
      NumCZero(p.calls, EnqueuerAsleep);
    }
  }

  lemma NotifyWorkerKeepsWakeInv(p: Pool, c: nat, wake: Option<nat>)
    requires WakeInv(p) && Enabled(p, NotifyWorker(c, wake))
    ensures WakeInv(Apply(p, NotifyWorker(c, wake)))
  {
    hide NumW, NumC;
    NumCUpdate(p.calls, c, EnqueueDone);
    if wake.Some? {
      NumWUpdate(p.workers, wake.value, Roused);
    } else {
      NumWZero(p.workers, IdleWorker);
    }
  }

  lemma RetireKeepsWakeInv(p: Pool, w: nat)
    requires WakeInv(p) && Enabled(p, Retire(w))
    ensures WakeInv(RetireSection(p, w))
  {
    hide NumW, NumC, WakeWaiters;
    NumWUpdate(p.workers, w, Ready);
    WakeWaitersCounts(p.calls);
  }

  lemma ExecuteKeepsWakeInv(p: Pool, w: nat)
    requires WakeInv(p) && Enabled(p, Execute(w))
    ensures WakeInv(Apply(p, Execute(w)))
  {
    hide NumW, NumC;
    NumWUpdate(p.workers, w, Retiring(p.workers[w].task));
  }

  lemma EnqueueKeepsWakeInv(p: Pool, c: nat)
    requires WakeInv(p) && c < |p.calls| && (p.calls[c].EnqueueEntry? || p.calls[c].EnqueueWoken?)
    ensures WakeInv(EnqueueSection(p, c))
  {
    hide NumW, NumC;
    NumCUpdate(p.calls, c, EnqueueSection(p, c).calls[c]);
  }

  lemma StopKeepsWakeInv(p: Pool, c: nat, kind: StopKind)
    requires WakeInv(p) && c < |p.calls| && p.calls[c] == StopEntry(kind)
    ensures WakeInv(StopSection(p, c, kind))
  {
    hide NumW, NumC, WakeWaiters;
    if kind == Immediate && p.nbWorking == 0 {
      WakeWaitersCounts(p.calls);
      NumCUpdate(WakeWaiters(p.calls), c, StopNotifyWorkers(kind));
    } else {
      NumCUpdate(p.calls, c, StopNotifyWorkers(kind));
    }
  }

  lemma WaitKeepsWakeInv(p: Pool, c: nat)
    requires WakeInv(p) && c < |p.calls| && (p.calls[c].WaitEntry? || p.calls[c].WaitWoken?)
    ensures WakeInv(WaitSection(p, c))
  {
    hide NumW, NumC;
    NumCUpdate(p.calls, c, WaitSection(p, c).calls[c]);
  }

  lemma StopRousesWorkers(p: Pool, c: nat)
    requires WakeInv(p) && c < |p.calls| && p.calls[c].StopNotifyWorkers?
    ensures WakeInv(StopNotifyStep(p, c))
  {
    hide NumW, NumC, WakeEnqueuers, RouseWorkers;
    RouseCounts(p.workers);
    NumCUpdate(p.calls, c, StopNotifyStep(p, c).calls[c]);
  }

  lemma StopWakesEnqueuers(p: Pool, c: nat)
    requires WakeInv(p) && c < |p.calls| && p.calls[c].StopNotifyEnqueuers?
    ensures WakeInv(StopNotifyStep(p, c))
  {
    hide NumW, NumC, WakeEnqueuers, RouseWorkers;
    WakeEnqueuersCounts(p.calls);
    NumCUpdate(WakeEnqueuers(p.calls), c, StopNotifyStep(p, c).calls[c]);
  }

  lemma StopNotifyKeepsWakeInv(p: Pool, c: nat)
    requires WakeInv(p) && Enabled(p, StopNotify(c))
    ensures WakeInv(StopNotifyStep(p, c))
  {
    hide WakeInv, StopNotifyStep;
    if p.calls[c].StopNotifyWorkers? {
      StopRousesWorkers(p, c);
    } else {
      StopWakesEnqueuers(p, c);
    }
  }

  lemma CallMovesKeepsWakeInv(p: Pool, c: nat, pc: CallPc)
    requires WakeInv(p) && c < |p.calls|
    requires || (p.calls[c].Joining? && (pc.Joining? || pc.DestroyDone?))
             || (p.calls[c].EnqueueAsleep? && pc.EnqueueWoken?)
             || (p.calls[c].WaitAsleep? && pc.WaitWoken?)
    ensures WakeInv(p.(calls := p.calls[c := pc]))
  {
    hide NumW, NumC;
    NumCUpdate(p.calls, c, pc);
  }

  lemma BeginKeepsWakeInv(p: Pool, request: Request)
    requires WakeInv(p)
    ensures WakeInv(p.(calls := p.calls + [Entered(request)]))
  {
    hide NumW, NumC;
    NumCAppend(p.calls, Entered(request));
  }

  lemma RouseKeepsWakeInv(p: Pool, w: nat)
    requires WakeInv(p) && w < |p.workers| && p.workers[w].Idle?
    ensures WakeInv(p.(workers := p.workers[w := Roused]))
  {
    hide NumW, NumC;
    NumWUpdate(p.workers, w, Roused);
  }

  /** No wakeup is lost: every step, spurious wakeups included, keeps the invariant. */
  lemma StepKeepsWakeInv(p: Pool, step: Step)
    requires WakeInv(p) && Enabled(p, step)
    ensures WakeInv(Apply(p, step))
  {
    hide WakeInv, WorkerSection, RetireSection, EnqueueSection, StopSection, WaitSection, StopNotifyStep;
    match step
    case Begin(request) => BeginKeepsWakeInv(p, request);
    case WorkerEnter(w) => WorkerSectionKeepsWakeInv(p, w);
    case NotifyEnqueuer(w, wake) => NotifyEnqueuerKeepsWakeInv(p, w, wake);
    case Execute(w) => ExecuteKeepsWakeInv(p, w);
    case Retire(w) => RetireKeepsWakeInv(p, w);
    case NotifyWorker(c, wake) => NotifyWorkerKeepsWakeInv(p, c, wake);
    case StopNotify(c) => StopNotifyKeepsWakeInv(p, c);
    case Join(c) => CallMovesKeepsWakeInv(p, c, Apply(p, step).calls[c]);
    case SpuriousWorker(w) => RouseKeepsWakeInv(p, w);
    case SpuriousCall(c) => CallMovesKeepsWakeInv(p, c, Awake(p.calls[c]));
    case CallEnter(c) =>
      match p.calls[c] {
        case EnqueueEntry => EnqueueKeepsWakeInv(p, c);
        case EnqueueWoken => EnqueueKeepsWakeInv(p, c);
        case StopEntry(kind) => StopKeepsWakeInv(p, c, kind);
        case WaitEntry => WaitKeepsWakeInv(p, c);
        case WaitWoken => WaitKeepsWakeInv(p, c);
      }
  }
}
