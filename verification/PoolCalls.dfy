/** A call of a pool stays the call it was begun as, and ends only as the pool's state allows. */
module PoolCalls {
  import opened ThreadPools
  import opened PoolSafety
  import opened PoolHistory

  // ---- What a call was begun as

  function RequestOf(pc: CallPc): Request {
    match pc
    case EnqueueEntry => Enqueue
    case EnqueueAsleep => Enqueue
    case EnqueueWoken => Enqueue
    case EnqueueNotify => Enqueue
    case EnqueueDone => Enqueue
    case EnqueueThrew => Enqueue
    case StopEntry(kind) => StopPool(kind)
    case StopNotifyWorkers(kind) => StopPool(kind)
    case StopNotifyEnqueuers(kind) => StopPool(kind)
    case StopDone(kind) => StopPool(kind)
    case Joining(_) => StopPool(Destructor)
    case DestroyDone => StopPool(Destructor)
    case WaitEntry => WaitAll
    case WaitAsleep => WaitAll
    case WaitWoken => WaitAll
    case WaitDone(_) => WaitAll
  }

  function Begun(step: Step): seq<Request> {
    if step.Begin? then [step.request] else []
  }

  /** The calls begun by a run, in the order of their indices. */
  function Requests(steps: seq<Step>): seq<Request> {
    if steps == [] then [] else Begun(steps[0]) + Requests(steps[1..])
  }

  /** The calls of q are those of p followed by the requested ones. */
  ghost predicate Serves(p: Pool, requests: seq<Request>, q: Pool) {
    && |q.calls| == |p.calls| + |requests|
    && (forall c | 0 <= c < |p.calls| :: RequestOf(q.calls[c]) == RequestOf(p.calls[c]))
    && (forall c | |p.calls| <= c < |q.calls| :: RequestOf(q.calls[c]) == requests[c - |p.calls|])
  }

  lemma SectionServes(p: Pool, c: nat)
    requires Enabled(p, CallEnter(c))
    ensures Serves(p, [], CallSection(p, c))
  {}

  lemma StopNotifyServes(p: Pool, c: nat)
    requires Enabled(p, StopNotify(c))
    ensures Serves(p, [], StopNotifyStep(p, c))
  {}

  lemma RetireServes(p: Pool, w: nat)
    requires Enabled(p, Retire(w))
    ensures Serves(p, [], RetireSection(p, w))
  {}

  lemma StepServes(p: Pool, step: Step)
    requires Enabled(p, step)
    ensures Serves(p, Begun(step), Apply(p, step))
  {
    hide CallSection, StopNotifyStep, RetireSection;
    match step
    case CallEnter(c) => SectionServes(p, c);
    case StopNotify(c) => StopNotifyServes(p, c);
    case Retire(w) => RetireServes(p, w);
    case _ =>
  }

  lemma ServesJoined(p: Pool, first: seq<Request>, m: Pool, second: seq<Request>, q: Pool)
    requires Serves(p, first, m) && Serves(m, second, q)
    ensures Serves(p, first + second, q)
  {
    hide RequestOf;
  }

  lemma {:induction false} RunServes(p: Pool, steps: seq<Step>)
    requires Legal(p, steps)
    ensures Serves(p, Requests(steps), Exec(p, steps))
    decreases |steps|
  {
    hide Enabled, Apply, RequestOf;
    if steps == [] {
    } else {
      hide Serves;
      StepServes(p, steps[0]);
      RunServes(Apply(p, steps[0]), steps[1..]);
      ServesJoined(p, Begun(steps[0]), Apply(p, steps[0]), Requests(steps[1..]), Exec(p, steps));
    }
  }

  // ---- How a call may end

  /** A stop, of any kind, that has been through its critical section. */
  predicate HasStopped(pc: CallPc) {
    RequestOf(pc).StopPool? && !pc.StopEntry?
  }

  /** Only a stopped pool throws; it is stopped exactly when some stop has been through its critical section; a
      `stop_now` has left it empty; and the destructor does not return without joining.  */
  ghost predicate EndsJustified(p: Pool) {
    && (forall c | 0 <= c < |p.calls| && p.calls[c].EnqueueThrew? :: p.stop)
    && (p.stop <==> exists c :: 0 <= c < |p.calls| && HasStopped(p.calls[c]))
    && (forall c | 0 <= c < |p.calls| && MarkOf(p.calls[c]) == Discarding :: p.tasks == [])
    && (forall c | 0 <= c < |p.calls| :: p.calls[c] != StopDone(Destructor))
  }

  /** A step that stops nothing and queues nothing in a stopped pool. */
  lemma QuietKeepsEnds(p: Pool, q: Pool)
    requires EndsJustified(p) && |p.calls| <= |q.calls| && q.stop == p.stop
    requires p.stop && p.tasks == [] ==> q.tasks == []
    requires forall c | 0 <= c < |p.calls| ::
               && (HasStopped(q.calls[c]) <==> HasStopped(p.calls[c]))
               && (q.calls[c].EnqueueThrew? ==> p.calls[c].EnqueueThrew? || p.stop)
               && (MarkOf(q.calls[c]) == Discarding ==> MarkOf(p.calls[c]) == Discarding)
               && q.calls[c] != StopDone(Destructor)
    requires forall c | |p.calls| <= c < |q.calls| ::
               q.calls[c].EnqueueEntry? || q.calls[c].StopEntry? || q.calls[c].WaitEntry?
    ensures EndsJustified(q)
  {
    if p.stop {
      var c :| 0 <= c < |p.calls| && HasStopped(p.calls[c]);
      assert HasStopped(q.calls[c]);
    }
  }

  lemma StopKeepsEnds(p: Pool, c: nat, kind: StopKind)
    requires EndsJustified(p) && c < |p.calls| && p.calls[c] == StopEntry(kind)
    ensures EndsJustified(StopSection(p, c, kind))
  {
    assert HasStopped(StopSection(p, c, kind).calls[c]);
  }

  lemma SectionKeepsEnds(p: Pool, c: nat)
    requires EndsJustified(p) && Enabled(p, CallEnter(c))
    ensures EndsJustified(CallSection(p, c))
  {
    if p.calls[c].StopEntry? {
      StopKeepsEnds(p, c, p.calls[c].kind);
    } else {
      hide EndsJustified;
      QuietKeepsEnds(p, CallSection(p, c));
    }
  }

  lemma StopNotifyKeepsEnds(p: Pool, c: nat)
    requires EndsJustified(p) && Enabled(p, StopNotify(c))
    ensures EndsJustified(StopNotifyStep(p, c))
  {
    QuietKeepsEnds(p, StopNotifyStep(p, c));
  }

  lemma RetireKeepsEnds(p: Pool, w: nat)
    requires EndsJustified(p) && Enabled(p, Retire(w))
    ensures EndsJustified(RetireSection(p, w))
  {
    QuietKeepsEnds(p, RetireSection(p, w));
  }

  lemma WorkerStepKeepsEnds(p: Pool, step: Step)
    requires EndsJustified(p) && Enabled(p, step)
    requires step.WorkerEnter? || step.NotifyEnqueuer? || step.Execute? || step.SpuriousWorker?
    ensures EndsJustified(Apply(p, step))
  {
    QuietKeepsEnds(p, Apply(p, step));
  }

  lemma CallStepKeepsEnds(p: Pool, step: Step)
    requires EndsJustified(p) && Enabled(p, step)
    requires step.Begin? || step.NotifyWorker? || step.Join? || step.SpuriousCall?
    ensures EndsJustified(Apply(p, step))
  {
    QuietKeepsEnds(p, Apply(p, step));
  }

  /** Every step keeps the reasons for which calls end. */
  lemma StepKeepsEnds(p: Pool, step: Step)
    requires EndsJustified(p) && Enabled(p, step)
    ensures EndsJustified(Apply(p, step))
  {
    hide CallSection, StopNotifyStep, RetireSection, EndsJustified;
    match step
    case CallEnter(c) => SectionKeepsEnds(p, c);
    case StopNotify(c) => StopNotifyKeepsEnds(p, c);
    case Retire(w) => RetireKeepsEnds(p, w);
    case _ =>
      if step.WorkerEnter? || step.NotifyEnqueuer? || step.Execute? || step.SpuriousWorker? {
        WorkerStepKeepsEnds(p, step);
      } else {
        CallStepKeepsEnds(p, step);
      }
  }

  // ---- What a critical section decides

  /** enqueue_task sleeps exactly in front of a full and running pool, throws exactly from a stopped one, and otherwise
      puts its task, and nothing else, behind all others.  */
  lemma EnqueueDecides(p: Pool, c: nat)
    requires c < |p.calls| && (p.calls[c].EnqueueEntry? || p.calls[c].EnqueueWoken?)
    ensures var q := Apply(p, CallEnter(c));
            && (q.calls[c].EnqueueAsleep? <==> p.maxJobs > 0 && |p.tasks| >= p.maxJobs && !p.stop)
            && (q.calls[c].EnqueueThrew? <==> p.stop)
            && (MarkOf(q.calls[c]) == Accepted <==> !p.stop && (p.maxJobs > 0 ==> |p.tasks| < p.maxJobs))
            && q.accepted == (if MarkOf(q.calls[c]) == Accepted then p.accepted + [c] else p.accepted)
            && q.tasks == (if MarkOf(q.calls[c]) == Accepted then p.tasks + [|p.accepted|] else p.tasks)
            && q.fates == p.fates && q.stop == p.stop
  {}

  /** A worker sleeps exactly when there is nothing to do, exits exactly when there will never be, and otherwise takes
      the oldest task that has not left the queue.  */
  lemma WorkerDecides(p: Pool, w: nat)
    requires Order(p) && w < |p.workers| && (p.workers[w].Ready? || p.workers[w].Roused?)
    ensures var q := Apply(p, WorkerEnter(w));
            && (q.workers[w].Idle? <==> !p.stop && |p.fates| == |p.accepted|)
            && (q.workers[w].Exited? <==> p.stop && |p.fates| == |p.accepted|)
            && (|p.fates| < |p.accepted| ==>
                  HoldOf(q.workers[w]) == Holds(|p.fates|) && q.fates == p.fates + [InProgress(w)])
            && (|p.fates| == |p.accepted| ==> q.fates == p.fates)
            && (q.workers[w].Took? <==> p.maxJobs > 0 && |p.fates| < |p.accepted|)
            && q.accepted == p.accepted && q.stop == p.stop
  {}

  /** A stop notifies the workers, then the enqueuers if the pool is bounded, and then returns; only the destructor goes
      on to join.  Each notify_all reaches all sleepers of its condition variable and nobody else.  */
  lemma StopNotifies(p: Pool, c: nat)
    requires Enabled(p, StopNotify(c))
    ensures var q := Apply(p, StopNotify(c));
            && |q.workers| == |p.workers| && |q.calls| == |p.calls|
            && (q.calls[c].StopNotifyEnqueuers? <==> p.calls[c].StopNotifyWorkers? && p.maxJobs > 0)
            && (!q.calls[c].StopNotifyEnqueuers? ==>
                  q.calls[c] == if RequestOf(p.calls[c]) == StopPool(Destructor) then Joining(0)
                                else StopDone(p.calls[c].kind))
            && (forall w | 0 <= w < |p.workers| ::
                  q.workers[w] == if p.calls[c].StopNotifyWorkers? && p.workers[w].Idle? then Roused else p.workers[w])
            && (forall d | 0 <= d < |p.calls| && d != c ::
                  q.calls[d] == if p.calls[c].StopNotifyEnqueuers? && p.calls[d].EnqueueAsleep? then EnqueueWoken
                                else p.calls[d])
  {}

  /** Each stop stops the pool.  `stop_now` discards exactly the tasks that were queued; the others discard nothing. */
  lemma StopDecides(p: Pool, c: nat, kind: StopKind)
    requires Order(p) && c < |p.calls| && p.calls[c] == StopEntry(kind)
    ensures var q := Apply(p, CallEnter(c));
            && q.stop && q.accepted == p.accepted
            && (kind == Immediate ==>
                  && q.tasks == [] && |q.fates| == |p.accepted| && p.fates <= q.fates
                  && forall k | |p.fates| <= k < |p.accepted| :: q.fates[k] == Discarded(c))
            && (kind != Immediate ==> q.tasks == p.tasks && q.fates == p.fates)
            && (forall d | 0 <= d < |p.calls| && d != c ::
                  q.calls[d] == if kind == Immediate && p.nbWorking == 0 && p.calls[d].WaitAsleep? then WaitWoken
                                else p.calls[d])
  {}

  /** A worker that retires its task lets everybody in wait_all check again exactly when it was the last at work. */
  lemma RetireDecides(p: Pool, w: nat)
    requires Enabled(p, Retire(w))
    ensures var q := Apply(p, Retire(w));
            && q.nbWorking == p.nbWorking - 1 && q.workers == p.workers[w := Ready]
            && q.tasks == p.tasks && q.fates == p.fates && |q.calls| == |p.calls|
            && (forall c | 0 <= c < |p.calls| ::
                  q.calls[c] == if q.nbWorking == 0 && p.calls[c].WaitAsleep? then WaitWoken else p.calls[c])
  {}
}
