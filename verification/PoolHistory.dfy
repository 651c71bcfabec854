/** Every accepted task is queued, in progress, done or discarded, and leaves the queue in the order of acceptance. */
module PoolHistory {
  import opened ThreadPools
  import opened PoolSafety

  /** What a call, respectively a worker, is bound to by its program counter. */
  datatype CallMark = Unmarked | Accepted | Discarding | Waited(seen: nat) | Joined(upTo: nat) | Destroyed

  datatype WorkerMark = Free | Holds(task: nat) | Finishing(task: nat) | Gone

  function MarkOf(pc: CallPc): CallMark {
    match pc
    case EnqueueNotify => Accepted
    case EnqueueDone => Accepted
    case StopNotifyWorkers(kind) => if kind == Immediate then Discarding else Unmarked
    case StopNotifyEnqueuers(kind) => if kind == Immediate then Discarding else Unmarked
    case StopDone(kind) => if kind == Immediate then Discarding else Unmarked
    case Joining(i) => Joined(i)
    case DestroyDone => Destroyed
    case WaitDone(n) => Waited(n)
    case _ => Unmarked
  }

  function HoldOf(pc: WorkerPc): WorkerMark {
    match pc
    case Took(k) => Holds(k)
    case Running(k) => Holds(k)
    case Retiring(k) => Finishing(k)
    case Exited => Gone
    case _ => Free
  }

  predicate Settled(fate: Fate) {
    fate.Done? || fate.Discarded?
  }

  /** The queue is the tasks from |fates| on, in the order of acceptance. */
  ghost predicate Order(p: Pool) {
    && |p.accepted| == |p.fates| + |p.tasks|
    && forall i | 0 <= i < |p.tasks| :: p.tasks[i] == |p.fates| + i
  }

  /** The accepted tasks are those of the calls that succeeded, each once. */
  ghost predicate AcceptExact(p: Pool) {
    && (forall k | 0 <= k < |p.accepted| :: p.accepted[k] < |p.calls| && MarkOf(p.calls[p.accepted[k]]) == Accepted)
    && (forall j, k | 0 <= j < k < |p.accepted| :: p.accepted[j] != p.accepted[k])
    && (forall c | 0 <= c < |p.calls| && MarkOf(p.calls[c]) == Accepted :: c in p.accepted)
  }

  /** A task in progress is held by exactly the worker its fate names, a discarded one was discarded by a
      `stop_now`.  */
  ghost predicate FatesExact(p: Pool) {
    && (forall w | 0 <= w < |p.workers| ::
          match HoldOf(p.workers[w])
          case Holds(k) => k < |p.fates| && p.fates[k] == InProgress(w)
          case Finishing(k) => k < |p.fates| && p.fates[k] == Done(w)
          case _ => true)
    && (forall k | 0 <= k < |p.fates| ::
          match p.fates[k]
          case InProgress(w) => w < |p.workers| && HoldOf(p.workers[w]) == Holds(k)
          case Done(w) => w < |p.workers|
          case Discarded(c) => c < |p.calls| && MarkOf(p.calls[c]) == Discarding)
  }

  /** Whoever returned from wait_all had waited for every task accepted until its final check. */
  ghost predicate WaitsExact(p: Pool) {
    forall c | 0 <= c < |p.calls| && MarkOf(p.calls[c]).Waited? ::
      var n := MarkOf(p.calls[c]).seen;
      n <= |p.fates| && forall k | 0 <= k < n :: Settled(p.fates[k])
  }

  ghost predicate JoinsExact(p: Pool) {
    forall c | 0 <= c < |p.calls| ::
      match MarkOf(p.calls[c])
      case Joined(i) => i <= |p.workers| && forall w | 0 <= w < i :: p.workers[w].Exited?
      case Destroyed => forall w | 0 <= w < |p.workers| :: p.workers[w].Exited?
      case _ => true
  }

  ghost predicate History(p: Pool) {
    Order(p) && AcceptExact(p) && FatesExact(p) && WaitsExact(p) && JoinsExact(p)
  }

  /** Calls and workers may only gain marks that bind nothing. */
  ghost predicate MarksKept(p: Pool, q: Pool) {
    && |p.calls| <= |q.calls| && |p.workers| == |q.workers|
    && (forall c | 0 <= c < |p.calls| :: MarkOf(q.calls[c]) == MarkOf(p.calls[c])
                                         || (MarkOf(p.calls[c]) == Unmarked && MarkOf(q.calls[c]) == Joined(0)))
    && (forall c | |p.calls| <= c < |q.calls| :: MarkOf(q.calls[c]) == Unmarked)
    && (forall w | 0 <= w < |p.workers| :: HoldOf(q.workers[w]) == HoldOf(p.workers[w]))
  }

  lemma QuietKeepsHistory(p: Pool, q: Pool)
    requires History(p) && MarksKept(p, q)
    requires q.tasks == p.tasks && q.accepted == p.accepted && q.fates == p.fates
    ensures History(q)
  {
    assert forall w | 0 <= w < |p.workers| :: p.workers[w].Exited? <==> HoldOf(p.workers[w]) == Gone;
    assert forall w | 0 <= w < |q.workers| :: q.workers[w].Exited? <==> HoldOf(q.workers[w]) == Gone;
  }

  lemma TakeKeepsHistory(p: Pool, w: nat)
    requires History(p) && p.tasks != []
    requires w < |p.workers| && HoldOf(p.workers[w]) == Free
    ensures History(WorkerSection(p, w))
  {
    var q := WorkerSection(p, w);
    assert HoldOf(q.workers[w]) == Holds(|p.fates|);
    assert forall v | 0 <= v < |p.workers| && v != w :: q.workers[v] == p.workers[v];
    assert JoinsExact(q);
  }

  lemma ExitKeepsHistory(p: Pool, w: nat)
    requires History(p)
    requires w < |p.workers| && HoldOf(p.workers[w]) == Free
    ensures History(p.(workers := p.workers[w := Exited]))
  {
    assert forall v | 0 <= v < |p.workers| && v != w :: p.workers[w := Exited][v] == p.workers[v];
  }

  lemma ExecuteKeepsHistory(p: Pool, w: nat)
    requires History(p) && Enabled(p, Execute(w))
    ensures History(Apply(p, Execute(w)))
  {
    hide Order, AcceptExact;
    var q := Apply(p, Execute(w));
    assert HoldOf(p.workers[w]) == Holds(p.workers[w].task);
    assert forall v | 0 <= v < |p.workers| && v != w :: q.workers[v] == p.workers[v];
    assert Order(q) by { ExecuteKeepsOrder(p, w); }
    assert AcceptExact(q) by { ExecuteKeepsOrder(p, w); }
  }

  lemma ExecuteKeepsOrder(p: Pool, w: nat)
    requires Order(p) && AcceptExact(p) && Enabled(p, Execute(w))
    ensures Order(Apply(p, Execute(w))) && AcceptExact(Apply(p, Execute(w)))
  {}

  lemma FinishKeepsHistory(p: Pool, w: nat)
    requires History(p)
    requires w < |p.workers| && HoldOf(p.workers[w]).Finishing?
    ensures History(p.(workers := p.workers[w := Ready]))
  {
    assert forall v | 0 <= v < |p.workers| && v != w :: p.workers[w := Ready][v] == p.workers[v];
  }

  lemma AcceptKeepsHistory(p: Pool, c: nat)
    requires History(p)
    requires c < |p.calls| && MarkOf(p.calls[c]) == Unmarked
    ensures History(p.(calls := p.calls[c := EnqueueNotify], tasks := p.tasks + [|p.accepted|],
                       accepted := p.accepted + [c]))
  {
    var q := p.(calls := p.calls[c := EnqueueNotify], tasks := p.tasks + [|p.accepted|], accepted := p.accepted + [c]);
    assert MarkOf(q.calls[c]) == Accepted;
    assert forall d | 0 <= d < |p.calls| && d != c :: q.calls[d] == p.calls[d];
    assert AcceptExact(q) by {
      hide FatesExact, WaitsExact, JoinsExact;
      assert q.accepted[|p.accepted|] == c;
      forall d | d in p.accepted ensures d in q.accepted {}
    }
    hide AcceptExact;
    assert Order(q);
    assert FatesExact(q);
  }

  lemma DiscardKeepsHistory(p: Pool, c: nat)
    requires History(p)
    requires c < |p.calls| && MarkOf(p.calls[c]) == Unmarked
    ensures History(p.(stop := true, tasks := [], fates := p.fates + seq(|p.tasks|, _ => Discarded(c)),
                       calls := p.calls[c := StopNotifyWorkers(Immediate)]))
  {
    var q := p.(stop := true, tasks := [], fates := p.fates + seq(|p.tasks|, _ => Discarded(c)),
                calls := p.calls[c := StopNotifyWorkers(Immediate)]);
    assert MarkOf(q.calls[c]) == Discarding;
    assert forall d | 0 <= d < |p.calls| && d != c :: q.calls[d] == p.calls[d];
    assert AcceptExact(q);
    assert FatesExact(q);
  }

  /** The predicate of wait_all at its final check: nothing is queued or in progress. */
  lemma NothingLeft(p: Pool)
    requires History(p) && WaitersServed(p) && p.nbWorking == 0 && p.tasks == []
    ensures |p.fates| == |p.accepted| && forall k | 0 <= k < |p.fates| :: Settled(p.fates[k])
  {
    forall k | 0 <= k < |p.fates| ensures Settled(p.fates[k]) {
      if p.fates[k].InProgress? {
        var w := p.fates[k].worker;
        hide NumW;
        NumWUpdate(p.workers, w, p.workers[w]);
        assert false;
      }
    }
  }

  lemma WaitKeepsHistory(p: Pool, c: nat)
    requires History(p) && WaitersServed(p) && p.nbWorking == 0 && p.tasks == []
    requires c < |p.calls| && MarkOf(p.calls[c]) == Unmarked
    ensures History(p.(calls := p.calls[c := WaitDone(|p.accepted|)]))
  {
    NothingLeft(p);
    var q := p.(calls := p.calls[c := WaitDone(|p.accepted|)]);
    assert MarkOf(q.calls[c]) == Waited(|p.fates|);
    assert forall d | 0 <= d < |p.calls| && d != c :: q.calls[d] == p.calls[d];
    assert AcceptExact(q);
  }

  lemma JoinKeepsMarks(p: Pool, q: Pool, c: nat)
    requires AcceptExact(p) && FatesExact(p) && WaitsExact(p)
    requires q == p.(calls := q.calls) && c < |p.calls| == |q.calls|
    requires MarkOf(p.calls[c]).Joined? && (MarkOf(q.calls[c]).Joined? || MarkOf(q.calls[c]).Destroyed?)
    requires forall d | 0 <= d < |p.calls| && d != c :: q.calls[d] == p.calls[d]
    ensures AcceptExact(q) && FatesExact(q) && WaitsExact(q)
  {}

  lemma JoinKeepsHistory(p: Pool, c: nat)
    requires History(p) && Enabled(p, Join(c))
    ensures History(Apply(p, Join(c)))
  {
    hide AcceptExact, FatesExact, WaitsExact;
    var q := Apply(p, Join(c));
    assert MarkOf(p.calls[c]) == Joined(p.calls[c].next);
    JoinKeepsMarks(p, q, c);
  }

  lemma WorkerSectionKeepsHistory(p: Pool, w: nat)
    requires History(p) && Enabled(p, WorkerEnter(w))
    ensures History(WorkerSection(p, w))
  {
    hide History;
    if !(p.stop || p.tasks != []) {
      QuietKeepsHistory(p, WorkerSection(p, w));
    } else if p.tasks == [] {
      ExitKeepsHistory(p, w);
    } else {
      TakeKeepsHistory(p, w);
    }
  }

  lemma RetireKeepsHistory(p: Pool, w: nat)
    requires History(p) && Enabled(p, Retire(w))
    ensures History(RetireSection(p, w))
  {
    hide History;
    var q := p.(workers := p.workers[w := Ready]);
    FinishKeepsHistory(p, w);
    QuietKeepsHistory(q, RetireSection(p, w));
  }

  lemma EnqueueKeepsHistory(p: Pool, c: nat)
    requires History(p) && c < |p.calls| && MarkOf(p.calls[c]) == Unmarked
    ensures History(EnqueueSection(p, c))
  {
    hide History;
    if (p.maxJobs > 0 && !(|p.tasks| < p.maxJobs)) || p.stop {
      QuietKeepsHistory(p, EnqueueSection(p, c));
    } else {
      AcceptKeepsHistory(p, c);
    }
  }

  lemma StopKeepsHistory(p: Pool, c: nat, kind: StopKind)
    requires History(p) && c < |p.calls| && p.calls[c] == StopEntry(kind)
    ensures History(StopSection(p, c, kind))
  {
    hide History;
    if kind == Immediate {
      var q := p.(stop := true, tasks := [], fates := p.fates + seq(|p.tasks|, _ => Discarded(c)),
                  calls := p.calls[c := StopNotifyWorkers(Immediate)]);
      DiscardKeepsHistory(p, c);
      QuietKeepsHistory(q, StopSection(p, c, kind));
    } else {
      QuietKeepsHistory(p, StopSection(p, c, kind));
    }
  }

  lemma WaitSectionKeepsHistory(p: Pool, c: nat)
    requires History(p) && WaitersServed(p) && c < |p.calls| && MarkOf(p.calls[c]) == Unmarked
    ensures History(WaitSection(p, c))
  {
    hide History, WaitersServed;
    if p.nbWorking == 0 && p.tasks == [] {
      WaitKeepsHistory(p, c);
    } else {
      QuietKeepsHistory(p, WaitSection(p, c));
    }
  }

  lemma CallSectionKeepsHistory(p: Pool, c: nat)
    requires History(p) && WaitersServed(p) && Enabled(p, CallEnter(c))
    ensures History(CallSection(p, c))
  {
    hide History, WaitersServed, EnqueueSection, StopSection, WaitSection;
    match p.calls[c]
    case EnqueueEntry => EnqueueKeepsHistory(p, c);
    case EnqueueWoken => EnqueueKeepsHistory(p, c);
    case StopEntry(kind) => StopKeepsHistory(p, c, kind);
    case WaitEntry => WaitSectionKeepsHistory(p, c);
    case WaitWoken => WaitSectionKeepsHistory(p, c);
  }

  lemma StopNotifyKeepsHistory(p: Pool, c: nat)
    requires History(p) && Enabled(p, StopNotify(c))
    ensures History(StopNotifyStep(p, c))
  {
    hide History;
    QuietKeepsHistory(p, StopNotifyStep(p, c));
  }

  lemma QuietStepKeepsHistory(p: Pool, step: Step)
    requires History(p) && Enabled(p, step)
    requires step.Begin? || step.NotifyEnqueuer? || step.NotifyWorker? || step.SpuriousWorker? || step.SpuriousCall?
    ensures History(Apply(p, step))
  {
    hide History;
    QuietKeepsHistory(p, Apply(p, step));
  }

  /** Every step keeps the history. */
  lemma StepKeepsHistory(p: Pool, step: Step)
    requires History(p) && WaitersServed(p) && Enabled(p, step)
    ensures History(Apply(p, step))
  {
    hide History, WaitersServed, WorkerSection, RetireSection, CallSection, StopNotifyStep;
    match step
    case StopNotify(c) => StopNotifyKeepsHistory(p, c);
    case WorkerEnter(w) => WorkerSectionKeepsHistory(p, w);
    case Execute(w) => ExecuteKeepsHistory(p, w);
    case Retire(w) => RetireKeepsHistory(p, w);
    case Join(c) => JoinKeepsHistory(p, c);
    case CallEnter(c) => CallSectionKeepsHistory(p, c);
    case _ => QuietStepKeepsHistory(p, step);
  }
}
