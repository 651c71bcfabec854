/** The thread pool as an object: `tasks`, `stop_` and `nb_working` are fields, and each method is one step of a worker
    or of a client call, tied to the step function whose runs the other modules reason about.  */
module ThreadPoolObject {
  import opened Options
  import opened ThreadPools
  import opened PoolSafety
  import opened PoolHistory
  import opened PoolCalls
  import opened PoolRuns

  class ThreadPool {
    const maxJobs: nat
    var stop: bool
    var tasks: seq<nat>
    var nbWorking: nat
    var workers: seq<WorkerPc>
    var calls: seq<CallPc>
    ghost var fates: seq<Fate>
    ghost var log: seq<nat>
    var nbAccepted: nat

    ghost function View(): Pool
      reads this
    {
      Pool(maxJobs, stop, tasks, nbWorking, workers, calls, log, fates)
    }

    ghost predicate Valid()
      reads this
    {
      PoolInv(View()) && nbAccepted == |log|
    }

    constructor (nbThreads: nat, maxJobs: nat)
      ensures Valid() && View() == Init(nbThreads, maxJobs)
    {
      this.maxJobs := maxJobs;
      stop, tasks, nbWorking := false, [], 0;
      workers, calls := seq(nbThreads, _ => Ready), [];
      log, fates, nbAccepted := [], [], 0;
      new;
      InitInv(nbThreads, maxJobs);
    }

    lemma Stepped(before: Pool, step: Step)
      requires PoolInv(before) && Enabled(before, step)
      requires View() == Apply(before, step) && nbAccepted == |log|
      ensures Valid()
    {
      hide Enabled, Apply, View, WorkersServed, EnqueuersServed, WaitersServed, StopConsistent, History, EndsJustified;
      StepKeepsHistory(before, step);
      StepKeepsWakeInv(before, step);
      StepKeepsEnds(before, step);
    }

    method Begin(request: Request) returns (c: nat)
      requires Valid()
      modifies this
      ensures Valid() && c == |old(calls)| && View() == Apply(old(View()), Step.Begin(request))
    {
      hide PoolInv;
      c := |calls|;
      calls := calls + [Entered(request)];
      Stepped(old(View()), Step.Begin(request));
    }

    /** The first critical section of `worker_loop`. */
    method WorkerSection(w: nat)
      requires Valid() && Enabled(View(), WorkerEnter(w))
      modifies this
      ensures Valid() && View() == Apply(old(View()), WorkerEnter(w))
    {
      hide PoolInv;
      if !(stop || |tasks| > 0) {
        workers := workers[w := Idle];
      } else if |tasks| == 0 {
        workers := workers[w := Exited];
      } else {
        var task := tasks[0];
        tasks := tasks[1..];
        nbWorking := nbWorking + 1;
        fates := fates + [InProgress(w)];
        workers := workers[w := if maxJobs > 0 then Took(task) else Running(task)];
      }
      Stepped(old(View()), WorkerEnter(w));
    }

    method NotifyEnqueuer(w: nat) returns (wake: Option<nat>)
      requires Valid() && w < |workers| && workers[w].Took?
      modifies this
      ensures Valid() && Enabled(old(View()), Step.NotifyEnqueuer(w, wake))
      ensures View() == Apply(old(View()), Step.NotifyEnqueuer(w, wake))
    {
      hide PoolInv;
      if c :| 0 <= c < |calls| && calls[c].EnqueueAsleep? {
        wake := Some(c);
        calls := calls[c := EnqueueWoken];
      } else {
        wake := None;
      }
      workers := workers[w := Running(workers[w].task)];
      Stepped(old(View()), Step.NotifyEnqueuer(w, wake));
    }

    /** The call of the task, which returns. */
    method Execute(w: nat)
      requires Valid() && w < |workers| && workers[w].Running?
      modifies this
      ensures Valid() && View() == Apply(old(View()), Step.Execute(w))
    {
      hide PoolInv;
      fates := SetFate(fates, workers[w].task, Done(w));
      workers := workers[w := Retiring(workers[w].task)];
      Stepped(old(View()), Step.Execute(w));
    }

    /** The second critical section of `worker_loop`; the counter cannot be zero here. */
    method Retire(w: nat)
      requires Valid() && w < |workers| && workers[w].Retiring?
      modifies this
      ensures Valid() && Enabled(old(View()), Step.Retire(w)) && View() == Apply(old(View()), Step.Retire(w))
    {
      hide History, NumW, NumC;
      NumWUpdate(workers, w, workers[w]);
      assert nbWorking > 0;
      hide PoolInv;
      nbWorking := nbWorking - 1;
      if nbWorking == 0 {
        calls := WakeWaiters(calls);
      }
      workers := workers[w := Ready];
      Stepped(old(View()), Step.Retire(w));
    }

    /** The critical section of `enqueue_task`. */
    method EnqueueSection(c: nat)
      requires Valid() && c < |calls| && (calls[c].EnqueueEntry? || calls[c].EnqueueWoken?)
      modifies this
      ensures Valid() && View() == Apply(old(View()), CallEnter(c))
    {
      hide PoolInv;
      if maxJobs > 0 && !(|tasks| < maxJobs || stop) {
        calls := calls[c := EnqueueAsleep];
      } else if stop {
        calls := calls[c := EnqueueThrew];
      } else {
        tasks := tasks + [nbAccepted];
        nbAccepted := nbAccepted + 1;
        log := log + [c];
        calls := calls[c := EnqueueNotify];
      }
      Stepped(old(View()), CallEnter(c));
    }

    method NotifyWorker(c: nat) returns (wake: Option<nat>)
      requires Valid() && c < |calls| && calls[c].EnqueueNotify?
      modifies this
      ensures Valid() && Enabled(old(View()), Step.NotifyWorker(c, wake))
      ensures View() == Apply(old(View()), Step.NotifyWorker(c, wake))
    {
      hide PoolInv;
      if w :| 0 <= w < |workers| && workers[w].Idle? {
        wake := Some(w);
        workers := workers[w := Roused];
      } else {
        wake := None;
      }
      calls := calls[c := EnqueueDone];
      Stepped(old(View()), Step.NotifyWorker(c, wake));
    }

    /** The critical section of `stop`, also the first thing the destructor does. */
    method StopSection(c: nat)
      requires Valid() && c < |calls| && calls[c].StopEntry? && calls[c].kind != Immediate
      modifies this
      ensures Valid() && View() == Apply(old(View()), CallEnter(c))
    {
      hide PoolInv;
      stop := true;
      calls := calls[c := StopNotifyWorkers(calls[c].kind)];
      Stepped(old(View()), CallEnter(c));
    }

    /** The critical section of `stop_now`. */
    method StopNowSection(c: nat)
      requires Valid() && c < |calls| && calls[c] == StopEntry(Immediate)
      modifies this
      ensures Valid() && View() == Apply(old(View()), CallEnter(c))
    {
      hide PoolInv;
      stop := true;
      fates := fates + seq(|tasks|, _ => Discarded(c));
      tasks := [];
      if nbWorking == 0 {
        calls := WakeWaiters(calls);
      }
      calls := calls[c := StopNotifyWorkers(Immediate)];
      Stepped(old(View()), CallEnter(c));
    }

    /** One of the two notify_all calls that end `stop` and `stop_now`. */
    method StopNotify(c: nat)
      requires Valid() && Enabled(View(), Step.StopNotify(c))
      modifies this
      ensures Valid() && View() == Apply(old(View()), Step.StopNotify(c))
    {
      hide PoolInv;
      match calls[c] {
        case StopNotifyWorkers(kind) =>
          workers := RouseWorkers(workers);
          calls := calls[c := if maxJobs > 0 then StopNotifyEnqueuers(kind) else AfterStop(kind)];
        case StopNotifyEnqueuers(kind) =>
          calls := WakeEnqueuers(calls)[c := AfterStop(kind)];
      }
      Stepped(old(View()), Step.StopNotify(c));
    }

    /** One round of the destructor's loop over `join`. */
    method Join(c: nat)
      requires Valid() && Enabled(View(), Step.Join(c))
      modifies this
      ensures Valid() && View() == Apply(old(View()), Step.Join(c))
    {
      hide PoolInv;
      var next := calls[c].next;
      calls := calls[c := if next < |workers| then Joining(next + 1) else DestroyDone];
      Stepped(old(View()), Step.Join(c));
    }

    /** The critical section of `wait_all`. */
    method WaitSection(c: nat)
      requires Valid() && c < |calls| && (calls[c].WaitEntry? || calls[c].WaitWoken?)
      modifies this
      ensures Valid() && View() == Apply(old(View()), CallEnter(c))
    {
      hide PoolInv;
      if nbWorking == 0 && |tasks| == 0 {
        calls := calls[c := WaitDone(nbAccepted)];
      } else {
        calls := calls[c := WaitAsleep];
      }
      Stepped(old(View()), CallEnter(c));
    }

    method SpuriousWorkerWakeup(w: nat)
      requires Valid() && w < |workers| && workers[w].Idle?
      modifies this
      ensures Valid() && View() == Apply(old(View()), SpuriousWorker(w))
    {
      hide PoolInv;
      workers := workers[w := Roused];
      Stepped(old(View()), SpuriousWorker(w));
    }

    method SpuriousCallWakeup(c: nat)
      requires Valid() && c < |calls| && (calls[c].EnqueueAsleep? || calls[c].WaitAsleep?)
      modifies this
      ensures Valid() && View() == Apply(old(View()), SpuriousCall(c))
    {
      hide PoolInv;
      calls := calls[c := Awake(calls[c])];
      Stepped(old(View()), SpuriousCall(c));
    }
  }
}
