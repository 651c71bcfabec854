/** What holds over whole runs of a channel, for any number of calls and any interleaving. */
module ChannelRuns {
  import opened Options
  import opened Measures
  import opened Tallies
  import opened Channels
  import opened ChannelSafety
  import opened ChannelFifo

  ghost predicate Reachable<T(!new)>(cfg: Config, s: State<T>) {
    exists steps: seq<Step<T>> :: Legal(cfg, Init(), steps) && Exec(cfg, Init(), steps) == s
  }

  lemma {:induction false} ExecAppend<T>(cfg: Config, s: State<T>, steps: seq<Step<T>>, step: Step<T>)
    requires Legal(cfg, s, steps) && Enabled(cfg, Exec(cfg, s, steps), step)
    ensures Legal(cfg, s, steps + [step])
    ensures Exec(cfg, s, steps + [step]) == Apply(cfg, Exec(cfg, s, steps), step)
    decreases |steps|
  {
    hide Enabled, Apply;
    if steps == [] {
      assert [step][1..] == [];
    } else {
      assert (steps + [step])[1..] == steps[1..] + [step];
      ExecAppend(cfg, Apply(cfg, s, steps[0]), steps[1..], step);
    }
  }

  lemma InitReachable<T(!new)>(cfg: Config)
    ensures Reachable<T>(cfg, Init())
  {
    var none: seq<Step<T>> := [];
    assert Legal(cfg, Init(), none) && Exec(cfg, Init(), none) == Init();
  }

  lemma StepReachable<T(!new)>(cfg: Config, s: State<T>, step: Step<T>)
    requires Reachable(cfg, s) && Enabled(cfg, s, step)
    ensures Reachable(cfg, Apply(cfg, s, step))
  {
    hide Enabled, Apply;
    var steps: seq<Step<T>> :| Legal(cfg, Init(), steps) && Exec(cfg, Init(), steps) == s;
    ExecAppend(cfg, Init(), steps, step);
  }

  // ---- Safety

  lemma {:induction false} RunKeepsInvariants<T>(cfg: Config, s: State<T>, steps: seq<Step<T>>)
    requires Legal(cfg, s, steps) && Fifo(s)
    ensures Fifo(Exec(cfg, s, steps))
    ensures WithinBound(cfg, s) ==> WithinBound(cfg, Exec(cfg, s, steps))
    ensures SafeConfig(cfg) && WakeInv(cfg, s) ==> WakeInv(cfg, Exec(cfg, s, steps))
    decreases |steps|
  {
    hide Enabled, Apply, Fifo, WakeInv, WithinBound;
    if steps == [] {
    } else {
      StepKeepsFifo(cfg, s, steps[0]);
      if WithinBound(cfg, s) {
        StepKeepsBound(cfg, s, steps[0]);
      }
      if SafeConfig(cfg) && WakeInv(cfg, s) {
        StepKeepsWakeInv(cfg, s, steps[0]);
      }
      RunKeepsInvariants(cfg, Apply(cfg, s, steps[0]), steps[1..]);
    }
  }

  /** In every reachable state the history is exact, the queue within its bound and, in a safe configuration, no wakeup
      lost.  */
  lemma ReachableIsSafe<T(!new)>(cfg: Config, s: State<T>)
    requires Reachable(cfg, s)
    ensures Fifo(s) && WithinBound(cfg, s)
    ensures SafeConfig(cfg) ==> WakeInv(cfg, s)
  {
    var steps: seq<Step<T>> :| Legal(cfg, Init(), steps) && Exec(cfg, Init(), steps) == s;
    RunKeepsInvariants(cfg, Init(), steps);
  }

  predicate FailedPop<T>(pc: Pc<T>) {
    pc == PopDone(None)
  }

  /** The call was still undecided, or not yet made. */
  predicate Undecided<T>(s: State<T>, d: nat) {
    d >= |s.calls| || OutcomeOf(s.calls[d]) == Nothing
  }

  /** Once a `pop` has failed, nothing is ever accepted or delivered again: every other `pop` that was not decided
      by then fails if it ever returns, and every such `emplace` is refused.  */
  lemma FailedPopIsFinal<T>(cfg: Config, s: State<T>, steps: seq<Step<T>>, c: nat)
    requires Legal(cfg, s, steps) && Fifo(s)
    requires c < |s.calls| && FailedPop(s.calls[c])
    ensures var t := Exec(cfg, s, steps);
            && t.log == s.log && t.removed == s.removed && |s.calls| <= |t.calls|
            && (forall d | 0 <= d < |t.calls| && Undecided(s, d) ::
                  && (t.calls[d].PopDone? ==> FailedPop(t.calls[d]))
                  && (t.calls[d].EmplaceDone? ==> !t.calls[d].ok))
  {
    hide Legal, Exec, Enabled, Apply, WakeInv;
    RunKeepsInvariants(cfg, s, steps);
    assert OutcomeOf(s.calls[c]) == Failed;
    DrainedStaysDrained(cfg, s, steps);
    var t := Exec(cfg, s, steps);
    hide Fifo, Undecided;
    forall d | 0 <= d < |t.calls| && Undecided(s, d)
      ensures t.calls[d].PopDone? ==> FailedPop(t.calls[d])
      ensures t.calls[d].EmplaceDone? ==> !t.calls[d].ok
    {
      SameHistorySameCalls(s, t, d);
    }
  }

  /** An undecided call has not taken or appended anything while the history stayed the same. */
  lemma SameHistorySameCalls<T>(s: State<T>, t: State<T>, d: nat)
    requires Fifo(s) && Fifo(t) && t.log == s.log && t.removed == s.removed && d < |t.calls| && Undecided(s, d)
    ensures !OutcomeOf(t.calls[d]).Took? && !OutcomeOf(t.calls[d]).Accepted?
  {
    assert Delivered(d) !in s.removed;
    assert forall e | e in s.log :: e.call != d;
  }

  lemma {:induction false} DrainedStaysDrained<T>(cfg: Config, s: State<T>, steps: seq<Step<T>>)
    requires Legal(cfg, s, steps) && s.closed && s.queue == []
    ensures var t := Exec(cfg, s, steps);
            t.log == s.log && t.removed == s.removed && |s.calls| <= |t.calls| && t.closed && t.queue == []
    decreases |steps|
  {
    if steps == [] {
    } else {
      assert |s.calls| <= |Apply(cfg, s, steps[0]).calls|;
      DrainedStaysDrained(cfg, Apply(cfg, s, steps[0]), steps[1..]);
    }
  }

  // ---- Termination

  /** The steps a call may still take, not counting the returns to sleep. */
  function Weight<T>(pc: Pc<T>): nat {
    match RoleOf(pc)
    case AtEmplace => 3 case AtPop => 3 case AtClose => 3
    case ProducerAsleep => 2 case ProducerWoken => 2 case ConsumerAsleep => 2 case ConsumerWoken => 2
    case AtClear => 2 case CloseNotifyingPop => 2
    case EmplaceNotifying => 1 case PopNotifying => 1 case ClearNotifying => 1 case CloseNotifyingEmplace => 1
    case Finished => 0
  }

  function Work<T>(calls: seq<Pc<T>>): nat {
    Sum(calls, Weight)
  }

  function AwakeAgain<T>(calls: seq<Pc<T>>): nat {
    Sum(calls, Alert)
  }

  function Alert<T>(pc: Pc<T>): nat {
    if pc.EmplaceWoken? || pc.PopWoken? then 1 else 0
  }

  predicate OwnStep<T>(step: Step<T>) {
    !step.Begin? && !step.Spurious?
  }

  /** Lexicographic descent. */
  predicate Descends<T>(calls: seq<Pc<T>>, calls': seq<Pc<T>>) {
    Work(calls') < Work(calls) || (Work(calls') == Work(calls) && AwakeAgain(calls') < AwakeAgain(calls))
  }

  lemma WorkUpdate<T>(calls: seq<Pc<T>>, c: nat, pc: Pc<T>)
    requires c < |calls|
    ensures Work(calls[c := pc]) == Work(calls) - Weight(calls[c]) + Weight(pc)
    ensures AwakeAgain(calls[c := pc]) == AwakeAgain(calls) - Alert(calls[c]) + Alert(pc)
  {
    hide Sum;
    SumUpdate(calls, Weight, c, pc);
    SumUpdate(calls, Alert, c, pc);
  }

  lemma WakeAllWork<T>(calls: seq<Pc<T>>)
    ensures Work(WakeProducers(calls)) == Work(calls) && Work(WakeConsumers(calls)) == Work(calls)
  {
    hide Sum;
    SumSame(calls, WakeProducers(calls), Weight);
    SumSame(calls, WakeConsumers(calls), Weight);
  }

  lemma NotifyOneDescends<T>(cfg: Config, s: State<T>, c: nat, wake: Option<nat>)
    requires Enabled(cfg, s, NotifyOne(c, wake))
    ensures Descends(s.calls, Apply(cfg, s, NotifyOne(c, wake)).calls)
  {
    hide Work, AwakeAgain, Section, NotifyAllStep;
    if wake.Some? {
      var woken := s.calls[wake.value := Awake(s.calls[wake.value])];
      WorkUpdate(s.calls, wake.value, Awake(s.calls[wake.value]));
      WorkUpdate(woken, c, Notified(s.calls[c]));
    } else {
      WorkUpdate(s.calls, c, Notified(s.calls[c]));
    }
  }

  lemma NotifyAllDescends<T>(cfg: Config, s: State<T>, c: nat)
    requires Enabled(cfg, s, NotifyAll(c))
    ensures Descends(s.calls, NotifyAllStep(cfg, s, c).calls)
  {
    hide Work, AwakeAgain;
    WakeAllWork(s.calls);
    WorkUpdate(if s.calls[c].CloseNotifyPop? then WakeConsumers(s.calls) else WakeProducers(s.calls), c,
               NotifyAllStep(cfg, s, c).calls[c]);
  }

  /** Every step of a call, except a spurious wakeup, descends. */
  lemma StepDescends<T>(cfg: Config, s: State<T>, step: Step<T>)
    requires Enabled(cfg, s, step) && OwnStep(step)
    ensures Descends(s.calls, Apply(cfg, s, step).calls)
    ensures |Apply(cfg, s, step).calls| == |s.calls|
  {
    hide Work, AwakeAgain;
    var t := Apply(cfg, s, step);
    match step
    case NotifyOne(c, wake) => NotifyOneDescends(cfg, s, c, wake);
    case NotifyAll(c) => NotifyAllDescends(cfg, s, c);
    case Enter(c) => WorkUpdate(s.calls, c, t.calls[c]);
  }

  lemma WorkBound<T>(calls: seq<Pc<T>>)
    ensures Work(calls) <= 3 * |calls| && AwakeAgain(calls) <= |calls|
  {
    hide Sum;
    SumBound(calls, Weight, 3);
    SumBound(calls, Alert, 1);
  }

  function Begins<T>(steps: seq<Step<T>>): nat {
    if steps == [] then 0 else (if steps[0].Begin? then 1 else 0) + Begins(steps[1..])
  }

  /** Bounds the steps left when `b` more calls will be made. */
  function Potential<T>(calls: seq<Pc<T>>, b: nat): int {
    var n := |calls| + b + 1;
    Work(calls) * n + AwakeAgain(calls) + b * (3 * n + 1)
  }

  lemma PotentialFalls<T>(cfg: Config, s: State<T>, step: Step<T>, b: nat)
    requires Enabled(cfg, s, step) && !step.Spurious?
    requires step.Begin? ==> b > 0
    ensures Potential(Apply(cfg, s, step).calls, if step.Begin? then b - 1 else b) < Potential(s.calls, b)
  {
    hide Work, AwakeAgain;
    var t := Apply(cfg, s, step);
    var n := |s.calls| + b + 1;
    WorkBound(t.calls);
    if step.Begin? {
      BeginAddsWork(s.calls, t.calls[|s.calls|]);
      BudgetPays(Work(s.calls), Work(t.calls), 3, b, n);
    } else {
      StepDescends(cfg, s, step);
      Lexicographic(Work(s.calls), Work(t.calls), AwakeAgain(s.calls), AwakeAgain(t.calls), n);
    }
  }

  lemma BeginAddsWork<T>(calls: seq<Pc<T>>, pc: Pc<T>)
    requires pc.EmplaceEntry? || pc.PopEntry? || pc.ClearEntry? || pc.CloseEntry?
    ensures Work(calls + [pc]) <= Work(calls) + 3 && AwakeAgain(calls + [pc]) == AwakeAgain(calls)
  {
    hide Sum;
    SumAppend(calls, Weight, pc);
    SumAppend(calls, Alert, pc);
  }

  lemma {:induction false} RunBound<T>(cfg: Config, s: State<T>, steps: seq<Step<T>>)
    requires Legal(cfg, s, steps)
    requires forall i | 0 <= i < |steps| :: !steps[i].Spurious?
    ensures |steps| <= Potential(s.calls, Begins(steps))
    decreases |steps|
  {
    hide Enabled, Apply, Work, AwakeAgain;
    if steps == [] {
      assert Work(s.calls) * (|s.calls| + 1) >= 0;
    } else {
      hide Potential;
      PotentialFalls(cfg, s, steps[0], Begins(steps));
      RunBound(cfg, Apply(cfg, s, steps[0]), steps[1..]);
    }
  }

  /** A run of b calls without spurious wakeups has at most 3b^2 + 4b steps. */
  lemma RunsEnd<T>(cfg: Config, steps: seq<Step<T>>)
    requires Legal(cfg, Init(), steps)
    requires forall i | 0 <= i < |steps| :: !steps[i].Spurious?
    ensures |steps| <= 3 * Begins(steps) * Begins(steps) + 4 * Begins(steps)
  {
    hide Enabled, Apply;
    RunBound(cfg, Init(), steps);
    WorkBound<T>([]);
  }

  // ---- Terminal states

  /** No call can take a step of its own. */
  ghost predicate Quiescent<T(!new)>(cfg: Config, s: State<T>) {
    forall step: Step<T> :: OwnStep(step) ==> !Enabled(cfg, s, step)
  }

  predicate Blocked<T>(pc: Pc<T>) {
    pc.EmplaceAsleep? || pc.PopAsleep?
  }

  lemma OwnStepOf<T>(cfg: Config, s: State<T>, c: nat) returns (step: Step<T>)
    requires c < |s.calls| && !Blocked(s.calls[c]) && RoleOf(s.calls[c]) != Finished
    ensures OwnStep(step) && Enabled(cfg, s, step)
  {
    var pc := s.calls[c];
    if CanEnter(pc) {
      step := Enter(c);
    } else if CanNotifyAll(pc) {
      step := NotifyAll(c);
    } else if w :| 0 <= w < |s.calls| && SleepsFor(s.calls[w], pc) {
      step := NotifyOne(c, Some(w));
    } else {
      step := NotifyOne(c, None);
    }
  }

  lemma QuiescentCalls<T(!new)>(cfg: Config, s: State<T>, c: nat)
    requires Quiescent(cfg, s) && c < |s.calls|
    ensures Blocked(s.calls[c]) || RoleOf(s.calls[c]) == Finished
  {
    if !Blocked(s.calls[c]) && RoleOf(s.calls[c]) != Finished {
      var step := OwnStepOf(cfg, s, c);
    }
  }

  lemma QuiescentCounts<T(!new)>(cfg: Config, s: State<T>)
    requires Quiescent(cfg, s)
    ensures forall c | 0 <= c < |s.calls| :: Blocked(s.calls[c]) || RoleOf(s.calls[c]) == Finished
    ensures Num(s.calls, EmplaceNotifying) == Num(s.calls, ConsumerWoken) == Num(s.calls, CloseNotifyingPop) == 0
    ensures Num(s.calls, PopNotifying) == Num(s.calls, ProducerWoken) == 0
    ensures Num(s.calls, ClearNotifying) == Num(s.calls, CloseNotifyingEmplace) == 0
  {
    forall c | 0 <= c < |s.calls| ensures Blocked(s.calls[c]) || RoleOf(s.calls[c]) == Finished {
      QuiescentCalls(cfg, s, c);
    }
    hide Num, Quiescent;
    NumZero(s.calls, EmplaceNotifying);
    NumZero(s.calls, ConsumerWoken);
    NumZero(s.calls, CloseNotifyingPop);
    NumZero(s.calls, PopNotifying);
    NumZero(s.calls, ProducerWoken);
    NumZero(s.calls, ClearNotifying);
    NumZero(s.calls, CloseNotifyingEmplace);
  }

  lemma QuiescentMeans<T(!new)>(cfg: Config, s: State<T>)
    requires SafeConfig(cfg) && WakeInv(cfg, s) && Quiescent(cfg, s)
    ensures forall c | 0 <= c < |s.calls| :: Blocked(s.calls[c]) || RoleOf(s.calls[c]) == Finished
    ensures forall c | 0 <= c < |s.calls| && s.calls[c].EmplaceAsleep? ::
              !s.closed && cfg.bounded && |s.queue| == cfg.max
    ensures forall c | 0 <= c < |s.calls| && s.calls[c].PopAsleep? :: !s.closed && s.queue == []
  {
    hide Num, Quiescent;
    QuiescentCounts(cfg, s);
    forall c | 0 <= c < |s.calls| ensures Num(s.calls, RoleOf(s.calls[c])) > 0 {
      NumUpdate(s.calls, c, s.calls[c]);
    }
  }

  /** A channel never jams: when nothing can move, blocked producers mean an open and full channel, blocked
      consumers an open and empty one, and so never both at once; a closed channel leaves no call blocked.  */
  lemma QuiescentNeverJams<T(!new)>(cfg: Config, s: State<T>)
    requires SafeConfig(cfg) && Reachable(cfg, s) && Quiescent(cfg, s)
    ensures forall c | 0 <= c < |s.calls| && s.calls[c].EmplaceAsleep? ::
              !s.closed && cfg.bounded && |s.queue| == cfg.max
    ensures forall c | 0 <= c < |s.calls| && s.calls[c].PopAsleep? :: !s.closed && s.queue == []
    ensures forall c, d | 0 <= c < |s.calls| && 0 <= d < |s.calls| ::
              !(s.calls[c].EmplaceAsleep? && s.calls[d].PopAsleep?)
    ensures s.closed ==> forall c | 0 <= c < |s.calls| :: RoleOf(s.calls[c]) == Finished
  {
    ReachableIsSafe(cfg, s);
    QuiescentMeans(cfg, s);
  }
}
