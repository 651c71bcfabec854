/** The blocking queue of `clst/clst/channel.hpp` as a step machine.

    One call of `emplace`, `pop`, `clear` or `close` is one entry of `calls`, and its index there is its
    identity.  A critical section is one step.  `condition_variable::wait` releases the lock and falls asleep in
    one step; a sleeper that has been woken re-runs its critical section and so re-checks its predicate
    (ISO C++17, section 33.5).  Every notify that the source issues after unlocking is a step of its own.  */
module Channels {
  import opened Options
  import opened Tallies

  /** The template arguments and the capacity, and what the clients promise: that at most one `emplace`
      (`oneProducer`), respectively at most one `pop` (`oneConsumer`), is in progress at any time.  */
  datatype Config = Config(bounded: bool, max: nat, sp: bool, sc: bool, oneProducer: bool, oneConsumer: bool)

  datatype Call<T> = Emplace(item: T) | Pop | Clear | Close

  /** Where a call stands. */
  datatype Pc<T> =
    | EmplaceEntry(item: T)        // called, the lock not yet taken
    | EmplaceAsleep(item: T)       // waits on cond_emplace_
    | EmplaceWoken(item: T)        // will re-take the lock and re-check
    | EmplaceNotify(item: T)       // accepted, about to notify cond_pop_
    | EmplaceDone(item: T, ok: bool)
    | PopEntry
    | PopAsleep                    // waits on cond_pop_
    | PopWoken
    | PopNotify(got: T)            // took an item, about to notify cond_emplace_
    | PopDone(result: Option<T>)
    | ClearEntry
    | ClearNotify
    | ClearDone
    | CloseEntry
    | CloseNotifyPop               // about to notify_all on cond_pop_
    | CloseNotifyEmplace           // about to notify_all on cond_emplace_
    | CloseDone

  datatype Entry<T> = Entry(item: T, call: nat)

  /** What became of an item that left the queue: handed to a `pop`, or dropped by a `clear`. */
  datatype Removal = Delivered(pop: nat) | Dropped(clear: nat)

  /** `log` records the accepted items in order, `removed[k]` the fate of `log[k]`.  Both only record history;
      no step reads them.  */
  datatype State<T> = State(queue: seq<T>, closed: bool, calls: seq<Pc<T>>, log: seq<Entry<T>>, removed: seq<Removal>)

  datatype Step<T> =
    | Begin(call: Call<T>)
    | Enter(c: nat)                            // run the critical section
    | NotifyOne(c: nat, wake: Option<nat>)     // wake is None only when nobody sleeps
    | NotifyAll(c: nat)
    | Spurious(c: nat)                         // a sleeper wakes unasked

  function Init<T>(): State<T> {
    State([], false, [], [], [])
  }

  // ---- Counting the calls that stand at a given point

  datatype Role =
    | AtEmplace | ProducerAsleep | ProducerWoken | EmplaceNotifying
    | AtPop | ConsumerAsleep | ConsumerWoken | PopNotifying
    | AtClear | ClearNotifying | AtClose | CloseNotifyingPop | CloseNotifyingEmplace | Finished

  function RoleOf<T>(pc: Pc<T>): Role {
    match pc
    case EmplaceEntry(_) => AtEmplace
    case EmplaceAsleep(_) => ProducerAsleep
    case EmplaceWoken(_) => ProducerWoken
    case EmplaceNotify(_) => EmplaceNotifying
    case EmplaceDone(_, _) => Finished
    case PopEntry => AtPop
    case PopAsleep => ConsumerAsleep
    case PopWoken => ConsumerWoken
    case PopNotify(_) => PopNotifying
    case PopDone(_) => Finished
    case ClearEntry => AtClear
    case ClearNotify => ClearNotifying
    case ClearDone => Finished
    case CloseEntry => AtClose
    case CloseNotifyPop => CloseNotifyingPop
    case CloseNotifyEmplace => CloseNotifyingEmplace
    case CloseDone => Finished
  }

  function Num<T>(calls: seq<Pc<T>>, k: Role): nat {
    Count(calls, RoleOf, k)
  }

  function EmplacesInProgress<T>(calls: seq<Pc<T>>): nat {
    Num(calls, AtEmplace) + Num(calls, ProducerAsleep) + Num(calls, ProducerWoken) + Num(calls, EmplaceNotifying)
  }

  function PopsInProgress<T>(calls: seq<Pc<T>>): nat {
    Num(calls, AtPop) + Num(calls, ConsumerAsleep) + Num(calls, ConsumerWoken) + Num(calls, PopNotifying)
  }

  // ---- Steps

  predicate CanEnter<T>(pc: Pc<T>) {
    pc.EmplaceEntry? || pc.EmplaceWoken? || pc.PopEntry? || pc.PopWoken? || pc.ClearEntry? || pc.CloseEntry?
  }

  predicate CanNotifyAll<T>(pc: Pc<T>) {
    pc.ClearNotify? || pc.CloseNotifyPop? || pc.CloseNotifyEmplace?
  }

  /** `pc` sleeps on the condition variable that `notifier` is about to notify. */
  predicate SleepsFor<T>(pc: Pc<T>, notifier: Pc<T>) {
    (notifier.EmplaceNotify? && pc.PopAsleep?) || (notifier.PopNotify? && pc.EmplaceAsleep?)
  }

  predicate Enabled<T>(cfg: Config, s: State<T>, step: Step<T>) {
    match step
    case Begin(call) =>
      && (cfg.oneProducer && call.Emplace? ==> EmplacesInProgress(s.calls) == 0)
      && (cfg.oneConsumer && call.Pop? ==> PopsInProgress(s.calls) == 0)
    case Enter(c) => c < |s.calls| && CanEnter(s.calls[c])
    case NotifyOne(c, wake) =>
      && c < |s.calls|
      && (s.calls[c].EmplaceNotify? || s.calls[c].PopNotify?)
      && (match wake
          case Some(w) => w < |s.calls| && SleepsFor(s.calls[w], s.calls[c])
          case None => forall i | 0 <= i < |s.calls| :: !SleepsFor(s.calls[i], s.calls[c]))
    case NotifyAll(c) => c < |s.calls| && CanNotifyAll(s.calls[c])
    case Spurious(c) => c < |s.calls| && (s.calls[c].EmplaceAsleep? || s.calls[c].PopAsleep?)
  }

  function Entered<T>(call: Call<T>): Pc<T> {
    match call
    case Emplace(x) => EmplaceEntry(x)
    case Pop => PopEntry
    case Clear => ClearEntry
    case Close => CloseEntry
  }

  function EmplaceSection<T>(cfg: Config, s: State<T>, c: nat, x: T): State<T>
    requires c < |s.calls|
  {
    if cfg.bounded && !(|s.queue| < cfg.max || s.closed) then
      s.(calls := s.calls[c := EmplaceAsleep(x)])
    else if s.closed then
      s.(calls := s.calls[c := EmplaceDone(x, false)])
    else
      s.(queue := s.queue + [x], log := s.log + [Entry(x, c)],
         calls := s.calls[c := if cfg.sc && s.queue != [] then EmplaceDone(x, true) else EmplaceNotify(x)])
  }

  function PopSection<T>(cfg: Config, s: State<T>, c: nat): State<T>
    requires c < |s.calls|
  {
    if !(s.closed || s.queue != []) then
      s.(calls := s.calls[c := PopAsleep])
    else if s.queue == [] then
      s.(calls := s.calls[c := PopDone(None)])
    else
      s.(queue := s.queue[1..], removed := s.removed + [Delivered(c)],
         calls := s.calls[c := if cfg.bounded && (!cfg.sp || |s.queue| == cfg.max)
                               then PopNotify(s.queue[0]) else PopDone(Some(s.queue[0]))])
  }

  function ClearSection<T>(cfg: Config, s: State<T>, c: nat): State<T>
    requires c < |s.calls|
  {
    s.(queue := [], removed := s.removed + seq(|s.queue|, _ => Dropped(c)),
       calls := s.calls[c := if cfg.bounded then ClearNotify else ClearDone])
  }

  function CloseSection<T>(s: State<T>, c: nat): State<T>
    requires c < |s.calls|
  {
    s.(closed := true, calls := s.calls[c := CloseNotifyPop])
  }

  function Section<T>(cfg: Config, s: State<T>, c: nat): State<T>
    requires c < |s.calls| && CanEnter(s.calls[c])
  {
    match s.calls[c]
    case EmplaceEntry(x) => EmplaceSection(cfg, s, c, x)
    case EmplaceWoken(x) => EmplaceSection(cfg, s, c, x)
    case PopEntry => PopSection(cfg, s, c)
    case PopWoken => PopSection(cfg, s, c)
    case ClearEntry => ClearSection(cfg, s, c)
    case CloseEntry => CloseSection(s, c)
  }

  function Awake<T>(pc: Pc<T>): Pc<T> {
    match pc
    case EmplaceAsleep(x) => EmplaceWoken(x)
    case PopAsleep => PopWoken
    case _ => pc
  }

  function WakeProducers<T>(calls: seq<Pc<T>>): (woken: seq<Pc<T>>)
    ensures |woken| == |calls|
    ensures forall i | 0 <= i < |calls| && !calls[i].EmplaceAsleep? :: woken[i] == calls[i]
  {
    seq(|calls|, i requires 0 <= i < |calls| => if calls[i].EmplaceAsleep? then Awake(calls[i]) else calls[i])
  }

  function WakeConsumers<T>(calls: seq<Pc<T>>): (woken: seq<Pc<T>>)
    ensures |woken| == |calls|
    ensures forall i | 0 <= i < |calls| && !calls[i].PopAsleep? :: woken[i] == calls[i]
  {
    seq(|calls|, i requires 0 <= i < |calls| => if calls[i].PopAsleep? then Awake(calls[i]) else calls[i])
  }

  /** The notifying call after its notify_one. */
  function Notified<T>(pc: Pc<T>): Pc<T>
    requires pc.EmplaceNotify? || pc.PopNotify?
  {
    if pc.EmplaceNotify? then EmplaceDone(pc.item, true) else PopDone(Some(pc.got))
  }

  function NotifyAllStep<T>(cfg: Config, s: State<T>, c: nat): State<T>
    requires c < |s.calls| && CanNotifyAll(s.calls[c])
  {
    match s.calls[c]
    case ClearNotify => s.(calls := WakeProducers(s.calls)[c := ClearDone])
    case CloseNotifyPop =>
      s.(calls := WakeConsumers(s.calls)[c := if cfg.bounded then CloseNotifyEmplace else CloseDone])
    case CloseNotifyEmplace => s.(calls := WakeProducers(s.calls)[c := CloseDone])
  }

  function Apply<T>(cfg: Config, s: State<T>, step: Step<T>): State<T>
    requires Enabled(cfg, s, step)
  {
    match step
    case Begin(call) => s.(calls := s.calls + [Entered(call)])
    case Enter(c) => Section(cfg, s, c)
    case NotifyOne(c, wake) =>
      var calls := if wake.Some? then s.calls[wake.value := Awake(s.calls[wake.value])] else s.calls;
      s.(calls := calls[c := Notified(s.calls[c])])
    case NotifyAll(c) => NotifyAllStep(cfg, s, c)
    case Spurious(c) => s.(calls := s.calls[c := Awake(s.calls[c])])
  }

  /** Runs: finite sequences of steps, each enabled where it is taken. */
  predicate Legal<T>(cfg: Config, s: State<T>, steps: seq<Step<T>>)
    decreases |steps|
  {
    steps == [] || (Enabled(cfg, s, steps[0]) && Legal(cfg, Apply(cfg, s, steps[0]), steps[1..]))
  }

  function Exec<T>(cfg: Config, s: State<T>, steps: seq<Step<T>>): State<T>
    requires Legal(cfg, s, steps)
    decreases |steps|
  {
    if steps == [] then s else Exec(cfg, Apply(cfg, s, steps[0]), steps[1..])
  }

  // ---- Laws of counting

  lemma NumUpdate<T>(calls: seq<Pc<T>>, c: nat, pc: Pc<T>)
    requires c < |calls|
    ensures Num(calls, RoleOf(calls[c])) > 0
    ensures forall k :: Num(calls[c := pc], k)
                        == Num(calls, k) - (if RoleOf(calls[c]) == k then 1 else 0) + (if RoleOf(pc) == k then 1 else 0)
  {
    CountUpdate(calls, RoleOf, c, pc);
  }

  lemma NumAppend<T>(calls: seq<Pc<T>>, pc: Pc<T>)
    ensures forall k :: Num(calls + [pc], k) == Num(calls, k) + (if RoleOf(pc) == k then 1 else 0)
  {
    CountAppend(calls, RoleOf, pc);
  }

  lemma NumPositive<T>(calls: seq<Pc<T>>, k: Role) returns (i: nat)
    requires Num(calls, k) > 0
    ensures i < |calls| && RoleOf(calls[i]) == k
  {
    i := CountPositive(calls, RoleOf, k);
  }

  lemma NumZero<T>(calls: seq<Pc<T>>, k: Role)
    requires forall c | 0 <= c < |calls| :: RoleOf(calls[c]) != k
    ensures Num(calls, k) == 0
  {
    CountZero(calls, RoleOf, k);
  }

  lemma WakeProducersCounts<T>(calls: seq<Pc<T>>)
    ensures Num(WakeProducers(calls), ProducerAsleep) == 0
    ensures Num(WakeProducers(calls), ProducerWoken) == Num(calls, ProducerWoken) + Num(calls, ProducerAsleep)
    ensures forall k :: k != ProducerAsleep && k != ProducerWoken ==> Num(WakeProducers(calls), k) == Num(calls, k)
  {
    CountMoved(calls, WakeProducers(calls), RoleOf, ProducerAsleep, ProducerWoken);
  }

  lemma WakeConsumersCounts<T>(calls: seq<Pc<T>>)
    ensures Num(WakeConsumers(calls), ConsumerAsleep) == 0
    ensures Num(WakeConsumers(calls), ConsumerWoken) == Num(calls, ConsumerWoken) + Num(calls, ConsumerAsleep)
    ensures forall k :: k != ConsumerAsleep && k != ConsumerWoken ==> Num(WakeConsumers(calls), k) == Num(calls, k)
  {
    CountMoved(calls, WakeConsumers(calls), RoleOf, ConsumerAsleep, ConsumerWoken);
  }
}
