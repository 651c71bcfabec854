/** What every step of a channel keeps: no wakeup is lost, and the history is that of a FIFO queue. */
module ChannelSafety {
  import opened Options
  import opened Channels

  // ---- Usage

  /** The clients keep their promise. */
  predicate SingleUse<T>(cfg: Config, calls: seq<Pc<T>>) {
    && (cfg.oneProducer ==> EmplacesInProgress(calls) <= 1)
    && (cfg.oneConsumer ==> PopsInProgress(calls) <= 1)
  }

  /** Every accepted item, respectively every removed item, is followed by a notify. */
  predicate EveryPushNotifies(cfg: Config) {
    !cfg.sc || (cfg.bounded && cfg.max == 1)
  }

  predicate EveryTakeNotifies(cfg: Config) {
    !cfg.sp || !cfg.bounded || cfg.max == 1
  }

  /** Notifications are skipped only under the promise that justifies skipping them. */
  predicate SafeConfig(cfg: Config) {
    && (cfg.bounded ==> cfg.max > 0)
    && (EveryPushNotifies(cfg) || cfg.oneConsumer)
    && (EveryTakeNotifies(cfg) || cfg.oneProducer)
  }

  // ---- Wakeups

  /** If a consumer sleeps, then a notify_all is on its way, or the channel is open and every queued item is
      matched by a pending notify or a consumer already woken (with skipped notifies: an item implies one).  */
  predicate ConsumersServed<T>(cfg: Config, s: State<T>) {
    Num(s.calls, ConsumerAsleep) > 0 ==>
      || Num(s.calls, CloseNotifyingPop) > 0
      || (&& !s.closed
          && (if EveryPushNotifies(cfg)
              then |s.queue| <= Num(s.calls, EmplaceNotifying) + Num(s.calls, ConsumerWoken)
              else s.queue == [] || Num(s.calls, EmplaceNotifying) > 0))
  }

  predicate NotifyAllForProducers<T>(s: State<T>) {
    Num(s.calls, ClearNotifying) + Num(s.calls, CloseNotifyingPop) + Num(s.calls, CloseNotifyingEmplace) > 0
  }

  /** The same for producers and free slots. */
  predicate ProducersServed<T>(cfg: Config, s: State<T>) {
    Num(s.calls, ProducerAsleep) > 0 ==>
      && cfg.bounded
      && (|| NotifyAllForProducers(s)
          || (&& !s.closed
              && (if EveryTakeNotifies(cfg)
                  then cfg.max - |s.queue| <= Num(s.calls, PopNotifying) + Num(s.calls, ProducerWoken)
                  else |s.queue| == cfg.max || Num(s.calls, PopNotifying) > 0)))
  }

  /** The queue never outgrows its bound. */
  predicate WithinBound<T>(cfg: Config, s: State<T>) {
    cfg.bounded ==> |s.queue| <= cfg.max
  }

  predicate WakeInv<T>(cfg: Config, s: State<T>) {
    && WithinBound(cfg, s)
    && SingleUse(cfg, s.calls)
    && ConsumersServed(cfg, s)
    && ProducersServed(cfg, s)
  }

  /** This much holds in every configuration, whoever skips notifications. */
  lemma StepKeepsBound<T>(cfg: Config, s: State<T>, step: Step<T>)
    requires WithinBound(cfg, s) && Enabled(cfg, s, step)
    ensures WithinBound(cfg, Apply(cfg, s, step))
  {}

  lemma EmplaceKeepsUse<T>(cfg: Config, s: State<T>, c: nat, x: T)
    requires SafeConfig(cfg) && WakeInv(cfg, s)
    requires c < |s.calls| && (s.calls[c] == EmplaceEntry(x) || s.calls[c] == EmplaceWoken(x))
    ensures SingleUse(cfg, EmplaceSection(cfg, s, c, x).calls)
  {
    hide Num, ConsumersServed, ProducersServed;
    NumUpdate(s.calls, c, EmplaceSection(cfg, s, c, x).calls[c]);
  }

  lemma EmplaceKeepsConsumers<T>(cfg: Config, s: State<T>, c: nat, x: T)
    requires SafeConfig(cfg) && WakeInv(cfg, s)
    requires c < |s.calls| && (s.calls[c] == EmplaceEntry(x) || s.calls[c] == EmplaceWoken(x))
    ensures ConsumersServed(cfg, EmplaceSection(cfg, s, c, x))
  {
    hide Num, ProducersServed, SingleUse;
    NumUpdate(s.calls, c, EmplaceSection(cfg, s, c, x).calls[c]);
  }

  lemma EmplaceKeepsProducers<T>(cfg: Config, s: State<T>, c: nat, x: T)
    requires SafeConfig(cfg) && WakeInv(cfg, s)
    requires c < |s.calls| && (s.calls[c] == EmplaceEntry(x) || s.calls[c] == EmplaceWoken(x))
    ensures ProducersServed(cfg, EmplaceSection(cfg, s, c, x))
  {
    hide Num, ConsumersServed;
    NumUpdate(s.calls, c, EmplaceSection(cfg, s, c, x).calls[c]);
  }

  lemma EmplaceKeepsWakeInv<T>(cfg: Config, s: State<T>, c: nat, x: T)
    requires SafeConfig(cfg) && WakeInv(cfg, s)
    requires c < |s.calls| && (s.calls[c] == EmplaceEntry(x) || s.calls[c] == EmplaceWoken(x))
    ensures WakeInv(cfg, EmplaceSection(cfg, s, c, x))
  {
    hide Num, SingleUse, ConsumersServed, ProducersServed;
    EmplaceKeepsUse(cfg, s, c, x);
    EmplaceKeepsConsumers(cfg, s, c, x);
    EmplaceKeepsProducers(cfg, s, c, x);
  }

  lemma PopKeepsUse<T>(cfg: Config, s: State<T>, c: nat)
    requires SafeConfig(cfg) && WakeInv(cfg, s)
    requires c < |s.calls| && (s.calls[c] == PopEntry || s.calls[c] == PopWoken)
    ensures SingleUse(cfg, PopSection(cfg, s, c).calls)
  {
    hide Num, ConsumersServed, ProducersServed;
    NumUpdate(s.calls, c, PopSection(cfg, s, c).calls[c]);
  }

  lemma PopKeepsConsumers<T>(cfg: Config, s: State<T>, c: nat)
    requires SafeConfig(cfg) && WakeInv(cfg, s)
    requires c < |s.calls| && (s.calls[c] == PopEntry || s.calls[c] == PopWoken)
    ensures ConsumersServed(cfg, PopSection(cfg, s, c))
  {
    hide Num, ProducersServed;
    NumUpdate(s.calls, c, PopSection(cfg, s, c).calls[c]);
  }

  lemma PopKeepsProducers<T>(cfg: Config, s: State<T>, c: nat)
    requires SafeConfig(cfg) && WakeInv(cfg, s)
    requires c < |s.calls| && (s.calls[c] == PopEntry || s.calls[c] == PopWoken)
    ensures ProducersServed(cfg, PopSection(cfg, s, c))
  {
    hide Num, ConsumersServed, SingleUse;
    var t := PopSection(cfg, s, c);
    NumUpdate(s.calls, c, t.calls[c]);
    assert Num(t.calls, ProducerAsleep) == Num(s.calls, ProducerAsleep);
    assert Num(t.calls, ProducerWoken) == Num(s.calls, ProducerWoken);
    assert Num(t.calls, PopNotifying) == Num(s.calls, PopNotifying) + (if t.calls[c].PopNotify? then 1 else 0);
    assert NotifyAllForProducers(t) == NotifyAllForProducers(s);
  }

  lemma PopKeepsWakeInv<T>(cfg: Config, s: State<T>, c: nat)
    requires SafeConfig(cfg) && WakeInv(cfg, s)
    requires c < |s.calls| && (s.calls[c] == PopEntry || s.calls[c] == PopWoken)
    ensures WakeInv(cfg, PopSection(cfg, s, c))
  {
    hide Num, SingleUse, ConsumersServed, ProducersServed;
    PopKeepsUse(cfg, s, c);
    PopKeepsConsumers(cfg, s, c);
    PopKeepsProducers(cfg, s, c);
  }

  /** A notify_one on cond_pop_ wakes one consumer, or finds none asleep. */
  lemma WakeConsumerKeepsWakeInv<T>(cfg: Config, s: State<T>, c: nat, w: nat, x: T)
    requires SafeConfig(cfg) && WakeInv(cfg, s)
    requires c < |s.calls| && s.calls[c] == EmplaceNotify(x)
    requires w < |s.calls| && s.calls[w] == PopAsleep
    ensures WakeInv(cfg, s.(calls := s.calls[w := PopWoken][c := EmplaceDone(x, true)]))
  {
    hide Num;
    NumUpdate(s.calls, w, PopWoken);
    NumUpdate(s.calls[w := PopWoken], c, EmplaceDone(x, true));
  }

  lemma WakeProducerKeepsWakeInv<T>(cfg: Config, s: State<T>, c: nat, w: nat, x: T, y: T)
    requires SafeConfig(cfg) && WakeInv(cfg, s)
    requires c < |s.calls| && s.calls[c] == PopNotify(x)
    requires w < |s.calls| && s.calls[w] == EmplaceAsleep(y)
    ensures WakeInv(cfg, s.(calls := s.calls[w := EmplaceWoken(y)][c := PopDone(Some(x))]))
  {
    hide Num;
    NumUpdate(s.calls, w, EmplaceWoken(y));
    NumUpdate(s.calls[w := EmplaceWoken(y)], c, PopDone(Some(x)));
  }

  lemma WakeNobodyKeepsWakeInv<T>(cfg: Config, s: State<T>, c: nat)
    requires SafeConfig(cfg) && WakeInv(cfg, s)
    requires Enabled(cfg, s, NotifyOne(c, None))
    ensures WakeInv(cfg, s.(calls := s.calls[c := Notified(s.calls[c])]))
  {
    hide Num;
    NumUpdate(s.calls, c, Notified(s.calls[c]));
    if s.calls[c].EmplaceNotify? && Num(s.calls, ConsumerAsleep) > 0 {
      var i := NumPositive(s.calls, ConsumerAsleep);
      assert false;
    }
    if s.calls[c].PopNotify? && Num(s.calls, ProducerAsleep) > 0 {
      var i := NumPositive(s.calls, ProducerAsleep);
      assert false;
    }
  }

  lemma NotifyOneKeepsWakeInv<T>(cfg: Config, s: State<T>, c: nat, wake: Option<nat>)
    requires SafeConfig(cfg) && WakeInv(cfg, s)
    requires Enabled(cfg, s, NotifyOne(c, wake))
    ensures WakeInv(cfg, Apply(cfg, s, NotifyOne(c, wake)))
  {
    hide WakeInv;
    if wake == None {
      WakeNobodyKeepsWakeInv(cfg, s, c);
    } else if s.calls[c].EmplaceNotify? {
      WakeConsumerKeepsWakeInv(cfg, s, c, wake.value, s.calls[c].item);
    } else {
      WakeProducerKeepsWakeInv(cfg, s, c, wake.value, s.calls[c].got, s.calls[wake.value].item);
    }
  }

  lemma NotifyAllConsumersKeepsWakeInv<T>(cfg: Config, s: State<T>, c: nat)
    requires SafeConfig(cfg) && WakeInv(cfg, s)
    requires c < |s.calls| && s.calls[c].CloseNotifyPop?
    ensures WakeInv(cfg, NotifyAllStep(cfg, s, c))
  {
    hide Num, WakeConsumers;
    WakeConsumersCounts(s.calls);
    NumUpdate(WakeConsumers(s.calls), c, NotifyAllStep(cfg, s, c).calls[c]);
  }

  lemma ClearWakesProducers<T>(cfg: Config, s: State<T>, c: nat)
    requires SafeConfig(cfg) && WakeInv(cfg, s) && c < |s.calls| && s.calls[c].ClearNotify?
    ensures WakeInv(cfg, s.(calls := WakeProducers(s.calls)[c := ClearDone]))
  {
    hide Num, WakeProducers;
    WakeProducersCounts(s.calls);
    NumUpdate(WakeProducers(s.calls), c, ClearDone);
  }

  lemma CloseWakesProducers<T>(cfg: Config, s: State<T>, c: nat)
    requires SafeConfig(cfg) && WakeInv(cfg, s) && c < |s.calls| && s.calls[c].CloseNotifyEmplace?
    ensures WakeInv(cfg, s.(calls := WakeProducers(s.calls)[c := CloseDone]))
  {
    hide Num, WakeProducers;
    WakeProducersCounts(s.calls);
    NumUpdate(WakeProducers(s.calls), c, CloseDone);
  }

  lemma NotifyAllProducersKeepsWakeInv<T>(cfg: Config, s: State<T>, c: nat)
    requires SafeConfig(cfg) && WakeInv(cfg, s)
    requires c < |s.calls| && (s.calls[c].ClearNotify? || s.calls[c].CloseNotifyEmplace?)
    ensures WakeInv(cfg, NotifyAllStep(cfg, s, c))
  {
    hide WakeInv, WakeProducers;
    if s.calls[c].ClearNotify? {
      ClearWakesProducers(cfg, s, c);
    } else {
      CloseWakesProducers(cfg, s, c);
    }
  }

  lemma ClearKeepsWakeInv<T>(cfg: Config, s: State<T>, c: nat)
    requires SafeConfig(cfg) && WakeInv(cfg, s)
    requires c < |s.calls| && s.calls[c] == ClearEntry
    ensures WakeInv(cfg, ClearSection(cfg, s, c))
  {
    hide Num;
    NumUpdate(s.calls, c, ClearSection(cfg, s, c).calls[c]);
  }

  lemma CloseKeepsWakeInv<T>(cfg: Config, s: State<T>, c: nat)
    requires SafeConfig(cfg) && WakeInv(cfg, s)
    requires c < |s.calls| && s.calls[c] == CloseEntry
    ensures WakeInv(cfg, CloseSection(s, c))
  {
    hide Num;
    var t := CloseSection(s, c);
    NumUpdate(s.calls, c, t.calls[c]);
    NumUpdate(t.calls, c, t.calls[c]);
    assert NotifyAllForProducers(t);
  }

  lemma BeginKeepsWakeInv<T>(cfg: Config, s: State<T>, call: Call<T>)
    requires SafeConfig(cfg) && WakeInv(cfg, s) && Enabled(cfg, s, Begin(call))
    ensures WakeInv(cfg, s.(calls := s.calls + [Entered(call)]))
  {
    hide Num;
    NumAppend(s.calls, Entered(call));
  }

  lemma SpuriousProducerKeepsWakeInv<T>(cfg: Config, s: State<T>, c: nat, x: T)
    requires SafeConfig(cfg) && WakeInv(cfg, s) && c < |s.calls| && s.calls[c] == EmplaceAsleep(x)
    ensures WakeInv(cfg, s.(calls := s.calls[c := EmplaceWoken(x)]))
  {
    hide Num;
    NumUpdate(s.calls, c, EmplaceWoken(x));
  }

  lemma SpuriousConsumerKeepsWakeInv<T>(cfg: Config, s: State<T>, c: nat)
    requires SafeConfig(cfg) && WakeInv(cfg, s) && c < |s.calls| && s.calls[c] == PopAsleep
    ensures WakeInv(cfg, s.(calls := s.calls[c := PopWoken]))
  {
    hide Num;
    NumUpdate(s.calls, c, PopWoken);
  }

  lemma SpuriousKeepsWakeInv<T>(cfg: Config, s: State<T>, c: nat)
    requires SafeConfig(cfg) && WakeInv(cfg, s) && Enabled(cfg, s, Spurious(c))
    ensures WakeInv(cfg, s.(calls := s.calls[c := Awake(s.calls[c])]))
  {
    hide WakeInv;
    if s.calls[c].PopAsleep? {
      SpuriousConsumerKeepsWakeInv(cfg, s, c);
    } else {
      SpuriousProducerKeepsWakeInv(cfg, s, c, s.calls[c].item);
    }
  }

  /** No wakeup is ever lost: every step, spurious wakeups included, keeps the invariant. */
  lemma StepKeepsWakeInv<T>(cfg: Config, s: State<T>, step: Step<T>)
    requires SafeConfig(cfg) && WakeInv(cfg, s) && Enabled(cfg, s, step)
    ensures WakeInv(cfg, Apply(cfg, s, step))
  {
    hide WakeInv, EmplaceSection, PopSection, ClearSection, CloseSection, NotifyAllStep;
    match step
    case Begin(call) => BeginKeepsWakeInv(cfg, s, call);
    case Spurious(c) => SpuriousKeepsWakeInv(cfg, s, c);
    case NotifyOne(c, wake) =>
      NotifyOneKeepsWakeInv(cfg, s, c, wake);
    case NotifyAll(c) =>
      if s.calls[c].CloseNotifyPop? {
        NotifyAllConsumersKeepsWakeInv(cfg, s, c);
      } else {
        NotifyAllProducersKeepsWakeInv(cfg, s, c);
      }
    case Enter(c) =>
      match s.calls[c] {
        case EmplaceEntry(x) => EmplaceKeepsWakeInv(cfg, s, c, x);
        case EmplaceWoken(x) => EmplaceKeepsWakeInv(cfg, s, c, x);
        case PopEntry => PopKeepsWakeInv(cfg, s, c);
        case PopWoken => PopKeepsWakeInv(cfg, s, c);
        case ClearEntry => ClearKeepsWakeInv(cfg, s, c);
        case CloseEntry => CloseKeepsWakeInv(cfg, s, c);
      }
  }
}
