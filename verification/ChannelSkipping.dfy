/** When may a channel skip notifications?  Exactly when each skipping side has the single client that its
    template argument promises, or when the capacity of one leaves nothing to skip.  */
module ChannelSkipping {
  import opened Options
  import opened Channels
  import opened ChannelSafety
  import opened ChannelRuns

  /** Some consumer sleeps although it could go on, and nobody is about to wake it or has been woken. */
  ghost predicate ConsumerStranded<T>(s: State<T>) {
    && (s.queue != [] || s.closed)
    && (exists c :: 0 <= c < |s.calls| && s.calls[c].PopAsleep?)
    && forall c | 0 <= c < |s.calls| ::
         !s.calls[c].PopWoken? && !s.calls[c].EmplaceNotify? && !s.calls[c].CloseNotifyPop?
  }

  ghost predicate ProducerStranded<T>(cfg: Config, s: State<T>) {
    && (|s.queue| < cfg.max || s.closed)
    && (exists c :: 0 <= c < |s.calls| && s.calls[c].EmplaceAsleep?)
    && forall c | 0 <= c < |s.calls| ::
         && !s.calls[c].EmplaceWoken? && !s.calls[c].PopNotify? && !s.calls[c].ClearNotify?
         && !s.calls[c].CloseNotifyPop? && !s.calls[c].CloseNotifyEmplace?
  }

  ghost predicate Stranded<T>(cfg: Config, s: State<T>) {
    ConsumerStranded(s) || ProducerStranded(cfg, s)
  }

  lemma WakeInvNotStranded<T>(cfg: Config, s: State<T>)
    requires cfg.bounded ==> cfg.max > 0
    requires WakeInv(cfg, s)
    ensures !Stranded(cfg, s)
  {
    hide Num;
    if ConsumerStranded(s) {
      NumZero(s.calls, ConsumerWoken);
      NumZero(s.calls, EmplaceNotifying);
      NumZero(s.calls, CloseNotifyingPop);
      var c :| 0 <= c < |s.calls| && s.calls[c].PopAsleep?;
      NumUpdate(s.calls, c, s.calls[c]);
    }
    if ProducerStranded(cfg, s) {
      NumZero(s.calls, ProducerWoken);
      NumZero(s.calls, PopNotifying);
      NumZero(s.calls, ClearNotifying);
      NumZero(s.calls, CloseNotifyingPop);
      NumZero(s.calls, CloseNotifyingEmplace);
      var c :| 0 <= c < |s.calls| && s.calls[c].EmplaceAsleep?;
      NumUpdate(s.calls, c, s.calls[c]);
    }
  }

  // ---- Two consumers under the single-consumer rule

  /** The four legs of the run: two consumers fall asleep, one item wakes the first of them, a second item goes
      unannounced, the first consumer leaves with the first item.  */
  lemma TwoConsumersAsleep<T(!new)>(cfg: Config) returns (s: State<T>)
    requires !cfg.oneConsumer
    ensures Reachable(cfg, s) && s == State([], false, [PopAsleep, PopAsleep], [], [])
  {
    InitReachable<T>(cfg);
    s := Init();
    var s1 := State([], false, [PopEntry], [], []);
    assert Apply(cfg, s, Begin(Pop)) == s1;
    StepReachable(cfg, s, Begin(Pop));
    var s2 := State([], false, [PopAsleep], [], []);
    assert Apply(cfg, s1, Enter(0)) == s2;
    StepReachable(cfg, s1, Enter(0));
    var s3 := State([], false, [PopAsleep, PopEntry], [], []);
    assert Apply(cfg, s2, Begin(Pop)) == s3;
    StepReachable(cfg, s2, Begin(Pop));
    s := State([], false, [PopAsleep, PopAsleep], [], []);
    assert Apply(cfg, s3, Enter(1)) == s;
    StepReachable(cfg, s3, Enter(1));
  }

  lemma OneWoken<T(!new)>(cfg: Config, x: T) returns (s: State<T>)
    requires cfg.sc && !cfg.oneConsumer && (cfg.bounded ==> cfg.max > 0)
    ensures Reachable(cfg, s)
    ensures s == State([x], false, [PopWoken, PopAsleep, EmplaceDone(x, true)], [Entry(x, 2)], [])
  {
    var s0: State<T> := TwoConsumersAsleep(cfg);
    NoEmplaces(s0.calls);
    hide Num;
    var s1 := State([], false, [PopAsleep, PopAsleep, EmplaceEntry(x)], [], []);
    assert Apply(cfg, s0, Begin(Emplace(x))) == s1;
    StepReachable(cfg, s0, Begin(Emplace(x)));
    var s2 := State([x], false, [PopAsleep, PopAsleep, EmplaceNotify(x)], [Entry(x, 2)], []);
    assert Apply(cfg, s1, Enter(2)) == s2;
    StepReachable(cfg, s1, Enter(2));
    s := State([x], false, [PopWoken, PopAsleep, EmplaceDone(x, true)], [Entry(x, 2)], []);
    assert Apply(cfg, s2, NotifyOne(2, Some(0))) == s;
    StepReachable(cfg, s2, NotifyOne(2, Some(0)));
  }

  lemma SecondConsumerStranded<T(!new)>(cfg: Config, x: T) returns (s: State<T>)
    requires cfg.sc && !cfg.oneConsumer && (cfg.bounded ==> cfg.max > 1)
    ensures Reachable(cfg, s) && ConsumerStranded(s)
  {
    var s0: State<T> := OneWoken(cfg, x);
    NoEmplaces(s0.calls);
    hide Num;
    var s1 := s0.(calls := s0.calls + [EmplaceEntry(x)]);
    assert Apply(cfg, s0, Begin(Emplace(x))) == s1;
    StepReachable(cfg, s0, Begin(Emplace(x)));
    var s2 := s0.(queue := [x, x], log := s0.log + [Entry(x, 3)], calls := s0.calls + [EmplaceDone(x, true)]);
    assert Apply(cfg, s1, Enter(3)) == s2;
    StepReachable(cfg, s1, Enter(3));
    s := FirstConsumerLeaves(cfg, s2);
  }

  /** The last leg: the woken consumer takes its item, and nobody wakes the other. */
  lemma FirstConsumerLeaves<T(!new)>(cfg: Config, s: State<T>) returns (t: State<T>)
    requires Reachable(cfg, s) && |s.queue| == 2 && |s.calls| == 4 && s.calls[0] == PopWoken && s.calls[1] == PopAsleep
    requires s.calls[2].EmplaceDone? && s.calls[3].EmplaceDone?
    ensures Reachable(cfg, t) && ConsumerStranded(t)
  {
    StepReachable(cfg, s, Enter(0));
    t := PopSection(cfg, s, 0);
    assert t.queue == s.queue[1..];
    assert t.calls[1].PopAsleep?;
  }

  // ---- Two producers under the single-producer rule

  ghost predicate AllFinished<T>(calls: seq<Pc<T>>) {
    forall c | 0 <= c < |calls| :: RoleOf(calls[c]) == Finished
  }

  lemma NoEmplaces<T>(calls: seq<Pc<T>>)
    requires forall c | 0 <= c < |calls| :: RoleOf(calls[c]) in {Finished, ConsumerAsleep, ConsumerWoken}
    ensures EmplacesInProgress(calls) == 0
  {
    NumZero(calls, AtEmplace);
    NumZero(calls, ProducerAsleep);
    NumZero(calls, ProducerWoken);
    NumZero(calls, EmplaceNotifying);
  }

  /** One accepted item in a state where no call is in progress, up to the end of the critical section. */
  lemma AcceptAlone<T(!new)>(cfg: Config, s: State<T>, x: T) returns (t: State<T>)
    requires Reachable(cfg, s) && AllFinished(s.calls) && !s.closed
    requires cfg.bounded ==> |s.queue| < cfg.max
    ensures Reachable(cfg, t) && !t.closed && |t.queue| == |s.queue| + 1
    ensures t.calls == s.calls + [EmplaceNotify(x)] || t.calls == s.calls + [EmplaceDone(x, true)]
  {
    NoEmplaces(s.calls);
    hide AllFinished, Num;
    var c := |s.calls|;
    var s1 := s.(calls := s.calls + [EmplaceEntry(x)]);
    StepReachable(cfg, s, Begin(Emplace(x)));
    StepReachable(cfg, s1, Enter(c));
    t := EmplaceSection(cfg, s1, c, x);
    assert t.calls == s.calls + [t.calls[c]];
  }

  /** The same with its notify, which finds nobody. */
  lemma EmplaceAlone<T(!new)>(cfg: Config, s: State<T>, x: T) returns (t: State<T>)
    requires Reachable(cfg, s) && AllFinished(s.calls) && !s.closed
    requires cfg.bounded ==> |s.queue| < cfg.max
    ensures Reachable(cfg, t) && AllFinished(t.calls) && !t.closed && |t.queue| == |s.queue| + 1
  {
    t := AcceptAlone(cfg, s, x);
    var c := |s.calls|;
    if t.calls[c].EmplaceNotify? {
      StepReachable(cfg, t, NotifyOne(c, None));
      t := t.(calls := t.calls[c := EmplaceDone(x, true)]);
    }
  }

  lemma {:induction false} FillTo<T(!new)>(cfg: Config, k: nat, x: T) returns (s: State<T>)
    requires cfg.bounded && k <= cfg.max
    ensures Reachable(cfg, s) && AllFinished(s.calls) && !s.closed && |s.queue| == k
  {
    if k == 0 {
      InitReachable<T>(cfg);
      s := Init();
    } else {
      s := FillTo(cfg, k - 1, x);
      s := EmplaceAlone(cfg, s, x);
    }
  }

  lemma ProducerFallsAsleep<T(!new)>(cfg: Config, s: State<T>, x: T) returns (t: State<T>)
    requires cfg.bounded && !cfg.oneProducer
    requires Reachable(cfg, s) && !s.closed && |s.queue| == cfg.max
    ensures Reachable(cfg, t) && t == s.(calls := s.calls + [EmplaceAsleep(x)])
  {
    StepReachable(cfg, s, Begin(Emplace(x)));
    var s1 := s.(calls := s.calls + [EmplaceEntry(x)]);
    StepReachable(cfg, s1, Enter(|s.calls|));
    t := Apply(cfg, s1, Enter(|s.calls|));
    assert t.calls == s.calls + [EmplaceAsleep(x)];
  }

  /** A `pop` by the only consumer up to the end of its critical section. */
  lemma TakeOne<T(!new)>(cfg: Config, s: State<T>) returns (t: State<T>)
    requires Reachable(cfg, s) && s.queue != [] && PopsInProgress(s.calls) == 0
    ensures Reachable(cfg, t)
    ensures t == PopSection(cfg, s.(calls := s.calls + [PopEntry]), |s.calls|)
  {
    StepReachable(cfg, s, Begin(Pop));
    var s1 := s.(calls := s.calls + [PopEntry]);
    StepReachable(cfg, s1, Enter(|s.calls|));
    t := Apply(cfg, s1, Enter(|s.calls|));
  }

  lemma NoPops<T>(calls: seq<Pc<T>>)
    requires forall c | 0 <= c < |calls| :: RoleOf(calls[c]) in {Finished, ProducerAsleep, ProducerWoken}
    ensures PopsInProgress(calls) == 0
  {
    NumZero(calls, AtPop);
    NumZero(calls, ConsumerAsleep);
    NumZero(calls, ConsumerWoken);
    NumZero(calls, PopNotifying);
  }

  /** Two producers asleep on a full channel; the first of them has been woken by a `pop` that found it full. */
  lemma OneProducerWoken<T(!new)>(cfg: Config, x: T) returns (s: State<T>, n: nat)
    requires cfg.sp && cfg.bounded && cfg.max > 0 && !cfg.oneProducer
    ensures Reachable(cfg, s) && !s.closed && |s.queue| == cfg.max - 1
    ensures |s.calls| == n + 3 && AllFinished(s.calls[..n]) && s.calls[n] == EmplaceWoken(x)
    ensures s.calls[n + 1] == EmplaceAsleep(x) && s.calls[n + 2].PopDone?
  {
    var full: State<T> := FillTo(cfg, cfg.max, x);
    n := |full.calls|;
    s := ProducerFallsAsleep(cfg, full, x);
    s := ProducerFallsAsleep(cfg, s, x);
    NoPops(s.calls);
    s := TakeOne(cfg, s);
    assert s.calls[n + 2].PopNotify?;
    StepReachable(cfg, s, NotifyOne(n + 2, Some(n)));
    s := Apply(cfg, s, NotifyOne(n + 2, Some(n)));
    assert s.calls[..n] == full.calls;
  }

  /** A second `pop` finds the channel no longer full and tells nobody. */
  lemma SecondTakeIsSilent<T(!new)>(cfg: Config, x: T) returns (s: State<T>, n: nat)
    requires cfg.sp && cfg.bounded && cfg.max > 1 && !cfg.oneProducer
    ensures Reachable(cfg, s) && !s.closed && |s.queue| == cfg.max - 2
    ensures |s.calls| == n + 4 && AllFinished(s.calls[..n]) && s.calls[n] == EmplaceWoken(x)
    ensures s.calls[n + 1] == EmplaceAsleep(x) && s.calls[n + 2].PopDone? && s.calls[n + 3].PopDone?
  {
    var s0: State<T>;
    s0, n := OneProducerWoken(cfg, x);
    assert forall c | 0 <= c < n :: s0.calls[c] == s0.calls[..n][c];
    NoPops(s0.calls);
    s := TakeOne(cfg, s0);
    assert s.calls[..n] == s0.calls[..n];
  }

  lemma SecondProducerStranded<T(!new)>(cfg: Config, x: T) returns (s: State<T>)
    requires cfg.sp && cfg.bounded && cfg.max > 1 && !cfg.oneProducer
    ensures Reachable(cfg, s) && ProducerStranded(cfg, s)
  {
    var s1: State<T>, n := SecondTakeIsSilent(cfg, x);
    StepReachable(cfg, s1, Enter(n));
    s := EmplaceSection(cfg, s1, n, x);
    assert s.calls[n + 1].EmplaceAsleep?;
    assert forall c | 0 <= c < n :: s.calls[c] == s1.calls[..n][c];
  }

  // ---- The exact condition

  ghost predicate NeverStrands(cfg: Config) {
    forall s: State<int> :: Reachable(cfg, s) ==> !Stranded(cfg, s)
  }

  /** For every configuration the constructor admits: no run ever strands a sleeper if and only if every side
      that skips notifications has a single client or nothing to skip.  */
  lemma SkippingIsSafeExactlyWhen(cfg: Config)
    requires cfg.bounded ==> cfg.max > 0
    ensures NeverStrands(cfg) <==> SafeConfig(cfg)
  {
    if SafeConfig(cfg) {
      forall s: State<int> | Reachable(cfg, s) ensures !Stranded(cfg, s) {
        ReachableIsSafe(cfg, s);
        WakeInvNotStranded(cfg, s);
      }
    } else if !EveryPushNotifies(cfg) && !cfg.oneConsumer {
      var s := SecondConsumerStranded(cfg, 0);
      assert Reachable(cfg, s) && Stranded(cfg, s);
    } else {
      var s := SecondProducerStranded(cfg, 0);
      assert Reachable(cfg, s) && Stranded(cfg, s);
    }
  }
}
