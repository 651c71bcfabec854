/** A call stays the call it was begun as, and its outcome is an answer to it. */
module ChannelCalls {
  import opened Options
  import opened Channels
  import opened ChannelFifo
  import opened ChannelRuns

  /** The call that a program counter belongs to. */
  function CallOf<T>(pc: Pc<T>): Call<T> {
    match pc
    case EmplaceEntry(x) => Emplace(x)
    case EmplaceAsleep(x) => Emplace(x)
    case EmplaceWoken(x) => Emplace(x)
    case EmplaceNotify(x) => Emplace(x)
    case EmplaceDone(x, _) => Emplace(x)
    case PopEntry => Pop
    case PopAsleep => Pop
    case PopWoken => Pop
    case PopNotify(_) => Pop
    case PopDone(_) => Pop
    case ClearEntry => Clear
    case ClearNotify => Clear
    case ClearDone => Clear
    case _ => Close
  }

  /** `outcome` is one that the call may have. */
  ghost predicate Answers<T>(call: Call<T>, outcome: Outcome<T>) {
    match outcome
    case Accepted(x) => call == Emplace(x)
    case Refused => call.Emplace?
    case Took(_) => call == Call<T>.Pop
    case Failed => call == Call<T>.Pop
    case Cleared => call == Call<T>.Clear
    case Closed => call == Call<T>.Close
    case Nothing => false
  }

  lemma OutcomeAnswers<T>(pc: Pc<T>)
    ensures OutcomeOf(pc).Nothing? || Answers(CallOf(pc), OutcomeOf(pc))
  {}

  // ---- What a critical section decides

  /** `emplace` sleeps exactly in front of a full and open channel, is refused exactly by a closed one, and otherwise
      succeeds; it then notifies, except in the single-consumer form when the queue was not empty.  */
  lemma EmplaceDecides<T>(cfg: Config, s: State<T>, c: nat)
    requires c < |s.calls| && (s.calls[c].EmplaceEntry? || s.calls[c].EmplaceWoken?)
    ensures var pc := Apply(cfg, s, Enter(c)).calls[c];
            && (pc.EmplaceAsleep? <==> cfg.bounded && |s.queue| >= cfg.max && !s.closed)
            && (OutcomeOf(pc).Refused? <==> s.closed)
            && (OutcomeOf(pc).Accepted? <==> !s.closed && (cfg.bounded ==> |s.queue| < cfg.max))
            && (pc.EmplaceNotify? <==> OutcomeOf(pc).Accepted? && (cfg.sc ==> s.queue == []))
  {}

  /** `pop` sleeps exactly in front of an empty and open channel, fails exactly when it is empty and closed, and
      otherwise takes the front; in a bounded channel it then notifies, except in the single-producer form when the
      queue was not full.  */
  lemma PopDecides<T>(cfg: Config, s: State<T>, c: nat)
    requires c < |s.calls| && (s.calls[c].PopEntry? || s.calls[c].PopWoken?)
    ensures var pc := Apply(cfg, s, Enter(c)).calls[c];
            && (pc.PopAsleep? <==> s.queue == [] && !s.closed)
            && (OutcomeOf(pc).Failed? <==> s.queue == [] && s.closed)
            && (s.queue != [] ==> OutcomeOf(pc) == Took(s.queue[0]))
            && (pc.PopNotify? <==> s.queue != [] && cfg.bounded && (cfg.sp ==> |s.queue| == cfg.max))
  {}

  /** No call of an unbounded channel ever waits on cond_emplace_ or is about to notify it: there is no such
      variable.  */
  ghost predicate ProducersUnheard<T>(cfg: Config, s: State<T>) {
    !cfg.bounded ==> forall c | 0 <= c < |s.calls| ::
      RoleOf(s.calls[c]) !in {ProducerAsleep, ProducerWoken, PopNotifying, ClearNotifying, CloseNotifyingEmplace}
  }

  lemma SectionKeepsUnheard<T>(cfg: Config, s: State<T>, c: nat)
    requires ProducersUnheard(cfg, s) && Enabled(cfg, s, Enter(c))
    ensures ProducersUnheard(cfg, Section(cfg, s, c))
  {}

  lemma NotifyAllKeepsUnheard<T>(cfg: Config, s: State<T>, c: nat)
    requires ProducersUnheard(cfg, s) && Enabled(cfg, s, NotifyAll(c))
    ensures ProducersUnheard(cfg, NotifyAllStep(cfg, s, c))
  {}

  lemma StepKeepsUnheard<T>(cfg: Config, s: State<T>, step: Step<T>)
    requires ProducersUnheard(cfg, s) && Enabled(cfg, s, step)
    ensures ProducersUnheard(cfg, Apply(cfg, s, step))
  {
    hide Section, NotifyAllStep;
    match step
    case Enter(c) => SectionKeepsUnheard(cfg, s, c);
    case NotifyAll(c) => NotifyAllKeepsUnheard(cfg, s, c);
    case _ =>
  }

  lemma {:induction false} RunKeepsUnheard<T>(cfg: Config, s: State<T>, steps: seq<Step<T>>)
    requires ProducersUnheard(cfg, s) && Legal(cfg, s, steps)
    ensures ProducersUnheard(cfg, Exec(cfg, s, steps))
    decreases |steps|
  {
    hide Enabled, Apply, ProducersUnheard;
    if steps == [] {
    } else {
      StepKeepsUnheard(cfg, s, steps[0]);
      RunKeepsUnheard(cfg, Apply(cfg, s, steps[0]), steps[1..]);
    }
  }

  // ---- Steps

  /** What a channel step leaves alone. */
  ghost predicate CallsKept<T>(s: State<T>, t: State<T>, mover: Option<nat>) {
    && |t.calls| == |s.calls|
    && forall c | 0 <= c < |s.calls| ::
         && CallOf(t.calls[c]) == CallOf(s.calls[c])
         && (RoleOf(s.calls[c]) == Finished ==> t.calls[c] == s.calls[c])
         && (mover != Some(c) ==> OutcomeOf(t.calls[c]) == OutcomeOf(s.calls[c])
                                  && (t.calls[c].CloseEntry? <==> s.calls[c].CloseEntry?))
  }

  lemma StepKeepsCalls<T>(cfg: Config, s: State<T>, step: Step<T>)
    requires Enabled(cfg, s, step) && !step.Begin?
    ensures CallsKept(s, Apply(cfg, s, step), if step.Enter? then Some(step.c) else None)
    ensures !step.Enter? ==> var t := Apply(cfg, s, step);
            t.log == s.log && t.removed == s.removed && t.closed == s.closed && t.queue == s.queue
  {
    hide Section;
    if step.Enter? {
      hide CallsKept;
      SectionKeepsCalls(cfg, s, step.c);
    } else if step.NotifyAll? {
      hide CallsKept;
      NotifyAllKeepsCalls(cfg, s, step.c);
    }
  }

  lemma NotifyAllKeepsCalls<T>(cfg: Config, s: State<T>, c: nat)
    requires Enabled(cfg, s, NotifyAll(c))
    ensures CallsKept(s, NotifyAllStep(cfg, s, c), None)
  {
    var t := NotifyAllStep(cfg, s, c);
    assert forall d | 0 <= d < |s.calls| && d != c ::
             t.calls[d] == s.calls[d] || (Blocked(s.calls[d]) && t.calls[d] == Awake(s.calls[d]));
    assert CallOf(t.calls[c]) == CallOf(s.calls[c]) && OutcomeOf(t.calls[c]) == OutcomeOf(s.calls[c]);
    hide NotifyAllStep, Awake, CallOf, OutcomeOf, RoleOf, Blocked;
    forall d | 0 <= d < |s.calls| && Blocked(s.calls[d])
      ensures CallOf(Awake(s.calls[d])) == CallOf(s.calls[d]) && OutcomeOf(Awake(s.calls[d])) == OutcomeOf(s.calls[d])
      ensures RoleOf(s.calls[d]) != Finished && !Awake(s.calls[d]).CloseEntry? && !s.calls[d].CloseEntry?
    {
      AwakeKeepsCall(s.calls[d]);
    }
  }

  lemma AwakeKeepsCall<T>(pc: Pc<T>)
    requires Blocked(pc)
    ensures CallOf(Awake(pc)) == CallOf(pc) && OutcomeOf(Awake(pc)) == OutcomeOf(pc)
    ensures RoleOf(pc) != Finished && !Awake(pc).CloseEntry? && !pc.CloseEntry?
  {}

  lemma SectionKeepsCalls<T>(cfg: Config, s: State<T>, c: nat)
    requires Enabled(cfg, s, Enter(c))
    ensures CallsKept(s, Section(cfg, s, c), Some(c))
  {}

  // ---- Runs

  function Begun<T>(step: Step<T>): seq<Call<T>> {
    if step.Begin? then [step.call] else []
  }

  /** The calls begun by a run, in the order of their indices. */
  function Requests<T>(steps: seq<Step<T>>): seq<Call<T>> {
    if steps == [] then [] else Begun(steps[0]) + Requests(steps[1..])
  }

  /** The calls of t are those of s followed by the requested ones. */
  ghost predicate Serves<T>(s: State<T>, requests: seq<Call<T>>, t: State<T>) {
    && |t.calls| == |s.calls| + |requests|
    && (forall c | 0 <= c < |s.calls| :: CallOf(t.calls[c]) == CallOf(s.calls[c]))
    && (forall c | |s.calls| <= c < |t.calls| :: CallOf(t.calls[c]) == requests[c - |s.calls|])
  }

  lemma StepServes<T>(cfg: Config, s: State<T>, step: Step<T>)
    requires Enabled(cfg, s, step)
    ensures Serves(s, Begun(step), Apply(cfg, s, step))
  {
    hide Section, NotifyAllStep, CallOf;
    if step.Begin? {
      EnteredCall(step.call);
    } else {
      hide Apply;
      StepKeepsCalls(cfg, s, step);
    }
  }

  lemma EnteredCall<T>(call: Call<T>)
    ensures CallOf(Entered(call)) == call
  {}

  lemma ServesJoined<T>(s: State<T>, first: seq<Call<T>>, m: State<T>, second: seq<Call<T>>, t: State<T>)
    requires Serves(s, first, m) && Serves(m, second, t)
    ensures Serves(s, first + second, t)
  {
    hide CallOf;
  }

  lemma {:induction false} RunServes<T>(cfg: Config, s: State<T>, steps: seq<Step<T>>)
    requires Legal(cfg, s, steps)
    ensures Serves(s, Requests(steps), Exec(cfg, s, steps))
    decreases |steps|
  {
    hide Enabled, Apply, CallOf;
    if steps == [] {
    } else {
      hide Serves;
      var next := Apply(cfg, s, steps[0]);
      StepServes(cfg, s, steps[0]);
      RunServes(cfg, next, steps[1..]);
      ServesJoined(s, Begun(steps[0]), next, Requests(steps[1..]), Exec(cfg, s, steps));
    }
  }
}
