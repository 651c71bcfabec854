/** A channel is a linearizable FIFO queue: every run of it is a run of a sequential queue, in an order that respects
    which calls came after which.  */
module ChannelOrder {
  import opened Channels
  import opened ChannelFifo
  import opened ChannelRuns
  import opened ChannelCalls

  // ---- What lasts

  /** One or more steps later: the log and the removals have only grown at their ends, decisions stand, and a closed
      channel has accepted nothing.  */
  ghost predicate Follows<T>(s: State<T>, t: State<T>) {
    && |s.calls| <= |t.calls| && s.log <= t.log && s.removed <= t.removed
    && (s.closed ==> t.closed && t.log == s.log)
    && (forall c | 0 <= c < |s.calls| && !OutcomeOf(s.calls[c]).Nothing? ::
          OutcomeOf(t.calls[c]) == OutcomeOf(s.calls[c]))
  }

  lemma SectionFollows<T>(cfg: Config, s: State<T>, c: nat)
    requires Enabled(cfg, s, Enter(c))
    ensures Follows(s, Section(cfg, s, c))
    ensures |Section(cfg, s, c).calls| == |s.calls| && OutcomeOf(s.calls[c]).Nothing?
    ensures forall d | 0 <= d < |s.calls| && d != c :: Section(cfg, s, c).calls[d] == s.calls[d]
  {}

  lemma NotifyAllFollows<T>(cfg: Config, s: State<T>, c: nat)
    requires Enabled(cfg, s, NotifyAll(c))
    ensures Follows(s, NotifyAllStep(cfg, s, c)) && |NotifyAllStep(cfg, s, c).calls| == |s.calls|
    ensures forall d | 0 <= d < |s.calls| && Undecided(s, d) :: Undecided(NotifyAllStep(cfg, s, c), d)
  {}

  lemma StepFollows<T>(cfg: Config, s: State<T>, step: Step<T>)
    requires Enabled(cfg, s, step)
    ensures Follows(s, Apply(cfg, s, step))
    ensures forall c | 0 <= c < |Apply(cfg, s, step).calls| && step != Enter(c) && Undecided(s, c) ::
              Undecided(Apply(cfg, s, step), c)
  {
    hide Section, NotifyAllStep;
    match step
    case Enter(c) => SectionFollows(cfg, s, c);
    case NotifyAll(c) => NotifyAllFollows(cfg, s, c);
    case _ =>
  }

  lemma {:induction false} RunFollows<T>(cfg: Config, s: State<T>, steps: seq<Step<T>>)
    requires Legal(cfg, s, steps)
    ensures Follows(s, Exec(cfg, s, steps))
    decreases |steps|
  {
    hide Enabled, Apply;
    if steps == [] {
    } else {
      StepFollows(cfg, s, steps[0]);
      RunFollows(cfg, Apply(cfg, s, steps[0]), steps[1..]);
    }
  }

  /** Items enter in the order of their calls: if `emplace` a had succeeded when b was still undecided, then the item
      of a is ahead of that of b in the log of every later state.  */
  lemma EarlierAcceptedFirst<T>(cfg: Config, s: State<T>, steps: seq<Step<T>>, a: nat, b: nat, j: nat, k: nat)
    requires Legal(cfg, s, steps) && Fifo(s)
    requires a < |s.calls| && OutcomeOf(s.calls[a]).Accepted? && Undecided(s, b)
    requires var t := Exec(cfg, s, steps); j < |t.log| && k < |t.log| && t.log[j].call == a && t.log[k].call == b
    ensures j < |s.log| <= k
  {
    hide Legal, Exec;
    RunFollows(cfg, s, steps);
    RunKeepsInvariants(cfg, s, steps);
    var i :| 0 <= i < |s.log| && s.log[i] == Entry(OutcomeOf(s.calls[a]).item, a);
    assert Exec(cfg, s, steps).log[i] == s.log[i];
  }

  /** Items leave in the order of the calls that take them. */
  lemma EarlierTakenFirst<T>(cfg: Config, s: State<T>, steps: seq<Step<T>>, a: nat, b: nat, j: nat, k: nat)
    requires Legal(cfg, s, steps) && Fifo(s)
    requires a < |s.calls| && OutcomeOf(s.calls[a]).Took? && Undecided(s, b)
    requires var t := Exec(cfg, s, steps);
             j < |t.removed| && k < |t.removed| && t.removed[j] == Delivered(a) && t.removed[k] == Delivered(b)
    ensures j < |s.removed| <= k
  {
    hide Legal, Exec;
    RunFollows(cfg, s, steps);
    RunKeepsInvariants(cfg, s, steps);
    var i :| 0 <= i < |s.removed| && s.removed[i] == Delivered(a);
    assert Exec(cfg, s, steps).removed[i] == s.removed[i];
  }

  // ---- The sequential queue

  /** The queue as its clients see it when calls do not overlap. */
  datatype Queue<T> = Queue(items: seq<T>, closed: bool)

  /** The call `call` took effect, with this outcome. */
  datatype Event<T> = Event(call: nat, outcome: Outcome<T>)

  ghost predicate Permits<T>(cfg: Config, q: Queue<T>, outcome: Outcome<T>) {
    match outcome
    case Accepted(_) => !q.closed && (cfg.bounded ==> |q.items| < cfg.max)
    case Refused => q.closed
    case Took(x) => q.items != [] && q.items[0] == x
    case Failed => q.items == [] && q.closed
    case Cleared => true
    case Closed => true
    case Nothing => false
  }

  function After<T>(q: Queue<T>, outcome: Outcome<T>): Queue<T> {
    match outcome
    case Accepted(x) => q.(items := q.items + [x])
    case Took(_) => if q.items == [] then q else q.(items := q.items[1..])
    case Cleared => q.(items := [])
    case Closed => q.(closed := true)
    case _ => q
  }

  /** A queue in state q can produce these outcomes one after the other, and is then in state q'. */
  ghost predicate Produces<T>(cfg: Config, q: Queue<T>, events: seq<Event<T>>, q': Queue<T>)
    decreases |events|
  {
    if events == [] then q' == q
    else Permits(cfg, q, events[0].outcome) && Produces(cfg, After(q, events[0].outcome), events[1..], q')
  }

  function QueueOf<T>(s: State<T>): Queue<T> {
    Queue(s.queue, s.closed)
  }

  // ---- The order in which the calls of a run take effect

  /** A call takes effect in the critical section that decides it. */
  function Decision<T>(cfg: Config, s: State<T>, step: Step<T>): seq<Event<T>>
    requires Enabled(cfg, s, step)
  {
    if !step.Enter? then []
    else
      var outcome := OutcomeOf(Section(cfg, s, step.c).calls[step.c]);
      if outcome.Nothing? then [] else [Event(step.c, outcome)]
  }

  function Effects<T>(cfg: Config, s: State<T>, steps: seq<Step<T>>): (events: seq<Event<T>>)
    requires Legal(cfg, s, steps)
    decreases |steps|
  {
    if steps == [] then []
    else Decision(cfg, s, steps[0]) + Effects(cfg, Apply(cfg, s, steps[0]), steps[1..])
  }

  /** A section that decides nothing has gone to sleep. */
  lemma QuietSection<T>(cfg: Config, s: State<T>, c: nat)
    requires Enabled(cfg, s, Enter(c)) && OutcomeOf(Section(cfg, s, c).calls[c]).Nothing?
    ensures QueueOf(Section(cfg, s, c)) == QueueOf(s)
  {}

  lemma SectionIsSequential<T>(cfg: Config, s: State<T>, c: nat)
    requires Enabled(cfg, s, Enter(c)) && !OutcomeOf(Section(cfg, s, c).calls[c]).Nothing?
    ensures var outcome := OutcomeOf(Section(cfg, s, c).calls[c]);
            Permits(cfg, QueueOf(s), outcome) && QueueOf(Section(cfg, s, c)) == After(QueueOf(s), outcome)
  {}

  /** A step either leaves the queue alone or does to it what the sequential queue would do. */
  lemma StepIsSequential<T>(cfg: Config, s: State<T>, step: Step<T>)
    requires Enabled(cfg, s, step)
    ensures Produces(cfg, QueueOf(s), Decision(cfg, s, step), QueueOf(Apply(cfg, s, step)))
  {
    var events := Decision(cfg, s, step);
    if events == [] {
      hide EmplaceSection, PopSection;
      if step.Enter? {
        QuietSection(cfg, s, step.c);
      }
    } else {
      hide Section;
      SectionIsSequential(cfg, s, step.c);
      assert events[1..] == [];
    }
  }

  lemma {:induction false} ProducesJoined<T>(cfg: Config, p: Queue<T>, first: seq<Event<T>>, q: Queue<T>,
                                             second: seq<Event<T>>, r: Queue<T>)
    requires Produces(cfg, p, first, q) && Produces(cfg, q, second, r)
    ensures Produces(cfg, p, first + second, r)
    decreases |first|
  {
    if first == [] {
      assert first + second == second;
    } else {
      assert (first + second)[1..] == first[1..] + second;
      ProducesJoined(cfg, After(p, first[0].outcome), first[1..], q, second, r);
    }
  }

  /** Every run does what the sequential queue does with the same outcomes in the order in which they took effect. */
  lemma {:induction false} RunIsSequential<T>(cfg: Config, s: State<T>, steps: seq<Step<T>>)
    requires Legal(cfg, s, steps)
    ensures Produces(cfg, QueueOf(s), Effects(cfg, s, steps), QueueOf(Exec(cfg, s, steps)))
    decreases |steps|
  {
    hide Enabled, Apply, Produces, Decision, QueueOf;
    if steps == [] {
      assert Produces(cfg, QueueOf(s), [], QueueOf(s)) by { NothingProduced(cfg, QueueOf(s)); }
    } else {
      var next := Apply(cfg, s, steps[0]);
      StepIsSequential(cfg, s, steps[0]);
      RunIsSequential(cfg, next, steps[1..]);
      ProducesJoined(cfg, QueueOf(s), Decision(cfg, s, steps[0]), QueueOf(next), Effects(cfg, next, steps[1..]),
                     QueueOf(Exec(cfg, s, steps)));
    }
  }

  lemma NothingProduced<T>(cfg: Config, q: Queue<T>)
    ensures Produces(cfg, q, [], q)
  {}

  // ---- The events are the outcomes of the calls

  /** The events are those of the calls decided between s and t, each once and with its final outcome. */
  ghost predicate Exact<T>(s: State<T>, events: seq<Event<T>>, t: State<T>) {
    && (forall i | 0 <= i < |events| ::
          && Undecided(s, events[i].call) && events[i].call < |t.calls|
          && OutcomeOf(t.calls[events[i].call]) == events[i].outcome && !events[i].outcome.Nothing?)
    && (forall i, j | 0 <= i < j < |events| :: events[i].call != events[j].call)
    && (forall c | 0 <= c < |t.calls| && Undecided(s, c) && !OutcomeOf(t.calls[c]).Nothing? ::
          Event(c, OutcomeOf(t.calls[c])) in events)
  }

  lemma StepIsExact<T>(cfg: Config, s: State<T>, step: Step<T>)
    requires Enabled(cfg, s, step)
    ensures Exact(s, Decision(cfg, s, step), Apply(cfg, s, step))
  {
    hide EmplaceSection, PopSection, ClearSection;
    StepFollows(cfg, s, step);
    var events, t := Decision(cfg, s, step), Apply(cfg, s, step);
    assert step.Enter? ==> OutcomeOf(s.calls[step.c]).Nothing?;
    forall c | 0 <= c < |t.calls| && Undecided(s, c) && !OutcomeOf(t.calls[c]).Nothing?
      ensures Event(c, OutcomeOf(t.calls[c])) in events
    {
      assert step == Enter(c);
      assert events == [Event(c, OutcomeOf(t.calls[c]))];
    }
  }

  lemma ExactJoined<T>(s: State<T>, first: seq<Event<T>>, m: State<T>, second: seq<Event<T>>, t: State<T>)
    requires Exact(s, first, m) && Exact(m, second, t) && Follows(s, m) && Follows(m, t)
    ensures Exact(s, first + second, t)
  {
    var events := first + second;
    forall i | 0 <= i < |events|
      ensures Undecided(s, events[i].call) && events[i].call < |t.calls|
      ensures OutcomeOf(t.calls[events[i].call]) == events[i].outcome && !events[i].outcome.Nothing?
      ensures i < |first| <==> !Undecided(m, events[i].call)
    {
      assert events[i] == if i < |first| then first[i] else second[i - |first|];
    }
    forall c | 0 <= c < |t.calls| && Undecided(s, c) && !OutcomeOf(t.calls[c]).Nothing?
      ensures Event(c, OutcomeOf(t.calls[c])) in events
    {
      if Undecided(m, c) {
        assert Event(c, OutcomeOf(t.calls[c])) in second;
      } else {
        assert Event(c, OutcomeOf(m.calls[c])) in first;
      }
    }
  }

  lemma {:induction false} RunIsExact<T>(cfg: Config, s: State<T>, steps: seq<Step<T>>)
    requires Legal(cfg, s, steps)
    ensures Exact(s, Effects(cfg, s, steps), Exec(cfg, s, steps))
    decreases |steps|
  {
    hide Enabled, Apply, Decision;
    if steps == [] {
    } else {
      hide Exact, Follows;
      var next := Apply(cfg, s, steps[0]);
      StepIsExact(cfg, s, steps[0]);
      StepFollows(cfg, s, steps[0]);
      RunIsExact(cfg, next, steps[1..]);
      RunFollows(cfg, next, steps[1..]);
      ExactJoined(s, Decision(cfg, s, steps[0]), next, Effects(cfg, next, steps[1..]), Exec(cfg, s, steps));
    }
  }

  // ---- Runs one after the other

  lemma {:induction false} RunsJoined<T>(cfg: Config, s: State<T>, first: seq<Step<T>>, second: seq<Step<T>>)
    requires Legal(cfg, s, first + second)
    ensures Legal(cfg, s, first) && Legal(cfg, Exec(cfg, s, first), second)
    ensures Exec(cfg, s, first + second) == Exec(cfg, Exec(cfg, s, first), second)
    ensures Effects(cfg, s, first + second) == Effects(cfg, s, first) + Effects(cfg, Exec(cfg, s, first), second)
    decreases |first|
  {
    hide Enabled, Apply, Decision;
    if first == [] {
      assert first + second == second;
    } else {
      assert (first + second)[1..] == first[1..] + second;
      RunsJoined(cfg, Apply(cfg, s, first[0]), first[1..], second);
    }
  }

  lemma HistoryAnswers<T>(cfg: Config, steps: seq<Step<T>>)
    requires Legal(cfg, Init(), steps)
    ensures var requests, history := Requests(steps), Effects(cfg, Init(), steps);
            && |Exec(cfg, Init(), steps).calls| == |requests|
            && (forall i | 0 <= i < |history| ::
                  history[i].call < |requests| && Answers(requests[history[i].call], history[i].outcome))
  {
    hide Legal, Exec, Effects, Requests, Answers, CallOf;
    RunServes(cfg, Init(), steps);
    RunIsExact(cfg, Init(), steps);
    var calls: seq<Pc<T>> := Exec(cfg, Init(), steps).calls;
    forall c | 0 <= c < |calls| ensures OutcomeOf(calls[c]).Nothing? || Answers(CallOf(calls[c]), OutcomeOf(calls[c])) {
      OutcomeAnswers(calls[c]);
    }
  }

  /** Linearizability.  Over any run of a new channel, the calls that took effect form a history that the sequential
      queue produces, ending in the contents of the channel.  The history has every decided call once, with its outcome,
      which answers the call that was begun under that index.  And it respects time: what was decided after `first`
      comes before what was still undecided, or not even begun.  */
  lemma ChannelIsLinearizable<T>(cfg: Config, first: seq<Step<T>>, second: seq<Step<T>>)
    requires Legal(cfg, Init(), first + second)
    ensures var t := Exec(cfg, Init(), first + second);
            var history := Effects(cfg, Init(), first + second);
            && Produces(cfg, Queue([], false), history, Queue(t.queue, t.closed))
            && (forall i | 0 <= i < |history| ::
                  history[i].call < |t.calls| && OutcomeOf(t.calls[history[i].call]) == history[i].outcome)
            && (forall c | 0 <= c < |t.calls| && !OutcomeOf(t.calls[c]).Nothing? ::
                  Event(c, OutcomeOf(t.calls[c])) in history)
            && (forall i, j | 0 <= i < j < |history| :: history[i].call != history[j].call)
    ensures var requests := Requests(first + second);
            var history := Effects(cfg, Init(), first + second);
            && |Exec(cfg, Init(), first + second).calls| == |requests|
            && (forall i | 0 <= i < |history| ::
                  history[i].call < |requests| && Answers(requests[history[i].call], history[i].outcome))
    ensures Legal(cfg, Init(), first)
    ensures var m := Exec(cfg, Init(), first);
            var history := Effects(cfg, Init(), first + second);
            forall i, j | 0 <= i < |history| && 0 <= j < |history| ::
              !Undecided(m, history[i].call) && Undecided(m, history[j].call) ==> i < j
  {
    hide Legal, Exec, Effects, Produces, Requests, Answers, CallOf;
    HistoryAnswers(cfg, first + second);
    RunsJoined(cfg, Init(), first, second);
    var m: State<T> := Exec(cfg, Init(), first);
    RunIsSequential(cfg, Init(), first + second);
    RunIsExact(cfg, Init(), first + second);
    RunIsExact(cfg, Init(), first);
    RunIsExact(cfg, m, second);
    var before: seq<Event<T>> := Effects(cfg, Init(), first);
    var after: seq<Event<T>> := Effects(cfg, m, second);
    forall i | 0 <= i < |before + after| ensures i < |before| <==> !Undecided(m, (before + after)[i].call) {
      assert (before + after)[i] == if i < |before| then before[i] else after[i - |before|];
    }
  }
}
