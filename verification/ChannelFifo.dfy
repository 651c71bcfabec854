/** The history of a channel is that of a FIFO queue. */
module ChannelFifo {
  import opened Channels

  /** What a call has achieved so far, whether or not it still has a notify to send. */
  datatype Outcome<+T> = Nothing | Accepted(item: T) | Refused | Took(item: T) | Failed | Cleared | Closed

  function OutcomeOf<T>(pc: Pc<T>): Outcome<T> {
    match pc
    case EmplaceNotify(x) => Accepted(x)
    case EmplaceDone(x, ok) => if ok then Accepted(x) else Refused
    case PopNotify(x) => Took(x)
    case PopDone(r) => if r.Some? then Took(r.value) else Failed
    case ClearNotify => Cleared
    case ClearDone => Cleared
    case CloseNotifyPop => Closed
    case CloseNotifyEmplace => Closed
    case CloseDone => Closed
    case _ => Nothing
  }

  /** The log is the removed items followed by the queue. */
  ghost predicate Split<T>(s: State<T>) {
    && |s.log| == |s.removed| + |s.queue|
    && forall i | 0 <= i < |s.queue| :: s.queue[i] == s.log[|s.removed| + i].item
  }

  /** The log holds exactly the items of the calls of `emplace` that succeeded, each once. */
  ghost predicate LogExact<T>(s: State<T>) {
    && (forall k | 0 <= k < |s.log| ::
          s.log[k].call < |s.calls| && OutcomeOf(s.calls[s.log[k].call]) == Accepted(s.log[k].item))
    && (forall j, k | 0 <= j < k < |s.log| :: s.log[j].call != s.log[k].call)
    && (forall c | 0 <= c < |s.calls| && OutcomeOf(s.calls[c]).Accepted? ::
          Entry(OutcomeOf(s.calls[c]).item, c) in s.log)
  }

  /** The k-th removal concerns the k-th log entry; each successful `pop` has exactly one, and a dropped item
      was dropped by a `clear`.  */
  ghost predicate RemovedExact<T>(s: State<T>) {
    && |s.removed| <= |s.log|
    && (forall k | 0 <= k < |s.removed| ::
          match s.removed[k]
          case Delivered(c) => c < |s.calls| && OutcomeOf(s.calls[c]) == Took(s.log[k].item)
          case Dropped(c) => c < |s.calls| && OutcomeOf(s.calls[c]) == Cleared)
    && (forall j, k | 0 <= j < k < |s.removed| && s.removed[j].Delivered? :: s.removed[j] != s.removed[k])
    && (forall c | 0 <= c < |s.calls| && OutcomeOf(s.calls[c]).Took? :: Delivered(c) in s.removed)
  }

  /** A refusal needs a closed channel, a failed `pop` a closed and empty one; a `close` has closed it. */
  ghost predicate FailuresJustified<T>(s: State<T>) {
    && (forall c | 0 <= c < |s.calls| && OutcomeOf(s.calls[c]).Refused? :: s.closed)
    && (forall c | 0 <= c < |s.calls| && OutcomeOf(s.calls[c]).Failed? :: s.closed && s.queue == [])
    && (forall c | 0 <= c < |s.calls| && OutcomeOf(s.calls[c]).Closed? :: s.closed)
  }

  ghost predicate Fifo<T>(s: State<T>) {
    Split(s) && LogExact(s) && RemovedExact(s) && FailuresJustified(s)
  }

  /** No item has moved, and the calls decided meanwhile were refused or failed for a reason, or closed the channel. */
  ghost predicate Quiet<T>(s: State<T>, t: State<T>) {
    && t.queue == s.queue && t.log == s.log && t.removed == s.removed && (s.closed ==> t.closed)
    && |s.calls| <= |t.calls|
    && (forall c | 0 <= c < |s.calls| ::
          || OutcomeOf(t.calls[c]) == OutcomeOf(s.calls[c])
          || (OutcomeOf(s.calls[c]) == Nothing && OutcomeOf(t.calls[c]) == Refused && t.closed)
          || (OutcomeOf(s.calls[c]) == Nothing && OutcomeOf(t.calls[c]) == Failed && t.closed && t.queue == [])
          || (OutcomeOf(s.calls[c]) == Nothing && OutcomeOf(t.calls[c]) == Closed && t.closed))
    && (forall c | |s.calls| <= c < |t.calls| :: OutcomeOf(t.calls[c]) == Nothing)
  }

  lemma QuietKeepsLog<T>(s: State<T>, t: State<T>)
    requires LogExact(s) && Quiet(s, t)
    ensures LogExact(t)
  {}

  lemma QuietKeepsRemoved<T>(s: State<T>, t: State<T>)
    requires RemovedExact(s) && Quiet(s, t)
    ensures RemovedExact(t)
  {}

  lemma QuietKeepsFifo<T>(s: State<T>, t: State<T>)
    requires Fifo(s) && Quiet(s, t)
    ensures Fifo(t)
  {
    hide LogExact, RemovedExact;
    QuietKeepsLog(s, t);
    QuietKeepsRemoved(s, t);
  }

  lemma AcceptKeepsLog<T>(s: State<T>, t: State<T>, c: nat, x: T)
    requires LogExact(s)
    requires c < |s.calls| == |t.calls| && OutcomeOf(s.calls[c]) == Nothing && OutcomeOf(t.calls[c]) == Accepted(x)
    requires forall i | 0 <= i < |s.calls| && i != c :: t.calls[i] == s.calls[i]
    requires t.log == s.log + [Entry(x, c)]
    ensures LogExact(t)
  {
    assert t.log[|s.log|] == Entry(x, c);
    forall e | e in s.log ensures e in t.log {}
  }

  lemma AcceptKeepsRemoved<T>(s: State<T>, t: State<T>, c: nat)
    requires RemovedExact(s) && s.log <= t.log && t.removed == s.removed
    requires c < |s.calls| == |t.calls| && OutcomeOf(s.calls[c]) == Nothing && OutcomeOf(t.calls[c]).Accepted?
    requires forall i | 0 <= i < |s.calls| && i != c :: t.calls[i] == s.calls[i]
    ensures RemovedExact(t)
  {}

  /** An accepted item goes behind everything accepted before. */
  lemma AcceptKeepsFifo<T>(cfg: Config, s: State<T>, c: nat, x: T)
    requires Fifo(s) && !s.closed
    requires c < |s.calls| && OutcomeOf(s.calls[c]) == Nothing
    requires cfg.bounded ==> |s.queue| < cfg.max
    ensures var t := EmplaceSection(cfg, s, c, x);
            Fifo(t) && t.log == s.log + [Entry(x, c)] && t.removed == s.removed && OutcomeOf(t.calls[c]) == Accepted(x)
  {
    hide LogExact, RemovedExact;
    var t := EmplaceSection(cfg, s, c, x);
    AcceptKeepsLog(s, t, c, x);
    AcceptKeepsRemoved(s, t, c);
  }

  lemma TakeKeepsRemoved<T>(s: State<T>, t: State<T>, c: nat, x: T)
    requires RemovedExact(s) && |s.removed| < |s.log| && x == s.log[|s.removed|].item
    requires c < |s.calls| == |t.calls| && OutcomeOf(s.calls[c]) == Nothing && OutcomeOf(t.calls[c]) == Took(x)
    requires forall i | 0 <= i < |s.calls| && i != c :: t.calls[i] == s.calls[i]
    requires t.log == s.log && t.removed == s.removed + [Delivered(c)]
    ensures RemovedExact(t)
  {
    assert t.removed[|s.removed|] == Delivered(c);
    forall r | r in s.removed ensures r in t.removed {}
  }

  lemma TakeKeepsLog<T>(s: State<T>, t: State<T>, c: nat)
    requires LogExact(s) && t.log == s.log
    requires c < |s.calls| == |t.calls| && OutcomeOf(s.calls[c]) == Nothing && !OutcomeOf(t.calls[c]).Accepted?
    requires forall i | 0 <= i < |s.calls| && i != c :: t.calls[i] == s.calls[i]
    ensures LogExact(t)
  {}

  /** A `pop` is handed the oldest entry that has not been removed. */
  lemma TakeKeepsFifo<T>(cfg: Config, s: State<T>, c: nat)
    requires Fifo(s) && s.queue != []
    requires c < |s.calls| && OutcomeOf(s.calls[c]) == Nothing
    ensures |s.removed| < |s.log|
    ensures var t := PopSection(cfg, s, c);
            && Fifo(t) && t.log == s.log && t.removed == s.removed + [Delivered(c)]
            && OutcomeOf(t.calls[c]) == Took(s.log[|s.removed|].item)
  {
    hide LogExact, RemovedExact;
    var t := PopSection(cfg, s, c);
    assert s.queue[0] == s.log[|s.removed|].item;
    TakeKeepsLog(s, t, c);
    TakeKeepsRemoved(s, t, c, s.queue[0]);
  }

  lemma ClearKeepsRemoved<T>(s: State<T>, t: State<T>, c: nat)
    requires RemovedExact(s) && t.log == s.log && |t.removed| == |t.log| && s.removed <= t.removed
    requires forall k | |s.removed| <= k < |t.removed| :: t.removed[k] == Dropped(c)
    requires c < |s.calls| == |t.calls| && OutcomeOf(s.calls[c]) == Nothing && OutcomeOf(t.calls[c]) == Cleared
    requires forall i | 0 <= i < |s.calls| && i != c :: t.calls[i] == s.calls[i]
    ensures RemovedExact(t)
  {
    forall r | r in s.removed ensures r in t.removed {}
  }

  /** `clear` drops every entry that was still queued, and no other. */
  lemma ClearKeepsFifo<T>(cfg: Config, s: State<T>, c: nat)
    requires Fifo(s)
    requires c < |s.calls| && OutcomeOf(s.calls[c]) == Nothing
    ensures var t := ClearSection(cfg, s, c);
            && Fifo(t) && t.queue == [] && t.log == s.log && s.removed <= t.removed && |t.removed| == |t.log|
            && (forall k | |s.removed| <= k < |t.removed| :: t.removed[k] == Dropped(c))
  {
    hide LogExact, RemovedExact;
    var t := ClearSection(cfg, s, c);
    assert OutcomeOf(t.calls[c]) == Cleared;
    assert forall i | 0 <= i < |s.calls| && i != c :: t.calls[i] == s.calls[i];
    TakeKeepsLog(s, t, c);
    ClearKeepsRemoved(s, t, c);
  }

  lemma SectionKeepsFifo<T>(cfg: Config, s: State<T>, c: nat)
    requires Fifo(s) && Enabled(cfg, s, Enter(c))
    ensures Fifo(Section(cfg, s, c))
  {
    hide Fifo, EmplaceSection, PopSection, ClearSection;
    match s.calls[c]
    case EmplaceEntry(x) => EmplaceKeepsFifo(cfg, s, c, x);
    case EmplaceWoken(x) => EmplaceKeepsFifo(cfg, s, c, x);
    case PopEntry => PopKeepsFifo(cfg, s, c);
    case PopWoken => PopKeepsFifo(cfg, s, c);
    case ClearEntry => ClearKeepsFifo(cfg, s, c);
    case CloseEntry => QuietKeepsFifo(s, CloseSection(s, c));
  }

  lemma NotifyAllKeepsFifo<T>(cfg: Config, s: State<T>, c: nat)
    requires Fifo(s) && Enabled(cfg, s, NotifyAll(c))
    ensures Fifo(NotifyAllStep(cfg, s, c))
  {
    hide Fifo;
    QuietKeepsFifo(s, NotifyAllStep(cfg, s, c));
  }

  /** Every step keeps the FIFO history. */
  lemma StepKeepsFifo<T>(cfg: Config, s: State<T>, step: Step<T>)
    requires Fifo(s) && Enabled(cfg, s, step)
    ensures Fifo(Apply(cfg, s, step))
  {
    hide Fifo, Section, NotifyAllStep;
    match step
    case Enter(c) => SectionKeepsFifo(cfg, s, c);
    case NotifyAll(c) => NotifyAllKeepsFifo(cfg, s, c);
    case _ => QuietKeepsFifo(s, Apply(cfg, s, step));
  }

  lemma EmplaceKeepsFifo<T>(cfg: Config, s: State<T>, c: nat, x: T)
    requires Fifo(s)
    requires c < |s.calls| && OutcomeOf(s.calls[c]) == Nothing
    ensures Fifo(EmplaceSection(cfg, s, c, x))
  {
    if (cfg.bounded && !(|s.queue| < cfg.max)) || s.closed {
      QuietKeepsFifo(s, EmplaceSection(cfg, s, c, x));
    } else {
      AcceptKeepsFifo(cfg, s, c, x);
    }
  }

  lemma PopKeepsFifo<T>(cfg: Config, s: State<T>, c: nat)
    requires Fifo(s)
    requires c < |s.calls| && OutcomeOf(s.calls[c]) == Nothing
    ensures Fifo(PopSection(cfg, s, c))
  {
    if s.queue == [] {
      QuietKeepsFifo(s, PopSection(cfg, s, c));
    } else {
      TakeKeepsFifo(cfg, s, c);
    }
  }
}
