/** The channel as an object: the inherited deque and `closed_` are fields, and each method is one step of one call.
    Every method is tied to the step function whose runs the other modules reason about.  */
module ChannelObject {
  import opened Options
  import opened Channels
  import opened ChannelSafety
  import opened ChannelFifo

  class Channel<T> {
    const cfg: Config
    var queue: seq<T>
    var closed: bool
    var calls: seq<Pc<T>>
    ghost var log: seq<Entry<T>>
    ghost var removed: seq<Removal>

    ghost function View(): State<T>
      reads this
    {
      State(queue, closed, calls, log, removed)
    }

    ghost predicate Valid()
      reads this
    {
      && (cfg.bounded ==> cfg.max > 0)
      && Fifo(View()) && WithinBound(cfg, View())
      && (SafeConfig(cfg) ==> WakeInv(cfg, View()))
    }

    constructor (cfg: Config)
      requires cfg.bounded ==> cfg.max > 0
      ensures Valid() && this.cfg == cfg && View() == Init()
    {
      this.cfg := cfg;
      queue, closed, calls := [], false, [];
      log, removed := [], [];
    }

    lemma Stepped(before: State<T>, step: Step<T>)
      requires cfg.bounded ==> cfg.max > 0
      requires Fifo(before) && WithinBound(cfg, before) && (SafeConfig(cfg) ==> WakeInv(cfg, before))
      requires Enabled(cfg, before, step) && View() == Apply(cfg, before, step)
      ensures Valid()
    {
      hide Enabled, Apply, Fifo, WithinBound, WakeInv, View;
      StepKeepsFifo(cfg, before, step);
      StepKeepsBound(cfg, before, step);
      if SafeConfig(cfg) {
        StepKeepsWakeInv(cfg, before, step);
      }
    }

    method Begin(call: Call<T>) returns (c: nat)
      requires Valid() && Enabled(cfg, View(), Step.Begin(call))
      modifies this
      ensures Valid() && c == |old(calls)| && View() == Apply(cfg, old(View()), Step.Begin(call))
    {
      hide Fifo, WakeInv;
      c := |calls|;
      calls := calls + [Entered(call)];
      Stepped(old(View()), Step.Begin(call));
    }

    /** The critical section of `emplace`. */
    method EmplaceSection(c: nat)
      requires Valid() && c < |calls| && (calls[c].EmplaceEntry? || calls[c].EmplaceWoken?)
      modifies this
      ensures Valid() && View() == Apply(cfg, old(View()), Enter(c))
    {
      hide Fifo, WakeInv;
      var item := calls[c].item;
      if cfg.bounded && !(|queue| < cfg.max || closed) {
        calls := calls[c := EmplaceAsleep(item)];
      } else if closed {
        calls := calls[c := EmplaceDone(item, false)];
      } else {
        var shouldNotify := true;
        if cfg.sc {
          shouldNotify := |queue| == 0;
        }
        queue := queue + [item];
        log := log + [Entry(item, c)];
        calls := calls[c := if shouldNotify then EmplaceNotify(item) else EmplaceDone(item, true)];
      }
      Stepped(old(View()), Enter(c));
    }

    /** The critical section of `pop(value_type&)`: the destination is written only on success. */
    method PopIntoSection(c: nat, dst0: T) returns (dst: T)
      requires Valid() && c < |calls| && (calls[c].PopEntry? || calls[c].PopWoken?)
      modifies this
      ensures Valid() && View() == Apply(cfg, old(View()), Enter(c))
      ensures dst == if OutcomeOf(calls[c]).Took? then OutcomeOf(calls[c]).item else dst0
    {
      hide Fifo, WakeInv;
      dst := dst0;
      if !(closed || |queue| > 0) {
        calls := calls[c := PopAsleep];
      } else if |queue| == 0 {
        calls := calls[c := PopDone(None)];
      } else {
        var shouldNotify := cfg.bounded;
        if cfg.bounded && cfg.sp {
          shouldNotify := |queue| == cfg.max;
        }
        dst := queue[0];
        queue := queue[1..];
        removed := removed + [Delivered(c)];
        calls := calls[c := if shouldNotify then PopNotify(dst) else PopDone(Some(dst))];
      }
      Stepped(old(View()), Enter(c));
    }

    /** The critical section of `pop()`: it takes the same step as the other overload. */
    method PopOptionalSection(c: nat) returns (ret: Option<T>)
      requires Valid() && c < |calls| && (calls[c].PopEntry? || calls[c].PopWoken?)
      modifies this
      ensures Valid() && View() == Apply(cfg, old(View()), Enter(c))
      ensures ret == if OutcomeOf(calls[c]).Took? then Some(OutcomeOf(calls[c]).item) else None
    {
      hide Fifo, WakeInv;
      ret := None;
      if !closed && |queue| == 0 {
        calls := calls[c := PopAsleep];
      } else if |queue| == 0 {
        calls := calls[c := PopDone(None)];
      } else {
        var front := queue[0];
        var shouldNotify := cfg.bounded && (!cfg.sp || |queue| == cfg.max);
        ret := Some(front);
        queue := queue[1..];
        removed := removed + [Delivered(c)];
        calls := calls[c := if shouldNotify then PopNotify(front) else PopDone(ret)];
      }
      Stepped(old(View()), Enter(c));
    }

    method ClearSection(c: nat)
      requires Valid() && c < |calls| && calls[c].ClearEntry?
      modifies this
      ensures Valid() && View() == Apply(cfg, old(View()), Enter(c))
    {
      hide Fifo, WakeInv;
      removed := removed + seq(|queue|, _ => Dropped(c));
      queue := [];
      calls := calls[c := if cfg.bounded then ClearNotify else ClearDone];
      Stepped(old(View()), Enter(c));
    }

    method CloseSection(c: nat)
      requires Valid() && c < |calls| && calls[c].CloseEntry?
      modifies this
      ensures Valid() && View() == Apply(cfg, old(View()), Enter(c))
    {
      hide Fifo, WakeInv;
      closed := true;
      calls := calls[c := CloseNotifyPop];
      Stepped(old(View()), Enter(c));
    }

    /** notify_one: some sleeper, if there is one, is woken. */
    method NotifyOne(c: nat) returns (wake: Option<nat>)
      requires Valid() && c < |calls| && (calls[c].EmplaceNotify? || calls[c].PopNotify?)
      modifies this
      ensures Valid() && Enabled(cfg, old(View()), Step.NotifyOne(c, wake))
      ensures View() == Apply(cfg, old(View()), Step.NotifyOne(c, wake))
    {
      hide Fifo, WakeInv;
      var done := Notified(calls[c]);
      if w :| 0 <= w < |calls| && SleepsFor(calls[w], calls[c]) {
        wake := Some(w);
        calls := calls[w := Awake(calls[w])];
      } else {
        wake := None;
      }
      calls := calls[c := done];
      Stepped(old(View()), Step.NotifyOne(c, wake));
    }

    method NotifyAll(c: nat)
      requires Valid() && c < |calls| && CanNotifyAll(calls[c])
      modifies this
      ensures Valid() && View() == Apply(cfg, old(View()), Step.NotifyAll(c))
    {
      hide Fifo, WakeInv;
      match calls[c] {
        case CloseNotifyPop =>
          calls := WakeConsumers(calls)[c := if cfg.bounded then CloseNotifyEmplace else CloseDone];
        case ClearNotify =>
          calls := WakeProducers(calls)[c := ClearDone];
        case CloseNotifyEmplace =>
          calls := WakeProducers(calls)[c := CloseDone];
      }
      Stepped(old(View()), Step.NotifyAll(c));
    }

    method SpuriousWakeup(c: nat)
      requires Valid() && c < |calls| && (calls[c].EmplaceAsleep? || calls[c].PopAsleep?)
      modifies this
      ensures Valid() && View() == Apply(cfg, old(View()), Spurious(c))
    {
      hide Fifo, WakeInv;
      calls := calls[c := Awake(calls[c])];
      Stepped(old(View()), Spurious(c));
    }
  }
}
