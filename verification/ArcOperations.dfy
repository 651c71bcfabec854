/** What the operations on a handle leave behind, whatever other threads do between their steps. */
module ArcOperations {
  import opened Options
  import opened ArcStrings

  // ---- Texts

  /** Blocks stay where they are, keep their text, and stay freed once freed. */
  ghost predicate TextsKept(s: Heap, t: Heap) {
    && |s.reps| <= |t.reps|
    && forall r | 0 <= r < |s.reps| :: t.reps[r].str == s.reps[r].str && (s.reps[r].freed ==> t.reps[r].freed)
  }

  lemma StepKeepsTexts(s: Heap, step: Step)
    requires Safe(s, step)
    ensures TextsKept(s, Apply(s, step))
  {}

  lemma {:induction false} RunKeepsTexts(s: Heap, steps: seq<Step>)
    requires Legal(s, steps)
    ensures TextsKept(s, Exec(s, steps))
    decreases |steps|
  {
    hide Enabled, Safe, Apply;
    if steps == [] {
    } else {
      StepKeepsTexts(s, steps[0]);
      RunKeepsTexts(Apply(s, steps[0]), steps[1..]);
    }
  }

  /** The text that a handle shows, if it is not empty. */
  predicate Shows(s: Heap, handle: Handle, str: string) {
    handle.Settled? && handle.rep.Some? && handle.rep.value < |s.reps| && s.reps[handle.rep.value].str == str
  }

  /** A handle constructed from a text is settled on a block of its own with that text, counted once. */
  lemma NewShows(s: Heap, str: string)
    ensures var t, h := Apply(s, New(str)), |s.handles|;
            && |t.handles| == h + 1 && t.handles[..h] == s.handles
            && Shows(t, t.handles[h], str) && t.handles[h] == Settled(Some(|s.reps|))
            && t.reps == s.reps + [Rep(str, 1, false)]
  {}

  // ---- Operations

  /** The operation that a handle is in, named by what follows its release. */
  function OperationOf(handle: Handle): Option<Next> {
    match handle
    case Releasing(_, next) => Some(next)
    case Deleting(_, next) => Some(next)
    case Clearing(next) => Some(next)
    case Cleared(next) => Some(next)
    case Copying(_, src) => Some(CopyFrom(src))
    case Stealing(_, src) => Some(MoveFrom(src))
    case _ => None
  }

  /** The handle that a beginning operation is about, and the operation. */
  function TargetOf(s: Heap, step: Step): nat {
    if step.BeginAssign? then step.h else |s.handles|
  }

  function Begun(step: Step): Next
    requires step.BeginCopy? || step.BeginMove? || step.BeginAssign?
  {
    match step
    case BeginCopy(src) => CopyFrom(src)
    case BeginMove(src) => MoveFrom(src)
    case BeginAssign(_, next) => next
  }

  lemma OperationBegins(s: Heap, step: Step)
    requires Inv(s) && Enabled(s, step) && (step.BeginCopy? || step.BeginMove? || step.BeginAssign?)
    ensures Safe(s, step)
    ensures var t, h := Apply(s, step), TargetOf(s, step);
            && h < |t.handles| && OperationOf(t.handles[h]) == Some(Begun(step))
            && (forall g | 0 <= g < |s.handles| && g != h :: t.handles[g] == s.handles[g])
            && (Begun(step) != Destroy ==> Begun(step).src < |s.handles| && Begun(step).src != h)
  {}

  /** What handle h has become at the end of an operation: gone, or what the source was; a move has emptied the
      source, a copy has left it alone.  */
  ghost predicate Completed(s: Heap, next: Next, t: Heap, h: nat)
    requires h < |t.handles|
  {
    match next
    case Destroy => t.handles[h] == Gone
    case CopyFrom(src) =>
      && src < |s.handles| && src < |t.handles|
      && s.handles[src].Settled? && s.handles[src].rep.Some?
      && t.handles[h] == s.handles[src] && t.handles[src] == s.handles[src]
    case MoveFrom(src) =>
      && src < |s.handles| && src < |t.handles| && s.handles[src].Settled?
      && t.handles[h] == s.handles[src] && t.handles[src] == Settled(None)
  }

  /** Any step, by any thread, while handle h is in an operation: either it goes on, with its source untouched, or
      it is completed.  */
  lemma OperationStep(s: Heap, step: Step, h: nat)
    requires Inv(s) && Enabled(s, step) && Safe(s, step)
    requires h < |s.handles| && OperationOf(s.handles[h]).Some?
    ensures var t, next := Apply(s, step), OperationOf(s.handles[h]).value;
            && h < |t.handles|
            && (if OperationOf(t.handles[h]) == None then Completed(s, next, t, h)
                else && OperationOf(t.handles[h]) == Some(next)
                     && (next != Destroy ==>
                           && next.src < |s.handles| && next.src < |t.handles|
                           && t.handles[next.src] == s.handles[next.src]))
  {
    assert SourceOf(s.handles[h]) == SourceOfNext(OperationOf(s.handles[h]).value);
  }

  /** The first state of a run in which handle h is in no operation. */
  ghost function AtRest(s: Heap, steps: seq<Step>, h: nat): Option<Heap>
    requires Legal(s, steps)
    decreases |steps|
  {
    if h >= |s.handles| || OperationOf(s.handles[h]) == None then Some(s)
    else if steps == [] then None
    else AtRest(Apply(s, steps[0]), steps[1..], h)
  }

  /** Whatever other threads do meanwhile, an operation under way ends with its source as it was found. */
  lemma {:induction false} OperationCompletes(s: Heap, steps: seq<Step>, h: nat)
    requires Inv(s) && Legal(s, steps)
    requires h < |s.handles| && OperationOf(s.handles[h]).Some? && AtRest(s, steps, h).Some?
    ensures var t := AtRest(s, steps, h).value;
            h < |t.handles| && Completed(s, OperationOf(s.handles[h]).value, t, h) && TextsKept(s, t)
    decreases |steps|
  {
    hide Inv, Enabled, Safe, Apply, TextsKept;
    var next, t := Apply(s, steps[0]), AtRest(s, steps, h).value;
    StepKeepsInv(s, steps[0]);
    StepKeepsTexts(s, steps[0]);
    OperationStep(s, steps[0], h);
    if OperationOf(next.handles[h]) == None {
    } else {
      OperationCompletes(next, steps[1..], h);
      TextsKeptOn(s, next, t);
    }
  }

  lemma TextsKeptOn(s: Heap, m: Heap, t: Heap)
    requires TextsKept(s, m) && TextsKept(m, t)
    ensures TextsKept(s, t)
  {}

  /** A whole operation, from its call on: when the target has come to rest, the destructor has left it gone; a copy
      has made it the equal of its source, with the text that the source had at the call; a move has made it what the
      source was, and the source empty.  */
  lemma OperationEnds(s: Heap, begin: Step, steps: seq<Step>)
    requires Inv(s) && Enabled(s, begin) && (begin.BeginCopy? || begin.BeginMove? || begin.BeginAssign?)
    requires Safe(s, begin) && Legal(Apply(s, begin), steps)
    requires AtRest(Apply(s, begin), steps, TargetOf(s, begin)).Some?
    ensures var t, h := AtRest(Apply(s, begin), steps, TargetOf(s, begin)).value, TargetOf(s, begin);
            h < |t.handles| && Completed(s, Begun(begin), t, h) && TextsKept(s, t)
    ensures var t, h := AtRest(Apply(s, begin), steps, TargetOf(s, begin)).value, TargetOf(s, begin);
            Begun(begin) != Destroy ==>
              forall str :: Shows(s, s.handles[Begun(begin).src], str) ==> Shows(t, t.handles[h], str)
  {
    hide Inv, Enabled, Safe, Apply, TextsKept;
    var h := TargetOf(s, begin);
    OperationBegins(s, begin);
    StepKeepsInv(s, begin);
    StepKeepsTexts(s, begin);
    OperationCompletes(Apply(s, begin), steps, h);
    var t := AtRest(Apply(s, begin), steps, h).value;
    TextsKeptOn(s, Apply(s, begin), t);
    forall handle, str | Shows(s, handle, str) ensures Shows(t, handle, str) {
      ShownOn(s, t, handle, str);
    }
  }

  lemma ShownOn(s: Heap, t: Heap, handle: Handle, str: string)
    requires TextsKept(s, t) && Shows(s, handle, str)
    ensures Shows(t, handle, str)
  {}

  // ---- Progress

  /** The steps an operation still has to take. */
  function StepsLeft(handle: Handle): nat {
    match handle
    case Releasing(_, _) => 5
    case Deleting(_, _) => 4
    case Clearing(_) => 3
    case Cleared(_) => 2
    case Copying(_, _) => 1
    case Stealing(_, _) => 1
    case _ => 0
  }

  /** No operation waits for another thread: it always has a step of its own, which brings it nearer to its end. */
  lemma OperationGoesOn(s: Heap, h: nat) returns (step: Step)
    requires Inv(s) && h < |s.handles| && OperationOf(s.handles[h]).Some?
    ensures Enabled(s, step) && Safe(s, step) && h < |Apply(s, step).handles|
    ensures StepsLeft(Apply(s, step).handles[h]) < StepsLeft(s.handles[h])
  {
    match s.handles[h] {
      case Releasing(_, _) => step := Release(h);
      case Deleting(_, _) => step := Delete(h);
      case Clearing(_) => step := Null(h);
      case Cleared(_) => step := ReadSource(h);
      case Copying(_, _) => step := FetchAdd(h);
      case Stealing(_, _) => step := NullSource(h);
    }
    EnabledIsSafe(s, step);
    assert SourceOf(s.handles[h]) == SourceOfNext(OperationOf(s.handles[h]).value);
  }
}
