/** The reference-counted strings of `clst/error.cpp`, with any number of handles and storage blocks and with every
    access to a shared counter, every `delete` and every write of a handle's pointer a step of its own.

    The counter operations are atomic and sequentially consistent.  The source of a copy or a move is pinned from
    the call on: it is a settled handle other than the target, non-empty for a copy, and no operation writes to it
    meanwhile (for a move, no other operation uses it either).  */
module ArcStrings {
  import opened Options
  import opened Tallies

  /** The storage block: the immutable text, `ref_cnt`, and whether the block has been deleted. */
  datatype Rep = Rep(str: string, refCnt: int, freed: bool)

  /** What a release is the first part of. */
  datatype Next = Destroy | CopyFrom(src: nat) | MoveFrom(src: nat)

  /** A handle, by the point its current operation has reached. */
  datatype Handle =
    | Gone                                           // destroyed
    | Settled(rep: Option<nat>)                      // no operation under way; None is the null pointer
    | Releasing(rep: Option<nat>, next: Next)        // at the head of release()
    | Deleting(victim: nat, next: Next)              // fetch_sub returned 1, about to delete
    | Clearing(next: Next)                           // about to null rep_
    | Cleared(next: Next)                            // about to read rhs.rep_
    | Copying(copied: nat, src: nat)                 // rep_ read, about to fetch_add
    | Stealing(taken: Option<nat>, src: nat)         // rep_ read, about to null rhs.rep_

  datatype Heap = Heap(reps: seq<Rep>, handles: seq<Handle>)

  datatype Step =
    | New(str: string)
    | BeginCopy(src: nat)                            // copy constructor
    | BeginMove(src: nat)                            // move constructor
    | BeginAssign(h: nat, next: Next)                // destructor, copy or move assignment
    | Release(h: nat)                                // the test of rep_ and the fetch_sub
    | Delete(h: nat)
    | Null(h: nat)
    | ReadSource(h: nat)
    | FetchAdd(h: nat)
    | NullSource(h: nat)

  /** The source that a handle's current operation still needs, and whether it will be emptied. */
  function SourceOf(handle: Handle): Option<(nat, bool)> {
    match handle
    case Releasing(_, next) => SourceOfNext(next)
    case Deleting(_, next) => SourceOfNext(next)
    case Clearing(next) => SourceOfNext(next)
    case Cleared(next) => SourceOfNext(next)
    case Copying(_, src) => Some((src, false))
    case Stealing(_, src) => Some((src, true))
    case _ => None
  }

  function SourceOfNext(next: Next): Option<(nat, bool)> {
    match next
    case Destroy => None
    case CopyFrom(src) => Some((src, false))
    case MoveFrom(src) => Some((src, true))
  }

  predicate Pinned(handles: seq<Handle>, src: nat) {
    exists h :: 0 <= h < |handles| && SourceOf(handles[h]).Some? && SourceOf(handles[h]).value.0 == src
  }

  predicate PinnedByMove(handles: seq<Handle>, src: nat) {
    exists h :: 0 <= h < |handles| && SourceOf(handles[h]) == Some((src, true))
  }

  /** What the source demands of the handle it copies or moves from. */
  predicate SourceAllowed(s: Heap, next: Next) {
    match next
    case Destroy => true
    case CopyFrom(src) =>
      src < |s.handles| && s.handles[src].Settled? && s.handles[src].rep.Some? && !PinnedByMove(s.handles, src)
    case MoveFrom(src) => src < |s.handles| && s.handles[src].Settled? && !Pinned(s.handles, src)
  }

  predicate Enabled(s: Heap, step: Step) {
    match step
    case New(_) => true
    case BeginCopy(src) => SourceAllowed(s, CopyFrom(src))
    case BeginMove(src) => SourceAllowed(s, MoveFrom(src))
    case BeginAssign(h, next) =>
      && h < |s.handles| && s.handles[h].Settled? && !Pinned(s.handles, h)
      && SourceAllowed(s, next) && next != CopyFrom(h) && next != MoveFrom(h)
    case Release(h) => h < |s.handles| && s.handles[h].Releasing?
    case Delete(h) => h < |s.handles| && s.handles[h].Deleting?
    case Null(h) => h < |s.handles| && s.handles[h].Clearing?
    case ReadSource(h) => h < |s.handles| && s.handles[h].Cleared?
    case FetchAdd(h) => h < |s.handles| && s.handles[h].Copying?
    case NullSource(h) => h < |s.handles| && s.handles[h].Stealing?
  }

  /** The block whose counter or storage a step touches. */
  function Touched(s: Heap, step: Step): Option<nat>
    requires Enabled(s, step)
  {
    match step
    case Release(h) => s.handles[h].rep
    case Delete(h) => Some(s.handles[h].victim)
    case FetchAdd(h) => Some(s.handles[h].copied)
    case _ => None
  }

  /** Every pointer met is a block, and every source still there (kept by the invariant). */
  predicate Safe(s: Heap, step: Step) {
    Enabled(s, step) &&
    match step
    case Release(h) => s.handles[h].rep.Some? ==> s.handles[h].rep.value < |s.reps|
    case Delete(h) => s.handles[h].victim < |s.reps|
    case FetchAdd(h) => s.handles[h].copied < |s.reps|
    case ReadSource(h) =>
      (match s.handles[h].next
       case Destroy => false
       case CopyFrom(src) => src < |s.handles| && s.handles[src].Settled? && s.handles[src].rep.Some?
       case MoveFrom(src) => src < |s.handles| && s.handles[src].Settled?)
    case NullSource(h) => s.handles[h].src < |s.handles|
    case _ => true
  }

  function ReleaseStep(s: Heap, h: nat): Heap
    requires Safe(s, Release(h))
  {
    var handle := s.handles[h];
    match handle.rep
    case None => s.(handles := s.handles[h := Clearing(handle.next)])
    case Some(r) =>
      Heap(s.reps[r := s.reps[r].(refCnt := s.reps[r].refCnt - 1)],
           s.handles[h := if s.reps[r].refCnt == 1 then Deleting(r, handle.next) else Clearing(handle.next)])
  }

  function ReadStep(s: Heap, h: nat): Heap
    requires Safe(s, ReadSource(h))
  {
    match s.handles[h].next
    case CopyFrom(src) => s.(handles := s.handles[h := Copying(s.handles[src].rep.value, src)])
    case MoveFrom(src) => s.(handles := s.handles[h := Stealing(s.handles[src].rep, src)])
  }

  function Apply(s: Heap, step: Step): Heap
    requires Safe(s, step)
  {
    match step
    case New(str) => Heap(s.reps + [Rep(str, 1, false)], s.handles + [Settled(Some(|s.reps|))])
    case BeginCopy(src) => s.(handles := s.handles + [Cleared(CopyFrom(src))])
    case BeginMove(src) => s.(handles := s.handles + [Cleared(MoveFrom(src))])
    case BeginAssign(h, next) => s.(handles := s.handles[h := Releasing(s.handles[h].rep, next)])
    case Release(h) => ReleaseStep(s, h)
    case Delete(h) =>
      var r := s.handles[h].victim;
      Heap(s.reps[r := s.reps[r].(freed := true)], s.handles[h := Clearing(s.handles[h].next)])
    case Null(h) =>
      s.(handles := s.handles[h := if s.handles[h].next == Destroy then Gone else Cleared(s.handles[h].next)])
    case ReadSource(h) => ReadStep(s, h)
    case FetchAdd(h) =>
      var r := s.handles[h].copied;
      Heap(s.reps[r := s.reps[r].(refCnt := s.reps[r].refCnt + 1)], s.handles[h := Settled(Some(r))])
    case NullSource(h) =>
      s.(handles := s.handles[h := Settled(s.handles[h].taken)][s.handles[h].src := Settled(None)])
  }

  // ---- Counting

  /** The handles whose share of block `r` is in the counter. */
  predicate Owns(handle: Handle, r: nat) {
    (handle.Settled? || handle.Releasing?) && handle.rep == Some(r)
  }

  predicate Deletes(handle: Handle, r: nat) {
    handle.Deleting? && handle.victim == r
  }

  function OwnedBit(r: nat): Handle -> nat {
    (handle: Handle) => if Owns(handle, r) then 1 else 0
  }

  function DeletedBit(r: nat): Handle -> nat {
    (handle: Handle) => if Deletes(handle, r) then 1 else 0
  }

  function Owners(handles: seq<Handle>, r: nat): nat {
    Sum(handles, OwnedBit(r))
  }

  function Deleters(handles: seq<Handle>, r: nat): nat {
    Sum(handles, DeletedBit(r))
  }

  lemma CountsUpdate(handles: seq<Handle>, h: nat, handle: Handle, r: nat)
    requires h < |handles|
    ensures Owners(handles[h := handle], r)
            == Owners(handles, r) - (if Owns(handles[h], r) then 1 else 0) + (if Owns(handle, r) then 1 else 0)
    ensures Deleters(handles[h := handle], r)
            == Deleters(handles, r) - (if Deletes(handles[h], r) then 1 else 0) + (if Deletes(handle, r) then 1 else 0)
  {
    hide Sum;
    SumUpdate(handles, OwnedBit(r), h, handle);
    SumUpdate(handles, DeletedBit(r), h, handle);
  }

  lemma CountsAppend(handles: seq<Handle>, handle: Handle, r: nat)
    ensures Owners(handles + [handle], r) == Owners(handles, r) + (if Owns(handle, r) then 1 else 0)
    ensures Deleters(handles + [handle], r) == Deleters(handles, r) + (if Deletes(handle, r) then 1 else 0)
  {
    hide Sum;
    SumAppend(handles, OwnedBit(r), handle);
    SumAppend(handles, DeletedBit(r), handle);
  }

  lemma CountedOnce(handles: seq<Handle>, h: nat, r: nat)
    requires h < |handles|
    ensures Owns(handles[h], r) ==> Owners(handles, r) > 0
    ensures Deletes(handles[h], r) ==> Deleters(handles, r) > 0
  {
    CountsUpdate(handles, h, Gone, r);
  }

  lemma NobodyCounted(handles: seq<Handle>, r: nat)
    requires forall h | 0 <= h < |handles| :: !Owns(handles[h], r) && !Deletes(handles[h], r)
    ensures Owners(handles, r) == 0 && Deleters(handles, r) == 0
  {
    hide Sum;
    SumUniform(handles, OwnedBit(r), 0);
    SumUniform(handles, DeletedBit(r), 0);
  }

  // ---- The invariant

  /** The counter is the number of owners; the block is freed, or one handle is about to free it, exactly when the
      counter is zero.  */
  ghost predicate CountExact(s: Heap, r: nat)
    requires r < |s.reps|
  {
    && s.reps[r].refCnt == Owners(s.handles, r)
    && Deleters(s.handles, r) + (if s.reps[r].freed then 1 else 0) == (if s.reps[r].refCnt == 0 then 1 else 0)
  }

  predicate PointersInRange(s: Heap) {
    forall h | 0 <= h < |s.handles| ::
      match s.handles[h]
      case Settled(rep) => rep.Some? ==> rep.value < |s.reps|
      case Releasing(rep, _) => rep.Some? ==> rep.value < |s.reps|
      case Deleting(r, _) => r < |s.reps|
      case Copying(r, _) => r < |s.reps|
      case Stealing(rep, _) => rep.Some? ==> rep.value < |s.reps|
      case Cleared(next) => next != Destroy
      case _ => true
  }

  /** Sources stay settled while they are needed, and nobody else uses the source of a move. */
  predicate SourcesPinned(handles: seq<Handle>) {
    && (forall h | 0 <= h < |handles| && SourceOf(handles[h]).Some? ::
          var (src, move) := SourceOf(handles[h]).value;
          && src < |handles| && src != h && handles[src].Settled?
          && (!move ==> handles[src].rep.Some?)
          && (handles[h].Copying? ==> handles[src].rep == Some(handles[h].copied))
          && (handles[h].Stealing? ==> handles[src].rep == handles[h].taken))
    && (forall g, h | 0 <= g < |handles| && 0 <= h < |handles| && g != h
                      && SourceOf(handles[g]).Some? && SourceOf(handles[h]).Some? && SourceOf(handles[g]).value.1 ::
          SourceOf(handles[g]).value.0 != SourceOf(handles[h]).value.0)
  }

  ghost predicate CountsExact(s: Heap) {
    forall r | 0 <= r < |s.reps| :: CountExact(s, r)
  }

  ghost predicate Inv(s: Heap) {
    && CountsExact(s)
    && PointersInRange(s)
    && SourcesPinned(s.handles)
  }

  lemma InitInv()
    ensures Inv(Heap([], []))
  {}

  /** In a safe state every enabled step finds its pointers and sources in place. */
  lemma EnabledIsSafe(s: Heap, step: Step)
    requires Inv(s) && Enabled(s, step)
    ensures Safe(s, step)
  {
    if step.ReadSource? || step.NullSource? {
      assert SourceOf(s.handles[step.h]).Some?;
    }
  }

  // ---- Sources

  /** A handle moves on within its operation, or ends it; it was nobody's source. */
  lemma MoveOnKeepsPins(handles: seq<Handle>, h: nat, handle: Handle)
    requires SourcesPinned(handles) && h < |handles| && !handles[h].Settled?
    requires SourceOf(handle) == SourceOf(handles[h]) || SourceOf(handle) == None
    requires handle.Copying? ==> handle.src < |handles| && handles[handle.src] == Settled(Some(handle.copied))
    requires handle.Stealing? ==> handle.src < |handles| && handles[handle.src] == Settled(handle.taken)
    ensures SourcesPinned(handles[h := handle])
  {
    var after := handles[h := handle];
    assert forall g | 0 <= g < |handles| && SourceOf(after[g]).Some? :: SourceOf(handles[g]) == SourceOf(after[g]);
  }

  lemma AssignKeepsPins(s: Heap, h: nat, next: Next)
    requires SourcesPinned(s.handles) && Enabled(s, BeginAssign(h, next))
    ensures SourcesPinned(s.handles[h := Releasing(s.handles[h].rep, next)])
  {
    var after := s.handles[h := Releasing(s.handles[h].rep, next)];
    assert forall g | 0 <= g < |after| && g != h :: after[g] == s.handles[g];
    assert SourceOf(after[h]) == SourceOfNext(next);
  }

  lemma BeginKeepsPins(s: Heap, next: Next)
    requires SourcesPinned(s.handles) && SourceAllowed(s, next) && next != Destroy
    ensures SourcesPinned(s.handles + [Cleared(next)])
  {
    var after := s.handles + [Cleared(next)];
    assert forall g | 0 <= g < |s.handles| :: after[g] == s.handles[g];
    assert SourceOf(after[|s.handles|]) == SourceOfNext(next);
  }

  lemma NewKeepsPins(handles: seq<Handle>, r: nat)
    requires SourcesPinned(handles)
    ensures SourcesPinned(handles + [Settled(Some(r))])
  {
    var after := handles + [Settled(Some(r))];
    assert forall g | 0 <= g < |handles| :: after[g] == handles[g];
  }

  lemma StolenKeepsPins(handles: seq<Handle>, h: nat)
    requires SourcesPinned(handles) && h < |handles| && handles[h].Stealing?
    ensures handles[h].src < |handles| && handles[h].src != h && handles[handles[h].src] == Settled(handles[h].taken)
    ensures SourcesPinned(handles[h := Settled(handles[h].taken)][handles[h].src := Settled(None)])
  {
    assert SourceOf(handles[h]) == Some((handles[h].src, true));
    var after := handles[h := Settled(handles[h].taken)][handles[h].src := Settled(None)];
    assert forall g | 0 <= g < |handles| && SourceOf(after[g]).Some? :: after[g] == handles[g] && g != h;
  }

  // ---- Counters

  /** A handle moves on without a change of ownership. */
  lemma MoveOnKeepsCounts(s: Heap, h: nat, handle: Handle)
    requires CountsExact(s) && h < |s.handles|
    requires forall r: nat ::
               (Owns(handle, r) <==> Owns(s.handles[h], r)) && (Deletes(handle, r) <==> Deletes(s.handles[h], r))
    ensures CountsExact(s.(handles := s.handles[h := handle]))
  {
    var t := s.(handles := s.handles[h := handle]);
    forall r | 0 <= r < |s.reps| ensures CountExact(t, r) {
      assert CountExact(s, r);
      CountsUpdate(s.handles, h, handle, r);
    }
  }

  lemma AppendKeepsCounts(s: Heap, next: Next)
    requires CountsExact(s)
    ensures CountsExact(s.(handles := s.handles + [Cleared(next)]))
  {
    var t := s.(handles := s.handles + [Cleared(next)]);
    forall r | 0 <= r < |s.reps| ensures CountExact(t, r) {
      assert CountExact(s, r);
      CountsAppend(s.handles, Cleared(next), r);
    }
  }

  lemma NewKeepsCounts(s: Heap, str: string)
    requires CountsExact(s) && PointersInRange(s)
    ensures CountsExact(Heap(s.reps + [Rep(str, 1, false)], s.handles + [Settled(Some(|s.reps|))]))
  {
    var n := |s.reps|;
    var t := Heap(s.reps + [Rep(str, 1, false)], s.handles + [Settled(Some(n))]);
    NobodyCounted(s.handles, n);
    forall r | 0 <= r < |t.reps| ensures CountExact(t, r) {
      assert r < n ==> CountExact(s, r);
      CountsAppend(s.handles, Settled(Some(n)), r);
    }
  }

  lemma ReleaseKeepsCounts(s: Heap, h: nat)
    requires CountsExact(s) && Safe(s, Release(h))
    ensures CountsExact(ReleaseStep(s, h))
    ensures s.handles[h].rep.Some? ==>
              s.reps[s.handles[h].rep.value].refCnt > 0 && !s.reps[s.handles[h].rep.value].freed
  {
    var t := ReleaseStep(s, h);
    if s.handles[h].rep.Some? {
      assert CountExact(s, s.handles[h].rep.value);
      CountedOnce(s.handles, h, s.handles[h].rep.value);
    }
    forall r | 0 <= r < |s.reps| ensures CountExact(t, r) {
      assert CountExact(s, r);
      CountsUpdate(s.handles, h, t.handles[h], r);
    }
  }

  lemma DeleteKeepsCounts(s: Heap, h: nat)
    requires CountsExact(s) && Safe(s, Delete(h))
    ensures CountsExact(Apply(s, Delete(h)))
    ensures !s.reps[s.handles[h].victim].freed && s.reps[s.handles[h].victim].refCnt == 0
  {
    var t := Apply(s, Delete(h));
    assert CountExact(s, s.handles[h].victim);
    CountedOnce(s.handles, h, s.handles[h].victim);
    forall r | 0 <= r < |s.reps| ensures CountExact(t, r) {
      assert CountExact(s, r);
      CountsUpdate(s.handles, h, t.handles[h], r);
    }
  }

  /** The source of the copy keeps the counter above zero until it is raised. */
  lemma FetchAddKeepsCounts(s: Heap, h: nat)
    requires CountsExact(s) && Safe(s, FetchAdd(h))
    requires s.handles[h].src < |s.handles| && s.handles[s.handles[h].src] == Settled(Some(s.handles[h].copied))
    ensures CountsExact(Apply(s, FetchAdd(h)))
    ensures !s.reps[s.handles[h].copied].freed && s.reps[s.handles[h].copied].refCnt > 0
  {
    var t := Apply(s, FetchAdd(h));
    assert CountExact(s, s.handles[h].copied);
    CountedOnce(s.handles, s.handles[h].src, s.handles[h].copied);
    forall r | 0 <= r < |s.reps| ensures CountExact(t, r) {
      assert CountExact(s, r);
      CountsUpdate(s.handles, h, t.handles[h], r);
    }
  }

  lemma NullSourceKeepsCounts(s: Heap, h: nat)
    requires CountsExact(s) && Safe(s, NullSource(h))
    requires s.handles[h].src != h && s.handles[s.handles[h].src] == Settled(s.handles[h].taken)
    ensures CountsExact(Apply(s, NullSource(h)))
  {
    var t := Apply(s, NullSource(h));
    var src, taken := s.handles[h].src, s.handles[h].taken;
    forall r | 0 <= r < |s.reps| ensures CountExact(t, r) {
      assert CountExact(s, r);
      CountsUpdate(s.handles, h, Settled(taken), r);
      CountsUpdate(s.handles[h := Settled(taken)], src, Settled(None), r);
    }
  }

  // ---- Every step

  lemma BeginKeepsInv(s: Heap, step: Step)
    requires Inv(s) && Enabled(s, step) && Safe(s, step)
    requires step.New? || step.BeginCopy? || step.BeginMove? || step.BeginAssign?
    ensures Inv(Apply(s, step))
  {
    hide CountsExact, SourcesPinned, Pinned, PinnedByMove;
    match step
    case New(str) => NewKeepsCounts(s, str); NewKeepsPins(s.handles, |s.reps|);
    case BeginCopy(src) => AppendKeepsCounts(s, CopyFrom(src)); BeginKeepsPins(s, CopyFrom(src));
    case BeginMove(src) => AppendKeepsCounts(s, MoveFrom(src)); BeginKeepsPins(s, MoveFrom(src));
    case BeginAssign(h, next) =>
      MoveOnKeepsCounts(s, h, Releasing(s.handles[h].rep, next));
      AssignKeepsPins(s, h, next);
  }

  lemma CounterStepKeepsInv(s: Heap, step: Step)
    requires Inv(s) && Enabled(s, step) && Safe(s, step)
    requires step.Release? || step.Delete? || step.FetchAdd?
    ensures Inv(Apply(s, step))
    ensures Touched(s, step).Some? ==>
              Touched(s, step).value < |s.reps| && !s.reps[Touched(s, step).value].freed
  {
    hide CountsExact, SourcesPinned;
    match step
    case Release(h) =>
      ReleaseKeepsCounts(s, h);
      MoveOnKeepsPins(s.handles, h, ReleaseStep(s, h).handles[h]);
    case Delete(h) =>
      DeleteKeepsCounts(s, h);
      MoveOnKeepsPins(s.handles, h, Clearing(s.handles[h].next));
    case FetchAdd(h) =>
      CopySourceHeld(s, h);
      FetchAddKeepsCounts(s, h);
      MoveOnKeepsPins(s.handles, h, Settled(Some(s.handles[h].copied)));
  }

  lemma CopySourceHeld(s: Heap, h: nat)
    requires SourcesPinned(s.handles) && h < |s.handles| && s.handles[h].Copying?
    ensures s.handles[h].src < |s.handles| && s.handles[s.handles[h].src] == Settled(Some(s.handles[h].copied))
  {
    assert SourceOf(s.handles[h]) == Some((s.handles[h].src, false));
  }

  lemma PointerStepKeepsInv(s: Heap, step: Step)
    requires Inv(s) && Enabled(s, step) && Safe(s, step)
    requires step.Null? || step.ReadSource? || step.NullSource?
    ensures Inv(Apply(s, step))
  {
    hide CountsExact, SourcesPinned;
    match step
    case Null(h) =>
      var handle := if s.handles[h].next == Destroy then Gone else Cleared(s.handles[h].next);
      MoveOnKeepsCounts(s, h, handle);
      MoveOnKeepsPins(s.handles, h, handle);
    case ReadSource(h) =>
      MoveOnKeepsCounts(s, h, ReadStep(s, h).handles[h]);
      MoveOnKeepsPins(s.handles, h, ReadStep(s, h).handles[h]);
    case NullSource(h) =>
      StolenKeepsPins(s.handles, h);
      NullSourceKeepsCounts(s, h);
  }

  /** Every step keeps every counter exact and touches only blocks that have not been freed. */
  lemma StepKeepsInv(s: Heap, step: Step)
    requires Inv(s) && Enabled(s, step)
    ensures Safe(s, step) && Inv(Apply(s, step))
    ensures Touched(s, step).Some? ==>
              Touched(s, step).value < |s.reps| && !s.reps[Touched(s, step).value].freed
  {
    hide Inv, Apply;
    EnabledIsSafe(s, step);
    if step.Release? || step.Delete? || step.FetchAdd? {
      CounterStepKeepsInv(s, step);
    } else if step.Null? || step.ReadSource? || step.NullSource? {
      PointerStepKeepsInv(s, step);
    } else {
      BeginKeepsInv(s, step);
    }
  }

  /** A block is freed, or about to be, exactly when no handle owns a share of it; a settled handle's block is
      therefore alive, and the counter is the number of owners.  */
  lemma FreedWhenUnowned(s: Heap, r: nat)
    requires Inv(s) && r < |s.reps|
    ensures s.reps[r].refCnt == Owners(s.handles, r)
    ensures s.reps[r].freed || Deleters(s.handles, r) == 1 <==> Owners(s.handles, r) == 0
    ensures !(s.reps[r].freed && Deleters(s.handles, r) > 0)
    ensures forall h | 0 <= h < |s.handles| && s.handles[h] == Settled(Some(r)) :: !s.reps[r].freed
  {
    assert CountExact(s, r);
    forall h | 0 <= h < |s.handles| && s.handles[h] == Settled(Some(r)) ensures !s.reps[r].freed {
      CountedOnce(s.handles, h, r);
    }
  }

  /** When every handle has been destroyed or emptied, every block has been freed. */
  lemma NothingLeaks(s: Heap)
    requires Inv(s)
    requires forall h | 0 <= h < |s.handles| :: s.handles[h] == Gone || s.handles[h] == Settled(None)
    ensures forall r | 0 <= r < |s.reps| :: s.reps[r].freed
  {
    forall r | 0 <= r < |s.reps| ensures s.reps[r].freed {
      assert CountExact(s, r);
      NobodyCounted(s.handles, r);
    }
  }

  /** A finished copy shares the block, and so the text, of its source. */
  lemma CopySharesText(s: Heap, h: nat)
    requires Inv(s) && Enabled(s, FetchAdd(h))
    ensures var t := Apply(s, FetchAdd(h));
            && s.handles[h].src < |t.handles| && t.handles[h] == t.handles[s.handles[h].src]
            && t.handles[h].rep.Some? && t.handles[h].rep.value < |t.reps|
            && t.reps[t.handles[h].rep.value].str == s.reps[s.handles[h].copied].str
  {
    EnabledIsSafe(s, FetchAdd(h));
    CopySourceHeld(s, h);
  }

  // ---- Runs

  ghost predicate Legal(s: Heap, steps: seq<Step>)
    decreases |steps|
  {
    steps == [] || (Enabled(s, steps[0]) && Safe(s, steps[0]) && Legal(Apply(s, steps[0]), steps[1..]))
  }

  ghost function Exec(s: Heap, steps: seq<Step>): Heap
    requires Legal(s, steps)
    decreases |steps|
  {
    if steps == [] then s else Exec(Apply(s, steps[0]), steps[1..])
  }

  /** How often a run deletes block `r`. */
  ghost function Deletions(s: Heap, steps: seq<Step>, r: nat): nat
    requires Legal(s, steps)
    decreases |steps|
  {
    if steps == [] then 0
    else (if steps[0].Delete? && s.handles[steps[0].h].victim == r then 1 else 0)
         + Deletions(Apply(s, steps[0]), steps[1..], r)
  }

  function FreedBit(s: Heap, r: nat): nat {
    if r < |s.reps| && s.reps[r].freed then 1 else 0
  }

  lemma StepFrees(s: Heap, step: Step, r: nat)
    requires Inv(s) && Enabled(s, step) && Safe(s, step)
    ensures FreedBit(Apply(s, step), r)
            == FreedBit(s, r) + (if step.Delete? && s.handles[step.h].victim == r then 1 else 0)
  {
    hide Inv;
    StepKeepsInv(s, step);
  }

  /** Over any run from any good heap a block is deleted at most once: once if it is freed during the run. */
  lemma {:induction false} FreedOnce(s: Heap, steps: seq<Step>, r: nat)
    requires Inv(s) && Legal(s, steps)
    ensures Inv(Exec(s, steps))
    ensures Deletions(s, steps, r) == FreedBit(Exec(s, steps), r) - FreedBit(s, r)
    decreases |steps|
  {
    hide Inv, Enabled, Safe, Apply, FreedBit;
    if steps == [] {
    } else {
      StepKeepsInv(s, steps[0]);
      StepFrees(s, steps[0], r);
      FreedOnce(Apply(s, steps[0]), steps[1..], r);
    }
  }
}
