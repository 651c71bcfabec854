/** The shared blocks and their handles as mutable state: one method per access to a counter or a pointer. */
module ArcStringObject {
  import opened Options
  import opened ArcStrings

  class SharedStrings {
    var reps: seq<Rep>
    var handles: seq<Handle>

    ghost function View(): Heap
      reads this
    {
      Heap(reps, handles)
    }

    ghost predicate Valid()
      reads this
    {
      Inv(View())
    }

    constructor ()
      ensures Valid() && View() == Heap([], [])
    {
      reps, handles := [], [];
      new;
      InitInv();
    }

    /** The constructors from a text: a new block whose counter starts at 1. */
    method Construct(str: string) returns (h: nat)
      requires Valid()
      modifies this
      ensures Valid() && h == |old(handles)| && View() == Apply(old(View()), New(str))
    {
      hide Inv;
      StepKeepsInv(View(), New(str));
      h := |handles|;
      handles := handles + [Settled(Some(|reps|))];
      reps := reps + [Rep(str, 1, false)];
    }

    method CopyConstruct(src: nat) returns (h: nat)
      requires Valid() && Enabled(View(), BeginCopy(src))
      modifies this
      ensures Valid() && h == |old(handles)| && View() == Apply(old(View()), BeginCopy(src))
    {
      hide Inv;
      StepKeepsInv(View(), BeginCopy(src));
      h := |handles|;
      handles := handles + [Cleared(CopyFrom(src))];
    }

    method MoveConstruct(src: nat) returns (h: nat)
      requires Valid() && Enabled(View(), BeginMove(src))
      modifies this
      ensures Valid() && h == |old(handles)| && View() == Apply(old(View()), BeginMove(src))
    {
      hide Inv;
      StepKeepsInv(View(), BeginMove(src));
      h := |handles|;
      handles := handles + [Cleared(MoveFrom(src))];
    }

    /** The destructor and the assignments all begin with release(). */
    method Assign(h: nat, next: Next)
      requires Valid() && Enabled(View(), BeginAssign(h, next))
      modifies this
      ensures Valid() && View() == Apply(old(View()), BeginAssign(h, next))
    {
      hide Inv;
      StepKeepsInv(View(), BeginAssign(h, next));
      handles := handles[h := Releasing(handles[h].rep, next)];
    }

    method ReleaseShare(h: nat)
      requires Valid() && h < |handles| && handles[h].Releasing?
      modifies this
      ensures Valid() && Safe(old(View()), Release(h)) && View() == Apply(old(View()), Release(h))
    {
      hide Inv;
      StepKeepsInv(View(), Release(h));
      var next := handles[h].next;
      match handles[h].rep {
        case None =>
          handles := handles[h := Clearing(next)];
        case Some(r) =>
          var before := reps[r].refCnt;
          reps := reps[r := reps[r].(refCnt := before - 1)];
          handles := handles[h := if before == 1 then Deleting(r, next) else Clearing(next)];
      }
    }

    /** The block is alive when it is deleted. */
    method DeleteBlock(h: nat)
      requires Valid() && h < |handles| && handles[h].Deleting?
      modifies this
      ensures Valid() && Safe(old(View()), Delete(h)) && View() == Apply(old(View()), Delete(h))
      ensures !old(reps)[old(handles)[h].victim].freed && reps[old(handles)[h].victim].freed
    {
      hide Inv;
      StepKeepsInv(View(), Delete(h));
      var r := handles[h].victim;
      reps := reps[r := reps[r].(freed := true)];
      handles := handles[h := Clearing(handles[h].next)];
    }

    method NullPointer(h: nat)
      requires Valid() && h < |handles| && handles[h].Clearing?
      modifies this
      ensures Valid() && Safe(old(View()), Null(h)) && View() == Apply(old(View()), Null(h))
    {
      hide Inv;
      StepKeepsInv(View(), Null(h));
      handles := handles[h := if handles[h].next == Destroy then Gone else Cleared(handles[h].next)];
    }

    method ReadPointer(h: nat)
      requires Valid() && h < |handles| && handles[h].Cleared?
      modifies this
      ensures Valid() && Safe(old(View()), ReadSource(h)) && View() == Apply(old(View()), ReadSource(h))
    {
      hide Inv;
      StepKeepsInv(View(), ReadSource(h));
      match handles[h].next {
        case CopyFrom(src) => handles := handles[h := Copying(handles[src].rep.value, src)];
        case MoveFrom(src) => handles := handles[h := Stealing(handles[src].rep, src)];
      }
    }

    method AddShare(h: nat)
      requires Valid() && h < |handles| && handles[h].Copying?
      modifies this
      ensures Valid() && Safe(old(View()), FetchAdd(h)) && View() == Apply(old(View()), FetchAdd(h))
    {
      hide Inv;
      StepKeepsInv(View(), FetchAdd(h));
      var r := handles[h].copied;
      reps := reps[r := reps[r].(refCnt := reps[r].refCnt + 1)];
      handles := handles[h := Settled(Some(r))];
    }

    method EmptySource(h: nat)
      requires Valid() && h < |handles| && handles[h].Stealing?
      modifies this
      ensures Valid() && Safe(old(View()), NullSource(h)) && View() == Apply(old(View()), NullSource(h))
    {
      hide Inv;
      StepKeepsInv(View(), NullSource(h));
      var src := handles[h].src;
      handles := handles[h := Settled(handles[h].taken)];
      handles := handles[src := Settled(None)];
    }

    /** `string()`, which asserts that the handle is not empty. */
    method Text(h: nat) returns (str: string)
      requires Valid() && h < |handles| && handles[h].Settled? && handles[h].rep.Some?
      ensures handles[h].rep.value < |reps| && str == reps[handles[h].rep.value].str
      ensures !reps[handles[h].rep.value].freed
    {
      FreedWhenUnowned(View(), handles[h].rep.value);
      str := reps[handles[h].rep.value].str;
    }

    // ---- The operations of the source, when no other thread comes in between

    /** release(): the handle's share goes, and the block with it if the share was the last. */
    method FinishRelease(h: nat)
      requires Valid() && h < |handles| && handles[h].Releasing?
      modifies this
      ensures Valid() && reps == Released(old(reps), old(handles)[h].rep)
      ensures var next := old(handles)[h].next;
              handles == old(handles)[h := if next == Destroy then Gone else Cleared(next)]
    {
      hide Inv;
      ReleaseShare(h);
      if handles[h].Deleting? {
        DeleteBlock(h);
      }
      NullPointer(h);
    }

    /** The destructor. */
    method Drop(h: nat)
      requires Valid() && Enabled(View(), BeginAssign(h, Destroy))
      modifies this
      ensures Valid() && handles == old(handles)[h := Gone] && reps == Released(old(reps), old(handles)[h].rep)
    {
      hide Inv;
      Assign(h, Destroy);
      FinishRelease(h);
    }

    /** The copy constructor. */
    method NewCopy(src: nat) returns (h: nat)
      requires Valid() && Enabled(View(), BeginCopy(src))
      modifies this
      ensures Valid() && h == |old(handles)| && handles == old(handles) + [old(handles)[src]]
      ensures reps == Shared(old(reps), old(handles)[src].rep)
    {
      hide Inv;
      h := CopyConstruct(src);
      FinishCopy(h, src);
    }

    /** The move constructor. */
    method NewMoved(src: nat) returns (h: nat)
      requires Valid() && Enabled(View(), BeginMove(src))
      modifies this
      ensures Valid() && h == |old(handles)| && handles == old(handles)[src := Settled(None)] + [old(handles)[src]]
      ensures reps == old(reps)
    {
      hide Inv;
      h := MoveConstruct(src);
      FinishMove(h, src);
    }

    method CopyAssign(h: nat, src: nat)
      requires Valid() && Enabled(View(), BeginAssign(h, CopyFrom(src)))
      modifies this
      ensures Valid() && handles == old(handles)[h := old(handles)[src]]
      ensures reps == Shared(Released(old(reps), old(handles)[h].rep), old(handles)[src].rep)
    {
      hide Inv;
      Assign(h, CopyFrom(src));
      FinishRelease(h);
      FinishCopy(h, src);
    }

    method MoveAssign(h: nat, src: nat)
      requires Valid() && Enabled(View(), BeginAssign(h, MoveFrom(src)))
      modifies this
      ensures Valid() && handles == old(handles)[h := old(handles)[src]][src := Settled(None)]
      ensures reps == Released(old(reps), old(handles)[h].rep)
    {
      hide Inv;
      Assign(h, MoveFrom(src));
      FinishRelease(h);
      FinishMove(h, src);
    }

    method FinishCopy(h: nat, src: nat)
      requires Valid() && h < |handles| && handles[h] == Cleared(CopyFrom(src))
      requires src < |handles| && src != h && handles[src].Settled? && handles[src].rep.Some?
      modifies this
      ensures Valid() && handles == old(handles)[h := old(handles)[src]]
      ensures reps == Shared(old(reps), old(handles)[src].rep)
    {
      hide Inv;
      ReadPointer(h);
      AddShare(h);
    }

    method FinishMove(h: nat, src: nat)
      requires Valid() && h < |handles| && handles[h] == Cleared(MoveFrom(src))
      requires src < |handles| && src != h && handles[src].Settled?
      modifies this
      ensures Valid() && handles == old(handles)[h := old(handles)[src]][src := Settled(None)]
      ensures reps == old(reps)
    {
      hide Inv;
      ReadPointer(h);
      EmptySource(h);
    }
  }

  /** The blocks after a share of one of them has gone. */
  function Released(reps: seq<Rep>, rep: Option<nat>): seq<Rep> {
    if rep.None? || rep.value >= |reps| then reps
    else
      var block := reps[rep.value];
      reps[rep.value := Rep(block.str, block.refCnt - 1, block.freed || block.refCnt == 1)]
  }

  /** The blocks after one of them has gained a share. */
  function Shared(reps: seq<Rep>, rep: Option<nat>): seq<Rep> {
    if rep.None? || rep.value >= |reps| then reps
    else reps[rep.value := reps[rep.value].(refCnt := reps[rep.value].refCnt + 1)]
  }

  // ---- Whole scenarios

  /** The text of a handle constructed from a text. */
  method TextOf(str: string) returns (text: string)
    ensures text == str
  {
    hide Inv;
    var strings := new SharedStrings();
    var a := strings.Construct(str);
    text := strings.Text(a);
  }

  /** The text of a copy that has outlived its source. */
  method TextOfCopy(str: string) returns (text: string)
    ensures text == str
  {
    hide Inv;
    var strings := new SharedStrings();
    var a := strings.Construct(str);
    var b := strings.NewCopy(a);
    strings.Drop(a);
    text := strings.Text(b);
  }

  /** A move hands the text over and leaves its source empty. */
  method TextOfMoved(str: string) returns (text: string, emptied: bool)
    ensures text == str && emptied
  {
    hide Inv;
    var strings := new SharedStrings();
    var a := strings.Construct(str);
    var b := strings.NewMoved(a);
    text := strings.Text(b);
    emptied := strings.handles[a] == Settled(None);
  }

  /** Copy assignment frees the block of a target that was its only owner, and not the one it copies. */
  method TextOfAssigned(replaced: string, str: string) returns (text: string, freed: bool, kept: bool)
    ensures text == str && freed && kept
  {
    hide Inv;
    var strings := new SharedStrings();
    var a := strings.Construct(replaced);
    var b := strings.Construct(str);
    strings.CopyAssign(a, b);
    text := strings.Text(a);
    freed, kept := strings.reps[0].freed, !strings.reps[1].freed;
  }
}
