/** The ring buffer of `clst/clst/ring_buffer.hpp`: cyclic indexing over raw storage.  A slot of the storage is raw or
    holds a live object; constructing needs a raw slot, destroying a live one.  */
module RingBuffers {
  import opened Options

  datatype Slot<+T> = Raw | Live(value: T)

  // ---- The list that a buffer stands for

  function Pushed<T>(xs: seq<T>, max: nat, v: T): seq<T> {
    if |xs| == max then xs else xs + [v]
  }

  function PushedOver<T>(xs: seq<T>, max: nat, v: T): seq<T> {
    if |xs| == max && xs != [] then xs[1..] + [v] else xs + [v]
  }

  function AllPushedOver<T>(xs: seq<T>, max: nat, vs: seq<T>): seq<T>
    decreases |vs|
  {
    if vs == [] then xs else AllPushedOver(PushedOver(xs, max, vs[0]), max, vs[1..])
  }

  function LastOf<T>(xs: seq<T>, n: nat): seq<T> {
    if |xs| <= n then xs else xs[|xs| - n..]
  }

  /** What an overwriting push forgets would not have lasted anyway. */
  lemma PushedOverSuffix<T>(xs: seq<T>, max: nat, v: T, rest: seq<T>)
    requires 0 < max && |xs| <= max
    ensures LastOf(PushedOver(xs, max, v) + rest, max) == LastOf(xs + ([v] + rest), max)
  {
    assert xs + ([v] + rest) == (xs + [v]) + rest;
    if |xs| == max {
      assert PushedOver(xs, max, v) + rest == (xs + ([v] + rest))[1..];
    } else {
      assert PushedOver(xs, max, v) == xs + [v];
    }
  }

  /** Overwriting pushes keep the newest values, as many as fit. */
  lemma {:induction false} OverwritingKeepsTheLast<T>(xs: seq<T>, max: nat, vs: seq<T>)
    requires 0 < max && |xs| <= max
    ensures AllPushedOver(xs, max, vs) == LastOf(xs + vs, max)
    decreases |vs|
  {
    if vs == [] {
      assert xs + vs == xs;
    } else {
      var ys := PushedOver(xs, max, vs[0]);
      OverwritingKeepsTheLast(ys, max, vs[1..]);
      assert vs == [vs[0]] + vs[1..];
      PushedOverSuffix(xs, max, vs[0], vs[1..]);
    }
  }

  // ---- Cyclic indices and windows

  /** Where slot `first + i` lies. */
  function Cyclic(first: nat, i: nat, max: nat): int {
    if first + i < max then first + i else first + i - max
  }

  lemma WrapIsCyclic(x: nat, max: nat)
    requires x < 2 * max
    ensures x % max == if x < max then x else x - max
  {
    if x >= max {
      assert (x - max + max * 1) % max == (x - max) % max;
    }
  }

  /** The place of slot `j` in the window that starts at `first`. */
  function Offset(first: nat, j: nat, max: nat): int {
    if first <= j then j - first else j - first + max
  }

  /** The live slots are exactly the cyclic window of `count` slots from `first` on. */
  ghost predicate WindowLive<T>(s: seq<Slot<T>>, first: nat, count: nat) {
    && count <= |s| && (if s == [] then first == 0 else first < |s|)
    && forall j | 0 <= j < |s| :: s[j].Live? <==> Offset(first, j, |s|) < count
  }

  ghost function Window<T>(s: seq<Slot<T>>, first: nat, count: nat): (xs: seq<T>)
    requires WindowLive(s, first, count)
    ensures |xs| == count
  {
    seq(count, i requires 0 <= i < count => s[Cyclic(first, i, |s|)].value)
  }

  lemma PushWindow<T>(s: seq<Slot<T>>, first: nat, count: nat, v: T)
    requires WindowLive(s, first, count) && count < |s|
    ensures var j := Cyclic(first, count, |s|);
            && 0 <= j < |s| && s[j].Raw?
            && WindowLive(s[j := Live(v)], first, count + 1)
            && Window(s[j := Live(v)], first, count + 1) == Window(s, first, count) + [v]
  {}

  lemma PopWindow<T>(s: seq<Slot<T>>, first: nat, count: nat)
    requires WindowLive(s, first, count) && count > 0
    ensures s[first].Live?
    ensures WindowLive(s[first := Raw], Cyclic(first, 1, |s|), count - 1)
    ensures Window(s[first := Raw], Cyclic(first, 1, |s|), count - 1) == Window(s, first, count)[1..]
  {}

  lemma PopBackWindow<T>(s: seq<Slot<T>>, first: nat, count: nat)
    requires WindowLive(s, first, count) && count > 0
    ensures var j := Cyclic(first, count - 1, |s|);
            && 0 <= j < |s| && s[j].Live?
            && WindowLive(s[j := Raw], first, count - 1)
            && Window(s[j := Raw], first, count - 1) == Window(s, first, count)[..count - 1]
  {}

  class RingBuffer<T> {
    var data: array?<Slot<T>>
    var first: nat
    var count: nat
    var max: nat
    ghost var built: nat       // objects constructed in the storage so far
    ghost var destroyed: nat   // objects destroyed so far

    /** The live slots are exactly the cyclic window, and every other object has been destroyed. */
    ghost predicate Valid()
      reads this, data
    {
      && data != null && data.Length == max
      && WindowLive(data[..], first, count)
      && built == destroyed + count
    }

    /** The view i -> data[(first_ + i) % max_]. */
    ghost function Contents(): (xs: seq<T>)
      reads this, data
      requires Valid()
      ensures |xs| == count
    {
      Window(data[..], first, count)
    }

    constructor (max: nat)
      ensures Valid() && fresh(data) && this.max == max && Contents() == [] && built == destroyed == 0
    {
      data := new Slot<T>[max](_ => Raw);
      first, count, this.max := 0, 0, max;
      built, destroyed := 0, 0;
    }

    method Construct(j: nat, v: T)
      requires data != null && j < data.Length && data[j].Raw?
      modifies data, this`built
      ensures data[..] == old(data[..])[j := Live(v)] && built == old(built) + 1
    {
      data[j] := Live(v);
      built := built + 1;
    }

    method Destroy(j: nat)
      requires data != null && j < data.Length && data[j].Live?
      modifies data, this`destroyed
      ensures data[..] == old(data[..])[j := Raw] && destroyed == old(destroyed) + 1
    {
      data[j] := Raw;
      destroyed := destroyed + 1;
    }

    method Push(v: T) returns (ok: bool)
      requires Valid()
      modifies this, data
      ensures Valid() && data == old(data) && max == old(max)
      ensures ok <==> old(count) < max
      ensures Contents() == Pushed(old(Contents()), max, v) && destroyed == old(destroyed)
    {
      if count == max {
        return false;
      }
      PushWindow(data[..], first, count, v);
      WrapIsCyclic(first + count, max);
      Construct((first + count) % max, v);
      count := count + 1;
      ok := true;
    }

    method PushOverwrite(v: T)
      requires Valid() && max > 0
      modifies this, data
      ensures Valid() && data == old(data) && max == old(max)
      ensures Contents() == PushedOver(old(Contents()), max, v)
      ensures destroyed == old(destroyed) + (if old(count) == max then 1 else 0)
    {
      assert count <= max;
      hide Window, WindowLive;
      if count == max {
        Pop();
      }
      PushWindow(data[..], first, count, v);
      WrapIsCyclic(first + count, max);
      Construct((first + count) % max, v);
      count := count + 1;
    }

    /** Returns the index of the new object, which is the last of the window. */
    method Emplace(v: T) returns (ptr: nat)
      requires Valid() && max > 0
      modifies this, data
      ensures Valid() && data == old(data) && max == old(max)
      ensures Contents() == PushedOver(old(Contents()), max, v)
      ensures destroyed == old(destroyed) + (if old(count) == max then 1 else 0)
      ensures ptr < data.Length && ptr == Cyclic(first, count - 1, max) && data[ptr] == Live(v)
    {
      assert count <= max;
      hide Window, WindowLive;
      if count == max {
        Pop();
      }
      PushWindow(data[..], first, count, v);
      WrapIsCyclic(first + count, max);
      ptr := (first + count) % max;
      Construct(ptr, v);
      count := count + 1;
      assert data[ptr] == data[..][ptr];
    }

    method Pop()
      requires Valid() && count > 0
      modifies this, data
      ensures Valid() && data == old(data) && max == old(max) && count == old(count) - 1
      ensures Contents() == old(Contents())[1..] && destroyed == old(destroyed) + 1
    {
      PopWindow(data[..], first, count);
      WrapIsCyclic(first + 1, max);
      Destroy(first);
      first := (first + 1) % max;
      count := count - 1;
    }

    method PopBack()
      requires Valid() && count > 0
      modifies this, data
      ensures Valid() && data == old(data) && max == old(max)
      ensures Contents() == old(Contents())[..old(count) - 1] && destroyed == old(destroyed) + 1
    {
      PopBackWindow(data[..], first, count);
      WrapIsCyclic(first + count - 1, max);
      Destroy((first + count - 1) % max);
      count := count - 1;
    }

    /** None stands for the out_of_range exception. */
    method At(i: nat) returns (r: Option<T>)
      requires Valid()
      ensures r == if i < count then Some(Contents()[i]) else None
    {
      if i >= count {
        return None;
      }
      WrapIsCyclic(first + i, max);
      assert data[..][Cyclic(first, i, max)].Live?;
      r := Some(data[(first + i) % max].value);
    }

    /** The loop of `clear` as it is written: its bound shrinks with `count`, so it stops half way. */
    method Clear()
      requires Valid()
      modifies data, this`count, this`destroyed
      ensures count == old(count) / 2
      ensures destroyed == old(destroyed) + (old(count) + 1) / 2
      ensures |data[..]| == max && forall j | 0 <= j < max ::
                data[j].Live? <==> (old(count) + 1) / 2 <= Offset(first, j, max) < old(count)
      ensures Valid() <==> old(count) <= 1
      ensures Valid() ==> Contents() == []
    {
      var i := first;
      while i < first + count
        invariant first <= i && i - first == old(count) - count <= old(count) && 2 * (i - first) <= old(count) + 1
        invariant destroyed == old(destroyed) + (i - first)
        invariant forall j | 0 <= j < max :: data[j].Live? <==> i - first <= Offset(first, j, max) < old(count)
        decreases first + count - i
      {
        WrapIsCyclic(i, max);
        Destroy(i % max);
        count := count - 1;
        i := i + 1;
      }
      if old(count) > 1 {
        assert !data[..][first].Live?;
      }
    }

    /** The same loop with its bound fixed on entry empties the buffer. */
    method ClearAll()
      requires Valid()
      modifies data, this`count, this`destroyed
      ensures Valid() && Contents() == [] && count == 0
      ensures destroyed == old(destroyed) + old(count)
    {
      var i, end := first, first + count;
      while i < end
        invariant first <= i <= end && count == end - i
        invariant destroyed == old(destroyed) + (i - first)
        invariant forall j | 0 <= j < max :: data[j].Live? <==> i - first <= Offset(first, j, max) < old(count)
      {
        WrapIsCyclic(i, max);
        Destroy(i % max);
        count := count - 1;
        i := i + 1;
      }
    }

    /** The destructor: `leaked` objects are still alive when the storage goes. */
    method Drop() returns (ghost leaked: nat)
      requires Valid()
      modifies this, data
      ensures leaked == old(count) / 2
      ensures data == null
      ensures forall j | 0 <= j < old(max) ::
                old(data)[j].Live? <==> (old(count) + 1) / 2 <= Offset(old(first), j, old(max)) < old(count)
    {
      Clear();
      leaked := built - destroyed;
      data := null;
    }

    constructor Move(rhs: RingBuffer<T>)
      requires rhs.Valid()
      modifies rhs
      ensures Valid() && data == old(rhs.data) && max == old(rhs.max) && Contents() == old(rhs.Contents())
      ensures rhs.data == null && rhs.count == rhs.max == rhs.first == 0
    {
      data, first, count, max := rhs.data, rhs.first, rhs.count, rhs.max;
      built, destroyed := rhs.built, rhs.destroyed;
      new;
      rhs.data, rhs.count, rhs.max, rhs.first := null, 0, 0, 0;
    }

    /** Move assignment: it takes over the other buffer, and leaks what `clear` left behind in its own storage. */
    method MoveAssign(rhs: RingBuffer<T>) returns (ghost leaked: nat)
      requires Valid() && rhs.Valid() && rhs != this && rhs.data != data
      modifies this, data, rhs
      ensures Valid() && data == old(rhs.data) && max == old(rhs.max) && Contents() == old(rhs.Contents())
      ensures rhs.data == null && rhs.count == rhs.max == rhs.first == 0
      ensures leaked == old(count) / 2
      ensures forall j | 0 <= j < old(max) ::
                old(data)[j].Live? <==> (old(count) + 1) / 2 <= Offset(old(first), j, old(max)) < old(count)
    {
      Clear();
      leaked := built - destroyed;
      data, first, count, max := rhs.data, rhs.first, rhs.count, rhs.max;
      built, destroyed := rhs.built, rhs.destroyed;
      rhs.data, rhs.count, rhs.max, rhs.first := null, 0, 0, 0;
    }
  }

  // ---- Whole scenarios

  /** Any number of overwriting pushes leaves the newest values, as many as fit. */
  method PushAllOver<T>(b: RingBuffer<T>, vs: seq<T>)
    requires b.Valid() && b.max > 0
    modifies b, b.data
    ensures b.Valid() && b.data == old(b.data) && b.max == old(b.max)
    ensures b.Contents() == LastOf(old(b.Contents()) + vs, b.max)
  {
    ghost var xs := b.Contents();
    var i := 0;
    assert LastOf(xs + [], b.max) == xs by { assert xs + [] == xs; }
    while i < |vs|
      invariant i <= |vs| && b.Valid() && b.data == old(b.data) && b.max == old(b.max)
      invariant b.Contents() == LastOf(xs + vs[..i], b.max)
    {
      PushedOverLast(xs + vs[..i], b.max, vs[i]);
      assert xs + vs[..i + 1] == xs + vs[..i] + [vs[i]];
      b.PushOverwrite(vs[i]);
      i := i + 1;
    }
    assert vs[..i] == vs;
  }

  lemma PushedOverLast<T>(xs: seq<T>, max: nat, v: T)
    requires max > 0
    ensures PushedOver(LastOf(xs, max), max, v) == LastOf(xs + [v], max)
  {}

  /** A buffer that `clear` leaves unsound: of two objects one stays, and counts as live in the wrong slot. */
  method HalfCleared() returns (b: RingBuffer<int>)
    ensures fresh(b) && b.count == 1 && b.destroyed == 1 && b.built == 2 && !b.Valid()
  {
    b := new RingBuffer(2);
    var ok := b.Push(1);
    ok := b.Push(2);
    b.Clear();
  }
}
