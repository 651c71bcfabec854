/** The memory cursor of `clst/clst/memory_cursor.hpp` with the numeric and copying operations of
    `clst/clst/binary_stream.hpp`, whose static-cast calls are resolved to the members of the cursor.  */
module MemoryCursors {
  import opened Options
  import opened Arithmetic
  import opened Digits

  const PTRDIFF_MAX: nat := 0x7fff_ffff_ffff_ffff
  const CHUNK: nat := 4 * 1024 * 1024

  datatype SeekFrom = Begin | Current | End

  datatype PatchResult = Patched | SeekOutOfRange | WriteOverflow

  datatype CopyResult = Copied | ReadFailed | WriteFailed

  /** A number and the size of the type it is written from. */
  datatype Num = Num(value: int, width: nat)

  /** s with the bytes from `at` on replaced by `bytes`. */
  function Overwritten(s: seq<Byte>, at: nat, bytes: seq<Byte>): (t: seq<Byte>)
    requires at + |bytes| <= |s|
    ensures |t| == |s|
  {
    s[..at] + bytes + s[at + |bytes|..]
  }

  lemma OverwrittenReads(s: seq<Byte>, at: nat, bytes: seq<Byte>)
    requires at + |bytes| <= |s|
    ensures Overwritten(s, at, bytes)[at..at + |bytes|] == bytes
    ensures forall i | 0 <= i < |s| && !(at <= i < at + |bytes|) :: Overwritten(s, at, bytes)[i] == s[i]
  {}

  lemma OverwrittenTwice(s: seq<Byte>, at: nat, a: seq<Byte>, b: seq<Byte>)
    requires at + |a| + |b| <= |s|
    ensures Overwritten(Overwritten(s, at, a), at + |a|, b) == Overwritten(s, at, a + b)
  {}

  lemma OverwrittenAgain(s: seq<Byte>, at: nat, a: seq<Byte>, b: seq<Byte>)
    requires at + |a| <= |s| && |b| == |a|
    ensures Overwritten(Overwritten(s, at, a), at, b) == Overwritten(s, at, b)
  {}

  lemma WindowReversed(before: seq<Byte>, after: seq<Byte>, at: nat, n: nat)
    requires at + n <= |before| == |after|
    requires forall k | at <= k < at + n :: after[k] == before[2 * at + n - 1 - k]
    requires forall k | 0 <= k < |before| && !(at <= k < at + n) :: after[k] == before[k]
    ensures after == Overwritten(before, at, Reverse(before[at..at + n]))
  {}

  /** The low bytes of u put into an object, which is zeroed first if they do not fill it. */
  lemma ObjectFilled(before: seq<Byte>, u: nat, b: nat, host: Endian)
    requires b <= |before| && u < Pow256(b)
    requires b < |before| ==> before == seq(|before|, _ => 0)
    ensures Overwritten(before, LowOffset(|before|, b, host), Encoded(u, b, host)) == Encoded(u, |before|, host)
  {
    FilledObject(u, b, |before|, host);
  }

  /** The same with bytes that come in the order of the stream and are turned around if need be. */
  lemma ReadObject(before: seq<Byte>, bytes: seq<Byte>, endian: Endian, host: Endian)
    requires |bytes| <= |before|
    requires |bytes| < |before| ==> before == seq(|before|, _ => 0)
    ensures Overwritten(before, LowOffset(|before|, |bytes|, host), if endian == host then bytes else Reverse(bytes))
            == Encoded(Decoded(bytes, endian), |before|, host)
  {
    var u := Decoded(bytes, endian);
    EncodedDecoded(bytes, endian);
    hide Encoded, Decoded, Overwritten;
    OtherOrder(u, |bytes|, endian, host);
    ObjectFilled(before, u, |bytes|, host);
  }

  lemma NothingOverwritten(s: seq<Byte>, at: nat)
    requires at <= |s|
    ensures Overwritten(s, at, []) == s
  {}

  lemma SliceOfSuffix(s: seq<Byte>, from: nat, at: nat, w: nat)
    requires from + at + w <= |s|
    ensures s[from..][at..at + w] == s[from + at..from + at + w]
  {}

  /** Overwriting with a slice and then with the next one is overwriting with the two joined. */
  lemma SliceOverwritten(was: seq<Byte>, to: nat, data: seq<Byte>, from: nat, done: nat, block: seq<Byte>)
    requires from + done + |block| <= |data| && to + done + |block| <= |was|
    requires block == data[from + done..from + done + |block|]
    ensures Overwritten(Overwritten(was, to, data[from..from + done]), to + done, block)
            == Overwritten(was, to, data[from..from + done + |block|])
  {
    OverwrittenTwice(was, to, data[from..from + done], block);
    assert data[from..from + done] + block == data[from..from + done + |block|];
  }

  // ---- Chunks

  function Least(a: int, b: int): int {
    if a < b then a else b
  }

  predicate WholeChunks(done: int, chunk: nat, j: nat) {
    done == chunk * j
  }

  lemma OneMoreChunk(done: int, chunk: nat, j: nat)
    requires WholeChunks(done, chunk, j)
    ensures WholeChunks(done + chunk, chunk, j + 1)
  {}

  /** The number of bytes a chunked copy of n bytes gets across when only `room` are available: everything, or
      the whole chunks that fit.  */
  function CopiedBytes(n: nat, room: nat): nat {
    if n <= room then n
    else ChunkOf(n) * (room / ChunkOf(n))
  }

  lemma QuotientIs(room: nat, chunk: nat, j: nat)
    requires chunk * j <= room < chunk * j + chunk
    ensures room / chunk == j
  {
    var q := room / chunk;
    assert room == chunk * q + room % chunk;
    if q > j {
      MulOrder(chunk, j + 1, q);
    } else if q < j {
      MulOrder(chunk, q + 1, j);
    }
  }

  lemma LeastIs(a: int, b: int)
    ensures Least(a, b) == a <= b || Least(a, b) == b <= a
  {}

  function ChunkOf(n: nat): nat {
    Least(n, CHUNK)
  }

  /** What is copied never exceeds the room or the request, and an incomplete copy is a whole number of chunks. */
  lemma CopiedBytesFit(n: nat, room: nat)
    ensures CopiedBytes(n, room) <= room && CopiedBytes(n, room) <= n
    ensures CopiedBytes(n, room) < n ==> n > room && CopiedBytes(n, room) % ChunkOf(n) == 0
    ensures n <= CHUNK && n > room ==> CopiedBytes(n, room) == 0
    ensures n <= room ==> CopiedBytes(n, room) == n
  {
    if n > room {
      var chunk := ChunkOf(n);
      assert room == chunk * (room / chunk) + room % chunk;
      ModIs(chunk * (room / chunk), chunk, room / chunk, 0);
      if n <= CHUNK {
        QuotientIs(room, chunk, 0);
      }
    }
  }

  // ---- Lists of numbers

  function EncodeAll(items: seq<Num>, e: Endian): seq<Byte> {
    if items == [] then []
    else EncodeAll(items[..|items| - 1], e) + Encoded(items[|items| - 1].value, items[|items| - 1].width, e)
  }

  function TotalWidth(widths: seq<nat>): nat {
    if widths == [] then 0 else TotalWidth(widths[..|widths| - 1]) + widths[|widths| - 1]
  }

  function DecodeAll(bs: seq<Byte>, widths: seq<nat>, e: Endian): (values: seq<nat>)
    requires TotalWidth(widths) <= |bs|
    ensures |values| == |widths|
  {
    if widths == [] then []
    else
      var at := TotalWidth(widths[..|widths| - 1]);
      DecodeAll(bs, widths[..|widths| - 1], e) + [Decoded(bs[at..at + widths[|widths| - 1]], e)]
  }

  function Widths(items: seq<Num>): seq<nat> {
    seq(|items|, i requires 0 <= i < |items| => items[i].width)
  }

  function Residues(items: seq<Num>): seq<nat> {
    seq(|items|, i requires 0 <= i < |items| => items[i].value % Pow256(items[i].width))
  }

  lemma {:induction false} EncodedLength(items: seq<Num>, e: Endian)
    ensures |EncodeAll(items, e)| == TotalWidth(Widths(items))
  {
    if items == [] {
    } else {
      var n := |items| - 1;
      EncodedLength(items[..n], e);
      assert Widths(items)[..n] == Widths(items[..n]);
    }
  }

  lemma DecodeOneMore(bytes: seq<Byte>, widths: seq<nat>, k: nat, e: Endian)
    requires k < |widths| && TotalWidth(widths[..k]) + widths[k] <= |bytes|
    ensures TotalWidth(widths[..k + 1]) == TotalWidth(widths[..k]) + widths[k]
    ensures var at := TotalWidth(widths[..k]);
            DecodeAll(bytes, widths[..k + 1], e)
            == DecodeAll(bytes, widths[..k], e) + [Decoded(bytes[at..at + widths[k]], e)]
  {
    hide Decoded;
    var w := widths[..k + 1];
    assert w != [] && w[..k] == widths[..k] && w[k] == widths[k];
  }

  lemma EncodeOneMore(items: seq<Num>, k: nat, e: Endian)
    requires k < |items|
    ensures EncodeAll(items[..k + 1], e) == EncodeAll(items[..k], e) + Encoded(items[k].value, items[k].width, e)
  {
    hide Encoded;
    var front := items[..k + 1];
    assert front != [] && front[..k] == items[..k] && front[k] == items[k];
  }

  /** Writing one more number after the first k of a list. */
  lemma OneMoreWritten(was: seq<Byte>, at: nat, items: seq<Num>, k: nat, e: Endian)
    requires k < |items| && at + |EncodeAll(items[..k], e)| + items[k].width <= |was|
    ensures |EncodeAll(items[..k + 1], e)| == |EncodeAll(items[..k], e)| + items[k].width
    ensures var before, bytes := EncodeAll(items[..k], e), Encoded(items[k].value, items[k].width, e);
            Overwritten(Overwritten(was, at, before), at + |before|, bytes)
            == Overwritten(was, at, EncodeAll(items[..k + 1], e))
  {
    hide Encoded, EncodeAll, Overwritten;
    OverwrittenTwice(was, at, EncodeAll(items[..k], e), Encoded(items[k].value, items[k].width, e));
    EncodeOneMore(items, k, e);
  }

  /** `values` are the first numbers of the given sizes that `bytes` spell. */
  predicate Spelled(bytes: seq<Byte>, widths: seq<nat>, values: seq<nat>, e: Endian) {
    && |values| <= |widths|
    && TotalWidth(widths[..|values|]) <= |bytes|
    && values == DecodeAll(bytes, widths[..|values|], e)
  }

  lemma NothingSpelled(bytes: seq<Byte>, widths: seq<nat>, e: Endian)
    ensures Spelled(bytes, widths, [], e) && TotalWidth(widths[..0]) == 0
  {}

  lemma OneMoreSpelled(bytes: seq<Byte>, widths: seq<nat>, values: seq<nat>, v: nat, e: Endian)
    requires Spelled(bytes, widths, values, e) && |values| < |widths|
    requires var at := TotalWidth(widths[..|values|]);
             at + widths[|values|] <= |bytes| && v == Decoded(bytes[at..at + widths[|values|]], e)
    ensures Spelled(bytes, widths, values + [v], e)
    ensures TotalWidth(widths[..|values| + 1]) == TotalWidth(widths[..|values|]) + widths[|values|]
  {
    hide Decoded, DecodeAll, TotalWidth;
    DecodeOneMore(bytes, widths, |values|, e);
  }

  lemma LastSlice(a: seq<Byte>, b: seq<Byte>, c: seq<Byte>)
    ensures (a + b + c)[|a|..|a| + |b|] == b
  {}

  lemma ItemsSplit(items: seq<Num>)
    requires items != []
    ensures var n := |items| - 1;
            && Widths(items)[..n] == Widths(items[..n]) && Widths(items)[..n + 1] == Widths(items)
            && Widths(items)[n] == items[n].width
            && Residues(items) == Residues(items[..n]) + [items[n].value % Pow256(items[n].width)]
  {}

  lemma Associate(a: seq<Byte>, b: seq<Byte>, c: seq<Byte>)
    ensures a + b + c == a + (b + c)
  {}

  /** read_nums undoes write_nums on every list of numbers, whatever follows in the buffer. */
  lemma {:induction false} ListRoundTrip(items: seq<Num>, e: Endian, rest: seq<Byte>)
    ensures TotalWidth(Widths(items)) == |EncodeAll(items, e)|
    ensures DecodeAll(EncodeAll(items, e) + rest, Widths(items), e) == Residues(items)
  {
    EncodedLength(items, e);
    if items == [] {
    } else {
      var n := |items| - 1;
      var first, last := EncodeAll(items[..n], e), Encoded(items[n].value, items[n].width, e);
      ListRoundTrip(items[..n], e, last + rest);
      DecodedEncoded(items[n].value, items[n].width, e);
      assert EncodeAll(items, e) == first + last;
      EncodedLength(items[..n], e);
      hide Encoded, Decoded, EncodeAll, DecodeAll, Widths, Residues, TotalWidth;
      ItemsSplit(items);
      Associate(first, last, rest);
      DecodeOneMore(first + last + rest, Widths(items), n, e);
      LastSlice(first, last, rest);
    }
  }

  // ---- Widths and ranges

  lemma {:induction false} PrefixWidth(widths: seq<nat>, k: nat)
    requires k <= |widths|
    ensures TotalWidth(widths[..k]) <= TotalWidth(widths)
  {
    if k == |widths| {
      assert widths[..k] == widths;
    } else {
      var n := |widths| - 1;
      assert widths[..n][..k] == widths[..k];
      PrefixWidth(widths[..n], k);
    }
  }

  /** The first k items, and the next one, take no more room than all. */
  lemma ItemFits(items: seq<Num>, k: nat, e: Endian)
    requires k < |items|
    ensures |EncodeAll(items[..k], e)| + items[k].width <= TotalWidth(Widths(items))
    ensures |EncodeAll(items[..k], e)| == TotalWidth(Widths(items)[..k])
  {
    EncodedLength(items[..k], e);
    assert Widths(items)[..k] == Widths(items[..k]);
    assert Widths(items)[..k + 1][..k] == Widths(items)[..k];
    PrefixWidth(Widths(items), k + 1);
  }

  predicate FitsUnsigned(item: Num) {
    0 <= item.value < Pow256(item.width)
  }

  predicate FitsSigned(item: Num) {
    0 <= 2 * item.value + Pow256(item.width) && 2 * item.value < Pow256(item.width)
  }

  /** A residue is the number itself, read as unsigned or as two's complement according to the range it is from. */
  lemma ResidueIsValue(item: Num)
    ensures FitsUnsigned(item) ==> item.value % Pow256(item.width) == item.value
    ensures FitsSigned(item) ==> AsSigned(item.value % Pow256(item.width), item.width) == item.value
  {
    if FitsUnsigned(item) {
      UnsignedRoundTrip(item.value, item.width);
    }
    if FitsSigned(item) {
      SignedRoundTrip(item.value, item.width, LE);
      DecodedEncoded(item.value, item.width, LE);
    }
  }

  lemma OverwrittenSuffix(s: seq<Byte>, at: nat, bytes: seq<Byte>)
    requires at + |bytes| <= |s|
    ensures Overwritten(s, at, bytes)[at..] == bytes + s[at + |bytes|..]
  {}

  class MemoryCursor {
    const buf: array<Byte>
    var cursor: nat

    ghost predicate Valid()
      reads this
    {
      cursor <= buf.Length <= PTRDIFF_MAX
    }

    constructor (buf: array<Byte>)
      requires buf.Length <= PTRDIFF_MAX
      ensures Valid() && this.buf == buf && cursor == 0
    {
      this.buf := buf;
      cursor := 0;
    }

    function Remaining(): int
      reads this
    {
      buf.Length - cursor
    }

    method Tell() returns (offset: nat)
      requires Valid()
      ensures offset == cursor
    {
      offset := cursor;
    }

    /** The result false stands for the StreamIoError. */
    method Seek(offset: int, from: SeekFrom) returns (ok: bool)
      requires Valid()
      modifies this
      ensures Valid()
      ensures var base := match from case Begin => 0 case Current => old(cursor) case End => buf.Length;
              && (ok <==> 0 <= base + offset <= buf.Length && (from == End ==> offset <= 0))
              && cursor == if ok then base + offset else old(cursor)
    {
      match from {
        case Begin =>
          if offset > buf.Length || offset < 0 {
            return false;
          }
          cursor := offset;
        case Current =>
          var pos := cursor + offset;
          if pos > buf.Length || pos < 0 {
            return false;
          }
          cursor := cursor + offset;
        case End =>
          if offset < -buf.Length || offset > 0 {
            return false;
          }
          cursor := buf.Length + offset;
      }
      ok := true;
    }

    /** memcpy of n bytes to `dst` from index `at` on, or an exception. */
    method Read(dst: array<Byte>, at: nat, n: nat) returns (ok: bool)
      requires Valid() && dst != buf && at + n <= dst.Length && n <= PTRDIFF_MAX
      modifies `cursor, dst
      ensures Valid()
      ensures ok <==> n <= buf.Length - old(cursor)
      ensures ok ==> cursor == old(cursor) + n && dst[..] == Overwritten(old(dst[..]), at, buf[old(cursor)..cursor])
      ensures !ok ==> cursor == old(cursor) && dst[..] == old(dst[..])
    {
      if n > buf.Length - cursor {
        return false;
      }
      forall i | 0 <= i < n {
        dst[at + i] := buf[cursor + i];
      }
      cursor := cursor + n;
      ok := true;
    }

    method Write(src: array<Byte>, n: nat) returns (ok: bool)
      requires Valid() && src != buf && n <= src.Length && n <= PTRDIFF_MAX
      modifies `cursor, buf
      ensures Valid()
      ensures ok <==> n <= buf.Length - old(cursor)
      ensures ok ==> cursor == old(cursor) + n && buf[..] == Overwritten(old(buf[..]), old(cursor), src[..n])
      ensures !ok ==> cursor == old(cursor) && buf[..] == old(buf[..])
    {
      if n > buf.Length - cursor {
        return false;
      }
      forall i | 0 <= i < n {
        buf[cursor + i] := src[i];
      }
      cursor := cursor + n;
      ok := true;
    }

    // ---- Numbers

    /** write_num of the b lowest bytes of a w-byte object that holds v, on a host of either byte order. */
    method WriteNum(host: Endian, endian: Endian, v: int, w: nat, b: nat) returns (ok: bool)
      requires Valid() && 0 < b <= w <= PTRDIFF_MAX
      modifies this, buf
      ensures Valid()
      ensures ok <==> b <= buf.Length - old(cursor)
      ensures ok ==> cursor == old(cursor) + b
                     && buf[..] == Overwritten(old(buf[..]), old(cursor), Encoded(v, b, endian))
      ensures !ok ==> cursor == old(cursor) && buf[..] == old(buf[..])
    {
      hide Encoded, Reverse, Overwritten;
      var memory := Encoded(v, w, host);
      var offset := LowOffset(w, b, host);
      LowBytes(v, w, b, host);
      OtherOrder(v, b, host, endian);
      var p := memory[offset..offset + b];
      var out: array<Byte>;
      if endian != host {
        out := ReversedCopy(p);
      } else {
        out := new Byte[b](i requires 0 <= i < |p| => p[i]);
      }
      assert out[..b] == Encoded(v, b, endian);
      ok := Write(out, b);
    }

    /** std::reverse_copy into a new buffer. */
    static method ReversedCopy(p: seq<Byte>) returns (out: array<Byte>)
      ensures fresh(out) && out[..] == Reverse(p)
    {
      var n := |p|;
      out := new Byte[n](_ => 0);
      var i := 0;
      while i < n
        invariant 0 <= i <= n
        invariant forall k | n - i <= k < n :: out[k] == p[n - 1 - k]
      {
        out[n - 1 - i] := p[i];
        i := i + 1;
      }
    }

    /** read_num of b bytes into the w-byte object `dest`: on success the object holds, in the order of the host, the
        number that the bytes spell in the order of the stream.  */
    method ReadNum(host: Endian, endian: Endian, dest: array<Byte>, b: nat) returns (ok: bool)
      requires Valid() && dest != buf && 0 < b <= dest.Length <= PTRDIFF_MAX
      modifies `cursor, dest
      ensures Valid()
      ensures ok <==> b <= buf.Length - old(cursor)
      ensures ok ==> cursor == old(cursor) + b
                     && dest[..] == Encoded(Decoded(buf[old(cursor)..cursor], endian), dest.Length, host)
      ensures !ok ==> cursor == old(cursor)
                      && dest[..] == if b < dest.Length then seq(dest.Length, _ => 0) else old(dest[..])
    {
      hide Encoded, Decoded, Overwritten;
      var w := dest.Length;
      if b < w {
        forall i | 0 <= i < w {
          dest[i] := 0;
        }
      }
      ghost var before := dest[..];
      var offset := LowOffset(w, b, host);
      ok := Read(dest, offset, b);
      if ok {
        ghost var bytes := buf[old(cursor)..cursor];
        if endian != host {
          OverwrittenReads(before, offset, bytes);
          OverwrittenAgain(before, offset, bytes, Reverse(bytes));
          assert dest[offset..offset + b] == dest[..][offset..offset + b];
          ReverseInPlace(dest, offset, b);
        }
        ReadObject(before, bytes, endian, host);
      }
    }

    /** std::reverse on a part of an array. */
    static method ReverseInPlace(a: array<Byte>, at: nat, n: nat)
      requires at + n <= a.Length
      modifies a
      ensures a[..] == Overwritten(old(a[..]), at, Reverse(old(a[at..at + n])))
    {
      hide Overwritten, Reverse;
      ghost var before := a[..];
      var lo, hi := at, at + n;
      while lo < hi - 1
        invariant at <= lo <= hi + 1 && hi == 2 * at + n - lo
        invariant forall k | at <= k < lo || hi <= k < at + n :: a[k] == before[2 * at + n - 1 - k]
        invariant forall k | 0 <= k < a.Length && !(at <= k < lo || hi <= k < at + n) :: a[k] == before[k]
      {
        hi := hi - 1;
        a[lo], a[hi] := a[hi], a[lo];
        lo := lo + 1;
      }
      WindowReversed(before, a[..], at, n);
    }

    // ---- Copying and patching

    /** `done` bytes of `data`, from index `from` on, have been written at index `to` of `was`; `ahead` more have only
        been read.  */
    ghost predicate Copying(source: MemoryCursor, was: seq<Byte>, to: nat, data: seq<Byte>, from: nat, done: nat,
                            ahead: nat)
      reads this, buf, source, source.buf
    {
      && Valid() && source.Valid() && source != this && source.buf != buf
      && source.buf[..] == data && |was| == buf.Length
      && cursor == to + done && source.cursor == from + done + ahead
      && buf[..] == Overwritten(was, to, data[from..from + done])
    }

    /** copy_from: n bytes in chunks through a buffer.  It equals one read and one write of n bytes when both sides
        have the room; otherwise whole chunks have been copied when it throws.  */
    method CopyFrom(source: MemoryCursor, n: nat) returns (result: CopyResult)
      requires Valid() && source.Valid() && source != this && source.buf != buf && n <= PTRDIFF_MAX
      modifies this, buf, source
      ensures Valid() && source.Valid()
      ensures var room := Least(old(source.Remaining()), old(Remaining()));
              var done := CopiedBytes(n, room);
              && (result == Copied <==> n <= room)
              && done <= room
              && cursor == old(cursor) + done
              && buf[..] == Overwritten(old(buf[..]), old(cursor),
                                        source.buf[old(source.cursor)..old(source.cursor) + done])
              && source.cursor == old(source.cursor) + done
                                  + (if result == WriteFailed then Least(n - done, ChunkOf(n)) else 0)
              && (result == WriteFailed <==>
                    n > room && done + Least(n - done, ChunkOf(n)) <= old(source.Remaining()))
    {
      hide CopiedBytes, WholeChunks, Overwritten, Least, ChunkOf;
      LeastIs(source.Remaining(), Remaining());
      ghost var room := Least(source.Remaining(), Remaining());
      CopiedBytesFit(n, room);
      var bytes := new Byte[ChunkOf(n)](_ => 0);
      ghost var done, j;
      assert source.buf[source.cursor..source.cursor] == [];
      NothingOverwritten(buf[..], cursor);
      result, done, j := CopyRounds(source, bytes, n, buf[..], cursor, source.buf[..], source.cursor, room);
      if result != Copied {
        CopyStops(n, room, j, done);
      }
    }

    /** The loop of copy_from, with the number of bytes and of whole chunks that it has copied. */
    method CopyRounds(source: MemoryCursor, bytes: array<Byte>, n: nat, ghost was: seq<Byte>, ghost to: nat,
                      ghost data: seq<Byte>, ghost from: nat, ghost room: nat)
      returns (result: CopyResult, ghost done: nat, ghost j: nat)
      requires Copying(source, was, to, data, from, 0, 0) && bytes != buf && bytes != source.buf
      requires bytes.Length == ChunkOf(n) && n <= PTRDIFF_MAX && room == Least(|data| - from, |was| - to)
      modifies this, buf, source, bytes
      ensures done <= room
      ensures result == Copied ==> done == n
      ensures result != Copied ==>
                && done < n && WholeChunks(done, ChunkOf(n), j) && Least(n - done, ChunkOf(n)) > room - done
                && (result == WriteFailed <==> done + Least(n - done, ChunkOf(n)) <= |data| - from)
      ensures Copying(source, was, to, data, from, done,
                      if result == WriteFailed then Least(n - done, ChunkOf(n)) else 0)
    {
      var left := n;
      done, j := 0, 0;
      assert WholeChunks(0, bytes.Length, 0);
      assert room >= 0;
      hide WholeChunks, Copying, Least;
      while left > 0
        invariant 0 <= left <= n && done == n - left <= room
        invariant left > 0 ==> WholeChunks(done, bytes.Length, j)
        invariant Copying(source, was, to, data, from, done, 0)
        decreases left
      {
        var toRead := Least(left, bytes.Length);
        LeastIs(left, bytes.Length);
        result := CopyChunk(source, bytes, toRead, was, to, data, from, done, room);
        if result != Copied {
          return;
        }
        OneMoreChunk(done, bytes.Length, j);
        left := left - toRead;
        done := done + toRead;
        j := j + 1;
      }
      result := Copied;
    }

    /** One round of the loop of copy_from. */
    method CopyChunk(source: MemoryCursor, bytes: array<Byte>, n: nat, ghost was: seq<Byte>, ghost to: nat,
                     ghost data: seq<Byte>, ghost from: nat, ghost done: nat, ghost room: nat)
      returns (result: CopyResult)
      requires Copying(source, was, to, data, from, done, 0) && bytes != buf && bytes != source.buf
      requires n <= bytes.Length && n <= PTRDIFF_MAX && room == Least(|data| - from, |was| - to)
      modifies this, buf, source, bytes
      ensures result == Copied <==> done + n <= room
      ensures result == WriteFailed <==> room < done + n <= |data| - from
      ensures result == Copied ==> Copying(source, was, to, data, from, done + n, 0)
      ensures result == ReadFailed ==> Copying(source, was, to, data, from, done, 0)
      ensures result == WriteFailed ==> Copying(source, was, to, data, from, done, n)
    {
      hide Overwritten, Least;
      ghost var before := bytes[..];
      LeastIs(|data| - from, |was| - to);
      var ok := source.Read(bytes, 0, n);
      if !ok {
        return ReadFailed;
      }
      OverwrittenReads(before, 0, data[from + done..from + done + n]);
      assert bytes[..n] == data[from + done..from + done + n];
      ok := Write(bytes, n);
      if ok {
        SliceOverwritten(was, to, data, from, done, bytes[..n]);
      }
      result := if ok then Copied else WriteFailed;
    }

    static lemma CopyStops(n: nat, room: nat, j: nat, done: nat)
      requires WholeChunks(done, ChunkOf(n), j) && done <= room && done < n
      requires Least(n - done, ChunkOf(n)) > room - done
      ensures n > room && CopiedBytes(n, room) == done
    {
      QuotientIs(room, ChunkOf(n), j);
    }

    method PatchBytes(offset: int, src: array<Byte>, n: nat) returns (result: PatchResult)
      requires Valid() && src != buf && n <= src.Length && n <= PTRDIFF_MAX
      modifies this, buf
      ensures Valid()
      ensures result == SeekOutOfRange <==> !(0 <= offset <= buf.Length)
      ensures result == Patched <==> 0 <= offset && offset + n <= buf.Length
      ensures result == Patched ==> cursor == old(cursor) && buf[..] == Overwritten(old(buf[..]), offset, src[..n])
      ensures result != Patched ==> buf[..] == old(buf[..])
      ensures result != Patched ==> cursor == if result == WriteOverflow then offset else old(cursor)
      ensures cursor != old(cursor) <==> 0 <= offset <= buf.Length < offset + n && offset != old(cursor)
    {
      var mark := Tell();
      var ok := Seek(offset, Begin);
      if !ok {
        return SeekOutOfRange;
      }
      ok := Write(src, n);
      if !ok {
        return WriteOverflow;
      }
      ok := Seek(mark, Begin);
      result := Patched;
    }

    method PatchNum(host: Endian, endian: Endian, offset: int, v: int, w: nat, b: nat) returns (result: PatchResult)
      requires Valid() && 0 < b <= w <= PTRDIFF_MAX
      modifies this, buf
      ensures Valid()
      ensures result == SeekOutOfRange <==> !(0 <= offset <= buf.Length)
      ensures result == Patched <==> 0 <= offset && offset + b <= buf.Length
      ensures result == Patched ==>
                && cursor == old(cursor)
                && buf[..] == Overwritten(old(buf[..]), offset, Encoded(v, b, endian))
                && Decoded(buf[offset..offset + b], endian) == v % Pow256(b)
      ensures result != Patched ==> buf[..] == old(buf[..])
      ensures result != Patched ==> cursor == if result == WriteOverflow then offset else old(cursor)
      ensures cursor != old(cursor) <==> 0 <= offset <= buf.Length < offset + b && offset != old(cursor)
    {
      var mark := Tell();
      var ok := Seek(offset, Begin);
      if !ok {
        return SeekOutOfRange;
      }
      ok := WriteNum(host, endian, v, w, b);
      if !ok {
        return WriteOverflow;
      }
      ok := Seek(mark, Begin);
      result := Patched;
      OverwrittenReads(old(buf[..]), offset, Encoded(v, b, endian));
      assert buf[offset..offset + b] == buf[..][offset..offset + b];
      DecodedEncoded(v, b, endian);
    }

    // ---- Lists

    /** write_nums: the fold stops at the first number that does not fit. */
    method WriteNums(host: Endian, endian: Endian, items: seq<Num>) returns (done: nat)
      requires Valid() && forall i | 0 <= i < |items| :: 0 < items[i].width <= PTRDIFF_MAX
      modifies this, buf
      ensures Valid() && done <= |items|
      ensures old(cursor) + |EncodeAll(items[..done], endian)| == cursor
      ensures buf[..] == Overwritten(old(buf[..]), old(cursor), EncodeAll(items[..done], endian))
      ensures done < |items| ==> items[done].width > Remaining()
    {
      done := 0;
      while done < |items|
        invariant done <= |items| && Valid()
        invariant old(cursor) + |EncodeAll(items[..done], endian)| == cursor
        invariant buf[..] == Overwritten(old(buf[..]), old(cursor), EncodeAll(items[..done], endian))
      {
        hide Overwritten, EncodeAll, Encoded;
        var ok := WriteNum(host, endian, items[done].value, items[done].width, items[done].width);
        if !ok {
          return;
        }
        OneMoreWritten(old(buf[..]), old(cursor), items, done, endian);
        done := done + 1;
      }
      assert items[..done] == items;
    }

    /** One read_num at full width into a new object, and the number it then holds. */
    method ReadOne(host: Endian, endian: Endian, w: nat) returns (value: Option<nat>)
      requires Valid() && 0 < w <= PTRDIFF_MAX
      modifies `cursor
      ensures Valid()
      ensures value.Some? <==> w <= buf.Length - old(cursor)
      ensures value.Some? ==> cursor == old(cursor) + w && value.value == Decoded(buf[old(cursor)..cursor], endian)
      ensures value == None ==> cursor == old(cursor)
      ensures buf[..] == old(buf[..])
    {
      hide Encoded, Decoded;
      var dest := new Byte[w](_ => 0);
      var ok := ReadNum(host, endian, dest, w);
      if !ok {
        return None;
      }
      ObjectValue(buf[old(cursor)..cursor], endian, host);
      value := Some(Decoded(dest[..], host));
    }

    /** read_nums into new objects of the given sizes; the result lists the numbers they hold afterwards. */
    method ReadNums(host: Endian, endian: Endian, widths: seq<nat>) returns (values: seq<nat>)
      requires Valid() && forall i | 0 <= i < |widths| :: 0 < widths[i] <= PTRDIFF_MAX
      modifies `cursor
      ensures Valid() && |values| <= |widths|
      ensures Spelled(buf[old(cursor)..], widths, values, endian)
      ensures cursor == old(cursor) + TotalWidth(widths[..|values|])
      ensures |values| < |widths| ==> widths[|values|] > Remaining()
    {
      hide Decoded, DecodeAll, TotalWidth, Spelled;
      values := [];
      ghost var from, all := cursor, buf[..];
      ghost var bytes := all[from..];
      assert buf[from..] == bytes;
      NothingSpelled(bytes, widths, endian);
      while |values| < |widths|
        invariant |values| <= |widths| && Valid() && buf[..] == all
        invariant cursor == from + TotalWidth(widths[..|values|])
        invariant Spelled(bytes, widths, values, endian)
        decreases |widths| - |values|
      {
        ghost var at := cursor;
        var value := ReadOne(host, endian, widths[|values|]);
        if value == None {
          return;
        }
        assert buf[at..cursor] == all[at..cursor];
        SliceOfSuffix(all, from, at - from, cursor - at);
        OneMoreSpelled(bytes, widths, values, value.value, endian);
        values := values + [value.value];
      }
    }

    static lemma ObjectValue(bytes: seq<Byte>, endian: Endian, host: Endian)
      ensures Decoded(Encoded(Decoded(bytes, endian), |bytes|, host), host) == Decoded(bytes, endian)
    {
      EncodedDecoded(bytes, endian);
      DecodedEncoded(Decoded(bytes, endian), |bytes|, host);
      UnsignedRoundTrip(Decoded(bytes, endian), |bytes|);
    }
  }

  // ---- Whole scenarios

  /** A list written on one host and read back on another, at full width: every number comes back modulo its width,
      and so itself, unsigned or signed, if it is in the range of its type.  */
  method WriteThenRead(cursor: MemoryCursor, writer: Endian, reader: Endian, endian: Endian, items: seq<Num>)
    returns (values: seq<nat>)
    requires cursor.Valid() && TotalWidth(Widths(items)) <= cursor.Remaining()
    requires forall i | 0 <= i < |items| :: 0 < items[i].width <= PTRDIFF_MAX
    modifies cursor, cursor.buf
    ensures cursor.Valid() && cursor.cursor == old(cursor.cursor) + TotalWidth(Widths(items))
    ensures values == Residues(items)
    ensures forall i | 0 <= i < |items| && FitsUnsigned(items[i]) :: values[i] == items[i].value
    ensures forall i | 0 <= i < |items| && FitsSigned(items[i]) ::
              AsSigned(values[i], items[i].width) == items[i].value
  {
    EncodedLength(items, endian);
    var widths := Widths(items);
    hide EncodeAll, Encoded, Overwritten, TotalWidth, Spelled, Residues, FitsUnsigned, FitsSigned, AsSigned, Pow256;
    var mark := cursor.Tell();
    ghost var before := cursor.buf[..];
    var done := cursor.WriteNums(writer, endian, items);
    if done < |items| {
      ItemFits(items, done, endian);
      assert false;
    }
    assert items[..done] == items;
    var ok := cursor.Seek(mark, Begin);
    OverwrittenSuffix(before, mark, EncodeAll(items, endian));
    assert cursor.buf[mark..] == EncodeAll(items, endian) + before[mark + |EncodeAll(items, endian)|..];
    values := cursor.ReadNums(reader, endian, widths);
    if |values| < |items| {
      ItemFits(items, |values|, endian);
      assert false;
    }
    assert widths[..|values|] == widths;
    AllReadBack(items, endian, before[mark + |EncodeAll(items, endian)|..], values);
  }

  lemma AllReadBack(items: seq<Num>, e: Endian, rest: seq<Byte>, values: seq<nat>)
    requires Spelled(EncodeAll(items, e) + rest, Widths(items), values, e) && |values| == |items|
    ensures values == Residues(items)
    ensures forall i | 0 <= i < |items| && FitsUnsigned(items[i]) :: values[i] == items[i].value
    ensures forall i | 0 <= i < |items| && FitsSigned(items[i]) ::
              AsSigned(values[i], items[i].width) == items[i].value
  {
    hide EncodeAll, DecodeAll, TotalWidth, FitsUnsigned, FitsSigned, AsSigned, Pow256;
    assert Widths(items)[..|values|] == Widths(items);
    ListRoundTrip(items, e, rest);
    forall i | 0 <= i < |items| { ResidueIsValue(items[i]); }
  }

  /** The b low bytes of a number, written from a w-byte object on one host and read into an object of another size on
      another host: the object then holds the number modulo 256^b.  */
  method WriteThenReadPart(cursor: MemoryCursor, writer: Endian, reader: Endian, endian: Endian, v: int, w: nat, b: nat,
                           dest: array<Byte>)
    requires cursor.Valid() && dest != cursor.buf && b <= cursor.Remaining()
    requires 0 < b <= w <= PTRDIFF_MAX && b <= dest.Length <= PTRDIFF_MAX
    modifies cursor, cursor.buf, dest
    ensures cursor.Valid() && cursor.cursor == old(cursor.cursor) + b
    ensures dest[..] == Encoded(v % Pow256(b), dest.Length, reader)
    ensures Decoded(dest[..], reader) == v % Pow256(b)
  {
    hide Encoded, Decoded, Overwritten;
    var mark := cursor.Tell();
    ghost var before := cursor.buf[..];
    var ok := cursor.WriteNum(writer, endian, v, w, b);
    ok := cursor.Seek(mark, Begin);
    OverwrittenReads(before, mark, Encoded(v, b, endian));
    assert cursor.buf[mark..mark + b] == cursor.buf[..][mark..mark + b] == Encoded(v, b, endian);
    ok := cursor.ReadNum(reader, endian, dest, b);
    DecodedEncoded(v, b, endian);
    PartHeld(v, b, dest.Length, reader);
  }

  lemma PartHeld(v: int, b: nat, w: nat, host: Endian)
    requires b <= w
    ensures Decoded(Encoded(v % Pow256(b), w, host), host) == v % Pow256(b)
  {
    hide Encoded, Decoded;
    PowersGrow(b, w);
    DecodedEncoded(v % Pow256(b), w, host);
    UnsignedRoundTrip(v % Pow256(b), w);
  }

  lemma {:induction false} PowersGrow(b: nat, w: nat)
    requires b <= w
    ensures Pow256(b) <= Pow256(w)
    decreases w
  {
    if b == w {
    } else {
      PowersGrow(b, w - 1);
    }
  }

  /** A copy that loses input: of five bytes none could be written to three, but all have been read. */
  method CopyLosesInput() returns (result: CopyResult, readUpTo: nat, writtenUpTo: nat)
    ensures result == WriteFailed && readUpTo == 5 && writtenUpTo == 0
  {
    var text := new Byte[5](_ => 1);
    var room := new Byte[3](_ => 0);
    var source := new MemoryCursor(text);
    var target := new MemoryCursor(room);
    CopiedBytesFit(5, 3);
    result := target.CopyFrom(source, 5);
    readUpTo, writtenUpTo := source.cursor, target.cursor;
  }

  /** Up to 4 MiB travel as one chunk: a copy of that size that lacks one byte of room writes nothing. */
  method CopyLosesOneChunk() returns (result: CopyResult, readUpTo: nat, writtenUpTo: nat)
    ensures result == WriteFailed && readUpTo == 4194304 && writtenUpTo == 0
  {
    var text := new Byte[4194304](_ => 1);
    var room := new Byte[4194303](_ => 0);
    var source := new MemoryCursor(text);
    var target := new MemoryCursor(room);
    ChunksOfFourMebibytes();
    result := target.CopyFrom(source, 4194304);
    readUpTo, writtenUpTo := source.cursor, target.cursor;
  }

  /** One byte more is a second chunk: the first has been written when the second fails. */
  method CopyLosesSecondChunk() returns (result: CopyResult, readUpTo: nat, writtenUpTo: nat)
    ensures result == WriteFailed && readUpTo == 4194305 && writtenUpTo == 4194304
  {
    var text := new Byte[4194305](_ => 1);
    var room := new Byte[4194304](_ => 0);
    var source := new MemoryCursor(text);
    var target := new MemoryCursor(room);
    ChunksOfFourMebibytes();
    result := target.CopyFrom(source, 4194305);
    readUpTo, writtenUpTo := source.cursor, target.cursor;
  }

  lemma ChunksOfFourMebibytes()
    ensures CopiedBytes(4194304, 4194303) == 0 && ChunkOf(4194304) == 4194304
    ensures CopiedBytes(4194305, 4194304) == 4194304 && ChunkOf(4194305) == 4194304
  {}

  /** A patch that does not come back: two bytes do not fit at offset 3 of 4, and the cursor stays there. */
  method PatchStaysAway() returns (result: PatchResult, position: nat)
    ensures result == WriteOverflow && position == 3
  {
    var bytes := new Byte[4](_ => 0);
    var patch := new Byte[2](_ => 1);
    var cursor := new MemoryCursor(bytes);
    result := cursor.PatchBytes(3, patch, 2);
    position := cursor.cursor;
  }

  method PatchNumStaysAway() returns (result: PatchResult, position: nat)
    ensures result == WriteOverflow && position == 3
  {
    var bytes := new Byte[4](_ => 0);
    var cursor := new MemoryCursor(bytes);
    result := cursor.PatchNum(LE, BE, 3, 1, 2, 2);
    position := cursor.cursor;
  }
}
