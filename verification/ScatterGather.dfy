/** Scatter/gather memory (storage/src/utils.rs): `copyv` and `MemSliceCursor` as operations on the
    flat byte sequence that a list of buffers stands for. */
module ScatterGather {
  import opened Common

  type Byte = bv8

  // ----- A list of buffers as one flat sequence -------------------------------------------------

  function LenBefore(lens: seq<nat>, i: nat): nat
    requires i <= |lens|
  {
    if i == 0 then 0 else LenBefore(lens, i - 1) + lens[i - 1]
  }

  function Size(lens: seq<nat>): nat { LenBefore(lens, |lens|) }

  lemma {:induction false} LenMonotone(lens: seq<nat>, i: nat, j: nat)
    requires i <= j <= |lens|
    ensures LenBefore(lens, i) <= LenBefore(lens, j)
    decreases j
  {
    if i < j { LenMonotone(lens, i, j - 1); }
  }

  ghost function FlatTo(bufs: seq<seq<Byte>>, i: nat): seq<Byte>
    requires i <= |bufs|
  {
    if i == 0 then [] else FlatTo(bufs, i - 1) + bufs[i - 1]
  }

  ghost function Flat(bufs: seq<seq<Byte>>): seq<Byte> { FlatTo(bufs, |bufs|) }

  ghost predicate Fits(bufs: seq<seq<Byte>>, lens: seq<nat>) {
    |bufs| == |lens| && forall i | 0 <= i < |bufs| :: |bufs[i]| == lens[i]
  }

  lemma {:induction false} FlatLength(bufs: seq<seq<Byte>>, lens: seq<nat>, i: nat)
    requires Fits(bufs, lens) && i <= |bufs|
    ensures |FlatTo(bufs, i)| == LenBefore(lens, i)
  {
    if i > 0 { FlatLength(bufs, lens, i - 1); }
  }

  lemma SliceOfFront(a: seq<Byte>, b: seq<Byte>, p: nat, n: nat)
    requires p + n <= |a|
    ensures (a + b)[p..p + n] == a[p..p + n]
  {
  }

  /** A piece of buffer `k` is the corresponding piece of the flat sequence. */
  lemma {:induction false} FlatSlice(bufs: seq<seq<Byte>>, lens: seq<nat>, i: nat, k: nat, o: nat, n: nat)
    requires Fits(bufs, lens) && k < i <= |bufs| && o + n <= lens[k]
    ensures LenBefore(lens, k) + o + n <= |FlatTo(bufs, i)|
    ensures FlatTo(bufs, i)[LenBefore(lens, k) + o..LenBefore(lens, k) + o + n] == bufs[k][o..o + n]
    decreases i
  {
    FlatLength(bufs, lens, i - 1);
    if k < i - 1 {
      FlatSlice(bufs, lens, i - 1, k, o, n);
      var p := LenBefore(lens, k) + o;
      SliceOfFront(FlatTo(bufs, i - 1), bufs[i - 1], p, n);
    }
  }

  /** `now` is `was` with the bytes from `p` on replaced by `d`. */
  ghost predicate Written(now: seq<Byte>, was: seq<Byte>, p: nat, d: seq<Byte>) {
    && |now| == |was| && p + |d| <= |was|
    && forall j | 0 <= j < |now| :: now[j] == if p <= j < p + |d| then d[j - p] else was[j]
  }

  lemma WrittenNext(now: seq<Byte>, mid: seq<Byte>, was: seq<Byte>, p: nat, buffer: seq<Byte>, k: nat, w: nat)
    requires k + w <= |buffer|
    requires Written(mid, was, p, buffer[..k]) && Written(now, mid, p + k, buffer[k..][..w])
    ensures Written(now, was, p, buffer[..k + w])
  {
  }

  lemma WrittenBefore(now: seq<Byte>, was: seq<Byte>, p: nat, d: seq<Byte>, tail: seq<Byte>)
    requires Written(now, was, p, d)
    ensures Written(now + tail, was + tail, p, d)
  {
  }

  lemma WrittenAfter(head: seq<Byte>, now: seq<Byte>, was: seq<Byte>, o: nat, d: seq<Byte>)
    requires Written(now, was, o, d)
    ensures Written(head + now, head + was, |head| + o, d)
  {
  }

  /** Writing inside one buffer writes the flat sequence in one place. */
  lemma {:induction false} FlatWritten(bufs: seq<seq<Byte>>, lens: seq<nat>, k: nat, o: nat, d: seq<Byte>,
                                       b: seq<Byte>, i: nat)
    requires Fits(bufs, lens) && k < |bufs| && Written(b, bufs[k], o, d) && i <= |bufs|
    ensures if i <= k then FlatTo(bufs[k := b], i) == FlatTo(bufs, i)
            else Written(FlatTo(bufs[k := b], i), FlatTo(bufs, i), LenBefore(lens, k) + o, d)
  {
    if i > 0 {
      FlatWritten(bufs, lens, k, o, d, b, i - 1);
      FlatLength(bufs, lens, i - 1);
      if i - 1 == k {
        WrittenAfter(FlatTo(bufs, k), b, bufs[k], o, d);
      } else if i - 1 > k {
        WrittenBefore(FlatTo(bufs[k := b], i - 1), FlatTo(bufs, i - 1), LenBefore(lens, k) + o, d, bufs[i - 1]);
      }
    }
  }

  // ----- Cursors --------------------------------------------------------------------------------

  datatype Cursor = Cursor(index: nat, offset: nat)

  predicate Inside(lens: seq<nat>, c: Cursor) {
    if c.index < |lens| then c.offset <= lens[c.index] else c.index == |lens| && c.offset == 0
  }

  ghost function Pos(lens: seq<nat>, c: Cursor): nat
    requires Inside(lens, c)
  {
    LenBefore(lens, c.index) + c.offset
  }

  lemma PosInside(lens: seq<nat>, c: Cursor)
    requires Inside(lens, c)
    ensures Pos(lens, c) <= Size(lens)
  {
    LenMonotone(lens, if c.index < |lens| then c.index + 1 else c.index, |lens|);
  }

  ghost predicate AllPositive(lens: seq<nat>) {
    lens == [] || (lens[0] > 0 && AllPositive(lens[1..]))
  }

  lemma {:induction false} PositiveAt(lens: seq<nat>, i: nat)
    requires AllPositive(lens) && i < |lens|
    ensures lens[i] > 0
  {
    if i > 0 { PositiveAt(lens[1..], i - 1); }
  }

  /** No buffer is empty and the cursor is not at the end of a buffer. */
  ghost predicate Solid(lens: seq<nat>, c: Cursor) {
    && AllPositive(lens)
    && Inside(lens, c) && (c.index < |lens| ==> c.offset < lens[c.index])
  }

  lemma SolidAtEnd(lens: seq<nat>, c: Cursor)
    requires Solid(lens, c)
    ensures c.index == |lens| <==> Pos(lens, c) == Size(lens)
  {
    if c.index < |lens| { LenMonotone(lens, c.index + 1, |lens|); }
  }

  /** Between non-empty buffers the flat position determines the cursor. */
  lemma PosIsUnique(lens: seq<nat>, a: Cursor, b: Cursor)
    requires Solid(lens, a) && Solid(lens, b) && Pos(lens, a) == Pos(lens, b)
    ensures a == b
  {
    if a.index < b.index { LenMonotone(lens, a.index + 1, b.index); }
    if b.index < a.index { LenMonotone(lens, b.index + 1, a.index); }
  }

  // ----- Where a copy ends ------------------------------------------------------------------------

  /** Where `n` bytes written from the cursor on end, given the lengths of the buffers alone. */
  ghost function Land(lens: seq<nat>, c: Cursor, n: nat): (r: Result<Cursor>)
    requires Inside(lens, c)
    ensures r.Ok? ==> Inside(lens, r.value) && Pos(lens, r.value) == Pos(lens, c) + n
    decreases |lens| - c.index
  {
    if c.index >= |lens| then Err(MemOverflow) else
      var room := lens[c.index] - c.offset;
      if n < room then Ok(Cursor(c.index, c.offset + n))
      else if n == room then Ok(Cursor(c.index + 1, 0))
      else if room == 0 then Err(VolatileSlice)
      else Land(lens, Cursor(c.index + 1, 0), n - room)
  }

  /** One write: `w` of the `n` bytes go to the buffer of the cursor. */
  lemma LandStep(lens: seq<nat>, c: Cursor, n: nat, w: nat)
    requires Inside(lens, c) && c.index < |lens| && w == Min(n, lens[c.index] - c.offset)
    ensures var next := if w == lens[c.index] - c.offset then Cursor(c.index + 1, 0)
                        else Cursor(c.index, c.offset + w);
            && Inside(lens, next) && Pos(lens, next) == Pos(lens, c) + w
            && (w == n ==> Land(lens, c, n) == Ok(next))
            && (w < n ==> next.index == c.index + 1 && (w > 0 ==> Land(lens, c, n) == Land(lens, next, n - w)))
  {
  }

  /** The first empty buffer from `i` on. */
  ghost function FirstEmpty(lens: seq<nat>, i: nat): (j: nat)
    requires i <= |lens|
    ensures i <= j <= |lens| && (j < |lens| ==> lens[j] == 0)
    decreases |lens| - i
  {
    if i == |lens| || lens[i] == 0 then i else FirstEmpty(lens, i + 1)
  }

  /** The bytes end before the next empty buffer, and the cursor is not at the end of its own. */
  ghost predicate Clear(lens: seq<nat>, c: Cursor, n: nat)
    requires Inside(lens, c)
  {
    && c.index < |lens|
    && (n == 0 || (c.offset < lens[c.index] && Pos(lens, c) + n <= LenBefore(lens, FirstEmpty(lens, c.index + 1))))
  }

  /** The bytes of one source buffer can be written exactly if no empty buffer is in their way.  An empty
      buffer is the error of the slice, running out of buffers the other one. */
  lemma {:induction false} LandsIff(lens: seq<nat>, c: Cursor, n: nat)
    requires Inside(lens, c)
    ensures Land(lens, c, n).Ok? <==> Clear(lens, c, n)
    ensures Land(lens, c, n) == Err(VolatileSlice) <==>
              && n > 0 && c.index < |lens| && !Clear(lens, c, n)
              && (c.offset == lens[c.index] || FirstEmpty(lens, c.index + 1) < |lens|)
    decreases |lens| - c.index
  {
    if c.index < |lens| {
      LenMonotone(lens, c.index + 1, FirstEmpty(lens, c.index + 1));
      if 0 < lens[c.index] - c.offset < n {
        LandsIff(lens, Cursor(c.index + 1, 0), n - (lens[c.index] - c.offset));
      }
    }
  }

  lemma {:induction false} SolidLands(lens: seq<nat>, c: Cursor, n: nat)
    requires Solid(lens, c)
    ensures Land(lens, c, n).Ok? <==> c.index < |lens| && Pos(lens, c) + n <= Size(lens)
    ensures match Land(lens, c, n) case Ok(next) => Solid(lens, next) case Err(e) => e == MemOverflow
    decreases |lens| - c.index
  {
    if c.index < |lens| {
      LenMonotone(lens, c.index + 1, |lens|);
      if c.index + 1 < |lens| { PositiveAt(lens, c.index + 1); }
      if n > lens[c.index] - c.offset {
        SolidLands(lens, Cursor(c.index + 1, 0), n - (lens[c.index] - c.offset));
      }
    }
  }

  // ----- Writing to the buffers -----------------------------------------------------------------

  function Lens(dst: seq<array<Byte>>): seq<nat> {
    seq(|dst|, i requires 0 <= i < |dst| => dst[i].Length)
  }

  ghost function Contents(dst: seq<array<Byte>>): seq<seq<Byte>>
    reads dst
  {
    seq(|dst|, i requires 0 <= i < |dst| reads dst => dst[i][..])
  }

  ghost predicate Distinct(dst: seq<array<Byte>>) {
    forall i, j | 0 <= i < j < |dst| :: dst[i] != dst[j]
  }

  /** The first `i` buffers as one sequence. */
  ghost function MemoryTo(dst: seq<array<Byte>>, i: nat): seq<Byte>
    requires i <= |dst|
    reads dst
  {
    if i == 0 then [] else MemoryTo(dst, i - 1) + dst[i - 1][..]
  }

  ghost function Memory(dst: seq<array<Byte>>): seq<Byte>
    reads dst
  {
    MemoryTo(dst, |dst|)
  }

  lemma {:induction false} MemoryIsFlat(dst: seq<array<Byte>>, i: nat)
    requires i <= |dst|
    ensures MemoryTo(dst, i) == FlatTo(Contents(dst), i) && |MemoryTo(dst, i)| == LenBefore(Lens(dst), i)
  {
    if i > 0 { MemoryIsFlat(dst, i - 1); }
  }

  /** The heap part: bytes go to one array, and no other array changes. */
  method Store(dst: seq<array<Byte>>, k: nat, d: seq<Byte>, offset: nat)
    requires k < |dst| && Distinct(dst) && offset + |d| <= dst[k].Length
    modifies dst[k]
    ensures Written(dst[k][..], old(dst[k][..]), offset, d) && Contents(dst) == old(Contents(dst))[k := dst[k][..]]
  {
    var a := dst[k];
    forall i | 0 <= i < |d| { a[offset + i] := d[i]; }
    assert forall i | 0 <= i < |dst| && i != k :: dst[i][..] == old(dst[i][..]);
  }

  /** What `FileVolatileSlice::write` promises: it copies as much as fits, and data at or past the end
      is an error. */
  method Write(dst: seq<array<Byte>>, c: Cursor, buffer: seq<Byte>) returns (r: Result<nat>)
    requires Distinct(dst) && c.index < |dst| && Inside(Lens(dst), c)
    modifies dst[c.index]
    ensures match r
            case Err(e) => && e == VolatileSlice && buffer != [] && c.offset == dst[c.index].Length
                           && Memory(dst) == old(Memory(dst))
            case Ok(n) =>
              && (buffer != [] ==> c.offset < dst[c.index].Length)
              && n == Min(|buffer|, dst[c.index].Length - c.offset)
              && Written(Memory(dst), old(Memory(dst)), Pos(Lens(dst), c), buffer[..n])
  {
    MemoryIsFlat(dst, |dst|);
    PosInside(Lens(dst), c);
    if buffer == [] { return Ok(0); }
    if c.offset >= dst[c.index].Length { return Err(VolatileSlice); }
    var n := Min(|buffer|, dst[c.index].Length - c.offset);
    ghost var was := Contents(dst);
    Store(dst, c.index, buffer[..n], c.offset);
    FlatWritten(was, Lens(dst), c.index, c.offset, buffer[..n], dst[c.index][..], |dst|);
    MemoryIsFlat(dst, |dst|);
    r := Ok(n);
  }

  /** `k` bytes of the buffer are in place, and the cursor is where they end. */
  ghost predicate Reached(lens: seq<nat>, mem: seq<Byte>, flat: seq<Byte>, start: Cursor, buffer: seq<Byte>, k: nat,
                          c: Cursor)
    requires Inside(lens, start)
  {
    && k <= |buffer| && Written(mem, flat, Pos(lens, start), buffer[..k])
    && Inside(lens, c) && Pos(lens, c) == Pos(lens, start) + k
    && Land(lens, start, |buffer|) == Land(lens, c, |buffer| - k)
  }

  /** How the copy of the buffer ends. */
  ghost predicate Finished(lens: seq<nat>, mem: seq<Byte>, flat: seq<Byte>, start: Cursor, buffer: seq<Byte>,
                           done: nat, r: Result<Cursor>)
    requires Inside(lens, start)
  {
    && done <= |buffer| && Written(mem, flat, Pos(lens, start), buffer[..done])
    && r == Land(lens, start, |buffer|) && (r.Ok? ==> done == |buffer|)
  }

  /** The cursor after a write of `w` bytes. */
  function Moved(lens: seq<nat>, c: Cursor, w: nat): Cursor
    requires c.index < |lens|
  {
    if lens[c.index] - c.offset == w then Cursor(c.index + 1, 0) else Cursor(c.index, c.offset + w)
  }

  lemma WriteReaches(lens: seq<nat>, mem: seq<Byte>, was: seq<Byte>, flat: seq<Byte>, start: Cursor, buffer: seq<Byte>,
                     k: nat, c: Cursor, w: nat)
    requires Inside(lens, start) && Reached(lens, was, flat, start, buffer, k, c) && c.index < |lens|
    requires w == Min(|buffer| - k, lens[c.index] - c.offset) && (k < |buffer| ==> c.offset < lens[c.index])
    requires Written(mem, was, Pos(lens, c), buffer[k..][..w])
    ensures var next := Moved(lens, c, w);
            if k + w == |buffer| then Finished(lens, mem, flat, start, buffer, k + w, Ok(next))
            else Reached(lens, mem, flat, start, buffer, k + w, next) && next.index == c.index + 1
  {
    WrittenNext(mem, was, flat, Pos(lens, start), buffer, k, w);
    LandStep(lens, c, |buffer| - k, w);
  }

  /** One turn of the inner loop: write what fits of the rest of the buffer and move the cursor. */
  method WriteOnce(dst: seq<array<Byte>>, c: Cursor, buffer: seq<Byte>, k: nat, ghost flat: seq<Byte>,
                   ghost start: Cursor)
    returns (r: Result<nat>, next: Cursor)
    requires Distinct(dst) && Inside(Lens(dst), start) && c.index < |dst|
    requires Reached(Lens(dst), Memory(dst), flat, start, buffer, k, c)
    modifies dst[c.index]
    ensures match r
            case Err(e) => Finished(Lens(dst), Memory(dst), flat, start, buffer, k, Err(e))
            case Ok(n) =>
              if k + n == |buffer| then Finished(Lens(dst), Memory(dst), flat, start, buffer, k + n, Ok(next))
              else Reached(Lens(dst), Memory(dst), flat, start, buffer, k + n, next) && next.index == c.index + 1
  {
    next := c;
    ghost var was := Memory(dst);
    r := Write(dst, c, buffer[k..]);
    if r.Err? { return; }
    WriteReaches(Lens(dst), Memory(dst), was, flat, start, buffer, k, c, r.value);
    next := Moved(Lens(dst), c, r.value);
  }

  lemma NothingWritten(dst: seq<array<Byte>>, start: Cursor, buffer: seq<Byte>)
    requires Inside(Lens(dst), start)
    ensures Written(Memory(dst), Memory(dst), Pos(Lens(dst), start), buffer[..0])
  {
    MemoryIsFlat(dst, |dst|);
    PosInside(Lens(dst), start);
  }

  /** The inner loop: one source buffer, spread over as many destination buffers as it takes. `done` is
      how much of it has arrived, also when an error ends the copy. */
  method CopyBuffer(dst: seq<array<Byte>>, start: Cursor, buffer: seq<Byte>)
    returns (r: Result<Cursor>, ghost done: nat)
    requires Distinct(dst) && Inside(Lens(dst), start)
    modifies dst
    ensures Finished(Lens(dst), Memory(dst), old(Memory(dst)), start, buffer, done, r)
  {
    ghost var flat := Memory(dst);
    NothingWritten(dst, start, buffer);
    var c, k := start, 0;
    while c.index < |dst|
      invariant Inside(Lens(dst), start) && Reached(Lens(dst), Memory(dst), flat, start, buffer, k, c)
      decreases |dst| - c.index
    {
      var w;
      w, c := WriteOnce(dst, c, buffer, k, flat, start);
      if w.Err? { return Err(w.error), k; }
      k := k + w.value;
      if k == |buffer| { return Ok(c), k; }
    }
    return Err(MemOverflow), k;
  }

  // ----- copyv ------------------------------------------------------------------------------------

  function SrcLens(src: seq<seq<Byte>>): seq<nat> {
    seq(|src|, i requires 0 <= i < |src| => |src[i]|)
  }

  /** Bytes taken from the first `i` source buffers. */
  ghost function Taken(lens: seq<nat>, offset: nat, length: nat, i: nat): nat
    requires i <= |lens|
  {
    var before := LenBefore(lens, i);
    if before <= offset then 0 else Min(length, before - offset)
  }

  lemma TakenMonotone(lens: seq<nat>, offset: nat, length: nat, i: nat, j: nat)
    requires i <= j <= |lens|
    ensures Taken(lens, offset, length, i) <= Taken(lens, offset, length, j)
  {
    LenMonotone(lens, i, j);
  }

  /** The bytes to copy. */
  ghost function Wanted(src: seq<seq<Byte>>, offset: nat, length: nat): (d: seq<Byte>)
    requires src != [] && offset <= |src[0]|
    ensures |d| == Taken(SrcLens(src), offset, length, |src|)
  {
    var n := Taken(SrcLens(src), offset, length, |src|);
    FlatLength(src, SrcLens(src), |src|);
    LenMonotone(SrcLens(src), 1, |src|);
    Flat(src)[offset..offset + n]
  }

  /** What source buffer `i` contributes. */
  function Part(src: seq<seq<Byte>>, offset: nat, length: nat, copied: nat, i: nat): seq<Byte>
    requires i < |src| && offset <= |src[0]| && copied <= length
  {
    var o := if i == 0 then offset else 0;
    src[i][o..o + Min(|src[i]| - o, length - copied)]
  }

  lemma PartSize(src: seq<seq<Byte>>, offset: nat, length: nat, i: nat)
    requires src != [] && offset <= |src[0]| && i < |src|
    ensures var copied := Taken(SrcLens(src), offset, length, i);
            && copied <= length
            && copied + |Part(src, offset, length, copied, i)| == Taken(SrcLens(src), offset, length, i + 1)
            && (copied < length ==> offset + copied == LenBefore(SrcLens(src), i) + if i == 0 then offset else 0)
  {
    LenMonotone(SrcLens(src), if i == 0 then 0 else 1, i);
    assert LenBefore(SrcLens(src), 0) == 0;
  }

  lemma PartOfWanted(src: seq<seq<Byte>>, offset: nat, length: nat, i: nat)
    requires src != [] && offset <= |src[0]| && i < |src|
    ensures var copied := Taken(SrcLens(src), offset, length, i);
            && copied <= length
            && var part := Part(src, offset, length, copied, i);
               && copied + |part| == Taken(SrcLens(src), offset, length, i + 1) <= |Wanted(src, offset, length)|
               && Wanted(src, offset, length)[copied..copied + |part|] == part
  {
    var lens := SrcLens(src);
    var copied := Taken(lens, offset, length, i);
    PartSize(src, offset, length, i);
    var part := Part(src, offset, length, copied, i);
    TakenMonotone(lens, offset, length, i + 1, |src|);
    FlatSlice(src, lens, |src|, i, if i == 0 then offset else 0, |part|);
    if part != [] {
      FlatLength(src, lens, |src|);
      SliceOfSlice(Flat(src), offset, |Wanted(src, offset, length)|, copied, copied + |part|);
    }
  }

  /** Where the copy stands after the first `i` source buffers, given the lengths alone. */
  ghost function LandAll(srcLens: seq<nat>, lens: seq<nat>, offset: nat, length: nat, start: Cursor, i: nat)
    : (r: Result<Cursor>)
    requires i <= |srcLens| && Inside(lens, start)
    ensures r.Ok? ==> && Inside(lens, r.value)
                      && Pos(lens, r.value) == Pos(lens, start) + Taken(srcLens, offset, length, i)
  {
    if i == 0 then Ok(start) else
      match LandAll(srcLens, lens, offset, length, start, i - 1)
      case Err(e) => Err(e)
      case Ok(c) => Land(lens, c, PartLen(srcLens, offset, length, i - 1))
  }

  /** How much source buffer `i` contributes. */
  ghost function PartLen(srcLens: seq<nat>, offset: nat, length: nat, i: nat): nat
    requires i < |srcLens|
  {
    TakenMonotone(srcLens, offset, length, i, i + 1);
    Taken(srcLens, offset, length, i + 1) - Taken(srcLens, offset, length, i)
  }

  /** The bytes of the first `i` source buffers are in place, and the cursor is where they end. */
  ghost predicate Progress(srcLens: seq<nat>, lens: seq<nat>, mem: seq<Byte>, flat: seq<Byte>, data: seq<Byte>,
                           offset: nat, length: nat, start: Cursor, i: nat, c: Cursor)
    requires i <= |srcLens| && Inside(lens, start)
  {
    && LandAll(srcLens, lens, offset, length, start, i) == Ok(c)
    && Taken(srcLens, offset, length, i) <= |data|
    && Written(mem, flat, Pos(lens, start), data[..Taken(srcLens, offset, length, i)])
  }

  /** How the whole copy ends. */
  ghost predicate Ended(srcLens: seq<nat>, lens: seq<nat>, mem: seq<Byte>, flat: seq<Byte>, data: seq<Byte>,
                        offset: nat, length: nat, start: Cursor, done: nat, r: Result<Cursor>)
    requires Inside(lens, start)
  {
    && done <= |data| && Written(mem, flat, Pos(lens, start), data[..done])
    && r == LandAll(srcLens, lens, offset, length, start, |srcLens|) && (r.Ok? ==> done == |data|)
  }

  /** One source buffer, as part of the whole copy. */
  lemma PartCopied(srcLens: seq<nat>, lens: seq<nat>, mem: seq<Byte>, was: seq<Byte>, flat: seq<Byte>,
                   data: seq<Byte>, offset: nat, length: nat, start: Cursor, i: nat, c: Cursor, part: seq<Byte>,
                   done: nat, r: Result<Cursor>)
    requires i < |srcLens| && Inside(lens, start) && Inside(lens, c)
    requires Progress(srcLens, lens, was, flat, data, offset, length, start, i, c)
    requires |part| == PartLen(srcLens, offset, length, i) && Taken(srcLens, offset, length, i + 1) <= |data|
    requires data[Taken(srcLens, offset, length, i)..Taken(srcLens, offset, length, i + 1)] == part
    requires Finished(lens, mem, was, c, part, done, r)
    ensures if r.Ok? then Progress(srcLens, lens, mem, flat, data, offset, length, start, i + 1, r.value)
            else Ended(srcLens, lens, mem, flat, data, offset, length, start,
                       Taken(srcLens, offset, length, i) + done, r)
  {
    var copied := Taken(srcLens, offset, length, i);
    assert part[..done] == data[copied..][..done];
    WrittenNext(mem, was, flat, Pos(lens, start), data, copied, done);
    if r.Err? { EarlyEnd(srcLens, lens, offset, length, start, i + 1, |srcLens|); }
  }

  /** Source buffer `i` as one turn of the outer loop. */
  method CopySource(src: seq<seq<Byte>>, dst: seq<array<Byte>>, offset: nat, length: nat, i: nat, c: Cursor,
                    copied: nat, ghost flat: seq<Byte>, ghost start: Cursor)
    returns (r: Result<Cursor>, n: nat, ghost done: nat)
    requires Distinct(dst) && i < |src| && offset <= |src[0]| && Inside(Lens(dst), start)
    requires copied == Taken(SrcLens(src), offset, length, i)
    requires Progress(SrcLens(src), Lens(dst), Memory(dst), flat, Wanted(src, offset, length), offset, length, start,
                      i, c)
    modifies dst
    ensures n == Taken(SrcLens(src), offset, length, i + 1)
    ensures if r.Ok?
            then Progress(SrcLens(src), Lens(dst), Memory(dst), flat, Wanted(src, offset, length), offset, length,
                          start, i + 1, r.value)
            else Ended(SrcLens(src), Lens(dst), Memory(dst), flat, Wanted(src, offset, length), offset, length, start,
                       done, r)
  {
    PartOfWanted(src, offset, length, i);
    var part := Part(src, offset, length, copied, i);
    ghost var was := Memory(dst);
    r, done := CopyBuffer(dst, c, part);
    PartCopied(SrcLens(src), Lens(dst), Memory(dst), was, flat, Wanted(src, offset, length), offset, length, start, i,
               c, part, done, r);
    done, n := copied + done, copied + |part|;
  }

  /** What `copyv` must achieve from a valid start: `done` bytes of the wanted ones are in place, the
      rest of the memory is untouched, and on success nothing is missing and the cursor has advanced by
      exactly that much. */
  ghost predicate CopyResult(src: seq<seq<Byte>>, dst: seq<array<Byte>>, offset: nat, length: nat, start: Cursor,
                             was: seq<Byte>, r: Result<(nat, Cursor)>, done: nat)
    requires src != [] && offset <= |src[0]| && Inside(Lens(dst), start)
    reads dst
  {
    var data, lens, p := Wanted(src, offset, length), Lens(dst), Pos(Lens(dst), start);
    && done <= |data| && Written(Memory(dst), was, p, data[..done])
    && (r.Ok? ==> r.value.0 == done == |data| && Inside(lens, r.value.1) && Pos(lens, r.value.1) == p + |data|)
  }

  /** When the copy succeeds, for non-empty destination buffers and a start inside one of them. */
  ghost predicate HasRoom(src: seq<seq<Byte>>, lens: seq<nat>, offset: nat, length: nat, start: Cursor)
    requires src != [] && offset <= |src[0]| && Inside(lens, start)
  {
    var end := Size(lens) - Pos(lens, start);
    Taken(SrcLens(src), offset, length, |src|) <= end && Taken(SrcLens(src), offset, length, |src| - 1) < end
  }

  /** Between non-empty buffers the copy gets through `i` source buffers exactly if there is room left
      when the last of them is reached, and enough for its bytes. */
  lemma {:induction false} SolidLandsAll(srcLens: seq<nat>, lens: seq<nat>, offset: nat, length: nat, start: Cursor,
                                         i: nat)
    requires i <= |srcLens| && Solid(lens, start)
    ensures LandAll(srcLens, lens, offset, length, start, i).Ok? <==>
              i > 0 ==> && Pos(lens, start) + Taken(srcLens, offset, length, i - 1) < Size(lens)
                        && Pos(lens, start) + Taken(srcLens, offset, length, i) <= Size(lens)
    ensures match LandAll(srcLens, lens, offset, length, start, i)
            case Ok(c) => Solid(lens, c) case Err(e) => e == MemOverflow
  {
    if i > 0 {
      SolidLandsAll(srcLens, lens, offset, length, start, i - 1);
      TakenMonotone(srcLens, offset, length, if i == 1 then 0 else i - 2, i - 1);
      TakenMonotone(srcLens, offset, length, i - 1, i);
      match LandAll(srcLens, lens, offset, length, start, i - 1) {
        case Err(_) =>
        case Ok(c) =>
          SolidAtEnd(lens, c);
          PosInside(lens, c);
          SolidLands(lens, c, PartLen(srcLens, offset, length, i - 1));
      }
    }
  }

  /** Every source buffer contributes bytes. */
  ghost predicate AllContribute(srcLens: seq<nat>, offset: nat, length: nat) {
    forall i | 0 <= i < |srcLens| :: PartLen(srcLens, offset, length, i) > 0
  }

  lemma {:induction false} FirstEmptySame(lens: seq<nat>, i: nat, j: nat)
    requires i <= |lens| && i <= j <= FirstEmpty(lens, i)
    ensures FirstEmpty(lens, j) == FirstEmpty(lens, i)
    decreases j - i
  {
    if i < j { FirstEmptySame(lens, i + 1, j); }
  }

  /** The cursor is inside a buffer before `fe`, or at the start of `fe`. */
  ghost predicate Within(lens: seq<nat>, fe: nat, c: Cursor)
    requires fe <= |lens|
  {
    c.index <= fe && if c.index < fe then c.offset < lens[c.index] else c.offset == 0
  }

  lemma {:induction false} LandsWithin(lens: seq<nat>, c: Cursor, n: nat)
    requires Inside(lens, c) && n > 0 && Land(lens, c, n).Ok?
    ensures c.index < |lens| && c.index <= Land(lens, c, n).value.index
    ensures Within(lens, FirstEmpty(lens, c.index + 1), Land(lens, c, n).value)
    decreases |lens| - c.index
  {
    if n > lens[c.index] - c.offset {
      LandsWithin(lens, Cursor(c.index + 1, 0), n - (lens[c.index] - c.offset));
    }
  }

  /** From inside a run of non-empty buffers the next bytes must end within the same run. */
  lemma LandsFurther(lens: seq<nat>, start: Cursor, c: Cursor, t: nat, n: nat)
    requires Inside(lens, start) && Inside(lens, c) && Clear(lens, start, t) && t > 0 && n > 0
    requires start.index <= c.index && Within(lens, FirstEmpty(lens, start.index + 1), c)
    requires Pos(lens, c) == Pos(lens, start) + t
    ensures Land(lens, c, n).Ok? <==> Clear(lens, start, t + n)
    ensures Land(lens, c, n).Ok? ==>
              && start.index <= Land(lens, c, n).value.index
              && Within(lens, FirstEmpty(lens, start.index + 1), Land(lens, c, n).value)
  {
    LandsIff(lens, c, n);
    if c.index < FirstEmpty(lens, start.index + 1) {
      FirstEmptySame(lens, start.index + 1, c.index + 1);
      if Land(lens, c, n).Ok? { LandsWithin(lens, c, n); }
    }
  }

  /** If every source buffer contributes, the copy succeeds exactly if all bytes go between the start and
      the next empty buffer, wherever other empty buffers are. */
  lemma {:induction false} ContributedLand(srcLens: seq<nat>, lens: seq<nat>, offset: nat, length: nat, start: Cursor,
                                           i: nat)
    requires 0 < i <= |srcLens| && Inside(lens, start) && AllContribute(srcLens, offset, length)
    ensures LandAll(srcLens, lens, offset, length, start, i).Ok? <==>
              Clear(lens, start, Taken(srcLens, offset, length, i))
    ensures match LandAll(srcLens, lens, offset, length, start, i)
            case Err(_) => true
            case Ok(c) => start.index <= c.index && Within(lens, FirstEmpty(lens, start.index + 1), c)
  {
    var n := PartLen(srcLens, offset, length, i - 1);
    if i == 1 {
      LandsIff(lens, start, n);
      if Land(lens, start, n).Ok? { LandsWithin(lens, start, n); }
    } else {
      ContributedLand(srcLens, lens, offset, length, start, i - 1);
      var t := Taken(srcLens, offset, length, i - 1);
      assert PartLen(srcLens, offset, length, i - 2) > 0;
      match LandAll(srcLens, lens, offset, length, start, i - 1) {
        case Err(_) =>
        case Ok(c) => LandsFurther(lens, start, c, t, n);
      }
    }
  }

  /** The outer loop. */
  method CopyLoop(src: seq<seq<Byte>>, dst: seq<array<Byte>>, offset: nat, length: nat, start: Cursor)
    returns (r: Result<Cursor>, copied: nat, ghost done: nat)
    requires Distinct(dst) && src != [] && offset <= |src[0]| && Inside(Lens(dst), start)
    modifies dst
    ensures Ended(SrcLens(src), Lens(dst), Memory(dst), old(Memory(dst)), Wanted(src, offset, length), offset, length,
                  start, done, r)
    ensures r.Ok? ==> copied == |Wanted(src, offset, length)|
  {
    ghost var flat := Memory(dst);
    NothingWritten(dst, start, Wanted(src, offset, length));
    var c, i := start, 0;
    copied, done := 0, 0;
    while i < |src|
      invariant 0 <= i <= |src| && Inside(Lens(dst), start) && copied == Taken(SrcLens(src), offset, length, i)
      invariant Progress(SrcLens(src), Lens(dst), Memory(dst), flat, Wanted(src, offset, length), offset, length,
                         start, i, c)
    {
      r, copied, done := CopySource(src, dst, offset, length, i, c, copied, flat, start);
      if r.Err? { return; }
      c, i := r.value, i + 1;
    }
    return Ok(c), copied, copied;
  }

  lemma {:induction false} EarlyEnd(srcLens: seq<nat>, lens: seq<nat>, offset: nat, length: nat, start: Cursor, i: nat,
                                    j: nat)
    requires i <= j <= |srcLens| && Inside(lens, start) && LandAll(srcLens, lens, offset, length, start, i).Err?
    ensures LandAll(srcLens, lens, offset, length, start, j) == LandAll(srcLens, lens, offset, length, start, i)
    decreases j
  {
    if i < j { EarlyEnd(srcLens, lens, offset, length, start, i, j - 1); }
  }

  ghost predicate EndsLike(r: Result<(nat, Cursor)>, end: Result<Cursor>) {
    match end case Ok(c) => r.Ok? && r.value.1 == c case Err(e) => r == Err(e)
  }

  /** When `copyv` succeeds and how it ends: for any buffers from their lengths, and between non-empty
      ones exactly if there is room. */
  ghost predicate CopySucceeds(src: seq<seq<Byte>>, lens: seq<nat>, offset: nat, length: nat, start: Cursor,
                               r: Result<(nat, Cursor)>)
    requires src != [] && offset <= |src[0]| && Inside(lens, start)
  {
    && EndsLike(r, LandAll(SrcLens(src), lens, offset, length, start, |src|))
    && (Solid(lens, start) ==>
          && (r.Ok? <==> HasRoom(src, lens, offset, length, start))
          && (r.Ok? ==> Solid(lens, r.value.1)) && (r.Err? ==> r.error == MemOverflow))
  }

  lemma LandedSucceeds(src: seq<seq<Byte>>, lens: seq<nat>, offset: nat, length: nat, start: Cursor,
                       r: Result<(nat, Cursor)>)
    requires src != [] && offset <= |src[0]| && Inside(lens, start)
    requires EndsLike(r, LandAll(SrcLens(src), lens, offset, length, start, |src|))
    ensures CopySucceeds(src, lens, offset, length, start, r)
  {
    if Solid(lens, start) { SolidLandsAll(SrcLens(src), lens, offset, length, start, |src|); }
  }

  method CopyAll(src: seq<seq<Byte>>, dst: seq<array<Byte>>, offset: nat, length: nat, start: Cursor)
    returns (r: Result<(nat, Cursor)>, ghost done: nat)
    requires Distinct(dst) && src != [] && offset <= |src[0]| && Inside(Lens(dst), start)
    modifies dst
    ensures CopyResult(src, dst, offset, length, start, old(Memory(dst)), r, done)
    ensures CopySucceeds(src, Lens(dst), offset, length, start, r)
  {
    var c, n;
    c, n, done := CopyLoop(src, dst, offset, length, start);
    r := match c case Ok(end) => Ok((n, end)) case Err(e) => Err(e);
    LandedSucceeds(src, Lens(dst), offset, length, start, r);
  }

  /** `copyv`.  Whether it succeeds, where the cursor ends and which error ends it follow from the lengths
      of the buffers, for any buffers.  With non-empty destination buffers and a start inside one of them
      it succeeds exactly if the bytes fit and there is room left when the last source buffer is reached. */
  method Copyv(src: seq<seq<Byte>>, dst: seq<array<Byte>>, offset: nat, length: nat, start: Cursor)
    returns (r: Result<(nat, Cursor)>, ghost done: nat)
    requires Distinct(dst)
    modifies dst
    ensures src == [] || length == 0 ==> r == Ok((0, start)) && Memory(dst) == old(Memory(dst))
    ensures src != [] && length > 0 &&
            (offset > |src[0]| || start.index >= |dst| || start.offset > dst[start.index].Length) ==>
              r == Err(MemOverflow) && Memory(dst) == old(Memory(dst))
    ensures src != [] && length > 0 && offset <= |src[0]| &&
            start.index < |dst| && start.offset <= dst[start.index].Length ==>
              && CopyResult(src, dst, offset, length, start, old(Memory(dst)), r, done)
              && CopySucceeds(src, Lens(dst), offset, length, start, r)
  {
    if src == [] || length == 0 { return Ok((0, start)), 0; }
    if offset > |src[0]| || start.index >= |dst| || start.offset > dst[start.index].Length {
      return Err(MemOverflow), 0;
    }
    r, done := CopyAll(src, dst, offset, length, start);
  }

  /** More room than bytes to copy is enough. */
  lemma MoreRoomSuffices(src: seq<seq<Byte>>, lens: seq<nat>, offset: nat, length: nat, start: Cursor)
    requires src != [] && offset <= |src[0]| && Inside(lens, start)
    requires |Wanted(src, offset, length)| < Size(lens) - Pos(lens, start)
    ensures HasRoom(src, lens, offset, length, start)
  {
    TakenMonotone(SrcLens(src), offset, length, |src| - 1, |src|);
  }

  /** Just enough room is not: the bytes fit exactly, but another source buffer follows. */
  lemma ExactFitCanFail()
    ensures var src := [[1], [2]];
            && Wanted(src, 0, 1) == [1] && Solid([1], Cursor(0, 0)) && Size([1]) - Pos([1], Cursor(0, 0)) == 1
            && !HasRoom(src, [1], 0, 1, Cursor(0, 0))
  {
    var src := [[1], [2]];
    assert SrcLens(src) == [1, 1];
    assert LenBefore([1, 1], 1) == LenBefore([1, 1], 0) + 1;
    assert LenBefore([1, 1], 2) == LenBefore([1, 1], 1) + 1;
    assert LenBefore([1], 1) == LenBefore([1], 0) + 1;
    assert FlatTo(src, 1) == FlatTo(src, 0) + [1];
    assert FlatTo(src, 2) == FlatTo(src, 1) + [2];
  }

  // ----- The cursor -------------------------------------------------------------------------------

  /** A piece of one buffer. */
  datatype Slice = Slice(index: nat, offset: nat, len: nat)

  /** The slices follow one another in the flat sequence from `from` up to `to`. */
  ghost predicate Covers(lens: seq<nat>, slices: seq<Slice>, from: nat, to: nat)
    decreases |slices|
  {
    if slices == [] then from == to
    else
      var s := slices[0];
      && s.index < |lens| && s.offset + s.len <= lens[s.index] && LenBefore(lens, s.index) + s.offset == from
      && Covers(lens, slices[1..], from + s.len, to)
  }

  lemma {:induction false} CoversSnoc(lens: seq<nat>, slices: seq<Slice>, from: nat, mid: nat, s: Slice)
    requires Covers(lens, slices, from, mid)
    requires s.index < |lens| && s.offset + s.len <= lens[s.index] && LenBefore(lens, s.index) + s.offset == mid
    ensures Covers(lens, slices + [s], from, mid + s.len)
    decreases |slices|
  {
    if slices == [] {
      assert [s][1..] == [];
      assert Covers(lens, [], mid + s.len, mid + s.len);
    } else {
      CoversSnoc(lens, slices[1..], from + slices[0].len, mid, s);
      assert (slices + [s])[1..] == slices[1..] + [s];
    }
  }

  /** What reading the slices in turn gives. */
  ghost function Bytes(bufs: seq<seq<Byte>>, lens: seq<nat>, slices: seq<Slice>, from: nat, to: nat): seq<Byte>
    requires Fits(bufs, lens) && Covers(lens, slices, from, to)
    decreases |slices|
  {
    if slices == [] then []
    else
      var s := slices[0];
      bufs[s.index][s.offset..s.offset + s.len] + Bytes(bufs, lens, slices[1..], from + s.len, to)
  }

  /** Every slice holds the bytes of `f` at its place. */
  ghost predicate ReadsAs(f: seq<Byte>, bufs: seq<seq<Byte>>, lens: seq<nat>, slices: seq<Slice>, from: nat, to: nat)
    requires Fits(bufs, lens) && Covers(lens, slices, from, to)
    decreases |slices|
  {
    if slices == [] then from <= |f|
    else
      var s := slices[0];
      && from + s.len <= |f| && f[from..from + s.len] == bufs[s.index][s.offset..s.offset + s.len]
      && ReadsAs(f, bufs, lens, slices[1..], from + s.len, to)
  }

  lemma {:induction false} SlicesRead(bufs: seq<seq<Byte>>, lens: seq<nat>, slices: seq<Slice>, from: nat, to: nat)
    requires Fits(bufs, lens) && Covers(lens, slices, from, to) && from <= |Flat(bufs)|
    ensures ReadsAs(Flat(bufs), bufs, lens, slices, from, to)
    decreases |slices|
  {
    if slices != [] {
      var s := slices[0];
      FlatSlice(bufs, lens, |bufs|, s.index, s.offset, s.len);
      SlicesRead(bufs, lens, slices[1..], from + s.len, to);
    }
  }

  lemma {:induction false} ReadsJoin(f: seq<Byte>, bufs: seq<seq<Byte>>, lens: seq<nat>, slices: seq<Slice>,
                                     from: nat, to: nat)
    requires Fits(bufs, lens) && Covers(lens, slices, from, to) && ReadsAs(f, bufs, lens, slices, from, to)
    ensures from <= to <= |f| && Bytes(bufs, lens, slices, from, to) == f[from..to]
    decreases |slices|
  {
    if slices != [] {
      var mid := from + slices[0].len;
      ReadsJoin(f, bufs, lens, slices[1..], mid, to);
      SliceJoin(f, from, mid, to);
    }
  }

  /** Reading the slices in turn reads the flat range. */
  lemma CoveredBytes(bufs: seq<seq<Byte>>, lens: seq<nat>, slices: seq<Slice>, from: nat, to: nat)
    requires Fits(bufs, lens) && Covers(lens, slices, from, to) && from <= |Flat(bufs)|
    ensures from <= to <= |Flat(bufs)| && Bytes(bufs, lens, slices, from, to) == Flat(bufs)[from..to]
  {
    SlicesRead(bufs, lens, slices, from, to);
    ReadsJoin(Flat(bufs), bufs, lens, slices, from, to);
  }

  /** The cursor moved forward by `size` bytes, or to the end. */
  function Advance(lens: seq<nat>, c: Cursor, size: nat): Cursor
    requires Inside(lens, c)
    decreases |lens| - c.index
  {
    if size == 0 || c.index >= |lens| then c
    else
      var left := lens[c.index] - c.offset;
      if left == size then Cursor(c.index + 1, 0)
      else if left > size then Cursor(c.index, c.offset + size)
      else Advance(lens, Cursor(c.index + 1, 0), size - left)
  }

  lemma {:induction false} AdvancePos(lens: seq<nat>, c: Cursor, size: nat)
    requires Inside(lens, c)
    ensures Inside(lens, Advance(lens, c, size))
    ensures Pos(lens, Advance(lens, c, size)) == Min(Pos(lens, c) + size, Size(lens))
    ensures Solid(lens, c) ==> Solid(lens, Advance(lens, c, size))
    decreases |lens| - c.index
  {
    PosInside(lens, c);
    if size > 0 && c.index < |lens| {
      LenMonotone(lens, c.index + 1, |lens|);
      var left := lens[c.index] - c.offset;
      if Solid(lens, c) && c.index + 1 < |lens| { PositiveAt(lens, c.index + 1); }
      if left < size { AdvancePos(lens, Cursor(c.index + 1, 0), size - left); }
    }
  }

  class MemSliceCursor {
    const lens: seq<nat>
    var index: nat
    var offset: nat

    ghost function View(): Cursor reads this { Cursor(index, offset) }

    constructor (lens: seq<nat>)
      ensures this.lens == lens && View() == Cursor(0, 0) && Inside(lens, View()) && Pos(lens, View()) == 0
    {
      this.lens, index, offset := lens, 0, 0;
    }

    method MoveCursor(size0: nat)
      requires Inside(lens, View())
      modifies this
      ensures View() == Advance(lens, old(View()), size0)
      ensures Inside(lens, View()) && Pos(lens, View()) == Min(Pos(lens, old(View())) + size0, Size(lens))
    {
      AdvancePos(lens, View(), size0);
      var size: nat := size0;
      while size > 0 && index < |lens|
        invariant Inside(lens, View()) && Advance(lens, View(), size) == Advance(lens, old(View()), size0)
        decreases |lens| - index
      {
        var left := lens[index] - offset;
        if left == size {
          index, offset := index + 1, 0;
          return;
        } else if left > size {
          offset := offset + size;
          return;
        } else {
          index, offset := index + 1, 0;
          size := size - left;
        }
      }
    }

    /** The slices handed out are the flat range that `MoveCursor` with the same size skips. */
    method Consume(size0: nat) returns (slices: seq<Slice>)
      requires Inside(lens, View())
      modifies this
      ensures View() == Advance(lens, old(View()), size0)
      ensures Inside(lens, View()) && Pos(lens, View()) == Min(Pos(lens, old(View())) + size0, Size(lens))
      ensures Covers(lens, slices, Pos(lens, old(View())), Pos(lens, View()))
    {
      AdvancePos(lens, View(), size0);
      ghost var from := Pos(lens, View());
      var size: nat := size0;
      slices := [];
      while size > 0 && index < |lens|
        invariant Inside(lens, View()) && Advance(lens, View(), size) == Advance(lens, old(View()), size0)
        invariant Covers(lens, slices, from, Pos(lens, View()))
        decreases |lens| - index
      {
        var left := lens[index] - offset;
        CoversSnoc(lens, slices, from, Pos(lens, View()), Slice(index, offset, Min(left, size)));
        if left > size {
          slices := slices + [Slice(index, offset, size)];
          offset := offset + size;
          break;
        } else if left == size {
          slices := slices + [Slice(index, offset, size)];
          index, offset := index + 1, 0;
          break;
        } else {
          slices := slices + [Slice(index, offset, left)];
          index, offset := index + 1, 0;
          size := size - left;
        }
      }
    }
  }
}
