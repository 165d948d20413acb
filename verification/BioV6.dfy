/** `alloc_bio_vecs` of RAFS v6 (rafs/src/metadata/direct_v6.rs): a file range becomes descriptors,
    grouped into one vector per stretch of chunks of the same blob. */
module BioV6 {
  import opened Common
  import opened BlobIo
  import opened Tiling

  /** A chunk index of a chunk-based inode. */
  datatype ChunkAddr = ChunkAddr(blobIndex: nat, chunkIndex: nat)

  /** `make_chunk_io` looks up the blob and the chunk of an address; either may be missing. */
  type Resolver = ChunkAddr -> Option<(Blob, Chunk)>

  /** A regular file: `addrs` are the chunk addresses that fit into the image after the inode. */
  datatype File = File(size: nat, chunkSize: nat, addrs: seq<ChunkAddr>, resolve: Resolver) {
    function AsLayout(): Layout {
      Layout(chunkSize, |addrs|, (k: nat) => if k < |addrs| then resolve(addrs[k]) else None)
    }

    ghost predicate Valid() {
      0 < chunkSize < U32_LIMIT && AsLayout().Valid()
    }
  }

  /** `make_chunk_io`. */
  function MakeChunkIo(f: File, addr: ChunkAddr, offset: nat, len: nat, userIo: bool): Option<IoDesc> {
    match f.resolve(addr)
    case None => None
    case Some((blob, chunk)) => Some(IoDesc(blob, chunk, offset, len, userIo))
  }

  lemma SameLookup(f: File, k: nat, offset: nat, len: nat, userIo: bool)
    requires k < |f.addrs|
    ensures MakeChunkIo(f, f.addrs[k], offset, len, userIo) == MakeDesc(f.AsLayout(), k, offset, len, userIo)
    ensures MakeDesc(f.AsLayout(), k, offset, len, userIo).None? <==> f.AsLayout().chunkAt(k).None?
  {
  }

  /** Bytes requested, clipped to the file. */
  function Clipped(f: File, offset: nat, size: nat): nat
    requires offset <= f.size
  {
    Min(f.size - offset, size)
  }

  /** A push, or the failure of its assertions. */
  function TryPush(v: IoVec, d: IoDesc): Result<IoVec> {
    if CanPush(v, d) then Ok(Push(v, d)) else Err(AssertFailed)
  }

  /** One turn of the loop over the chunks: the first `len` bytes of chunk `k`, if it can be resolved.  The
      contract is about the files for which `ok` holds. */
  method AddChunk(f: File, k: nat, len: nat, vecs: seq<IoVec>, cur: IoVec, userIo: bool, ghost ok: bool,
                  ghost offset: nat, ghost pos: nat)
    returns (r: Result<(seq<IoVec>, IoVec)>)
    requires k < |f.addrs|
    requires ok ==>
               && f.Valid() && 0 < len <= f.chunkSize && pos == k * f.chunkSize
               && Built(f.AsLayout(), vecs, cur, offset, pos, userIo) && offset < pos && pos + len < offset + U32_LIMIT
    ensures ok ==> (r.Ok? <==> f.AsLayout().chunkAt(k).Some?)
    ensures ok ==>
              match r
              case Err(e) => e == EINVAL
              case Ok((vs, c)) => Built(f.AsLayout(), vs, c, offset, pos + len, userIo)
  {
    var made := MakeChunkIo(f, f.addrs[k], 0, len, userIo);
    SameLookup(f, k, 0, len, userIo);
    if made.None? { return Err(EINVAL); }
    var desc := made.value;
    if ok {
      ChunkStart(f.AsLayout(), k);
      BoundaryPiece(f.AsLayout(), k, len, desc, userIo);
      NextPiece(f.AsLayout(), vecs, cur, offset, pos, desc, pos + len, userIo);
    }
    var other := desc.blob.index != cur.blob.index;
    var next := TryPush(if other then EmptyVec(desc.blob) else cur, desc);
    if next.Err? { return Err(next.error); }
    r := Ok((if other then vecs + [cur] else vecs, next.value));
  }

  lemma NextStart(k: nat, cs: nat)
    ensures (k + 1) * cs == k * cs + cs
  {
  }

  /** What the chunks up to index `total` give for the bytes from `at` on: a tiling of `left` bytes, or an
      error because a chunk is missing or because there are too few of them. */
  ghost predicate Given(f: File, at: nat, left: nat, total: nat, userIo: bool, r: Result<seq<IoVec>>)
    requires f.chunkSize > 0
  {
    var end, stop := at + left, total * f.chunkSize;
    match r
    case Ok(vecs) => end <= stop && VecsOk(vecs) && Tiles(f.AsLayout(), Flat(vecs), at, end, userIo)
    case Err(e) => if Unresolved(f.AsLayout(), at, Min(end, stop)) then e == EINVAL
                   else stop < end && e == AssertFailed
  }

  /** All chunks from `head` up to `k` can be resolved. */
  ghost predicate Resolved(f: File, head: nat, k: nat) {
    forall j | head <= j < k <= |f.addrs| :: f.AsLayout().chunkAt(j).Some?
  }

  lemma NoneUnresolved(f: File, at: nat, total: nat, stop: nat)
    requires f.chunkSize > 0 && total <= |f.addrs| && stop == total * f.chunkSize
    requires Resolved(f, at / f.chunkSize, total)
    ensures !Unresolved(f.AsLayout(), at, stop)
  {
    var l := f.AsLayout();
    forall k | at / l.chunkSize <= k < l.count && k * l.chunkSize < stop ensures l.chunkAt(k).Some? {
      if k >= total { Scale(total, k, f.chunkSize); }
    }
  }

  lemma Scale(a: nat, b: nat, c: nat)
    requires a <= b
    ensures a * c <= b * c
  {
  }

  /** The chunks before `k` are done, and `left` bytes up to `end` are not. */
  ghost predicate Going(f: File, vecs: seq<IoVec>, cur: IoVec, offset: nat, end: nat, k: nat, left: nat, userIo: bool)
    requires f.chunkSize > 0
  {
    var pos := k * f.chunkSize;
    && offset / f.chunkSize < k && offset < pos && pos + left == end && Resolved(f, offset / f.chunkSize, k)
    && Built(f.AsLayout(), vecs, cur, offset, pos, userIo)
  }

  /** One turn of the loop, and what it leaves to do. */
  method AddNext(f: File, k: nat, ghost total: nat, left: nat, vecs: seq<IoVec>, cur: IoVec, userIo: bool,
                 ghost ok: bool, ghost offset: nat, ghost end: nat)
    returns (r: Result<(seq<IoVec>, IoVec)>, len: nat)
    requires k < total <= |f.addrs| && left > 0
    requires ok ==> f.Valid() && end < offset + U32_LIMIT && Going(f, vecs, cur, offset, end, k, left, userIo)
    ensures len == Min(f.chunkSize, left)
    ensures ok ==>
              match r
              case Err(e) => e == EINVAL && Unresolved(f.AsLayout(), offset, Min(end, total * f.chunkSize))
              case Ok((vs, c)) =>
                if len == left then end <= total * f.chunkSize && Built(f.AsLayout(), vs, c, offset, end, userIo)
                else Going(f, vs, c, offset, end, k + 1, left - len, userIo)
  {
    len := Min(f.chunkSize, left);
    ghost var pos, stop := k * f.chunkSize, total * f.chunkSize;
    ChunkEnds(k, total, f.chunkSize);
    r := AddChunk(f, k, len, vecs, cur, userIo, ok, offset, pos);
    if ok {
      if r.Err? {
        BoundaryUnresolved(f.AsLayout(), offset, k, Min(end, stop));
      } else if len < left {
        GoesOn(f, r.value.0, r.value.1, offset, end, k, left, userIo, pos, pos + len);
      }
    }
  }

  lemma ChunkEnds(k: nat, total: nat, cs: nat)
    requires k < total
    ensures (k + 1) * cs == k * cs + cs <= total * cs
  {
    NextStart(k, cs);
    Scale(k + 1, total, cs);
  }

  lemma GoesOn(f: File, vecs: seq<IoVec>, cur: IoVec, offset: nat, end: nat, k: nat, left: nat, userIo: bool, pos: nat,
               next: nat)
    requires 0 < f.chunkSize < left && k < |f.addrs| && pos == k * f.chunkSize && next == pos + f.chunkSize
    requires offset / f.chunkSize < k && offset < pos && pos + left == end && Resolved(f, offset / f.chunkSize, k)
    requires f.AsLayout().chunkAt(k).Some? && Built(f.AsLayout(), vecs, cur, offset, next, userIo)
    ensures Going(f, vecs, cur, offset, end, k + 1, left - f.chunkSize, userIo)
  {
    NextStart(k, f.chunkSize);
  }

  /** The loop over the chunks after the first: `rest` bytes remain from their first boundary on, and
      none when the loop ends, unless there are fewer chunks than that. */
  method AllocRest(f: File, head: nat, total: nat, first: IoVec, rest: nat, userIo: bool, ghost ok: bool,
                   ghost offset: nat, ghost end: nat)
    returns (r: Result<seq<IoVec>>)
    requires head < total <= |f.addrs| && 0 < rest
    requires ok ==> f.Valid() && offset <= end < offset + U32_LIMIT && head == offset / f.chunkSize
    requires ok ==> Going(f, [], first, offset, end, head + 1, rest, userIo)
    ensures ok ==> Given(f, offset, end - offset, total, userIo, r)
  {
    var vecs: seq<IoVec> := [];
    var cur := first;
    var left: nat := rest;
    var i := 1;
    while i < total - head
      invariant 1 <= i <= total - head && left > 0
      invariant ok ==> Going(f, vecs, cur, offset, end, head + i, left, userIo)
    {
      var next, len := AddNext(f, head + i, total, left, vecs, cur, userIo, ok, offset, end);
      if next.Err? { return Err(next.error); }
      vecs, cur := next.value.0, next.value.1;
      if left == len { return Ok(vecs + [cur]); }
      left := left - len;
      i := i + 1;
    }
    if ok { NoneUnresolved(f, offset, total, total * f.chunkSize); }
    r := Err(AssertFailed);
  }

  /** The outcome of an allocation for `left` bytes from `at` on.  A request for none still makes one
      descriptor. */
  ghost predicate Allocated(f: File, at: nat, left: nat, total: nat, userIo: bool, r: Result<seq<IoVec>>)
    requires f.chunkSize > 0
  {
    if left > 0 then Given(f, at, left, total, userIo, r)
    else match r
         case Ok(vecs) => VecsOk(vecs) && |Flat(vecs)| == 1 && Flat(vecs)[0].size == 0
         case Err(e) => e == EINVAL && Unresolved(f.AsLayout(), at, at + 1)
  }

  lemma FirstIsPiece(f: File, head: nat, offset: nat, len: nat, desc: IoDesc, userIo: bool)
    requires f.chunkSize > 0 && head < |f.addrs| && head == offset / f.chunkSize
    requires 0 < len <= f.chunkSize - offset % f.chunkSize
    requires MakeChunkIo(f, f.addrs[head], offset % f.chunkSize, len, userIo) == Some(desc)
    ensures desc.size == len && Piece(f.AsLayout(), desc, offset, offset + len, userIo)
  {
    SameLookup(f, head, offset % f.chunkSize, len, userIo);
  }

  lemma FirstBoundary(cs: nat, head: nat, offset: nat)
    requires cs > 0 && head == offset / cs
    ensures offset + (cs - offset % cs) == (head + 1) * cs
  {
    assert offset == head * cs + offset % cs;
    Distribute(head, -1, cs);
  }

  /** The first descriptor and the vector it opens. */
  method FirstChunk(f: File, head: nat, contentOffset: nat, len: nat, userIo: bool, ghost ok: bool, ghost offset: nat)
    returns (r: Result<IoVec>)
    requires head < |f.addrs|
    requires ok ==>
               && f.chunkSize > 0 && head == offset / f.chunkSize && contentOffset == offset % f.chunkSize
               && len <= f.chunkSize - contentOffset && len < U32_LIMIT
    ensures ok ==> (r.Ok? <==> f.AsLayout().chunkAt(head).Some?)
    ensures ok ==>
              match r
              case Err(e) => e == EINVAL
              case Ok(v) => if len > 0 then Built(f.AsLayout(), [], v, offset, offset + len, userIo)
                            else VecsOk([v]) && |Flat([v])| == 1 && Flat([v])[0].size == 0
  {
    var made := MakeChunkIo(f, f.addrs[head], contentOffset, len, userIo);
    SameLookup(f, head, contentOffset, len, userIo);
    if made.None? { return Err(EINVAL); }
    var desc := made.value;
    if ok {
      if len == 0 {
        SingleVec(desc);
      } else {
        FirstIsPiece(f, head, offset, len, desc, userIo);
        FirstPiece(f.AsLayout(), desc, offset, offset + len, userIo);
      }
    }
    r := TryPush(EmptyVec(desc.blob), desc);
  }

  /** The first chunk and, when it does not suffice, the rest. */
  method AllocFirst(f: File, head: nat, total: nat, contentOffset: nat, left: nat, userIo: bool, ghost ok: bool,
                    ghost offset: nat)
    returns (r: Result<seq<IoVec>>)
    requires 0 < f.chunkSize && head < total <= |f.addrs| && contentOffset < f.chunkSize
    requires ok ==>
               && f.Valid() && left < U32_LIMIT && head == offset / f.chunkSize && contentOffset == offset % f.chunkSize
    ensures ok ==> Allocated(f, offset, left, total, userIo, r)
  {
    var len: nat := Min(f.chunkSize - contentOffset, left);
    FirstBoundary(f.chunkSize, offset / f.chunkSize, offset);
    if ok { Scale(head + 1, total, f.chunkSize); }
    var first := FirstChunk(f, head, contentOffset, len, userIo, ok, offset);
    if first.Err? {
      if ok { FirstUnresolved(f.AsLayout(), offset, Min(left, total * f.chunkSize - offset)); }
      return Err(first.error);
    }
    var descs := first.value;
    if left == len {
      assert [] + [descs] == [descs];
      r := Ok([descs]);
    } else {
      r := AllocRest(f, head, total, descs, left - len, userIo, ok, offset, offset + left);
    }
  }

  lemma IndicesFit(size: nat, cs: nat, offset: nat)
    requires cs > 0 && offset <= size
    ensures offset / cs <= DivRoundUp(size, cs) && size <= DivRoundUp(size, cs) * cs
    ensures offset < size ==> offset / cs < DivRoundUp(size, cs)
  {
    RoundUpCovers(size, cs);
    if size > 0 {
      RoundUpIsLastPlusOne(size, cs);
      DivOrder(if offset < size then offset else size - 1, size - 1, cs);
    }
    var q := DivRoundUp(size, cs);
    QuotientUnique(q * cs, cs, q, 0);
    DivOrder(offset, q * cs, cs);
  }

  /** What `alloc_bio_vecs` makes of a request.  Chunk indices are cast to 32 bits, so the descriptors
      start at the chunk with the wrapped index. */
  ghost predicate Outcome(f: File, offset: nat, size: nat, userIo: bool, r: Result<seq<IoVec>>)
    requires 0 < f.chunkSize
  {
    OutcomeAt(f, offset, size, AsU32(offset / f.chunkSize), AsU32(DivRoundUp(f.size, f.chunkSize)), userIo, r)
  }

  ghost predicate OutcomeAt(f: File, offset: nat, size: nat, head: nat, total: nat, userIo: bool,
                            r: Result<seq<IoVec>>)
    requires 0 < f.chunkSize
  {
    if total < head then r == Err(Overflow)
    else if total > |f.addrs| then r == Err(InvalidImage)
    else if total == head then r == Ok([])
    else if offset > f.size then r == Err(Overflow)
    else Allocated(f, Position(head, f.chunkSize, offset), AsU32(Clipped(f, offset, size)), total, userIo, r)
  }

  /** The position in chunk `head` that an offset has in its own chunk. */
  function Position(head: nat, cs: nat, offset: nat): nat
    requires cs > 0
  {
    head * cs + offset % cs
  }

  lemma Wrapped(head: nat, cs: nat, offset: nat)
    requires cs > 0
    ensures var at := Position(head, cs, offset); at / cs == head && at % cs == offset % cs
  {
    QuotientUnique(head * cs + offset % cs, cs, head, offset % cs);
  }

  /** `alloc_bio_vecs`: the length is clipped to the file and then cast to 32 bits, and so are the
      indices of the first chunk and of the end. */
  method AllocBioVecs(f: File, offset: nat, size: nat, userIo: bool) returns (r: Result<seq<IoVec>>)
    requires 0 < f.chunkSize
    ensures f.Valid() ==> Outcome(f, offset, size, userIo, r)
  {
    var head := AsU32(offset / f.chunkSize);
    var total := AsU32(DivRoundUp(f.size, f.chunkSize));
    if total < head { return Err(Overflow); }
    if total > |f.addrs| { return Err(InvalidImage); }
    if total == head { return Ok([]); }
    if offset > f.size { return Err(Overflow); }
    var left := AsU32(Min(f.size - offset, size));
    Wrapped(head, f.chunkSize, offset);
    r := AllocFirst(f, head, total, offset % f.chunkSize, left, userIo, f.Valid(),
                    Position(head, f.chunkSize, offset));
  }

  /** For a file of fewer than 2^32 chunks and an offset in it nothing wraps: the descriptors cover the
      clipped length from `offset` on, and the final `assert_eq!(left, 0)` and the assertions of `push`
      hold. */
  lemma SmallFileOutcome(f: File, offset: nat, size: nat, userIo: bool, r: Result<seq<IoVec>>)
    requires f.Valid() && offset < f.size && DivRoundUp(f.size, f.chunkSize) < U32_LIMIT
    requires Outcome(f, offset, size, userIo, r)
    ensures var total := DivRoundUp(f.size, f.chunkSize);
            if |f.addrs| < total then r == Err(InvalidImage)
            else && Allocated(f, offset, AsU32(Clipped(f, offset, size)), total, userIo, r)
                 && r != Err(AssertFailed)
  {
    IndicesFit(f.size, f.chunkSize, offset);
    OwnPosition(offset, f.chunkSize);
    if DivRoundUp(f.size, f.chunkSize) <= |f.addrs| {
      EnoughChunks(f, offset, AsU32(Clipped(f, offset, size)), DivRoundUp(f.size, f.chunkSize), userIo, r);
    }
  }

  lemma OwnPosition(offset: nat, cs: nat)
    requires cs > 0
    ensures Position(offset / cs, cs, offset) == offset
  {
  }

  lemma EnoughChunks(f: File, at: nat, left: nat, total: nat, userIo: bool, r: Result<seq<IoVec>>)
    requires f.chunkSize > 0 && at + left <= total * f.chunkSize && Allocated(f, at, left, total, userIo, r)
    ensures r != Err(AssertFailed)
  {
  }

  /** A read whose first chunk has the wrapped index of the end gets no vectors: the first chunk of a file
      of 2^32 chunks, for one. */
  lemma WrappedReadsNothing(f: File, offset: nat, size: nat, userIo: bool, r: Result<seq<IoVec>>)
    requires f.Valid() && f.size == U32_LIMIT * f.chunkSize && offset < f.chunkSize
    requires Outcome(f, offset, size, userIo, r)
    ensures r == Ok([])
  {
    QuotientUnique(offset, f.chunkSize, 0, offset);
    RoundUpExact(U32_LIMIT, f.chunkSize);
  }

  /** Chunks of two bytes or more are fewer than the bytes. */
  lemma FewerChunks(n: nat, d: nat)
    requires n > 1 && d > 1
    ensures DivRoundUp(n, d) < n
  {
    InPiece(n + d - 1, d);
    SumBelowProduct(n, d);
    if DivRoundUp(n, d) >= n { Scale(n, DivRoundUp(n, d), d); }
  }

  lemma SumBelowProduct(n: nat, d: nat)
    requires n > 1 && d > 1
    ensures n + d <= n * d
  {
    NextStart(n - 1, d);
    Scale(2, d, n - 1);
    assert d * (n - 1) == (n - 1) * d;
  }

  lemma RoundUpExact(n: nat, d: nat)
    requires d > 0
    ensures DivRoundUp(n * d, d) == n
  {
    QuotientUnique(n * d + d - 1, d, n, d - 1);
    QuotientUnique(n * d, d, n, 0);
  }

  /** For a file of fewer than 2^32 chunks the descriptors cover the request up to its end or that of the
      file exactly when this is less than 4 GiB away. */
  lemma CoversWholeRangeIff(f: File, offset: nat, size: nat, userIo: bool, vecs: seq<IoVec>)
    requires f.Valid() && offset < f.size && size > 0 && DivRoundUp(f.size, f.chunkSize) < U32_LIMIT
    requires Outcome(f, offset, size, userIo, Ok(vecs))
    ensures var end := if offset + size < f.size then offset + size else f.size;
            Tiles(f.AsLayout(), Flat(vecs), offset, end, userIo) <==> end - offset < U32_LIMIT
  {
    var n := (if offset + size < f.size then offset + size else f.size) - offset;
    var descs := Flat(vecs);
    SmallFileOutcome(f, offset, size, userIo, Ok(vecs));
    if AsU32(n) > 0 { TilesTotal(f.AsLayout(), descs, offset, offset + AsU32(n), userIo); }
    if Tiles(f.AsLayout(), descs, offset, offset + n, userIo) {
      TilesTotal(f.AsLayout(), descs, offset, offset + n, userIo);
    }
  }
}
