/** `rafsv5_alloc_bio_vecs` (rafs/src/metadata/layout/v5.rs): descriptors for a range of a RAFS v5
    file, whose chunks carry their own file offsets and may leave holes. */
module BioV5 {
  import opened Common
  import opened BlobIo
  import opened Tiling

  /** A chunk of a v5 file: `size` uncompressed bytes at `fileOffset`. */
  datatype ChunkV5 = ChunkV5(blobIndex: nat, fileOffset: nat, size: nat, chunk: Chunk) {
    function FileEnd(): nat { fileOffset + size }
  }

  datatype FileV5 = FileV5(ino: nat, isReg: bool, size: nat, chunkSize: nat, hasHole: bool,
                           chunks: seq<ChunkV5>, blobs: nat -> Option<Blob>)
  {
    function BlobOf(k: nat): Option<Blob>
      requires k < |chunks|
    {
      blobs(chunks[k].blobIndex)
    }

    function AsLayout(): Layout {
      Layout(chunkSize, |chunks|,
             (k: nat) => if k < |chunks| && BlobOf(k).Some? then Some((BlobOf(k).value, chunks[k].chunk)) else None)
    }

    /** Blobs are told apart by index, and chunks do not overlap. */
    ghost predicate Valid() {
      && chunkSize > 0 && AsLayout().Valid()
      && forall k | 0 < k < |chunks| :: chunks[k - 1].FileEnd() <= chunks[k].fileOffset
    }

    /** Without holes chunk `k` holds the bytes from `k * chunkSize` up to the next chunk or the end. */
    ghost predicate HoleFree() {
      && chunkSize > 0 && !hasHole && |chunks| == DivRoundUp(size, chunkSize)
      && forall k | 0 <= k < |chunks| ::
           chunks[k].fileOffset == k * chunkSize && chunks[k].FileEnd() == Min((k + 1) * chunkSize, size)
    }
  }

  /** `calculate_bio_chunk_index` for a non-empty range, with 32-bit wrap-around. */
  function ChunkIndices(f: FileV5, offset: nat, end: nat): (nat, nat)
    requires f.chunkSize > 0 && offset < end
  {
    if f.hasHole then (0, |f.chunks|)
    else (AsU32(offset / f.chunkSize), Min(AsU32(AsU32((end - 1) / f.chunkSize) + 1), |f.chunks|))
  }

  /** `add_chunk_to_bio_desc`: a chunk before the range adds nothing, one beyond it is an error, and
      any other adds its overlap with the range. */
  function AddChunk(v: IoVec, offset: nat, end: nat, c: ChunkV5, blob: Blob, userIo: bool): Result<IoVec>
    requires offset < end
  {
    if offset >= c.FileEnd() then Ok(v)
    else if end <= c.fileOffset then Err(EINVAL)
    else
      var from := if offset > c.fileOffset then offset - c.fileOffset else 0;
      var to := if end < c.FileEnd() then end - c.fileOffset else c.size;
      var d := IoDesc(blob, c.chunk, from, to - from, userIo);
      if CanPush(v, d) then Ok(Push(v, d)) else Err(AssertFailed)
  }

  /** The loop over the chunks from `k` to `last`, with `cur` the open vector. */
  function AddChunks(f: FileV5, k: nat, last: nat, offset: nat, end: nat, vecs: seq<IoVec>, cur: IoVec,
                     userIo: bool): Result<seq<IoVec>>
    requires last <= |f.chunks| && offset < end
    decreases last - k
  {
    if k >= last then Ok(vecs + [cur])
    else
      var blob := f.BlobOf(k);
      if blob.None? then Err(EINVAL)
      else if blob.value.index != cur.blob.index then
        var next :- AddChunk(EmptyVec(blob.value), offset, end, f.chunks[k], blob.value, userIo);
        AddChunks(f, k + 1, last, offset, end, vecs + [cur], next, userIo)
      else
        var next :- AddChunk(cur, offset, end, f.chunks[k], blob.value, userIo);
        AddChunks(f, k + 1, last, offset, end, vecs, next, userIo)
  }

  function Alloc(f: FileV5, offset: nat, size: nat, userIo: bool): Result<seq<IoVec>>
    requires f.chunkSize > 0
  {
    var end := offset + size;
    if end >= U64_LIMIT then Err(EINVAL)
    else if size == 0 || ChunkIndices(f, offset, end).0 >= |f.chunks| then Ok([])
    else
      var (first, last) := ChunkIndices(f, offset, end);
      var blob := f.BlobOf(first);
      if blob.None? then Err(EINVAL)
      else
        var cur :- AddChunk(EmptyVec(blob.value), offset, end, f.chunks[first], blob.value, userIo);
        AddChunks(f, first + 1, last, offset, end, [], cur, userIo)
  }

  /** `add_chunk_to_bio_desc` on the open vector. */
  method AddChunkTo(desc: BlobIoVec, offset: nat, end: nat, c: ChunkV5, blob: Blob, userIo: bool)
    returns (r: Result<()>)
    requires offset < end
    modifies desc
    ensures match AddChunk(old(desc.View()), offset, end, c, blob, userIo)
            case Ok(v) => r == Ok(()) && desc.View() == v
            case Err(e) => r == Err(e) && desc.View() == old(desc.View())
  {
    if offset >= c.FileEnd() { return Ok(()); }
    if end <= c.fileOffset { return Err(EINVAL); }
    var from := if offset > c.fileOffset then offset - c.fileOffset else 0;
    var to := if end < c.FileEnd() then end - c.fileOffset else c.size;
    var ok := desc.PushDesc(IoDesc(blob, c.chunk, from, to - from, userIo));
    r := if ok then Ok(()) else Err(AssertFailed);
  }

  /** `alloc_bio_vecs`: the first chunk opens a vector, and the others follow in a loop. */
  method AllocBioVecs(f: FileV5, offset: nat, size: nat, userIo: bool) returns (r: Result<seq<IoVec>>)
    requires f.chunkSize > 0
    ensures r == Alloc(f, offset, size, userIo)
  {
    var end := offset + size;
    if end >= U64_LIMIT { return Err(EINVAL); }
    if size == 0 { return Ok([]); }
    var (first, last) := ChunkIndices(f, offset, end);
    if first >= |f.chunks| { return Ok([]); }
    var blob := f.BlobOf(first);
    if blob.None? { return Err(EINVAL); }
    var desc := new BlobIoVec(blob.value);
    var added := AddChunkTo(desc, offset, end, f.chunks[first], blob.value, userIo);
    if added.Err? { return Err(added.error); }
    r := AddRest(f, first + 1, last, offset, end, desc, userIo);
  }

  /** The loop over the other chunks. */
  method AddRest(f: FileV5, k0: nat, last: nat, offset: nat, end: nat, desc0: BlobIoVec, userIo: bool)
    returns (r: Result<seq<IoVec>>)
    requires last <= |f.chunks| && offset < end
    modifies desc0
    ensures r == old(AddChunks(f, k0, last, offset, end, [], desc0.View(), userIo))
  {
    var vecs: seq<IoVec>, desc, k := [], desc0, k0;
    while k < last
      invariant k0 <= k && (desc == desc0 || fresh(desc))
      invariant AddChunks(f, k, last, offset, end, vecs, desc.View(), userIo) ==
                old(AddChunks(f, k0, last, offset, end, [], desc0.View(), userIo))
    {
      var blob := f.BlobOf(k);
      if blob.None? { return Err(EINVAL); }
      if blob.value.index != desc.blob.index {
        vecs := vecs + [desc.View()];
        desc := new BlobIoVec(blob.value);
      }
      var added := AddChunkTo(desc, offset, end, f.chunks[k], blob.value, userIo);
      if added.Err? { return Err(added.error); }
      k := k + 1;
    }
    r := Ok(vecs + [desc.View()]);
  }

  // ----- Never more than was asked for ------------------------------------------------------

  /** A consistent vector on a blob of the file that carries the requested I/O flag. */
  ghost predicate SoundVec(f: FileV5, v: IoVec, userIo: bool) {
    VecOk(v) && FlagIs(v.descs, userIo) && ResolvesTo(f.AsLayout(), v.blob)
  }

  ghost predicate Sound(f: FileV5, vecs: seq<IoVec>, userIo: bool) {
    forall i | 0 <= i < |vecs| :: SoundVec(f, vecs[i], userIo)
  }

  ghost predicate FlagIs(descs: seq<IoDesc>, userIo: bool) {
    forall j | 0 <= j < |descs| :: descs[j].userIo == userIo
  }

  /** Where the range has been covered to, at the most, once the chunks before `k` are handled. */
  ghost function Reach(f: FileV5, k: nat, offset: nat, end: nat): nat
    requires k <= |f.chunks|
  {
    if k == 0 then offset else
      var e := Min(end, f.chunks[k - 1].FileEnd());
      if e < offset then offset else e
  }

  /** Adding one chunk adds at most the part of the range it advances over. */
  lemma AddChunkBound(f: FileV5, k: nat, v: IoVec, offset: nat, end: nat, blob: Blob, userIo: bool)
    requires f.Valid() && k < |f.chunks| && offset < end
    requires VecOk(v) && FlagIs(v.descs, userIo) && SameBlob(v.blob, blob)
    requires v.size <= Reach(f, k, offset, end) - offset
    ensures match AddChunk(v, offset, end, f.chunks[k], blob, userIo)
            case Ok(w) =>
              && VecOk(w) && FlagIs(w.descs, userIo) && w.blob == v.blob && v.size <= w.size
              && w.size - v.size <= Reach(f, k + 1, offset, end) - Reach(f, k, offset, end)
            case Err(e) => e == EINVAL || (e == AssertFailed && end - offset >= U32_LIMIT)
  {
    var c := f.chunks[k];
    if offset < c.FileEnd() && c.fileOffset < end {
      var from := if offset > c.fileOffset then offset - c.fileOffset else 0;
      var to := if end < c.FileEnd() then end - c.fileOffset else c.size;
      PushKeepsVec(v, IoDesc(blob, c.chunk, from, to - from, userIo));
    }
  }

  ghost function Sum(vecs: seq<IoVec>): nat {
    if vecs == [] then 0 else Sum(vecs[..|vecs| - 1]) + vecs[|vecs| - 1].size
  }

  lemma SumSnoc(vecs: seq<IoVec>, v: IoVec)
    ensures Sum(vecs + [v]) == Sum(vecs) + v.size
  {
    assert (vecs + [v])[..|vecs|] == vecs;
  }

  lemma {:induction false} SumCons(v: IoVec, vecs: seq<IoVec>)
    ensures Sum([v] + vecs) == v.size + Sum(vecs)
  {
    if vecs == [] {
      assert [v] + vecs == [] + [v];
      SumSnoc([], v);
    } else {
      var n := |vecs| - 1;
      SumCons(v, vecs[..n]);
      assert ([v] + vecs)[..n + 1] == [v] + vecs[..n];
    }
  }

  /** The allocation handled the chunks before `k` within the range's bounds. */
  ghost predicate Bounded(f: FileV5, k: nat, offset: nat, end: nat, vecs: seq<IoVec>, cur: IoVec, userIo: bool) {
    && k <= |f.chunks| && Sound(f, vecs, userIo) && SoundVec(f, cur, userIo)
    && Sum(vecs) + cur.size <= Reach(f, k, offset, end) - offset
  }

  ghost predicate BoundedResult(f: FileV5, r: Result<seq<IoVec>>, size: nat, userIo: bool) {
    match r
    case Ok(vecs) => Sound(f, vecs, userIo) && Sum(vecs) <= size
    case Err(e) => e == EINVAL || (e == AssertFailed && size >= U32_LIMIT)
  }

  lemma BlobResolves(f: FileV5, k: nat)
    requires k < |f.chunks| && f.BlobOf(k).Some?
    ensures ResolvesTo(f.AsLayout(), f.BlobOf(k).value)
  {
    assert f.AsLayout().chunkAt(k).Some?;
  }

  lemma SoundSnoc(f: FileV5, vecs: seq<IoVec>, cur: IoVec, userIo: bool)
    requires Sound(f, vecs, userIo) && SoundVec(f, cur, userIo)
    ensures Sound(f, vecs + [cur], userIo) && Sum(vecs + [cur]) == Sum(vecs) + cur.size
  {
    SumSnoc(vecs, cur);
    forall i | 0 <= i < |vecs| + 1 ensures SoundVec(f, (vecs + [cur])[i], userIo) {
      if i < |vecs| { assert (vecs + [cur])[i] == vecs[i]; }
    }
  }

  /** Chunk `k` on the blob of the open vector. */
  lemma BoundedSame(f: FileV5, k: nat, offset: nat, end: nat, vecs: seq<IoVec>, cur: IoVec, blob: Blob, userIo: bool)
    requires f.Valid() && k < |f.chunks| && f.BlobOf(k) == Some(blob) && blob.index == cur.blob.index
    requires offset < end && Bounded(f, k, offset, end, vecs, cur, userIo)
    ensures match AddChunk(cur, offset, end, f.chunks[k], blob, userIo)
            case Ok(next) => Bounded(f, k + 1, offset, end, vecs, next, userIo)
            case Err(e) => e == EINVAL || (e == AssertFailed && end - offset >= U32_LIMIT)
  {
    BlobResolves(f, k);
    SameIndexSameBlob(f.AsLayout(), cur.blob, blob);
    AddChunkBound(f, k, cur, offset, end, blob, userIo);
  }

  /** Chunk `k` on another blob. */
  lemma BoundedNew(f: FileV5, k: nat, offset: nat, end: nat, vecs: seq<IoVec>, cur: IoVec, blob: Blob, userIo: bool)
    requires f.Valid() && k < |f.chunks| && f.BlobOf(k) == Some(blob)
    requires offset < end && Bounded(f, k, offset, end, vecs, cur, userIo)
    ensures match AddChunk(EmptyVec(blob), offset, end, f.chunks[k], blob, userIo)
            case Ok(next) => Bounded(f, k + 1, offset, end, vecs + [cur], next, userIo)
            case Err(e) => e == EINVAL || (e == AssertFailed && end - offset >= U32_LIMIT)
  {
    BlobResolves(f, k);
    SoundSnoc(f, vecs, cur, userIo);
    AddChunkBound(f, k, EmptyVec(blob), offset, end, blob, userIo);
  }

  lemma {:induction false} AddChunksBounded(f: FileV5, k: nat, last: nat, offset: nat, end: nat, vecs: seq<IoVec>,
                                            cur: IoVec, userIo: bool)
    requires f.Valid() && last <= |f.chunks| && offset < end && Bounded(f, k, offset, end, vecs, cur, userIo)
    ensures BoundedResult(f, AddChunks(f, k, last, offset, end, vecs, cur, userIo), end - offset, userIo)
    decreases last - k
  {
    if k >= last {
      SoundSnoc(f, vecs, cur, userIo);
    } else if f.BlobOf(k).Some? {
      var blob := f.BlobOf(k).value;
      if blob.index != cur.blob.index {
        BoundedNew(f, k, offset, end, vecs, cur, blob, userIo);
        var next := AddChunk(EmptyVec(blob), offset, end, f.chunks[k], blob, userIo);
        if next.Ok? { AddChunksBounded(f, k + 1, last, offset, end, vecs + [cur], next.value, userIo); }
      } else {
        BoundedSame(f, k, offset, end, vecs, cur, blob, userIo);
        var next := AddChunk(cur, offset, end, f.chunks[k], blob, userIo);
        if next.Ok? { AddChunksBounded(f, k + 1, last, offset, end, vecs, next.value, userIo); }
      }
    }
  }

  /** For every v5 file, with or without holes, the vectors hold at most the requested bytes, and an
      assertion of `push` can fire only for a request of 4 GiB or more. */
  lemma AllocBounded(f: FileV5, offset: nat, size: nat, userIo: bool)
    requires f.Valid()
    ensures BoundedResult(f, Alloc(f, offset, size, userIo), size, userIo)
  {
    var end := offset + size;
    if end < U64_LIMIT && size > 0 {
      var (first, last) := ChunkIndices(f, offset, end);
      if first < |f.chunks| && f.BlobOf(first).Some? {
        BoundedFromFirst(f, offset, end, first, last, f.BlobOf(first).value, userIo);
      }
    }
  }

  lemma BoundedFromFirst(f: FileV5, offset: nat, end: nat, first: nat, last: nat, blob: Blob, userIo: bool)
    requires f.Valid() && first < |f.chunks| && last <= |f.chunks| && offset < end && f.BlobOf(first) == Some(blob)
    ensures match AddChunk(EmptyVec(blob), offset, end, f.chunks[first], blob, userIo)
            case Err(e) => BoundedResult(f, Err(e), end - offset, userIo)
            case Ok(cur) =>
              BoundedResult(f, AddChunks(f, first + 1, last, offset, end, [], cur, userIo), end - offset, userIo)
  {
    BlobResolves(f, first);
    AddChunkBound(f, first, EmptyVec(blob), offset, end, blob, userIo);
    var cur := AddChunk(EmptyVec(blob), offset, end, f.chunks[first], blob, userIo);
    if cur.Ok? { AddChunksBounded(f, first + 1, last, offset, end, [], cur.value, userIo); }
  }

  // ----- Files without holes: an exact tiling -------------------------------------------------

  ghost predicate TiledResult(f: FileV5, offset: nat, end: nat, userIo: bool, r: Result<seq<IoVec>>)
    requires f.chunkSize > 0
  {
    match r
    case Ok(vecs) => VecsOk(vecs) && Tiles(f.AsLayout(), Flat(vecs), offset, end, userIo)
    case Err(e) => e == EINVAL && Unresolved(f.AsLayout(), offset, end)
  }

  /** The facts about chunk `k` that its position gives: it holds the bytes from `start` up to `stop`. */
  ghost predicate Holds(f: FileV5, k: nat, start: nat, stop: nat) {
    && k < |f.chunks| && start == k * f.chunkSize < stop == f.chunks[k].FileEnd()
    && f.chunks[k].fileOffset == start && stop == Min(start + f.chunkSize, f.size)
  }

  lemma HoleFreeHolds(f: FileV5, k: nat)
    requires f.HoleFree() && k < |f.chunks|
    ensures Holds(f, k, k * f.chunkSize, f.chunks[k].FileEnd())
    ensures (k + 1) * f.chunkSize == k * f.chunkSize + f.chunkSize
  {
    RoundUpCovers(f.size, f.chunkSize);
    MulOrder(k + 1, |f.chunks|, f.chunkSize);
    assert (k + 1) * f.chunkSize == k * f.chunkSize + f.chunkSize;
  }

  /** What a chunk contributes to [offset, end): the part from `pos` on that it holds. */
  lemma ChunkContribution(f: FileV5, k: nat, start: nat, stop: nat, v: IoVec, offset: nat, end: nat, blob: Blob,
                          userIo: bool, pos: nat)
    requires Holds(f, k, start, stop) && offset < end && offset < stop && start < end
    requires pos == if offset > start then offset else start
    ensures var d := IoDesc(blob, f.chunks[k].chunk, pos - start, Min(stop, end) - pos, userIo);
            AddChunk(v, offset, end, f.chunks[k], blob, userIo) ==
            if CanPush(v, d) then Ok(Push(v, d)) else Err(AssertFailed)
  {
  }

  lemma IndexEnd(f: FileV5, end: nat, last: nat, k: nat)
    requires f.HoleFree() && 0 < end && last == Min((end - 1) / f.chunkSize + 1, |f.chunks|)
    ensures k < last <==> k < |f.chunks| && k * f.chunkSize < end
    ensures k < |f.chunks| ==> k * f.chunkSize < f.size
    ensures |f.chunks| * f.chunkSize >= f.size
  {
    StartsBefore(end, f.chunkSize, k);
    RoundUpCovers(f.size, f.chunkSize);
    if k < |f.chunks| { MulOrder(k + 1, |f.chunks|, f.chunkSize); }
  }

  /** Chunk `k` starts before `end` exactly if it is not past the chunk of the last byte. */
  lemma StartsBefore(end: nat, cs: nat, k: nat)
    requires cs > 0 && end > 0
    ensures k <= (end - 1) / cs <==> k * cs < end
  {
    var q := (end - 1) / cs;
    InPiece(end - 1, cs);
    if k <= q { MulOrder(k, q, cs); } else { MulOrder(q + 1, k, cs); }
  }

  lemma LayoutChunk(f: FileV5, k: nat, offset: nat, len: nat, blob: Blob, userIo: bool)
    requires k < |f.chunks| && f.BlobOf(k) == Some(blob)
    ensures MakeDesc(f.AsLayout(), k, offset, len, userIo) == Some(IoDesc(blob, f.chunks[k].chunk, offset, len, userIo))
  {
  }

  /** Handling the chunk the range starts in opens the first vector. */
  lemma TileFirst(f: FileV5, k: nat, start: nat, stop: nat, offset: nat, end: nat, blob: Blob, userIo: bool)
    returns (cur: IoVec)
    requires f.Valid() && Holds(f, k, start, stop) && start <= offset < stop
    requires offset < end < offset + U32_LIMIT && f.BlobOf(k) == Some(blob)
    ensures AddChunk(EmptyVec(blob), offset, end, f.chunks[k], blob, userIo) == Ok(cur)
    ensures Built(f.AsLayout(), [], cur, offset, Min(stop, end), userIo)
  {
    var to := Min(stop, end);
    QuotientUnique(offset, f.chunkSize, k, offset - start);
    var d := IoDesc(blob, f.chunks[k].chunk, offset - start, to - offset, userIo);
    LayoutChunk(f, k, offset - start, to - offset, blob, userIo);
    FirstPiece(f.AsLayout(), d, offset, to, userIo);
    ChunkContribution(f, k, start, stop, EmptyVec(blob), offset, end, blob, userIo, offset);
    cur := Push(EmptyVec(blob), d);
  }

  /** Handling chunk `k` extends the tiling to the chunk's end or the range's. */
  lemma TileStep(f: FileV5, k: nat, start: nat, stop: nat, offset: nat, end: nat, vecs: seq<IoVec>, cur: IoVec,
                 blob: Blob, userIo: bool)
    returns (vs: seq<IoVec>, base: IoVec, next: IoVec)
    requires f.Valid() && Holds(f, k, start, stop) && offset < start < end < offset + U32_LIMIT
    requires f.BlobOf(k) == Some(blob) && Built(f.AsLayout(), vecs, cur, offset, start, userIo)
    ensures blob.index == cur.blob.index ==> base == cur && vs == vecs
    ensures blob.index != cur.blob.index ==> base == EmptyVec(blob) && vs == vecs + [cur]
    ensures AddChunk(base, offset, end, f.chunks[k], blob, userIo) == Ok(next)
    ensures Built(f.AsLayout(), vs, next, offset, Min(stop, end), userIo)
  {
    var to := Min(stop, end);
    var d := IoDesc(blob, f.chunks[k].chunk, 0, to - start, userIo);
    LayoutChunk(f, k, 0, to - start, blob, userIo);
    BoundaryPiece(f.AsLayout(), k, to - start, d, userIo);
    NextPiece(f.AsLayout(), vecs, cur, offset, start, d, to, userIo);
    if blob.index == cur.blob.index {
      base, vs := cur, vecs;
    } else {
      base, vs := EmptyVec(blob), vecs + [cur];
    }
    ChunkContribution(f, k, start, stop, base, offset, end, blob, userIo, start);
    next := Push(base, d);
  }

  lemma {:induction false} AddChunksTile(f: FileV5, k: nat, last: nat, offset: nat, end: nat, vecs: seq<IoVec>,
                                         cur: IoVec, userIo: bool)
    requires f.Valid() && f.HoleFree() && offset < end <= f.size && end < offset + U32_LIMIT
    requires offset / f.chunkSize < k <= last == Min((end - 1) / f.chunkSize + 1, |f.chunks|)
    requires offset < k * f.chunkSize && Built(f.AsLayout(), vecs, cur, offset, Min(k * f.chunkSize, end), userIo)
    ensures TiledResult(f, offset, end, userIo, AddChunks(f, k, last, offset, end, vecs, cur, userIo))
    decreases last - k
  {
    IndexEnd(f, end, last, k);
    if k == last {
      assert |f.chunks| * f.chunkSize >= f.size;
    } else if f.BlobOf(k).None? {
      BoundaryUnresolved(f.AsLayout(), offset, k, end);
    } else {
      var blob := f.BlobOf(k).value;
      HoleFreeHolds(f, k);
      var vs, base, next := TileStep(f, k, k * f.chunkSize, f.chunks[k].FileEnd(), offset, end, vecs, cur, blob,
                                     userIo);
      AddChunksTile(f, k + 1, last, offset, end, vs, next, userIo);
    }
  }

  /** The end of the request is immaterial once it lies beyond the file. */
  lemma {:induction false} ClipEnd(f: FileV5, k: nat, last: nat, offset: nat, end: nat, clipped: nat,
                                   vecs: seq<IoVec>, cur: IoVec, userIo: bool)
    requires f.HoleFree() && last <= |f.chunks| && offset < clipped == Min(end, f.size)
    ensures AddChunks(f, k, last, offset, end, vecs, cur, userIo) ==
            AddChunks(f, k, last, offset, clipped, vecs, cur, userIo)
    decreases last - k
  {
    if k < last && f.BlobOf(k).Some? {
      var blob := f.BlobOf(k).value;
      ClipChunk(f, k, offset, end, clipped, cur, blob, userIo);
      ClipChunk(f, k, offset, end, clipped, EmptyVec(blob), blob, userIo);
      if blob.index != cur.blob.index {
        var next := AddChunk(EmptyVec(blob), offset, clipped, f.chunks[k], blob, userIo);
        if next.Ok? { ClipEnd(f, k + 1, last, offset, end, clipped, vecs + [cur], next.value, userIo); }
      } else {
        var next := AddChunk(cur, offset, clipped, f.chunks[k], blob, userIo);
        if next.Ok? { ClipEnd(f, k + 1, last, offset, end, clipped, vecs, next.value, userIo); }
      }
    }
  }

  lemma ClipChunk(f: FileV5, k: nat, offset: nat, end: nat, clipped: nat, v: IoVec, blob: Blob, userIo: bool)
    requires f.HoleFree() && k < |f.chunks| && offset < clipped == Min(end, f.size)
    ensures AddChunk(v, offset, end, f.chunks[k], blob, userIo) ==
            AddChunk(v, offset, clipped, f.chunks[k], blob, userIo)
  {
    HoleFreeHolds(f, k);
  }

  /** How an allocation goes on once its first chunk is known. */
  lemma AllocContinues(f: FileV5, offset: nat, size: nat, userIo: bool, first: nat, last: nat, blob: Blob, cur: IoVec)
    requires f.chunkSize > 0 && 0 < size && offset + size < U64_LIMIT
    requires ChunkIndices(f, offset, offset + size) == (first, last) && first < |f.chunks|
    requires f.BlobOf(first) == Some(blob)
    requires AddChunk(EmptyVec(blob), offset, offset + size, f.chunks[first], blob, userIo) == Ok(cur)
    ensures Alloc(f, offset, size, userIo) == AddChunks(f, first + 1, last, offset, offset + size, [], cur, userIo)
  {
  }

  lemma AllocStops(f: FileV5, offset: nat, size: nat, userIo: bool, first: nat)
    requires f.chunkSize > 0 && 0 < size && offset + size < U64_LIMIT
    requires ChunkIndices(f, offset, offset + size).0 == first < |f.chunks| && f.BlobOf(first).None?
    ensures Alloc(f, offset, size, userIo) == Err(EINVAL)
  {
  }

  /** The tiling of a clipped range from its first chunk on. */
  lemma TilesFromFirst(f: FileV5, offset: nat, end: nat, clipped: nat, userIo: bool, first: nat, last: nat, blob: Blob)
    returns (cur: IoVec)
    requires f.Valid() && f.HoleFree() && offset < clipped == Min(end, f.size) && clipped < offset + U32_LIMIT
    requires first == offset / f.chunkSize < |f.chunks| && last == Min((clipped - 1) / f.chunkSize + 1, |f.chunks|)
    requires f.BlobOf(first) == Some(blob)
    ensures AddChunk(EmptyVec(blob), offset, end, f.chunks[first], blob, userIo) == Ok(cur)
    ensures TiledResult(f, offset, clipped, userIo, AddChunks(f, first + 1, last, offset, end, [], cur, userIo))
  {
    InPiece(offset, f.chunkSize);
    HoleFreeHolds(f, first);
    IndexEnd(f, clipped, last, first);
    ClipChunk(f, first, offset, end, clipped, EmptyVec(blob), blob, userIo);
    cur := TileFirst(f, first, first * f.chunkSize, f.chunks[first].FileEnd(), offset, clipped, blob, userIo);
    ClipEnd(f, first + 1, last, offset, end, clipped, [], cur, userIo);
    AddChunksTile(f, first + 1, last, offset, clipped, [], cur, userIo);
  }

  /** For every file without holes and every range that starts inside it, the descriptors tile
      exactly [offset, min(offset + size, file size)) in order. */
  lemma HoleFreeTiles(f: FileV5, offset: nat, size: nat, userIo: bool)
    requires f.Valid() && f.HoleFree() && |f.chunks| < U32_LIMIT
    requires offset < f.size && 0 < size && offset + size < U64_LIMIT && Min(size, f.size - offset) < U32_LIMIT
    requires (offset + size - 1) / f.chunkSize + 1 < U32_LIMIT
    ensures TiledResult(f, offset, Min(offset + size, f.size), userIo, Alloc(f, offset, size, userIo))
  {
    var end := offset + size;
    var clipped := Min(end, f.size);
    ClippedIndices(f, offset, end, clipped);
    var (first, last) := ChunkIndices(f, offset, end);
    if f.BlobOf(first).None? {
      FirstUnresolved(f.AsLayout(), offset, clipped - offset);
      AllocStops(f, offset, size, userIo, first);
    } else {
      var blob := f.BlobOf(first).value;
      var cur := TilesFromFirst(f, offset, end, clipped, userIo, first, last, blob);
      AllocContinues(f, offset, size, userIo, first, last, blob, cur);
    }
  }

  lemma ClippedIndices(f: FileV5, offset: nat, end: nat, clipped: nat)
    requires f.HoleFree() && |f.chunks| < U32_LIMIT && offset < clipped == Min(end, f.size)
    requires (end - 1) / f.chunkSize + 1 < U32_LIMIT
    ensures offset / f.chunkSize < |f.chunks|
    ensures ChunkIndices(f, offset, end) == (offset / f.chunkSize, Min((clipped - 1) / f.chunkSize + 1, |f.chunks|))
  {
    RoundUpCovers(f.size, f.chunkSize);
    RoundUpIsLastPlusOne(f.size, f.chunkSize);
    if f.size < end { DivOrder(f.size - 1, end - 1, f.chunkSize); }
  }
}
