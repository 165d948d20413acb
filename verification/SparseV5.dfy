/** Allocation for RAFS v5 files that may have holes (rafs/src/metadata/layout/v5.rs): exactly when it
    fails, and exactly when it leaves a vector without descriptors. */
module SparseV5 {
  import opened Common
  import opened BlobIo
  import opened Tiling
  import opened BioV5

  // ----- When the allocation fails ------------------------------------------------------------

  /** The request looks at chunk `k`: with the hole flag at every chunk, otherwise by position. */
  ghost predicate LooksAt(f: FileV5, offset: nat, end: nat, k: nat)
    requires f.chunkSize > 0 && offset < end
  {
    var (first, last) := ChunkIndices(f, offset, end);
    first <= k < |f.chunks| && (k == first || k < last)
  }

  /** The blob of chunk `k` is unknown, or the chunk starts at or beyond the end of the request. */
  predicate Bad(f: FileV5, end: nat, k: nat)
    requires k < |f.chunks|
  {
    f.BlobOf(k).None? || end <= f.chunks[k].fileOffset
  }

  /** What makes an allocation fail: the request wraps around, or it looks at a bad chunk. */
  ghost predicate AllocFails(f: FileV5, offset: nat, size: nat)
    requires f.chunkSize > 0
  {
    offset + size >= U64_LIMIT || (size > 0 && LooksAtBad(f, offset, offset + size))
  }

  ghost predicate LooksAtBad(f: FileV5, offset: nat, end: nat)
    requires f.chunkSize > 0 && offset < end
  {
    exists k :: LooksAt(f, offset, end, k) && Bad(f, end, k)
  }

  ghost predicate BadBetween(f: FileV5, end: nat, k: nat, last: nat)
    requires last <= |f.chunks|
    decreases last - k
  {
    k < last && (Bad(f, end, k) || BadBetween(f, end, k + 1, last))
  }

  lemma {:induction false} BadBetweenIs(f: FileV5, end: nat, k: nat, last: nat)
    requires last <= |f.chunks|
    ensures BadBetween(f, end, k, last) <==> exists j | k <= j < last :: Bad(f, end, j)
    decreases last - k
  {
    if k < last { BadBetweenIs(f, end, k + 1, last); }
  }

  lemma {:induction false} AddChunksFails(f: FileV5, k: nat, last: nat, offset: nat, end: nat, vecs: seq<IoVec>,
                                          cur: IoVec, userIo: bool)
    requires f.Valid() && last <= |f.chunks| && offset < end < offset + U32_LIMIT
    requires Bounded(f, k, offset, end, vecs, cur, userIo)
    ensures AddChunks(f, k, last, offset, end, vecs, cur, userIo).Err? <==> BadBetween(f, end, k, last)
    decreases last - k
  {
    if k < last {
      if Bad(f, end, k) { return; }
      var blob := f.BlobOf(k).value;
      if blob.index != cur.blob.index {
        BoundedNew(f, k, offset, end, vecs, cur, blob, userIo);
        AddChunksFails(f, k + 1, last, offset, end, vecs + [cur],
                       AddChunk(EmptyVec(blob), offset, end, f.chunks[k], blob, userIo).value, userIo);
      } else {
        BoundedSame(f, k, offset, end, vecs, cur, blob, userIo);
        AddChunksFails(f, k + 1, last, offset, end, vecs,
                       AddChunk(cur, offset, end, f.chunks[k], blob, userIo).value, userIo);
      }
    }
  }

  /** The first chunk of a request. */
  lemma FirstChunk(f: FileV5, offset: nat, end: nat, first: nat, blob: Blob, userIo: bool)
    requires f.Valid() && first < |f.chunks| && f.BlobOf(first) == Some(blob) && offset < end < offset + U32_LIMIT
    ensures match AddChunk(EmptyVec(blob), offset, end, f.chunks[first], blob, userIo)
            case Ok(cur) => !Bad(f, end, first) && Bounded(f, first + 1, offset, end, [], cur, userIo)
            case Err(e) => Bad(f, end, first)
  {
    BlobResolves(f, first);
    AddChunkBound(f, first, EmptyVec(blob), offset, end, blob, userIo);
  }

  lemma FirstOrLater(f: FileV5, offset: nat, end: nat)
    requires f.chunkSize > 0 && offset < end
    ensures var (first, last) := ChunkIndices(f, offset, end);
            && (first >= |f.chunks| ==> !LooksAtBad(f, offset, end))
            && (first < |f.chunks| ==>
                  (LooksAtBad(f, offset, end) <==> Bad(f, end, first) || BadBetween(f, end, first + 1, last)))
  {
    var (first, last) := ChunkIndices(f, offset, end);
    if first < |f.chunks| {
      BadBetweenIs(f, end, first + 1, last);
      if Bad(f, end, first) { assert LooksAt(f, offset, end, first); }
      if BadBetween(f, end, first + 1, last) {
        var j :| first + 1 <= j < last && Bad(f, end, j);
        assert LooksAt(f, offset, end, j);
      }
    }
  }

  lemma FailsFromFirst(f: FileV5, offset: nat, size: nat, first: nat, last: nat, userIo: bool)
    requires f.Valid() && 0 < size < U32_LIMIT && offset + size < U64_LIMIT
    requires ChunkIndices(f, offset, offset + size) == (first, last) && first < |f.chunks|
    ensures Alloc(f, offset, size, userIo).Err? <==>
            Bad(f, offset + size, first) || BadBetween(f, offset + size, first + 1, last)
  {
    var end := offset + size;
    if f.BlobOf(first).None? {
      AllocStops(f, offset, size, userIo, first);
    } else {
      var blob := f.BlobOf(first).value;
      FirstChunk(f, offset, end, first, blob, userIo);
      var cur := AddChunk(EmptyVec(blob), offset, end, f.chunks[first], blob, userIo);
      if cur.Ok? {
        AllocContinues(f, offset, size, userIo, first, last, blob, cur.value);
        AddChunksFails(f, first + 1, last, offset, end, [], cur.value, userIo);
      }
    }
  }

  /** An allocation of less than 4 GiB fails with EINVAL exactly then, and otherwise holds at most the
      requested bytes. */
  lemma AllocFailsIff(f: FileV5, offset: nat, size: nat, userIo: bool)
    requires f.Valid() && size < U32_LIMIT
    ensures match Alloc(f, offset, size, userIo)
            case Err(e) => e == EINVAL && AllocFails(f, offset, size)
            case Ok(vecs) => !AllocFails(f, offset, size) && Sound(f, vecs, userIo) && Sum(vecs) <= size
  {
    AllocBounded(f, offset, size, userIo);
    var end := offset + size;
    if size > 0 && end < U64_LIMIT {
      var (first, last) := ChunkIndices(f, offset, end);
      FirstOrLater(f, offset, end);
      if first < |f.chunks| { FailsFromFirst(f, offset, size, first, last, userIo); }
    }
  }

  // ----- Which vectors stay empty -------------------------------------------------------------

  /** Chunk `k` ends behind the start of the request. */
  predicate Hit(f: FileV5, offset: nat, k: nat)
    requires k < |f.chunks|
  {
    offset < f.chunks[k].FileEnd()
  }

  /** The end of the run of chunks on the blob with the given index that goes on at `k`. */
  function RunEnd(f: FileV5, k: nat, last: nat, index: nat): (e: nat)
    requires last <= |f.chunks|
    ensures k <= e && (k <= last ==> e <= last)
    decreases last - k
  {
    if k >= last || f.BlobOf(k).None? || f.BlobOf(k).value.index != index then k else RunEnd(f, k + 1, last, index)
  }

  /** The first blob of the request has no byte at or behind `offset`: there is no chunk to look at, or
      the last chunk of the first run ends before. */
  predicate Missed(f: FileV5, offset: nat, end: nat)
    requires f.chunkSize > 0 && offset < end
  {
    var (first, last) := ChunkIndices(f, offset, end);
    || first >= |f.chunks|
    || (f.BlobOf(first).Some? && last <= |f.chunks| &&
        !Hit(f, offset, RunEnd(f, first + 1, last, f.BlobOf(first).value.index) - 1))
  }

  ghost predicate AllFilled(vecs: seq<IoVec>) {
    forall i | 0 <= i < |vecs| :: vecs[i].descs != []
  }

  /** Chunks end in order. */
  ghost predicate Ordered(f: FileV5) {
    forall k | 0 < k < |f.chunks| :: f.chunks[k - 1].FileEnd() <= f.chunks[k].FileEnd()
  }

  ghost predicate FilledUnless(missed: bool, vecs: seq<IoVec>) {
    if missed then vecs == [] || vecs[0].descs == [] else vecs != [] && AllFilled(vecs)
  }

  lemma HitLater(f: FileV5, offset: nat, k: nat)
    requires Ordered(f) && 0 < k < |f.chunks| && Hit(f, offset, k - 1)
    ensures Hit(f, offset, k)
  {
  }

  /** Finished vectors stay in front. */
  lemma {:induction false} FinishedStay(f: FileV5, k: nat, last: nat, offset: nat, end: nat, vecs: seq<IoVec>,
                                        cur: IoVec, userIo: bool)
    requires last <= |f.chunks| && offset < end && AddChunks(f, k, last, offset, end, vecs, cur, userIo).Ok?
    ensures var out := AddChunks(f, k, last, offset, end, vecs, cur, userIo).value; vecs <= out && |vecs| < |out|
    decreases last - k
  {
    if k < last {
      var blob := f.BlobOf(k).value;
      if blob.index != cur.blob.index {
        FinishedStay(f, k + 1, last, offset, end, vecs + [cur],
                     AddChunk(EmptyVec(blob), offset, end, f.chunks[k], blob, userIo).value, userIo);
      } else {
        FinishedStay(f, k + 1, last, offset, end, vecs, AddChunk(cur, offset, end, f.chunks[k], blob, userIo).value,
                     userIo);
      }
    }
  }

  /** Behind a chunk that is hit every chunk is, so no vector stays empty. */
  lemma {:induction false} HitsFill(f: FileV5, k: nat, last: nat, offset: nat, end: nat, vecs: seq<IoVec>, cur: IoVec,
                                    userIo: bool)
    requires Ordered(f) && last <= |f.chunks| && offset < end && 0 < k && (k <= |f.chunks| ==> Hit(f, offset, k - 1))
    requires AllFilled(vecs) && cur.descs != []
    ensures var r := AddChunks(f, k, last, offset, end, vecs, cur, userIo); r.Ok? ==> AllFilled(r.value)
    decreases last - k
  {
    if k < last && f.BlobOf(k).Some? {
      var blob := f.BlobOf(k).value;
      HitLater(f, offset, k);
      var base := if blob.index != cur.blob.index then EmptyVec(blob) else cur;
      var next := AddChunk(base, offset, end, f.chunks[k], blob, userIo);
      if next.Ok? {
        HitsFill(f, k + 1, last, offset, end, if blob.index != cur.blob.index then vecs + [cur] else vecs, next.value,
                 userIo);
      }
    }
  }

  lemma OtherBlobKeepsFirst(f: FileV5, k: nat, last: nat, offset: nat, end: nat, cur: IoVec, userIo: bool)
    requires k < last <= |f.chunks| && offset < end && f.BlobOf(k).Some? && f.BlobOf(k).value.index != cur.blob.index
    requires AddChunks(f, k, last, offset, end, [], cur, userIo).Ok?
    ensures var out := AddChunks(f, k, last, offset, end, [], cur, userIo).value; out != [] && out[0] == cur
  {
    var blob := f.BlobOf(k).value;
    assert [] + [cur] == [cur];
    FinishedStay(f, k + 1, last, offset, end, [cur],
                 AddChunk(EmptyVec(blob), offset, end, f.chunks[k], blob, userIo).value, userIo);
  }

  lemma RunIsHit(f: FileV5, k: nat, last: nat, offset: nat, end: nat, cur: IoVec, userIo: bool)
    requires Ordered(f) && last <= |f.chunks| && offset < end && 0 < k <= |f.chunks|
    requires cur.descs != [] && Hit(f, offset, k - 1) && AddChunks(f, k, last, offset, end, [], cur, userIo).Ok?
    ensures var out := AddChunks(f, k, last, offset, end, [], cur, userIo).value;
            var e := RunEnd(f, k, last, cur.blob.index);
            out != [] && e <= |f.chunks| && Hit(f, offset, e - 1) && AllFilled(out)
  {
    HitsFill(f, k, last, offset, end, [], cur, userIo);
    FinishedStay(f, k, last, offset, end, [], cur, userIo);
    RunHit(f, k, last, offset, cur.blob.index);
  }

  /** The first run decides: if it is hit, every vector has descriptors, and otherwise the first has none. */
  lemma {:induction false} FirstRunDecides(f: FileV5, k: nat, last: nat, offset: nat, end: nat, cur: IoVec,
                                           userIo: bool)
    requires Ordered(f) && last <= |f.chunks| && offset < end && 0 < k <= |f.chunks|
    requires cur.descs == [] && !Hit(f, offset, k - 1)
    requires AddChunks(f, k, last, offset, end, [], cur, userIo).Ok?
    ensures var out := AddChunks(f, k, last, offset, end, [], cur, userIo).value;
            var e := RunEnd(f, k, last, cur.blob.index);
            && out != [] && e <= |f.chunks|
            && if Hit(f, offset, e - 1) then AllFilled(out) else out[0].descs == []
    decreases last - k
  {
    if k < last {
      var blob := f.BlobOf(k).value;
      if blob.index != cur.blob.index {
        OtherBlobKeepsFirst(f, k, last, offset, end, cur, userIo);
      } else {
        var next := AddChunk(cur, offset, end, f.chunks[k], blob, userIo).value;
        if Hit(f, offset, k) {
          RunIsHit(f, k + 1, last, offset, end, next, userIo);
        } else {
          FirstRunDecides(f, k + 1, last, offset, end, next, userIo);
        }
      }
    }
  }

  lemma {:induction false} RunHit(f: FileV5, k: nat, last: nat, offset: nat, index: nat)
    requires Ordered(f) && last <= |f.chunks| && 0 < k <= |f.chunks| && Hit(f, offset, k - 1)
    ensures RunEnd(f, k, last, index) <= |f.chunks| && Hit(f, offset, RunEnd(f, k, last, index) - 1)
    decreases last - k
  {
    if k < last && f.BlobOf(k).Some? && f.BlobOf(k).value.index == index {
      HitLater(f, offset, k);
      RunHit(f, k + 1, last, offset, index);
    }
  }

  lemma FilledFromFirst(f: FileV5, offset: nat, end: nat, first: nat, last: nat, cur: IoVec, userIo: bool)
    requires Ordered(f) && offset < end && first < |f.chunks| && last <= |f.chunks|
    requires if Hit(f, offset, first) then cur.descs != [] else cur.descs == []
    requires AddChunks(f, first + 1, last, offset, end, [], cur, userIo).Ok?
    ensures var vecs := AddChunks(f, first + 1, last, offset, end, [], cur, userIo).value;
            var e := RunEnd(f, first + 1, last, cur.blob.index);
            e <= |f.chunks| && FilledUnless(!Hit(f, offset, e - 1), vecs)
  {
    FinishedStay(f, first + 1, last, offset, end, [], cur, userIo);
    if Hit(f, offset, first) {
      HitsFill(f, first + 1, last, offset, end, [], cur, userIo);
      RunHit(f, first + 1, last, offset, cur.blob.index);
    } else {
      FirstRunDecides(f, first + 1, last, offset, end, cur, userIo);
    }
  }

  /** The steps of an allocation that succeeds. */
  lemma AllocSteps(f: FileV5, offset: nat, size: nat, userIo: bool, first: nat, last: nat)
    returns (blob: Blob, cur: IoVec)
    requires f.chunkSize > 0 && 0 < size && Alloc(f, offset, size, userIo).Ok?
    requires ChunkIndices(f, offset, offset + size) == (first, last) && first < |f.chunks|
    ensures f.BlobOf(first) == Some(blob) && cur.blob == blob
    ensures AddChunk(EmptyVec(blob), offset, offset + size, f.chunks[first], blob, userIo) == Ok(cur)
    ensures Alloc(f, offset, size, userIo) == AddChunks(f, first + 1, last, offset, offset + size, [], cur, userIo)
  {
    blob := f.BlobOf(first).value;
    cur := AddChunk(EmptyVec(blob), offset, offset + size, f.chunks[first], blob, userIo).value;
  }

  /** Every allocation leaves all vectors with descriptors, or is empty or leaves the first without,
      and the chunks and the range tell which. */
  lemma FilledIff(f: FileV5, offset: nat, size: nat, userIo: bool)
    requires f.chunkSize > 0 && Ordered(f) && 0 < size && Alloc(f, offset, size, userIo).Ok?
    ensures var vecs := Alloc(f, offset, size, userIo).value;
            FilledUnless(Missed(f, offset, offset + size), vecs)
  {
    var (first, last) := ChunkIndices(f, offset, offset + size);
    if first < |f.chunks| { FilledIffFrom(f, offset, size, userIo, first, last); }
  }

  lemma FilledIffFrom(f: FileV5, offset: nat, size: nat, userIo: bool, first: nat, last: nat)
    requires f.chunkSize > 0 && Ordered(f) && 0 < size && Alloc(f, offset, size, userIo).Ok?
    requires ChunkIndices(f, offset, offset + size) == (first, last) && first < |f.chunks|
    ensures FilledUnless(Missed(f, offset, offset + size), Alloc(f, offset, size, userIo).value)
  {
    var blob, cur := AllocSteps(f, offset, size, userIo, first, last);
    FilledFromFirst(f, offset, offset + size, first, last, cur, userIo);
  }

  // ----- What the descriptors read --------------------------------------------------------------

  /** The part of chunk `k` that lies in [offset, end), as a list of at most one descriptor. */
  function Overlap(f: FileV5, k: nat, offset: nat, end: nat, userIo: bool): seq<IoDesc>
    requires k < |f.chunks| && offset < end
  {
    var c := f.chunks[k];
    if f.BlobOf(k).None? || c.FileEnd() <= offset || end <= c.fileOffset then []
    else
      var from, to := Max(offset, c.fileOffset), Min(end, c.FileEnd());
      [IoDesc(f.BlobOf(k).value, c.chunk, from - c.fileOffset, to - from, userIo)]
  }

  function Max(a: nat, b: nat): nat { if a < b then b else a }

  /** The overlaps of the chunks from `k` up to `last`, in order. */
  function Overlaps(f: FileV5, k: nat, last: nat, offset: nat, end: nat, userIo: bool): seq<IoDesc>
    requires last <= |f.chunks| && offset < end
    decreases last - k
  {
    if k >= last then [] else Overlap(f, k, offset, end, userIo) + Overlaps(f, k + 1, last, offset, end, userIo)
  }

  lemma {:induction false} OverlapsSnoc(f: FileV5, a: nat, k: nat, offset: nat, end: nat, userIo: bool)
    requires a <= k < |f.chunks| && offset < end
    ensures Overlaps(f, a, k + 1, offset, end, userIo) ==
            Overlaps(f, a, k, offset, end, userIo) + Overlap(f, k, offset, end, userIo)
    decreases k - a
  {
    if a < k {
      OverlapsSnoc(f, a + 1, k, offset, end, userIo);
      Regroup(Overlap(f, a, offset, end, userIo), Overlaps(f, a + 1, k, offset, end, userIo),
              Overlap(f, k, offset, end, userIo));
    } else {
      assert Overlaps(f, k + 1, k + 1, offset, end, userIo) == [];
    }
  }

  /** A chunk that is added adds its overlap. */
  lemma AddChunkReads(f: FileV5, k: nat, v: IoVec, offset: nat, end: nat, blob: Blob, userIo: bool)
    requires k < |f.chunks| && offset < end && f.BlobOf(k) == Some(blob)
    requires AddChunk(v, offset, end, f.chunks[k], blob, userIo).Ok?
    ensures var w := AddChunk(v, offset, end, f.chunks[k], blob, userIo).value;
            w.blob == v.blob && w.descs == v.descs + Overlap(f, k, offset, end, userIo)
  {
  }

  /** The runs of consecutive chunks on blobs with one index, where the first one starts at `start` and
      goes on at `k`. */
  function Runs(f: FileV5, start: nat, k: nat, last: nat): (runs: seq<(nat, nat)>)
    requires start < |f.chunks| && last <= |f.chunks|
    ensures runs != []
    decreases last - k
  {
    if k >= last then [(start, k)]
    else if SameIndex(f, start, k) then Runs(f, start, k + 1, last)
    else [(start, k)] + Runs(f, k, k + 1, last)
  }

  predicate SameIndex(f: FileV5, a: nat, b: nat)
    requires a < |f.chunks| && b < |f.chunks|
  {
    f.BlobOf(a).Some? && f.BlobOf(b).Some? && f.BlobOf(a).value.index == f.BlobOf(b).value.index
  }

  /** Vector `i` from `from` on reads run `i`. */
  ghost predicate ReadsRuns(f: FileV5, vecs: seq<IoVec>, from: nat, runs: seq<(nat, nat)>, offset: nat, end: nat,
                            userIo: bool)
    requires offset < end
  {
    && |vecs| == from + |runs|
    && forall i | 0 <= i < |runs| ::
         && runs[i].1 <= |f.chunks|
         && vecs[from + i].descs == Overlaps(f, runs[i].0, runs[i].1, offset, end, userIo)
  }

  lemma ReadsRunsCons(f: FileV5, vecs: seq<IoVec>, from: nat, run: (nat, nat), runs: seq<(nat, nat)>, offset: nat,
                      end: nat, userIo: bool)
    requires offset < end && ReadsRuns(f, vecs, from + 1, runs, offset, end, userIo)
    requires run.1 <= |f.chunks| && vecs[from].descs == Overlaps(f, run.0, run.1, offset, end, userIo)
    ensures ReadsRuns(f, vecs, from, [run] + runs, offset, end, userIo)
  {
    var all := [run] + runs;
    forall i | 0 <= i < |all|
      ensures all[i].1 <= |f.chunks| && vecs[from + i].descs == Overlaps(f, all[i].0, all[i].1, offset, end, userIo)
    {
      if i > 0 { assert all[i] == runs[i - 1] && vecs[from + i] == vecs[from + 1 + (i - 1)]; }
    }
  }

  /** The open vector holds the overlaps of the chunks from `start` up to `k`. */
  ghost predicate Open(f: FileV5, start: nat, k: nat, cur: IoVec, offset: nat, end: nat, userIo: bool)
    requires offset < end
  {
    && start < k <= |f.chunks| && f.BlobOf(start).Some? && cur.blob.index == f.BlobOf(start).value.index
    && cur.descs == Overlaps(f, start, k, offset, end, userIo)
  }

  lemma OpenNext(f: FileV5, start: nat, k: nat, cur: IoVec, offset: nat, end: nat, blob: Blob, userIo: bool)
    requires offset < end && Open(f, start, k, cur, offset, end, userIo) && k < |f.chunks| && f.BlobOf(k) == Some(blob)
    ensures var r := AddChunk(cur, offset, end, f.chunks[k], blob, userIo);
            r.Ok? ==> Open(f, start, k + 1, r.value, offset, end, userIo)
    ensures var r := AddChunk(EmptyVec(blob), offset, end, f.chunks[k], blob, userIo);
            r.Ok? ==> Open(f, k, k + 1, r.value, offset, end, userIo)
  {
    OverlapsSnoc(f, start, k, offset, end, userIo);
    OverlapsSnoc(f, k, k, offset, end, userIo);
    if AddChunk(cur, offset, end, f.chunks[k], blob, userIo).Ok? {
      AddChunkReads(f, k, cur, offset, end, blob, userIo);
    }
    if AddChunk(EmptyVec(blob), offset, end, f.chunks[k], blob, userIo).Ok? {
      AddChunkReads(f, k, EmptyVec(blob), offset, end, blob, userIo);
    }
  }

  lemma {:induction false} AddChunksReads(f: FileV5, start: nat, k: nat, last: nat, offset: nat, end: nat,
                                          vecs: seq<IoVec>, cur: IoVec, userIo: bool)
    requires last <= |f.chunks| && offset < end && Open(f, start, k, cur, offset, end, userIo)
    requires AddChunks(f, k, last, offset, end, vecs, cur, userIo).Ok?
    ensures var out := AddChunks(f, k, last, offset, end, vecs, cur, userIo).value;
            vecs <= out && ReadsRuns(f, out, |vecs|, Runs(f, start, k, last), offset, end, userIo)
    decreases last - k
  {
    if k < last {
      var blob := f.BlobOf(k).value;
      OpenNext(f, start, k, cur, offset, end, blob, userIo);
      if blob.index != cur.blob.index {
        var next := AddChunk(EmptyVec(blob), offset, end, f.chunks[k], blob, userIo).value;
        AddChunksReads(f, k, k + 1, last, offset, end, vecs + [cur], next, userIo);
        var out := AddChunks(f, k, last, offset, end, vecs, cur, userIo).value;
        assert out[|vecs|] == (vecs + [cur])[|vecs|] == cur;
        ReadsRunsCons(f, out, |vecs|, (start, k), Runs(f, k, k + 1, last), offset, end, userIo);
      } else {
        var next := AddChunk(cur, offset, end, f.chunks[k], blob, userIo).value;
        AddChunksReads(f, start, k + 1, last, offset, end, vecs, next, userIo);
      }
    }
  }

  /** The runs of an allocation. */
  function RunsOf(f: FileV5, offset: nat, end: nat): seq<(nat, nat)>
    requires f.chunkSize > 0 && offset < end
  {
    var (first, last) := ChunkIndices(f, offset, end);
    if first >= |f.chunks| then [] else Runs(f, first, first + 1, last)
  }

  /** Vector `i` of an allocation holds the overlaps of its run of chunks with the range, in order. */
  lemma AllocReadsRuns(f: FileV5, offset: nat, size: nat, userIo: bool)
    requires f.chunkSize > 0 && 0 < size && Alloc(f, offset, size, userIo).Ok?
    ensures var end := offset + size;
            ReadsRuns(f, Alloc(f, offset, size, userIo).value, 0, RunsOf(f, offset, end), offset, end, userIo)
  {
    var end := offset + size;
    var (first, last) := ChunkIndices(f, offset, end);
    if first < |f.chunks| {
      var blob, cur := AllocSteps(f, offset, size, userIo, first, last);
      OverlapsSnoc(f, first, first, offset, end, userIo);
      AddChunkReads(f, first, EmptyVec(blob), offset, end, blob, userIo);
      AddChunksReads(f, first, first + 1, last, offset, end, [], cur, userIo);
    }
  }

  lemma {:induction false} OverlapsJoin(f: FileV5, a: nat, b: nat, c: nat, offset: nat, end: nat, userIo: bool)
    requires a <= b <= c <= |f.chunks| && offset < end
    ensures Overlaps(f, a, b, offset, end, userIo) + Overlaps(f, b, c, offset, end, userIo) ==
            Overlaps(f, a, c, offset, end, userIo)
    decreases b - a
  {
    if a < b {
      OverlapsJoin(f, a + 1, b, c, offset, end, userIo);
      Regroup(Overlap(f, a, offset, end, userIo), Overlaps(f, a + 1, b, offset, end, userIo),
              Overlaps(f, b, c, offset, end, userIo));
    } else {
      assert [] + Overlaps(f, b, c, offset, end, userIo) == Overlaps(f, b, c, offset, end, userIo);
    }
  }

  lemma {:induction false} FlatOfRuns(f: FileV5, vecs: seq<IoVec>, from: nat, start: nat, k: nat, last: nat,
                                      offset: nat, end: nat, userIo: bool)
    requires offset < end && start < k <= |f.chunks| && last <= |f.chunks|
    requires ReadsRuns(f, vecs, from, Runs(f, start, k, last), offset, end, userIo)
    ensures Flat(vecs) == Flat(vecs[..from]) + Overlaps(f, start, Max(k, last), offset, end, userIo)
    decreases last - k
  {
    var runs := Runs(f, start, k, last);
    assert vecs[..from + 1][..from] == vecs[..from];
    if k >= last {
      assert runs[0] == (start, k) && vecs[..from + 1] == vecs;
    } else if SameIndex(f, start, k) {
      FlatOfRuns(f, vecs, from, start, k + 1, last, offset, end, userIo);
    } else {
      var rest := Runs(f, k, k + 1, last);
      forall i | 0 <= i < |rest|
        ensures rest[i].1 <= |f.chunks|
        ensures vecs[from + 1 + i].descs == Overlaps(f, rest[i].0, rest[i].1, offset, end, userIo)
      {
        assert runs[i + 1] == rest[i];
      }
      FlatOfRuns(f, vecs, from + 1, k, k + 1, last, offset, end, userIo);
      assert runs[0] == (start, k) && vecs[from].descs == Overlaps(f, start, k, offset, end, userIo);
      OverlapsJoin(f, start, k, last, offset, end, userIo);
      Regroup(Flat(vecs[..from]), vecs[from].descs, Overlaps(f, k, last, offset, end, userIo));
    }
  }

  /** For every file, with holes or not, the descriptors of an allocation are the overlaps of the chunks it
      looks at with the range, in order. */
  lemma AllocReads(f: FileV5, offset: nat, size: nat, userIo: bool)
    requires f.chunkSize > 0 && 0 < size && Alloc(f, offset, size, userIo).Ok?
    ensures var (first, last) := ChunkIndices(f, offset, offset + size);
            Flat(Alloc(f, offset, size, userIo).value) ==
            if first >= |f.chunks| then [] else Overlaps(f, first, Max(first + 1, last), offset, offset + size, userIo)
  {
    var (first, last) := ChunkIndices(f, offset, offset + size);
    if first < |f.chunks| {
      var vecs := Alloc(f, offset, size, userIo).value;
      AllocReadsRuns(f, offset, size, userIo);
      FlatOfRuns(f, vecs, 0, first, first + 1, last, offset, offset + size, userIo);
      assert vecs[..0] == [];
    }
  }

  /** With the hole flag these are the overlaps of all chunks. */
  lemma SparseReads(f: FileV5, offset: nat, size: nat, userIo: bool)
    requires f.chunkSize > 0 && f.hasHole && 0 < size && Alloc(f, offset, size, userIo).Ok?
    ensures Flat(Alloc(f, offset, size, userIo).value) == Overlaps(f, 0, |f.chunks|, offset, offset + size, userIo)
  {
    AllocReads(f, offset, size, userIo);
  }

  // ----- Which vectors have no bytes --------------------------------------------------------------

  /** Every chunk from `a` up to `b` that ends behind the offset is empty. */
  ghost predicate NoBytes(f: FileV5, a: nat, b: nat, offset: nat)
    requires b <= |f.chunks|
  {
    forall k | a <= k < b :: Hit(f, offset, k) ==> f.chunks[k].size == 0
  }

  lemma {:induction false} WeightOfRun(f: FileV5, a: nat, b: nat, offset: nat, end: nat, userIo: bool)
    requires b <= |f.chunks| && offset < end && forall k | a <= k < b :: !Bad(f, end, k)
    ensures Total(Overlaps(f, a, b, offset, end, userIo)) == 0 <==> NoBytes(f, a, b, offset)
    decreases b - a
  {
    if a < b {
      WeightOfRun(f, a + 1, b, offset, end, userIo);
      TotalConcat(Overlap(f, a, offset, end, userIo), Overlaps(f, a + 1, b, offset, end, userIo));
      WeightOfOverlap(f, a, offset, end, userIo);
    }
  }

  lemma WeightOfOverlap(f: FileV5, k: nat, offset: nat, end: nat, userIo: bool)
    requires k < |f.chunks| && offset < end && !Bad(f, end, k)
    ensures Total(Overlap(f, k, offset, end, userIo)) == 0 <==> (Hit(f, offset, k) ==> f.chunks[k].size == 0)
  {
    var one := Overlap(f, k, offset, end, userIo);
    if one != [] { assert one[1..] == [] && Total(one) == one[0].size; }
  }

  lemma {:induction false} RunsWithin(f: FileV5, start: nat, k: nat, last: nat, i: nat)
    requires start < k <= |f.chunks| && last <= |f.chunks| && i < |Runs(f, start, k, last)|
    ensures var run := Runs(f, start, k, last)[i]; start <= run.0 < run.1 <= Max(k, last)
    decreases last - k
  {
    if k < last {
      if SameIndex(f, start, k) {
        RunsWithin(f, start, k + 1, last, i);
      } else if i > 0 {
        RunsWithin(f, k, k + 1, last, i - 1);
      }
    }
  }

  /** A vector of an allocation has no bytes exactly if its run of chunks has none behind the offset. */
  lemma EmptyVecIff(f: FileV5, offset: nat, size: nat, userIo: bool, i: nat)
    requires f.Valid() && 0 < size < U32_LIMIT && Alloc(f, offset, size, userIo).Ok?
    requires i < |Alloc(f, offset, size, userIo).value|
    ensures var runs := RunsOf(f, offset, offset + size);
            && |runs| == |Alloc(f, offset, size, userIo).value| && runs[i].1 <= |f.chunks|
            && (Alloc(f, offset, size, userIo).value[i].size == 0 <==> NoBytes(f, runs[i].0, runs[i].1, offset))
  {
    var vecs, runs := Alloc(f, offset, size, userIo).value, RunsOf(f, offset, offset + size);
    AllocFailsIff(f, offset, size, userIo);
    AllocReadsRuns(f, offset, size, userIo);
    assert SoundVec(f, vecs[i], userIo);
    assert vecs[0 + i].descs == Overlaps(f, runs[i].0, runs[i].1, offset, offset + size, userIo);
    RunWeighs(f, offset, offset + size, userIo, i);
  }

  lemma RunWeighs(f: FileV5, offset: nat, end: nat, userIo: bool, i: nat)
    requires f.chunkSize > 0 && offset < end && i < |RunsOf(f, offset, end)|
    requires ChunkIndices(f, offset, end).1 <= |f.chunks|
    requires !LooksAtBad(f, offset, end)
    ensures var run := RunsOf(f, offset, end)[i];
            && run.1 <= |f.chunks|
            && (Total(Overlaps(f, run.0, run.1, offset, end, userIo)) == 0 <==> NoBytes(f, run.0, run.1, offset))
  {
    var (first, last) := ChunkIndices(f, offset, end);
    var run := RunsOf(f, offset, end)[i];
    RunsWithin(f, first, first + 1, last, i);
    forall k | run.0 <= k < run.1 ensures !Bad(f, end, k) { assert LooksAt(f, offset, end, k); }
    WeightOfRun(f, run.0, run.1, offset, end, userIo);
  }

  /** Every chunk holds at least one byte. */
  ghost predicate NoEmptyChunks(f: FileV5) {
    forall k | 0 <= k < |f.chunks| :: f.chunks[k].size > 0
  }

  ghost predicate Weighs(v: IoVec) {
    v.descs != [] ==> v.size > 0
  }

  ghost predicate AllWeigh(vecs: seq<IoVec>) {
    forall i | 0 <= i < |vecs| :: Weighs(vecs[i])
  }

  lemma {:induction false} AddChunksWeigh(f: FileV5, k: nat, last: nat, offset: nat, end: nat, vecs: seq<IoVec>,
                                          cur: IoVec, userIo: bool)
    requires NoEmptyChunks(f) && last <= |f.chunks| && offset < end && AllWeigh(vecs) && Weighs(cur)
    ensures var r := AddChunks(f, k, last, offset, end, vecs, cur, userIo); r.Ok? ==> AllWeigh(r.value)
    decreases last - k
  {
    if k < last && f.BlobOf(k).Some? {
      var blob := f.BlobOf(k).value;
      var base := if blob.index != cur.blob.index then EmptyVec(blob) else cur;
      var next := AddChunk(base, offset, end, f.chunks[k], blob, userIo);
      if next.Ok? {
        AddChunksWeigh(f, k + 1, last, offset, end, if blob.index != cur.blob.index then vecs + [cur] else vecs,
                       next.value, userIo);
      }
    }
  }

  /** Without empty chunks a vector with descriptors has bytes. */
  lemma FilledWeigh(f: FileV5, offset: nat, size: nat, userIo: bool)
    requires f.chunkSize > 0 && NoEmptyChunks(f) && 0 < size && Alloc(f, offset, size, userIo).Ok?
    ensures AllWeigh(Alloc(f, offset, size, userIo).value)
  {
    var (first, last) := ChunkIndices(f, offset, offset + size);
    if first < |f.chunks| {
      var blob, cur := AllocSteps(f, offset, size, userIo, first, last);
      AddChunksWeigh(f, first + 1, last, offset, offset + size, [], cur, userIo);
    }
  }

  // ----- Files without holes --------------------------------------------------------------------

  /** A file without holes is never missed, and its allocations fail only on unknown blobs. */
  lemma HoleFreeIsHit(f: FileV5, offset: nat, end: nat)
    requires f.HoleFree() && |f.chunks| < U32_LIMIT && offset < end && offset < f.size
    ensures Ordered(f) && !Missed(f, offset, end)
  {
    var (first, last) := ChunkIndices(f, offset, end);
    RoundUpCovers(f.size, f.chunkSize);
    InPiece(offset, f.chunkSize);
    HoleFreeHolds(f, first);
    forall k | 0 < k < |f.chunks| ensures f.chunks[k - 1].FileEnd() <= f.chunks[k].FileEnd() {
      HoleFreeHolds(f, k - 1);
      HoleFreeHolds(f, k);
    }
    if f.BlobOf(first).Some? { RunHit(f, first + 1, last, offset, f.BlobOf(first).value.index); }
  }

  lemma HoleFreeFailsIff(f: FileV5, offset: nat, size: nat)
    requires f.HoleFree() && 0 < size && offset + size < U64_LIMIT
    ensures AllocFails(f, offset, size) <==>
            exists k | 0 <= k < |f.chunks| :: LooksAt(f, offset, offset + size, k) && f.BlobOf(k).None?
  {
    forall k | 0 <= k < |f.chunks| && LooksAt(f, offset, offset + size, k)
      ensures f.chunks[k].fileOffset < offset + size
    {
      InPiece(offset, f.chunkSize);
      InPiece(offset + size - 1, f.chunkSize);
      if k <= offset / f.chunkSize {
        MulOrder(k, offset / f.chunkSize, f.chunkSize);
      } else {
        MulOrder(k, (offset + size - 1) / f.chunkSize, f.chunkSize);
      }
    }
  }

  // ----- Files with holes: two inputs -----------------------------------------------------------

  /** Two bytes with a chunk for the first one only: a read of the second gives one empty vector. */
  lemma SparseTailIsMissed(b: Blob, c: Chunk)
    ensures var f := FileV5(2, true, 2, 1, true, [ChunkV5(0, 0, 1, c)], _ => Some(b));
            && f.Valid() && NoEmptyChunks(f) && !AllocFails(f, 1, 1) && Missed(f, 1, 2)
            && Alloc(f, 1, 1, true) == Ok([EmptyVec(b)])
  {
    var f := FileV5(2, true, 2, 1, true, [ChunkV5(0, 0, 1, c)], _ => Some(b));
    assert [] + [EmptyVec(b)] == [EmptyVec(b)];
  }

  /** Twelve bytes with chunks for the first and the last four. */
  function SparseHead(ino: nat, c1: Chunk, c2: Chunk, table: nat -> Option<Blob>): FileV5 {
    FileV5(ino, true, 12, 4, true, [ChunkV5(0, 0, 4, c1), ChunkV5(0, 8, 4, c2)], table)
  }

  /** A request for the first four fails, because with the hole flag all chunks are looked at and the
      second one lies beyond the request. */
  lemma SparseHeadFails(ino: nat, c1: Chunk, c2: Chunk, table: nat -> Option<Blob>)
    requires table(0).Some?
    ensures var f := SparseHead(ino, c1, c2, table);
            f.Valid() && NoEmptyChunks(f) && AllocFails(f, 0, 4)
  {
    var f := SparseHead(ino, c1, c2, table);
    assert LooksAt(f, 0, 4, 1) && Bad(f, 4, 1);
  }
}
