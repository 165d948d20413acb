/** What the file phase of amplification (rafs/src/metadata/md_v5.rs) appends to a read: chunks of the same
    file that the user's descriptors do not read yet. */
module AppendV5 {
  import opened Common
  import opened Bits
  import opened BlobIo
  import opened Tiling
  import opened BioV5
  import opened SparseV5
  import opened Amplify
  import opened ReadPath

  // ----- Where appended descriptors come from --------------------------------------------------

  lemma {:induction false} InFlat(vecs: seq<IoVec>, i: nat, d: IoDesc)
    requires i < |vecs| && d in vecs[i].descs
    ensures d in Flat(vecs)
    decreases |vecs|
  {
    if i < |vecs| - 1 { InFlat(vecs[..|vecs| - 1], i, d); }
  }

  /** What merging appends comes from the vectors that were merged. */
  lemma {:induction false} AppendedFrom(vecs: seq<IoVec>, a: Ahead, maxGap: nat, j: nat) returns (i: nat)
    requires AppendAll(vecs, a, maxGap).Ok?
    requires |a.last.descs| <= j < |AppendAll(vecs, a, maxGap).value.last.descs|
    ensures i < |vecs| && AppendAll(vecs, a, maxGap).value.last.descs[j] in vecs[i].descs
    decreases vecs
  {
    var next := if a.last.blob.index == vecs[0].blob.index
                then Ahead(MergeChunksIo(a.last, vecs[0], maxGap).value, Shrink(a.window, vecs[0].size), a.tries - 1)
                else a.(tries := a.tries - 1);
    if j < |next.last.descs| {
      AppendAllKeepsFront(vecs[1..], next, maxGap);
      i := 0;
    } else {
      i := AppendedFrom(vecs[1..], next, maxGap, j);
      i := i + 1;
    }
  }

  lemma {:induction false} AppendAllKeepsFront(vecs: seq<IoVec>, a: Ahead, maxGap: nat)
    requires AppendAll(vecs, a, maxGap).Ok?
    ensures a.last.descs <= AppendAll(vecs, a, maxGap).value.last.descs
    decreases vecs
  {
    if vecs != [] {
      var next := if a.last.blob.index == vecs[0].blob.index
                  then Ahead(MergeChunksIo(a.last, vecs[0], maxGap).value, Shrink(a.window, vecs[0].size), a.tries - 1)
                  else a.(tries := a.tries - 1);
      AppendAllKeepsFront(vecs[1..], next, maxGap);
    }
  }

  lemma FilePhaseSteps(f: FileV5, last: IoVec, base: nat, window: nat, maxGap: nat) returns (vecs: seq<IoVec>)
    requires f.chunkSize > 0 && FilePhase(f, last, base, window, maxGap).last != last
    ensures base < f.size && window > 0 && Alloc(f, base, Min(f.size - base, window), false) == Ok(vecs)
    ensures var r := AppendAll(vecs, Ahead(last, window, 0), maxGap);
            r.Ok? && r.value.last == FilePhase(f, last, base, window, maxGap).last
  {
    vecs := Alloc(f, base, Min(f.size - base, window), false).value;
  }

  lemma {:induction false} InOverlaps(f: FileV5, a: nat, b: nat, offset: nat, end: nat, userIo: bool, d: IoDesc)
    returns (m: nat)
    requires b <= |f.chunks| && offset < end && d in Overlaps(f, a, b, offset, end, userIo)
    ensures a <= m < b && Overlap(f, m, offset, end, userIo) == [d]
    decreases b - a
  {
    if d in Overlap(f, a, offset, end, userIo) {
      m := a;
    } else {
      m := InOverlaps(f, a + 1, b, offset, end, userIo, d);
    }
  }

  /** A descriptor of an allocation is the overlap of a chunk that the allocation looks at. */
  lemma AllocatedReads(f: FileV5, offset: nat, size: nat, userIo: bool, d: IoDesc) returns (m: nat)
    requires f.chunkSize > 0 && 0 < size && Alloc(f, offset, size, userIo).Ok?
    requires d in Flat(Alloc(f, offset, size, userIo).value)
    ensures var (first, last) := ChunkIndices(f, offset, offset + size); first <= m < Max(first + 1, last)
    ensures m < |f.chunks| && Overlap(f, m, offset, offset + size, userIo) == [d]
  {
    var (first, last) := ChunkIndices(f, offset, offset + size);
    AllocReads(f, offset, size, userIo);
    m := InOverlaps(f, first, Max(first + 1, last), offset, offset + size, userIo, d);
  }

  /** What the file phase asks for. */
  function Ask(f: FileV5, base: nat, window: nat): nat
    requires base < f.size
  {
    Min(f.size - base, window)
  }

  lemma AppendedReads(f: FileV5, last: IoVec, base: nat, window: nat, maxGap: nat, j: nat) returns (m: nat)
    requires f.chunkSize > 0 && |last.descs| <= j < |FilePhase(f, last, base, window, maxGap).last.descs|
    ensures base < f.size && Ask(f, base, window) > 0 && m < |f.chunks|
    ensures ChunkIndices(f, base, base + Ask(f, base, window)).0 <= m
    ensures Overlap(f, m, base, base + Ask(f, base, window), false) ==
            [FilePhase(f, last, base, window, maxGap).last.descs[j]]
  {
    var vecs := FilePhaseSteps(f, last, base, window, maxGap);
    var v := AppendedFrom(vecs, Ahead(last, window, 0), maxGap, j);
    var d := FilePhase(f, last, base, window, maxGap).last.descs[j];
    InFlat(vecs, v, d);
    m := AllocatedReads(f, base, Ask(f, base, window), false, d);
  }

  // ----- Without the hole flag: other chunks ---------------------------------------------------

  /** What validation demands of a file without the hole flag. */
  ghost predicate Counted(f: FileV5) {
    f.chunkSize > 0 && (f.hasHole || |f.chunks| == DivRoundUp(f.size, f.chunkSize)) && |f.chunks| < U32_LIMIT
  }

  lemma AlignedIsPast(end: nat, base: nat, cs: nat)
    requires cs > 0 && 0 < end <= base && base % cs == 0
    ensures (end - 1) / cs < base / cs
  {
    InPiece(end - 1, cs);
    var q, b := (end - 1) / cs, base / cs;
    assert base == b * cs;
    if b <= q { MulOrder(b, q, cs); }
  }

  lemma InFile(f: FileV5, x: nat)
    requires Counted(f) && !f.hasHole && x < f.size
    ensures x / f.chunkSize < |f.chunks|
  {
    RoundUpCovers(f.size, f.chunkSize);
  }

  /** By position the user's range reads chunks before number `q`, where the window starts. */
  lemma UserReadsBefore(f: FileV5, offset: nat, end: nat, user: seq<IoVec>, i: nat, base: nat, q: nat) returns (a: nat)
    requires Counted(f) && !f.hasHole && offset < end <= base < f.size
    requires base % f.chunkSize == 0 && q == base / f.chunkSize
    requires Alloc(f, offset, end - offset, true) == Ok(user) && i < |Flat(user)|
    ensures a < q && a < |f.chunks| && Overlap(f, a, offset, end, true) == [Flat(user)[i]]
  {
    a := AllocatedReads(f, offset, end - offset, true, Flat(user)[i]);
    InFile(f, offset);
    InFile(f, end - 1);
    AlignedIsPast(end, base, f.chunkSize);
    DivOrder(offset, end - 1, f.chunkSize);
  }

  /** And the window reads chunks from number `q` on. */
  lemma WindowReadsFrom(f: FileV5, last: IoVec, base: nat, window: nat, maxGap: nat, j: nat, q: nat) returns (m: nat)
    requires Counted(f) && !f.hasHole && q == base / f.chunkSize
    requires |last.descs| <= j < |FilePhase(f, last, base, window, maxGap).last.descs|
    ensures base < f.size && Ask(f, base, window) > 0 && q <= m < |f.chunks|
    ensures Overlap(f, m, base, base + Ask(f, base, window), false) ==
            [FilePhase(f, last, base, window, maxGap).last.descs[j]]
  {
    m := AppendedReads(f, last, base, window, maxGap, j);
    InFile(f, base);
  }

  // ----- With the hole flag: nothing -------------------------------------------------------------

  lemma {:induction false} AppendNothing(vecs: seq<IoVec>, a: Ahead, maxGap: nat)
    requires a.last.descs != []
    requires forall i | 0 <= i < |vecs| ::
               vecs[i].descs == [] || !IsContinuous(a.last.descs[|a.last.descs| - 1], vecs[i].descs[0], maxGap)
    ensures AppendAll(vecs, a, maxGap).Ok? && AppendAll(vecs, a, maxGap).value.last == a.last
    decreases vecs
  {
    if vecs != [] {
      var rest := vecs[1..];
      forall i | 0 <= i < |rest|
        ensures rest[i].descs == [] || !IsContinuous(a.last.descs[|a.last.descs| - 1], rest[i].descs[0], maxGap)
      {
        assert rest[i] == vecs[i + 1];
      }
      if a.last.blob.index == vecs[0].blob.index {
        AppendNothing(rest, Ahead(a.last, Shrink(a.window, vecs[0].size), a.tries - 1), maxGap);
      } else {
        AppendNothing(rest, a.(tries := a.tries - 1), maxGap);
      }
    }
  }

  lemma NoneInFlat(vecs: seq<IoVec>, i: nat)
    requires Flat(vecs) == [] && i < |vecs|
    ensures vecs[i].descs == []
  {
    if vecs[i].descs != [] { InFlat(vecs, i, vecs[i].descs[0]); }
  }

  lemma OneDesc(v: seq<IoDesc>, rest: seq<IoDesc>, d: IoDesc)
    requires v + rest == [d]
    ensures (v == [] && rest == [d]) || (v == [d] && rest == [])
  {
    assert |v| + |rest| == 1;
    if v == [] {
      assert v + rest == rest;
    } else {
      assert rest == [] && v + rest == v;
    }
  }

  lemma MergeOne(last: IoVec, v: IoVec, d: IoDesc, maxGap: nat)
    requires last.descs != [] && v.descs == [d] && VecOk(v) && SameBlob(last.blob, d.blob)
    requires IsContinuous(last.descs[|last.descs| - 1], d, maxGap) && last.size + d.size < U32_LIMIT
    ensures last.blob.index == v.blob.index && MergeChunksIo(last, v, maxGap) == Ok(Push(last, d))
  {
    assert v.descs[1..] == [] && Total(v.descs) == d.size;
    assert SameBlob(v.descs[0].blob, v.blob);
  }

  /** Vector `x` holds just `d`, and no other vector holds anything. */
  ghost predicate OnlyAt(vecs: seq<IoVec>, x: nat, d: IoDesc) {
    x < |vecs| && vecs[x].descs == [d] && forall i | 0 <= i < |vecs| && i != x :: vecs[i].descs == []
  }

  lemma {:induction false} FlatSingle(vecs: seq<IoVec>, d: IoDesc) returns (x: nat)
    requires Flat(vecs) == [d]
    ensures OnlyAt(vecs, x, d)
    decreases |vecs|
  {
    var n := |vecs| - 1;
    var front := vecs[..n];
    OneDesc(Flat(front), vecs[n].descs, d);
    if vecs[n].descs == [] {
      x := FlatSingle(front, d);
      forall i | 0 <= i < |vecs| && i != x ensures vecs[i].descs == [] {
        if i < n { assert vecs[i] == front[i]; }
      }
    } else {
      x := n;
      forall i | 0 <= i < n ensures vecs[i].descs == [] {
        NoneInFlat(front, i);
        assert vecs[i] == front[i];
      }
    }
  }

  /** A single descriptor that continues the last one is appended. */
  lemma {:induction false} AppendOnce(vecs: seq<IoVec>, a: Ahead, maxGap: nat, x: nat, d: IoDesc)
    requires a.last.descs != [] && OnlyAt(vecs, x, d) && VecOk(vecs[x]) && SameBlob(a.last.blob, d.blob)
    requires IsContinuous(a.last.descs[|a.last.descs| - 1], d, maxGap) && a.last.size + d.size < U32_LIMIT
    ensures AppendAll(vecs, a, maxGap).Ok?
    ensures AppendAll(vecs, a, maxGap).value.last == Push(a.last, d)
    decreases x
  {
    var v, rest := vecs[0], vecs[1..];
    if x > 0 {
      var next := if a.last.blob.index == v.blob.index then Ahead(a.last, Shrink(a.window, v.size), a.tries - 1)
                  else a.(tries := a.tries - 1);
      assert rest[x - 1] == vecs[x];
      AppendOnce(rest, next, maxGap, x - 1, d);
    } else {
      MergeOne(a.last, v, d, maxGap);
      AppendNothing(rest, Ahead(Push(a.last, d), Shrink(a.window, v.size), a.tries - 1), maxGap);
    }
  }

  lemma {:induction false} OverlapsBehind(f: FileV5, a: nat, b: nat, offset: nat, end: nat, userIo: bool)
    requires b <= |f.chunks| && offset < end && forall k | a <= k < b :: f.chunks[k].FileEnd() <= offset
    ensures Overlaps(f, a, b, offset, end, userIo) == []
    decreases b - a
  {
    if a < b { OverlapsBehind(f, a + 1, b, offset, end, userIo); }
  }

  /** The user's allocation in a file with the hole flag: every chunk is known and starts before `end`. */
  ghost predicate AllStartBefore(f: FileV5, end: nat) {
    forall k | 0 <= k < |f.chunks| :: !Bad(f, end, k)
  }

  lemma LooksAtAll(f: FileV5, offset: nat, size: nat, userIo: bool)
    requires f.Valid() && f.hasHole && 0 < size < U32_LIMIT && Alloc(f, offset, size, userIo).Ok?
    ensures AllStartBefore(f, offset + size)
  {
    var end := offset + size;
    AllocFailsIff(f, offset, size, userIo);
    forall k | 0 <= k < |f.chunks| ensures !Bad(f, end, k) { assert LooksAt(f, offset, end, k); }
  }

  /** Only the last chunk can reach beyond where all chunks have started. */
  lemma WindowReadsLast(f: FileV5, end: nat, base: nat, len: nat)
    requires f.Valid() && f.hasHole && AllStartBefore(f, end) && end <= base && 0 < len < U32_LIMIT
    requires base + len < U64_LIMIT && f.chunks != []
    ensures Alloc(f, base, len, false).Ok? && Sound(f, Alloc(f, base, len, false).value, false)
    ensures Flat(Alloc(f, base, len, false).value) == Overlap(f, |f.chunks| - 1, base, base + len, false)
  {
    var n, stop := |f.chunks|, base + len;
    AllocFailsIff(f, base, len, false);
    forall k | 0 <= k < n ensures !Bad(f, stop, k) { assert !Bad(f, end, k); }
    assert !LooksAtBad(f, base, stop);
    AllocReads(f, base, len, false);
    OverlapsSnoc(f, 0, n - 1, base, base + len, false);
    forall k | 0 <= k < n - 1 ensures f.chunks[k].FileEnd() <= base {
      assert f.chunks[k + 1 - 1].FileEnd() <= f.chunks[k + 1].fileOffset && !Bad(f, end, k + 1);
    }
    OverlapsBehind(f, 0, n - 1, base, base + len, false);
    assert [] + Overlap(f, n - 1, base, base + len, false) == Overlap(f, n - 1, base, base + len, false);
  }

  /** If the last chunk reaches beyond the user's range, the user's last descriptor reads it. */
  lemma UserReadsLast(f: FileV5, offset: nat, end: nat, user: seq<IoVec>)
    requires f.Valid() && f.hasHole && offset < end < offset + U32_LIMIT && f.chunks != []
    requires Alloc(f, offset, end - offset, true) == Ok(user) && user != [] && user[|user| - 1].descs != []
    requires end <= f.chunks[|f.chunks| - 1].FileEnd()
    ensures var descs := user[|user| - 1].descs;
            Overlap(f, |f.chunks| - 1, offset, end, true) == [descs[|descs| - 1]]
  {
    var n := |f.chunks|;
    LooksAtAll(f, offset, end - offset, true);
    FlatEndsWithLast(f, offset, end, user);
    assert !Bad(f, end, n - 1);
    LastOfFlat(user, Overlaps(f, 0, n - 1, offset, end, true), Overlap(f, n - 1, offset, end, true));
  }

  lemma FlatEndsWithLast(f: FileV5, offset: nat, end: nat, user: seq<IoVec>)
    requires f.chunkSize > 0 && f.hasHole && offset < end && f.chunks != []
    requires Alloc(f, offset, end - offset, true) == Ok(user)
    ensures Flat(user) ==
            Overlaps(f, 0, |f.chunks| - 1, offset, end, true) + Overlap(f, |f.chunks| - 1, offset, end, true)
  {
    AllocReads(f, offset, end - offset, true);
    OverlapsSnoc(f, 0, |f.chunks| - 1, offset, end, true);
  }

  lemma LastOfFlat(vecs: seq<IoVec>, front: seq<IoDesc>, one: seq<IoDesc>)
    requires vecs != [] && vecs[|vecs| - 1].descs != [] && Flat(vecs) == front + one && |one| == 1
    ensures var descs := vecs[|vecs| - 1].descs; one == [descs[|descs| - 1]]
  {
    var descs := vecs[|vecs| - 1].descs;
    var all := Flat(vecs[..|vecs| - 1]) + descs;
    assert all == front + one;
    assert all[|all| - 1] == descs[|descs| - 1] && (front + one)[|front|] == one[0];
  }

  /** The last chunk of the file reaches into the window. */
  predicate Reaches(f: FileV5, base: nat, window: nat) {
    base < f.size && window > 0 && f.chunks != [] && base < f.chunks[|f.chunks| - 1].FileEnd()
  }

  /** A read of a file with the hole flag has looked at all its chunks, so the window holds at most the rest
      of the last one.  With compressed bytes that chunk does not continue itself: nothing is appended. */
  lemma HolePhaseAppendsNothing(f: FileV5, offset: nat, end: nat, user: seq<IoVec>, base: nat, window: nat, maxGap: nat)
    requires f.Valid() && f.hasHole && f.size < U64_LIMIT && offset < end <= base && end < offset + U32_LIMIT
    requires Alloc(f, offset, end - offset, true) == Ok(user) && user != [] && user[|user| - 1].descs != []
    requires window < U32_LIMIT
    requires Reaches(f, base, window) ==> f.chunks[|f.chunks| - 1].chunk.size > 0
    ensures FilePhase(f, user[|user| - 1], base, window, maxGap).last == user[|user| - 1]
  {
    var last := user[|user| - 1];
    if base < f.size && window > 0 && f.chunks != [] {
      var len := Ask(f, base, window);
      LooksAtAll(f, offset, end - offset, true);
      WindowReadsLast(f, end, base, len);
      var vecs := Alloc(f, base, len, false).value;
      if base < f.chunks[|f.chunks| - 1].FileEnd() { UserReadsLast(f, offset, end, user); }
      forall i | 0 <= i < |vecs|
        ensures vecs[i].descs == [] || !IsContinuous(last.descs[|last.descs| - 1], vecs[i].descs[0], maxGap)
      {
        if vecs[i].descs != [] { InFlat(vecs, i, vecs[i].descs[0]); }
      }
      AppendNothing(vecs, Ahead(last, window, 0), maxGap);
    }
  }

  /** A last chunk without compressed bytes continues itself, and is appended once more. */
  lemma HolePhaseRepeatsEmpty(f: FileV5, offset: nat, end: nat, user: seq<IoVec>, base: nat, window: nat, maxGap: nat)
    returns (d: IoDesc)
    requires f.Valid() && f.hasHole && f.size < U64_LIMIT && offset < end <= base && end < offset + U32_LIMIT
    requires Alloc(f, offset, end - offset, true) == Ok(user) && user != [] && user[|user| - 1].descs != []
    requires user[|user| - 1].size + window < U32_LIMIT
    requires Reaches(f, base, window) && f.chunks[|f.chunks| - 1].chunk.size == 0
    ensures var last := user[|user| - 1];
            && FilePhase(f, last, base, window, maxGap).last == Push(last, d)
            && d.chunk == last.descs[|last.descs| - 1].chunk
  {
    var last, len := user[|user| - 1], Ask(f, base, window);
    LooksAtAll(f, offset, end - offset, true);
    WindowReadsLast(f, end, base, len);
    d := SameChunk(f, offset, end, user, base, len);
    AllocBounded(f, offset, end - offset, true);
    assert SoundVec(f, last, true);
    RepeatedOnce(f, Alloc(f, base, len, false).value, last, window, maxGap, d);
  }

  lemma SameChunk(f: FileV5, offset: nat, end: nat, user: seq<IoVec>, base: nat, len: nat) returns (d: IoDesc)
    requires f.Valid() && f.hasHole && offset < end <= base && end < offset + U32_LIMIT && f.chunks != [] && len > 0
    requires Alloc(f, offset, end - offset, true) == Ok(user) && user != [] && user[|user| - 1].descs != []
    requires AllStartBefore(f, end) && base < f.chunks[|f.chunks| - 1].FileEnd()
    ensures Overlap(f, |f.chunks| - 1, base, base + len, false) == [d] && d.size <= len
    ensures var descs := user[|user| - 1].descs;
            d.chunk == descs[|descs| - 1].chunk == f.chunks[|f.chunks| - 1].chunk && d.blob == descs[|descs| - 1].blob
  {
    UserReadsLast(f, offset, end, user);
    assert !Bad(f, end, |f.chunks| - 1);
    d := Overlap(f, |f.chunks| - 1, base, base + len, false)[0];
  }

  lemma RepeatedOnce(f: FileV5, vecs: seq<IoVec>, last: IoVec, window: nat, maxGap: nat, d: IoDesc)
    requires Sound(f, vecs, false) && Flat(vecs) == [d] && VecOk(last) && last.descs != []
    requires var u := last.descs[|last.descs| - 1]; u.chunk == d.chunk && u.blob == d.blob && d.chunk.size == 0
    requires last.size + d.size < U32_LIMIT
    ensures AppendAll(vecs, Ahead(last, window, 0), maxGap).Ok?
    ensures AppendAll(vecs, Ahead(last, window, 0), maxGap).value.last == Push(last, d)
  {
    var x := FlatSingle(vecs, d);
    assert SoundVec(f, vecs[x], false);
    AppendOnce(vecs, Ahead(last, window, 0), maxGap, x, d);
  }

  // ----- The result ------------------------------------------------------------------------------

  /** Every chunk takes space in its blob. */
  ghost predicate Compressed(f: FileV5) {
    forall k | 0 <= k < |f.chunks| :: f.chunks[k].chunk.size > 0
  }

  /** `d` is the part of chunk `a` in the user's range [offset, end), `e` that of a later chunk `m` in the
      part [base, stop) of the window. */
  ghost predicate Later(f: FileV5, a: nat, d: IoDesc, offset: nat, end: nat, m: nat, e: IoDesc, base: nat, stop: nat) {
    && a < m < |f.chunks| && offset < end <= base < stop
    && Overlap(f, a, offset, end, true) == [d] && Overlap(f, m, base, stop, false) == [e]
  }

  ghost function AfterFile(f: FileV5, user: seq<IoVec>, base: nat, window: nat, maxGap: nat): seq<IoDesc>
    requires f.chunkSize > 0 && user != []
  {
    FilePhase(f, user[|user| - 1], base, window, maxGap).last.descs
  }

  lemma AppendedByPosition(f: FileV5, offset: nat, end: nat, user: seq<IoVec>, base: nat, window: nat, maxGap: nat,
                           i: nat, j: nat)
    returns (a: nat, m: nat)
    requires Counted(f) && !f.hasHole && offset < end <= base && (base % f.chunkSize == 0 || base == f.size)
    requires Alloc(f, offset, end - offset, true) == Ok(user) && user != [] && i < |Flat(user)|
    requires |user[|user| - 1].descs| <= j < |AfterFile(f, user, base, window, maxGap)|
    ensures base < f.size
    ensures Later(f, a, Flat(user)[i], offset, end, m, AfterFile(f, user, base, window, maxGap)[j], base,
                  base + Ask(f, base, window))
  {
    var q := base / f.chunkSize;
    m := WindowReadsFrom(f, user[|user| - 1], base, window, maxGap, j, q);
    a := UserReadsBefore(f, offset, end, user, i, base, q);
  }

  lemma NoneWithHoles(f: FileV5, offset: nat, end: nat, user: seq<IoVec>, base: nat, window: nat, maxGap: nat)
    requires f.Valid() && f.hasHole && Compressed(f) && f.size < U64_LIMIT && offset < end <= base
    requires end < offset + U32_LIMIT && window < U32_LIMIT
    requires Alloc(f, offset, end - offset, true) == Ok(user) && user != [] && AllFilled(user)
    ensures |AfterFile(f, user, base, window, maxGap)| == |user[|user| - 1].descs|
  {
    HolePhaseAppendsNothing(f, offset, end, user, base, window, maxGap);
  }

  lemma AppendedAfter(f: FileV5, offset: nat, end: nat, user: seq<IoVec>, base: nat, window: nat, maxGap: nat,
                      i: nat, j: nat)
    returns (a: nat, m: nat)
    requires f.Valid() && Counted(f) && Compressed(f) && f.size < U64_LIMIT && window < U32_LIMIT
    requires offset < end <= base && end < offset + U32_LIMIT && (base % f.chunkSize == 0 || base == f.size)
    requires Alloc(f, offset, end - offset, true) == Ok(user) && user != [] && AllFilled(user) && i < |Flat(user)|
    requires |user[|user| - 1].descs| <= j < |AfterFile(f, user, base, window, maxGap)|
    ensures base < f.size
    ensures Later(f, a, Flat(user)[i], offset, end, m, AfterFile(f, user, base, window, maxGap)[j], base,
                  base + Ask(f, base, window))
  {
    if f.hasHole {
      NoneWithHoles(f, offset, end, user, base, window, maxGap);
      assert false;
    } else {
      a, m := AppendedByPosition(f, offset, end, user, base, window, maxGap, i, j);
    }
  }

  /** For every valid file whose chunks take space in their blobs, what the file phase appends to a read of
      [offset, end) never reads a chunk of that range again: descriptor `j` of the extended vector reads a
      later chunk than descriptor `i` of the user. */
  lemma AppendedChunksAreNew(f: FileV5, k: nat, offset: nat, size: nat, end: nat, user: seq<IoVec>, base: nat,
                             window: nat, maxGap: nat, i: nat, j: nat)
    returns (a: nat, m: nat)
    requires f.Valid() && Counted(f) && Compressed(f) && f.size < U64_LIMIT && f.chunkSize == Pow2(k)
    requires offset < f.size && 0 < size < U32_LIMIT && end == Min(offset + size, f.size)
    requires base == WindowBase(offset, size, f.chunkSize, f.size) && window < U32_LIMIT
    requires Alloc(f, offset, end - offset, true) == Ok(user) && user != [] && AllFilled(user) && i < |Flat(user)|
    requires |user[|user| - 1].descs| <= j < |AfterFile(f, user, base, window, maxGap)|
    ensures base < f.size
    ensures Later(f, a, Flat(user)[i], offset, end, m, AfterFile(f, user, base, window, maxGap)[j], base,
                  base + Ask(f, base, window))
  {
    WindowArithmetic(offset, size, k, f.size);
    a, m := AppendedAfter(f, offset, end, user, base, window, maxGap, i, j);
  }
}
