/** The read path of RAFS v5 up to the device (rafs/src/fs.rs): descriptors for the user's range, and
    a window of further chunks to fetch along with them. */
module ReadPath {
  import opened Common
  import opened Bits
  import opened BlobIo
  import opened Tiling
  import opened BioV5
  import opened SparseV5
  import opened Amplify

  datatype Window = Window(base: nat, size: nat)

  /** The end of the user's last chunk, or of the file. */
  function WindowBase(offset: nat, size: nat, chunkSize: nat, fileSize: nat): nat
    requires chunkSize > 0
  {
    Min(AndNot(offset + size + (chunkSize - 1), chunkSize - 1), fileSize)
  }

  /** The bytes from the start of the user's first chunk up to the window. */
  function UserSpan(offset: nat, size: nat, chunkSize: nat, fileSize: nat): int
    requires chunkSize > 0
  {
    WindowBase(offset, size, chunkSize, fileSize) - AndNot(offset, chunkSize - 1)
  }

  /** The amplification window of a read, if there is room for one. */
  function ReadWindow(offset: nat, size: nat, chunkSize: nat, fileSize: nat, amplifyIo: nat): Option<Window>
    requires chunkSize > 0
  {
    var span := UserSpan(offset, size, chunkSize, fileSize);
    if span < amplifyIo && span >= 0
    then Some(Window(WindowBase(offset, size, chunkSize, fileSize), amplifyIo - span)) else None
  }

  lemma RoundUpMask(x: nat, k: nat)
    ensures var up := AndNot(x + (Pow2(k) - 1), Pow2(k) - 1);
            x <= up < x + Pow2(k) && up % Pow2(k) == 0
  {
    MaskRoundsDown(x + (Pow2(k) - 1), k);
    RoundsUp(x, Pow2(k));
  }

  lemma RoundsUp(x: nat, p: nat)
    requires p > 0
    ensures var up := (x + (p - 1)) / p * p; x <= up < x + p && up % p == 0
  {
    InPiece(x + (p - 1), p);
    QuotientUnique((x + (p - 1)) / p * p, p, (x + (p - 1)) / p, 0);
  }

  /** For power-of-two chunk sizes the subtraction does not underflow, the user's bytes lie inside the
      span, and the window starts at a chunk boundary or at the end of the file. */
  lemma WindowArithmetic(offset: nat, size: nat, k: nat, fileSize: nat)
    requires offset < fileSize && size > 0
    ensures var cs := Pow2(k);
            var base := WindowBase(offset, size, cs, fileSize);
            && Min(offset + size, fileSize) <= base <= fileSize
            && (base % cs == 0 || base == fileSize) && base < offset + size + cs
            && AndNot(offset, cs - 1) <= offset < base
            && Min(size, fileSize - offset) <= UserSpan(offset, size, cs, fileSize)
  {
    RoundUpMask(offset + size, k);
    AndNotShrinks(offset, Pow2(k) - 1);
  }

  /** Without masks: the window starts at the first chunk boundary behind the request, or at the end of the
      file.  There is one exactly if the bytes from the first chunk of the request up to there are fewer
      than `amplify_io`, and it has the size of the difference. */
  lemma ReadWindowIs(offset: nat, size: nat, k: nat, fileSize: nat, amplifyIo: nat)
    requires offset < fileSize && size > 0
    ensures var cs := Pow2(k);
            var up := DivRoundUp(offset + size, cs) * cs;
            var base := if up < fileSize then up else fileSize;
            var span := base - offset / cs * cs;
            && span > 0
            && ReadWindow(offset, size, cs, fileSize, amplifyIo) ==
               if span < amplifyIo then Some(Window(base, amplifyIo - span)) else None
  {
    WindowArithmetic(offset, size, k, fileSize);
    MaskRoundsDown(offset + size + (Pow2(k) - 1), k);
    MaskRoundsDown(offset, k);
  }

  // ----- Preparing a read -------------------------------------------------------------------

  ghost predicate NonEmptyVecs(vecs: seq<IoVec>) {
    forall i | 0 <= i < |vecs| :: vecs[i].descs != [] && vecs[i].size != 0
  }

  /** `out` is the user's I/O with its last vector extended by at most `budget` bytes of internal I/O. */
  ghost predicate Prepared(user: seq<IoVec>, out: seq<IoVec>, budget: nat) {
    && user != [] && |out| == |user|
    && var n := |user| - 1;
       && out[..n] == user[..n] && out[n].blob == user[n].blob && VecOk(out[n])
       && user[n].descs <= out[n].descs && FlagIs(out[n].descs[|user[n].descs|..], false)
       && Total(out[n].descs[|user[n].descs|..]) <= budget
  }

  lemma ExtendedTotal(orig: IoVec, cur: IoVec, window: nat, initial: nat)
    requires Extended(orig, cur, window, initial) && VecOk(orig)
    ensures Total(cur.descs[|orig.descs|..]) + window <= initial
  {
    var n := |orig.descs|;
    assert cur.descs == orig.descs + cur.descs[n..];
    TotalConcat(orig.descs, cur.descs[n..]);
  }

  /** What the caller may assume of the file system and the file. */
  ghost predicate ReadableFile(s: Super, f: FileV5, table: nat -> Option<Blob>) {
    && SuperOk(s, table) && Sized(s)
    && f.Valid() && f.blobs == table && f.chunkSize == s.chunkSize && |f.chunks| < U32_LIMIT && f.size < U64_LIMIT
  }

  /** The chunks of vector `i` that end behind the offset are all empty. */
  ghost predicate EmptyRun(f: FileV5, offset: nat, end: nat, i: nat)
    requires f.chunkSize > 0 && offset < end
  {
    var runs := RunsOf(f, offset, end);
    i < |runs| && runs[i].1 <= |f.chunks| && NoBytes(f, runs[i].0, runs[i].1, offset)
  }

  ghost predicate EmptyByRuns(f: FileV5, offset: nat, end: nat, vecs: seq<IoVec>)
    requires f.chunkSize > 0 && offset < end
  {
    forall i | 0 <= i < |vecs| :: vecs[i].size == 0 <==> EmptyRun(f, offset, end, i)
  }

  /** One of the `n` vectors handed to the device has no bytes.  The last one may have got some from what
      is fetched ahead. */
  ghost predicate SomeEmpty(f: FileV5, offset: nat, end: nat, n: nat, ahead: bool)
    requires f.chunkSize > 0 && offset < end
  {
    exists i | 0 <= i < n :: EmptyRun(f, offset, end, i) && (i < n - 1 || !ahead)
  }

  /** The user's allocation, as the steps after it need it. */
  ghost predicate UserVecs(f: FileV5, offset: nat, end: nat, user: seq<IoVec>) {
    && offset < end && f.chunkSize > 0
    && user != [] && AllFilled(user) && Sound(f, user, true) && Sum(user) <= end - offset
    && EmptyByRuns(f, offset, end, user) && (NoEmptyChunks(f) ==> AllWeigh(user))
    && (f.HoleFree() ==> Tiles(f.AsLayout(), Flat(user), offset, end, true))
  }

  /** The amplified vectors still are the user's vectors in front. */
  lemma AmplifiedIsPrepared(s: Super, f: FileV5, table: nat -> Option<Blob>, user: seq<IoVec>, amplifyIo: nat,
                            window: Window)
    requires ReadableFile(s, f, table) && user != [] && AllFilled(user) && Sound(f, user, true)
    requires user[|user| - 1].size + window.size < U32_LIMIT
    ensures var n := |user| - 1;
            var o := Amplified(s, amplifyIo, user[n], f, window.base, window.size);
            && Prepared(user, user[n := o.last], window.size)
            && (AmplifyFails(s, amplifyIo, user[n], f, window.base, window.size) ==> o.result == Err(EINVAL))
            && (!AmplifyFails(s, amplifyIo, user[n], f, window.base, window.size) ==> o.result == Ok(()))
  {
    var n := |user| - 1;
    assert SoundVec(f, user[n], true);
    FromTable(f, user[n].blob);
    AmplifyKeepsBudget(s, amplifyIo, user[n], f, window.base, window.size, table);
    var o := Amplified(s, amplifyIo, user[n], f, window.base, window.size);
    ExtendedTotal(user[n], o.last, o.window, window.size);
  }

  lemma UnamplifiedIsPrepared(f: FileV5, user: seq<IoVec>)
    requires user != [] && Sound(f, user, true)
    ensures Prepared(user, user, 0)
  {
    var n := |user| - 1;
    assert SoundVec(f, user[n], true);
    assert user[n].descs[|user[n].descs|..] == [];
  }

  /** The vector holding the end of the user's range is no larger than the range. */
  lemma {:induction false} LastWithinSum(vecs: seq<IoVec>)
    requires vecs != []
    ensures vecs[|vecs| - 1].size <= Sum(vecs)
  {
  }

  /** The checks `read` makes before it hands a vector to the device. */
  method CheckVecs(vecs: seq<IoVec>) returns (ok: bool)
    ensures ok <==> NonEmptyVecs(vecs)
  {
    var i := 0;
    while i < |vecs|
      invariant 0 <= i <= |vecs| && NonEmptyVecs(vecs[..i])
    {
      if vecs[i].descs == [] || vecs[i].size == 0 { return false; }
      i := i + 1;
      assert vecs[..i] == vecs[..i - 1] + [vecs[i - 1]];
    }
    assert vecs[..i] == vecs;
    ok := true;
  }

  lemma LastGrows(f: FileV5, user: seq<IoVec>, out: seq<IoVec>, budget: nat)
    requires Prepared(user, out, budget) && Sound(f, user, true)
    ensures var n := |user| - 1; out[n].size >= user[n].size
  {
    var n := |user| - 1;
    assert SoundVec(f, user[n], true);
    assert out[n].descs == user[n].descs + out[n].descs[|user[n].descs|..];
    TotalConcat(user[n].descs, out[n].descs[|user[n].descs|..]);
  }

  /** All vectors can be handed to the device exactly if none is empty by its chunks, apart from a last
      one that has got bytes from what is fetched ahead. */
  lemma NonEmptyIff(f: FileV5, offset: nat, end: nat, user: seq<IoVec>, out: seq<IoVec>, budget: nat)
    requires UserVecs(f, offset, end, user) && Prepared(user, out, budget)
    ensures var n := |user| - 1;
            NonEmptyVecs(out) <==> !SomeEmpty(f, offset, end, |user|, out[n].size > user[n].size)
  {
    var n := |user| - 1;
    LastGrows(f, user, out, budget);
    forall i | 0 <= i < |user|
      ensures (out[i].descs == [] || out[i].size == 0) <==>
              EmptyRun(f, offset, end, i) && (i < n || out[n].size <= user[n].size)
    {
      assert user[i].descs != [];
      if i < n { assert out[..n][i] == user[..n][i]; }
    }
  }

  /** A file without empty chunks has no empty vectors. */
  lemma NoneEmpty(f: FileV5, offset: nat, end: nat, user: seq<IoVec>, ahead: bool)
    requires UserVecs(f, offset, end, user) && NoEmptyChunks(f)
    ensures !SomeEmpty(f, offset, end, |user|, ahead)
  {
    forall i | 0 <= i < |user| ensures !EmptyRun(f, offset, end, i) { assert Weighs(user[i]); }
  }

  /** The window fits behind the last vector. */
  lemma WindowFits(f: FileV5, offset: nat, size: nat, user: seq<IoVec>, amplifyIo: nat, k: nat)
    requires UserVecs(f, offset, Min(offset + size, f.size), user) && f.chunkSize == Pow2(k)
    requires offset < f.size && size > 0 && amplifyIo < U32_LIMIT
    ensures match ReadWindow(offset, size, f.chunkSize, f.size, amplifyIo)
            case None => true
            case Some(w) => && user[|user| - 1].size + w.size < U32_LIMIT
                            && UserSpan(offset, size, f.chunkSize, f.size) + w.size == amplifyIo
  {
    WindowArithmetic(offset, size, k, f.size);
    LastWithinSum(user);
  }

  /** The allocation step of `read`, whose first assertion fails exactly if the range misses the chunks. */
  method AllocUser(f: FileV5, offset: nat, size: nat) returns (r: Result<seq<IoVec>>)
    requires f.Valid() && |f.chunks| < U32_LIMIT && f.size < U64_LIMIT
    requires 0 < size < U32_LIMIT && offset < f.size
    ensures var end := Min(offset + size, f.size);
            match r
            case Ok(vecs) => && !AllocFails(f, offset, end - offset) && !Missed(f, offset, end)
                             && UserVecs(f, offset, end, vecs)
            case Err(e) => if AllocFails(f, offset, end - offset) then e == EINVAL
                           else Missed(f, offset, end) && e == AssertFailed
  {
    var length := Min(size, f.size - offset);
    r := AllocBioVecs(f, offset, length, true);
    AllocatesRange(f, offset, length, Min(offset + size, f.size));
    match r {
      case Err(_) =>
      case Ok(vecs) => if vecs == [] || vecs[0].descs == [] { r := Err(AssertFailed); }
    }
  }

  /** Fetching ahead for this read fails, because of the file itself or of an inode behind it. */
  ghost predicate AheadFails(s: Super, f: FileV5, offset: nat, size: nat, amplifyIo: nat, user: seq<IoVec>)
    requires Sized(s) && f.chunkSize > 0
  {
    && user != []
    && match ReadWindow(offset, size, f.chunkSize, f.size, amplifyIo)
       case None => false
       case Some(w) => AmplifyFails(s, amplifyIo, user[|user| - 1], f, w.base, w.size)
  }

  /** Fetching ahead adds bytes to the last vector. */
  ghost predicate AheadAdds(s: Super, f: FileV5, offset: nat, size: nat, amplifyIo: nat, user: seq<IoVec>)
    requires Sized(s) && f.chunkSize > 0
  {
    && user != []
    && var last := user[|user| - 1];
       match ReadWindow(offset, size, f.chunkSize, f.size, amplifyIo)
       case None => false
       case Some(w) => Amplified(s, amplifyIo, last, f, w.base, w.size).last.size > last.size
  }

  /** The user's vectors with what is fetched ahead behind the last one. */
  ghost function WithAhead(s: Super, f: FileV5, offset: nat, size: nat, amplifyIo: nat, user: seq<IoVec>): seq<IoVec>
    requires Sized(s) && f.chunkSize > 0 && user != []
  {
    var n := |user| - 1;
    match ReadWindow(offset, size, f.chunkSize, f.size, amplifyIo)
    case None => user
    case Some(w) => user[n := Amplified(s, amplifyIo, user[n], f, w.base, w.size).last]
  }

  /** The amplification step of `read`. */
  method AmplifyRead(s: Super, f: FileV5, offset: nat, size: nat, amplifyIo: nat, user: seq<IoVec>, ghost k: nat,
                     ghost table: nat -> Option<Blob>)
    returns (r: Result<seq<IoVec>>, ghost appended: nat)
    requires ReadableFile(s, f, table) && f.chunkSize == Pow2(k) && amplifyIo < U32_LIMIT
    requires offset < f.size && size > 0 && UserVecs(f, offset, Min(offset + size, f.size), user)
    ensures if AheadFails(s, f, offset, size, amplifyIo, user) then r == Err(EINVAL) else r.Ok?
    ensures r.Ok? ==> && Prepared(user, r.value, appended)
                      && r.value == WithAhead(s, f, offset, size, amplifyIo, user)
                      && var n := |user| - 1;
                         r.value[n].size > user[n].size <==> AheadAdds(s, f, offset, size, amplifyIo, user)
    ensures appended > 0 ==> UserSpan(offset, size, f.chunkSize, f.size) + appended <= amplifyIo
  {
    appended := 0;
    var window := ReadWindow(offset, size, s.chunkSize, f.size, amplifyIo);
    if window.None? {
      UnamplifiedIsPrepared(f, user);
      return Ok(user), 0;
    }
    AheadIs(s, f, offset, size, amplifyIo, user, k, table, window.value);
    var descs := new IoVec[|user|](i requires 0 <= i < |user| => user[i]);
    assert descs[..] == user;
    var done := AmplifyIo(s, amplifyIo, descs, f, window.value.base, window.value.size);
    if done.Err? { return Err(done.error), 0; }
    r, appended := Ok(descs[..]), window.value.size;
  }

  /** What amplification makes of the user's vectors if there is a window. */
  lemma AheadIs(s: Super, f: FileV5, offset: nat, size: nat, amplifyIo: nat, user: seq<IoVec>, k: nat,
                table: nat -> Option<Blob>, w: Window)
    requires ReadableFile(s, f, table) && f.chunkSize == Pow2(k) && amplifyIo < U32_LIMIT
    requires offset < f.size && size > 0 && UserVecs(f, offset, Min(offset + size, f.size), user)
    requires ReadWindow(offset, size, f.chunkSize, f.size, amplifyIo) == Some(w)
    ensures var n := |user| - 1;
            var o := Amplified(s, amplifyIo, user[n], f, w.base, w.size);
            && user[n].descs != [] && Prepared(user, user[n := o.last], w.size)
            && user[n := o.last] == WithAhead(s, f, offset, size, amplifyIo, user)
            && (o.last.size > user[n].size <==> AheadAdds(s, f, offset, size, amplifyIo, user))
            && o.result == if AheadFails(s, f, offset, size, amplifyIo, user) then Err(EINVAL) else Ok(())
    ensures UserSpan(offset, size, f.chunkSize, f.size) + w.size <= amplifyIo
  {
    WindowFits(f, offset, size, user, amplifyIo, k);
    AmplifiedIsPrepared(s, f, table, user, amplifyIo, w);
  }

  /** `read` up to the device, for every file with or without holes.  The chunk-aligned user span and the
      appended bytes together stay within `amplify_io`; without holes the vectors cover exactly the
      requested bytes inside the file.  The read fails exactly if an allocation does, its own or one of
      the amplification.  Its assertions fire exactly if the range misses the first blob's chunks or a
      vector has only empty chunks, and never on a file without empty chunks that is not missed. */
  method PrepareRead(s: Super, f: FileV5, offset: nat, size: nat, amplifyIo: nat, allReady: bool, ghost k: nat,
                     ghost table: nat -> Option<Blob>)
    returns (r: Result<seq<IoVec>>, ghost user: seq<IoVec>, ghost appended: nat)
    requires ReadableFile(s, f, table) && f.chunkSize == Pow2(k) && size < U32_LIMIT && amplifyIo < U32_LIMIT
    ensures offset + size >= U64_LIMIT ==> r == Err(EINVAL)
    ensures offset + size < U64_LIMIT && (size == 0 || offset >= f.size) ==> r == Ok([])
    ensures offset + size < U64_LIMIT && size > 0 && offset < f.size ==>
              var end := Min(offset + size, f.size);
              if AllocFails(f, offset, end - offset) then r == Err(EINVAL)
              else if Missed(f, offset, end) then r == Err(AssertFailed)
              else
                && UserVecs(f, offset, end, user)
                && var amplify := size < amplifyIo && !allReady;
                   if amplify && AheadFails(s, f, offset, size, amplifyIo, user) then r == Err(EINVAL)
                   else if SomeEmpty(f, offset, end, |user|, amplify && AheadAdds(s, f, offset, size, amplifyIo, user))
                   then r == Err(AssertFailed) && !NoEmptyChunks(f)
                   else && r == Ok(if amplify then WithAhead(s, f, offset, size, amplifyIo, user) else user)
                        && Prepared(user, r.value, appended) && NonEmptyVecs(r.value)
    ensures appended > 0 ==>
              size < amplifyIo && !allReady && UserSpan(offset, size, f.chunkSize, f.size) + appended <= amplifyIo
  {
    user, appended := [], 0;
    if offset + size >= U64_LIMIT { return Err(EINVAL), [], 0; }
    if size == 0 || offset >= f.size { return Ok([]), [], 0; }
    r := AllocUser(f, offset, size);
    if r.Err? { return; }
    user := r.value;
    if size < amplifyIo && !allReady {
      r, appended := AmplifyRead(s, f, offset, size, amplifyIo, r.value, k, table);
      if r.Err? { return; }
    } else {
      UnamplifiedIsPrepared(f, user);
    }
    ghost var end, n := Min(offset + size, f.size), |user| - 1;
    NonEmptyIff(f, offset, end, user, r.value, appended);
    if NoEmptyChunks(f) { NoneEmpty(f, offset, end, user, r.value[n].size > user[n].size); }
    var ok := CheckVecs(r.value);
    if !ok { return Err(AssertFailed), user, appended; }
  }

  /** Without holes an allocation for a range inside the file tiles the range. */
  lemma AllocTiles(f: FileV5, offset: nat, length: nat, userIo: bool, vecs: seq<IoVec>)
    requires f.Valid() && f.HoleFree() && |f.chunks| < U32_LIMIT && f.size < U64_LIMIT
    requires offset + length <= f.size && 0 < length < U32_LIMIT && Alloc(f, offset, length, userIo) == Ok(vecs)
    ensures Tiles(f.AsLayout(), Flat(vecs), offset, offset + length, userIo)
  {
    LastChunkFits(f, offset + length);
    HoleFreeTiles(f, offset, length, userIo);
  }

  /** The allocation for a range inside the file. */
  lemma AllocatesRange(f: FileV5, offset: nat, length: nat, end: nat)
    requires f.Valid() && |f.chunks| < U32_LIMIT && f.size < U64_LIMIT
    requires 0 < length < U32_LIMIT && offset + length == end <= f.size
    ensures match Alloc(f, offset, length, true)
            case Err(e) => e == EINVAL && AllocFails(f, offset, length)
            case Ok(vecs) => && !AllocFails(f, offset, length) && FilledUnless(Missed(f, offset, end), vecs)
                             && (!Missed(f, offset, end) ==> UserVecs(f, offset, end, vecs))
  {
    AllocFailsIff(f, offset, length, true);
    if Alloc(f, offset, length, true).Ok? {
      AllocatedRange(f, offset, length, Alloc(f, offset, length, true).value, Missed(f, offset, offset + length));
    }
  }

  lemma AllocatedRange(f: FileV5, offset: nat, length: nat, vecs: seq<IoVec>, missed: bool)
    requires f.Valid() && |f.chunks| < U32_LIMIT && f.size < U64_LIMIT
    requires 0 < length < U32_LIMIT && offset + length <= f.size && Alloc(f, offset, length, true) == Ok(vecs)
    requires Sound(f, vecs, true) && Sum(vecs) <= length && missed == Missed(f, offset, offset + length)
    ensures FilledUnless(missed, vecs)
    ensures !missed ==> UserVecs(f, offset, offset + length, vecs)
  {
    RangeFilled(f, offset, length, vecs);
    AllocatesFilled(f, offset, length, vecs, missed);
  }

  lemma AllocatesFilled(f: FileV5, offset: nat, length: nat, vecs: seq<IoVec>, missed: bool)
    requires f.Valid() && |f.chunks| < U32_LIMIT && f.size < U64_LIMIT
    requires 0 < length < U32_LIMIT && offset + length <= f.size && Alloc(f, offset, length, true) == Ok(vecs)
    requires Sound(f, vecs, true) && Sum(vecs) <= length && FilledUnless(missed, vecs)
    ensures !missed ==> UserVecs(f, offset, offset + length, vecs)
  {
    if !missed { FilledAreUserVecs(f, offset, length, vecs); }
  }

  lemma RangeFilled(f: FileV5, offset: nat, length: nat, vecs: seq<IoVec>)
    requires f.Valid() && 0 < length && Alloc(f, offset, length, true) == Ok(vecs)
    ensures FilledUnless(Missed(f, offset, offset + length), vecs)
  {
    ValidIsOrdered(f);
    FilledIff(f, offset, length, true);
  }

  lemma VecsEmptyByRuns(f: FileV5, offset: nat, length: nat, vecs: seq<IoVec>)
    requires f.Valid() && 0 < length < U32_LIMIT && Alloc(f, offset, length, true) == Ok(vecs)
    ensures EmptyByRuns(f, offset, offset + length, vecs)
  {
    forall i | 0 <= i < |vecs| ensures vecs[i].size == 0 <==> EmptyRun(f, offset, offset + length, i) {
      EmptyVecIff(f, offset, length, true, i);
    }
  }

  lemma FilledAreUserVecs(f: FileV5, offset: nat, length: nat, vecs: seq<IoVec>)
    requires f.Valid() && |f.chunks| < U32_LIMIT && f.size < U64_LIMIT
    requires 0 < length < U32_LIMIT && offset + length <= f.size && Alloc(f, offset, length, true) == Ok(vecs)
    requires vecs != [] && AllFilled(vecs) && Sound(f, vecs, true) && Sum(vecs) <= length
    ensures UserVecs(f, offset, offset + length, vecs)
  {
    VecsEmptyByRuns(f, offset, length, vecs);
    if NoEmptyChunks(f) { FilledWeigh(f, offset, length, true); }
    if f.HoleFree() { AllocTiles(f, offset, length, true, vecs); }
  }

  lemma ValidIsOrdered(f: FileV5)
    requires f.Valid()
    ensures Ordered(f)
  {
  }

  lemma LastChunkFits(f: FileV5, end: nat)
    requires f.HoleFree() && |f.chunks| < U32_LIMIT && 0 < end <= f.size
    ensures (end - 1) / f.chunkSize + 1 < U32_LIMIT
  {
    RoundUpIsLastPlusOne(f.size, f.chunkSize);
    DivOrder(end - 1, f.size - 1, f.chunkSize);
  }

  // ----- A file behind can fail the read --------------------------------------------------------

  /** A file of one chunk of four bytes, and a sparse file behind it. */
  function TwoFiles(c: Chunk, c1: Chunk, c2: Chunk, table: nat -> Option<Blob>): Super {
    Super(map[1 := FileV5(1, true, 4, 4, false, [ChunkV5(0, 0, 4, c)], table), 2 := SparseHead(2, c1, c2, table)], 4)
  }

  lemma OneChunkReads(c: Chunk, b: Blob, table: nat -> Option<Blob>)
    requires table(0) == Some(b)
    ensures var f := FileV5(1, true, 4, 4, false, [ChunkV5(0, 0, 4, c)], table);
            var user := [Push(EmptyVec(b), IoDesc(b, c, 0, 1, true))];
            && f.Valid() && f.HoleFree() && Alloc(f, 0, 1, true) == Ok(user)
  {
    assert [] + [Push(EmptyVec(b), IoDesc(b, c, 0, 1, true))] == [Push(EmptyVec(b), IoDesc(b, c, 0, 1, true))];
  }

  lemma ScanAsksBehind(s: Super, last: IoVec)
    requires Sized(s) && s.chunkSize == 4 && 2 in s.inodes && s.inodes[2].isReg && s.inodes[2].size == 12
    requires AllocFails(s.inodes[2], 0, 4)
    ensures SomeAskFails(s, ScanAsks(s, 1, Ahead(last, 4, 64), 8 / MERGING_SIZE_TO_GAP))
  {
    var asks := ScanAsks(s, 1, Ahead(last, 4, 64), 8 / MERGING_SIZE_TO_GAP);
    assert NextRequest(12, 4, 4) == Take(4);
    assert asks[0] == (2, 4);
  }

  lemma OneByteWindow()
    ensures ReadWindow(0, 1, 4, 4, 8) == Some(Window(4, 4))
  {
    assert Pow2(2) == 4;
    ReadWindowIs(0, 1, 2, 4, 8);
  }

  lemma BehindFails(s: Super, f: FileV5, user: seq<IoVec>)
    requires Sized(s) && s.chunkSize == 4 && 2 in s.inodes && s.inodes[2].isReg && s.inodes[2].size == 12
    requires AllocFails(s.inodes[2], 0, 4)
    requires f.ino == 1 && f.size == f.chunkSize == 4 && user != []
    ensures AheadFails(s, f, 0, 1, 8, user)
  {
    OneByteWindow();
    ScanAsksBehind(s, user[|user| - 1]);
  }

  /** Reading one byte of the first file with an amplification of eight bytes fails, although its own
      chunk is known and it has no holes: the scan asks for four bytes of the file behind. */
  lemma FileBehindFailsRead(c: Chunk, c1: Chunk, c2: Chunk, b: Blob, table: nat -> Option<Blob>)
    requires TableOk(table) && table(0) == Some(b)
    ensures var s := TwoFiles(c, c1, c2, table);
            var f := s.inodes[1];
            && ReadableFile(s, f, table) && f.chunkSize == Pow2(2) && f.HoleFree()
            && Alloc(f, 0, 1, true).Ok? && AheadFails(s, f, 0, 1, 8, Alloc(f, 0, 1, true).value)
  {
    var s := TwoFiles(c, c1, c2, table);
    OneChunkReads(c, b, table);
    SparseHeadFails(2, c1, c2, table);
    assert Pow2(2) == 4;
    BehindFails(s, s.inodes[1], Alloc(s.inodes[1], 0, 1, true).value);
  }
}
