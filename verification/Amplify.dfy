/** User I/O amplification of RAFS v5 (rafs/src/metadata/md_v5.rs): `amplify_io` appends further chunks
    of the file and of the files behind it to the last vector of a read. */
module Amplify {
  import opened Common
  import opened BlobIo
  import opened Tiling
  import opened BioV5
  import opened SparseV5

  const MERGING_SIZE_TO_GAP: nat := 128

  /** The file system: its inodes by number and the chunk size recorded in the super block. */
  datatype Super = Super(inodes: map<nat, FileV5>, chunkSize: nat)

  /** One blob table serves all inodes, and tells blobs apart by index. */
  ghost predicate TableOk(table: nat -> Option<Blob>) {
    forall a, b :: table(a).Some? && table(b).Some? && table(a).value.index == table(b).value.index ==>
      table(a).value.id == table(b).value.id
  }

  ghost predicate InTable(table: nat -> Option<Blob>, blob: Blob) {
    exists i :: table(i) == Some(blob)
  }

  ghost predicate SuperOk(s: Super, table: nat -> Option<Blob>) {
    && s.chunkSize > 0 && TableOk(table)
    && forall i | i in s.inodes :: s.inodes[i].Valid() && s.inodes[i].blobs == table
  }

  lemma FromTable(f: FileV5, b: Blob)
    requires ResolvesTo(f.AsLayout(), b)
    ensures InTable(f.blobs, b)
  {
    var k: nat :| f.AsLayout().chunkAt(k).Some? && f.AsLayout().chunkAt(k).value.0 == b;
    assert f.blobs(f.chunks[k].blobIndex) == Some(b);
  }

  // ----- Appending to the last vector -------------------------------------------------------

  /** `merge_chunks_io`: append the vector if it continues the last descriptor.  The assertions are that
      there is a last descriptor and those of `append`. */
  function MergeChunksIo(orig: IoVec, vec: IoVec, maxGap: nat): Result<IoVec> {
    if orig.descs == [] then Err(AssertFailed)
    else if vec.descs != [] && IsContinuous(orig.descs[|orig.descs| - 1], vec.descs[0], maxGap) then
      if CanAppend(orig, vec) then Ok(Append(orig, vec)) else Err(AssertFailed)
    else Ok(orig)
  }

  /** `cur` is `orig` extended by internal I/O on the same blob, and the appended bytes plus the
      window that is left do not exceed the initial window. */
  ghost predicate Extended(orig: IoVec, cur: IoVec, window: nat, initial: nat) {
    && orig.descs != [] && VecOk(cur) && cur.blob == orig.blob
    && orig.descs <= cur.descs && FlagIs(cur.descs[|orig.descs|..], false)
    && cur.size + window <= orig.size + initial
  }

  lemma ExtendedBy(orig: IoVec, cur: IoVec, vec: IoVec, window: nat, initial: nat)
    requires Extended(orig, cur, window, initial) && CanAppend(cur, vec)
    requires VecOk(vec) && FlagIs(vec.descs, false) && vec.size <= window
    ensures Extended(orig, Append(cur, vec), window - vec.size, initial)
  {
    AppendKeepsVec(cur, vec);
    var n := |orig.descs|;
    assert (cur.descs + vec.descs)[n..] == cur.descs[n..] + vec.descs;
  }

  /** Merging a vector that fits the window trips no assertion and keeps the budget. */
  lemma MergeKeepsBudget(orig: IoVec, cur: IoVec, vec: IoVec, window: nat, initial: nat, maxGap: nat)
    requires Extended(orig, cur, window, initial) && orig.size + initial < U32_LIMIT
    requires VecOk(vec) && FlagIs(vec.descs, false) && SameBlob(cur.blob, vec.blob) && vec.size <= window
    ensures var r := MergeChunksIo(cur, vec, maxGap);
            r.Ok? && Extended(orig, r.value, window - vec.size, initial)
  {
    ExtendedBy(orig, cur, vec, window, initial);
  }

  /** What remains of the window after a vector of the same blob. */
  function Shrink(window: nat, size: nat): nat {
    if window > size then window - size else 0
  }

  /** The last vector, the window and the tries that are left. */
  datatype Ahead = Ahead(last: IoVec, window: nat, tries: int)

  /** The vectors of one allocation in turn: those on the same blob use up the window and are merged
      if continuous; every one of them uses up a try. */
  function AppendAll(vecs: seq<IoVec>, a: Ahead, maxGap: nat): Result<Ahead>
    decreases vecs
  {
    if vecs == [] then Ok(a)
    else if a.last.blob.index == vecs[0].blob.index then
      var merged :- MergeChunksIo(a.last, vecs[0], maxGap);
      AppendAll(vecs[1..], Ahead(merged, Shrink(a.window, vecs[0].size), a.tries - 1), maxGap)
    else AppendAll(vecs[1..], a.(tries := a.tries - 1), maxGap)
  }

  lemma {:induction false} AppendAllKeepsBudget(f: FileV5, vecs: seq<IoVec>, a: Ahead, maxGap: nat, orig: IoVec,
                                                initial: nat)
    requires Extended(orig, a.last, a.window, initial) && orig.size + initial < U32_LIMIT
    requires Sound(f, vecs, false) && Sum(vecs) <= a.window
    requires TableOk(f.blobs) && InTable(f.blobs, orig.blob)
    ensures match AppendAll(vecs, a, maxGap)
            case Ok(b) => && Extended(orig, b.last, b.window, initial)
                          && b.window <= a.window && b.tries == a.tries - |vecs|
            case Err(_) => false
    decreases vecs
  {
    if vecs != [] {
      var next := AppendOneKeepsBudget(f, vecs, a, maxGap, orig, initial);
      AppendAllKeepsBudget(f, vecs[1..], next, maxGap, orig, initial);
    }
  }

  lemma AppendOneKeepsBudget(f: FileV5, vecs: seq<IoVec>, a: Ahead, maxGap: nat, orig: IoVec, initial: nat)
    returns (next: Ahead)
    requires Extended(orig, a.last, a.window, initial) && orig.size + initial < U32_LIMIT
    requires vecs != [] && Sound(f, vecs, false) && Sum(vecs) <= a.window
    requires TableOk(f.blobs) && InTable(f.blobs, orig.blob)
    ensures AppendAll(vecs, a, maxGap) == AppendAll(vecs[1..], next, maxGap)
    ensures Extended(orig, next.last, next.window, initial) && Sum(vecs[1..]) <= next.window <= a.window
    ensures next.tries == a.tries - 1 && Sound(f, vecs[1..], false)
  {
    var vec := vecs[0];
    assert SoundVec(f, vec, false);
    assert vecs == [vec] + vecs[1..];
    SumCons(vec, vecs[1..]);
    if a.last.blob.index == vec.blob.index {
      FromTable(f, vec.blob);
      MergeKeepsBudget(orig, a.last, vec, a.window, initial, maxGap);
      next := Ahead(MergeChunksIo(a.last, vec, maxGap).value, Shrink(a.window, vec.size), a.tries - 1);
    } else {
      next := a.(tries := a.tries - 1);
    }
  }

  /** `merge_chunks_io` on the vector it updates. */
  method MergeInto(orig: BlobIoVec, vec: IoVec, maxGap: nat) returns (ok: bool)
    modifies orig
    ensures match MergeChunksIo(old(orig.View()), vec, maxGap)
            case Ok(v) => ok && orig.View() == v
            case Err(_) => !ok
  {
    if orig.descs == [] { return false; }
    if vec.descs == [] || !IsContinuous(orig.descs[|orig.descs| - 1], vec.descs[0], maxGap) { return true; }
    var more := new BlobIoVec.Of(vec);
    ok := orig.AppendVec(more);
  }

  /** The same as a loop that updates the last vector. */
  method AppendVecs(vecs: seq<IoVec>, a0: Ahead, maxGap: nat) returns (r: Result<Ahead>)
    ensures r == AppendAll(vecs, a0, maxGap)
  {
    var last := new BlobIoVec.Of(a0.last);
    var tries, i := a0.tries, 0;
    var window: nat := a0.window;
    assert vecs[0..] == vecs;
    while i < |vecs|
      invariant 0 <= i <= |vecs|
      invariant AppendAll(vecs[i..], Ahead(last.View(), window, tries), maxGap) == AppendAll(vecs, a0, maxGap)
    {
      var vec := vecs[i];
      assert vecs[i..][1..] == vecs[i + 1..];
      tries := tries - 1;
      if last.blob.index == vec.blob.index {
        window := if window > vec.size then window - vec.size else 0;
        var ok := MergeInto(last, vec, maxGap);
        if !ok { return Err(AssertFailed); }
      }
      i := i + 1;
    }
    r := Ok(Ahead(last.View(), window, tries));
  }

  // ----- The two phases -----------------------------------------------------------------------

  /** Size requested from the next file, if any is. */
  datatype Request = Take(size: nat) | Skip | Stop

  function NextRequest(size: nat, window: nat, chunkSize: nat): Request
    requires chunkSize > 0
  {
    if size < window then Take(size)
    else if window >= chunkSize then Take(window / chunkSize * chunkSize)
    else if size == 0 then Skip
    else Stop
  }

  lemma RequestFits(size: nat, window: nat, chunkSize: nat)
    requires chunkSize > 0
    ensures NextRequest(size, window, chunkSize).Take? ==> NextRequest(size, window, chunkSize).size <= window
  {
    InPiece(window, chunkSize);
  }

  ghost function Following(s: Super, ino: nat): set<nat> {
    set i | i in s.inodes && i > ino
  }

  lemma FollowingShrinks(s: Super, next: nat)
    requires next + 1 in s.inodes
    ensures |Following(s, next + 1)| < |Following(s, next)|
  {
    assert Following(s, next + 1) == Following(s, next) - {next + 1} && next + 1 in Following(s, next);
  }

  /** The last vector and the window after a phase, and how the phase ended. */
  datatype Outcome = Outcome(last: IoVec, window: nat, result: Result<()>)

  /** Ask for the vectors of a file and merge them. */
  function Fetch(f: FileV5, offset: nat, size: nat, a: Ahead, maxGap: nat): Result<Ahead>
    requires f.chunkSize > 0
  {
    var vecs :- Alloc(f, offset, size, false);
    AppendAll(vecs, a, maxGap)
  }

  /** Fetching within the window fails exactly if the allocation does, and keeps the budget. */
  lemma FetchKeepsBudget(f: FileV5, offset: nat, size: nat, a: Ahead, maxGap: nat, orig: IoVec, initial: nat)
    requires f.Valid() && TableOk(f.blobs) && InTable(f.blobs, orig.blob)
    requires Extended(orig, a.last, a.window, initial) && orig.size + initial < U32_LIMIT && size <= a.window
    ensures match Fetch(f, offset, size, a, maxGap)
            case Ok(b) => && Extended(orig, b.last, b.window, initial) && b.window <= a.window
                          && !AllocFails(f, offset, size)
            case Err(e) => e == EINVAL && AllocFails(f, offset, size)
  {
    AllocFailsIff(f, offset, size, false);
    var got := Alloc(f, offset, size, false);
    if got.Ok? { AppendAllKeepsBudget(f, got.value, a, maxGap, orig, initial); }
  }

  /** "Read left content of current file." */
  function FilePhase(inode: FileV5, last: IoVec, windowBase: nat, window: nat, maxGap: nat): Outcome
    requires inode.chunkSize > 0
  {
    if windowBase < inode.size then
      match Fetch(inode, windowBase, Min(inode.size - windowBase, window), Ahead(last, window, 0), maxGap)
      case Err(e) => Outcome(last, window, Err(e))
      case Ok(b) => Outcome(b.last, b.window, Ok(()))
    else Outcome(last, window, Ok(()))
  }

  ghost predicate Sized(s: Super) {
    s.chunkSize > 0 && forall i | i in s.inodes :: s.inodes[i].chunkSize > 0
  }

  /** "Read more small files." The scan ends because inode numbers only grow: an empty file produces
      no vector and so uses up none of the 64 tries. */
  ghost function ScanPhase(s: Super, ino: nat, a: Ahead, maxGap: nat): Outcome
    requires Sized(s)
    decreases |Following(s, ino)|
  {
    if a.window == 0 || a.tries <= 0 || ino + 1 !in s.inodes then Outcome(a.last, a.window, Ok(()))
    else
      FollowingShrinks(s, ino);
      var ni := s.inodes[ino + 1];
      if !ni.isReg then ScanPhase(s, ino + 1, a, maxGap)
      else
        match NextRequest(ni.size, a.window, s.chunkSize)
        case Skip => ScanPhase(s, ino + 1, a, maxGap)
        case Stop => Outcome(a.last, a.window, Ok(()))
        case Take(size) =>
          match Fetch(ni, 0, size, a, maxGap)
          case Err(e) => Outcome(a.last, a.window, Err(e))
          case Ok(b) => ScanPhase(s, ino + 1, b, maxGap)
  }

  /** The inodes whose data the scan asks for, each with the size it asks for. */
  ghost function ScanAsks(s: Super, ino: nat, a: Ahead, maxGap: nat): seq<(nat, nat)>
    requires Sized(s)
    decreases |Following(s, ino)|
  {
    if a.window == 0 || a.tries <= 0 || ino + 1 !in s.inodes then []
    else
      FollowingShrinks(s, ino);
      var ni := s.inodes[ino + 1];
      if !ni.isReg then ScanAsks(s, ino + 1, a, maxGap)
      else
        match NextRequest(ni.size, a.window, s.chunkSize)
        case Skip => ScanAsks(s, ino + 1, a, maxGap)
        case Stop => []
        case Take(size) =>
          [(ino + 1, size)] + match Fetch(ni, 0, size, a, maxGap)
                              case Err(e) => []
                              case Ok(b) => ScanAsks(s, ino + 1, b, maxGap)
  }

  /** One of the inodes asked for has an unknown blob or, with the hole flag, a chunk beyond the request. */
  ghost predicate SomeAskFails(s: Super, asks: seq<(nat, nat)>)
    requires Sized(s)
  {
    exists i | 0 <= i < |asks| :: asks[i].0 in s.inodes && AllocFails(s.inodes[asks[i].0], 0, asks[i].1)
  }

  lemma AskFirst(s: Super, ask: (nat, nat), rest: seq<(nat, nat)>)
    requires Sized(s) && ask.0 in s.inodes
    ensures SomeAskFails(s, [ask] + rest) <==> AllocFails(s.inodes[ask.0], 0, ask.1) || SomeAskFails(s, rest)
  {
    var all := [ask] + rest;
    if AllocFails(s.inodes[ask.0], 0, ask.1) { assert all[0] == ask; }
    if SomeAskFails(s, rest) {
      var i :| 0 <= i < |rest| && rest[i].0 in s.inodes && AllocFails(s.inodes[rest[i].0], 0, rest[i].1);
      assert all[i + 1] == rest[i];
    }
    if SomeAskFails(s, all) && !AllocFails(s.inodes[ask.0], 0, ask.1) {
      var i :| 0 <= i < |all| && all[i].0 in s.inodes && AllocFails(s.inodes[all[i].0], 0, all[i].1);
      assert rest[i - 1] == all[i];
    }
  }

  /** The file phase keeps the budget, and fails exactly if the rest of the file cannot be described. */
  lemma FilePhaseKeepsBudget(inode: FileV5, cur: IoVec, windowBase: nat, window: nat, maxGap: nat)
    requires inode.Valid() && TableOk(inode.blobs) && InTable(inode.blobs, cur.blob)
    requires VecOk(cur) && cur.descs != [] && cur.size + window < U32_LIMIT
    ensures var o := FilePhase(inode, cur, windowBase, window, maxGap);
            && Extended(cur, o.last, o.window, window)
            && o.result == if FileAskFails(inode, windowBase, window) then Err(EINVAL) else Ok(())
  {
    assert cur.descs[|cur.descs|..] == [];
    if windowBase < inode.size {
      FetchKeepsBudget(inode, windowBase, Min(inode.size - windowBase, window), Ahead(cur, window, 0), maxGap, cur,
                       window);
    }
  }

  ghost predicate FileAskFails(inode: FileV5, windowBase: nat, window: nat)
    requires inode.chunkSize > 0
  {
    windowBase < inode.size && AllocFails(inode, windowBase, Min(inode.size - windowBase, window))
  }

  /** So does the scan, and it fails exactly if one of the inodes it asks for cannot be described. */
  lemma {:induction false} ScanPhaseKeepsBudget(s: Super, ino: nat, a: Ahead, maxGap: nat, orig: IoVec, initial: nat,
                                                table: nat -> Option<Blob>)
    requires SuperOk(s, table) && Sized(s) && InTable(table, orig.blob)
    requires Extended(orig, a.last, a.window, initial) && orig.size + initial < U32_LIMIT
    ensures var o := ScanPhase(s, ino, a, maxGap);
            && Extended(orig, o.last, o.window, initial)
            && o.result == if SomeAskFails(s, ScanAsks(s, ino, a, maxGap)) then Err(EINVAL) else Ok(())
    decreases |Following(s, ino)|
  {
    if a.window > 0 && a.tries > 0 && ino + 1 in s.inodes {
      FollowingShrinks(s, ino);
      var ni := s.inodes[ino + 1];
      var want := NextRequest(ni.size, a.window, s.chunkSize);
      if !ni.isReg || want.Skip? {
        ScanPhaseKeepsBudget(s, ino + 1, a, maxGap, orig, initial, table);
      } else if want.Take? {
        RequestFits(ni.size, a.window, s.chunkSize);
        FetchKeepsBudget(ni, 0, want.size, a, maxGap, orig, initial);
        var got := Fetch(ni, 0, want.size, a, maxGap);
        if got.Ok? {
          ScanPhaseKeepsBudget(s, ino + 1, got.value, maxGap, orig, initial, table);
          AskFirst(s, (ino + 1, want.size), ScanAsks(s, ino + 1, got.value, maxGap));
        } else {
          AskFirst(s, (ino + 1, want.size), []);
        }
      }
    }
  }

  /** The scan as a loop. */
  method AmplifyMore(s: Super, ino: nat, last0: IoVec, window0: nat, maxGap: nat) returns (o: Outcome)
    requires Sized(s)
    ensures o == ScanPhase(s, ino, Ahead(last0, window0, 64), maxGap)
  {
    var a := Ahead(last0, window0, 64);
    var next := ino;
    while a.window > 0 && a.tries > 0
      invariant ScanPhase(s, next, a, maxGap) == ScanPhase(s, ino, Ahead(last0, window0, 64), maxGap)
      decreases |Following(s, next)|
    {
      if next + 1 !in s.inodes { break; }
      FollowingShrinks(s, next);
      next := next + 1;
      var ni := s.inodes[next];
      if ni.isReg {
        var want := NextRequest(ni.size, a.window, s.chunkSize);
        if want.Skip? { continue; }
        if want.Stop? { return Outcome(a.last, a.window, Ok(())); }
        var got := AllocBioVecs(ni, 0, want.size, false);
        if got.Err? { return Outcome(a.last, a.window, Err(got.error)); }
        var merged := AppendVecs(got.value, a, maxGap);
        if merged.Err? { return Outcome(a.last, a.window, Err(merged.error)); }
        a := merged.value;
      }
    }
    o := Outcome(a.last, a.window, Ok(()));
  }

  /** The last vector after both phases, and the result. */
  ghost function Amplified(s: Super, maxUncompSize: nat, last: IoVec, inode: FileV5, windowBase: nat,
                           windowSize: nat): Outcome
    requires Sized(s) && inode.chunkSize > 0
  {
    var maxGap := maxUncompSize / MERGING_SIZE_TO_GAP;
    var o := FilePhase(inode, last, windowBase, windowSize, maxGap);
    if o.result.Err? then o else ScanPhase(s, inode.ino, Ahead(o.last, o.window, 64), maxGap)
  }

  /** `amplify_io`: nothing happens to an empty list or an empty last vector; otherwise only the
      last vector is replaced. */
  method AmplifyIo(s: Super, maxUncompSize: nat, descs: array<IoVec>, inode: FileV5, windowBase: nat, windowSize: nat)
    returns (r: Result<()>)
    requires Sized(s) && inode.chunkSize > 0
    modifies descs
    ensures var was := old(descs[..]); var n := |was| - 1;
            if was == [] || was[n].descs == [] then descs[..] == was && r == Ok(())
            else var o := Amplified(s, maxUncompSize, was[n], inode, windowBase, windowSize);
                 descs[..] == was[n := o.last] && r == o.result
  {
    if descs.Length == 0 || descs[descs.Length - 1].descs == [] { return Ok(()); }
    var n := descs.Length - 1;
    var window := windowSize;
    var maxGap := maxUncompSize / MERGING_SIZE_TO_GAP;
    if windowBase < inode.size {
      var size := Min(inode.size - windowBase, window);
      var got := AllocBioVecs(inode, windowBase, size, false);
      if got.Err? { return Err(got.error); }
      var merged := AppendVecs(got.value, Ahead(descs[n], window, 0), maxGap);
      if merged.Err? { return Err(merged.error); }
      descs[n] := merged.value.last;
      window := merged.value.window;
    }
    var o := AmplifyMore(s, inode.ino, descs[n], window, maxGap);
    descs[n] := o.last;
    r := o.result;
  }

  /** A chunk that would be fetched ahead cannot be described: in the rest of the file itself, or in
      one of the inodes behind it that the scan asks for. */
  ghost predicate AmplifyFails(s: Super, maxUncompSize: nat, last: IoVec, inode: FileV5, windowBase: nat,
                               windowSize: nat)
    requires Sized(s) && inode.chunkSize > 0
  {
    var maxGap := maxUncompSize / MERGING_SIZE_TO_GAP;
    var o := FilePhase(inode, last, windowBase, windowSize, maxGap);
    || FileAskFails(inode, windowBase, windowSize)
    || SomeAskFails(s, ScanAsks(s, inode.ino, Ahead(o.last, o.window, 64), maxGap))
  }

  /** Amplification only extends the last vector: the original descriptors stay in front, what follows
      is internal I/O on the same blob, appended bytes and remaining window together never exceed the
      initial window, no assertion fires, and the one error is that of an allocation that fails. */
  lemma AmplifyKeepsBudget(s: Super, maxUncompSize: nat, last: IoVec, inode: FileV5, windowBase: nat, windowSize: nat,
                           table: nat -> Option<Blob>)
    requires SuperOk(s, table) && Sized(s) && inode.Valid() && inode.blobs == table
    requires VecOk(last) && last.descs != [] && InTable(table, last.blob) && last.size + windowSize < U32_LIMIT
    ensures var o := Amplified(s, maxUncompSize, last, inode, windowBase, windowSize);
            && Extended(last, o.last, o.window, windowSize)
            && (AmplifyFails(s, maxUncompSize, last, inode, windowBase, windowSize) ==> o.result == Err(EINVAL))
            && (!AmplifyFails(s, maxUncompSize, last, inode, windowBase, windowSize) ==> o.result == Ok(()))
  {
    var maxGap := maxUncompSize / MERGING_SIZE_TO_GAP;
    FilePhaseKeepsBudget(inode, last, windowBase, windowSize, maxGap);
    var o := FilePhase(inode, last, windowBase, windowSize, maxGap);
    if o.result.Ok? {
      ScanPhaseKeepsBudget(s, inode.ino, Ahead(o.last, o.window, 64), maxGap, last, windowSize, table);
    }
  }
}
