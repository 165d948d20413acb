/** What the scan of `amplify_io` (rafs/src/metadata/md_v5.rs) reads of the files behind the one that is
    read: inode by inode, in terms of the file system alone. */
module ScanV5 {
  import opened Common
  import opened BlobIo
  import opened BioV5
  import opened SparseV5
  import opened Amplify

  // ----- One allocation offered to the last vector ----------------------------------------------

  /** The first descriptor of the vector starts behind the last one of `last`, within the gap. */
  ghost predicate Continues(last: IoVec, vec: IoVec, maxGap: nat) {
    && last.descs != [] && vec.descs != []
    && var prev, next := last.descs[|last.descs| - 1].chunk, vec.descs[0].chunk;
       && prev.blobIndex == next.blobIndex && prev.offset + prev.size <= next.offset
       && next.offset - (prev.offset + prev.size) <= (if vec.descs[0].blob.legacyStargz then 8 * maxGap else maxGap)
  }

  /** A vector on another blob changes nothing.  One on the same blob uses up the window, and is put
      behind the last vector if it continues it. */
  ghost predicate Offered(vec: IoVec, maxGap: nat, last: IoVec, window: nat, last': IoVec, window': nat) {
    if vec.blob.index != last.blob.index then last' == last && window' == window
    else
      && window' == (if vec.size < window then window - vec.size else 0)
      && last' == if Continues(last, vec, maxGap)
                  then IoVec(last.blob, last.size + vec.size, last.descs + vec.descs) else last
  }

  /** The vectors one after another, with the last vector and the window before, between and after them. */
  ghost predicate OfferedAll(vecs: seq<IoVec>, maxGap: nat, lasts: seq<IoVec>, windows: seq<nat>) {
    && |lasts| == |windows| == |vecs| + 1
    && forall j | 0 <= j < |vecs| :: Offered(vecs[j], maxGap, lasts[j], windows[j], lasts[j + 1], windows[j + 1])
  }

  /** How one allocation changes the last vector, the window and the tries. */
  ghost predicate Taken(vecs: seq<IoVec>, maxGap: nat, a: Ahead, b: Ahead, lasts: seq<IoVec>, windows: seq<nat>) {
    && OfferedAll(vecs, maxGap, lasts, windows)
    && lasts[0] == a.last && windows[0] == a.window
    && lasts[|vecs|] == b.last && windows[|vecs|] == b.window && b.tries == a.tries - |vecs|
  }

  lemma {:induction false} AppendAllTakes(vecs: seq<IoVec>, a: Ahead, maxGap: nat)
    returns (lasts: seq<IoVec>, windows: seq<nat>)
    requires AppendAll(vecs, a, maxGap).Ok?
    ensures Taken(vecs, maxGap, a, AppendAll(vecs, a, maxGap).value, lasts, windows)
    decreases vecs
  {
    lasts, windows := [a.last], [a.window];
    if vecs != [] {
      var next := if a.last.blob.index == vecs[0].blob.index
                  then Ahead(MergeChunksIo(a.last, vecs[0], maxGap).value, Shrink(a.window, vecs[0].size), a.tries - 1)
                  else a.(tries := a.tries - 1);
      assert Offered(vecs[0], maxGap, a.last, a.window, next.last, next.window);
      var ls, ws := AppendAllTakes(vecs[1..], next, maxGap);
      lasts, windows := [a.last] + ls, [a.window] + ws;
      forall j | 0 <= j < |vecs|
        ensures Offered(vecs[j], maxGap, lasts[j], windows[j], lasts[j + 1], windows[j + 1])
      {
        if j > 0 { assert vecs[1..][j - 1] == vecs[j]; }
      }
    }
  }

  // ----- One inode after another -----------------------------------------------------------------

  /** What a regular file is asked for: all of it if it is smaller than the window, and otherwise as many
      whole chunks as the window holds. */
  ghost predicate AskedFor(s: Super, f: FileV5, window: nat, size: nat)
    requires s.chunkSize > 0
  {
    && f.isReg
    && if f.size < window then size == f.size
       else s.chunkSize <= window && size % s.chunkSize == 0 && size <= window < size + s.chunkSize
  }

  /** The scan has something to ask of the file. */
  predicate Wants(s: Super, f: FileV5, window: nat) {
    f.isReg && (f.size < window || s.chunkSize <= window)
  }

  /** One inode of the scan: the state before and after it and, if it is asked, the size and the vectors
      that come back. */
  datatype Visit = Visit(before: Ahead, size: nat, vecs: seq<IoVec>, lasts: seq<IoVec>, windows: seq<nat>, after: Ahead)

  ghost predicate VisitOk(s: Super, f: FileV5, maxGap: nat, v: Visit)
    requires s.chunkSize > 0 && f.chunkSize > 0
  {
    && v.before.window > 0 && v.before.tries > 0
    && if Wants(s, f, v.before.window)
       then && AskedFor(s, f, v.before.window, v.size) && Alloc(f, 0, v.size, false) == Ok(v.vecs)
            && Taken(v.vecs, maxGap, v.before, v.after, v.lasts, v.windows)
       else v.after == v.before && (f.isReg ==> f.size == 0)
  }

  ghost predicate VisitAt(s: Super, i: nat, maxGap: nat, v: Visit)
    requires Sized(s)
  {
    i in s.inodes && VisitOk(s, s.inodes[i], maxGap, v)
  }

  /** The inodes behind `ino` one after another: every visit starts where the one before ended. */
  ghost predicate Scanned(s: Super, ino: nat, maxGap: nat, a: Ahead, visits: seq<Visit>, b: Ahead)
    requires Sized(s)
    decreases visits
  {
    if visits == [] then a == b
    else && visits[0].before == a && VisitAt(s, ino + 1, maxGap, visits[0])
         && Scanned(s, ino + 1, maxGap, visits[0].after, visits[1..], b)
  }

  /** Visit `k` is that of inode `ino + 1 + k`. */
  lemma {:induction false} ScannedAt(s: Super, ino: nat, maxGap: nat, a: Ahead, visits: seq<Visit>, b: Ahead, k: nat)
    requires Sized(s) && Scanned(s, ino, maxGap, a, visits, b) && k < |visits|
    ensures VisitAt(s, ino + 1 + k, maxGap, visits[k])
    ensures visits[k].before == if k == 0 then a else visits[k - 1].after
    ensures k + 1 == |visits| ==> visits[k].after == b
    decreases visits
  {
    if k > 0 { ScannedAt(s, ino + 1, maxGap, visits[0].after, visits[1..], b, k - 1); }
  }

  /** Why the scan ends before inode `next`: nothing is left of the window or the tries, there is no such
      inode, it is a file that does not fit, or it is asked and cannot be described. */
  ghost predicate Ends(s: Super, next: nat, b: Ahead, result: Result<()>)
    requires Sized(s)
  {
    match result
    case Ok(_) =>
      || b.window == 0 || b.tries <= 0 || next !in s.inodes
      || (s.inodes[next].isReg && !Wants(s, s.inodes[next], b.window) && s.inodes[next].size > 0)
    case Err(e) =>
      && b.window > 0 && b.tries > 0 && next in s.inodes && Wants(s, s.inodes[next], b.window)
      && Unanswered(s, s.inodes[next], b.window, e)
  }

  /** What the file is asked for cannot be described. */
  ghost predicate Unanswered(s: Super, f: FileV5, window: nat, e: Error)
    requires s.chunkSize > 0 && f.chunkSize > 0
  {
    exists size :: AskedFor(s, f, window, size) && Alloc(f, 0, size, false) == Err(e)
  }

  ghost predicate EndsAs(s: Super, next: nat, b: Ahead, o: Outcome)
    requires Sized(s)
  {
    o.last == b.last && o.window == b.window && Ends(s, next, b, o.result)
  }

  lemma AskIs(s: Super, f: FileV5, window: nat)
    requires s.chunkSize > 0 && f.isReg
    ensures match NextRequest(f.size, window, s.chunkSize)
            case Take(size) => Wants(s, f, window) && AskedFor(s, f, window, size)
            case Skip => !Wants(s, f, window) && f.size == 0
            case Stop => !Wants(s, f, window) && f.size > 0
  {
    InPiece(window, s.chunkSize);
    QuotientUnique(window / s.chunkSize * s.chunkSize, s.chunkSize, window / s.chunkSize, 0);
  }

  /** How the next inode changes the state, as the code computes it. */
  ghost predicate Goes(s: Super, ino: nat, a: Ahead, maxGap: nat, b: Ahead)
    requires Sized(s) && ino + 1 in s.inodes
  {
    var ni := s.inodes[ino + 1];
    if !ni.isReg then b == a
    else match NextRequest(ni.size, a.window, s.chunkSize)
         case Take(size) => Fetch(ni, 0, size, a, maxGap) == Ok(b)
         case Skip => b == a
         case Stop => false
  }

  /** Visiting the next inode. */
  lemma VisitNext(s: Super, ino: nat, a: Ahead, maxGap: nat, b: Ahead) returns (v: Visit)
    requires Sized(s) && a.window > 0 && a.tries > 0 && ino + 1 in s.inodes
    requires Goes(s, ino, a, maxGap, b)
    ensures VisitAt(s, ino + 1, maxGap, v) && v.before == a && v.after == b
  {
    var ni := s.inodes[ino + 1];
    v := Visit(a, 0, [], [], [], b);
    if ni.isReg {
      AskIs(s, ni, a.window);
      var want := NextRequest(ni.size, a.window, s.chunkSize);
      if want.Take? {
        var vecs := Alloc(ni, 0, want.size, false).value;
        var lasts, windows := AppendAllTakes(vecs, a, maxGap);
        v := Visit(a, want.size, vecs, lasts, windows, b);
      }
    }
  }

  /** The next inode: it is visited and the scan goes on behind it, or the scan ends. */
  lemma ScanNext(s: Super, ino: nat, a: Ahead, maxGap: nat, orig: IoVec, initial: nat, table: nat -> Option<Blob>)
    returns (go: bool, b: Ahead)
    requires SuperOk(s, table) && Sized(s) && InTable(table, orig.blob)
    requires Extended(orig, a.last, a.window, initial) && orig.size + initial < U32_LIMIT
    requires a.window > 0 && a.tries > 0 && ino + 1 in s.inodes
    ensures go ==> && ScanPhase(s, ino, a, maxGap) == ScanPhase(s, ino + 1, b, maxGap)
                   && Extended(orig, b.last, b.window, initial) && Goes(s, ino, a, maxGap, b)
    ensures !go ==> EndsAs(s, ino + 1, a, ScanPhase(s, ino, a, maxGap))
  {
    var ni := s.inodes[ino + 1];
    go, b := true, a;
    if ni.isReg {
      AskIs(s, ni, a.window);
      match NextRequest(ni.size, a.window, s.chunkSize)
      case Skip =>
      case Stop => go := false;
      case Take(size) =>
        RequestFits(ni.size, a.window, s.chunkSize);
        FetchKeepsBudget(ni, 0, size, a, maxGap, orig, initial);
        match Fetch(ni, 0, size, a, maxGap)
        case Ok(c) => b := c;
        case Err(e) =>
          go := false;
          AllocFailsIff(ni, 0, size, false);
    }
  }

  /** The scan visits the inodes behind `ino` one by one and ends for one of the reasons above. */
  lemma {:induction false} ScanVisits(s: Super, ino: nat, a: Ahead, maxGap: nat, orig: IoVec, initial: nat,
                                      table: nat -> Option<Blob>)
    returns (visits: seq<Visit>, b: Ahead)
    requires SuperOk(s, table) && Sized(s) && InTable(table, orig.blob)
    requires Extended(orig, a.last, a.window, initial) && orig.size + initial < U32_LIMIT
    ensures Scanned(s, ino, maxGap, a, visits, b)
    ensures EndsAs(s, ino + |visits| + 1, b, ScanPhase(s, ino, a, maxGap))
    decreases |Following(s, ino)|
  {
    visits, b := [], a;
    if a.window > 0 && a.tries > 0 && ino + 1 in s.inodes {
      var go, next := ScanNext(s, ino, a, maxGap, orig, initial, table);
      if go {
        FollowingShrinks(s, ino);
        var v := VisitNext(s, ino, a, maxGap, next);
        var rest, c := ScanVisits(s, ino + 1, next, maxGap, orig, initial, table);
        visits, b := [v] + rest, c;
        assert visits[1..] == rest;
      }
    }
  }

  // ----- All of amplification --------------------------------------------------------------------

  /** What the rest of the file itself contributes: nothing behind its end, and otherwise what an
      allocation of the rest, or of the window if that is smaller, offers to the last vector. */
  ghost predicate FileRead(f: FileV5, base: nat, window: nat, maxGap: nat, last: IoVec, mid: Ahead, vecs: seq<IoVec>,
                           lasts: seq<IoVec>, windows: seq<nat>)
    requires f.chunkSize > 0
  {
    if f.size <= base then mid.last == last && mid.window == window
    else
      && Alloc(f, base, if f.size - base < window then f.size - base else window, false) == Ok(vecs)
      && Taken(vecs, maxGap, Ahead(last, window, mid.tries + |vecs|), mid, lasts, windows)
  }

  /** Amplification whose file phase succeeds: that phase, and then the scan with a fresh count of 64 tries.  The gap
      allowed between chunks is the 128th part of the size limit. */
  lemma AmplifiedVisits(s: Super, maxUncompSize: nat, last: IoVec, inode: FileV5, base: nat, window: nat,
                        table: nat -> Option<Blob>)
    returns (vecs: seq<IoVec>, lasts: seq<IoVec>, windows: seq<nat>, mid: Ahead, visits: seq<Visit>, b: Ahead)
    requires SuperOk(s, table) && Sized(s) && inode.Valid() && inode.blobs == table
    requires VecOk(last) && last.descs != [] && InTable(table, last.blob) && last.size + window < U32_LIMIT
    requires !FileAskFails(inode, base, window)
    ensures FileRead(inode, base, window, maxUncompSize / 128, last, mid, vecs, lasts, windows)
    ensures Scanned(s, inode.ino, maxUncompSize / 128, Ahead(mid.last, mid.window, 64), visits, b)
    ensures EndsAs(s, inode.ino + |visits| + 1, b, Amplified(s, maxUncompSize, last, inode, base, window))
  {
    vecs, lasts, windows, mid := AmplifiedReads(s, maxUncompSize, last, inode, base, window, table);
    visits, b := ScanVisits(s, inode.ino, Ahead(mid.last, mid.window, 64), maxUncompSize / 128, last, window, table);
  }

  lemma AmplifiedReads(s: Super, maxUncompSize: nat, last: IoVec, inode: FileV5, base: nat, window: nat,
                       table: nat -> Option<Blob>)
    returns (vecs: seq<IoVec>, lasts: seq<IoVec>, windows: seq<nat>, mid: Ahead)
    requires SuperOk(s, table) && Sized(s) && inode.Valid() && inode.blobs == table
    requires VecOk(last) && last.descs != [] && InTable(table, last.blob) && last.size + window < U32_LIMIT
    requires !FileAskFails(inode, base, window)
    ensures FileRead(inode, base, window, maxUncompSize / 128, last, mid, vecs, lasts, windows)
    ensures Extended(last, mid.last, mid.window, window)
    ensures Amplified(s, maxUncompSize, last, inode, base, window) ==
            ScanPhase(s, inode.ino, Ahead(mid.last, mid.window, 64), maxUncompSize / 128)
  {
    FilePhaseKeepsBudget(inode, last, base, window, maxUncompSize / 128);
    vecs, lasts, windows, mid := FilePhaseReads(inode, last, base, window, maxUncompSize / 128);
  }

  lemma FilePhaseReads(f: FileV5, last: IoVec, base: nat, window: nat, maxGap: nat)
    returns (vecs: seq<IoVec>, lasts: seq<IoVec>, windows: seq<nat>, mid: Ahead)
    requires f.chunkSize > 0 && FilePhase(f, last, base, window, maxGap).result.Ok?
    ensures FileRead(f, base, window, maxGap, last, mid, vecs, lasts, windows)
    ensures FilePhase(f, last, base, window, maxGap) == Outcome(mid.last, mid.window, Ok(()))
  {
    vecs, lasts, windows, mid := [], [], [], Ahead(last, window, 0);
    if base < f.size {
      vecs := Alloc(f, base, Min(f.size - base, window), false).value;
      lasts, windows := AppendAllTakes(vecs, mid, maxGap);
      mid := AppendAll(vecs, mid, maxGap).value;
    }
  }

  // ----- Small files that follow in the blob -----------------------------------------------------

  ghost function AllDescs(vecs: seq<IoVec>): seq<IoDesc> {
    if vecs == [] then [] else vecs[0].descs + AllDescs(vecs[1..])
  }

  /** The state after a vector has been put behind the last one. */
  function Joined(a: Ahead, v: IoVec): Ahead
    requires v.size < a.window
  {
    Ahead(Append(a.last, v), a.window - v.size, a.tries - 1)
  }

  /** The next files each give one vector on the same blob that continues what is there, and leave room. */
  ghost predicate SmallFiles(s: Super, ino: nat, a: Ahead, maxGap: nat, vecs: seq<IoVec>)
    requires Sized(s)
    decreases vecs
  {
    vecs == [] ||
    (&& a.window > 0 && a.tries > 0 && ino + 1 in s.inodes
     && var f, v := s.inodes[ino + 1], vecs[0];
        && f.isReg && f.size < a.window && Alloc(f, 0, f.size, false) == Ok([v])
        && v.blob.index == a.last.blob.index && Continues(a.last, v, maxGap) && v.size < a.window
        && SmallFiles(s, ino + 1, Joined(a, v), maxGap, vecs[1..]))
  }

  /** The last vector is one that can be extended. */
  ghost predicate Open(a: Ahead, table: nat -> Option<Blob>) {
    VecOk(a.last) && a.last.descs != [] && a.last.size + a.window < U32_LIMIT && InTable(table, a.last.blob)
  }

  /** Reading one of them. */
  lemma SmallFileJoins(s: Super, ino: nat, a: Ahead, maxGap: nat, f: FileV5, v: IoVec, table: nat -> Option<Blob>)
    requires SuperOk(s, table) && Sized(s) && Open(a, table)
    requires a.window > 0 && a.tries > 0 && ino + 1 in s.inodes && s.inodes[ino + 1] == f
    requires f.isReg && f.size < a.window && Alloc(f, 0, f.size, false) == Ok([v])
    requires v.blob.index == a.last.blob.index && Continues(a.last, v, maxGap) && v.size < a.window
    ensures ScanPhase(s, ino, a, maxGap) == ScanPhase(s, ino + 1, Joined(a, v), maxGap) && Open(Joined(a, v), table)
  {
    SmallVecAppends(f, a, maxGap, v, table);
    assert [v][1..] == [];
    assert AppendAll([v], a, maxGap) == Ok(Joined(a, v));
  }

  lemma SmallVecAppends(f: FileV5, a: Ahead, maxGap: nat, v: IoVec, table: nat -> Option<Blob>)
    requires f.Valid() && f.blobs == table && TableOk(table) && Open(a, table)
    requires f.size < a.window && Alloc(f, 0, f.size, false) == Ok([v])
    requires v.blob.index == a.last.blob.index && Continues(a.last, v, maxGap) && v.size < a.window
    ensures MergeChunksIo(a.last, v, maxGap) == Ok(Append(a.last, v)) && Open(Joined(a, v), table)
  {
    AllocBounded(f, 0, f.size, false);
    assert SoundVec(f, [v][0], false);
    FromTable(f, v.blob);
    AppendKeepsVec(a.last, v);
  }

  /** The scan only adds to the last vector. */
  lemma ScanExtends(s: Super, ino: nat, a: Ahead, maxGap: nat, table: nat -> Option<Blob>)
    requires SuperOk(s, table) && Sized(s) && Open(a, table)
    ensures a.last.descs <= ScanPhase(s, ino, a, maxGap).last.descs
  {
    assert a.last.descs[|a.last.descs|..] == [];
    ScanPhaseKeepsBudget(s, ino, a, maxGap, a.last, a.window, table);
  }

  /** Small regular files that lie behind one another in the blob, as they lie behind one another in the
      image, are all read along, as long as the window and the tries last. */
  lemma {:induction false} SmallFilesFollow(s: Super, ino: nat, a: Ahead, maxGap: nat, vecs: seq<IoVec>,
                                            table: nat -> Option<Blob>)
    requires SuperOk(s, table) && Sized(s) && Open(a, table) && SmallFiles(s, ino, a, maxGap, vecs)
    ensures a.last.descs + AllDescs(vecs) <= ScanPhase(s, ino, a, maxGap).last.descs
    decreases vecs
  {
    if vecs == [] {
      ScanExtends(s, ino, a, maxGap, table);
      assert a.last.descs + [] == a.last.descs;
    } else {
      SmallFileJoins(s, ino, a, maxGap, s.inodes[ino + 1], vecs[0], table);
      SmallFilesFollow(s, ino + 1, Joined(a, vecs[0]), maxGap, vecs[1..], table);
      Regroup(a.last.descs, vecs[0].descs, AllDescs(vecs[1..]));
    }
  }
}
