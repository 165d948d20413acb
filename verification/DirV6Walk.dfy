/** Enumerating RAFS v6 directories (rafs/src/metadata/direct_v6.rs): the resumable walk, access by
    child index and the child count. */
module DirV6Walk {
  import opened Common
  import opened Names
  import opened DirentV6
  import opened DirV6
  import opened Readdir

  function ListedOf(e: Entry): Listed {
    Listed(e.name, e.nid)
  }

  function Listing(es: seq<Entry>): (l: seq<Listed>)
    ensures |l| == |es| && forall i | 0 <= i < |es| :: l[i] == ListedOf(es[i])
  {
    seq(|es|, i requires 0 <= i < |es| => ListedOf(es[i]))
  }

  /** Number of entries in the blocks before block `b`. */
  function Start(dir: seq<seq<Entry>>, b: nat): nat
    requires b <= |dir|
  {
    if b == 0 then 0 else |dir[0]| + Start(dir[1..], b - 1)
  }

  lemma {:induction false} StartStep(dir: seq<seq<Entry>>, b: nat)
    requires b < |dir|
    ensures Start(dir, b + 1) == Start(dir, b) + |dir[b]| <= |Flatten(dir)|
    ensures b + 1 == |dir| ==> Start(dir, b + 1) == |Flatten(dir)|
  {
    if b > 0 { StartStep(dir[1..], b - 1); }
  }

  lemma StartStepIf(dir: seq<seq<Entry>>, b: int)
    ensures 0 <= b < |dir| ==> Start(dir, b + 1) == Start(dir, b) + |dir[b]| <= |Flatten(dir)|
    ensures 0 <= b < |dir| && b + 1 == |dir| ==> Start(dir, b + 1) == |Flatten(dir)|
  {
    if 0 <= b < |dir| { StartStep(dir, b); }
  }

  lemma {:induction false} FlattenAt(dir: seq<seq<Entry>>, b: nat, i: nat)
    requires IsPlace(dir, b, i)
    ensures Start(dir, b) + i < |Flatten(dir)| && Flatten(dir)[Start(dir, b) + i] == dir[b][i]
  {
    if b > 0 { FlattenAt(dir[1..], b - 1, i); }
  }

  /** The entries `entry_name` can read: all but the last one of an exactly full last block. */
  function Readable(d: Dir, dir: seq<seq<Entry>>): seq<Entry> {
    var es := Flatten(dir);
    if LastFull(d) && es != [] then es[..|es| - 1] else es
  }

  lemma UnreadableIsLast(d: Dir, dir: seq<seq<Entry>>, b: nat, i: nat)
    requires Stored(d, dir) && NonEmpty(dir) && IsPlace(dir, b, i)
    ensures Unreadable(d, dir, b, i) <==> Start(dir, b) + i >= |Readable(d, dir)|
    ensures !Unreadable(d, dir, b, i) ==> Readable(d, dir)[Start(dir, b) + i] == dir[b][i]
  {
    FlattenAt(dir, b, i);
    StartStep(dir, b);
    if b + 1 < |dir| {
      StartStep(dir, |dir| - 1);
      StartMonotone(dir, b + 1, |dir| - 1);
      assert dir[|dir| - 1] != [];
    }
  }

  lemma {:induction false} StartMonotone(dir: seq<seq<Entry>>, a: nat, b: nat)
    requires a <= b <= |dir|
    ensures Start(dir, a) <= Start(dir, b)
  {
    if a < b {
      StartMonotone(dir, a, b - 1);
      StartStep(dir, b - 1);
    }
  }

  function Max(a: nat, b: nat): nat { if a < b then b else a }

  /** The walk has handled the first `p` entries. */
  ghost predicate WalkedTo(list: seq<Listed>, k: nat, decide: Handler, p: nat, skipped: nat, cur: nat,
                           calls: seq<Visit>) {
    && p <= |list| && cur == Max(k, p) && skipped == Max(k, p) - p
    && WalkFrom(list, k, decide, []) == WalkFrom(list, cur, decide, calls)
  }

  /** What reading the entry at position `p` of the listing returns. */
  ghost predicate ReadsListed(d: Dir, list: seq<Listed>, full: bool, p: nat, read: Result<(nat, Name)>) {
    if p < |list| then read == Ok((list[p].ino, list[p].name)) && InodeWrapper(d, list[p].ino) == Ok(list[p].ino)
    else full && read == Err(Overflow)
  }

  /** Reading the entries of block `b` one by one reads the listing from position `start` on. */
  ghost predicate BlockLists(d: Dir, b: nat, count: nat, list: seq<Listed>, full: bool, start: nat) {
    forall i | 0 <= i < count :: ReadsListed(d, list, full, start + i, EntryAt(d, b, i, count))
  }

  lemma BlockListsDir(d: Dir, dir: seq<seq<Entry>>, b: nat)
    requires WellFormed(d, dir) && b < |dir|
    ensures BlockLists(d, b, |dir[b]|, Listing(Readable(d, dir)), LastFull(d), Start(dir, b))
  {
    forall i | 0 <= i < |dir[b]|
      ensures ReadsListed(d, Listing(Readable(d, dir)), LastFull(d), Start(dir, b) + i, EntryAt(d, b, i, |dir[b]|))
    {
      assert IsPlace(dir, b, i);
      EntryAtReads(d, dir, b, i);
      UnreadableIsLast(d, dir, b, i);
    }
  }

  /** How a walk of `list` ended, and with which calls. */
  ghost predicate WalkEnded(list: seq<Listed>, k: nat, decide: Handler, full: bool, calls: seq<Visit>, r: Result<()>) {
    var (c, end) := WalkFrom(list, k, decide, []);
    && calls == c
    && match end
       case Finished => r == if full then Err(Overflow) else Ok(())
       case Stopped => r == Ok(())
       case Failed => r == Err(Handler)
  }

  /** The body of the walk's inner loop once the entry is read: skip it, or hand it to the handler.
      `done` holds the result when the walk ends here. */
  method WalkEntry(d: Dir, read: Result<(nat, Name)>, decide: Handler, skipped0: nat, cur0: nat,
                   calls0: seq<Visit>, ghost list: seq<Listed>, ghost full: bool, ghost k: nat, ghost p: nat)
    returns (skipped: nat, cur: nat, calls: seq<Visit>, done: Option<Result<()>>)
    ensures ReadsListed(d, list, full, p, read) && WalkedTo(list, k, decide, p, skipped0, cur0, calls0) ==>
              if done.None? then WalkedTo(list, k, decide, p + 1, skipped, cur, calls)
              else WalkEnded(list, k, decide, full, calls, done.value)
  {
    skipped, cur, calls, done := skipped0, cur0, calls0, None;
    if read.Err? { return skipped, cur, calls, Some(Err(read.error)); }
    var (nid, name) := read.value;
    if skipped != 0 {
      skipped := skipped - 1;
    } else {
      var child := InodeWrapper(d, nid);
      if child.Err? { return skipped, cur, calls, Some(Err(child.error)); }
      cur := cur + 1;
      calls := calls + [Visit(name, nid, cur)];
      match decide(calls) {
        case Break => done := Some(Ok(()));
        case Fail => done := Some(Err(Handler));
        case Continue =>
      }
    }
  }

  /** The walk's loop over one block. */
  method WalkBlock(d: Dir, b: nat, count: nat, decide: Handler, skipped0: nat, cur0: nat, calls0: seq<Visit>,
                   ghost list: seq<Listed>, ghost full: bool, ghost k: nat, ghost start: nat)
    returns (skipped: nat, cur: nat, calls: seq<Visit>, done: Option<Result<()>>)
    ensures BlockLists(d, b, count, list, full, start) && WalkedTo(list, k, decide, start, skipped0, cur0, calls0) ==>
              if done.None? then WalkedTo(list, k, decide, start + count, skipped, cur, calls)
              else WalkEnded(list, k, decide, full, calls, done.value)
  {
    ghost var wf := && BlockLists(d, b, count, list, full, start)
                    && WalkedTo(list, k, decide, start, skipped0, cur0, calls0);
    skipped, cur, calls, done := skipped0, cur0, calls0, None;
    var j := 0;
    while j < count
      invariant 0 <= j <= count && done.None?
      invariant wf ==> WalkedTo(list, k, decide, start + j, skipped, cur, calls)
    {
      skipped, cur, calls, done :=
        WalkEntry(d, EntryAt(d, b, j, count), decide, skipped, cur, calls, list, full, k, start + j);
      if done.Some? { return; }
      j := j + 1;
    }
  }

  /** Every block from `b` on lists its part of `list`. */
  ghost predicate AllListed(d: Dir, dir: seq<seq<Entry>>, list: seq<Listed>, full: bool, b: nat)
    decreases |dir| - b
  {
    b < |dir| ==> BlockLists(d, b, |dir[b]|, list, full, Start(dir, b)) && AllListed(d, dir, list, full, b + 1)
  }

  lemma {:induction false} AllListedFrom(d: Dir, dir: seq<seq<Entry>>, b: nat)
    requires WellFormed(d, dir)
    ensures AllListed(d, dir, Listing(Readable(d, dir)), LastFull(d), b)
    decreases |dir| - b
  {
    if b < |dir| {
      BlockListsDir(d, dir, b);
      AllListedFrom(d, dir, b + 1);
    }
  }

  /** `list` is what reading the directory entry by entry gives; an exactly full last block hides its
      last entry. */
  ghost predicate Lists(d: Dir, dir: seq<seq<Entry>>, list: seq<Listed>, full: bool) {
    && Stored(d, dir) && AllListed(d, dir, list, full, 0)
    && |Flatten(dir)| == if full then |list| + 1 else |list|
  }

  lemma ListsDir(d: Dir, dir: seq<seq<Entry>>)
    requires WellFormed(d, dir)
    ensures Lists(d, dir, Listing(Readable(d, dir)), LastFull(d))
  {
    AllListedFrom(d, dir, 0);
    StartStepIf(dir, |dir| - 1);
  }

  /** Block `i` as one turn of the walk's outer loop. */
  method WalkNext(d: Dir, i: nat, decide: Handler, skipped0: nat, cur0: nat, calls0: seq<Visit>,
                  ghost wf: bool, ghost dir: seq<seq<Entry>>, ghost list: seq<Listed>, ghost full: bool,
                  ghost k: nat, ghost p: nat)
    returns (skipped: nat, cur: nat, calls: seq<Visit>, done: Option<Result<()>>)
    requires wf ==> Stored(d, dir) && i < |dir| && AllListed(d, dir, list, full, i) && p == Start(dir, i)
    requires wf ==> WalkedTo(list, k, decide, p, skipped0, cur0, calls0)
    ensures wf ==>
              if done.None?
              then && AllListed(d, dir, list, full, i + 1)
                   && WalkedTo(list, k, decide, Start(dir, i + 1), skipped, cur, calls)
              else WalkEnded(list, k, decide, full, calls, done.value)
  {
    var counted := EntriesIn(d, i, dir);
    if counted.Err? { return skipped0, cur0, calls0, Some(Err(counted.error)); }
    StartStepIf(dir, i);
    skipped, cur, calls, done := WalkBlock(d, i, counted.value, decide, skipped0, cur0, calls0, list, full, k, p);
  }

  /** The walk's loop over the blocks. */
  method WalkBlocks(d: Dir, k: nat, decide: Handler, ghost wf: bool, ghost dir: seq<seq<Entry>>,
                    ghost list: seq<Listed>, ghost full: bool)
    returns (calls: seq<Visit>, r: Result<()>)
    requires wf ==> Lists(d, dir, list, full)
    ensures wf ==> WalkEnded(list, k, decide, full, calls, r)
  {
    calls := [];
    var cur: nat, skipped: nat := k, k;
    var i := 0;
    ghost var p: nat := 0;
    while i < d.BlocksCount()
      invariant 0 <= i <= d.BlocksCount()
      invariant wf ==> AllListed(d, dir, list, full, i) && p == Start(dir, i)
      invariant wf ==> WalkedTo(list, k, decide, p, skipped, cur, calls)
    {
      var done;
      skipped, cur, calls, done := WalkNext(d, i, decide, skipped, cur, calls, wf, dir, list, full, k, p);
      if done.Some? { return calls, done.value; }
      i := i + 1;
      p := if i <= |dir| then Start(dir, i) else 0;
    }
    if wf { WalkFinishes(d, dir, list, full, k, decide, p, skipped, cur, calls); }
    r := Ok(());
  }

  /** Behind the last block nothing is left to walk. */
  lemma WalkFinishes(d: Dir, dir: seq<seq<Entry>>, list: seq<Listed>, full: bool, k: nat, decide: Handler, p: nat,
                     skipped: nat, cur: nat, calls: seq<Visit>)
    requires Lists(d, dir, list, full) && p == Start(dir, d.BlocksCount())
    requires WalkedTo(list, k, decide, p, skipped, cur, calls)
    ensures WalkEnded(list, k, decide, full, calls, Ok(()))
  {
    StartStepIf(dir, |dir| - 1);
  }

  /** `walk_children_inodes`: from offset `k` the handler receives the readable entries from the
      `k`-th on, in order and tagged with their index plus one; the walk ends when the handler stops
      it, or after the last entry, which an exactly full last block turns into an abort. */
  method WalkChildren(d: Dir, k: nat, decide: Handler, ghost dir: seq<seq<Entry>>)
    returns (calls: seq<Visit>, r: Result<()>)
    ensures d.inode.size == 0 ==> calls == [] && r == Err(ENOENT)
    ensures WellFormed(d, dir) ==>
              WalkEnded(Listing(Readable(d, dir)), k, decide, LastFull(d), calls, r)
  {
    if d.inode.size == 0 { return [], Err(ENOENT); }
    if WellFormed(d, dir) { ListsDir(d, dir); }
    calls, r := WalkBlocks(d, k, decide, WellFormed(d, dir), dir, Listing(Readable(d, dir)), LastFull(d));
  }

  // ----- Access by index ------------------------------------------------------------------

  predicate IsDot(name: Name) {
    name == DOT || name == DOTDOT
  }

  function NonDots(list: seq<Listed>): seq<Listed> {
    if list == [] then []
    else if IsDot(list[0].name) then NonDots(list[1..])
    else [list[0]] + NonDots(list[1..])
  }

  function Occurrences(list: seq<Listed>, name: Name): nat {
    if list == [] then 0
    else (if list[0].name == name then 1 else 0) + Occurrences(list[1..], name)
  }

  lemma {:induction false} NonDotsCount(list: seq<Listed>)
    ensures |NonDots(list)| + Occurrences(list, DOT) + Occurrences(list, DOTDOT) == |list|
  {
    if list != [] { NonDotsCount(list[1..]); }
  }

  /** Number of non-dot entries among the first `p`. */
  function Children(list: seq<Listed>, p: nat): nat
    requires p <= |list|
  {
    if p == 0 then 0 else (if IsDot(list[0].name) then 0 else 1) + Children(list[1..], p - 1)
  }

  lemma {:induction false} ChildrenStep(list: seq<Listed>, p: nat)
    requires p < |list|
    ensures Children(list, p + 1) == Children(list, p) + (if IsDot(list[p].name) then 0 else 1) <= |NonDots(list)|
    ensures !IsDot(list[p].name) ==> NonDots(list)[Children(list, p)] == list[p]
  {
    if p > 0 { ChildrenStep(list[1..], p - 1); }
  }

  lemma {:induction false} AllChildren(list: seq<Listed>)
    ensures Children(list, |list|) == |NonDots(list)|
  {
    if list != [] { AllChildren(list[1..]); }
  }

  /** What access by index finds in a listing. */
  function ByIndex(list: seq<Listed>, idx: nat, full: bool): Result<nat> {
    var children := NonDots(list);
    if idx < |children| then Ok(children[idx].ino) else Err(if full then Overflow else ENOENT)
  }

  ghost predicate CountedTo(list: seq<Listed>, p: nat, idx: nat, curIdx: nat) {
    p <= |list| && curIdx == Children(list, p) <= idx
  }

  /** The body of the inner loop of `get_child_by_index` once the entry is read. */
  method IndexEntry(d: Dir, read: Result<(nat, Name)>, idx: nat, curIdx0: nat,
                    ghost list: seq<Listed>, ghost full: bool, ghost p: nat)
    returns (curIdx: nat, done: Option<Result<nat>>)
    ensures ReadsListed(d, list, full, p, read) && CountedTo(list, p, idx, curIdx0) ==>
              if done.None? then CountedTo(list, p + 1, idx, curIdx)
              else done.value == ByIndex(list, idx, full)
  {
    curIdx, done := curIdx0, None;
    AllChildren(list);
    if p < |list| { ChildrenStep(list, p); }
    if read.Err? { return curIdx, Some(Err(read.error)); }
    var (nid, name) := read.value;
    if !IsDot(name) {
      if curIdx == idx { return curIdx, Some(InodeWrapper(d, nid)); }
      curIdx := curIdx + 1;
    }
  }

  /** The loop of `get_child_by_index` over one block. */
  method IndexBlock(d: Dir, b: nat, count: nat, idx: nat, curIdx0: nat,
                    ghost list: seq<Listed>, ghost full: bool, ghost start: nat)
    returns (curIdx: nat, done: Option<Result<nat>>)
    ensures BlockLists(d, b, count, list, full, start) && CountedTo(list, start, idx, curIdx0) ==>
              if done.None? then CountedTo(list, start + count, idx, curIdx)
              else done.value == ByIndex(list, idx, full)
  {
    ghost var wf := BlockLists(d, b, count, list, full, start) && CountedTo(list, start, idx, curIdx0);
    curIdx, done := curIdx0, None;
    var j := 0;
    while j < count
      invariant 0 <= j <= count && done.None?
      invariant wf ==> CountedTo(list, start + j, idx, curIdx)
    {
      curIdx, done := IndexEntry(d, EntryAt(d, b, j, count), idx, curIdx, list, full, start + j);
      if done.Some? { return; }
      j := j + 1;
    }
  }

  method IndexNext(d: Dir, i: nat, idx: nat, curIdx0: nat,
                   ghost wf: bool, ghost dir: seq<seq<Entry>>, ghost list: seq<Listed>, ghost full: bool, ghost p: nat)
    returns (curIdx: nat, done: Option<Result<nat>>)
    requires wf ==> Stored(d, dir) && i < |dir| && AllListed(d, dir, list, full, i) && p == Start(dir, i)
    requires wf ==> CountedTo(list, p, idx, curIdx0)
    ensures wf ==>
              if done.None? then AllListed(d, dir, list, full, i + 1) && CountedTo(list, Start(dir, i + 1), idx, curIdx)
              else done.value == ByIndex(list, idx, full)
  {
    var counted := EntriesIn(d, i, dir);
    if counted.Err? { return curIdx0, Some(Err(counted.error)); }
    StartStepIf(dir, i);
    curIdx, done := IndexBlock(d, i, counted.value, idx, curIdx0, list, full, p);
  }

  /** The loop of `get_child_by_index` over the blocks. */
  method IndexBlocks(d: Dir, idx: nat, ghost wf: bool, ghost dir: seq<seq<Entry>>, ghost list: seq<Listed>,
                     ghost full: bool)
    returns (r: Result<nat>)
    requires wf ==> Lists(d, dir, list, full)
    ensures wf ==> r == ByIndex(list, idx, full)
  {
    var curIdx: nat := 0;
    var i := 0;
    ghost var p: nat := 0;
    while i < d.BlocksCount()
      invariant 0 <= i <= d.BlocksCount()
      invariant wf ==> AllListed(d, dir, list, full, i) && p == Start(dir, i)
      invariant wf ==> CountedTo(list, p, idx, curIdx)
    {
      var done;
      curIdx, done := IndexNext(d, i, idx, curIdx, wf, dir, list, full, p);
      if done.Some? { return done.value; }
      i := i + 1;
      p := if i <= |dir| then Start(dir, i) else 0;
    }
    if wf { IndexEnds(d, dir, list, full, idx, p, curIdx); }
    r := Err(ENOENT);
  }

  /** Behind the last block no child is left. */
  lemma IndexEnds(d: Dir, dir: seq<seq<Entry>>, list: seq<Listed>, full: bool, idx: nat, p: nat, curIdx: nat)
    requires Lists(d, dir, list, full) && p == Start(dir, d.BlocksCount()) && CountedTo(list, p, idx, curIdx)
    ensures ByIndex(list, idx, full) == Err(ENOENT)
  {
    StartStepIf(dir, |dir| - 1);
    AllChildren(list);
  }

  /** `get_child_by_index`: the `idx`-th child in listing order, dot entries left out. */
  method GetChildByIndex(d: Dir, isDir: bool, idx: nat, ghost dir: seq<seq<Entry>>) returns (r: Result<nat>)
    ensures !isDir ==> r == Err(EINVAL)
    ensures isDir && WellFormed(d, dir) ==> r == ByIndex(Listing(Readable(d, dir)), idx, LastFull(d))
  {
    if !isDir { return Err(EINVAL); }
    if WellFormed(d, dir) { ListsDir(d, dir); }
    r := IndexBlocks(d, idx, WellFormed(d, dir), dir, Listing(Readable(d, dir)), LastFull(d));
  }

  /** `get_child_count` of a directory: all entries less the two dots. */
  method GetChildCount(d: Dir, ghost dir: seq<seq<Entry>>) returns (r: Result<nat>)
    ensures WellFormed(d, dir) ==>
              r == if |Flatten(dir)| < 2 then Err(Overflow) else Ok(|Flatten(dir)| - 2)
  {
    ghost var wf := WellFormed(d, dir);
    var counted := CountEntries(d, wf, dir);
    if counted.Err? { return Err(InvalidImage); }
    if counted.value < 2 { return Err(Overflow); }
    r := Ok(counted.value - 2);
  }

  /** The loop of `get_child_count`. */
  method CountEntries(d: Dir, ghost wf: bool, ghost dir: seq<seq<Entry>>) returns (r: Result<nat>)
    requires wf ==> Stored(d, dir)
    ensures wf ==> r == Ok(|Flatten(dir)|)
  {
    var count, i := 0, 0;
    while i < d.BlocksCount()
      invariant 0 <= i <= d.BlocksCount() && 0 <= count
      invariant wf ==> |dir| == d.BlocksCount() && dir != [] && count == Start(dir, i)
    {
      var counted := EntriesIn(d, i, dir);
      if counted.Err? { return Err(InvalidImage); }
      StartStepIf(dir, i);
      count := count + counted.value;
      i := i + 1;
    }
    StartStepIf(dir, |dir| - 1);
    r := Ok(count);
  }

  /** With one "." and one ".." the indices below `get_child_count` enumerate exactly the listing
      without its dot entries, and no other index is valid. */
  lemma IndicesEnumerateListing(d: Dir, dir: seq<seq<Entry>>, idx: nat)
    requires WellFormed(d, dir) && !LastFull(d)
    requires Occurrences(Listing(Flatten(dir)), DOT) == 1 && Occurrences(Listing(Flatten(dir)), DOTDOT) == 1
    ensures var list := Listing(Flatten(dir));
            && |NonDots(list)| == |Flatten(dir)| - 2
            && (ByIndex(list, idx, false).Ok? <==> idx < |Flatten(dir)| - 2)
            && (idx < |Flatten(dir)| - 2 ==> ByIndex(list, idx, false) == Ok(NonDots(list)[idx].ino))
            && Readable(d, dir) == Flatten(dir)
  {
    NonDotsCount(Listing(Flatten(dir)));
  }
}
