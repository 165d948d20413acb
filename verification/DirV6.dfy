/** Directory lookup of RAFS v6 (rafs/src/metadata/direct_v6.rs): a binary search over the blocks of
    a directory followed by a binary search inside one block, compared with a linear scan. */
module DirV6 {
  import opened Common
  import opened Names
  import opened DirentV6

  // ----- What a lookup should find --------------------------------------------------------

  function Flatten(dir: seq<seq<Entry>>): seq<Entry> {
    if dir == [] then [] else dir[0] + Flatten(dir[1..])
  }

  /** A linear scan for the first entry with the given name. */
  function Scan(es: seq<Entry>, name: Name): Result<nat> {
    if es == [] then Err(ENOENT)
    else if es[0].name == name then Ok(es[0].nid)
    else Scan(es[1..], name)
  }

  ghost predicate Earlier(b1: int, i1: int, b2: int, i2: int) {
    b1 < b2 || (b1 == b2 && i1 < i2)
  }

  ghost predicate IsPlace(dir: seq<seq<Entry>>, b: int, i: int) {
    0 <= b < |dir| && 0 <= i < |dir[b]|
  }

  /** Names strictly ascend through the whole directory. */
  ghost predicate Sorted(dir: seq<seq<Entry>>) {
    forall b1, i1, b2, i2 |
      IsPlace(dir, b1, i1) && IsPlace(dir, b2, i2) && Earlier(b1, i1, b2, i2) ::
      Less(dir[b1][i1].name, dir[b2][i2].name)
  }

  /** `inode_wrapper`: the inode of a child must lie inside the image.  Inode slots are 32 bytes
      from an aligned base, so the alignment test never fails. */
  function InodeWrapper(d: Dir, nid: nat): Result<nat> {
    var offset := d.metaOffset + nid * 32;
    if offset + 32 > |d.image| then Err(EINVAL)
    else if d.image[offset] % 2 != 0 && offset + 64 > |d.image| then Err(EINVAL)
    else Ok(nid)
  }

  /** The inode of the entry that was found, which must lie in the image. */
  function Opened(d: Dir, found: Result<nat>): Result<nat> {
    match found case Ok(nid) => InodeWrapper(d, nid) case Err(e) => Err(e)
  }

  ghost predicate ChildrenReadable(d: Dir, dir: seq<seq<Entry>>) {
    forall b, i | IsPlace(dir, b, i) :: InodeWrapper(d, dir[b][i].nid).Ok?
  }

  /** A stored directory with strictly ascending names whose children can be opened. */
  ghost predicate WellFormed(d: Dir, dir: seq<seq<Entry>>) {
    Stored(d, dir) && NonEmpty(dir) && Sorted(dir) && ChildrenReadable(d, dir)
  }

  predicate NonEmpty(dir: seq<seq<Entry>>) {
    dir != [] && forall b | 0 <= b < |dir| :: dir[b] != []
  }

  function Head(dir: seq<seq<Entry>>, b: nat): Name
    requires NonEmpty(dir) && b < |dir|
  {
    dir[b][0].name
  }

  function Tail(dir: seq<seq<Entry>>, b: nat): Name
    requires NonEmpty(dir) && b < |dir|
  {
    dir[b][|dir[b]| - 1].name
  }

  /** The last block of the directory is exactly full. */
  predicate LastFull(d: Dir) {
    d.inode.size % BLOCK == 0
  }

  /** The search has to look at the last block. */
  predicate NeedsLastBlock(dir: seq<seq<Entry>>, name: Name)
    requires NonEmpty(dir)
  {
    |dir| == 1 || Less(Tail(dir, |dir| - 2), name)
  }

  /** Exactly the lookups on which an unsigned subtraction of the search goes below zero: the name
      sorts before the first entry, or a last block that is exactly full has to be read. */
  predicate Underflows(full: bool, dir: seq<seq<Entry>>, name: Name)
    requires NonEmpty(dir)
  {
    Less(name, Head(dir, 0)) || (full && NeedsLastBlock(dir, name))
  }

  lemma {:induction false} StoredNonEmpty(d: Dir, dir: seq<seq<Entry>>)
    requires Stored(d, dir)
    ensures NonEmpty(dir)
  {
    forall b | 0 <= b < |dir| ensures dir[b] != [] { BlockStored(d, dir, 0, b); }
  }

  // ----- Scanning -------------------------------------------------------------------------

  lemma {:induction false} ScanConcat(a: seq<Entry>, b: seq<Entry>, name: Name)
    ensures Scan(a + b, name) == if Scan(a, name).Ok? then Scan(a, name) else Scan(b, name)
  {
    if a == [] {
      assert a + b == b;
    } else {
      assert (a + b)[1..] == a[1..] + b;
      ScanConcat(a[1..], b, name);
    }
  }

  lemma {:induction false} ScanFinds(es: seq<Entry>, i: nat)
    requires i < |es| && forall j | 0 <= j < i :: es[j].name != es[i].name
    ensures Scan(es, es[i].name) == Ok(es[i].nid)
  {
    if i > 0 { ScanFinds(es[1..], i - 1); }
  }

  lemma {:induction false} ScanMisses(es: seq<Entry>, name: Name)
    requires forall i | 0 <= i < |es| :: es[i].name != name
    ensures Scan(es, name) == Err(ENOENT)
  {
    if es != [] { ScanMisses(es[1..], name); }
  }

  lemma {:induction false} DirScanFinds(dir: seq<seq<Entry>>, b: nat, i: nat)
    requires Sorted(dir) && IsPlace(dir, b, i)
    ensures Scan(Flatten(dir), dir[b][i].name) == Ok(dir[b][i].nid)
  {
    var name := dir[b][i].name;
    ScanConcat(dir[0], Flatten(dir[1..]), name);
    if b == 0 {
      forall j | 0 <= j < i ensures dir[0][j].name != name {
        assert IsPlace(dir, 0, j) && Earlier(0, j, 0, i);
        Asymmetric(dir[0][j].name, name);
      }
      ScanFinds(dir[0], i);
    } else {
      forall j | 0 <= j < |dir[0]| ensures dir[0][j].name != name {
        assert IsPlace(dir, 0, j) && Earlier(0, j, b, i);
        Asymmetric(dir[0][j].name, name);
      }
      ScanMisses(dir[0], name);
      SortedRest(dir);
      DirScanFinds(dir[1..], b - 1, i);
    }
  }

  lemma SortedRest(dir: seq<seq<Entry>>)
    requires Sorted(dir) && dir != []
    ensures Sorted(dir[1..])
  {
    var rest := dir[1..];
    forall b1, i1, b2, i2 |
      IsPlace(rest, b1, i1) && IsPlace(rest, b2, i2) && Earlier(b1, i1, b2, i2)
      ensures Less(rest[b1][i1].name, rest[b2][i2].name)
    {
      assert IsPlace(dir, b1 + 1, i1) && IsPlace(dir, b2 + 1, i2) && Earlier(b1 + 1, i1, b2 + 1, i2);
    }
  }

  lemma {:induction false} DirScanMisses(dir: seq<seq<Entry>>, name: Name)
    requires forall b, i | IsPlace(dir, b, i) :: dir[b][i].name != name
    ensures Scan(Flatten(dir), name) == Err(ENOENT)
  {
    if dir != [] {
      forall i | 0 <= i < |dir[0]| ensures dir[0][i].name != name { assert IsPlace(dir, 0, i); }
      ScanMisses(dir[0], name);
      ScanConcat(dir[0], Flatten(dir[1..]), name);
      forall b, i | IsPlace(dir[1..], b, i) ensures dir[1..][b][i].name != name {
        assert IsPlace(dir, b + 1, i);
      }
      DirScanMisses(dir[1..], name);
    }
  }

  // ----- Order between blocks -------------------------------------------------------------

  lemma TailBeforeHead(dir: seq<seq<Entry>>, a: nat, b: nat)
    requires Sorted(dir) && NonEmpty(dir) && a < b < |dir|
    ensures Less(Tail(dir, a), Head(dir, b))
  {
    assert IsPlace(dir, a, |dir[a]| - 1) && IsPlace(dir, b, 0) && Earlier(a, |dir[a]| - 1, b, 0);
  }

  lemma HeadUpToTail(dir: seq<seq<Entry>>, b: nat)
    requires Sorted(dir) && NonEmpty(dir) && b < |dir|
    ensures AtMost(Head(dir, b), Tail(dir, b))
  {
    assert IsPlace(dir, b, 0) && IsPlace(dir, b, |dir[b]| - 1);
    assert |dir[b]| > 1 ==> Earlier(b, 0, b, |dir[b]| - 1);
  }

  lemma Chain(a: Name, b: Name, c: Name)
    requires AtMost(a, b) && AtMost(b, c)
    ensures AtMost(a, c) && (Less(a, b) || Less(b, c) ==> Less(a, c))
  {
    if Less(a, b) && Less(b, c) { Transitive(a, b, c); }
  }

  lemma NotBelow(a: Name, b: Name)
    requires AtMost(a, b)
    ensures !Less(b, a)
  {
    if a == b { Irreflexive(a); } else { Asymmetric(a, b); }
  }

  /** Heads and tails ascend. */
  lemma Ascend(dir: seq<seq<Entry>>, a: nat, b: nat)
    requires Sorted(dir) && NonEmpty(dir) && a <= b < |dir|
    ensures AtMost(Head(dir, a), Head(dir, b)) && AtMost(Tail(dir, a), Tail(dir, b))
  {
    if a < b {
      TailBeforeHead(dir, a, b);
      HeadUpToTail(dir, a);
      HeadUpToTail(dir, b);
      Chain(Tail(dir, a), Head(dir, b), Tail(dir, b));
      Chain(Head(dir, a), Tail(dir, a), Head(dir, b));
    }
  }

  // ----- The search over blocks -----------------------------------------------------------

  /** What the name reads at a pivot block return; `full` says whether the last block is. */
  ghost predicate BlockReads(d: Dir, dir: seq<seq<Entry>>, full: bool, b: nat)
    requires NonEmpty(dir) && b < |dir|
  {
    var n := |dir[b]|;
    && GetEntry(d, b, 0).Ok? && GetEntry(d, b, 0).value.nameOff / DIRENT == n
    && EntryName(d, b, n - 1, n) == (if full && b + 1 == |dir| then Err(Overflow) else Ok(Tail(dir, b)))
    && EntryName(d, b, 0, n) == (if full && b + 1 == |dir| && n == 1 then Err(Overflow) else Ok(Head(dir, b)))
  }

  lemma PivotReads(d: Dir, dir: seq<seq<Entry>>, b: nat)
    requires Stored(d, dir) && NonEmpty(dir) && b < |dir|
    ensures BlockReads(d, dir, LastFull(d), b)
  {
    BlockStored(d, dir, 0, b);
    HeadCountsEntries(d, b, dir[b]);
    EntryNameReads(d, dir, b, 0);
    EntryNameReads(d, dir, b, |dir[b]| - 1);
  }

  /** Read errors become invalid-data errors; an arithmetic abort stays one. */
  function AsInvalid(e: Error): Error {
    if e == Overflow then Overflow else InvalidImage
  }

  /** Blocks before `first` end below the name and blocks after `last` start above it. */
  ghost predicate Narrowed(full: bool, dir: seq<seq<Entry>>, name: Name, first: nat, last: nat)
    requires NonEmpty(dir)
  {
    && first <= last + 1 && last < |dir|
    && (first > 0 ==> Less(Tail(dir, first - 1), name))
    && (last + 1 < |dir| ==> Less(name, Head(dir, last + 1)))
    && (full ==> first < |dir| && (last + 1 == |dir| || last + 2 < |dir|))
  }

  /** No block spans the name. */
  ghost predicate InGap(dir: seq<seq<Entry>>, name: Name)
    requires NonEmpty(dir)
  {
    forall b | 0 <= b < |dir| :: Less(Tail(dir, b), name) || Less(name, Head(dir, b))
  }

  /** The block a successful search names. */
  ghost predicate RightBlock(full: bool, dir: seq<seq<Entry>>, name: Name, t: nat)
    requires NonEmpty(dir)
  {
    && t < |dir| && !(full && t + 1 == |dir|)
    && !Less(name, Head(dir, t))
    && (AtMost(name, Tail(dir, t)) || InGap(dir, name))
  }

  lemma InsideIsReachable(full: bool, dir: seq<seq<Entry>>, name: Name, t: nat)
    requires NonEmpty(dir) && Sorted(dir) && t < |dir| && !(full && t + 1 == |dir|)
    requires AtMost(Head(dir, t), name) && AtMost(name, Tail(dir, t))
    ensures !Underflows(full, dir, name) && RightBlock(full, dir, name, t)
  {
    Ascend(dir, 0, t);
    Chain(Head(dir, 0), Head(dir, t), name);
    NotBelow(Head(dir, 0), name);
    NotBelow(Head(dir, t), name);
    if full {
      Ascend(dir, t, |dir| - 2);
      Chain(name, Tail(dir, t), Tail(dir, |dir| - 2));
      NotBelow(name, Tail(dir, |dir| - 2));
    }
  }

  /** When the search runs out of blocks, the name is in a gap or past the end. */
  lemma GapIsReachable(full: bool, dir: seq<seq<Entry>>, name: Name, first: nat, last: nat)
    requires NonEmpty(dir) && Sorted(dir) && Narrowed(full, dir, name, first, last) && first == last + 1
    ensures !Underflows(full, dir, name) && RightBlock(full, dir, name, 0)
  {
    Ascend(dir, 0, last);
    HeadUpToTail(dir, 0);
    Chain(Head(dir, 0), Tail(dir, 0), Tail(dir, last));
    Chain(Head(dir, 0), Tail(dir, last), name);
    NotBelow(Head(dir, 0), name);
    forall b | 0 <= b < |dir| ensures Less(Tail(dir, b), name) || Less(name, Head(dir, b)) {
      if b <= last {
        Ascend(dir, b, last);
        Chain(Tail(dir, b), Tail(dir, last), name);
      } else {
        Ascend(dir, last + 1, b);
        Chain(name, Head(dir, last + 1), Head(dir, b));
      }
    }
    if full {
      var m := |dir| - 2;
      Ascend(dir, last + 1, m);
      HeadUpToTail(dir, m);
      Chain(name, Head(dir, last + 1), Head(dir, m));
      Chain(name, Head(dir, m), Tail(dir, m));
      NotBelow(name, Tail(dir, m));
    }
  }

  /** A layout that directories do not have. */
  predicate UnknownLayout(d: Dir) {
    d.inode.format >= 16 || (d.inode.format / 2 != 0 && d.inode.format / 2 != 2)
  }

  /** The first and last name of a block, as `find_target_block` reads them. */
  method BlockEnds(d: Dir, b: nat, ghost dir: seq<seq<Entry>>) returns (r: Result<(Name, Name)>)
    ensures UnknownLayout(d) ==> r == Err(InvalidImage)
    ensures Stored(d, dir) && NonEmpty(dir) && b < |dir| ==>
              r == if LastFull(d) && b + 1 == |dir| then Err(Overflow) else Ok((Head(dir, b), Tail(dir, b)))
  {
    if Stored(d, dir) && NonEmpty(dir) && b < |dir| { PivotReads(d, dir, b); }
    var head := GetEntry(d, b, 0);
    if head.Err? { return Err(InvalidImage); }
    var count := head.value.nameOff / DIRENT;
    var hName := EntryName(d, b, 0, count);
    if hName.Err? { return Err(AsInvalid(hName.error)); }
    var tName := EntryName(d, b, count - 1, count);
    if tName.Err? { return Err(AsInvalid(tName.error)); }
    r := Ok((hName.value, tName.value));
  }

  /** What one probe of the block search establishes. */
  lemma ProbeNarrows(full: bool, dir: seq<seq<Entry>>, name: Name, first: nat, last: nat, pivot: nat)
    requires NonEmpty(dir) && Narrowed(full, dir, name, first, last)
    requires first <= last && pivot == first + (last - first) / 2
    ensures full && pivot + 1 == |dir| ==> NeedsLastBlock(dir, name)
    ensures !(full && pivot + 1 == |dir|) && Less(name, Head(dir, pivot)) && pivot > 0 ==>
              Narrowed(full, dir, name, first, pivot - 1)
    ensures !(full && pivot + 1 == |dir|) && Less(Tail(dir, pivot), name) ==>
              Narrowed(full, dir, name, pivot + 1, last)
  {
  }

  lemma PastBlock(name: Name, h: Name, t: Name)
    requires !(AtMost(h, name) && AtMost(name, t)) && !Less(name, h)
    ensures Less(t, name)
  {
    Trichotomy(name, h);
    Trichotomy(name, t);
  }

  /** How a name compares with a block. */
  datatype Turn = Hit | Below | Above

  /** One probe of the block search: it ends, or narrows the range to one side of `pivot`. */
  method Probe(d: Dir, pivot: nat, name: Name, ghost wf: bool, ghost dir: seq<seq<Entry>>, ghost first: nat,
               ghost last: nat)
    returns (r: Result<Turn>)
    requires wf ==>
               Stored(d, dir) && NonEmpty(dir) && Sorted(dir) && Narrowed(LastFull(d), dir, name, first, last)
    requires first <= last && pivot == first + (last - first) / 2
    ensures UnknownLayout(d) ==> r == Err(InvalidImage)
    ensures wf ==>
              match r
              case Err(e) => e == Overflow && Underflows(LastFull(d), dir, name)
              case Ok(Hit) => !Underflows(LastFull(d), dir, name) && RightBlock(LastFull(d), dir, name, pivot)
              case Ok(Below) => if pivot == 0 then Underflows(LastFull(d), dir, name)
                                else Narrowed(LastFull(d), dir, name, first, pivot - 1)
              case Ok(Above) => Narrowed(LastFull(d), dir, name, pivot + 1, last)
  {
    if wf { ProbeNarrows(LastFull(d), dir, name, first, last, pivot); }
    var ends := BlockEnds(d, pivot, dir);
    match ends {
      case Err(e) => return Err(e);
      case Ok((hName, tName)) =>
        if AtMost(hName, name) && AtMost(name, tName) {
          if wf { InsideIsReachable(LastFull(d), dir, name, pivot); }
          return Ok(Hit);
        }
        if Less(name, hName) { return Ok(Below); }
        PastBlock(name, hName, tName);
        r := Ok(Above);
    }
  }

  /** How the search for the block ends. */
  ghost predicate Found(d: Dir, dir: seq<seq<Entry>>, name: Name, r: Result<nat>)
    requires NonEmpty(dir)
  {
    if Underflows(LastFull(d), dir, name) then r == Err(Overflow)
    else r.Ok? && RightBlock(LastFull(d), dir, name, r.value)
  }

  /** One turn of the search: it ends, or goes on in a smaller range. */
  method FindNext(d: Dir, name: Name, first: nat, last: nat, ghost wf: bool, ghost dir: seq<seq<Entry>>)
    returns (end: Option<Result<nat>>, first': nat, last': nat)
    requires first <= last
    requires wf ==>
               Stored(d, dir) && NonEmpty(dir) && Sorted(dir) && Narrowed(LastFull(d), dir, name, first, last)
    ensures end.Some? && wf ==> Found(d, dir, name, end.value)
    ensures end.None? ==> && first' <= last' + 1 && last' + 1 - first' < last + 1 - first
                          && (wf ==> Narrowed(LastFull(d), dir, name, first', last'))
    ensures UnknownLayout(d) ==> end == Some(Err(InvalidImage))
  {
    end, first', last' := None, first, last;
    var pivot := first + (last - first) / 2;
    var turn := Probe(d, pivot, name, wf, dir, first, last);
    match turn {
      case Err(e) => end := Some(Err(e));
      case Ok(Hit) => end := Some(Ok(pivot));
      case Ok(Below) => if pivot == 0 { end := Some(Err(Overflow)); } else { last' := pivot - 1; }
      case Ok(Above) => first' := pivot + 1;
    }
  }

  /** `find_target_block`. */
  method FindTargetBlock(d: Dir, name: Name, ghost dir: seq<seq<Entry>>) returns (r: Result<nat>)
    ensures d.inode.size == 0 ==> r == Err(ENOENT)
    ensures UnknownLayout(d) ==> r.Err? && r.error != Overflow
    ensures Stored(d, dir) && NonEmpty(dir) && Sorted(dir) ==> Found(d, dir, name, r)
  {
    if d.inode.size == 0 { return Err(ENOENT); }
    ghost var wf := Stored(d, dir) && NonEmpty(dir) && Sorted(dir);
    var first: nat, last: nat := 0, d.BlocksCount() - 1;
    while first <= last
      invariant first <= last + 1 && (UnknownLayout(d) ==> first <= last)
      invariant wf ==> Narrowed(LastFull(d), dir, name, first, last)
      decreases last + 1 - first
    {
      var end;
      end, first, last := FindNext(d, name, first, last, wf, dir);
      if end.Some? { return end.value; }
    }
    if wf { GapIsReachable(LastFull(d), dir, name, first, last); }
    r := Ok(0);
  }

  lemma {:induction false} ScanIsEntry(es: seq<Entry>, name: Name)
    requires Scan(es, name).Ok?
    ensures exists k | 0 <= k < |es| :: es[k].nid == Scan(es, name).value
  {
    if es[0].name == name {
      assert es[0].nid == Scan(es, name).value;
    } else {
      ScanIsEntry(es[1..], name);
      var k :| 0 <= k < |es| - 1 && es[1..][k].nid == Scan(es, name).value;
      assert es[k + 1].nid == Scan(es, name).value;
    }
  }

  lemma {:induction false} FlatIsPlace(dir: seq<seq<Entry>>, k: nat) returns (b: nat, i: nat)
    requires k < |Flatten(dir)|
    ensures IsPlace(dir, b, i) && dir[b][i] == Flatten(dir)[k]
  {
    if k < |dir[0]| {
      b, i := 0, k;
    } else {
      b, i := FlatIsPlace(dir[1..], k - |dir[0]|);
      b := b + 1;
    }
  }

  /** In a well-formed directory the inode of every entry lies in the image. */
  lemma ScannedIsOpened(d: Dir, dir: seq<seq<Entry>>, name: Name)
    requires ChildrenReadable(d, dir)
    ensures Opened(d, Scan(Flatten(dir), name)) == Scan(Flatten(dir), name)
  {
    var found := Scan(Flatten(dir), name);
    if found.Ok? {
      ScanIsEntry(Flatten(dir), name);
      var k :| 0 <= k < |Flatten(dir)| && Flatten(dir)[k].nid == found.value;
      var b, i := FlatIsPlace(dir, k);
      assert IsPlace(dir, b, i);
    }
  }

  // ----- The search inside a block --------------------------------------------------------

  lemma MatchIsScanned(dir: seq<seq<Entry>>, t: nat, i: nat, name: Name)
    requires Sorted(dir) && IsPlace(dir, t, i) && dir[t][i].name == name
    ensures Scan(Flatten(dir), name) == Ok(dir[t][i].nid)
  {
    DirScanFinds(dir, t, i);
  }

  ghost predicate NarrowedIn(es: seq<Entry>, name: Name, first: nat, last: nat) {
    && first <= last + 1 && last < |es|
    && (forall i | 0 <= i < first :: Less(es[i].name, name))
    && (forall i | last < i < |es| :: Less(name, es[i].name))
  }

  /** With no match in the right block, the name is nowhere in the directory. */
  lemma MissIsScanned(full: bool, dir: seq<seq<Entry>>, name: Name, t: nat)
    requires NonEmpty(dir) && Sorted(dir) && RightBlock(full, dir, name, t)
    requires forall i | 0 <= i < |dir[t]| :: dir[t][i].name != name
    ensures Scan(Flatten(dir), name) == Err(ENOENT)
  {
    forall b, i | IsPlace(dir, b, i) ensures dir[b][i].name != name {
      if dir[b][i].name == name && b != t {
        assert IsPlace(dir, b, 0) && IsPlace(dir, b, |dir[b]| - 1);
        assert IsPlace(dir, t, 0) && IsPlace(dir, t, |dir[t]| - 1);
        assert i == 0 || Earlier(b, 0, b, i);
        assert i == |dir[b]| - 1 || Earlier(b, i, b, |dir[b]| - 1);
        NotBelow(Head(dir, b), name);
        NotBelow(name, Tail(dir, b));
        assert !InGap(dir, name);
        if b < t {
          TailBeforeHead(dir, b, t);
          Chain(name, Tail(dir, b), Head(dir, t));
        } else {
          TailBeforeHead(dir, t, b);
          Chain(Tail(dir, t), Head(dir, b), name);
          NotBelow(name, Tail(dir, t));
        }
      }
    }
    DirScanMisses(dir, name);
  }

  /** One entry of a block and its name, as the loops over a block read them. */
  function EntryAt(d: Dir, b: nat, i: nat, count: nat): Result<(nat, Name)> {
    var de := GetEntry(d, b, i);
    if de.Err? then Err(InvalidImage) else
      var dName := EntryName(d, b, i, count);
      if dName.Err? then Err(AsInvalid(dName.error)) else Ok((de.value.nid, dName.value))
  }

  lemma EntryAtReads(d: Dir, dir: seq<seq<Entry>>, b: nat, i: nat)
    requires Stored(d, dir) && IsPlace(dir, b, i)
    ensures EntryAt(d, b, i, |dir[b]|) ==
            if Unreadable(d, dir, b, i) then Err(Overflow) else Ok((dir[b][i].nid, dir[b][i].name))
  {
    BlockStored(d, dir, 0, b);
    GetEntryReads(d, b, dir[b], i);
    EntryNameReads(d, dir, b, i);
  }

  method EntriesIn(d: Dir, b: nat, ghost dir: seq<seq<Entry>>) returns (r: Result<nat>)
    ensures Stored(d, dir) && b < |dir| ==> r == Ok(|dir[b]|)
  {
    if Stored(d, dir) && b < |dir| {
      BlockStored(d, dir, 0, b);
      HeadCountsEntries(d, b, dir[b]);
    }
    var head := GetEntry(d, b, 0);
    if head.Err? { return Err(InvalidImage); }
    r := Ok(head.value.nameOff / DIRENT);
  }

  /** The binary search of `get_child_by_name` inside the block it was sent to. */
  method SearchBlock(d: Dir, t: nat, name: Name, ghost dir: seq<seq<Entry>>) returns (r: Result<nat>)
    ensures Stored(d, dir) && NonEmpty(dir) && Sorted(dir) && RightBlock(LastFull(d), dir, name, t) ==>
              r == Opened(d, Scan(Flatten(dir), name))
  {
    ghost var wf := Stored(d, dir) && NonEmpty(dir) && Sorted(dir) && RightBlock(LastFull(d), dir, name, t);
    var counted := EntriesIn(d, t, dir);
    if counted.Err? { return Err(counted.error); }
    var count := counted.value;
    if count == 0 { return Err(Overflow); }
    var first: nat, last: nat := 0, count - 1;
    while first <= last
      invariant first <= last + 1 <= count
      invariant wf ==> count == |dir[t]| && NarrowedIn(dir[t], name, first, last)
      decreases last + 1 - first
    {
      var pivot := first + (last - first) / 2;
      if wf {
        assert IsPlace(dir, t, pivot) && IsPlace(dir, t, 0);
        EntryAtReads(d, dir, t, pivot);
      }
      var read := EntryAt(d, t, pivot, count);
      if read.Err? { return Err(read.error); }
      var (nid, dName) := read.value;
      if dName == name {
        if wf { MatchIsScanned(dir, t, pivot, name); }
        return InodeWrapper(d, nid);
      } else if Less(dName, name) {
        if wf { BelowPivot(dir, t, pivot, name); }
        first := pivot + 1;
      } else {
        Trichotomy(dName, name);
        if pivot == 0 { return Err(Overflow); }
        if wf { AbovePivot(dir, t, pivot, name); }
        last := pivot - 1;
      }
    }
    if wf {
      forall i | 0 <= i < |dir[t]| ensures dir[t][i].name != name {
        if i < first { Asymmetric(dir[t][i].name, name); } else { Asymmetric(name, dir[t][i].name); }
      }
      MissIsScanned(LastFull(d), dir, name, t);
    }
    r := Err(ENOENT);
  }

  lemma BelowPivot(dir: seq<seq<Entry>>, t: nat, pivot: nat, name: Name)
    requires Sorted(dir) && IsPlace(dir, t, pivot) && Less(dir[t][pivot].name, name)
    ensures forall i | 0 <= i <= pivot :: Less(dir[t][i].name, name)
  {
    forall i | 0 <= i < pivot ensures Less(dir[t][i].name, name) {
      assert IsPlace(dir, t, i) && Earlier(t, i, t, pivot);
      Transitive(dir[t][i].name, dir[t][pivot].name, name);
    }
  }

  lemma AbovePivot(dir: seq<seq<Entry>>, t: nat, pivot: nat, name: Name)
    requires Sorted(dir) && IsPlace(dir, t, pivot) && Less(name, dir[t][pivot].name)
    ensures forall i | pivot <= i < |dir[t]| :: Less(name, dir[t][i].name)
  {
    forall i | pivot < i < |dir[t]| ensures Less(name, dir[t][i].name) {
      assert IsPlace(dir, t, i) && Earlier(t, pivot, t, i);
      Transitive(name, dir[t][pivot].name, dir[t][i].name);
    }
  }

  /** `get_child_by_name`: for every well-formed directory and every name the two-level search
      aborts exactly when it underflows, and otherwise returns what a linear scan returns. */
  method GetChildByName(d: Dir, name: Name, ghost dir: seq<seq<Entry>>) returns (r: Result<nat>)
    ensures d.inode.size == 0 || UnknownLayout(d) ==> r == Err(ENOENT)
    ensures Stored(d, dir) && NonEmpty(dir) && Sorted(dir) ==>
              r == if Underflows(LastFull(d), dir, name) then Err(Overflow) else Opened(d, Scan(Flatten(dir), name))
    ensures WellFormed(d, dir) ==>
              r == if Underflows(LastFull(d), dir, name) then Err(Overflow) else Scan(Flatten(dir), name)
  {
    if WellFormed(d, dir) { ScannedIsOpened(d, dir, name); }
    var target := FindTargetBlock(d, name, dir);
    if target.Ok? {
      r := SearchBlock(d, target.value, name, dir);
    } else if target.error == Overflow {
      r := Err(Overflow);
    } else {
      r := Err(ENOENT);
    }
  }

  // ----- Inputs on which the search aborts --------------------------------------------------

  lemma {:induction false} NameBytesConcat(a: seq<Entry>, b: seq<Entry>)
    ensures NameBytes(a + b) == NameBytes(a) + NameBytes(b)
  {
    if a == [] {
      assert a + b == b;
    } else {
      assert (a + b)[1..] == a[1..] + b;
      NameBytesConcat(a[1..], b);
    }
  }

  ghost predicate AscendingNames(list: seq<Entry>) {
    forall i, j | 0 <= i < j < |list| :: Less(list[i].name, list[j].name)
  }

  /** An image that starts with one directory block, and the inode of that directory.  Node number 0
      is the only one used, so the inodes of all children lie at the start of the image. */
  function OneBlock(es: seq<Entry>, pad: seq<Byte>): Dir {
    Dir(EncodeBlock(es) + pad, 0, OnDiskInode(0, Used(es), 0, 0, 0))
  }

  lemma OneBlockStored(es: seq<Entry>, pad: seq<Byte>)
    requires es != [] && Used(es) <= BLOCK && (forall i | 0 <= i < |es| :: EntryOk(es[i]))
    ensures Stored(OneBlock(es, pad), [es])
  {
    var d := OneBlock(es, pad);
    OneBlockAt(es, pad);
    assert BlocksFrom(d, [es], 1);
  }

  lemma OneBlockAt(es: seq<Entry>, pad: seq<Byte>)
    requires es != [] && Used(es) <= BLOCK && (forall i | 0 <= i < |es| :: EntryOk(es[i]))
    ensures var d := OneBlock(es, pad); d.BlocksCount() == 1 && BlockAt(d, 0, es)
  {
    var d := OneBlock(es, pad);
    assert d.image[0..Used(es)] == EncodeBlock(es);
    assert DataBlockOffset(d, 0) == Ok(0);
  }

  lemma OneBlockWellFormed(es: seq<Entry>, pad: seq<Byte>)
    requires es != [] && Used(es) <= BLOCK && |EncodeBlock(es) + pad| >= 32
    requires forall i | 0 <= i < |es| :: EntryOk(es[i]) && es[i].nid == 0
    requires AscendingNames(es)
    ensures WellFormed(OneBlock(es, pad), [es])
  {
    OneBlockStored(es, pad);
    var d := OneBlock(es, pad);
    var head := EncodeDirent(es[0], DIRENT * |es|);
    assert ToLE(0, 8)[0] == 0;
    assert head[0] == ToLE(es[0].nid, 8)[0];
    assert d.image[0] == DirentTable(es, DIRENT * |es|)[0] == head[0];
    assert InodeWrapper(d, 0).Ok?;
  }

  const DOT_ENTRY := Entry(0, DOT, 2)
  const DOTDOT_ENTRY := Entry(0, DOTDOT, 2)

  lemma DotsAscend()
    ensures Less(DOT, DOTDOT) && EntryOk(DOT_ENTRY) && EntryOk(DOTDOT_ENTRY) && Len(DOT_ENTRY) == 13
    ensures Len(DOTDOT_ENTRY) == 14
  {
    assert Less(DOT[1..], DOTDOT[1..]);
    assert NulFree(DOT[1..]) && NulFree(DOTDOT[1..][1..]) && NulFree(DOTDOT[1..]);
    assert 0 < Limit(8) by { LimitPositive(8); }
  }

  lemma {:induction false} LimitPositive(n: nat)
    ensures Limit(n) > 0
  {
    if n > 0 { LimitPositive(n - 1); }
  }

  /** Bytes an entry takes in a block. */
  function Len(e: Entry): nat {
    |e.name| + DIRENT
  }

  lemma UsedSnoc(cur: seq<Entry>, e: Entry)
    ensures Used(cur + [e]) == Used(cur) + Len(e)
  {
    NameBytesConcat(cur, [e]);
    assert NameBytes([e]) == |e.name|;
  }

  /** Looking up "-" in a well-formed directory that holds only "." and ".." underflows, although
      the name is just absent. */
  lemma DashBelowDotUnderflows()
    ensures var dir := [[DOT_ENTRY, DOTDOT_ENTRY]];
            var d := OneBlock(dir[0], [0, 0, 0, 0, 0]);
            && WellFormed(d, dir) && !LastFull(d)
            && Underflows(LastFull(d), dir, [45]) && Scan(Flatten(dir), [45]) == Err(ENOENT)
  {
    var es := [DOT_ENTRY, DOTDOT_ENTRY];
    DotsAscend();
    DotsUsed();
    OneBlockWellFormed(es, [0, 0, 0, 0, 0]);
    DirScanMisses([es], [45]);
  }

  // ----- Rows of entries with repeated bytes --------------------------------------------------

  function Plain(len: nat, byte: Byte): Entry {
    Entry(0, seq(len, _ => byte), 1)
  }

  lemma {:induction false} NulFreeRow(len: nat, byte: Byte)
    requires byte != 0
    ensures NulFree(seq(len, _ => byte))
  {
    if len > 0 {
      NulFreeRow(len - 1, byte);
      assert seq(len, _ => byte)[1..] == seq(len - 1, _ => byte);
    }
  }

  lemma PlainOk(len: nat, byte: Byte)
    requires byte != 0 && len > 0
    ensures EntryOk(Plain(len, byte)) && Len(Plain(len, byte)) == len + DIRENT && Plain(len, byte).name[0] == byte
  {
    NulFreeRow(len, byte);
    LimitPositive(8);
  }

  /** `n` names of 244 bytes, each made of one byte, from `byte` on: together 256 bytes an entry. */
  function Row(n: nat, byte: Byte): seq<Entry>
    requires byte + n <= 256
  {
    if n == 0 then [] else Row(n - 1, byte) + [Plain(244, byte + n - 1)]
  }

  lemma {:induction false} RowIs(n: nat, byte: Byte)
    requires 0 < byte && byte + n <= 256
    ensures |Row(n, byte)| == n && Used(Row(n, byte)) == 256 * n
    ensures forall i | 0 <= i < n :: Row(n, byte)[i] == Plain(244, byte + i) && EntryOk(Row(n, byte)[i])
  {
    if n > 0 {
      RowIs(n - 1, byte);
      PlainOk(244, byte + n - 1);
      UsedSnoc(Row(n - 1, byte), Plain(244, byte + n - 1));
    }
  }

  lemma {:induction false} UsedConcat(a: seq<Entry>, b: seq<Entry>)
    ensures Used(a + b) == Used(a) + Used(b)
  {
    NameBytesConcat(a, b);
  }

  /** A block of exactly 4096 bytes: ".", "..", up to fifteen names of 244 bytes and one for the rest. */
  function FullBlock(n: nat): seq<Entry>
    requires n <= 15
  {
    [DOT_ENTRY, DOTDOT_ENTRY] + RowAnd(n, 50, 4057 - 256 * n)
  }

  ghost predicate ByFirstByte(es: seq<Entry>) {
    && (forall i | 0 <= i < |es| :: es[i].name != [])
    && forall i, j | 0 <= i < j < |es| :: es[i].name[0] < es[j].name[0]
  }

  lemma FirstByteAscends(es: seq<Entry>)
    requires ByFirstByte(es)
    ensures AscendingNames(es)
  {
  }

  /** Dots in front of names that start with a byte above the dot. */
  lemma DotsFirst(es: seq<Entry>)
    requires AscendingNames(es) && forall i | 0 <= i < |es| :: es[i].name != [] && es[i].name[0] > 46
    ensures AscendingNames([DOT_ENTRY, DOTDOT_ENTRY] + es)
  {
    DotsAscend();
    var all := [DOT_ENTRY, DOTDOT_ENTRY] + es;
    forall i, j | 0 <= i < j < |all| ensures Less(all[i].name, all[j].name) {
      if i >= 2 {
        assert all[i] == es[i - 2] && all[j] == es[j - 2];
      } else if j >= 2 {
        assert all[j] == es[j - 2] && all[i].name[0] == 46;
      }
    }
  }

  lemma DotsUsed()
    ensures Used([DOT_ENTRY, DOTDOT_ENTRY]) == 27
  {
    DotsAscend();
    UsedSnoc([], DOT_ENTRY);
    UsedSnoc([DOT_ENTRY], DOTDOT_ENTRY);
    assert [] + [DOT_ENTRY] == [DOT_ENTRY] && [DOT_ENTRY] + [DOTDOT_ENTRY] == [DOT_ENTRY, DOTDOT_ENTRY];
  }

  /** A row and one more name behind it. */
  function RowAnd(n: nat, byte: Byte, len: nat): seq<Entry>
    requires byte + n < 256
  {
    Row(n, byte) + [Plain(len, byte + n)]
  }

  lemma RowAndIs(n: nat, byte: Byte, len: nat)
    requires 0 < byte && byte + n < 256 && len > 0
    ensures var es := RowAnd(n, byte, len);
            && |es| == n + 1 && Used(es) == 256 * n + len + DIRENT && ByFirstByte(es)
            && forall i | 0 <= i < |es| ::
                 EntryOk(es[i]) && es[i].nid == 0 && es[i].name != [] && es[i].name[0] == byte + i
  {
    RowIs(n, byte);
    PlainOk(len, byte + n);
    UsedSnoc(Row(n, byte), Plain(len, byte + n));
  }

  lemma FullBlockIs(n: nat)
    requires n <= 15
    ensures Used(FullBlock(n)) == BLOCK && AscendingNames(FullBlock(n))
    ensures forall i | 0 <= i < |FullBlock(n)| :: EntryOk(FullBlock(n)[i]) && FullBlock(n)[i].nid == 0
  {
    RowAndIs(n, 50, 4057 - 256 * n);
    BehindDots(RowAnd(n, 50, 4057 - 256 * n));
  }

  lemma BehindDots(es: seq<Entry>)
    requires ByFirstByte(es) && forall i | 0 <= i < |es| :: es[i].name != [] && es[i].name[0] > 46
    requires forall i | 0 <= i < |es| :: EntryOk(es[i]) && es[i].nid == 0
    ensures var all := [DOT_ENTRY, DOTDOT_ENTRY] + es;
            && Used(all) == 27 + Used(es) && AscendingNames(all)
            && forall i | 0 <= i < |all| :: EntryOk(all[i]) && all[i].nid == 0
  {
    DotsAscend();
    DotsUsed();
    FirstByteAscends(es);
    DotsFirst(es);
    UsedConcat([DOT_ENTRY, DOTDOT_ENTRY], es);
  }

  /** Well-formed one-block directories that are exactly full: every lookup underflows. */
  lemma FullDirectoryUnderflows(n: nat, name: Name)
    requires n <= 15
    ensures var dir := [FullBlock(n)];
            var d := OneBlock(dir[0], []);
            WellFormed(d, dir) && LastFull(d) && Underflows(LastFull(d), dir, name)
  {
    FullBlockIs(n);
    OneBlockWellFormed(FullBlock(n), []);
  }
}
