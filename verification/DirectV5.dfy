/** RAFS v5 read straight from the mapped image (rafs/src/metadata/direct_v5.rs), and its agreement
    with the in-memory tree of rafs/src/metadata/cached_v5.rs. */
module DirectV5 {
  import opened Common
  import opened Names
  import opened Readdir
  import opened CachedV5

  const SUPERBLOCK_SIZE: nat := 8192
  const MAX_METADATA_SIZE: nat := 0x8000_0000
  const ALIGNMENT: nat := 8

  // ----- Layout of the bootstrap file ---------------------------------------------------------------

  datatype Range = Range(start: nat, size: nat) {
    function End(): nat { start + size }

    predicate Has(x: nat) { start <= x < End() }

    predicate IsSubrangeOf(other: Range) { start >= other.start && End() <= other.End() }

    predicate IntersectsWith(other: Range) { start < other.End() && End() > other.start }
  }

  /** `MetaRange::new`. */
  function MakeRange(start: nat, size: nat, alignedSize: bool): Result<Range> {
    if start % ALIGNMENT == 0 && (!alignedSize || size % ALIGNMENT == 0) && start + size < U64_LIMIT
    then Ok(Range(start, size)) else Err(EINVAL)
  }

  datatype Meta = Meta(inodeTableOffset: nat, inodeTableEntries: nat, blobTableOffset: nat, blobTableSize: nat,
                       extTableOffset: nat, extTableEntries: nat)
  {
    function InodeTable(): Range { Range(inodeTableOffset, inodeTableEntries * 4) }
    function BlobTable(): Range { Range(blobTableOffset, blobTableSize) }
    function ExtTable(): Range { Range(extTableOffset, extTableEntries * 64) }
    predicate HasExtTable() { extTableOffset > 0 && extTableEntries > 0 }
  }

  /** The checks `update_state` makes on a file of `len` bytes. */
  function CheckLayout(len: nat, meta: Meta): Result<()> {
    if len < SUPERBLOCK_SIZE || len > MAX_METADATA_SIZE || len % ALIGNMENT != 0 then Err(EBADF)
    else
      var md :- MakeRange(SUPERBLOCK_SIZE, len - SUPERBLOCK_SIZE, true);
      var inodes :- MakeRange(meta.inodeTableOffset, meta.inodeTableEntries * 4, false);
      if !inodes.IsSubrangeOf(md) then Err(EBADF)
      else
        var blobs :- MakeRange(meta.blobTableOffset, meta.blobTableSize, false);
        if !blobs.IsSubrangeOf(md) || blobs.IntersectsWith(inodes) then Err(EBADF)
        else
          var ext :- MakeRange(meta.extTableOffset, meta.extTableEntries * 64, true);
          if meta.HasExtTable() && (!ext.IsSubrangeOf(md) || ext.IntersectsWith(inodes) || ext.IntersectsWith(blobs))
          then Err(EBADF) else Ok(())
  }

  ghost predicate Apart(a: Range, b: Range) {
    forall x: nat :: !(a.Has(x) && b.Has(x))
  }

  /** A layout that passes keeps the tables inside the file, behind the super block and apart from one
      another, and bounds the inode table by the size limit of the file. */
  lemma LayoutIsSound(len: nat, meta: Meta)
    requires CheckLayout(len, meta).Ok?
    ensures SUPERBLOCK_SIZE <= meta.InodeTable().start && meta.InodeTable().End() <= len
    ensures SUPERBLOCK_SIZE <= meta.BlobTable().start && meta.BlobTable().End() <= len
    ensures Apart(meta.InodeTable(), meta.BlobTable())
    ensures meta.HasExtTable() ==>
              && SUPERBLOCK_SIZE <= meta.ExtTable().start && meta.ExtTable().End() <= len
              && Apart(meta.InodeTable(), meta.ExtTable()) && Apart(meta.BlobTable(), meta.ExtTable())
    ensures SmallTable(meta.inodeTableEntries)
  {
  }

  /** A table that starts at a multiple of eight and lies between the super block and the end. */
  predicate Placed(len: nat, start: nat, size: nat) {
    start % 8 == 0 && 8192 <= start && start + size <= len
  }

  predicate Separate(a: nat, sizeA: nat, b: nat, sizeB: nat) {
    a + sizeA <= b || b + sizeB <= a
  }

  /** Exactly which layouts are accepted. */
  lemma LayoutAcceptedIff(len: nat, meta: Meta)
    ensures var inodes, ext := 4 * meta.inodeTableEntries, 64 * meta.extTableEntries;
            CheckLayout(len, meta).Ok? <==>
            && 8192 <= len <= 0x8000_0000 && len % 8 == 0
            && Placed(len, meta.inodeTableOffset, inodes) && Placed(len, meta.blobTableOffset, meta.blobTableSize)
            && Separate(meta.inodeTableOffset, inodes, meta.blobTableOffset, meta.blobTableSize)
            && meta.extTableOffset % 8 == 0 && meta.extTableOffset + ext < U64_LIMIT
            && (meta.extTableOffset > 0 && meta.extTableEntries > 0 ==>
                  && Placed(len, meta.extTableOffset, ext)
                  && Separate(meta.inodeTableOffset, inodes, meta.extTableOffset, ext)
                  && Separate(meta.blobTableOffset, meta.blobTableSize, meta.extTableOffset, ext))
  {
  }

  predicate SmallTable(entries: nat) {
    entries * 4 + SUPERBLOCK_SIZE <= MAX_METADATA_SIZE
  }

  // ----- Inodes by table position -------------------------------------------------------------------

  /** The inode offset table and the inodes at their file offsets. */
  datatype Mapped = Mapped(table: seq<nat>, records: map<nat, Inode>, chunkSize: nat, chunkDict: bool)

  /** `RafsV5InodeTable::get`. */
  function TableGet(table: seq<nat>, ino: nat): Result<nat> {
    if ino == 0 || ino > |table| then Err(ENOENT)
    else if table[ino - 1] <= SUPERBLOCK_SIZE / 8 || table[ino - 1] >= 0x2000_0000 then Err(EINVAL)
    else Ok(table[ino - 1] * 8)
  }

  /** `RafsV5InodeTable::set`. */
  function TableSet(table: seq<nat>, ino: nat, offset: nat): Result<seq<nat>> {
    if ino == 0 || ino > |table| then Err(EINVAL)
    else if offset <= SUPERBLOCK_SIZE || offset % 8 != 0 then Err(EINVAL)
    else Ok(table[ino - 1 := offset / 8])
  }

  /** An offset that could be set is read back, and no other entry changes. */
  lemma TableRoundTrip(table: seq<nat>, ino: nat, offset: nat, other: nat)
    requires offset < U32_LIMIT
    ensures match TableSet(table, ino, offset)
            case Err(e) => e == EINVAL && (ino == 0 || ino > |table| || offset <= 8192 || offset % 8 != 0)
            case Ok(t) => && TableGet(t, ino) == Ok(offset)
                          && (other != ino ==> TableGet(t, other) == TableGet(table, other))
  {
  }

  /** Exactly which entries of the table can be read: those whose offset lies behind the super block and below
      4 GiB. */
  lemma TableGetIff(table: seq<nat>, ino: nat)
    ensures match TableGet(table, ino)
            case Ok(offset) => 1 <= ino <= |table| && offset == 8 * table[ino - 1] && 8192 < offset < U32_LIMIT
            case Err(e) => if ino == 0 || ino > |table| then e == ENOENT
                           else e == EINVAL && !(8192 < 8 * table[ino - 1] < U32_LIMIT)
  {
  }

  /** What validation makes of a mapped inode: the same as of a loaded one, and its number and its children
      lie within the table.  The name has its stored size, and blocks are not looked at. */
  ghost predicate SaneMapped(i: Inode, maxInode: nat, chunkSize: nat) {
    && 1 <= i.ino <= maxInode && i.nlink > 0 && 1 <= |i.name| <= 256
    && (i.parent == 0 ==> i.ino == 1)
    && ((i.kind == Dir || i.nlink == 1) ==> i.parent < i.ino)
    && match i.kind
       case Reg => !i.hasHole ==> PieceCount(i.childCnt, chunkSize, i.size)
       case Dir => i.childCnt > 0 ==>
                     i.ino < i.childIdx && i.childCnt < maxInode && i.childIdx + i.childCnt <= maxInode + 1
       case Symlink => i.targetLen > 0
       case Other => true
  }

  /** Exactly which mapped inodes are accepted: regular files of a chunk dictionary never are. */
  lemma MappedIsSane(i: Inode, maxInode: nat, chunkSize: nat, chunkDict: bool)
    requires chunkSize > 0
    ensures ValidateMapped(i, maxInode, chunkSize, chunkDict).Ok? <==>
            SaneMapped(i, maxInode, chunkSize) && !(i.kind == Reg && chunkDict)
  {
    RoundUpIff(i.size, chunkSize, i.childCnt);
  }

  /** `validate` of a mapped inode; `childCnt` of a regular file counts its chunks. */
  function ValidateMapped(i: Inode, maxInode: nat, chunkSize: nat, chunkDict: bool): Result<()>
    requires chunkSize > 0
  {
    if i.ino == 0 || i.ino > maxInode || (i.ino != ROOT_INODE && i.parent == 0) || i.nlink == 0
       || |i.name| > MAX_NAME + 1 || |i.name| == 0 then Err(EBADF)
    else if !i.IsHardlink() && i.parent >= i.ino then Err(EINVAL)
    else if i.kind.Reg? && chunkDict then Err(EOPNOTSUPP)
    else if i.kind.Reg? && !i.hasHole && DivRoundUp(i.size, chunkSize) != i.childCnt then Err(EINVAL)
    else if i.kind.Dir? && i.childCnt > 0
            && (i.childIdx <= i.ino || i.childCnt >= maxInode || i.childCnt + i.childIdx - 1 > maxInode)
    then Err(EINVAL)
    else if i.kind.Symlink? && i.targetLen == 0 then Err(EINVAL)
    else Ok(())
  }

  /** `get_inode_wrapper`. */
  function GetInode(m: Mapped, t: nat): Result<Inode>
    requires m.chunkSize > 0
  {
    var offset :- TableGet(m.table, t);
    if offset !in m.records then Err(EINVAL)
    else
      var _ :- ValidateMapped(m.records[offset], |m.table|, m.chunkSize, m.chunkDict);
      Ok(m.records[offset])
  }

  /** A directory read from a mapping whose layout passed the checks. */
  ghost predicate MappedDir(m: Mapped, dir: Inode) {
    && m.chunkSize > 0 && SmallTable(|m.table|) && dir.childCnt < U32_LIMIT && dir.childIdx < U32_LIMIT
    && ValidateMapped(dir, |m.table|, m.chunkSize, m.chunkDict).Ok?
  }

  // ----- Children by name and index -------------------------------------------------------------------

  /** The children in table order. */
  ghost predicate Children(m: Mapped, dir: Inode, kids: seq<Inode>)
    requires m.chunkSize > 0
  {
    |kids| == dir.childCnt && forall k | 0 <= k < |kids| :: GetInode(m, dir.childIdx + k) == Ok(kids[k])
  }

  ghost predicate Ascending(kids: seq<Inode>) {
    forall i, j | 0 <= i < j < |kids| :: Less(kids[i].name, kids[j].name)
  }

  /** The answer of a plain scan. */
  function ScanKids(kids: seq<Inode>, name: Name): Result<Inode> {
    if kids == [] then Err(ENOENT) else if kids[0].name == name then Ok(kids[0]) else ScanKids(kids[1..], name)
  }

  lemma {:induction false} ScanFinds(kids: seq<Inode>, name: Name, k: nat)
    requires Ascending(kids) && k < |kids| && kids[k].name == name
    ensures ScanKids(kids, name) == Ok(kids[k])
  {
    if k > 0 {
      Irreflexive(name);
      assert Less(kids[0].name, kids[k].name);
      ScanFinds(kids[1..], name, k - 1);
    }
  }

  lemma {:induction false} ScanMisses(kids: seq<Inode>, name: Name)
    requires forall k | 0 <= k < |kids| :: kids[k].name != name
    ensures ScanKids(kids, name) == Err(ENOENT)
  {
    if kids != [] { ScanMisses(kids[1..], name); }
  }

  /** What is left of a binary search over [first, last]. */
  ghost predicate Narrowed(kids: seq<Inode>, name: Name, first: int, last: int) {
    && 0 <= first <= last + 1 <= |kids|
    && (forall k | 0 <= k < first :: kids[k].name != name)
    && (forall k | last < k < |kids| :: kids[k].name != name)
  }

  lemma NarrowsUp(kids: seq<Inode>, name: Name, first: int, last: int, pivot: int)
    requires Ascending(kids) && Narrowed(kids, name, first, last) && first <= pivot <= last
    requires Less(kids[pivot].name, name)
    ensures Narrowed(kids, name, pivot + 1, last)
  {
    forall k | 0 <= k < pivot + 1 ensures kids[k].name != name {
      if k < pivot { Transitive(kids[k].name, kids[pivot].name, name); }
      Irreflexive(name);
    }
  }

  lemma NarrowsDown(kids: seq<Inode>, name: Name, first: int, last: int, pivot: int)
    requires Ascending(kids) && Narrowed(kids, name, first, last) && first <= pivot <= last
    requires Less(name, kids[pivot].name)
    ensures Narrowed(kids, name, first, pivot - 1)
  {
    forall k | pivot - 1 < k < |kids| ensures kids[k].name != name {
      if k > pivot { Transitive(name, kids[pivot].name, kids[k].name); }
      Irreflexive(name);
    }
  }

  predicate InI32(x: int) { -0x8000_0000 <= x < 0x8000_0000 }

  /** The cast from u32 to i32. */
  function AsI32(x: nat): int
    requires x < U32_LIMIT
  {
    if x < 0x8000_0000 then x else x - U32_LIMIT
  }

  /** The search of `get_child_by_name`. No 32-bit signed sum overflows, because the size limit of
      the file bounds the table. */
  method GetChildByName(m: Mapped, dir: Inode, name: Name, ghost kids: seq<Inode>) returns (r: Result<Inode>)
    requires MappedDir(m, dir) && (dir.IsDir() ==> Children(m, dir, kids) && Ascending(kids))
    ensures r == if dir.IsDir() then ScanKids(kids, name) else Err(EINVAL)
  {
    if !dir.IsDir() { return Err(EINVAL); }
    if dir.childCnt == 0 { return Err(ENOENT); }
    var first, last := 0, AsI32(dir.childCnt - 1);
    while first <= last
      invariant Narrowed(kids, name, first, last)
      decreases last - first
    {
      var pivot := first + (last - first) / 2;
      var at := AsI32(dir.childIdx) + pivot;
      if !InI32(last - first) || !InI32(pivot) || !InI32(at) || at < 0 { return Err(Overflow); }
      assert GetInode(m, dir.childIdx + pivot) == Ok(kids[pivot]);
      var wrapper := GetInode(m, at);
      if wrapper.Err? { return wrapper; }
      var target := wrapper.value.name;
      if target == name {
        ScanFinds(kids, name, pivot);
        return wrapper;
      }
      Trichotomy(target, name);
      if Less(name, target) {
        NarrowsDown(kids, name, first, last, pivot);
        last := pivot - 1;
      } else {
        NarrowsUp(kids, name, first, last, pivot);
        first := pivot + 1;
      }
    }
    ScanMisses(kids, name);
    r := Err(ENOENT);
  }

  /** `get_child_by_index` of the mapped inode; the sum is 32-bit unsigned. */
  function MappedByIndex(m: Mapped, dir: Inode, idx: nat): Result<Inode>
    requires m.chunkSize > 0
  {
    if !dir.IsDir() then Err(EINVAL)
    else if idx >= dir.childCnt then Err(ENOENT)
    else if idx + dir.childIdx >= U32_LIMIT then Err(Overflow)
    else GetInode(m, idx + dir.childIdx)
  }

  /** `get_child_by_index` of the loaded inode at position `p`. */
  function CachedByIndex(s: State, p: nat, idx: nat): Result<Inode>
    requires s.Valid() && p < |s.nodes|
  {
    if idx < |s.children[p]| then Ok(s.nodes[s.children[p][idx]]) else Err(EINVAL)
  }

  function LoadedKids(s: State, p: nat): (kids: seq<Inode>)
    requires s.Valid() && p < |s.nodes|
    ensures |kids| == |s.children[p]| && forall k | 0 <= k < |kids| :: kids[k] == s.nodes[s.children[p][k]]
  {
    seq(|s.children[p]|, k requires 0 <= k < |s.children[p]| => s.nodes[s.children[p][k]])
  }

  /** `get_child_by_name` of the loaded inode: a binary search over its child list. */
  method CachedGetChildByName(s: State, p: nat, name: Name) returns (r: Result<Inode>)
    requires s.Valid() && p < |s.nodes| && Ascending(LoadedKids(s, p))
    ensures r == ScanKids(LoadedKids(s, p), name)
  {
    var kids := LoadedKids(s, p);
    var first, last := 0, |kids| - 1;
    while first <= last
      invariant Narrowed(kids, name, first, last)
      decreases last - first
    {
      var pivot := (first + last) / 2;
      if kids[pivot].name == name {
        ScanFinds(kids, name, pivot);
        return Ok(kids[pivot]);
      }
      Trichotomy(kids[pivot].name, name);
      if Less(kids[pivot].name, name) {
        NarrowsUp(kids, name, first, last, pivot);
        first := pivot + 1;
      } else {
        NarrowsDown(kids, name, first, last, pivot);
        last := pivot - 1;
      }
    }
    ScanMisses(kids, name);
    r := Err(ENOENT);
  }

  // ----- The directory walk ---------------------------------------------------------------------------

  /** A directory in either mode. */
  datatype View = Cached(s: State, p: nat) | Direct(m: Mapped, dir: Inode) {
    ghost predicate Valid() {
      match this
      case Cached(s, p) => s.Valid() && p < |s.nodes|
      case Direct(m, dir) => m.chunkSize > 0
    }

    function Node(): Inode
      requires Valid()
    {
      match this
      case Cached(s, p) => s.nodes[p]
      case Direct(m, dir) => dir
    }

    function ByIndex(idx: nat): Result<Inode>
      requires Valid()
    {
      match this
      case Cached(s, p) => CachedByIndex(s, p, idx)
      case Direct(m, dir) => MappedByIndex(m, dir, idx)
    }
  }

  function Listing(node: Inode, kids: seq<Inode>): (l: seq<Listed>)
    ensures |l| == |kids| + 2 && l[0] == Listed(DOT, node.ino)
    ensures l[1] == Listed(DOTDOT, if node.ino == 1 then 1 else node.parent)
    ensures forall k | 0 <= k < |kids| :: l[k + 2] == Listed(kids[k].name, kids[k].ino)
  {
    [Listed(DOT, node.ino), Listed(DOTDOT, if node.ino == ROOT_INODE then ROOT_INODE else node.parent)]
    + seq(|kids|, k requires 0 <= k < |kids| => Listed(kids[k].name, kids[k].ino))
  }

  ghost predicate Enumerates(v: View, kids: seq<Inode>)
    requires v.Valid()
  {
    |kids| == v.Node().childCnt && forall k | 0 <= k < |kids| :: v.ByIndex(k) == Ok(kids[k])
  }

  /** One call of the handler: the walk goes on behind the entry, or ends with it. */
  method Call(ghost list: seq<Listed>, ghost at: nat, decide: Handler, calls: seq<Visit>, visit: Visit)
    returns (made: seq<Visit>, stop: Option<Result<()>>)
    requires at < |list| && Tag(list, at) == visit
    ensures made == calls + [visit]
    ensures match stop
            case None => WalkFrom(list, at, decide, calls) == WalkFrom(list, at + 1, decide, made)
            case Some(r) => var (c, end) := WalkFrom(list, at, decide, calls);
                            made == c && r == if end == Failed then Err(Handler) else Ok(())
  {
    made := calls + [visit];
    match decide(made) {
      case Continue => stop := None;
      case Break => stop := Some(Ok(()));
      case Fail => stop := Some(Err(Handler));
    }
  }

  /** The entries for the directory itself and its parent, as far as the walk from `k` needs them. */
  method WalkDots(node: Inode, k: nat, decide: Handler, ghost kids: seq<Inode>)
    returns (calls: seq<Visit>, cur: nat, stop: Option<Result<()>>)
    ensures var list := Listing(node, kids);
            match stop
            case None => WalkFrom(list, k, decide, []) == WalkFrom(list, cur, decide, calls) && cur >= 2
            case Some(r) => var (c, end) := WalkFrom(list, k, decide, []);
                            calls == c && r == if end == Failed then Err(Handler) else Ok(())
  {
    calls, cur, stop := [], k, None;
    if cur == 0 {
      calls, stop := Call(Listing(node, kids), 0, decide, [], Visit(DOT, node.ino, 1));
      if stop.Some? { return; }
      cur := 1;
    }
    if cur == 1 {
      var parent := if node.ino == 1 then 1 else node.parent;
      calls, stop := Call(Listing(node, kids), 1, decide, calls, Visit(DOTDOT, parent, 2));
      cur := 2;
    }
  }

  /** `walk_children_inodes`, which is the same in both modes: the walk of the listing from `k`. */
  method WalkChildren(v: View, k: nat, decide: Handler, ghost kids: seq<Inode>)
    returns (calls: seq<Visit>, r: Result<()>)
    requires v.Valid() && Enumerates(v, kids)
    ensures var (c, end) := WalkFrom(Listing(v.Node(), kids), k, decide, []);
            calls == c && r == if end == Failed then Err(Handler) else Ok(())
  {
    ghost var list := Listing(v.Node(), kids);
    var cur, stop;
    calls, cur, stop := WalkDots(v.Node(), k, decide, kids);
    if stop.Some? { return calls, stop.value; }
    var idx: nat := cur - 2;
    while idx < v.Node().childCnt
      invariant cur == idx + 2 && WalkFrom(list, k, decide, []) == WalkFrom(list, cur, decide, calls)
      decreases v.Node().childCnt - idx
    {
      var child := v.ByIndex(idx);
      match child {
        case Err(e) => return calls, Err(e);
        case Ok(c) =>
          calls, stop := Call(list, cur, decide, calls, Visit(c.name, c.ino, cur + 1));
          if stop.Some? { return calls, stop.value; }
          cur, idx := cur + 1, idx + 1;
      }
    }
    r := Ok(());
  }

  // ----- Both modes agree -------------------------------------------------------------------------------

  /** Table position `t` leads to the `t`-th inode of the file. */
  ghost predicate SameImage(m: Mapped, img: seq<Inode>) {
    && m.chunkSize > 0 && |m.table| == |img| && SmallTable(|img|)
    && forall i | 0 <= i < |img| :: GetInode(m, i + 1) == Ok(img[i])
  }

  /** Where the children of an inode start in the image. */
  function Base(i: Inode): nat {
    if i.childCnt == 0 || i.childIdx == 0 then 0 else i.childIdx - 1
  }

  /** The children of directory `d` lie next to each other, in the order of their names. */
  ghost predicate Contiguous(img: seq<Inode>, d: nat)
    requires d < |img|
  {
    var lo, cnt := Base(img[d]), img[d].childCnt;
    && img[d].IsDir() && (cnt > 0 ==> 1 <= img[d].childIdx) && lo + cnt <= |img|
    && (forall i | 0 <= i < |img| :: img[i].parent == img[d].ino <==> lo <= i < lo + cnt)
    && Ascending(img[lo..lo + cnt])
  }

  function Siblings(img: seq<Inode>, d: nat): seq<Inode>
    requires d < |img| && Base(img[d]) + img[d].childCnt <= |img|
  {
    img[Base(img[d])..Base(img[d]) + img[d].childCnt]
  }

  lemma {:induction false} KidsInRange(img: seq<Inode>, ino: nat, m: nat, lo: nat, cnt: nat)
    requires m <= |img| && lo + cnt <= |img|
    requires forall i | 0 <= i < |img| :: img[i].parent == ino <==> lo <= i < lo + cnt
    ensures Kids(img, ino, m, 0) == if m <= lo then 0 else Min(m - lo, cnt)
  {
    if m > 0 { KidsInRange(img, ino, m - 1, lo, cnt); }
  }

  lemma {:induction false} CountsAsMember(list: seq<nat>, x: nat)
    ensures Count(list, x) > 0 <==> x in list
  {
    if list != [] {
      CountsAsMember(list[..|list| - 1], x);
      assert list == list[..|list| - 1] + [list[|list| - 1]];
    }
  }

  /** `list` holds lo, lo + 1, ..., lo + cnt - 1, each once. */
  ghost predicate HoldsRange(list: seq<nat>, lo: nat, cnt: nat) {
    |list| == cnt && forall i: nat :: Count(list, i) == if lo <= i < lo + cnt then 1 else 0
  }

  /** A name-sorted list of consecutive inodes with ascending names is in order. */
  lemma {:induction false} SortedIsOrdered(img: seq<Inode>, list: seq<nat>, lo: nat, cnt: nat)
    requires lo + cnt <= |img| && HoldsRange(list, lo, cnt) && Below(list, |img|) && SortedList(img, list)
    requires Ascending(img[lo..lo + cnt])
    ensures forall k | 0 <= k < cnt :: list[k] == lo + k
    decreases cnt
  {
    if cnt > 0 {
      LastIsLargest(img, list, lo, cnt);
      var front := list[..cnt - 1];
      assert forall i: nat :: Count(front, i) == Count(list, i) - if list[cnt - 1] == i then 1 else 0;
      assert img[lo..lo + (cnt - 1)] == img[lo..lo + cnt][..cnt - 1];
      SortedIsOrdered(img, front, lo, cnt - 1);
    }
  }

  lemma LastIsLargest(img: seq<Inode>, list: seq<nat>, lo: nat, cnt: nat)
    requires 0 < cnt && lo + cnt <= |img| && HoldsRange(list, lo, cnt) && Below(list, |img|) && SortedList(img, list)
    requires Ascending(img[lo..lo + cnt])
    ensures list[cnt - 1] == lo + cnt - 1
  {
    var top, last := lo + cnt - 1, list[cnt - 1];
    CountsAsMember(list, top);
    CountsAsMember(list, last);
    var q :| 0 <= q < cnt && list[q] == top;
    assert lo <= last <= top;
    var slice := img[lo..lo + cnt];
    if last < top {
      assert slice[last - lo] == img[last] && slice[top - lo] == img[top];
      Asymmetric(img[last].name, img[top].name);
    }
  }

  /** What loading guarantees about directory `d`. */
  ghost predicate LoadedDir(s: State, img: seq<Inode>, d: nat)
    requires d < |img|
  {
    && s.Valid() && s.nodes == img && |s.children[d]| == img[d].childCnt && SortedList(img, s.children[d])
    && forall i: nat | i < |img| :: Count(s.children[d], i) == if img[i].parent == img[d].ino then 1 else 0
  }

  lemma LoadsDir(img: seq<Inode>, d: nat, chunkSize: nat)
    requires chunkSize > 0 && WellFormed(img, chunkSize) && d < |img| && Contiguous(img, d)
    ensures LoadAll(img, chunkSize).Ok? && LoadedDir(LoadAll(img, chunkSize).value, img, d)
  {
    KidsInRange(img, img[d].ino, |img|, Base(img[d]), img[d].childCnt);
    LoadIsSafeAndComplete(img, chunkSize);
  }

  /** The loaded child list of a directory is its part of the image, in order. */
  lemma LoadedInOrder(s: State, img: seq<Inode>, d: nat)
    requires d < |img| && Contiguous(img, d) && LoadedDir(s, img, d)
    ensures LoadedKids(s, d) == Siblings(img, d)
  {
    var lo, cnt, list := Base(img[d]), img[d].childCnt, s.children[d];
    forall i: nat ensures Count(list, i) == if lo <= i < lo + cnt then 1 else 0 {
      if i >= |img| { CountsAsMember(list, i); }
    }
    SortedIsOrdered(img, list, lo, cnt);
  }

  /** The mapped children of a directory are the same part of the image. */
  lemma MappedInOrder(m: Mapped, img: seq<Inode>, d: nat)
    requires SameImage(m, img) && d < |img| && Contiguous(img, d)
    ensures Children(m, img[d], Siblings(img, d)) && Enumerates(Direct(m, img[d]), Siblings(img, d))
  {
    var kids := Siblings(img, d);
    forall k | 0 <= k < |kids| ensures GetInode(m, img[d].childIdx + k) == Ok(kids[k]) {
      assert GetInode(m, Base(img[d]) + k + 1) == Ok(img[Base(img[d]) + k]);
    }
  }

  /** For every well-formed image and directory both modes enumerate the same children in the same
      order, so by the contracts of the two searches and of the walk they give the same answers. */
  lemma ModesAgree(m: Mapped, img: seq<Inode>, d: nat)
    requires SameImage(m, img) && WellFormed(img, m.chunkSize) && d < |img| && Contiguous(img, d)
    ensures LoadAll(img, m.chunkSize).Ok?
    ensures var s := LoadAll(img, m.chunkSize).value;
            var kids := LoadedKids(s, d);
            && Ascending(kids) && Children(m, img[d], kids)
            && Enumerates(Cached(s, d), kids) && Enumerates(Direct(m, img[d]), kids)
            && Cached(s, d).Node() == img[d] == Direct(m, img[d]).Node()
  {
    LoadsDir(img, d, m.chunkSize);
    var s := LoadAll(img, m.chunkSize).value;
    LoadedInOrder(s, img, d);
    MappedInOrder(m, img, d);
    CachedEnumerates(s, img, d);
  }

  lemma CachedEnumerates(s: State, img: seq<Inode>, d: nat)
    requires d < |img| && LoadedDir(s, img, d)
    ensures Cached(s, d).Node() == img[d] && Enumerates(Cached(s, d), LoadedKids(s, d))
  {
  }

  /** Past the end the two modes answer with different errors. */
  lemma IndexErrorsDiffer(m: Mapped, img: seq<Inode>, d: nat, idx: nat)
    requires SameImage(m, img) && WellFormed(img, m.chunkSize) && d < |img| && Contiguous(img, d)
    ensures LoadAll(img, m.chunkSize).Ok?
    ensures var s := LoadAll(img, m.chunkSize).value;
            if idx < img[d].childCnt then CachedByIndex(s, d, idx) == MappedByIndex(m, img[d], idx)
            else CachedByIndex(s, d, idx) == Err(EINVAL) && MappedByIndex(m, img[d], idx) == Err(ENOENT)
  {
    ModesAgree(m, img, d);
    var s := LoadAll(img, m.chunkSize).value;
    if idx < img[d].childCnt {
      assert Cached(s, d).ByIndex(idx) == Ok(LoadedKids(s, d)[idx]);
      assert Direct(m, img[d]).ByIndex(idx) == Ok(LoadedKids(s, d)[idx]);
    }
  }

  /** Lookup by name gives one answer in both modes, found or not. */
  method LookupBothWays(m: Mapped, img: seq<Inode>, d: nat, name: Name)
    returns (cached: Result<Inode>, direct: Result<Inode>)
    requires SameImage(m, img) && WellFormed(img, m.chunkSize) && d < |img| && Contiguous(img, d)
    requires MappedDir(m, img[d])
    ensures cached == direct == ScanKids(Siblings(img, d), name)
  {
    ModesAgree(m, img, d);
    var s := LoadAll(img, m.chunkSize).value;
    LoadsDir(img, d, m.chunkSize);
    LoadedInOrder(s, img, d);
    cached := CachedGetChildByName(s, d, name);
    direct := GetChildByName(m, img[d], name, LoadedKids(s, d));
  }

  /** The walk makes the same calls in both modes, from every offset and for every handler. */
  method WalkBothWays(m: Mapped, img: seq<Inode>, d: nat, k: nat, decide: Handler)
    returns (cached: seq<Visit>, direct: seq<Visit>, r: Result<()>, q: Result<()>)
    requires SameImage(m, img) && WellFormed(img, m.chunkSize) && d < |img| && Contiguous(img, d)
    ensures cached == direct == WalkFrom(Listing(img[d], Siblings(img, d)), k, decide, []).0
    ensures var (_, end) := WalkFrom(Listing(img[d], Siblings(img, d)), k, decide, []);
            r == q == if end == Failed then Err(Handler) else Ok(())
  {
    ModesAgree(m, img, d);
    var s := LoadAll(img, m.chunkSize).value;
    LoadsDir(img, d, m.chunkSize);
    LoadedInOrder(s, img, d);
    cached, r := WalkChildren(Cached(s, d), k, decide, LoadedKids(s, d));
    direct, q := WalkChildren(Direct(m, img[d]), k, decide, LoadedKids(s, d));
  }
}
