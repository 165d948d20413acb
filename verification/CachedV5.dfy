/** Loading a RAFS v5 image into memory (rafs/src/metadata/cached_v5.rs). Inodes are shared through
    reference-counted handles, and a directory can only take children while its handle is unshared. */
module CachedV5 {
  import opened Common
  import opened Names

  const ROOT_INODE: nat := 1
  const MAX_NAME: nat := 255

  datatype Kind = Dir | Reg | Symlink | Other

  /** An inode as decoded from the image; `dataLen` counts its chunks, `targetLen` its link target. */
  datatype Inode = Inode(ino: nat, parent: nat, kind: Kind, nlink: nat, name: Name, childIdx: nat, childCnt: nat,
                         size: nat, blocks: nat, hasHole: bool, dataLen: nat, targetLen: nat)
  {
    predicate IsDir() { kind.Dir? }
    predicate IsHardlink() { !IsDir() && nlink > 1 }

    /** `validate`. */
    predicate Validate(chunkSize: nat)
      requires chunkSize > 0
    {
      && ino != 0 && nlink != 0 && !(ino != ROOT_INODE && parent == 0) && 0 < |name| <= MAX_NAME
      && (IsHardlink() || parent < ino)
      && (kind.Reg? ==> && (hasHole || DivRoundUp(size, chunkSize) == dataLen)
                        && (blocks == 0 || DivRoundUp(size, 512) == blocks))
      && (kind.Dir? ==> childCnt == 0 || childIdx > ino)
      && (kind.Symlink? ==> targetLen > 0)
    }
  }

  /** What a valid inode is: numbered and named, below an inode with a smaller number unless it has several
      links, and consistent with its kind. */
  ghost predicate Sane(i: Inode, chunkSize: nat) {
    && i.ino > 0 && i.nlink > 0 && 1 <= |i.name| <= 255
    && (i.parent == 0 ==> i.ino == 1)
    && ((i.kind == Dir || i.nlink == 1) ==> i.parent < i.ino)
    && match i.kind
       case Reg => && (!i.hasHole ==> PieceCount(i.dataLen, chunkSize, i.size))
                   && (i.blocks > 0 ==> PieceCount(i.blocks, 512, i.size))
       case Dir => i.childCnt > 0 ==> i.ino < i.childIdx
       case Symlink => i.targetLen > 0
       case Other => true
  }

  lemma ValidIsSane(i: Inode, chunkSize: nat)
    requires chunkSize > 0
    ensures i.Validate(chunkSize) <==> Sane(i, chunkSize)
  {
    RoundUpIff(i.size, chunkSize, i.dataLen);
    RoundUpIff(i.size, 512, i.blocks);
  }

  predicate Below(list: seq<nat>, n: nat) {
    forall k | 0 <= k < |list| :: list[k] < n
  }

  /** Every inode ever loaded with its strong count and its child list, the inode map, and the largest
      inode number. Inodes are named by their position. */
  datatype State = State(nodes: seq<Inode>, strong: seq<nat>, children: seq<seq<nat>>, table: map<nat, nat>,
                         maxInode: nat)
  {
    ghost predicate Valid() {
      && |nodes| == |strong| == |children|
      && (forall p | 0 <= p < |nodes| :: Below(children[p], |nodes|))
      && (forall ino | ino in table :: table[ino] < |nodes|)
    }
  }

  const EMPTY := State([], [], [], map[], ROOT_INODE)

  // ----- Handles --------------------------------------------------------------------------------

  ghost function Sum(xs: seq<nat>): nat {
    if xs == [] then 0 else xs[0] + Sum(xs[1..])
  }

  lemma {:induction false} SumUpdate(xs: seq<nat>, i: nat, x: nat)
    requires i < |xs|
    ensures Sum(xs[i := x]) + xs[i] == Sum(xs) + x
  {
    if i > 0 {
      assert xs[i := x][1..] == xs[1..][i - 1 := x];
      SumUpdate(xs[1..], i - 1, x);
    } else {
      assert xs[0 := x][1..] == xs[1..];
    }
  }

  /** Dropping a handle; an inode without handles drops its children. */
  function Drop(s: State, i: nat): (t: State)
    requires s.Valid() && i < |s.nodes|
    ensures t.Valid() && t.nodes == s.nodes && t.table == s.table && t.maxInode == s.maxInode
    ensures Sum(t.strong) <= Sum(s.strong)
    decreases Sum(s.strong), 0
  {
    if s.strong[i] == 0 then s
    else
      SumUpdate(s.strong, i, s.strong[i] - 1);
      var t := s.(strong := s.strong[i := s.strong[i] - 1]);
      if t.strong[i] > 0 then t else DropAll(t.(children := t.children[i := []]), s.children[i])
  }

  function DropAll(s: State, list: seq<nat>): (t: State)
    requires s.Valid() && Below(list, |s.nodes|)
    ensures t.Valid() && t.nodes == s.nodes && t.table == s.table && t.maxInode == s.maxInode
    ensures Sum(t.strong) <= Sum(s.strong)
    decreases Sum(s.strong), 1, |list|
  {
    if list == [] then s else DropAll(Drop(s, list[0]), list[1..])
  }

  // ----- Sorting a child list ---------------------------------------------------------------------

  ghost predicate SortedList(nodes: seq<Inode>, list: seq<nat>)
    requires Below(list, |nodes|)
  {
    forall a, b | 0 <= a < b < |list| :: AtMost(nodes[list[a]].name, nodes[list[b]].name)
  }

  /** Behind everything that is not larger, as a stable sort does. */
  function Insert(nodes: seq<Inode>, list: seq<nat>, x: nat): (r: seq<nat>)
    requires Below(list, |nodes|) && x < |nodes|
    ensures Below(r, |nodes|) && |r| == |list| + 1
  {
    if list != [] && Less(nodes[x].name, nodes[list[|list| - 1]].name)
    then Insert(nodes, list[..|list| - 1], x) + [list[|list| - 1]]
    else list + [x]
  }

  function SortByName(nodes: seq<Inode>, list: seq<nat>): (r: seq<nat>)
    requires Below(list, |nodes|)
    ensures Below(r, |nodes|) && |r| == |list|
  {
    if list == [] then [] else Insert(nodes, SortByName(nodes, list[..|list| - 1]), list[|list| - 1])
  }

  function Count(list: seq<nat>, x: nat): nat {
    if list == [] then 0 else Count(list[..|list| - 1], x) + if list[|list| - 1] == x then 1 else 0
  }

  lemma {:induction false} InsertCounts(nodes: seq<Inode>, list: seq<nat>, x: nat, y: nat)
    requires Below(list, |nodes|) && x < |nodes|
    ensures Count(Insert(nodes, list, x), y) == Count(list, y) + if x == y then 1 else 0
    decreases |list|
  {
    var r, n := Insert(nodes, list, x), |list|;
    if list != [] && Less(nodes[x].name, nodes[list[n - 1]].name) {
      InsertCounts(nodes, list[..n - 1], x, y);
      assert r[..n] == Insert(nodes, list[..n - 1], x);
    } else {
      assert r[..n] == list;
    }
  }

  ghost predicate NoneAfter(nodes: seq<Inode>, list: seq<nat>, bound: Name)
    requires Below(list, |nodes|)
  {
    forall a | 0 <= a < |list| :: AtMost(nodes[list[a]].name, bound)
  }

  lemma {:induction false} InsertBound(nodes: seq<Inode>, list: seq<nat>, x: nat, bound: Name)
    requires Below(list, |nodes|) && x < |nodes| && NoneAfter(nodes, list, bound) && AtMost(nodes[x].name, bound)
    ensures NoneAfter(nodes, Insert(nodes, list, x), bound)
    decreases |list|
  {
    if list != [] && Less(nodes[x].name, nodes[list[|list| - 1]].name) {
      InsertBound(nodes, list[..|list| - 1], x, bound);
    }
  }

  lemma SortedSnoc(nodes: seq<Inode>, list: seq<nat>, x: nat)
    requires Below(list, |nodes|) && x < |nodes| && SortedList(nodes, list) && NoneAfter(nodes, list, nodes[x].name)
    ensures SortedList(nodes, list + [x])
  {
  }

  lemma AtMostTransitive(a: Name, b: Name, c: Name)
    requires AtMost(a, b) && AtMost(b, c)
    ensures AtMost(a, c)
  {
    if a != b && b != c { Transitive(a, b, c); }
  }

  lemma {:induction false} InsertSorts(nodes: seq<Inode>, list: seq<nat>, x: nat)
    requires Below(list, |nodes|) && x < |nodes| && SortedList(nodes, list)
    ensures SortedList(nodes, Insert(nodes, list, x))
    decreases |list|
  {
    if list == [] { return; }
    var front, last := list[..|list| - 1], list[|list| - 1];
    Trichotomy(nodes[x].name, nodes[last].name);
    if Less(nodes[x].name, nodes[last].name) {
      InsertSorts(nodes, front, x);
      InsertBound(nodes, front, x, nodes[last].name);
      SortedSnoc(nodes, Insert(nodes, front, x), last);
    } else {
      forall a | 0 <= a < |list| ensures AtMost(nodes[list[a]].name, nodes[x].name) {
        if a < |list| - 1 { AtMostTransitive(nodes[list[a]].name, nodes[last].name, nodes[x].name); }
      }
      SortedSnoc(nodes, list, x);
    }
  }

  /** The sorted list is ordered by name and a permutation. */
  lemma {:induction false} SortKeeps(nodes: seq<Inode>, list: seq<nat>, y: nat)
    requires Below(list, |nodes|)
    ensures SortedList(nodes, SortByName(nodes, list)) && Count(SortByName(nodes, list), y) == Count(list, y)
    decreases |list|
  {
    if list != [] {
      SortKeeps(nodes, list[..|list| - 1], y);
      InsertCounts(nodes, SortByName(nodes, list[..|list| - 1]), list[|list| - 1], y);
      InsertSorts(nodes, SortByName(nodes, list[..|list| - 1]), list[|list| - 1]);
    }
  }

  /** The child list after a push; it is sorted when it has become complete. */
  function Grown(nodes: seq<Inode>, list: seq<nat>, cnt: nat, x: nat): (r: seq<nat>)
    requires Below(list + [x], |nodes|)
    ensures Below(r, |nodes|) && |r| == |list| + 1
  {
    if |list| + 1 == cnt then SortByName(nodes, list + [x]) else list + [x]
  }

  // ----- The steps of loading -----------------------------------------------------------------------

  /** `hash_inode` on a freshly allocated inode: it ends up at the last position with one handle for
      the caller, and another one in the map unless a hardlink with data is there already. */
  function HashInode(s: State, inode: Inode): (t: State)
    requires s.Valid()
    ensures t.Valid() && t.nodes == s.nodes + [inode]
  {
    var max := if s.maxInode < inode.ino then inode.ino else s.maxInode;
    var a := State(s.nodes + [inode], s.strong + [1], s.children + [[]], s.table, max);
    if inode.IsHardlink() && inode.ino in s.table && s.nodes[s.table[inode.ino]].dataLen != 0 then a
    else
      var b := a.(strong := a.strong[|s.nodes| := 2], table := s.table[inode.ino := |s.nodes|]);
      if inode.ino in s.table then Drop(b, s.table[inode.ino]) else b
  }

  /** `add_child`. */
  function AddChild(s: State, p: nat, i: nat): (t: State)
    requires s.Valid() && p < |s.nodes| && i < |s.nodes|
    ensures t.Valid() && t.nodes == s.nodes && t.table == s.table
  {
    s.(children := s.children[p := Grown(s.nodes, s.children[p], s.nodes[p].childCnt, i)])
  }

  /** `add_into_parent`: the caller's handle moves into the parent's list, which the parent only
      allows while the map holds its one handle; without a parent the handle is dropped. */
  function AddIntoParent(s: State, i: nat): (r: Result<State>)
    requires s.Valid() && i < |s.nodes|
    ensures r.Ok? ==>
              r.value.Valid() && r.value.nodes == s.nodes && r.value.maxInode == s.maxInode && r.value.table == s.table
  {
    var parent := s.nodes[i].parent;
    if parent !in s.table then Ok(Drop(s, i))
    else if s.strong[s.table[parent]] != 1 then Err(AssertFailed)
    else Ok(AddChild(s, s.table[parent], i))
  }

  /** One turn of the first loop: files go to their parent at once, directories later. */
  function LoadOne(s: State, inode: Inode): (r: Result<State>)
    requires s.Valid()
    ensures r.Ok? ==> r.value.Valid() && r.value.nodes == s.nodes + [inode]
  {
    var t := HashInode(s, inode);
    if inode.IsDir() then Ok(Drop(t, |s.nodes|)) else AddIntoParent(t, |s.nodes|)
  }

  function LoadFrom(s: State, img: seq<Inode>, chunkSize: nat): (r: Result<State>)
    requires s.Valid() && chunkSize > 0
    ensures r.Ok? ==> r.value.Valid() && r.value.nodes == s.nodes + img
    decreases img
  {
    if img == [] then Ok(s)
    else if !img[0].Validate(chunkSize) then Err(EINVAL)
    else
      var t :- LoadOne(s, img[0]);
      LoadFrom(t, img[1..], chunkSize)
  }

  /** The directory inode numbers in load order. */
  function DirInos(img: seq<Inode>): seq<nat> {
    if img == [] then []
    else DirInos(img[..|img| - 1]) + if img[|img| - 1].IsDir() then [img[|img| - 1].ino] else []
  }

  /** The second loop, from the last directory to the first. */
  function AttachDirs(s: State, inos: seq<nat>): (r: Result<State>)
    requires s.Valid()
    ensures r.Ok? ==>
              r.value.Valid() && r.value.nodes == s.nodes && r.value.maxInode == s.maxInode && r.value.table == s.table
    decreases |inos|
  {
    if inos == [] then Ok(s)
    else
      var t :- AttachDir(s, inos[|inos| - 1]);
      AttachDirs(t, inos[..|inos| - 1])
  }

  function AttachDir(s: State, ino: nat): (r: Result<State>)
    requires s.Valid()
    ensures r.Ok? ==>
              r.value.Valid() && r.value.nodes == s.nodes && r.value.maxInode == s.maxInode && r.value.table == s.table
  {
    if ino !in s.table then Err(ENOENT)
    else
      var i := s.table[ino];
      AddIntoParent(s.(strong := s.strong[i := s.strong[i] + 1]), i)
  }

  /** `load_all_inodes`. */
  function LoadAll(img: seq<Inode>, chunkSize: nat): (r: Result<State>)
    requires chunkSize > 0
    ensures r.Ok? ==> r.value.Valid() && r.value.nodes == img
  {
    var s :- LoadFrom(EMPTY, img, chunkSize);
    AttachDirs(s, DirInos(img))
  }

  // ----- Images in breadth-first order ----------------------------------------------------------------

  ghost predicate HasParent(img: seq<Inode>, i: nat)
    requires i < |img|
  {
    exists j | 0 <= j < i :: img[j].IsDir() && img[j].ino == img[i].parent
  }

  ghost predicate NamesEarlier(img: seq<Inode>, i: nat)
    requires i < |img|
  {
    exists j | 0 <= j < i :: img[j].ino == img[i].parent
  }

  /** Valid inodes, directory numbers that nothing else uses, and parents loaded earlier. Number 0 stands
      for no parent. */
  ghost predicate Numbered(img: seq<Inode>, chunkSize: nat)
    requires chunkSize > 0
  {
    && (forall i | 0 <= i < |img| :: img[i].Validate(chunkSize))
    && (forall i {:trigger NamesEarlier(img, i)} | 0 <= i < |img| && img[i].parent != 0 :: NamesEarlier(img, i))
    && (forall i, j | 0 <= i < |img| && 0 <= j < |img| && i != j && img[i].IsDir() :: img[i].ino != img[j].ino)
  }

  /** The parent, if there is one, is a directory loaded earlier. */
  ghost predicate GoodParent(img: seq<Inode>, i: nat)
    requires i < |img|
  {
    img[i].parent == 0 || HasParent(img, i)
  }

  /** All parents are directories. */
  ghost predicate WellFormed(img: seq<Inode>, chunkSize: nat)
    requires chunkSize > 0
  {
    Numbered(img, chunkSize) && forall i | 0 <= i < |img| :: GoodParent(img, i)
  }

  /** Inode `i` has been attached: files as soon as they are loaded, directories from `k` on. */
  predicate Attached(img: seq<Inode>, k: nat, i: nat)
    requires i < |img|
  {
    !img[i].IsDir() || i >= k
  }

  /** How many of the first `m` inodes have been attached below `ino`. */
  ghost function Kids(img: seq<Inode>, ino: nat, m: nat, k: nat): nat
    requires m <= |img|
  {
    if m == 0 then 0
    else Kids(img, ino, m - 1, k) + if Attached(img, k, m - 1) && img[m - 1].parent == ino then 1 else 0
  }

  ghost predicate Belongs(img: seq<Inode>, m: nat, k: nat, p: nat, i: nat)
    requires m <= |img| && p < |img|
  {
    img[p].IsDir() && i < m && Attached(img, k, i) && img[i].parent == img[p].ino
  }

  /** The child list of `p` holds exactly what has been attached to it, and is sorted when complete. */
  ghost predicate ListOk(img: seq<Inode>, list: seq<nat>, m: nat, k: nat, p: nat)
    requires m <= |img| && p < |img|
  {
    && Below(list, |img|)
    && (forall i: nat :: Count(list, i) == if Belongs(img, m, k, p, i) then 1 else 0)
    && (if img[p].IsDir() then |list| == Kids(img, img[p].ino, m, k) else list == [])
    && (|list| == img[p].childCnt ==> SortedList(img, list))
  }

  ghost predicate HandlesOk(s: State, img: seq<Inode>, m: nat, k: nat) {
    && s.Valid() && m <= |img| && s.nodes == img[..m]
    && (forall d | 0 <= d < m && img[d].IsDir() ::
          img[d].ino in s.table && s.table[img[d].ino] == d && (d < k ==> s.strong[d] == 1))
    && (forall ino | ino in s.table :: img[s.table[ino]].ino == ino && s.strong[s.table[ino]] >= 1)
  }

  ghost predicate ListsOk(children: seq<seq<nat>>, img: seq<Inode>, n: nat, m: nat, k: nat) {
    n == |children| <= |img| && m <= |img| && forall p | 0 <= p < n :: ListOk(img, children[p], m, k, p)
  }

  /** After `m` inodes have been loaded and the directories from `k` on attached. Directories that are
      not attached yet have no handle besides the one in the map. */
  ghost predicate Inv(s: State, img: seq<Inode>, m: nat, k: nat) {
    HandlesOk(s, img, m, k) && ListsOk(s.children, img, m, m, k)
  }

  // ----- Lists -----------------------------------------------------------------------------------------

  /** Going from (m, k) to (m2, k2) attaches `x` and nothing else. */
  ghost predicate Adds(img: seq<Inode>, m: nat, k: nat, m2: nat, k2: nat, x: nat) {
    && m <= |img| && m2 <= |img| && x < m2
    && !(x < m && Attached(img, k, x)) && Attached(img, k2, x)
    && forall i: nat | i < |img| && i != x :: (i < m2 && Attached(img, k2, i)) == (i < m && Attached(img, k, i))
  }

  lemma {:induction false} KidsOfAdded(img: seq<Inode>, ino: nat, m: nat, k: nat)
    requires m <= |img|
    ensures Kids(img, ino, m, k) ==
            Kids(img, ino, m, k + 1) + if k < m && img[k].IsDir() && img[k].parent == ino then 1 else 0
    decreases m
  {
    if m > 0 { KidsOfAdded(img, ino, m - 1, k); }
  }

  lemma CountSnoc(list: seq<nat>, x: nat, i: nat)
    ensures Count(list + [x], i) == Count(list, i) + if x == i then 1 else 0
  {
    assert (list + [x])[..|list|] == list;
  }

  lemma GrownContents(nodes: seq<Inode>, list: seq<nat>, cnt: nat, x: nat, i: nat)
    requires Below(list + [x], |nodes|)
    ensures Count(Grown(nodes, list, cnt, x), i) == Count(list, i) + if x == i then 1 else 0
    ensures |list| + 1 == cnt ==> SortedList(nodes, Grown(nodes, list, cnt, x))
  {
    CountSnoc(list, x, i);
    SortKeeps(nodes, list + [x], i);
  }

  lemma BelongsAdded(img: seq<Inode>, m: nat, k: nat, m2: nat, k2: nat, p: nat, x: nat, i: nat)
    requires ListOkParams(img, m, m2, p) && Adds(img, m, k, m2, k2, x)
    ensures Belongs(img, m2, k2, p, i) ==
            (Belongs(img, m, k, p, i) || (i == x && img[p].IsDir() && img[x].parent == img[p].ino))
    ensures !Belongs(img, m, k, p, x)
  {
  }

  lemma ListGrows(img: seq<Inode>, nodes: seq<Inode>, list: seq<nat>, m: nat, k: nat, m2: nat, k2: nat, p: nat, x: nat)
    requires ListOkParams(img, m, m2, p) && ListOk(img, list, m, k, p) && Adds(img, m, k, m2, k2, x)
    requires nodes <= img && Below(list + [x], |nodes|)
    requires img[p].IsDir() && img[x].parent == img[p].ino
    requires Kids(img, img[p].ino, m2, k2) == Kids(img, img[p].ino, m, k) + 1
    ensures ListOk(img, Grown(nodes, list, img[p].childCnt, x), m2, k2, p)
  {
    var out := Grown(nodes, list, img[p].childCnt, x);
    forall i: nat ensures Count(out, i) == if Belongs(img, m2, k2, p, i) then 1 else 0 {
      GrownContents(nodes, list, img[p].childCnt, x, i);
      BelongsAdded(img, m, k, m2, k2, p, x, i);
    }
    GrownContents(nodes, list, img[p].childCnt, x, 0);
    if |out| == img[p].childCnt { SameNames(nodes, img, out); }
  }

  lemma SameNames(nodes: seq<Inode>, img: seq<Inode>, list: seq<nat>)
    requires nodes <= img && Below(list, |nodes|) && SortedList(nodes, list)
    ensures SortedList(img, list)
  {
  }

  ghost predicate ListOkParams(img: seq<Inode>, m: nat, m2: nat, p: nat) {
    m <= |img| && m2 <= |img| && p < |img|
  }

  lemma ListStays(img: seq<Inode>, list: seq<nat>, m: nat, k: nat, m2: nat, k2: nat, p: nat, x: nat)
    requires ListOkParams(img, m, m2, p) && ListOk(img, list, m, k, p) && Adds(img, m, k, m2, k2, x)
    requires img[p].IsDir() ==> img[x].parent != img[p].ino
    requires Kids(img, img[p].ino, m2, k2) == Kids(img, img[p].ino, m, k) + if img[x].parent == img[p].ino then 1 else 0
    ensures ListOk(img, list, m2, k2, p)
  {
    forall i: nat ensures Count(list, i) == if Belongs(img, m2, k2, p, i) then 1 else 0 {
      BelongsAdded(img, m, k, m2, k2, p, x, i);
    }
  }

  ghost predicate KidsAdd(img: seq<Inode>, m: nat, k: nat, m2: nat, k2: nat, x: nat)
    requires m <= |img| && m2 <= |img| && x < |img|
  {
    forall p | 0 <= p < |img| ::
      Kids(img, img[p].ino, m2, k2) == Kids(img, img[p].ino, m, k) + if img[x].parent == img[p].ino then 1 else 0
  }

  /** `j` is the only directory with its number. */
  ghost predicate OnlyDir(img: seq<Inode>, j: nat) {
    j < |img| && img[j].IsDir() && forall p | 0 <= p < |img| && p != j && img[p].IsDir() :: img[p].ino != img[j].ino
  }

  lemma DirIsOnly(img: seq<Inode>, j: nat, chunkSize: nat)
    requires chunkSize > 0 && Numbered(img, chunkSize) && j < |img| && img[j].IsDir()
    ensures OnlyDir(img, j)
  {
  }

  lemma ListsGrow(children: seq<seq<nat>>, img: seq<Inode>, n: nat, m: nat, k: nat, m2: nat, k2: nat, j: nat, x: nat)
    requires OnlyDir(img, j) && ListsOk(children, img, n, m, k)
    requires Adds(img, m, k, m2, k2, x) && KidsAdd(img, m, k, m2, k2, x)
    requires j < n && img[j].ino == img[x].parent && Below(children[j] + [x], n)
    ensures ListsOk(children[j := Grown(img[..n], children[j], img[j].childCnt, x)], img, n, m2, k2)
  {
    var after := children[j := Grown(img[..n], children[j], img[j].childCnt, x)];
    forall p | 0 <= p < n ensures ListOk(img, after[p], m2, k2, p) {
      if p == j {
        ListGrows(img, img[..n], children[j], m, k, m2, k2, j, x);
      } else {
        ListStays(img, children[p], m, k, m2, k2, p, x);
      }
    }
  }

  lemma ListsStay(children: seq<seq<nat>>, img: seq<Inode>, n: nat, m: nat, k: nat, m2: nat, k2: nat, x: nat)
    requires ListsOk(children, img, n, m, k)
    requires Adds(img, m, k, m2, k2, x) && KidsAdd(img, m, k, m2, k2, x)
    requires forall p | 0 <= p < n && img[p].IsDir() :: img[p].ino != img[x].parent
    ensures ListsOk(children, img, n, m2, k2)
  {
    forall p | 0 <= p < n ensures ListOk(img, children[p], m2, k2, p) {
      ListStays(img, children[p], m, k, m2, k2, p, x);
    }
  }

  /** Nothing precedes its parent, so a directory starts out without children. */
  lemma {:induction false} NoKidsYet(img: seq<Inode>, d: nat, m: nat, k: nat, chunkSize: nat)
    requires chunkSize > 0 && Numbered(img, chunkSize) && m <= d < |img| && img[d].IsDir()
    ensures Kids(img, img[d].ino, m, k) == 0
    ensures forall i: nat | i < m :: img[i].parent != img[d].ino
  {
    if m > 0 {
      NoKidsYet(img, d, m - 1, k, chunkSize);
      ParentIsEarlier(img, m - 1, d, chunkSize);
    }
  }

  lemma ParentIsEarlier(img: seq<Inode>, i: nat, d: nat, chunkSize: nat)
    requires chunkSize > 0 && Numbered(img, chunkSize) && i <= d < |img| && img[d].IsDir()
    ensures img[i].parent != img[d].ino
  {
    assert img[d].Validate(chunkSize);
    DirIsOnly(img, d, chunkSize);
    if img[i].parent != 0 {
      assert NamesEarlier(img, i);
      var j :| 0 <= j < i && img[j].ino == img[i].parent;
      assert img[j].ino != img[d].ino;
    }
  }

  lemma FirstListEmpty(children: seq<seq<nat>>, img: seq<Inode>, m: nat, chunkSize: nat)
    requires chunkSize > 0 && Numbered(img, chunkSize) && m < |img| && ListsOk(children, img, m, m, |img|)
    ensures ListsOk(children + [[]], img, m + 1, m, |img|)
  {
    if img[m].IsDir() { NoKidsYet(img, m, m, |img|, chunkSize); }
    assert ListOk(img, [], m, |img|, m);
    forall p | 0 <= p < m + 1 ensures ListOk(img, (children + [[]])[p], m, |img|, p) {
      if p < m { assert (children + [[]])[p] == children[p]; }
    }
  }

  // ----- Phase one ---------------------------------------------------------------------------------------

  /** Dropping a handle of an inode that has no children changes only its count. */
  lemma DropChildless(s: State, i: nat)
    requires s.Valid() && i < |s.nodes| && s.strong[i] >= 1 && s.children[i] == []
    ensures Drop(s, i) == s.(strong := s.strong[i := s.strong[i] - 1])
  {
    assert s.children[i := []] == s.children;
  }

  /** The state after `hash_inode`: the new inode has a handle for the caller, and a second one exactly
      if the map refers to it. */
  ghost predicate HashedHandles(t: State, img: seq<Inode>, m: nat) {
    && m < |img| && t.Valid() && t.nodes == img[..m + 1] && t.children[m] == []
    && (forall d | 0 <= d < m && img[d].IsDir() ::
          img[d].ino in t.table && t.table[img[d].ino] == d && t.strong[d] == 1)
    && (forall ino | ino in t.table :: img[t.table[ino]].ino == ino && t.strong[t.table[ino]] >= 1)
    && t.strong[m] == (if img[m].ino in t.table && t.table[img[m].ino] == m then 2 else 1)
    && (img[m].IsDir() ==> t.strong[m] == 2)
  }

  /** What `hash_inode` does for a well-formed image: it puts the inode into the map, in place of a
      file if its number was in use, or leaves the map alone. */
  ghost predicate HashShape(s: State, t: State, img: seq<Inode>, m: nat)
    requires m < |img|
  {
    var ino := img[m].ino;
    && t.Valid() && t.nodes == img[..m + 1] && t.children == s.children + [[]] && |s.strong| == m
    && if t.table == s.table && ino in s.table && !img[m].IsDir() then t.strong == s.strong + [1]
       else
         && t.table == s.table[ino := m]
         && t.strong == (if ino in s.table && s.table[ino] < m && s.strong[s.table[ino]] > 0
                         then s.strong[s.table[ino] := s.strong[s.table[ino]] - 1] else s.strong) + [2]
  }

  /** Only a childless inode can lose its place in the map, and none does to a directory. */
  ghost predicate Replaceable(s: State, inode: Inode) {
    inode.ino in s.table ==>
      var o := s.table[inode.ino];
      !inode.IsDir() && o < |s.nodes| == |s.strong| == |s.children| && s.children[o] == [] && s.strong[o] >= 1
  }

  lemma HashHasShape(s: State, img: seq<Inode>, m: nat)
    requires m < |img| && s.Valid() && s.nodes == img[..m] && Replaceable(s, img[m])
    ensures HashShape(s, HashInode(s, img[m]), img, m)
  {
    var inode := img[m];
    assert (s.strong + [1])[m := 2] == s.strong + [2];
    assert img[..m] + [inode] == img[..m + 1];
    if inode.ino in s.table && !(inode.IsHardlink() && s.nodes[s.table[inode.ino]].dataLen != 0) {
      var o := s.table[inode.ino];
      DropReplaced(s, inode, o);
    }
  }

  lemma DropReplaced(s: State, inode: Inode, o: nat)
    requires s.Valid() && inode.ino in s.table && s.table[inode.ino] == o && Replaceable(s, inode)
    requires !(inode.IsHardlink() && s.nodes[o].dataLen != 0)
    ensures var t := HashInode(s, inode);
            && t.children == s.children + [[]] && t.table == s.table[inode.ino := |s.nodes|]
            && t.strong == s.strong[o := s.strong[o] - 1] + [2]
  {
    var n := |s.nodes|;
    var a := State(s.nodes + [inode], s.strong + [2], s.children + [[]], s.table[inode.ino := n],
                   if s.maxInode < inode.ino then inode.ino else s.maxInode);
    assert (s.strong + [1])[n := 2] == s.strong + [2];
    assert a.Valid();
    DropChildless(a, o);
    assert (s.strong + [2])[o := s.strong[o] - 1] == s.strong[o := s.strong[o] - 1] + [2];
  }

  lemma ShapeIsHashed(s: State, t: State, img: seq<Inode>, m: nat)
    requires m < |img| && HandlesOk(s, img, m, |img|) && Replaceable(s, img[m])
    requires forall d | 0 <= d < m && img[d].IsDir() :: img[d].ino != img[m].ino
    requires HashShape(s, t, img, m)
    ensures HashedHandles(t, img, m)
  {
    forall d | 0 <= d < m && img[d].IsDir()
      ensures img[d].ino in t.table && t.table[img[d].ino] == d && t.strong[d] == 1
    {
      assert img[d].ino in s.table && s.table[img[d].ino] == d;
    }
    forall ino | ino in t.table ensures img[t.table[ino]].ino == ino && t.strong[t.table[ino]] >= 1 {
      if ino != img[m].ino { assert ino in s.table; }
    }
  }

  lemma CanReplace(s: State, img: seq<Inode>, m: nat, chunkSize: nat)
    requires chunkSize > 0 && Numbered(img, chunkSize) && m < |img| && Inv(s, img, m, |img|)
    ensures Replaceable(s, img[m]) && forall d | 0 <= d < m && img[d].IsDir() :: img[d].ino != img[m].ino
  {
    if img[m].ino in s.table {
      var o := s.table[img[m].ino];
      assert ListOk(img, s.children[o], m, |img|, o);
    }
  }

  lemma HashKeeps(s: State, img: seq<Inode>, m: nat, chunkSize: nat)
    requires chunkSize > 0 && Numbered(img, chunkSize) && m < |img| && Inv(s, img, m, |img|)
    ensures var t := HashInode(s, img[m]); HashedHandles(t, img, m) && ListsOk(t.children, img, m + 1, m, |img|)
  {
    CanReplace(s, img, m, chunkSize);
    FirstListEmpty(s.children, img, m, chunkSize);
    HashHasShape(s, img, m);
    ShapeIsHashed(s, HashInode(s, img[m]), img, m);
  }

  /** The inode number 0 is not in the map. */
  lemma NoZero(table: map<nat, nat>, img: seq<Inode>, chunkSize: nat)
    requires chunkSize > 0 && Numbered(img, chunkSize)
    requires forall ino | ino in table :: table[ino] < |img| && img[table[ino]].ino == ino
    ensures 0 !in table && forall p | 0 <= p < |img| :: img[p].ino != 0
  {
  }

  lemma LoadDirKeeps(t: State, img: seq<Inode>, m: nat)
    requires HashedHandles(t, img, m) && ListsOk(t.children, img, m + 1, m, |img|) && img[m].IsDir()
    ensures Inv(Drop(t, m), img, m + 1, |img|)
  {
    DropChildless(t, m);
    DirNotAttached(t.children, img, m);
  }

  lemma DirNotAttached(children: seq<seq<nat>>, img: seq<Inode>, m: nat)
    requires m < |img| && ListsOk(children, img, m + 1, m, |img|) && img[m].IsDir()
    ensures ListsOk(children, img, m + 1, m + 1, |img|)
  {
    forall p | 0 <= p < m + 1 ensures ListOk(img, children[p], m + 1, |img|, p) {
      assert ListOk(img, children[p], m, |img|, p);
      forall i: nat ensures Count(children[p], i) == if Belongs(img, m + 1, |img|, p, i) then 1 else 0 {
        assert Belongs(img, m + 1, |img|, p, i) == Belongs(img, m, |img|, p, i);
      }
    }
  }

  lemma LoadRootFileKeeps(t: State, img: seq<Inode>, m: nat)
    requires HashedHandles(t, img, m) && ListsOk(t.children, img, m + 1, m, |img|)
    requires !img[m].IsDir() && img[m].parent == 0 && 0 !in t.table && forall p | 0 <= p < |img| :: img[p].ino != 0
    ensures AddIntoParent(t, m) == Ok(Drop(t, m)) && Inv(Drop(t, m), img, m + 1, |img|)
  {
    DropChildless(t, m);
    assert Adds(img, m, |img|, m + 1, |img|, m) && KidsAdd(img, m, |img|, m + 1, |img|, m);
    ListsStay(t.children, img, m + 1, m, |img|, m + 1, |img|, m);
  }

  lemma AddChildKeepsHandles(t: State, img: seq<Inode>, m: nat, j: nat)
    requires HashedHandles(t, img, m) && !img[m].IsDir() && j < m && img[j].IsDir() && img[j].ino == img[m].parent
    ensures AddIntoParent(t, m) == Ok(AddChild(t, j, m)) && HandlesOk(AddChild(t, j, m), img, m + 1, |img|)
  {
  }

  lemma AddChildKeepsLists(t: State, img: seq<Inode>, m: nat, j: nat)
    requires m < |img| && t.Valid() && t.nodes == img[..m + 1] && ListsOk(t.children, img, m + 1, m, |img|)
    requires !img[m].IsDir() && j < m && OnlyDir(img, j) && img[j].ino == img[m].parent
    ensures ListsOk(AddChild(t, j, m).children, img, m + 1, m + 1, |img|)
  {
    assert Adds(img, m, |img|, m + 1, |img|, m) && KidsAdd(img, m, |img|, m + 1, |img|, m);
    ListsGrow(t.children, img, m + 1, m, |img|, m + 1, |img|, j, m);
  }

  lemma LoadFileKeeps(t: State, img: seq<Inode>, m: nat, j: nat)
    requires HashedHandles(t, img, m) && ListsOk(t.children, img, m + 1, m, |img|)
    requires !img[m].IsDir() && j < m && OnlyDir(img, j) && img[j].ino == img[m].parent
    ensures AddIntoParent(t, m) == Ok(AddChild(t, j, m)) && Inv(AddChild(t, j, m), img, m + 1, |img|)
  {
    AddChildKeepsHandles(t, img, m, j);
    AddChildKeepsLists(t, img, m, j);
  }

  /** Loading the next inode succeeds and keeps the invariant. */
  lemma LoadOneKeeps(s: State, img: seq<Inode>, m: nat, chunkSize: nat)
    requires chunkSize > 0 && Numbered(img, chunkSize) && m < |img| && Inv(s, img, m, |img|)
    requires img[m].IsDir() || GoodParent(img, m)
    ensures LoadOne(s, img[m]).Ok? && Inv(LoadOne(s, img[m]).value, img, m + 1, |img|)
  {
    HashKeeps(s, img, m, chunkSize);
    var t := HashInode(s, img[m]);
    if img[m].IsDir() {
      LoadDirKeeps(t, img, m);
    } else if img[m].parent == 0 {
      NoZero(t.table, img, chunkSize);
      LoadRootFileKeeps(t, img, m);
    } else {
      assert HasParent(img, m);
      var j :| 0 <= j < m && img[j].IsDir() && img[j].ino == img[m].parent;
      DirIsOnly(img, j, chunkSize);
      LoadFileKeeps(t, img, m, j);
    }
  }

  lemma {:induction false} LoadKeeps(s: State, img: seq<Inode>, m: nat, chunkSize: nat)
    requires chunkSize > 0 && Numbered(img, chunkSize) && m <= |img| && Inv(s, img, m, |img|)
    requires forall i | m <= i < |img| && !img[i].IsDir() :: GoodParent(img, i)
    ensures LoadFrom(s, img[m..], chunkSize).Ok? && Inv(LoadFrom(s, img[m..], chunkSize).value, img, |img|, |img|)
    decreases |img| - m
  {
    if m < |img| {
      LoadOneKeeps(s, img, m, chunkSize);
      assert img[m..][1..] == img[m + 1..];
      LoadKeeps(LoadOne(s, img[m]).value, img, m + 1, chunkSize);
    }
  }

  // ----- Phase two ---------------------------------------------------------------------------------------

  lemma KidsAddDir(img: seq<Inode>, k: nat)
    requires k < |img| && img[k].IsDir()
    ensures KidsAdd(img, |img|, k + 1, |img|, k, k)
  {
    forall p | 0 <= p < |img|
      ensures Kids(img, img[p].ino, |img|, k) ==
              Kids(img, img[p].ino, |img|, k + 1) + if img[k].parent == img[p].ino then 1 else 0
    {
      KidsOfAdded(img, img[p].ino, |img|, k);
    }
  }

  lemma AttachRootKeeps(s: State, img: seq<Inode>, k: nat)
    requires k < |img| && img[k].IsDir() && Inv(s, img, |img|, k + 1)
    requires img[k].parent == 0 && 0 !in s.table && forall p | 0 <= p < |img| :: img[p].ino != 0
    ensures AttachDir(s, img[k].ino).Ok? && Inv(AttachDir(s, img[k].ino).value, img, |img|, k)
  {
    assert s.table[img[k].ino] == k && s.strong[k] == 1;
    assert s.strong[k := 2][k := 1] == s.strong;
    KidsAddDir(img, k);
    ListsStay(s.children, img, |img|, |img|, k + 1, |img|, k, k);
    assert AttachDir(s, img[k].ino) == Ok(s);
  }

  lemma AttachKeepsHandles(s: State, img: seq<Inode>, k: nat, j: nat)
    requires k < |img| && img[k].IsDir() && HandlesOk(s, img, |img|, k + 1)
    requires j < k && img[j].IsDir() && img[j].ino == img[k].parent
    ensures AttachDir(s, img[k].ino) == Ok(AddChild(s.(strong := s.strong[k := 2]), j, k))
    ensures HandlesOk(AddChild(s.(strong := s.strong[k := 2]), j, k), img, |img|, k)
  {
    assert s.table[img[k].ino] == k && s.strong[k] == 1;
  }

  /** Attaching directory `k`: its parent comes earlier, so it is not attached yet and unshared. */
  lemma AttachDirKeeps(s: State, img: seq<Inode>, k: nat, chunkSize: nat)
    requires chunkSize > 0 && Numbered(img, chunkSize) && k < |img| && img[k].IsDir() && Inv(s, img, |img|, k + 1)
    requires GoodParent(img, k)
    ensures AttachDir(s, img[k].ino).Ok? && Inv(AttachDir(s, img[k].ino).value, img, |img|, k)
  {
    if img[k].parent == 0 {
      NoZero(s.table, img, chunkSize);
      AttachRootKeeps(s, img, k);
    } else {
      assert HasParent(img, k);
      var j :| 0 <= j < k && img[j].IsDir() && img[j].ino == img[k].parent;
      AttachKeepsHandles(s, img, k, j);
      DirIsOnly(img, j, chunkSize);
      AttachKeepsLists(s, img, k, j);
    }
  }

  lemma AttachKeepsLists(s: State, img: seq<Inode>, k: nat, j: nat)
    requires k < |img| && img[k].IsDir() && s.Valid() && s.nodes == img && ListsOk(s.children, img, |img|, |img|, k + 1)
    requires j < k && OnlyDir(img, j) && img[j].ino == img[k].parent
    ensures ListsOk(AddChild(s.(strong := s.strong[k := 2]), j, k).children, img, |img|, |img|, k)
  {
    KidsAddDir(img, k);
    assert img[..|img|] == img;
    assert Adds(img, |img|, k + 1, |img|, k, k);
    ListsGrow(s.children, img, |img|, |img|, k + 1, |img|, k, j, k);
  }

  lemma SkipFileKeeps(s: State, img: seq<Inode>, k: nat)
    requires k < |img| && !img[k].IsDir() && Inv(s, img, |img|, k + 1)
    ensures Inv(s, img, |img|, k)
  {
    forall p | 0 <= p < |img| ensures ListOk(img, s.children[p], |img|, k, p) {
      assert ListOk(img, s.children[p], |img|, k + 1, p);
      KidsOfAdded(img, img[p].ino, |img|, k);
      forall i: nat ensures Count(s.children[p], i) == if Belongs(img, |img|, k, p, i) then 1 else 0 {
        assert Belongs(img, |img|, k, p, i) == Belongs(img, |img|, k + 1, p, i);
      }
    }
  }

  lemma AttachLast(s: State, rest: seq<nat>, ino: nat)
    requires s.Valid() && AttachDir(s, ino).Ok?
    ensures AttachDirs(s, rest + [ino]) == AttachDirs(AttachDir(s, ino).value, rest)
  {
    assert (rest + [ino])[..|rest|] == rest;
  }

  lemma AttachLastFails(s: State, rest: seq<nat>, ino: nat)
    requires s.Valid() && AttachDir(s, ino).Err?
    ensures AttachDirs(s, rest + [ino]) == Err(AttachDir(s, ino).error)
  {
  }

  lemma DirInosLast(img: seq<Inode>, k: nat)
    requires 0 < k <= |img|
    ensures DirInos(img[..k]) == DirInos(img[..k - 1]) + if img[k - 1].IsDir() then [img[k - 1].ino] else []
  {
    assert img[..k][..k - 1] == img[..k - 1];
  }

  /** All directories below `k` can be attached, from the last to the first. */
  lemma {:induction false} AttachKeeps(s: State, img: seq<Inode>, inos: seq<nat>, k: nat, chunkSize: nat)
    requires chunkSize > 0 && WellFormed(img, chunkSize) && k <= |img| && Inv(s, img, |img|, k)
    requires inos == DirInos(img[..k])
    ensures AttachDirs(s, inos).Ok? && Inv(AttachDirs(s, inos).value, img, |img|, 0)
    decreases k
  {
    if k > 0 {
      var rest := DirInos(img[..k - 1]);
      DirInosLast(img, k);
      if img[k - 1].IsDir() {
        AttachDirKeeps(s, img, k - 1, chunkSize);
        AttachLast(s, rest, img[k - 1].ino);
        AttachKeeps(AttachDir(s, img[k - 1].ino).value, img, rest, k - 1, chunkSize);
      } else {
        SkipFileKeeps(s, img, k - 1);
        assert rest == inos;
        AttachKeeps(s, img, inos, k - 1, chunkSize);
      }
    } else {
      assert inos == [];
    }
  }

  // ----- The result ----------------------------------------------------------------------------------------

  /** Every inode is in its parent's list, once, and in no other; complete lists are sorted by name. */
  ghost predicate Loaded(s: State, img: seq<Inode>) {
    && s.Valid() && s.nodes == img
    && (forall d | 0 <= d < |img| && img[d].IsDir() :: img[d].ino in s.table && s.table[img[d].ino] == d)
    && (forall p, i: nat | 0 <= p < |img| && i < |img| ::
          Count(s.children[p], i) == if img[p].IsDir() && img[i].parent == img[p].ino then 1 else 0)
    && (forall p | 0 <= p < |img| :: |s.children[p]| == img[p].childCnt ==> SortedList(img, s.children[p]))
  }

  /** The number of inodes that name `ino` as their parent. */
  ghost function ChildrenOf(img: seq<Inode>, ino: nat): nat {
    Kids(img, ino, |img|, 0)
  }

  lemma PhaseOne(img: seq<Inode>, chunkSize: nat)
    requires chunkSize > 0 && WellFormed(img, chunkSize)
    ensures LoadFrom(EMPTY, img, chunkSize).Ok? && Inv(LoadFrom(EMPTY, img, chunkSize).value, img, |img|, |img|)
  {
    assert Inv(EMPTY, img, 0, |img|);
    assert img[0..] == img;
    LoadKeeps(EMPTY, img, 0, chunkSize);
  }

  lemma BothPhases(img: seq<Inode>, chunkSize: nat)
    requires chunkSize > 0 && WellFormed(img, chunkSize)
    ensures LoadAll(img, chunkSize).Ok? && Inv(LoadAll(img, chunkSize).value, img, |img|, 0)
  {
    PhaseOne(img, chunkSize);
    assert img[..|img|] == img;
    var s := LoadFrom(EMPTY, img, chunkSize).value;
    AttachKeeps(s, img, DirInos(img), |img|, chunkSize);
    assert LoadAll(img, chunkSize) == AttachDirs(s, DirInos(img));
  }

  /** For every well-formed image the two phases never meet a shared parent, and the lists are complete.
      With correct child counts every directory ends up with a name-sorted permutation of its children. */
  lemma LoadIsSafeAndComplete(img: seq<Inode>, chunkSize: nat)
    requires chunkSize > 0 && WellFormed(img, chunkSize)
    ensures LoadAll(img, chunkSize).Ok? && Loaded(LoadAll(img, chunkSize).value, img)
    ensures forall p | 0 <= p < |img| && img[p].IsDir() && img[p].childCnt == ChildrenOf(img, img[p].ino) ::
              var list := LoadAll(img, chunkSize).value.children[p];
              |list| == img[p].childCnt && SortedList(img, list)
  {
    BothPhases(img, chunkSize);
    LoadedFromInv(LoadAll(img, chunkSize).value, img);
  }

  lemma LoadedFromInv(s: State, img: seq<Inode>)
    requires Inv(s, img, |img|, 0)
    ensures Loaded(s, img)
    ensures forall p | 0 <= p < |img| && img[p].IsDir() && img[p].childCnt == ChildrenOf(img, img[p].ino) ::
              |s.children[p]| == img[p].childCnt && SortedList(img, s.children[p])
  {
    assert img[..|img|] == img;
    forall p, i: nat | 0 <= p < |img| && i < |img|
      ensures Count(s.children[p], i) == if img[p].IsDir() && img[i].parent == img[p].ino then 1 else 0
    {
      assert ListOk(img, s.children[p], |img|, 0, p);
      assert Belongs(img, |img|, 0, p, i) == (img[p].IsDir() && img[i].parent == img[p].ino);
    }
    forall p | 0 <= p < |img|
      ensures |s.children[p]| == img[p].childCnt ==> SortedList(img, s.children[p])
      ensures img[p].IsDir() ==> |s.children[p]| == ChildrenOf(img, img[p].ino)
    {
      assert ListOk(img, s.children[p], |img|, 0, p);
    }
  }

  function Larger(a: nat, b: nat): nat { if a < b then b else a }

  ghost function MaxIno(img: seq<Inode>, least: nat): nat {
    if img == [] then least else MaxIno(img[1..], Larger(least, img[0].ino))
  }

  lemma {:induction false} MaxInoBounds(img: seq<Inode>, least: nat)
    ensures least <= MaxIno(img, least) && forall i | 0 <= i < |img| :: img[i].ino <= MaxIno(img, least)
    ensures MaxIno(img, least) == least || exists i | 0 <= i < |img| :: img[i].ino == MaxIno(img, least)
    decreases img
  {
    if img != [] {
      var l := Larger(least, img[0].ino);
      MaxInoBounds(img[1..], l);
      forall i | 0 < i < |img| ensures img[i].ino <= MaxIno(img, least) { assert img[i] == img[1..][i - 1]; }
      if MaxIno(img, least) != l {
        var i :| 0 <= i < |img[1..]| && img[1..][i].ino == MaxIno(img, least);
        assert img[i + 1].ino == MaxIno(img, least);
      }
    }
  }

  /** Every number of the image is in the map at the end. */
  lemma {:induction false} NumbersStay(s: State, img: seq<Inode>, chunkSize: nat)
    requires s.Valid() && chunkSize > 0 && LoadFrom(s, img, chunkSize).Ok?
    ensures var t := LoadFrom(s, img, chunkSize).value;
            s.table.Keys <= t.table.Keys && forall i | 0 <= i < |img| :: img[i].ino in t.table
    decreases img
  {
    if img != [] {
      var next := LoadOne(s, img[0]).value;
      assert next.table == HashInode(s, img[0]).table;
      NumbersStay(next, img[1..], chunkSize);
      forall i | 0 <= i < |img| ensures img[i].ino in LoadFrom(s, img, chunkSize).value.table {
        if i == 0 {
          assert img[0].ino in next.table.Keys;
        } else {
          assert img[i] == img[1..][i - 1];
        }
      }
    }
  }

  /** `max_inode` ends up as the largest inode number of the image, and at least that of the root. */
  lemma {:induction false} MaxInode(s: State, img: seq<Inode>, chunkSize: nat)
    requires s.Valid() && chunkSize > 0
    ensures LoadFrom(s, img, chunkSize).Ok? ==> LoadFrom(s, img, chunkSize).value.maxInode == MaxIno(img, s.maxInode)
    decreases img
  {
    if img != [] && img[0].Validate(chunkSize) && LoadOne(s, img[0]).Ok? {
      var t := LoadOne(s, img[0]).value;
      assert t.maxInode == Larger(s.maxInode, img[0].ino);
      MaxInode(t, img[1..], chunkSize);
    }
  }

  /** A hardlinked inode that has its data keeps its place in the map, whatever other links follow. */
  lemma {:induction false} HardlinkKeepsData(s: State, img: seq<Inode>, chunkSize: nat, ino: nat)
    requires s.Valid() && chunkSize > 0 && ino in s.table && s.nodes[s.table[ino]].dataLen > 0
    requires forall i | 0 <= i < |img| && img[i].ino == ino :: img[i].IsHardlink()
    ensures match LoadFrom(s, img, chunkSize)
            case Ok(t) => ino in t.table && t.table[ino] == s.table[ino]
            case Err(_) => true
    decreases img
  {
    if img != [] && img[0].Validate(chunkSize) && LoadOne(s, img[0]).Ok? {
      var t := LoadOne(s, img[0]).value;
      assert t.table == HashInode(s, img[0]).table;
      HardlinkKeepsData(t, img[1..], chunkSize, ino);
    }
  }

  // ----- Validation ------------------------------------------------------------------------------------------

  /** Loading gets past an image only if every inode of it is valid. */
  lemma {:induction false} LoadedIsSane(s: State, img: seq<Inode>, chunkSize: nat, i: nat)
    requires s.Valid() && chunkSize > 0 && LoadFrom(s, img, chunkSize).Ok? && i < |img|
    ensures Sane(img[i], chunkSize)
    decreases img
  {
    ValidIsSane(img[0], chunkSize);
    if i > 0 { LoadedIsSane(LoadOne(s, img[0]).value, img[1..], chunkSize, i - 1); }
  }

  lemma {:induction false} LoadFromSplits(s: State, a: seq<Inode>, b: seq<Inode>, chunkSize: nat)
    requires s.Valid() && chunkSize > 0 && LoadFrom(s, a, chunkSize).Ok?
    ensures LoadFrom(s, a + b, chunkSize) == LoadFrom(LoadFrom(s, a, chunkSize).value, b, chunkSize)
    decreases a
  {
    if a == [] {
      assert a + b == b;
    } else {
      assert (a + b)[0] == a[0] && (a + b)[1..] == a[1..] + b;
      LoadFromSplits(LoadOne(s, a[0]).value, a[1..], b, chunkSize);
    }
  }

  /** The first inode that is not valid ends it with EINVAL. */
  lemma InsaneIsRefused(img: seq<Inode>, chunkSize: nat, i: nat)
    requires chunkSize > 0 && i < |img| && LoadFrom(EMPTY, img[..i], chunkSize).Ok? && !Sane(img[i], chunkSize)
    ensures LoadAll(img, chunkSize) == Err(EINVAL)
  {
    ValidIsSane(img[i], chunkSize);
    assert img == img[..i] + img[i..];
    LoadFromSplits(EMPTY, img[..i], img[i..], chunkSize);
  }

  /** A number is taken over by the next inode that has it, except by a link to an inode with data. */
  lemma HashTakesOver(s: State, inode: Inode)
    requires s.Valid()
    ensures var t := HashInode(s, inode);
            && inode.ino in t.table
            && (t.table[inode.ino] == |s.nodes| <==>
                !(!inode.IsDir() && inode.nlink > 1 && inode.ino in s.table && s.nodes[s.table[inode.ino]].dataLen > 0))
            && forall ino | ino != inode.ino :: ino in t.table <==> ino in s.table
  {
  }

  // ----- Parents that are not directories -------------------------------------------------------------------

  /** Every number loaded so far is in the map, and the files there are shared with their parent. */
  ghost predicate FilesShared(s: State, img: seq<Inode>, m: nat) {
    && s.Valid() && m <= |img| && |s.nodes| == m
    && (forall i | 0 <= i < m :: img[i].ino in s.table)
    && (forall ino | ino in s.table :: !img[s.table[ino]].IsDir() ==> s.strong[s.table[ino]] >= 2)
  }

  ghost predicate RootsAreDirs(img: seq<Inode>) {
    forall i | 0 <= i < |img| && img[i].parent == 0 :: img[i].IsDir()
  }

  /** Hashing keeps this, and the new inode is shared if the map refers to it. */
  lemma HashShares(s: State, img: seq<Inode>, m: nat, chunkSize: nat)
    requires chunkSize > 0 && Numbered(img, chunkSize) && m < |img| && Inv(s, img, m, |img|) && FilesShared(s, img, m)
    ensures var t := HashInode(s, img[m]); HashedHandles(t, img, m) && FilesShared(t, img, m + 1)
  {
    HashKeeps(s, img, m, chunkSize);
    CanReplace(s, img, m, chunkSize);
    HashHasShape(s, img, m);
    SharesAfterHash(s, HashInode(s, img[m]), img, m);
  }

  lemma SharesAfterHash(s: State, t: State, img: seq<Inode>, m: nat)
    requires m < |img| && HandlesOk(s, img, m, |img|) && FilesShared(s, img, m) && HashShape(s, t, img, m)
    requires t.table == s.table || t.table == s.table[img[m].ino := m]
    ensures FilesShared(t, img, m + 1)
  {
    var ino := img[m].ino;
    forall i | 0 <= i < m + 1 ensures img[i].ino in t.table {
      if i < m { assert img[i].ino in s.table; }
    }
    forall x | x in t.table && !img[t.table[x]].IsDir() ensures t.strong[t.table[x]] >= 2 {
      if t.table[x] != m {
        assert x in s.table && t.table[x] == s.table[x] && img[s.table[x]].ino == x;
        if ino in s.table && t.table != s.table { assert img[s.table[ino]].ino == ino; }
      }
    }
  }

  /** Loading a directory, or a file below one, keeps files shared. */
  lemma LoadOneShares(s: State, img: seq<Inode>, m: nat, chunkSize: nat)
    requires chunkSize > 0 && Numbered(img, chunkSize) && m < |img| && Inv(s, img, m, |img|) && FilesShared(s, img, m)
    requires img[m].IsDir() || (img[m].parent != 0 && GoodParent(img, m))
    ensures LoadOne(s, img[m]).Ok? && FilesShared(LoadOne(s, img[m]).value, img, m + 1)
  {
    LoadOneKeeps(s, img, m, chunkSize);
    HashShares(s, img, m, chunkSize);
    var t := HashInode(s, img[m]);
    if img[m].IsDir() {
      DropChildless(t, m);
      forall x | x in t.table && !img[t.table[x]].IsDir() ensures Drop(t, m).strong[t.table[x]] >= 2 {
        assert t.table[x] != m;
      }
    } else {
      var j :| 0 <= j < m && img[j].IsDir() && img[j].ino == img[m].parent;
      assert img[j].ino in t.table && t.table[img[j].ino] == j;
    }
  }

  /** The number of a bad parent belongs to files only. */
  lemma BadParentIsFile(img: seq<Inode>, i: nat, j: nat, chunkSize: nat)
    requires chunkSize > 0 && Numbered(img, chunkSize) && i < |img| && !GoodParent(img, i) && j < |img|
    requires img[j].ino == img[i].parent
    ensures !img[j].IsDir()
  {
    assert NamesEarlier(img, i);
    var e :| 0 <= e < i && img[e].ino == img[i].parent;
  }

  /** A parent that is a file is shared, so it takes no child. */
  lemma FileTakesNoChild(t: State, img: seq<Inode>, m: nat, i: nat, chunkSize: nat)
    requires chunkSize > 0 && Numbered(img, chunkSize) && FilesShared(t, img, m) && t.nodes == img[..m]
    requires i < m && !GoodParent(img, i)
    requires forall ino | ino in t.table :: img[t.table[ino]].ino == ino
    ensures AddIntoParent(t, i) == Err(AssertFailed)
  {
    assert NamesEarlier(img, i);
    var e :| 0 <= e < i && img[e].ino == img[i].parent;
    assert img[e].ino in t.table;
    BadParentIsFile(img, i, t.table[img[i].parent], chunkSize);
  }

  lemma LoadBadFile(s: State, img: seq<Inode>, m: nat, chunkSize: nat)
    requires chunkSize > 0 && Numbered(img, chunkSize) && m < |img| && Inv(s, img, m, |img|) && FilesShared(s, img, m)
    requires !img[m].IsDir() && !GoodParent(img, m)
    ensures LoadOne(s, img[m]) == Err(AssertFailed)
  {
    HashShares(s, img, m, chunkSize);
    FileTakesNoChild(HashInode(s, img[m]), img, m + 1, m, chunkSize);
  }

  /** What the first loop keeps. */
  ghost predicate Loading(s: State, img: seq<Inode>, m: nat) {
    Inv(s, img, m, |img|) && FilesShared(s, img, m)
  }

  lemma PhaseOneStep(s: State, img: seq<Inode>, m: nat, chunkSize: nat) returns (bad: bool)
    requires chunkSize > 0 && Numbered(img, chunkSize) && RootsAreDirs(img) && m < |img| && Loading(s, img, m)
    ensures s.Valid() && img[m].Validate(chunkSize) && bad == (!img[m].IsDir() && !GoodParent(img, m))
    ensures bad ==> LoadOne(s, img[m]) == Err(AssertFailed)
    ensures !bad ==> LoadOne(s, img[m]).Ok? && Loading(LoadOne(s, img[m]).value, img, m + 1)
  {
    bad := !img[m].IsDir() && !GoodParent(img, m);
    if bad {
      LoadBadFile(s, img, m, chunkSize);
    } else {
      LoadOneKeeps(s, img, m, chunkSize);
      LoadOneShares(s, img, m, chunkSize);
    }
  }

  /** The first loop fails at the first file with a bad parent, and otherwise ends with all files shared. */
  lemma {:induction false} PhaseOneExactly(s: State, img: seq<Inode>, m: nat, chunkSize: nat)
    requires chunkSize > 0 && Numbered(img, chunkSize) && RootsAreDirs(img) && m <= |img| && Loading(s, img, m)
    ensures s.Valid()
    ensures BadFileFrom(img, m) ==> LoadFrom(s, img[m..], chunkSize) == Err(AssertFailed)
    ensures !BadFileFrom(img, m) ==>
              LoadFrom(s, img[m..], chunkSize).Ok? && Loading(LoadFrom(s, img[m..], chunkSize).value, img, |img|)
    decreases |img| - m
  {
    if m < |img| {
      var bad := PhaseOneStep(s, img, m, chunkSize);
      assert img[m..][0] == img[m] && img[m..][1..] == img[m + 1..];
      if !bad { PhaseOneExactly(LoadOne(s, img[m]).value, img, m + 1, chunkSize); }
    }
  }

  /** Attaching a directory below a file fails. */
  lemma AttachBad(s: State, img: seq<Inode>, k: nat, chunkSize: nat)
    requires chunkSize > 0 && Numbered(img, chunkSize) && k < |img| && img[k].IsDir() && !GoodParent(img, k)
    requires HandlesOk(s, img, |img|, k + 1) && FilesShared(s, img, |img|)
    ensures AttachDir(s, img[k].ino) == Err(AssertFailed)
  {
    assert img[..|img|] == img;
    assert s.table[img[k].ino] == k && s.strong[k] == 1;
    FileTakesNoChild(s.(strong := s.strong[k := 2]), img, |img|, k, chunkSize);
  }

  lemma AttachGood(s: State, img: seq<Inode>, k: nat, chunkSize: nat)
    requires chunkSize > 0 && Numbered(img, chunkSize) && k < |img| && img[k].IsDir() && GoodParent(img, k)
    requires Ready(s, img, k + 1)
    ensures AttachDir(s, img[k].ino).Ok? && Ready(AttachDir(s, img[k].ino).value, img, k)
  {
    assert s.table[img[k].ino] == k && s.strong[k] == 1;
    AttachDirKeeps(s, img, k, chunkSize);
    AttachSharesFiles(s, img, k);
  }

  ghost predicate Ready(s: State, img: seq<Inode>, k: nat) {
    Inv(s, img, |img|, k) && FilesShared(s, img, |img|)
  }

  /** Attaching changes no other count. */
  lemma AttachEffect(s: State, ino: nat, k: nat)
    requires s.Valid() && ino in s.table && s.table[ino] == k && s.strong[k] == 1 && AttachDir(s, ino).Ok?
    ensures var r := AttachDir(s, ino).value;
            && r.table == s.table && |r.strong| == |s.strong|
            && forall i | 0 <= i < |s.strong| && i != k :: r.strong[i] == s.strong[i]
  {
    var t := s.(strong := s.strong[k := 2]);
    if s.nodes[k].parent !in s.table { assert Drop(t, k) == t.(strong := t.strong[k := 1]); }
  }

  lemma AttachSharesFiles(s: State, img: seq<Inode>, k: nat)
    requires k < |img| && img[k].IsDir() && FilesShared(s, img, |img|)
    requires img[k].ino in s.table && s.table[img[k].ino] == k && s.strong[k] == 1
    requires AttachDir(s, img[k].ino).Ok?
    ensures FilesShared(AttachDir(s, img[k].ino).value, img, |img|)
  {
    AttachEffect(s, img[k].ino, k);
  }

  ghost predicate BadFileFrom(img: seq<Inode>, m: nat)
    decreases |img| - m
  {
    m < |img| && ((!img[m].IsDir() && !GoodParent(img, m)) || BadFileFrom(img, m + 1))
  }

  ghost predicate BadDirBelow(img: seq<Inode>, k: nat)
    requires k <= |img|
  {
    k > 0 && ((img[k - 1].IsDir() && !GoodParent(img, k - 1)) || BadDirBelow(img, k - 1))
  }

  lemma {:induction false} BadFiles(img: seq<Inode>, m: nat)
    requires m <= |img|
    ensures BadFileFrom(img, m) <==> exists i | m <= i < |img| :: !img[i].IsDir() && !GoodParent(img, i)
    decreases |img| - m
  {
    if m < |img| { BadFiles(img, m + 1); }
  }

  lemma {:induction false} BadDirs(img: seq<Inode>, k: nat)
    requires k <= |img|
    ensures BadDirBelow(img, k) <==> exists i | 0 <= i < k :: img[i].IsDir() && !GoodParent(img, i)
  {
    if k > 0 { BadDirs(img, k - 1); }
  }

  lemma PhaseTwoDir(s: State, img: seq<Inode>, rest: seq<nat>, k: nat, chunkSize: nat) returns (t: State)
    requires chunkSize > 0 && Numbered(img, chunkSize) && k < |img| && img[k].IsDir() && GoodParent(img, k)
    requires Ready(s, img, k + 1)
    ensures Ready(t, img, k) && s.Valid() && AttachDirs(s, rest + [img[k].ino]) == AttachDirs(t, rest)
  {
    AttachGood(s, img, k, chunkSize);
    AttachLast(s, rest, img[k].ino);
    t := AttachDir(s, img[k].ino).value;
  }

  lemma PhaseTwoFails(s: State, img: seq<Inode>, rest: seq<nat>, k: nat, chunkSize: nat)
    requires chunkSize > 0 && Numbered(img, chunkSize) && k < |img| && img[k].IsDir() && !GoodParent(img, k)
    requires Ready(s, img, k + 1)
    ensures s.Valid() && AttachDirs(s, rest + [img[k].ino]) == Err(AssertFailed)
  {
    AttachBad(s, img, k, chunkSize);
    AttachLastFails(s, rest, img[k].ino);
  }

  lemma SkipFileReady(s: State, img: seq<Inode>, k: nat)
    requires k < |img| && !img[k].IsDir() && Ready(s, img, k + 1)
    ensures Ready(s, img, k)
  {
    SkipFileKeeps(s, img, k);
  }

  /** One turn of the second loop, or none if `k` is a file. */
  lemma PhaseTwoStep(s: State, img: seq<Inode>, k: nat, chunkSize: nat) returns (t: State, bad: bool)
    requires chunkSize > 0 && Numbered(img, chunkSize) && k < |img| && Ready(s, img, k + 1)
    ensures s.Valid() && bad == (img[k].IsDir() && !GoodParent(img, k))
    ensures bad ==> AttachDirs(s, DirInos(img[..k + 1])) == Err(AssertFailed)
    ensures !bad ==> Ready(t, img, k) && AttachDirs(s, DirInos(img[..k + 1])) == AttachDirs(t, DirInos(img[..k]))
  {
    var rest := DirInos(img[..k]);
    DirInosLast(img, k + 1);
    t, bad := s, false;
    if !img[k].IsDir() {
      SkipFileReady(s, img, k);
      assert rest + [] == rest;
    } else if GoodParent(img, k) {
      t := PhaseTwoDir(s, img, rest, k, chunkSize);
    } else {
      bad := true;
      PhaseTwoFails(s, img, rest, k, chunkSize);
    }
  }

  /** The second loop fails at the last directory with a bad parent. */
  lemma {:induction false} PhaseTwoExactly(s: State, img: seq<Inode>, k: nat, chunkSize: nat)
    requires chunkSize > 0 && Numbered(img, chunkSize) && k <= |img| && Ready(s, img, k)
    ensures s.Valid()
    ensures BadDirBelow(img, k) ==> AttachDirs(s, DirInos(img[..k])) == Err(AssertFailed)
    ensures !BadDirBelow(img, k) ==> AttachDirs(s, DirInos(img[..k])).Ok?
    decreases k
  {
    if k > 0 {
      var t, bad := PhaseTwoStep(s, img, k - 1, chunkSize);
      if !bad { PhaseTwoExactly(t, img, k - 1, chunkSize); }
    }
  }

  lemma SomeBad(img: seq<Inode>)
    ensures BadFileFrom(img, 0) || BadDirBelow(img, |img|) <==> exists i | 0 <= i < |img| :: !GoodParent(img, i)
  {
    BadFiles(img, 0);
    BadDirs(img, |img|);
  }

  lemma PhaseOneOutcome(img: seq<Inode>, chunkSize: nat)
    requires chunkSize > 0 && Numbered(img, chunkSize) && RootsAreDirs(img)
    ensures var r := LoadFrom(EMPTY, img, chunkSize);
            if BadFileFrom(img, 0) then r == Err(AssertFailed) else r.Ok? && Ready(r.value, img, |img|)
  {
    assert Inv(EMPTY, img, 0, |img|) && FilesShared(EMPTY, img, 0);
    assert img[0..] == img;
    PhaseOneExactly(EMPTY, img, 0, chunkSize);
  }

  /** Loading trips the assertion about unshared parents exactly if some parent is not a directory: a
      file that has been attached is shared, and cannot take a child. */
  lemma LoadFailsIff(img: seq<Inode>, chunkSize: nat)
    requires chunkSize > 0 && Numbered(img, chunkSize) && RootsAreDirs(img)
    ensures LoadAll(img, chunkSize) == Err(AssertFailed) <==> exists i | 0 <= i < |img| :: !GoodParent(img, i)
    ensures LoadAll(img, chunkSize).Ok? || LoadAll(img, chunkSize) == Err(AssertFailed)
  {
    LoadFailsExactly(img, chunkSize);
    SomeBad(img);
  }

  lemma LoadFailsExactly(img: seq<Inode>, chunkSize: nat)
    requires chunkSize > 0 && Numbered(img, chunkSize) && RootsAreDirs(img)
    ensures if BadFileFrom(img, 0) || BadDirBelow(img, |img|) then LoadAll(img, chunkSize) == Err(AssertFailed)
            else LoadAll(img, chunkSize).Ok?
  {
    PhaseOneOutcome(img, chunkSize);
    var r := LoadFrom(EMPTY, img, chunkSize);
    if r.Ok? {
      assert img[..|img|] == img;
      PhaseTwoExactly(r.value, img, |img|, chunkSize);
      assert LoadAll(img, chunkSize) == AttachDirs(r.value, DirInos(img));
    }
  }

  /** The smallest such image: a file below a file below the root. */
  lemma FileAsParentFails(root: Inode, a: Inode, b: Inode, chunkSize: nat)
    requires chunkSize > 0 && root.Validate(chunkSize) && a.Validate(chunkSize) && b.Validate(chunkSize)
    requires root.IsDir() && root.parent == 0 && !a.IsDir() && !b.IsDir() && root.ino == a.parent && a.ino == b.parent
    requires root.ino != a.ino && b.ino != root.ino && b.ino != a.ino
    ensures LoadAll([root, a, b], chunkSize) == Err(AssertFailed)
  {
    var img := [root, a, b];
    assert NamesEarlier(img, 1) by { assert img[0].ino == img[1].parent; }
    assert NamesEarlier(img, 2) by { assert img[1].ino == img[2].parent; }
    assert !GoodParent(img, 2);
    LoadFailsIff(img, chunkSize);
  }

  /** `CachedSuperBlockV5`. */
  class CachedSuperBlock {
    var nodes: seq<Inode>
    var strong: seq<nat>
    var children: seq<seq<nat>>
    var table: map<nat, nat>
    var maxInode: nat

    function View(): State reads this { State(nodes, strong, children, table, maxInode) }

    constructor ()
      ensures View() == EMPTY
    {
      nodes, strong, children, table, maxInode := [], [], [], map[], ROOT_INODE;
    }

    method DropHandle(i: nat)
      requires View().Valid() && i < |nodes|
      modifies this
      ensures View() == Drop(old(View()), i)
    {
      var t := Drop(View(), i);
      strong, children := t.strong, t.children;
      assert View() == t;
    }

    method Hash(inode: Inode) returns (i: nat)
      requires View().Valid()
      modifies this
      ensures View() == HashInode(old(View()), inode) && i == |old(nodes)|
    {
      i := |nodes|;
      nodes, strong, children := nodes + [inode], strong + [1], children + [[]];
      if maxInode < inode.ino { maxInode := inode.ino; }
      if inode.IsHardlink() && inode.ino in table && nodes[table[inode.ino]].dataLen != 0 { return; }
      strong := strong[i := 2];
      if inode.ino in table {
        var o := table[inode.ino];
        table := table[inode.ino := i];
        DropHandle(o);
      } else {
        table := table[inode.ino := i];
      }
    }

    method AddToParent(i: nat) returns (ok: bool)
      requires View().Valid() && i < |nodes|
      modifies this
      ensures AddIntoParent(old(View()), i) == if ok then Ok(View()) else Err(AssertFailed)
    {
      var parent := nodes[i].parent;
      if parent in table {
        var p := table[parent];
        if strong[p] != 1 { return false; }
        var list := children[p] + [i];
        if |list| == nodes[p].childCnt { list := SortByName(nodes, list); }
        children := children[p := list];
      } else {
        DropHandle(i);
      }
      ok := true;
    }

    /** One turn of the first loop. */
    method LoadInode(inode: Inode) returns (ok: bool)
      requires View().Valid()
      modifies this
      ensures LoadOne(old(View()), inode) == if ok then Ok(View()) else Err(AssertFailed)
    {
      var i := Hash(inode);
      if inode.IsDir() {
        DropHandle(i);
        ok := true;
      } else {
        ok := AddToParent(i);
      }
    }

    method LoadInodes(img: seq<Inode>, chunkSize: nat) returns (r: Result<seq<nat>>)
      requires View().Valid() && chunkSize > 0
      modifies this
      ensures LoadFrom(old(View()), img, chunkSize) == if r.Ok? then Ok(View()) else Err(r.error)
      ensures r.Ok? ==> r.value == DirInos(img)
    {
      var dirs: seq<nat>, i := [], 0;
      assert img[0..] == img;
      while i < |img|
        invariant 0 <= i <= |img| && View().Valid()
        invariant LoadFrom(View(), img[i..], chunkSize) == LoadFrom(old(View()), img, chunkSize)
        invariant dirs == DirInos(img[..i])
      {
        DirInosLast(img, i + 1);
        assert img[i..][1..] == img[i + 1..];
        if !img[i].Validate(chunkSize) { return Err(EINVAL); }
        var ok := LoadInode(img[i]);
        if !ok { return Err(AssertFailed); }
        if img[i].IsDir() { dirs := dirs + [img[i].ino]; }
        i := i + 1;
      }
      assert img[..i] == img;
      r := Ok(dirs);
    }

    /** One turn of the second loop. */
    method AttachInode(ino: nat) returns (r: Result<()>)
      requires View().Valid()
      modifies this
      ensures AttachDir(old(View()), ino) == if r.Ok? then Ok(View()) else Err(r.error)
    {
      if ino !in table { return Err(ENOENT); }
      var i := table[ino];
      strong := strong[i := strong[i] + 1];
      var ok := AddToParent(i);
      r := if ok then Ok(()) else Err(AssertFailed);
    }

    method AttachInodes(inos: seq<nat>) returns (r: Result<()>)
      requires View().Valid()
      modifies this
      ensures AttachDirs(old(View()), inos) == if r.Ok? then Ok(View()) else Err(r.error)
    {
      var k := |inos|;
      assert inos[..k] == inos;
      while k > 0
        invariant 0 <= k <= |inos| && View().Valid()
        invariant AttachDirs(View(), inos[..k]) == AttachDirs(old(View()), inos)
      {
        assert inos[..k][..k - 1] == inos[..k - 1];
        k := k - 1;
        r := AttachInode(inos[k]);
        if r.Err? { return; }
      }
      r := Ok(());
    }

    /** `load_all_inodes`. */
    method LoadAllInodes(img: seq<Inode>, chunkSize: nat) returns (r: Result<()>)
      requires View() == EMPTY && chunkSize > 0
      modifies this
      ensures LoadAll(img, chunkSize) == if r.Ok? then Ok(View()) else Err(r.error)
      ensures WellFormed(img, chunkSize) ==> r.Ok? && Loaded(View(), img)
    {
      if WellFormed(img, chunkSize) { LoadIsSafeAndComplete(img, chunkSize); }
      var dirs := LoadInodes(img, chunkSize);
      if dirs.Err? { return Err(dirs.error); }
      r := AttachInodes(dirs.value);
    }
  }
}
