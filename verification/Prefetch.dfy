/** Prefetching: batching of file descriptors per blob (rafs/src/metadata/mod.rs, rafs/src/fs.rs,
    `BlobIoMerge` in storage/src/device.rs) and range requests for RAFS v6. */
module Prefetch {
  import opened Common
  import opened BlobIo
  import opened Tiling
  import BioV6

  const MAX_CHUNK_SIZE: nat := 0x100_0000
  const DEFAULT_CHUNK_SIZE: nat := 0x10_0000
  const MAX_DESCS: nat := 1024

  // ----- Merging vectors per blob -------------------------------------------------------------

  /** Pending vectors by blob id, the blob appended to last, and the batches handed to the device. */
  datatype Merge = Merge(table: map<string, IoVec>, current: string, sent: seq<IoVec>)

  const EMPTY := Merge(map[], "", [])

  /** The condition under which the fetcher hands a vector over. */
  predicate Full(v: IoVec, last: bool) {
    v.size > MAX_CHUNK_SIZE || |v.descs| > MAX_DESCS || (last && v.size > 0)
  }

  /** `BlobIoMerge::append` does not trip an assertion of `BlobIoVec::append`. */
  predicate Safe(m: Merge, v: IoVec) {
    v.descs != [] && v.blob.id in m.table ==> CanAppend(m.table[v.blob.id], v)
  }

  function AppendTo(m: Merge, v: IoVec): Merge {
    var id := v.blob.id;
    if v.descs == [] then m
    else m.(current := id, table := m.table[id := if id in m.table then Append(m.table[id], v) else v])
  }

  /** The fetcher applied to the pending vector of one blob. */
  function Fetch(m: Merge, id: string): Merge {
    if id in m.table && Full(m.table[id], false)
    then m.(sent := m.sent + [m.table[id]], table := m.table[id := EmptyVec(m.table[id].blob)])
    else m
  }

  function Add(m: Merge, v: IoVec): Merge {
    var a := AppendTo(m, v);
    Fetch(a, a.current)
  }

  /** Vectors in turn, up to the first assertion that fires. */
  function AddAll(m: Merge, vecs: seq<IoVec>): (Merge, Result<()>)
    decreases vecs
  {
    if vecs == [] then (m, Ok(()))
    else if !Safe(m, vecs[0]) then (m, Err(AssertFailed))
    else AddAll(Add(m, vecs[0]), vecs[1..])
  }

  // ----- Conservation -------------------------------------------------------------------------

  /** The descriptors of the vectors on blob `id`, in order. */
  ghost function For(vecs: seq<IoVec>, id: string): seq<IoDesc> {
    if vecs == [] then [] else Share(vecs[0], id) + For(vecs[1..], id)
  }

  ghost function Share(v: IoVec, id: string): seq<IoDesc> {
    if v.blob.id == id then v.descs else []
  }

  lemma {:induction false} ForConcat(a: seq<IoVec>, b: seq<IoVec>, id: string)
    ensures For(a + b, id) == For(a, id) + For(b, id)
  {
    if a == [] {
      assert a + b == b;
    } else {
      ForConcat(a[1..], b, id);
      assert (a + b)[0] == a[0] && (a + b)[1..] == a[1..] + b;
      Regroup(Share(a[0], id), For(a[1..], id), For(b, id));
    }
  }

  ghost function Pending(m: Merge, id: string): seq<IoDesc> {
    if id in m.table then m.table[id].descs else []
  }

  /** What was allocated for blob `id` so far: the batches sent, then the pending vector. */
  ghost function History(m: Merge, id: string): seq<IoDesc> {
    For(m.sent, id) + Pending(m, id)
  }

  predicate Small(v: IoVec) {
    v.size <= MAX_CHUNK_SIZE && |v.descs| <= MAX_DESCS
  }

  /** Pending vectors are consistent, filed under their blob, and below both thresholds. */
  ghost predicate Inv(m: Merge) {
    forall id | id in m.table :: m.table[id].blob.id == id && VecOk(m.table[id]) && Small(m.table[id])
  }

  lemma AppendConserves(m: Merge, v: IoVec, id: string)
    requires Inv(m)
    ensures History(AppendTo(m, v), id) == History(m, id) + For([v], id)
  {
    assert For([v], id) == if v.blob.id == id then v.descs else [];
    var a := AppendTo(m, v);
    assert a.sent == m.sent && Pending(a, id) == Pending(m, id) + For([v], id);
    Regroup(For(m.sent, id), Pending(m, id), For([v], id));
  }

  lemma FetchConserves(m: Merge, at: string, id: string)
    requires at in m.table ==> m.table[at].blob.id == at
    ensures History(Fetch(m, at), id) == History(m, id)
  {
    if at in m.table {
      ForConcat(m.sent, [m.table[at]], id);
      assert For([m.table[at]], id) == if at == id then m.table[at].descs else [];
    }
  }

  lemma AddKeepsInv(m: Merge, v: IoVec)
    requires Inv(m) && VecOk(v) && Safe(m, v)
    ensures Inv(Add(m, v))
  {
    var a := AppendTo(m, v);
    if v.descs != [] && v.blob.id in m.table { AppendKeepsVec(m.table[v.blob.id], v); }
    forall i | i in Add(m, v).table
      ensures Add(m, v).table[i].blob.id == i && VecOk(Add(m, v).table[i]) && Small(Add(m, v).table[i])
    {
      if i != a.current { assert i in m.table && a.table[i] == m.table[i]; }
    }
  }

  /** One vector: what was sent and is pending grows by its descriptors, and no pending vector stays
      above a threshold. */
  lemma AddConserves(m: Merge, v: IoVec, id: string)
    requires Inv(m) && VecOk(v) && Safe(m, v)
    ensures Inv(Add(m, v))
    ensures History(Add(m, v), id) == History(m, id) + For([v], id)
  {
    AddKeepsInv(m, v);
    AppendConserves(m, v, id);
    var a := AppendTo(m, v);
    FetchConserves(a, a.current, id);
  }

  ghost predicate AllOk(vecs: seq<IoVec>) {
    vecs == [] || (VecOk(vecs[0]) && AllOk(vecs[1..]))
  }

  lemma ForHead(vecs: seq<IoVec>, id: string)
    requires vecs != []
    ensures For(vecs, id) == For([vecs[0]], id) + For(vecs[1..], id)
  {
    assert vecs == [vecs[0]] + vecs[1..];
    ForConcat([vecs[0]], vecs[1..], id);
  }

  lemma {:induction false} AddAllConserves(m: Merge, vecs: seq<IoVec>, id: string)
    requires Inv(m) && AllOk(vecs)
    ensures var (after, r) := AddAll(m, vecs);
            Inv(after) && (r.Ok? ==> History(after, id) == History(m, id) + For(vecs, id))
    decreases vecs
  {
    if vecs != [] && Safe(m, vecs[0]) {
      var next := Add(m, vecs[0]);
      AddConserves(m, vecs[0], id);
      AddAllConserves(next, vecs[1..], id);
      ForHead(vecs, id);
      Regroup(History(m, id), For([vecs[0]], id), For(vecs[1..], id));
    }
  }

  // ----- When the assertions of `append` hold ---------------------------------------------------

  /** Vectors that leave room for a full pending vector, over one blob table. */
  ghost predicate Roomy(v: IoVec, indexOf: string -> nat) {
    VecOk(v) && v.size + MAX_CHUNK_SIZE < U32_LIMIT && v.blob.index == indexOf(v.blob.id)
  }

  ghost predicate AllRoomy(vecs: seq<IoVec>, indexOf: string -> nat) {
    vecs == [] || (Roomy(vecs[0], indexOf) && AllRoomy(vecs[1..], indexOf))
  }

  ghost predicate Indexed(m: Merge, indexOf: string -> nat) {
    forall id | id in m.table :: m.table[id].blob.index == indexOf(id)
  }

  lemma AddIndexed(m: Merge, v: IoVec, indexOf: string -> nat)
    requires Inv(m) && Indexed(m, indexOf) && Roomy(v, indexOf)
    ensures Safe(m, v) && Indexed(Add(m, v), indexOf)
  {
    var id := v.blob.id;
    if id in m.table { assert m.table[id].blob.id == id && m.table[id].size <= MAX_CHUNK_SIZE; }
    var a := AppendTo(m, v);
    forall i | i in Add(m, v).table ensures Add(m, v).table[i].blob.index == indexOf(i) {
      assert i in a.table && Add(m, v).table[i].blob == a.table[i].blob;
    }
  }

  /** With at most 16 MiB pending, vectors below 4 GiB - 16 MiB never overflow the merged size. */
  lemma {:induction false} RoomyNeverFails(m: Merge, vecs: seq<IoVec>, indexOf: string -> nat)
    requires Inv(m) && Indexed(m, indexOf) && AllRoomy(vecs, indexOf)
    ensures AddAll(m, vecs).1.Ok? && Indexed(AddAll(m, vecs).0, indexOf)
    decreases vecs
  {
    if vecs != [] {
      var v := vecs[0];
      AddIndexed(m, v, indexOf);
      AddConserves(m, v, "");
      RoomyNeverFails(Add(m, v), vecs[1..], indexOf);
    }
  }

  /** A vector of 16 MiB, the most that stays pending. */
  function SixteenMiB(blob: Blob): IoVec {
    var d := IoDesc(blob, Chunk(blob.index, 0, 0, MAX_CHUNK_SIZE, MAX_CHUNK_SIZE), 0, MAX_CHUNK_SIZE, false);
    IoVec(blob, MAX_CHUNK_SIZE, [d])
  }

  /** Appended first to an empty state, it stays pending, and any vector of 4 GiB - 16 MiB or more on
      the same blob trips the assertion. */
  lemma OversizeFails(v: IoVec)
    requires v.descs != [] && v.size + MAX_CHUNK_SIZE >= U32_LIMIT
    ensures var w := SixteenMiB(v.blob);
            && VecOk(w) && AddAll(EMPTY, [w]) == (Add(EMPTY, w), Ok(())) && !Safe(Add(EMPTY, w), v)
            && AddAll(EMPTY, [w, v]).1 == Err(AssertFailed)
  {
    var w := SixteenMiB(v.blob);
    assert w.descs[1..] == [] && Total(w.descs) == MAX_CHUNK_SIZE;
    assert [w][1..] == [] && [w, v][1..] == [v];
    assert Add(EMPTY, w).table == map[v.blob.id := w];
  }

  /** The bound is exact: a vector can be appended in every state exactly if it is smaller than
      4 GiB - 16 MiB, and otherwise a state where it cannot is one step away from the empty one. */
  lemma SafeInEveryStateIff(v: IoVec, indexOf: string -> nat)
    requires VecOk(v) && v.descs != [] && v.blob.index == indexOf(v.blob.id)
    ensures (forall m | Inv(m) && Indexed(m, indexOf) :: Safe(m, v)) <==> v.size + MAX_CHUNK_SIZE < U32_LIMIT
  {
    if v.size + MAX_CHUNK_SIZE < U32_LIMIT {
      forall m | Inv(m) && Indexed(m, indexOf) ensures Safe(m, v) { AddIndexed(m, v, indexOf); }
    } else {
      var w := SixteenMiB(v.blob);
      OversizeFails(v);
      AddKeepsInv(EMPTY, w);
      AddIndexed(EMPTY, w, indexOf);
      assert Inv(Add(EMPTY, w)) && Indexed(Add(EMPTY, w), indexOf);
    }
  }

  // ----- Inodes -------------------------------------------------------------------------------

  /** An inode as prefetching sees it: `io` is the allocation for its whole size. */
  datatype Node = Node(ino: nat, isDir: bool, isReg: bool, isHardlink: bool, size: nat, io: Result<seq<IoVec>>,
                       children: seq<Node>)

  /** Non-empty files directly in the directory, from child `i` on. */
  function FilesFrom(n: Node, i: nat): seq<Node>
    requires i <= |n.children|
    decreases |n.children| - i
  {
    if i == |n.children| then []
    else (if !n.children[i].isDir && n.children[i].size > 0 then [n.children[i]] else []) + FilesFrom(n, i + 1)
  }

  /** Files below the subdirectories, from child `i` on. */
  function BelowFrom(n: Node, i: nat): seq<Node>
    requires i <= |n.children|
    decreases n, |n.children| - i
  {
    if i == |n.children| then []
    else (if n.children[i].isDir then Collect(n.children[i]) else []) + BelowFrom(n, i + 1)
  }

  /** `collect_descendants_inodes`: a directory's own files first, then those of its subdirectories. */
  function Collect(n: Node): seq<Node>
    decreases n, |n.children| + 1
  {
    FilesFrom(n, 0) + BelowFrom(n, 0)
  }

  /** The non-empty files among the first `i` children. */
  ghost function FilesBefore(n: Node, i: nat): nat
    requires i <= |n.children|
  {
    if i == 0 then 0
    else FilesBefore(n, i - 1) + if !n.children[i - 1].isDir && n.children[i - 1].size > 0 then 1 else 0
  }

  /** What is collected before the subdirectory at `i`. */
  ghost function CollectedBefore(n: Node, i: nat): nat
    requires i <= |n.children|
  {
    if i == 0 then FilesBefore(n, |n.children|)
    else CollectedBefore(n, i - 1) + if n.children[i - 1].isDir then |Collect(n.children[i - 1])| else 0
  }

  lemma {:induction false} FilesInOrder(n: Node, j: nat, i: nat)
    requires j <= i <= |n.children|
    ensures FilesBefore(n, j) <= FilesBefore(n, i)
    ensures var at := FilesBefore(n, i) - FilesBefore(n, j);
            if i == |n.children| then |FilesFrom(n, j)| == at
            else if !n.children[i].isDir && n.children[i].size > 0
            then at < |FilesFrom(n, j)| && FilesFrom(n, j)[at] == n.children[i] else true
    decreases i - j
  {
    if j < i { FilesInOrder(n, j + 1, i); }
  }

  ghost function Below(n: Node, i: nat): seq<Node>
    requires i < |n.children|
  {
    if n.children[i].isDir then Collect(n.children[i]) else []
  }

  lemma BelowStep(n: Node, j: nat)
    requires j < |n.children|
    ensures BelowFrom(n, j) == Below(n, j) + BelowFrom(n, j + 1)
    ensures CollectedBefore(n, j + 1) == CollectedBefore(n, j) + |Below(n, j)|
  {
  }

  lemma PartBehind(front: seq<Node>, rest: seq<Node>, part: seq<Node>, at: nat)
    requires at + |part| <= |rest| && rest[at..at + |part|] == part
    ensures (front + rest)[|front| + at..|front| + at + |part|] == part
  {
    SliceBehind(front, rest, at, at + |part|);
  }

  lemma {:induction false} DirsInOrder(n: Node, j: nat, i: nat)
    requires j <= i < |n.children|
    ensures CollectedBefore(n, j) <= CollectedBefore(n, i)
    ensures var at := CollectedBefore(n, i) - CollectedBefore(n, j);
            at + |Below(n, i)| <= |BelowFrom(n, j)| && BelowFrom(n, j)[at..at + |Below(n, i)|] == Below(n, i)
    decreases i - j
  {
    BelowStep(n, j);
    if j < i {
      DirsInOrder(n, j + 1, i);
      PartBehind(Below(n, j), BelowFrom(n, j + 1), Below(n, i), CollectedBefore(n, i) - CollectedBefore(n, j + 1));
    } else {
      assert (Below(n, j) + BelowFrom(n, j + 1))[..|Below(n, j)|] == Below(n, j);
    }
  }

  /** The order of the descendants: the non-empty files of the directory itself as they are listed, and then
      those below its subdirectories, one subdirectory after the other. */
  lemma CollectOrder(n: Node, i: nat)
    requires i < |n.children|
    ensures !n.children[i].isDir && n.children[i].size > 0 ==>
              FilesBefore(n, i) < |Collect(n)| && Collect(n)[FilesBefore(n, i)] == n.children[i]
    ensures n.children[i].isDir ==>
              && CollectedBefore(n, i) <= CollectedBefore(n, i + 1) <= |Collect(n)|
              && Collect(n)[CollectedBefore(n, i)..CollectedBefore(n, i + 1)] == Collect(n.children[i])
  {
    FilesInOrder(n, 0, i);
    FilesInOrder(n, 0, |n.children|);
    DirsInOrder(n, 0, i);
    BelowStep(n, i);
    var at := CollectedBefore(n, i) - CollectedBefore(n, 0);
    PartBehind(FilesFrom(n, 0), BelowFrom(n, 0), Below(n, i), at);
  }

  function Count(nodes: seq<Node>, x: Node): nat {
    if nodes == [] then 0 else (if nodes[0] == x then 1 else 0) + Count(nodes[1..], x)
  }

  lemma {:induction false} CountConcat(a: seq<Node>, b: seq<Node>, x: Node)
    ensures Count(a + b, x) == Count(a, x) + Count(b, x)
  {
    if a == [] {
      assert a + b == b;
    } else {
      CountConcat(a[1..], b, x);
      assert (a + b)[1..] == a[1..] + b;
    }
  }

  /** How often `x` occurs in the tree below `n` as a non-empty file, from child `i` on. */
  ghost function Occurs(n: Node, i: nat, x: Node): nat
    requires i <= |n.children|
    decreases n, |n.children| - i
  {
    if i == |n.children| then 0
    else
      var c := n.children[i];
      (if c.isDir then Occurs(c, 0, x) else if c.size > 0 && c == x then 1 else 0) + Occurs(n, i + 1, x)
  }

  /** Every non-empty file of the tree is collected as often as it occurs, and nothing else is. */
  lemma {:induction false} CollectsEachOnce(n: Node, x: Node)
    ensures Count(Collect(n), x) == Occurs(n, 0, x)
    decreases n, |n.children| + 1
  {
    CountConcat(FilesFrom(n, 0), BelowFrom(n, 0), x);
    CollectsFrom(n, 0, x);
  }

  lemma {:induction false} CollectsFrom(n: Node, i: nat, x: Node)
    requires i <= |n.children|
    ensures Count(FilesFrom(n, i), x) + Count(BelowFrom(n, i), x) == Occurs(n, i, x)
    decreases n, |n.children| - i
  {
    if i < |n.children| {
      var c := n.children[i];
      CollectsFrom(n, i + 1, x);
      if c.isDir {
        CollectsEachOnce(c, x);
        CountConcat(Collect(c), BelowFrom(n, i + 1), x);
        assert FilesFrom(n, i) == FilesFrom(n, i + 1);
      } else {
        CountConcat(if c.size > 0 then [c] else [], FilesFrom(n, i + 1), x);
        assert BelowFrom(n, i) == BelowFrom(n, i + 1);
      }
    }
  }

  /** The same with the two passes over the child list. */
  method CollectDescendants(n: Node, before: seq<Node>) returns (r: Result<seq<Node>>)
    ensures r == if n.isDir then Ok(before + Collect(n)) else Err(ENOTDIR)
    decreases n, 1
  {
    if !n.isDir { return Err(ENOTDIR); }
    var files, i := before, 0;
    var dirs: seq<nat> := [];
    while i < |n.children|
      invariant 0 <= i <= |n.children|
      invariant files + FilesFrom(n, i) == before + FilesFrom(n, 0)
      invariant DirsBetween(n, dirs, 0, i)
    {
      if n.children[i].isDir {
        DirsSnoc(n, dirs, 0, i);
        dirs := dirs + [i];
      } else if n.children[i].size > 0 {
        files := files + [n.children[i]];
      }
      if !n.children[i].isDir { DirsSkip(n, dirs, 0, i); }
      i := i + 1;
    }
    assert files + [] == files;
    Regroup(before, FilesFrom(n, 0), BelowFrom(n, 0));
    r := CollectBelow(n, dirs, files);
  }

  /** The second pass: the subdirectories in turn. */
  method CollectBelow(n: Node, dirs: seq<nat>, files: seq<Node>) returns (r: Result<seq<Node>>)
    requires DirsBetween(n, dirs, 0, |n.children|)
    ensures r == Ok(files + BelowFrom(n, 0))
    decreases n, 0
  {
    var out, d := files, 0;
    ghost var from: nat := 0;
    assert dirs[0..] == dirs;
    while d < |dirs|
      invariant 0 <= d <= |dirs| && from <= |n.children|
      invariant DirsBetween(n, dirs[d..], from, |n.children|)
      invariant out + BelowFrom(n, from) == files + BelowFrom(n, 0)
    {
      NextDir(n, dirs[d..], from, |n.children|);
      assert dirs[d..][1..] == dirs[d + 1..];
      var below := CollectDescendants(n.children[dirs[d]], out);
      Regroup(out, Collect(n.children[dirs[d]]), BelowFrom(n, dirs[d] + 1));
      from := dirs[d] + 1;
      out := below.value;
      d := d + 1;
    }
    assert dirs[d..] == [];
    NoDirs(n, from, |n.children|);
    assert out + [] == out;
    r := Ok(out);
  }

  /** `dirs` lists the positions of the subdirectories among the children from `i` up to `j`. */
  ghost predicate DirsBetween(n: Node, dirs: seq<nat>, i: nat, j: nat)
    requires i <= j <= |n.children|
    decreases j - i
  {
    if i == j then dirs == []
    else if n.children[i].isDir then dirs != [] && dirs[0] == i && DirsBetween(n, dirs[1..], i + 1, j)
    else DirsBetween(n, dirs, i + 1, j)
  }

  lemma {:induction false} DirsSnoc(n: Node, dirs: seq<nat>, i: nat, j: nat)
    requires i <= j < |n.children| && DirsBetween(n, dirs, i, j) && n.children[j].isDir
    ensures DirsBetween(n, dirs + [j], i, j + 1)
    decreases j - i
  {
    if i == j {
      assert [j][1..] == [];
      assert DirsBetween(n, [], j + 1, j + 1);
    } else if n.children[i].isDir {
      DirsSnoc(n, dirs[1..], i + 1, j);
      assert (dirs + [j])[1..] == dirs[1..] + [j];
    } else {
      DirsSnoc(n, dirs, i + 1, j);
    }
  }

  lemma {:induction false} DirsSkip(n: Node, dirs: seq<nat>, i: nat, j: nat)
    requires i <= j < |n.children| && DirsBetween(n, dirs, i, j) && !n.children[j].isDir
    ensures DirsBetween(n, dirs, i, j + 1)
    decreases j - i
  {
    if i < j { DirsSkip(n, if n.children[i].isDir then dirs[1..] else dirs, i + 1, j); }
  }

  lemma {:induction false} NextDir(n: Node, dirs: seq<nat>, i: nat, j: nat)
    requires i <= j <= |n.children| && DirsBetween(n, dirs, i, j) && dirs != []
    ensures i <= dirs[0] < j && n.children[dirs[0]].isDir && DirsBetween(n, dirs[1..], dirs[0] + 1, j)
    ensures BelowFrom(n, i) == Collect(n.children[dirs[0]]) + BelowFrom(n, dirs[0] + 1)
    decreases j - i
  {
    if !n.children[i].isDir { NextDir(n, dirs, i + 1, j); }
  }

  lemma {:induction false} NoDirs(n: Node, i: nat, j: nat)
    requires i <= j == |n.children| && DirsBetween(n, [], i, j)
    ensures BelowFrom(n, i) == []
    decreases j - i
  {
    if i < j { NoDirs(n, i + 1, j); }
  }

  // ----- The run over a file list ---------------------------------------------------------------

  /** The inodes that contribute: each hardlinked inode number only the first time. */
  function Kept(nodes: seq<Node>, seen: set<nat>): seq<Node> {
    if nodes == [] then []
    else if nodes[0].isHardlink && nodes[0].ino in seen then Kept(nodes[1..], seen)
    else [nodes[0]] + Kept(nodes[1..], Seen(nodes[0], seen))
  }

  function Seen(n: Node, seen: set<nat>): set<nat> {
    if n.isHardlink then seen + {n.ino} else seen
  }

  function SeenAll(nodes: seq<Node>, seen: set<nat>): set<nat>
    decreases nodes
  {
    if nodes == [] then seen else SeenAll(nodes[1..], Seen(nodes[0], seen))
  }

  lemma {:induction false} KeptConcat(a: seq<Node>, b: seq<Node>, seen: set<nat>)
    ensures Kept(a + b, seen) == Kept(a, seen) + Kept(b, SeenAll(a, seen))
    decreases a
  {
    if a == [] {
      assert a + b == b;
    } else {
      var next := Seen(a[0], seen);
      KeptConcat(a[1..], b, next);
      assert (a + b)[0] == a[0] && (a + b)[1..] == a[1..] + b;
      if a[0].isHardlink && a[0].ino in seen {
        assert next == seen;
      } else {
        Regroup([a[0]], Kept(a[1..], next), Kept(b, SeenAll(a[1..], next)));
      }
    }
  }

  function Links(nodes: seq<Node>, ino: nat): nat {
    if nodes == [] then 0 else (if nodes[0].isHardlink && nodes[0].ino == ino then 1 else 0) + Links(nodes[1..], ino)
  }

  /** A hardlinked inode contributes once, however many of its links are listed; every other inode
      contributes as often as it is listed. */
  lemma {:induction false} HardlinksOnce(nodes: seq<Node>, seen: set<nat>, ino: nat, x: Node)
    ensures Links(Kept(nodes, seen), ino) == if ino in seen || Links(nodes, ino) == 0 then 0 else 1
    ensures !x.isHardlink ==> Count(Kept(nodes, seen), x) == Count(nodes, x)
    decreases nodes
  {
    if nodes != [] {
      if nodes[0].isHardlink && nodes[0].ino in seen {
        HardlinksOnce(nodes[1..], seen, ino, x);
      } else {
        HardlinksOnce(nodes[1..], Seen(nodes[0], seen), ino, x);
        var rest := Kept(nodes[1..], Seen(nodes[0], seen));
        assert ([nodes[0]] + rest)[1..] == rest;
      }
    }
  }

  /** All vectors allocated for the inodes, if every allocation succeeds. */
  ghost function Vectors(nodes: seq<Node>): seq<IoVec> {
    if nodes == [] then [] else (if nodes[0].io.Ok? then nodes[0].io.value else []) + Vectors(nodes[1..])
  }

  lemma {:induction false} VectorsConcat(a: seq<Node>, b: seq<Node>)
    ensures Vectors(a + b) == Vectors(a) + Vectors(b)
  {
    if a == [] {
      assert a + b == b;
    } else {
      var head := if a[0].io.Ok? then a[0].io.value else [];
      VectorsConcat(a[1..], b);
      assert (a + b)[0] == a[0] && (a + b)[1..] == a[1..] + b;
      Regroup(head, Vectors(a[1..]), Vectors(b));
    }
  }

  datatype Run = Run(merge: Merge, seen: set<nat>)

  /** `prefetch_inode`. */
  function PrefetchInode(s: Run, n: Node): (Run, Result<()>) {
    if n.isHardlink && n.ino in s.seen then (s, Ok(()))
    else
      var seen := Seen(n, s.seen);
      match n.io
      case Err(e) => (Run(s.merge, seen), Err(e))
      case Ok(vecs) => var (m, r) := AddAll(s.merge, vecs); (Run(m, seen), r)
  }

  function PrefetchInodes(s: Run, nodes: seq<Node>): (Run, Result<()>)
    decreases nodes
  {
    if nodes == [] then (s, Ok(()))
    else
      var (s1, r) := PrefetchInode(s, nodes[0]);
      if r.Err? then (s1, r) else PrefetchInodes(s1, nodes[1..])
  }

  /** What `prefetch_data` fetches for one listed inode. */
  function Targets(n: Node): seq<Node> {
    if n.isDir then Collect(n) else if n.size > 0 && n.isReg then [n] else []
  }

  function PrefetchData(fs: map<nat, Node>, s: Run, files: seq<nat>): (Run, Result<()>)
    decreases files
  {
    if files == [] then (s, Ok(()))
    else if files[0] !in fs then (s, Err(ENOENT))
    else
      var (s1, r) := PrefetchInodes(s, Targets(fs[files[0]]));
      if r.Err? then (s1, r) else PrefetchData(fs, s1, files[1..])
  }

  /** All inodes the file list asks for. */
  ghost function AllTargets(fs: map<nat, Node>, files: seq<nat>): seq<Node> {
    if files == [] then [] else (if files[0] in fs then Targets(fs[files[0]]) else []) + AllTargets(fs, files[1..])
  }

  ghost predicate IoOk(nodes: seq<Node>) {
    nodes == [] || ((nodes[0].io.Ok? ==> AllOk(nodes[0].io.value)) && IoOk(nodes[1..]))
  }

  lemma {:induction false} IoOkParts(a: seq<Node>, b: seq<Node>)
    requires IoOk(a + b)
    ensures IoOk(a) && IoOk(b)
  {
    if a == [] {
      assert a + b == b;
    } else {
      assert (a + b)[1..] == a[1..] + b;
      IoOkParts(a[1..], b);
    }
  }

  lemma VectorsHead(n: Node, rest: seq<Node>, id: string)
    requires n.io.Ok?
    ensures For(Vectors([n] + rest), id) == For(n.io.value, id) + For(Vectors(rest), id)
  {
    assert ([n] + rest)[1..] == rest;
    ForConcat(n.io.value, Vectors(rest), id);
  }

  /** One inode: what is sent and pending grows by its vectors unless it was seen before. */
  lemma InodeConserves(s: Run, n: Node, id: string)
    requires Inv(s.merge) && (n.io.Ok? ==> AllOk(n.io.value))
    ensures var (after, r) := PrefetchInode(s, n);
            && Inv(after.merge)
            && (r.Ok? ==> && after.seen == Seen(n, s.seen)
                          && if n.isHardlink && n.ino in s.seen then after == s
                             else n.io.Ok? && History(after.merge, id) == History(s.merge, id) + For(n.io.value, id))
  {
    if n.isHardlink && n.ino in s.seen {
      assert Seen(n, s.seen) == s.seen;
    } else if n.io.Ok? {
      AddAllConserves(s.merge, n.io.value, id);
    }
  }

  lemma {:induction false} InodesConserve(s: Run, nodes: seq<Node>, id: string)
    requires Inv(s.merge) && IoOk(nodes)
    ensures var (after, r) := PrefetchInodes(s, nodes);
            && Inv(after.merge)
            && (r.Ok? ==> && History(after.merge, id) == History(s.merge, id) + For(Vectors(Kept(nodes, s.seen)), id)
                          && after.seen == SeenAll(nodes, s.seen))
    decreases nodes
  {
    if nodes != [] {
      var n := nodes[0];
      var (next, r) := PrefetchInode(s, n);
      InodeConserves(s, n, id);
      if r.Ok? {
        InodesConserve(next, nodes[1..], id);
        if !(n.isHardlink && n.ino in s.seen) {
          var rest := Kept(nodes[1..], next.seen);
          VectorsHead(n, rest, id);
          Regroup(History(s.merge, id), For(n.io.value, id), For(Vectors(rest), id));
        }
      }
    }
  }

  /** The inodes of two file lists, one after the other. */
  lemma ListsJoin(now: seq<Node>, later: seq<Node>, seen: set<nat>, id: string)
    ensures For(Vectors(Kept(now + later, seen)), id) ==
            For(Vectors(Kept(now, seen)), id) + For(Vectors(Kept(later, SeenAll(now, seen))), id)
  {
    var a, b := Kept(now, seen), Kept(later, SeenAll(now, seen));
    KeptConcat(now, later, seen);
    VectorsConcat(a, b);
    ForConcat(Vectors(a), Vectors(b), id);
  }

  lemma {:induction false} DataConserves(fs: map<nat, Node>, s: Run, files: seq<nat>, id: string)
    requires Inv(s.merge) && IoOk(AllTargets(fs, files))
    ensures var (after, r) := PrefetchData(fs, s, files);
            && Inv(after.merge)
            && (r.Ok? ==>
                  History(after.merge, id) ==
                  History(s.merge, id) + For(Vectors(Kept(AllTargets(fs, files), s.seen)), id))
    decreases files
  {
    if files != [] && files[0] in fs {
      var now, later := Targets(fs[files[0]]), AllTargets(fs, files[1..]);
      assert AllTargets(fs, files) == now + later;
      IoOkParts(now, later);
      InodesConserve(s, now, id);
      var (next, r) := PrefetchInodes(s, now);
      if r.Ok? {
        DataConserves(fs, next, files[1..], id);
        ListsJoin(now, later, s.seen, id);
        Regroup(History(s.merge, id), For(Vectors(Kept(now, s.seen)), id), For(Vectors(Kept(later, next.seen)), id));
      } else {
        assert PrefetchData(fs, s, files) == (next, r);
      }
    }
  }

  // ----- What a file list asks for ---------------------------------------------------------------

  /** How often `x` is asked for by a listed inode: as often as it occurs below a directory, and otherwise
      once if it is the listed inode and a regular file that is not empty. */
  ghost function Asks(n: Node, x: Node): nat {
    if n.isDir then Occurs(n, 0, x) else if n == x && x.isReg && x.size > 0 then 1 else 0
  }

  ghost function AsksAll(fs: map<nat, Node>, files: seq<nat>, x: Node): nat {
    if files == [] then 0 else (if files[0] in fs then Asks(fs[files[0]], x) else 0) + AsksAll(fs, files[1..], x)
  }

  /** The targets of a file list are the inodes it asks for, each as often as it does. */
  lemma {:induction false} TargetsAsAsked(fs: map<nat, Node>, files: seq<nat>, x: Node)
    ensures Count(AllTargets(fs, files), x) == AsksAll(fs, files, x)
  {
    if files != [] {
      TargetsAsAsked(fs, files[1..], x);
      if files[0] in fs {
        var n := fs[files[0]];
        if n.isDir { CollectsEachOnce(n, x); }
        CountConcat(Targets(n), AllTargets(fs, files[1..]), x);
      } else {
        assert AllTargets(fs, files) == AllTargets(fs, files[1..]);
      }
    }
  }

  lemma {:induction false} AddAllConcat(m: Merge, a: seq<IoVec>, b: seq<IoVec>)
    ensures var (next, r) := AddAll(m, a);
            AddAll(m, a + b) == if r.Ok? then AddAll(next, b) else (next, r)
    decreases a
  {
    if a == [] {
      assert a + b == b;
    } else if Safe(m, a[0]) {
      assert (a + b)[0] == a[0] && (a + b)[1..] == a[1..] + b;
      AddAllConcat(Add(m, a[0]), a[1..], b);
    }
  }

  ghost predicate AllocatesAll(nodes: seq<Node>) {
    nodes == [] || (nodes[0].io.Ok? && AllocatesAll(nodes[1..]))
  }

  lemma {:induction false} AllocatesConcat(a: seq<Node>, b: seq<Node>)
    ensures AllocatesAll(a + b) <==> AllocatesAll(a) && AllocatesAll(b)
  {
    if a == [] {
      assert a + b == b;
    } else {
      assert (a + b)[1..] == a[1..] + b;
      AllocatesConcat(a[1..], b);
    }
  }

  /** Inodes in turn: every kept one must be allocated, and then only an assertion of `append` can fail. */
  lemma {:induction false} InodesSucceedIff(s: Run, nodes: seq<Node>)
    ensures var kept := Kept(nodes, s.seen);
            var (after, r) := PrefetchInodes(s, nodes);
            && (r.Ok? <==> AllocatesAll(kept) && AddAll(s.merge, Vectors(kept)).1.Ok?)
            && (r.Ok? ==> after == Run(AddAll(s.merge, Vectors(kept)).0, SeenAll(nodes, s.seen)))
    decreases nodes
  {
    if nodes != [] {
      var n := nodes[0];
      var (next, r) := PrefetchInode(s, n);
      if n.isHardlink && n.ino in s.seen {
        assert Seen(n, s.seen) == s.seen;
        InodesSucceedIff(s, nodes[1..]);
      } else {
        var rest := Kept(nodes[1..], Seen(n, s.seen));
        assert ([n] + rest)[0] == n && ([n] + rest)[1..] == rest;
        if n.io.Ok? {
          AddAllConcat(s.merge, n.io.value, Vectors(rest));
          if r.Ok? { InodesSucceedIff(next, nodes[1..]); }
        }
      }
    }
  }

  ghost predicate AllKnown(fs: map<nat, Node>, files: seq<nat>) {
    files == [] || (files[0] in fs && AllKnown(fs, files[1..]))
  }

  /** A prefetch succeeds exactly if every listed inode exists, the allocation of every inode it keeps
      succeeds, and no assertion of `append` fires. */
  lemma {:induction false} PrefetchSucceedsIff(fs: map<nat, Node>, s: Run, files: seq<nat>)
    ensures var kept := Kept(AllTargets(fs, files), s.seen);
            PrefetchData(fs, s, files).1.Ok? <==>
            AllKnown(fs, files) && AllocatesAll(kept) && AddAll(s.merge, Vectors(kept)).1.Ok?
    decreases files
  {
    if files != [] && files[0] in fs {
      var now, later := Targets(fs[files[0]]), AllTargets(fs, files[1..]);
      assert AllTargets(fs, files) == now + later;
      InodesSucceedIff(s, now);
      KeptConcat(now, later, s.seen);
      var a, b := Kept(now, s.seen), Kept(later, SeenAll(now, s.seen));
      AllocatesConcat(a, b);
      VectorsConcat(a, b);
      AddAllConcat(s.merge, Vectors(a), Vectors(b));
      var (next, r) := PrefetchInodes(s, now);
      if r.Ok? { PrefetchSucceedsIff(fs, next, files[1..]); }
    }
  }

  // ----- What is left at the end -----------------------------------------------------------------

  /** Pending descriptors after one more vector on their blob. */
  ghost function StaysPending(descs: seq<IoDesc>): seq<IoDesc> {
    if Total(descs) > 16 * 1024 * 1024 || |descs| > 1024 then [] else descs
  }

  /** What stays pending of blob `id` when `vecs` follow `pending`: a fold over the allocated vectors. */
  ghost function Leftover(vecs: seq<IoVec>, id: string, pending: seq<IoDesc>): seq<IoDesc>
    decreases vecs
  {
    if vecs == [] then pending
    else if vecs[0].blob.id == id && vecs[0].descs != [] then
      Leftover(vecs[1..], id, StaysPending(pending + vecs[0].descs))
    else Leftover(vecs[1..], id, pending)
  }

  lemma FetchPending(m: Merge, at: string, id: string)
    requires at in m.table ==> VecOk(m.table[at])
    ensures Pending(Fetch(m, at), id) == if at == id then StaysPending(Pending(m, id)) else Pending(m, id)
  {
  }

  lemma AddPending(m: Merge, v: IoVec, id: string)
    requires Inv(m) && VecOk(v) && Safe(m, v)
    ensures Pending(Add(m, v), id) ==
            if v.blob.id == id && v.descs != [] then StaysPending(Pending(m, id) + v.descs) else Pending(m, id)
  {
    var a := AppendTo(m, v);
    if v.descs == [] {
      if a.current in m.table { assert Small(m.table[a.current]); }
    } else {
      if v.blob.id in m.table { AppendKeepsVec(m.table[v.blob.id], v); }
      assert Pending(a, id) == if v.blob.id == id then Pending(m, id) + v.descs else Pending(m, id);
      FetchPending(a, a.current, id);
    }
  }

  lemma {:induction false} PendingIsLeftover(m: Merge, vecs: seq<IoVec>, id: string)
    requires Inv(m) && AllOk(vecs) && AddAll(m, vecs).1.Ok?
    ensures Pending(AddAll(m, vecs).0, id) == Leftover(vecs, id, Pending(m, id))
    decreases vecs
  {
    if vecs != [] {
      AddKeepsInv(m, vecs[0]);
      AddPending(m, vecs[0], id);
      PendingIsLeftover(Add(m, vecs[0]), vecs[1..], id);
    }
  }

  lemma {:induction false} LeftoverConcat(a: seq<IoVec>, b: seq<IoVec>, id: string, pending: seq<IoDesc>)
    ensures Leftover(a + b, id, pending) == Leftover(b, id, Leftover(a, id, pending))
    decreases a
  {
    if a == [] {
      assert a + b == b;
    } else {
      assert (a + b)[0] == a[0] && (a + b)[1..] == a[1..] + b;
      LeftoverConcat(a[1..], b, id,
                     if a[0].blob.id == id && a[0].descs != [] then StaysPending(pending + a[0].descs) else pending);
    }
  }

  lemma InodeLeaves(s: Run, n: Node, id: string)
    requires Inv(s.merge) && (n.io.Ok? ==> AllOk(n.io.value)) && PrefetchInode(s, n).1.Ok?
    ensures Pending(PrefetchInode(s, n).0.merge, id) ==
            if n.isHardlink && n.ino in s.seen then Pending(s.merge, id)
            else Leftover(if n.io.Ok? then n.io.value else [], id, Pending(s.merge, id))
  {
    if !(n.isHardlink && n.ino in s.seen) { PendingIsLeftover(s.merge, n.io.value, id); }
  }

  lemma {:induction false} InodesLeave(s: Run, nodes: seq<Node>, id: string)
    requires Inv(s.merge) && IoOk(nodes) && PrefetchInodes(s, nodes).1.Ok?
    ensures Pending(PrefetchInodes(s, nodes).0.merge, id) ==
            Leftover(Vectors(Kept(nodes, s.seen)), id, Pending(s.merge, id))
    decreases nodes
  {
    if nodes != [] {
      var n := nodes[0];
      var next := PrefetchInode(s, n).0;
      InodeConserves(s, n, id);
      InodeLeaves(s, n, id);
      InodesLeave(next, nodes[1..], id);
      if !(n.isHardlink && n.ino in s.seen) {
        var rest := Kept(nodes[1..], next.seen);
        assert ([n] + rest)[1..] == rest;
        LeftoverConcat(n.io.value, Vectors(rest), id, Pending(s.merge, id));
      }
    }
  }

  /** What is pending at the drain is that fold over everything that was allocated. */
  lemma {:induction false} DataLeaves(fs: map<nat, Node>, s: Run, files: seq<nat>, id: string)
    requires Inv(s.merge) && IoOk(AllTargets(fs, files)) && PrefetchData(fs, s, files).1.Ok?
    ensures Pending(PrefetchData(fs, s, files).0.merge, id) ==
            Leftover(Vectors(Kept(AllTargets(fs, files), s.seen)), id, Pending(s.merge, id))
    decreases files
  {
    if files != [] {
      var now, later := Targets(fs[files[0]]), AllTargets(fs, files[1..]);
      assert AllTargets(fs, files) == now + later;
      IoOkParts(now, later);
      InodesConserve(s, now, id);
      InodesLeave(s, now, id);
      var next := PrefetchInodes(s, now).0;
      DataLeaves(fs, next, files[1..], id);
      KeptConcat(now, later, s.seen);
      VectorsConcat(Kept(now, s.seen), Kept(later, next.seen));
      LeftoverConcat(Vectors(Kept(now, s.seen)), Vectors(Kept(later, next.seen)), id, Pending(s.merge, id));
    }
  }

  // ----- Draining -------------------------------------------------------------------------------

  /** What the final drain hands over for blob `id`. */
  ghost function Drained(table: map<string, IoVec>, id: string): seq<IoDesc> {
    if id in table && Full(table[id], true) then table[id].descs else []
  }

  /** The descriptors allocated for a file list, blob by blob in order. */
  ghost function Wanted(fs: map<nat, Node>, files: seq<nat>): seq<IoVec> {
    Vectors(Kept(AllTargets(fs, files), {}))
  }

  /** Only empty descriptors of blob `id` stay pending behind the last batch that is handed over. */
  ghost predicate OnlyEmptyLeft(vecs: seq<IoVec>, id: string) {
    var left := Leftover(vecs, id, []);
    left != [] && Total(left) == 0
  }

  /** Everything allocated for a blob reaches the device, each descriptor once and in order, exactly
      when the allocations do not leave a rest of zero-size descriptors only. */
  lemma PrefetchConserves(fs: map<nat, Node>, files: seq<nat>, id: string)
    requires IoOk(AllTargets(fs, files))
    ensures var (after, r) := PrefetchData(fs, Run(EMPTY, {}), files);
            && Inv(after.merge)
            && (r.Ok? ==>
                  (For(after.merge.sent, id) + Drained(after.merge.table, id) == For(Wanted(fs, files), id) <==>
                   !OnlyEmptyLeft(Wanted(fs, files), id)))
  {
    AllAccounted(fs, files, id);
    var (after, r) := PrefetchData(fs, Run(EMPTY, {}), files);
    if r.Ok? {
      DataLeaves(fs, Run(EMPTY, {}), files, id);
      DrainCompletes(after.merge, id);
    }
  }

  /** Everything allocated has been sent or is pending. */
  lemma AllAccounted(fs: map<nat, Node>, files: seq<nat>, id: string)
    requires IoOk(AllTargets(fs, files))
    ensures var (after, r) := PrefetchData(fs, Run(EMPTY, {}), files);
            Inv(after.merge) && (r.Ok? ==> History(after.merge, id) == For(Wanted(fs, files), id))
  {
    AccountedFrom(fs, Run(EMPTY, {}), files, id);
  }

  lemma AccountedFrom(fs: map<nat, Node>, s: Run, files: seq<nat>, id: string)
    requires Inv(s.merge) && IoOk(AllTargets(fs, files)) && s.seen == {} && History(s.merge, id) == []
    ensures var (after, r) := PrefetchData(fs, s, files);
            Inv(after.merge) && (r.Ok? ==> History(after.merge, id) == For(Wanted(fs, files), id))
  {
    DataConserves(fs, s, files, id);
  }

  lemma DrainCompletes(m: Merge, id: string)
    requires Inv(m)
    ensures For(m.sent, id) + Drained(m.table, id) == History(m, id) <==>
            !(Pending(m, id) != [] && Total(Pending(m, id)) == 0)
  {
    if id in m.table { assert Small(m.table[id]) && VecOk(m.table[id]); }
    if Pending(m, id) != [] && Total(Pending(m, id)) == 0 {
      assert |History(m, id)| == |For(m.sent, id)| + |Pending(m, id)|;
    } else {
      assert Drained(m.table, id) == Pending(m, id);
    }
  }

  lemma {:induction false} NonZeroTotal(descs: seq<IoDesc>)
    requires descs != [] && forall d | d in descs :: d.size > 0
    ensures Total(descs) > 0
  {
  }

  /** With no zero-size descriptor, the batches of each blob are exactly its allocated descriptors. */
  lemma NonEmptyAllArrive(fs: map<nat, Node>, files: seq<nat>, id: string)
    requires IoOk(AllTargets(fs, files))
    requires forall d | d in For(Wanted(fs, files), id) :: d.size > 0
    ensures var (after, r) := PrefetchData(fs, Run(EMPTY, {}), files);
            r.Ok? ==> For(after.merge.sent, id) + Drained(after.merge.table, id) == For(Wanted(fs, files), id)
  {
    AllAccounted(fs, files, id);
    var (after, r) := PrefetchData(fs, Run(EMPTY, {}), files);
    if r.Ok? {
      DrainCompletes(after.merge, id);
      if Pending(after.merge, id) != [] {
        forall d | d in Pending(after.merge, id) ensures d.size > 0 { assert d in History(after.merge, id); }
        NonZeroTotal(Pending(after.merge, id));
      }
    }
  }

  /** A RAFS v6 file of exactly 4 GiB gets one descriptor of size zero, because the length is cast to 32
      bits.  Prefetching it alone succeeds without the device seeing that descriptor. */
  lemma FourGiBFileIsLost(f: BioV6.File, vecs: seq<IoVec>, ino: nat)
    requires f.Valid() && f.size == U32_LIMIT && f.chunkSize > 1
    requires BioV6.Outcome(f, 0, f.size, false, Ok(vecs))
    ensures vecs != []
    ensures var fs := map[ino := Node(ino, false, true, false, f.size, Ok(vecs), [])];
            var (after, r) := PrefetchData(fs, Run(EMPTY, {}), [ino]);
            var id := vecs[0].blob.id;
            && IoOk(AllTargets(fs, [ino])) && r.Ok? && OnlyEmptyLeft(Wanted(fs, [ino]), id)
            && |For(Wanted(fs, [ino]), id)| == 1 && For(after.merge.sent, id) + Drained(after.merge.table, id) == []
  {
    var n := Node(ino, false, true, false, f.size, Ok(vecs), []);
    BioV6.FewerChunks(f.size, f.chunkSize);
    BioV6.SmallFileOutcome(f, 0, f.size, false, Ok(vecs));
    var v := SingleEmpty(vecs);
    OneFileWanted(n, v);
    OneFileRun(n, v);
    assert [] + v.descs == v.descs;
  }

  /** A vector without bytes stays pending. */
  lemma AddsEmpty(v: IoVec)
    requires v.size == 0 && |v.descs| == 1
    ensures AddAll(EMPTY, [v]) == (Merge(map[v.blob.id := v], v.blob.id, []), Ok(()))
  {
    assert [v][1..] == [] && [v][0] == v;
    assert AppendTo(EMPTY, v) == Merge(map[v.blob.id := v], v.blob.id, []);
  }

  lemma OneFileRun(n: Node, v: IoVec)
    requires !n.isDir && n.isReg && !n.isHardlink && n.size > 0 && n.io == Ok([v]) && v.size == 0 && |v.descs| == 1
    ensures PrefetchData(map[n.ino := n], Run(EMPTY, {}), [n.ino]) ==
            (Run(Merge(map[v.blob.id := v], v.blob.id, []), {}), Ok(()))
  {
    var m := Merge(map[v.blob.id := v], v.blob.id, []);
    AddsEmpty(v);
    assert [n][1..] == [] && [n.ino][1..] == [];
    assert PrefetchInode(Run(EMPTY, {}), n) == (Run(m, {}), Ok(()));
    assert PrefetchInodes(Run(EMPTY, {}), [n]) == (Run(m, {}), Ok(()));
    assert Targets(n) == [n];
  }

  lemma OneFileWanted(n: Node, v: IoVec)
    requires !n.isDir && n.isReg && !n.isHardlink && n.size > 0 && n.io == Ok([v])
    requires VecOk(v) && v.descs != [] && Total(v.descs) == 0 && |v.descs| == 1
    ensures var fs := map[n.ino := n];
            && AllTargets(fs, [n.ino]) == [n] && IoOk([n]) && Wanted(fs, [n.ino]) == [v]
            && For([v], v.blob.id) == v.descs && OnlyEmptyLeft([v], v.blob.id)
  {
    OneTarget(n, n.ino);
    OneKept(n, v);
    assert [v][1..] == [] && v.descs + [] == v.descs && [] + v.descs == v.descs;
    assert Leftover([v], v.blob.id, []) == Leftover([], v.blob.id, v.descs);
  }

  lemma OneTarget(n: Node, ino: nat)
    requires !n.isDir && n.isReg && n.size > 0
    ensures AllTargets(map[ino := n], [ino]) == [n]
  {
    var fs := map[ino := n];
    assert [ino][1..] == [] && [n] + [] == [n];
    assert AllTargets(fs, [ino]) == Targets(n) + AllTargets(fs, []);
  }

  lemma OneKept(n: Node, v: IoVec)
    requires !n.isHardlink && n.io == Ok([v]) && VecOk(v)
    ensures IoOk([n]) && Vectors(Kept([n], {})) == [v]
  {
    assert [n][1..] == [] && [v][1..] == [] && [n] + [] == [n] && [v] + [] == [v];
    assert Kept([n], {}) == [n] + Kept([], Seen(n, {}));
    assert Vectors([n]) == [v] + Vectors([]);
  }

  lemma SingleEmpty(vecs: seq<IoVec>) returns (v: IoVec)
    requires VecsOk(vecs) && |Flat(vecs)| == 1 && Flat(vecs)[0].size == 0
    ensures vecs == [v] && VecOk(v) && v.size == 0 && |v.descs| == 1 && Total(v.descs) == 0
  {
    var n := |vecs|;
    v := vecs[n - 1];
    assert v.descs == Flat(vecs) && v.descs[1..] == [];
    assert Total(v.descs) == v.descs[0].size;
  }

  /** What was sent so far and what remains to be drained of blob `id` make up the whole. */
  ghost predicate StillToCome(was: seq<IoVec>, start: map<string, IoVec>, sent: seq<IoVec>, table: map<string, IoVec>,
                              id: string) {
    For(was, id) + Drained(start, id) == For(sent, id) + Drained(table, id)
  }

  lemma DrainOne(was: seq<IoVec>, start: map<string, IoVec>, sent: seq<IoVec>, table: map<string, IoVec>, id: string,
                 i: string)
    requires id in table && table[id].blob.id == id && StillToCome(was, start, sent, table, i)
    ensures StillToCome(was, start, if Full(table[id], true) then sent + [table[id]] else sent, table - {id}, i)
  {
    var v := table[id];
    var full := Full(v, true);
    OneSent(sent, v, full, i);
    DrainedRest(table, id, v, full, i);
    Regroup(For(sent, i), if i == id && full then v.descs else [], Drained(table - {id}, i));
  }

  lemma OneSent(sent: seq<IoVec>, v: IoVec, full: bool, i: string)
    ensures For(if full then sent + [v] else sent, i) ==
            For(sent, i) + if i == v.blob.id && full then v.descs else []
  {
    ForConcat(sent, [v], i);
    assert [v][1..] == [];
    assert For([v], i) == Share(v, i);
  }

  lemma DrainedRest(table: map<string, IoVec>, id: string, v: IoVec, full: bool, i: string)
    requires id in table && table[id] == v && full == Full(v, true)
    ensures Drained(table, i) == (if i == id && full then v.descs else []) + Drained(table - {id}, i)
  {
  }

  /** The merge state, the hardlink set and the device as `prefetch_files` updates them. */
  class BlobIoMerge {
    var table: map<string, IoVec>
    var current: string
    var sent: seq<IoVec>
    var hardlinks: set<nat>

    ghost function View(): Run reads this { Run(Merge(table, current, sent), hardlinks) }

    constructor ()
      ensures View() == Run(EMPTY, {})
    {
      table, current, sent, hardlinks := map[], "", [], {};
    }

    /** Fails without an effect where `BlobIoVec::append` would panic. */
    method AppendVec(v: IoVec) returns (ok: bool)
      modifies `table, `current
      ensures ok == Safe(old(View().merge), v)
      ensures View().merge == if ok then AppendTo(old(View().merge), v) else old(View().merge)
    {
      if v.descs == [] { return true; }
      var id := v.blob.id;
      if id in table {
        var pending := new BlobIoVec.Of(table[id]);
        var more := new BlobIoVec.Of(v);
        ok := pending.AppendVec(more);
        if !ok { return; }
        table := table[id := pending.View()];
      } else {
        table := table[id := v];
      }
      current := id;
      ok := true;
    }

    /** The fetcher on the pending vector of `id`; a vector that is handed over is reset. */
    method FetchVec(id: string, last: bool)
      requires id in table
      modifies `table, `sent
      ensures if Full(old(table)[id], last)
              then sent == old(sent) + [old(table)[id]] && table == old(table)[id := EmptyVec(old(table)[id].blob)]
              else sent == old(sent) && table == old(table)
    {
      var desc := new BlobIoVec.Of(table[id]);
      if desc.size > MAX_CHUNK_SIZE || |desc.descs| > MAX_DESCS || (last && desc.size > 0) {
        sent := sent + [desc.View()];
        desc.Reset();
        table := table[id := desc.View()];
      }
    }

    method AddVecs(vecs: seq<IoVec>) returns (r: Result<()>)
      modifies `table, `current, `sent
      ensures (View().merge, r) == AddAll(old(View().merge), vecs)
    {
      var i := 0;
      assert vecs[0..] == vecs;
      while i < |vecs|
        invariant 0 <= i <= |vecs|
        invariant AddAll(View().merge, vecs[i..]) == AddAll(old(View().merge), vecs)
      {
        assert vecs[i..][1..] == vecs[i + 1..];
        var ok := AppendVec(vecs[i]);
        if !ok { return Err(AssertFailed); }
        if current in table { FetchVec(current, false); }
        i := i + 1;
      }
      r := Ok(());
    }

    method PrefetchNode(n: Node) returns (r: Result<()>)
      modifies this
      ensures (View(), r) == PrefetchInode(old(View()), n)
    {
      if n.isHardlink {
        if n.ino in hardlinks { return Ok(()); }
        hardlinks := hardlinks + {n.ino};
      }
      if n.io.Err? { return Err(n.io.error); }
      r := AddVecs(n.io.value);
    }

    method PrefetchNodes(nodes: seq<Node>) returns (r: Result<()>)
      modifies this
      ensures (View(), r) == PrefetchInodes(old(View()), nodes)
    {
      var i := 0;
      assert nodes[0..] == nodes;
      while i < |nodes|
        invariant 0 <= i <= |nodes|
        invariant PrefetchInodes(View(), nodes[i..]) == PrefetchInodes(old(View()), nodes)
      {
        assert nodes[i..][1..] == nodes[i + 1..];
        var done := PrefetchNode(nodes[i]);
        if done.Err? { return done; }
        i := i + 1;
      }
      r := Ok(());
    }

    /** The list part of `prefetch_files`. */
    method PrefetchList(fs: map<nat, Node>, files: seq<nat>) returns (r: Result<()>)
      modifies this
      ensures (View(), r) == PrefetchData(fs, old(View()), files)
    {
      var i := 0;
      assert files[0..] == files;
      while i < |files|
        invariant 0 <= i <= |files|
        invariant PrefetchData(fs, View(), files[i..]) == PrefetchData(fs, old(View()), files)
      {
        assert files[i..][1..] == files[i + 1..];
        if files[i] !in fs { return Err(ENOENT); }
        var n := fs[files[i]];
        var done;
        if n.isDir {
          var below := CollectDescendants(n, []);
          assert below.value == Collect(n);
          done := PrefetchNodes(below.value);
        } else if n.size > 0 && n.isReg {
          done := PrefetchNodes([n]);
        } else {
          done := Ok(());
        }
        if done.Err? { return done; }
        i := i + 1;
      }
      r := Ok(());
    }

    /** Hands over what is pending, blob by blob in any order. */
    method Drain()
      requires forall id | id in table :: table[id].blob.id == id
      modifies `table, `sent
      ensures table == map[]
      ensures forall id :: For(sent, id) == old(For(sent, id)) + old(Drained(table, id))
    {
      ghost var was, start := sent, table;
      while table != map[]
        invariant forall id | id in table :: table[id].blob.id == id
        invariant forall id :: StillToCome(was, start, sent, table, id)
        decreases |table|
      {
        var id: string :| id in table;
        var v := table[id];
        ghost var before, left := sent, table;
        if Full(v, true) { sent := sent + [v]; }
        table := table - {id};
        forall i ensures StillToCome(was, start, sent, table, i) {
          assert StillToCome(was, start, before, left, i);
          DrainOne(was, start, before, left, id, i);
        }
      }
      forall id ensures For(sent, id) == For(was, id) + Drained(start, id) {
        assert StillToCome(was, start, sent, table, id);
      }
    }

    /** `prefetch_files` for a list.  `list` holds the inodes it asks for: all non-empty files below a listed
        directory, and the listed regular files that are not empty.  On success the device has received,
        per blob, exactly what was allocated for them, hardlinks once, unless the allocations leave only
        zero-size descriptors for the end. */
    method PrefetchFiles(fs: map<nat, Node>, files: seq<nat>) returns (r: Result<bool>, ghost list: seq<Node>)
      requires View() == Run(EMPTY, {}) && IoOk(AllTargets(fs, files))
      modifies this
      ensures forall x :: Count(list, x) == AsksAll(fs, files, x)
      ensures match PrefetchData(fs, Run(EMPTY, {}), files).1
              case Err(e) => r == Err(e)
              case Ok(_) => r == Ok(false)
      ensures var vecs := Vectors(Kept(list, {}));
              r.Ok? <==> AllKnown(fs, files) && AllocatesAll(Kept(list, {})) && AddAll(EMPTY, vecs).1.Ok?
      ensures var vecs := Vectors(Kept(list, {}));
              r.Ok? ==> forall id :: For(sent, id) == For(vecs, id) <==> !OnlyEmptyLeft(vecs, id)
    {
      list := AllTargets(fs, files);
      forall x ensures Count(list, x) == AsksAll(fs, files, x) { TargetsAsAsked(fs, files, x); }
      PrefetchSucceedsIff(fs, View(), files);
      var done := PrefetchList(fs, files);
      if done.Err? { return Err(done.error), list; }
      PrefetchConserves(fs, files, "");
      Drain();
      forall id ensures For(sent, id) == For(Wanted(fs, files), id) <==> !OnlyEmptyLeft(Wanted(fs, files), id) {
        PrefetchConserves(fs, files, id);
      }
      r := Ok(false);
    }
  }

  // ----- Range prefetch of RAFS v6 --------------------------------------------------------------

  datatype Request = Request(blobId: string, offset: nat, len: nat)

  /** The requests are consecutive pieces of [from, to) of blob `id`, all of 1 MiB except the last. */
  ghost predicate Covers(reqs: seq<Request>, id: string, from: nat, to: nat)
    decreases |reqs|
  {
    if reqs == [] then from == to
    else
      && reqs[0].blobId == id && reqs[0].offset == from && 0 < reqs[0].len <= 1024 * 1024
      && (|reqs| > 1 ==> reqs[0].len == 1024 * 1024)
      && Covers(reqs[1..], id, from + reqs[0].len, to)
  }

  lemma {:induction false} CoversSnoc(reqs: seq<Request>, id: string, from: nat, mid: nat, q: Request)
    requires Covers(reqs, id, from, mid) && (forall i | 0 <= i < |reqs| :: reqs[i].len == DEFAULT_CHUNK_SIZE)
    requires q.blobId == id && q.offset == mid && 0 < q.len <= DEFAULT_CHUNK_SIZE
    ensures Covers(reqs + [q], id, from, mid + q.len)
    decreases |reqs|
  {
    if reqs == [] {
      assert [q][1..] == [];
      assert Covers([], id, from + q.len, mid + q.len);
    } else {
      CoversSnoc(reqs[1..], id, from + reqs[0].len, mid, q);
      assert (reqs + [q])[1..] == reqs[1..] + [q];
    }
  }

  /** The requests for one blob. */
  method RangeRequests(id: string, size: nat) returns (reqs: seq<Request>)
    ensures Covers(reqs, id, 0, size)
  {
    reqs := [];
    var offset := 0;
    while offset < size
      invariant 0 <= offset <= size && Covers(reqs, id, 0, offset)
      invariant offset < size ==> forall i | 0 <= i < |reqs| :: reqs[i].len == DEFAULT_CHUNK_SIZE
    {
      var len := Min(size - offset, DEFAULT_CHUNK_SIZE);
      CoversSnoc(reqs, id, 0, offset, Request(id, offset, len));
      reqs := reqs + [Request(id, offset, len)];
      offset := offset + len;
    }
  }
}
