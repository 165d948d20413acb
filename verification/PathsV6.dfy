/** Paths of directories in a RAFS v6 image (rafs/src/metadata/direct_v6.rs).  An inode records neither
    its parent nor its name: the parent is looked up as "..", and the name by walking the parent. */
module PathsV6 {
  import opened Common
  import opened Names
  import opened DirentV6
  import opened DirV6
  import opened Readdir
  import opened DirV6Walk
  import opened Paths

  /** The directories of an image by inode number, and the entries their blocks hold. */
  datatype Volume = Volume(root: nat, dirs: map<nat, Dir>, entries: map<nat, seq<seq<Entry>>>) {
    function Entries(i: nat): seq<Entry>
      requires i in entries
    {
      Flatten(entries[i])
    }
  }

  /** A well-formed directory whose "." and ".." are itself and a directory. */
  ghost predicate DirOk(v: Volume, i: nat) {
    && i in v.dirs && i in v.entries && WellFormed(v.dirs[i], v.entries[i])
    && Scan(v.Entries(i), DOT) == Ok(i)
    && Scan(v.Entries(i), DOTDOT).Ok? && Scan(v.Entries(i), DOTDOT).value in v.dirs
  }

  ghost predicate VolumeOk(v: Volume) {
    v.root in v.dirs && forall i {:trigger DirOk(v, i)} | i in v.dirs :: DirOk(v, i)
  }

  lemma HasDir(v: Volume, i: nat)
    requires VolumeOk(v) && i in v.dirs
    ensures DirOk(v, i)
  {
  }

  // ----- Lookups ------------------------------------------------------------------------------------

  /** `get_child_by_name` of inode `dir`; only directories have children. */
  function LookupIn(v: Volume, dir: nat, name: Name): Result<nat> {
    if dir !in v.dirs || dir !in v.entries || !NonEmpty(v.entries[dir]) then Err(ENOENT)
    else if Underflows(LastFull(v.dirs[dir]), v.entries[dir], name) then Err(Overflow)
    else Scan(v.Entries(dir), name)
  }

  /** The name of the first entry with the given number. */
  function FirstName(es: seq<Entry>, nid: nat): Option<Name> {
    if es == [] then None else if es[0].nid == nid then Some(es[0].name) else FirstName(es[1..], nid)
  }

  /** `get_name`: the walk of the parent stops at the first entry that leads here. */
  function NameOf(v: Volume, parent: nat, ino: nat): Result<Name>
    requires parent in v.dirs && parent in v.entries
  {
    match FirstName(Readable(v.dirs[parent], v.entries[parent]), ino)
    case Some(name) => Ok(name)
    case None => if LastFull(v.dirs[parent]) then Err(Overflow) else Err(AssertFailed)
  }

  /** `get_extended_inode`: it knows the root and finds out about other directories. */
  function NodeIn(v: Volume, ino: nat): Result<Node> {
    if ino == v.root then Ok(Node(ROOT_PATH, v.root))
    else if ino !in v.dirs then Err(ENOENT)
    else
      var parent :- LookupIn(v, ino, DOTDOT);
      if parent !in v.dirs || parent !in v.entries then Err(ENOENT)
      else
        var name :- NameOf(v, parent, ino);
        Ok(Node(name, parent))
  }

  function FsOf(v: Volume): FileSystem {
    FileSystem(v.root, (ino: nat) => NodeIn(v, ino), (dir: nat, name: Name) => LookupIn(v, dir, name))
  }

  method FindChild(v: Volume, dir: nat, name: Name) returns (r: Result<nat>)
    requires DirOk(v, dir)
    ensures r == LookupIn(v, dir, name)
  {
    r := GetChildByName(v.dirs[dir], name, v.entries[dir]);
  }

  method Lookup(v: Volume, dir: nat, name: Name) returns (r: Result<nat>)
    requires VolumeOk(v)
    ensures r == FsOf(v).lookup(dir, name)
  {
    if dir !in v.dirs { return Err(ENOENT); }
    HasDir(v, dir);
    r := FindChild(v, dir, name);
  }

  /** `get_parent`. */
  method GetParent(v: Volume, ino: nat) returns (r: Result<nat>)
    requires DirOk(v, ino)
    ensures r == LookupIn(v, ino, DOTDOT)
  {
    r := FindChild(v, ino, DOTDOT);
  }

  /** The handler of `get_name`. */
  function StopAt(ino: nat): Handler {
    (calls: seq<Visit>) => if calls != [] && calls[|calls| - 1].ino == ino then Break else Continue
  }

  /** The same for the listing from position `k` on. */
  ghost function FirstFrom(list: seq<Listed>, k: nat, ino: nat): Option<Name>
    decreases |list| - k
  {
    if k >= |list| then None else if list[k].ino == ino then Some(list[k].name) else FirstFrom(list, k + 1, ino)
  }

  lemma {:induction false} SameFirst(es: seq<Entry>, k: nat, ino: nat)
    requires k <= |es|
    ensures FirstFrom(Listing(es), k, ino) == FirstName(es[k..], ino)
    decreases |es| - k
  {
    if k < |es| {
      assert es[k..][1..] == es[k + 1..] && es[k..][0] == es[k];
      SameFirst(es, k + 1, ino);
    }
  }

  ghost predicate EndsAt(calls: seq<Visit>, ino: nat) {
    calls != [] && calls[|calls| - 1].ino == ino
  }

  lemma {:induction false} WalkToName(list: seq<Listed>, k: nat, ino: nat, seen: seq<Visit>)
    requires !EndsAt(seen, ino)
    ensures var (calls, end) := WalkFrom(list, k, StopAt(ino), seen);
            match FirstFrom(list, k, ino)
            case Some(name) => end == Stopped && EndsAt(calls, ino) && calls[|calls| - 1].name == name
            case None => end == Finished && !EndsAt(calls, ino)
    decreases |list| - k
  {
    if k < |list| {
      var next := seen + [Tag(list, k)];
      assert next[|next| - 1] == Tag(list, k);
      assert StopAt(ino)(next) == if list[k].ino == ino then Break else Continue;
      if list[k].ino != ino { WalkToName(list, k + 1, ino, next); }
    }
  }

  lemma WalkEndsAtName(es: seq<Entry>, full: bool, ino: nat, calls: seq<Visit>, done: Result<()>)
    requires WalkEnded(Listing(es), 0, StopAt(ino), full, calls, done)
    ensures match FirstName(es, ino)
            case Some(name) => done.Ok? && EndsAt(calls, ino) && calls[|calls| - 1].name == name
            case None => if full then done == Err(Overflow) else done.Ok? && !EndsAt(calls, ino)
  {
    WalkToName(Listing(es), 0, ino, []);
    SameFirst(es, 0, ino);
    assert es[0..] == es;
  }

  /** The walk of a directory for the entry of `ino`. */
  method WalkForName(d: Dir, ino: nat, ghost dir: seq<seq<Entry>>) returns (r: Result<Name>)
    ensures WellFormed(d, dir) ==>
              r == match FirstName(Readable(d, dir), ino)
                   case Some(name) => Ok(name)
                   case None => if LastFull(d) then Err(Overflow) else Err(AssertFailed)
  {
    var calls, done := WalkChildren(d, 0, StopAt(ino), dir);
    if WellFormed(d, dir) { WalkEndsAtName(Readable(d, dir), LastFull(d), ino, calls, done); }
    if done.Err? { return Err(done.error); }
    r := if calls != [] && calls[|calls| - 1].ino == ino then Ok(calls[|calls| - 1].name) else Err(AssertFailed);
  }

  /** `get_name`. */
  method GetName(v: Volume, parent: nat, ino: nat) returns (r: Result<Name>)
    requires DirOk(v, parent)
    ensures r == NameOf(v, parent, ino)
  {
    r := WalkForName(v.dirs[parent], ino, v.entries[parent]);
  }

  /** `get_extended_inode`. */
  method GetExtendedInode(v: Volume, ino: nat) returns (r: Result<Node>)
    requires VolumeOk(v)
    ensures r == FsOf(v).node(ino)
  {
    if ino == v.root { return Ok(Node(ROOT_PATH, v.root)); }
    if ino !in v.dirs { return Err(ENOENT); }
    HasDir(v, ino);
    var parent := GetParent(v, ino);
    if parent.Err? { return Err(parent.error); }
    HasDir(v, parent.value);
    var name := GetName(v, parent.value, ino);
    r := if name.Ok? then Ok(Node(name.value, parent.value)) else Err(name.error);
  }

  // ----- Entries in order ---------------------------------------------------------------------------

  lemma {:induction false} PlaceOf(dir: seq<seq<Entry>>, x: nat) returns (b: nat, i: nat)
    requires x < |Flatten(dir)|
    ensures IsPlace(dir, b, i) && Start(dir, b) + i == x && Flatten(dir)[x] == dir[b][i]
  {
    if x < |dir[0]| {
      b, i := 0, x;
    } else {
      b, i := PlaceOf(dir[1..], x - |dir[0]|);
      b := b + 1;
    }
  }

  lemma SortedIsAscending(dir: seq<seq<Entry>>)
    requires Sorted(dir)
    ensures AscendingNames(Flatten(dir))
  {
    var es := Flatten(dir);
    forall x, y | 0 <= x < y < |es| ensures Less(es[x].name, es[y].name) {
      var b1, i1 := PlaceOf(dir, x);
      var b2, i2 := PlaceOf(dir, y);
      if b2 < b1 {
        StartStep(dir, b2);
        StartMonotone(dir, b2 + 1, b1);
      }
      assert Earlier(b1, i1, b2, i2);
    }
  }

  lemma {:induction false} FirstIndex(es: seq<Entry>, nid: nat) returns (x: nat)
    requires exists k | 0 <= k < |es| :: es[k].nid == nid
    ensures x < |es| && es[x].nid == nid && (forall y | 0 <= y < x :: es[y].nid != nid)
    ensures FirstName(es, nid) == Some(es[x].name)
  {
    if es[0].nid == nid {
      x := 0;
    } else {
      var k :| 0 <= k < |es| && es[k].nid == nid;
      assert es[1..][k - 1].nid == nid;
      x := FirstIndex(es[1..], nid);
      x := x + 1;
    }
  }

  lemma {:induction false} FirstInPrefix(es: seq<Entry>, k: nat, nid: nat, x: nat)
    requires k <= |es| && x < |es| && es[x].nid == nid && (forall y | 0 <= y < x :: es[y].nid != nid)
    ensures FirstName(es[..k], nid) == if x < k then Some(es[x].name) else None
    decreases es
  {
    if k > 0 && x > 0 {
      assert es[..k][1..] == es[1..][..k - 1];
      FirstInPrefix(es[1..], k - 1, nid, x - 1);
    }
  }

  lemma NameIsFound(es: seq<Entry>, x: nat)
    requires AscendingNames(es) && x < |es|
    ensures Scan(es, es[x].name) == Ok(es[x].nid)
  {
    forall j | 0 <= j < x ensures es[j].name != es[x].name { Asymmetric(es[j].name, es[x].name); }
    ScanFinds(es, x);
  }

  /** The last entry lies in the last block. */
  lemma LastNeedsLastBlock(dir: seq<seq<Entry>>)
    requires NonEmpty(dir) && Sorted(dir)
    ensures Flatten(dir) != [] && NeedsLastBlock(dir, Flatten(dir)[|Flatten(dir)| - 1].name)
  {
    var b := |dir| - 1;
    var i := |dir[b]| - 1;
    assert dir[b] != [];
    FlattenAt(dir, b, i);
    StartStep(dir, b);
    if b > 0 {
      assert dir[b - 1] != [];
      assert IsPlace(dir, b - 1, |dir[b - 1]| - 1) && IsPlace(dir, b, i) && Earlier(b - 1, |dir[b - 1]| - 1, b, i);
    }
  }

  // ----- The tree of directories ----------------------------------------------------------------------

  /** What the lookups need of a directory. */
  ghost predicate Facts(v: Volume, i: nat) {
    && i in v.dirs && i in v.entries && NonEmpty(v.entries[i])
    && var es := v.Entries(i);
       && es != [] && AscendingNames(es) && NeedsLastBlock(v.entries[i], es[|es| - 1].name)
       && Scan(es, DOT) == Ok(i) && Scan(es, DOTDOT) == Ok(Up(v, i)) && Up(v, i) in v.dirs
  }

  /** The directory that ".." of `i` leads to. */
  function Up(v: Volume, i: nat): nat {
    if i in v.entries && Scan(v.Entries(i), DOTDOT).Ok? then Scan(v.Entries(i), DOTDOT).value else 0
  }

  lemma FactsOf(v: Volume, i: nat)
    requires VolumeOk(v) && i in v.dirs
    ensures Facts(v, i)
  {
    HasDir(v, i);
    SortedIsAscending(v.entries[i]);
    LastNeedsLastBlock(v.entries[i]);
  }

  ghost predicate HasChild(es: seq<Entry>, nid: nat) {
    exists k | 0 <= k < |es| :: es[k].nid == nid
  }

  ghost predicate ProperNames(es: seq<Entry>) {
    forall k | 0 <= k < |es| :: es[k].name == DOT || es[k].name == DOTDOT || Proper(es[k].name)
  }

  /** Unless it is the root, a directory is listed in the one above it. */
  ghost predicate InTree(v: Volume, rank: nat -> nat, i: nat) {
    && i in v.dirs && Up(v, i) in v.entries && i in v.entries && ProperNames(v.Entries(i))
    && if i == v.root then Up(v, i) == i else rank(Up(v, i)) < rank(i) && HasChild(v.Entries(Up(v, i)), i)
  }

  ghost predicate Tree(v: Volume, rank: nat -> nat) {
    VolumeOk(v) && forall i {:trigger InTree(v, rank, i)} | i in v.dirs :: InTree(v, rank, i)
  }

  lemma TreeDir(v: Volume, rank: nat -> nat, i: nat)
    requires Tree(v, rank) && i in v.dirs
    ensures Facts(v, i) && InTree(v, rank, i)
  {
    FactsOf(v, i);
  }

  /** The first entry for `i` in the directory `p` above it: neither dot leads to `i`. */
  lemma ChildEntry(v: Volume, rank: nat -> nat, i: nat, p: nat) returns (x: nat)
    requires Facts(v, p) && InTree(v, rank, i) && InTree(v, rank, p) && i != v.root && p == Up(v, i)
    ensures x < |v.Entries(p)| && v.Entries(p)[x].nid == i && (forall y | 0 <= y < x :: v.Entries(p)[y].nid != i)
    ensures var name := v.Entries(p)[x].name;
            FirstName(v.Entries(p), i) == Some(name) && Proper(name) && Scan(v.Entries(p), name) == Ok(i)
  {
    var es := v.Entries(p);
    x := FirstIndex(es, i);
    NameIsFound(es, x);
    assert Up(v, p) != i;
  }

  /** Neither lookup that leads to `i`, ".." from `i` and its name from above, reads an exactly full last
      block. */
  ghost predicate Clear(v: Volume, i: nat)
    requires Facts(v, i) && Facts(v, Up(v, i))
  {
    var p := Up(v, i);
    && !Underflows(LastFull(v.dirs[i]), v.entries[i], DOTDOT)
    && match FirstName(v.Entries(p), i)
       case Some(name) => !Underflows(LastFull(v.dirs[p]), v.entries[p], name)
       case None => false
  }

  /** What the walk of the directory above finds, and when it does not. */
  lemma NameOutcome(v: Volume, i: nat, p: nat, x: nat)
    requires Facts(v, p) && x < |v.Entries(p)| && v.Entries(p)[x].nid == i
    requires forall y | 0 <= y < x :: v.Entries(p)[y].nid != i
    ensures var name := v.Entries(p)[x].name;
            match NameOf(v, p, i)
            case Ok(n) => n == name
            case Err(e) => e == Overflow && Underflows(LastFull(v.dirs[p]), v.entries[p], name)
  {
    var es := v.Entries(p);
    FirstInPrefix(es, |es| - 1, i, x);
    FirstInPrefix(es, |es|, i, x);
    assert es[..|es|] == es;
  }

  /** What is known about directory `i`, and what a lookup of it from above gives. */
  lemma NodeOutcome(v: Volume, rank: nat -> nat, i: nat)
    requires Tree(v, rank) && i in v.dirs && i != v.root
    ensures Facts(v, i) && Facts(v, Up(v, i)) && rank(Up(v, i)) < rank(i)
    ensures match NodeIn(v, i)
            case Err(e) => e == Overflow && !Clear(v, i)
            case Ok(n) =>
              && n.parent == Up(v, i) && Proper(n.name)
              && LookupIn(v, n.parent, n.name) == if Clear(v, i) then Ok(i) else Err(Overflow)
  {
    TreeDir(v, rank, i);
    var p := Up(v, i);
    TreeDir(v, rank, p);
    var x := ChildEntry(v, rank, i, p);
    NameOutcome(v, i, p, x);
  }

  lemma WayUpEnds(v: Volume, rank: nat -> nat)
    requires Tree(v, rank)
    ensures Climbs(FsOf(v), rank)
  {
    var fs := FsOf(v);
    forall i | i != fs.root && fs.node(i).Ok? ensures rank(fs.node(i).value.parent) < rank(i) {
      NodeOutcome(v, rank, i);
    }
  }

  /** All directories from `i` up to the root are clear. */
  ghost predicate ClearUp(v: Volume, rank: nat -> nat, i: nat)
    requires Tree(v, rank) && i in v.dirs
    decreases rank(i)
  {
    i == v.root || (NodeOutcome(v, rank, i); Clear(v, i) && ClearUp(v, rank, Up(v, i)))
  }

  /** The path of a directory leads back to it, or one of the lookups on the way aborts. */
  lemma {:induction false} PathOutcome(v: Volume, rank: nat -> nat, i: nat)
    requires Tree(v, rank) && Climbs(FsOf(v), rank) && i in v.dirs
    ensures match NamesOf(FsOf(v), rank, i)
            case Err(e) => e == Overflow && !ClearUp(v, rank, i)
            case Ok(names) =>
              && AllProper(names)
              && Resolve(FsOf(v), names) == if ClearUp(v, rank, i) then Ok(i) else Err(Overflow)
    decreases rank(i)
  {
    if i != v.root {
      NodeOutcome(v, rank, i);
      PathOutcome(v, rank, Up(v, i));
      if NodeIn(v, i).Ok? {
        var n := NodeIn(v, i).value;
        var up := NamesOf(FsOf(v), rank, n.parent);
        if up.Ok? { ResolveSnoc(FsOf(v), up.value, n.name); }
      }
    }
  }

  /** For every directory of every tree the path resolves to the directory exactly if no lookup on the
      way reads an exactly full last block; other inodes have no path. */
  method RoundTripV6(v: Volume, ino: nat, ghost rank: nat -> nat) returns (r: Result<nat>)
    requires Tree(v, rank)
    ensures ino in v.dirs ==> r == if ClearUp(v, rank, ino) then Ok(ino) else Err(Overflow)
    ensures ino !in v.dirs ==> r == Err(ENOENT)
  {
    WayUpEnds(v, rank);
    if ino in v.dirs { PathOutcome(v, rank, ino); }
    r := RoundTrip(FsOf(v), ino, rank);
  }

  /** Without an exactly full directory every path leads back. */
  lemma {:induction false} NoneFullIsClear(v: Volume, rank: nat -> nat, i: nat)
    requires Tree(v, rank) && i in v.dirs && forall d | d in v.dirs :: !LastFull(v.dirs[d])
    ensures ClearUp(v, rank, i)
    decreases rank(i)
  {
    if i != v.root {
      NodeOutcome(v, rank, i);
      var p := Up(v, i);
      NoneFullIsClear(v, rank, p);
      TreeDir(v, rank, i);
      TreeDir(v, rank, p);
      var x := ChildEntry(v, rank, i, p);
      NotBelowFirst(v, p, x);
      var y := ScanGives(v.Entries(i), DOTDOT);
      NotBelowFirst(v, i, y);
    }
  }

  lemma {:induction false} ScanGives(es: seq<Entry>, name: Name) returns (x: nat)
    requires Scan(es, name).Ok?
    ensures x < |es| && es[x].name == name
  {
    if es[0].name == name {
      x := 0;
    } else {
      x := ScanGives(es[1..], name);
      x := x + 1;
    }
  }

  lemma NotBelowFirst(v: Volume, i: nat, x: nat)
    requires Facts(v, i) && x < |v.Entries(i)|
    ensures !Less(v.Entries(i)[x].name, Head(v.entries[i], 0))
  {
    var es := v.Entries(i);
    assert v.entries[i][0] != [] && IsPlace(v.entries[i], 0, 0);
    FlattenAt(v.entries[i], 0, 0);
    assert es[0].name == Head(v.entries[i], 0);
    if x > 0 { Asymmetric(es[0].name, es[x].name); } else { Irreflexive(es[0].name); }
  }
}
