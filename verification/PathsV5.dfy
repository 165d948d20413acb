/** Paths in a loaded RAFS v5 image (rafs/src/metadata/mod.rs, rafs/src/metadata/cached_v5.rs). */
module PathsV5 {
  import opened Common
  import opened Names
  import opened CachedV5
  import opened Paths
  import DirectV5

  /** The answer of a lookup by name among the children of inode `dir`. */
  function LookupIn(s: State, dir: nat, name: Name): Result<nat>
    requires s.Valid()
  {
    if dir !in s.table then Err(ENOENT)
    else
      var child :- DirectV5.ScanKids(DirectV5.LoadedKids(s, s.table[dir]), name);
      Ok(child.ino)
  }

  function NodeIn(s: State, ino: nat): Result<Node>
    requires s.Valid()
  {
    if ino !in s.table then Err(ENOENT)
    else
      var i := s.nodes[s.table[ino]];
      Ok(Node(i.name, i.parent))
  }

  /** The file system a loaded state presents. */
  function FsOf(s: State): FileSystem
    requires s.Valid()
  {
    FileSystem(ROOT_INODE, (ino: nat) => NodeIn(s, ino), (dir: nat, name: Name) => LookupIn(s, dir, name))
  }

  /** Correct child counts, unique names below every parent, a root that is a directory called "/", and
      names that a directory entry can have everywhere else. */
  ghost predicate Named(img: seq<Inode>) {
    && (forall d | 0 <= d < |img| && img[d].IsDir() :: img[d].childCnt == ChildrenOf(img, img[d].ino))
    && (forall i, j | 0 <= i < j < |img| :: img[i].parent == img[j].parent ==> img[i].name != img[j].name)
    && (exists r | 0 <= r < |img| :: img[r].ino == ROOT_INODE)
    && (forall i | 0 <= i < |img| ::
          if img[i].ino == ROOT_INODE then img[i].IsDir() && img[i].name == ROOT_PATH else Proper(img[i].name))
  }

  /** What loading guarantees, as the lookups need it. */
  ghost predicate LoadedAs(s: State, img: seq<Inode>) {
    && Loaded(s, img)
    && (forall i | 0 <= i < |img| :: img[i].ino in s.table)
    && (forall ino | ino in s.table :: img[s.table[ino]].ino == ino)
    && (forall d | 0 <= d < |img| && img[d].IsDir() :: SortedList(img, s.children[d]))
  }

  lemma LoadingGives(img: seq<Inode>, chunkSize: nat)
    requires chunkSize > 0 && WellFormed(img, chunkSize) && Named(img)
    ensures LoadAll(img, chunkSize).Ok? && LoadedAs(LoadAll(img, chunkSize).value, img)
  {
    LoadIsSafeAndComplete(img, chunkSize);
    TableIsComplete(img, chunkSize);
  }

  lemma TableIsComplete(img: seq<Inode>, chunkSize: nat)
    requires chunkSize > 0 && WellFormed(img, chunkSize)
    ensures LoadAll(img, chunkSize).Ok?
    ensures var s := LoadAll(img, chunkSize).value;
            && (forall i | 0 <= i < |img| :: img[i].ino in s.table)
            && (forall ino | ino in s.table :: s.table[ino] < |img| && img[s.table[ino]].ino == ino)
  {
    BothPhases(img, chunkSize);
    NumbersStay(EMPTY, img, chunkSize);
    assert img[..|img|] == img;
  }

  lemma {:induction false} CountTwice(list: seq<nat>, a: nat, b: nat)
    requires a < b < |list| && list[a] == list[b]
    ensures Count(list, list[a]) >= 2
    decreases |list|
  {
    var front := list[..|list| - 1];
    if b < |list| - 1 {
      CountTwice(front, a, b);
    } else {
      DirectV5.CountsAsMember(front, list[a]);
      assert front[a] == list[a];
    }
  }

  lemma CountIs(s: State, img: seq<Inode>, d: nat, x: nat)
    requires LoadedAs(s, img) && d < |img| && x < |img|
    ensures x in s.children[d] <==> img[d].IsDir() && img[x].parent == img[d].ino
    ensures Count(s.children[d], x) <= 1
  {
    assert Count(s.children[d], x) == if img[d].IsDir() && img[x].parent == img[d].ino then 1 else 0;
    DirectV5.CountsAsMember(s.children[d], x);
  }

  /** The child list of a directory is strictly ascending by name. */
  lemma KidsAscend(s: State, img: seq<Inode>, d: nat)
    requires LoadedAs(s, img) && Named(img) && d < |img| && img[d].IsDir()
    ensures DirectV5.Ascending(DirectV5.LoadedKids(s, d))
  {
    var list, kids := s.children[d], DirectV5.LoadedKids(s, d);
    forall a, b | 0 <= a < b < |kids| ensures Less(kids[a].name, kids[b].name) {
      var x, y := list[a], list[b];
      CountIs(s, img, d, x);
      CountIs(s, img, d, y);
      if x == y { CountTwice(list, a, b); }
      assert img[x].parent == img[y].parent && AtMost(img[x].name, img[y].name);
    }
  }

  /** `get_child_by_name` of the inode with number `dir`, by binary search. */
  method Lookup(s: State, dir: nat, name: Name, ghost img: seq<Inode>) returns (r: Result<nat>)
    requires LoadedAs(s, img) && Named(img)
    ensures r == FsOf(s).lookup(dir, name)
  {
    if dir !in s.table { return Err(ENOENT); }
    var d := s.table[dir];
    if img[d].IsDir() { KidsAscend(s, img, d); } else { NoKids(s, img, d); }
    var child := DirectV5.CachedGetChildByName(s, d, name);
    r := if child.Ok? then Ok(child.value.ino) else Err(child.error);
  }

  lemma NoKids(s: State, img: seq<Inode>, d: nat)
    requires LoadedAs(s, img) && d < |img| && !img[d].IsDir()
    ensures s.children[d] == []
  {
    var list := s.children[d];
    assert Below(list, |img|);
    if list != [] { CountIs(s, img, d, list[0]); }
  }

  // ----- The way up -------------------------------------------------------------------------------

  /** Directories by number, everything else above them. */
  ghost function Rank(s: State, img: seq<Inode>): nat -> nat
    requires LoadedAs(s, img)
  {
    ino => if ino in s.table && img[s.table[ino]].IsDir() then ino else MaxIno(img, 0) + 1
  }

  /** The directory that inode `i` names as its parent. */
  lemma ParentDir(s: State, img: seq<Inode>, i: nat, chunkSize: nat) returns (j: nat)
    requires chunkSize > 0 && WellFormed(img, chunkSize) && LoadedAs(s, img) && i < |img| && img[i].ino != ROOT_INODE
    ensures j < |img| && img[j].IsDir() && img[j].ino == img[i].parent && s.table[img[j].ino] == j
    ensures img[i].IsDir() ==> img[i].parent < img[i].ino
  {
    assert img[i].Validate(chunkSize) && GoodParent(img, i);
    j :| 0 <= j < i && img[j].IsDir() && img[j].ino == img[i].parent;
  }

  /** Validation makes the parent number of every directory smaller, and files are no parents, so the
      way up is finite. */
  lemma WayUpEnds(s: State, img: seq<Inode>, chunkSize: nat)
    requires chunkSize > 0 && WellFormed(img, chunkSize) && LoadedAs(s, img)
    ensures Climbs(FsOf(s), Rank(s, img))
  {
    var fs, rank := FsOf(s), Rank(s, img);
    forall ino | ino != fs.root && fs.node(ino).Ok? ensures rank(fs.node(ino).value.parent) < rank(ino) {
      var j := ParentDir(s, img, s.table[ino], chunkSize);
      MaxInoBounds(img, 0);
      assert img[j].ino <= MaxIno(img, 0);
    }
  }

  /** Every parent finds its child by name. */
  lemma ParentFinds(s: State, img: seq<Inode>, ino: nat, chunkSize: nat)
    requires chunkSize > 0 && WellFormed(img, chunkSize) && Named(img) && LoadedAs(s, img) && ino in s.table
    ensures Linked(FsOf(s), ino)
  {
    var i := s.table[ino];
    if ino != ROOT_INODE {
      var j := ParentDir(s, img, i, chunkSize);
      KidIsFound(s, img, j, i);
    }
  }

  lemma KidIsFound(s: State, img: seq<Inode>, j: nat, i: nat)
    requires LoadedAs(s, img) && Named(img) && j < |img| && i < |img| && img[j].IsDir() && img[i].parent == img[j].ino
    ensures LookupIn(s, img[j].ino, img[i].name) == Ok(img[i].ino)
  {
    KidsAscend(s, img, j);
    CountIs(s, img, j, i);
    var k :| 0 <= k < |s.children[j]| && s.children[j][k] == i;
    DirectV5.ScanFinds(DirectV5.LoadedKids(s, j), img[i].name, k);
  }

  lemma {:induction false} AllLinked(s: State, img: seq<Inode>, ino: nat, chunkSize: nat)
    requires chunkSize > 0 && WellFormed(img, chunkSize) && Named(img) && LoadedAs(s, img) && ino in s.table
    requires Climbs(FsOf(s), Rank(s, img))
    ensures LinkedUp(FsOf(s), Rank(s, img), ino)
    decreases Rank(s, img)(ino)
  {
    ParentFinds(s, img, ino, chunkSize);
    if ino != ROOT_INODE {
      var j := ParentDir(s, img, s.table[ino], chunkSize);
      assert FsOf(s).node(ino).value.parent == img[j].ino;
      AllLinked(s, img, img[j].ino, chunkSize);
    }
  }

  /** In every well-formed image with unique names the path of every inode, hardlinks included, resolves
      to an inode with its number. */
  method RoundTripV5(img: seq<Inode>, i: nat, chunkSize: nat) returns (r: Result<nat>)
    requires chunkSize > 0 && WellFormed(img, chunkSize) && Named(img) && i < |img|
    ensures r == Ok(img[i].ino)
  {
    LoadingGives(img, chunkSize);
    var s := LoadAll(img, chunkSize).value;
    ghost var rank := Rank(s, img);
    WayUpEnds(s, img, chunkSize);
    AllLinked(s, img, img[i].ino, chunkSize);
    LinkedResolves(FsOf(s), rank, img[i].ino);
    RootIsRoot(s, img);
    r := RoundTrip(FsOf(s), img[i].ino, rank);
  }

  lemma RootIsRoot(s: State, img: seq<Inode>)
    requires LoadedAs(s, img) && Named(img)
    ensures RootOk(FsOf(s))
  {
    var r :| 0 <= r < |img| && img[r].ino == ROOT_INODE;
    assert img[r].ino in s.table;
  }
}
