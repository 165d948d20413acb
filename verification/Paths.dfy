/** Paths and inode numbers (rafs/src/metadata/mod.rs): `path_from_ino` and `ino_from_path`. */
module Paths {
  import opened Common
  import opened Names

  type Path = seq<Byte>

  const SLASH: Byte := 47
  const ROOT_PATH: Path := [SLASH]

  predicate IsAbsolute(p: Path) {
    p != [] && p[0] == SLASH
  }

  /** `Path::join`: an absolute path replaces the base; joining the empty path leaves a trailing slash. */
  function Join(base: Path, p: Path): Path {
    if IsAbsolute(p) then p
    else if base == [] || base[|base| - 1] == SLASH then base + p
    else base + [SLASH] + p
  }

  function Emit(part: Path): seq<Name> {
    if part == [] || part == DOT then [] else [part]
  }

  /** `Path::components` of an absolute path without the root: empty and "." parts vanish. */
  function Parse(p: Path, part: Path): seq<Name>
    decreases p
  {
    if p == [] then Emit(part)
    else if p[0] == SLASH then Emit(part) + Parse(p[1..], [])
    else Parse(p[1..], part + [p[0]])
  }

  function Components(p: Path): seq<Name> { Parse(p, []) }

  /** A name that a directory entry can have. */
  predicate Proper(n: Name) {
    n != [] && n != DOT && n != DOTDOT && SLASH !in n
  }

  /** The names joined, each followed by a slash. */
  ghost function Relative(names: seq<Name>): Path {
    if names == [] then [] else names[0] + [SLASH] + Relative(names[1..])
  }

  ghost predicate AllProper(names: seq<Name>) {
    forall i | 0 <= i < |names| :: Proper(names[i])
  }

  lemma {:induction false} ParseName(n: Name, rest: Path, part: Path)
    requires SLASH !in n
    ensures Parse(n + [SLASH] + rest, part) == Emit(part + n) + Parse(rest, [])
    decreases n
  {
    var p := n + [SLASH] + rest;
    if n == [] {
      assert p[1..] == rest && part + n == part;
    } else {
      assert p[1..] == n[1..] + [SLASH] + rest;
      assert part + [n[0]] + n[1..] == part + n;
      ParseName(n[1..], rest, part + [n[0]]);
    }
  }

  /** Splitting the joined names gives them back. */
  lemma {:induction false} ParseRelative(names: seq<Name>)
    requires AllProper(names)
    ensures Components(Relative(names)) == names
  {
    if names != [] {
      ParseRelative(names[1..]);
      ParseName(names[0], Relative(names[1..]), []);
      assert [] + names[0] == names[0];
    }
  }

  lemma JoinName(n: Name, names: seq<Name>)
    requires Proper(n) && AllProper(names)
    ensures Join(n, Relative(names)) == Relative([n] + names)
  {
    assert ([n] + names)[1..] == names;
    assert n[|n| - 1] in n;
    if names != [] { assert Relative(names)[0] == names[0][0] && names[0][0] in names[0]; }
  }

  lemma RootPath(names: seq<Name>)
    requires AllProper(names)
    ensures Join(ROOT_PATH, Relative(names)) == ROOT_PATH + Relative(names)
    ensures Components(ROOT_PATH + Relative(names)) == names
  {
    if names != [] { assert Relative(names)[0] == names[0][0] && names[0][0] in names[0]; }
    ParseRelative(names);
    assert (ROOT_PATH + Relative(names))[1..] == Relative(names);
  }

  /** The absolute path of a list of names, without a slash at its end. */
  ghost function PathTo(names: seq<Name>): Path {
    if names == [] then ROOT_PATH
    else if |names| == 1 then ROOT_PATH + names[0]
    else PathTo(names[..|names| - 1]) + [SLASH] + names[|names| - 1]
  }

  /** Joining a name adds one component, at the root and below it. */
  lemma JoinBelow(names: seq<Name>, n: Name)
    requires AllProper(names) && Proper(n)
    ensures Join(PathTo(names), n) == PathTo(names + [n])
  {
    assert n[0] in n && (names + [n])[..|names|] == names;
    if names != [] {
      var last := names[|names| - 1];
      assert last[|last| - 1] in last;
      assert PathTo(names)[|PathTo(names)| - 1] == last[|last| - 1];
    }
  }

  lemma {:induction false} RelativeSnoc(names: seq<Name>, n: Name)
    ensures Relative(names + [n]) == Relative(names) + (n + [SLASH])
  {
    if names == [] {
      assert [] + [n] == [n] && [n][1..] == [];
      assert n + [SLASH] + [] == n + [SLASH] && [] + (n + [SLASH]) == n + [SLASH];
    } else {
      assert (names + [n])[0] == names[0] && (names + [n])[1..] == names[1..] + [n];
      RelativeSnoc(names[1..], n);
      Regroup(names[0] + [SLASH], Relative(names[1..]), n + [SLASH]);
    }
  }

  lemma {:induction false} PathToIs(names: seq<Name>)
    requires names != []
    ensures PathTo(names) + [SLASH] == ROOT_PATH + Relative(names)
  {
    var n := names[|names| - 1];
    var front := names[..|names| - 1];
    assert names == front + [n];
    RelativeSnoc(front, n);
    if front == [] {
      assert Relative([]) + (n + [SLASH]) == n + [SLASH];
      assert PathTo(names) == ROOT_PATH + n;
      Regroup(ROOT_PATH, n, [SLASH]);
    } else {
      PathToIs(front);
      Regroup(PathTo(front) + [SLASH], n, [SLASH]);
      Regroup(ROOT_PATH, Relative(front), n + [SLASH]);
    }
  }

  /** A slash separates: what is split on both sides of it is independent. */
  lemma {:induction false} ParseJoined(a: Path, b: Path, part: Path)
    ensures Parse(a + [SLASH] + b, part) == Parse(a, part) + Parse(b, [])
    decreases a
  {
    var p := a + [SLASH] + b;
    if a == [] {
      assert p[1..] == b && p[0] == SLASH;
    } else {
      assert p[0] == a[0] && p[1..] == a[1..] + [SLASH] + b;
      ParseJoined(a[1..], b, if a[0] == SLASH then [] else part + [a[0]]);
      if a[0] == SLASH { Regroup(Emit(part), Parse(a[1..], []), Parse(b, [])); }
    }
  }

  lemma {:induction false} ParseOne(n: Name, part: Path)
    requires SLASH !in n
    ensures Parse(n, part) == Emit(part + n)
    decreases n
  {
    if n == [] {
      assert part + n == part;
    } else {
      ParseOne(n[1..], part + [n[0]]);
      assert part + [n[0]] + n[1..] == part + n;
    }
  }

  /** The laws of splitting, for all paths: a slash separates, empty parts and "." vanish, and everything
      else between slashes, ".." included, is a component. */
  lemma ComponentsLaws(a: Path, b: Path, n: Name)
    requires SLASH !in n
    ensures Components(a + [SLASH] + b) == Components(a) + Components(b)
    ensures Components(n) == if n == [] || n == [46] then [] else [n]
  {
    ParseJoined(a, b, []);
    ParseOne(n, []);
    assert [] + n == n;
  }

  /** A slash at the end of a path changes nothing. */
  lemma {:induction false} TrailingSlash(p: Path, part: Path)
    ensures Parse(p + [SLASH], part) == Parse(p, part)
    decreases p
  {
    if p == [] {
      assert [SLASH][1..] == [] && Parse([SLASH], part) == Emit(part) + [];
    } else {
      assert (p + [SLASH])[1..] == p[1..] + [SLASH];
      TrailingSlash(p[1..], if p[0] == SLASH then [] else part + [p[0]]);
    }
  }

  /** Splitting an absolute path gives its names, the last one included. */
  lemma ParseAbsolute(names: seq<Name>)
    requires AllProper(names)
    ensures IsAbsolute(PathTo(names)) && Components(PathTo(names)) == names
  {
    if names == [] {
      assert ROOT_PATH[1..] == [] && Parse(ROOT_PATH, []) == Emit([]) + Parse([], []);
    } else {
      TrailingSlash(PathTo(names), []);
      PathToIs(names);
      RootPath(names);
      StartsAtRoot(names);
    }
  }

  lemma {:induction false} StartsAtRoot(names: seq<Name>)
    ensures IsAbsolute(PathTo(names))
  {
    if |names| > 1 { StartsAtRoot(names[..|names| - 1]); }
  }

  // ----- The file system --------------------------------------------------------------------------

  datatype Node = Node(name: Name, parent: nat)

  /** `node` is what `get_extended_inode` finds for a number, `lookup` what `get_child_by_name` finds. */
  datatype FileSystem = FileSystem(root: nat, node: nat -> Result<Node>, lookup: (nat, Name) -> Result<nat>)

  /** A lookup on the way down: every error it reports becomes ENOENT. */
  function Child(fs: FileSystem, dir: nat, name: Name): Result<nat> {
    match fs.lookup(dir, name)
    case Ok(ino) => Ok(ino)
    case Err(e) => Err(if e == Overflow then Overflow else ENOENT)
  }

  /** Following names from the root. */
  function Resolve(fs: FileSystem, names: seq<Name>): Result<nat>
    decreases |names|
  {
    if names == [] then Ok(fs.root)
    else
      var dir :- Resolve(fs, names[..|names| - 1]);
      Child(fs, dir, names[|names| - 1])
  }

  ghost predicate RootOk(fs: FileSystem) {
    fs.node(fs.root).Ok? && fs.node(fs.root).value.name == ROOT_PATH
  }

  /** Going to the parent lowers the rank, so no way up is endless. */
  ghost predicate Climbs(fs: FileSystem, rank: nat -> nat) {
    forall i | i != fs.root && fs.node(i).Ok? :: rank(fs.node(i).value.parent) < rank(i)
  }

  /** The names from the root down to `ino`, or the error met on the way up. */
  ghost function NamesOf(fs: FileSystem, rank: nat -> nat, ino: nat): Result<seq<Name>>
    requires Climbs(fs, rank)
    decreases rank(ino)
  {
    if ino == fs.root then Ok([])
    else
      var n :- fs.node(ino);
      var up :- NamesOf(fs, rank, n.parent);
      Ok(up + [n.name])
  }

  /** `below` in front of which the names down to an inode belong. */
  ghost function Under(up: Result<seq<Name>>, below: seq<Name>): Result<seq<Name>> {
    match up
    case Ok(names) => Ok(names + below)
    case Err(e) => Err(e)
  }

  lemma UnderNext(up: Result<seq<Name>>, name: Name, below: seq<Name>)
    ensures Under(Under(up, [name]), below) == Under(up, [name] + below)
  {
    if up.Ok? { Regroup(up.value, [name], below); }
  }

  lemma ProperParts(a: seq<Name>, b: seq<Name>)
    requires AllProper(a + b)
    ensures AllProper(a) && AllProper(b)
  {
    forall i | 0 <= i < |a| ensures Proper(a[i]) { assert (a + b)[i] == a[i]; }
    forall i | 0 <= i < |b| ensures Proper(b[i]) { assert (a + b)[|a| + i] == b[i]; }
  }

  /** `path_from_ino`: the path made of the names from the root down, or the first error on the way up. */
  method PathFromIno(fs: FileSystem, ino: nat, ghost rank: nat -> nat) returns (r: Result<Path>)
    requires RootOk(fs) && Climbs(fs, rank)
    ensures match NamesOf(fs, rank, ino)
            case Err(e) => r == Err(e)
            case Ok(names) => AllProper(names) ==> r == Ok(ROOT_PATH + Relative(names))
  {
    if ino == fs.root {
      assert ROOT_PATH + Relative([]) == ROOT_PATH;
      return Ok(fs.node(ino).value.name);
    }
    var path, cur := [], ino;
    ghost var done: seq<Name> := [];
    if NamesOf(fs, rank, ino).Ok? { assert NamesOf(fs, rank, ino).value + [] == NamesOf(fs, rank, ino).value; }
    while true
      invariant NamesOf(fs, rank, ino) == Under(NamesOf(fs, rank, cur), done)
      invariant AllProper(done) ==> path == Relative(done)
      decreases rank(cur)
    {
      var node := fs.node(cur);
      if node.Err? { return Err(node.error); }
      var name := node.value.name;
      if cur == fs.root {
        path := Join(name, path);
        if AllProper(done) { RootPath(done); }
        assert [] + done == done;
        return Ok(path);
      }
      path := Join(name, path);
      if AllProper([name] + done) {
        ProperParts([name], done);
        assert Proper([name][0]);
        JoinName(name, done);
      }
      UnderNext(NamesOf(fs, rank, node.value.parent), name, done);
      cur := node.value.parent;
      done := [name] + done;
    }
  }

  /** `ino_from_path`: relative paths are refused; "/" in any spelling is the root; everything else is
      looked up name by name. */
  method InoFromPath(fs: FileSystem, path: Path) returns (r: Result<nat>)
    requires RootOk(fs)
    ensures r == if !IsAbsolute(path) then Err(EINVAL) else Resolve(fs, Components(path))
  {
    if IsAbsolute(path) && Components(path) == [] { return Ok(fs.root); }
    if !IsAbsolute(path) { return Err(EINVAL); }
    r := Follow(fs, Components(path));
  }

  method Follow(fs: FileSystem, entries: seq<Name>) returns (r: Result<nat>)
    ensures r == Resolve(fs, entries)
  {
    var parent, i := fs.root, 0;
    while i < |entries|
      invariant 0 <= i <= |entries| && Resolve(fs, entries[..i]) == Ok(parent)
    {
      ResolveNext(fs, entries, i);
      var child := Child(fs, parent, entries[i]);
      if child.Err? {
        ResolveStops(fs, entries, i + 1);
        return Err(child.error);
      }
      parent := child.value;
      i := i + 1;
    }
    assert entries[..i] == entries;
    r := Ok(parent);
  }

  lemma ResolveNext(fs: FileSystem, names: seq<Name>, i: nat)
    requires i < |names| && Resolve(fs, names[..i]).Ok?
    ensures Resolve(fs, names[..i + 1]) == Child(fs, Resolve(fs, names[..i]).value, names[i])
  {
    assert names[..i + 1][..i] == names[..i];
  }

  lemma {:induction false} ResolveStops(fs: FileSystem, names: seq<Name>, i: nat)
    requires i <= |names| && Resolve(fs, names[..i]).Err?
    ensures Resolve(fs, names) == Resolve(fs, names[..i])
    decreases |names|
  {
    if i == |names| {
      assert names[..i] == names;
    } else {
      var front := names[..|names| - 1];
      assert front[..i] == names[..i];
      ResolveStops(fs, front, i);
    }
  }

  /** The path of an inode leads to where its names resolve to. */
  method RoundTrip(fs: FileSystem, ino: nat, ghost rank: nat -> nat) returns (r: Result<nat>)
    requires RootOk(fs) && Climbs(fs, rank)
    ensures match NamesOf(fs, rank, ino)
            case Err(e) => r == Err(e)
            case Ok(names) => AllProper(names) ==> r == Resolve(fs, names)
  {
    var path := PathFromIno(fs, ino, rank);
    if path.Err? { return Err(path.error); }
    if NamesOf(fs, rank, ino).Ok? && AllProper(NamesOf(fs, rank, ino).value) { RootPath(NamesOf(fs, rank, ino).value); }
    r := InoFromPath(fs, path.value);
  }

  // ----- When the path leads back ---------------------------------------------------------------------

  /** The parent of `i` lists it under its name. */
  ghost predicate Linked(fs: FileSystem, i: nat) {
    || i == fs.root
    || (&& fs.node(i).Ok? && Proper(fs.node(i).value.name)
        && Child(fs, fs.node(i).value.parent, fs.node(i).value.name) == Ok(i))
  }

  /** So do all parents up to the root. */
  ghost predicate LinkedUp(fs: FileSystem, rank: nat -> nat, i: nat)
    requires Climbs(fs, rank)
    decreases rank(i)
  {
    Linked(fs, i) && (i != fs.root ==> LinkedUp(fs, rank, fs.node(i).value.parent))
  }

  lemma ResolveSnoc(fs: FileSystem, up: seq<Name>, name: Name)
    ensures Resolve(fs, up).Ok? ==> Resolve(fs, up + [name]) == Child(fs, Resolve(fs, up).value, name)
    ensures Resolve(fs, up).Err? ==> Resolve(fs, up + [name]) == Resolve(fs, up)
    ensures AllProper(up + [name]) <==> AllProper(up) && Proper(name)
  {
    var names := up + [name];
    assert names[..|names| - 1] == up;
    if AllProper(names) { assert Proper(names[|up|]); ProperParts(up, [name]); }
  }

  /** Then the names of `i` are proper and resolve to it, so its path leads back. */
  lemma {:induction false} LinkedResolves(fs: FileSystem, rank: nat -> nat, i: nat)
    requires Climbs(fs, rank) && LinkedUp(fs, rank, i)
    ensures match NamesOf(fs, rank, i)
            case Ok(names) => AllProper(names) && Resolve(fs, names) == Ok(i)
            case Err(_) => false
    decreases rank(i)
  {
    if i != fs.root {
      var n := fs.node(i).value;
      LinkedResolves(fs, rank, n.parent);
      ResolveSnoc(fs, NamesOf(fs, rank, n.parent).value, n.name);
    }
  }
}
