/** Visiting a whole tree: the iterator with an explicit stack (rafs/src/lib.rs) and the recursive
    directory walk (rafs/src/metadata/mod.rs). */
module Traversal {
  import opened Common
  import opened Names
  import opened Paths

  /** An inode with its children as `get_child_by_index` returns them; `None` is a failing access. */
  datatype Tree = Tree(ino: nat, name: Name, isDir: bool, kids: seq<Option<Tree>>)

  datatype Item = Item(tree: Tree, path: Path)

  /** Depth-first order, leaving out what cannot be accessed. */
  function PreOrder(t: Tree, path: Path): seq<Item>
    decreases t, |t.kids| + 1
  {
    [Item(t, path)] + if t.isDir then Below(t, path, 0) else []
  }

  /** The part of it below the children from `i` on. */
  function Below(t: Tree, path: Path, i: nat): seq<Item>
    requires i <= |t.kids|
    decreases t, |t.kids| - i
  {
    if i == |t.kids| then []
    else
      (if t.kids[i].Some? then PreOrder(t.kids[i].value, Join(path, t.kids[i].value.name)) else []) +
      Below(t, path, i + 1)
  }

  // ----- The iterator -------------------------------------------------------------------------------

  /** What is still to come: the top of the stack is at its end. */
  ghost function Rest(stack: seq<Item>): seq<Item> {
    if stack == [] then []
    else PreOrder(stack[|stack| - 1].tree, stack[|stack| - 1].path) + Rest(stack[..|stack| - 1])
  }

  lemma RestPush(stack: seq<Item>, x: Item)
    ensures Rest(stack + [x]) == PreOrder(x.tree, x.path) + Rest(stack)
  {
    assert (stack + [x])[..|stack|] == stack;
  }

  lemma PushNext(stack: seq<Item>, t: Tree, path: Path, i: nat, rest: seq<Item>)
    requires i < |t.kids| && Rest(stack) == Below(t, path, i + 1) + rest
    ensures match t.kids[i]
            case None => Rest(stack) == Below(t, path, i) + rest
            case Some(c) => Rest(stack + [Item(c, Join(path, c.name))]) == Below(t, path, i) + rest
  {
    if t.kids[i].Some? {
      var c := t.kids[i].value;
      RestPush(stack, Item(c, Join(path, c.name)));
    }
  }

  class RafsIterator {
    var stack: seq<Item>

    /** With no root inode there is nothing to visit. */
    constructor (root: Option<Tree>)
      ensures Rest(stack) == if root.Some? then PreOrder(root.value, ROOT_PATH) else []
    {
      stack := if root.Some? then [Item(root.value, ROOT_PATH)] else [];
      new;
      if root.Some? { RestPush([], Item(root.value, ROOT_PATH)); }
    }

    /** The children go onto the stack in reverse, so that the first one is visited next. */
    method PushChildren(t: Tree, path: Path)
      modifies this
      ensures Rest(stack) == Below(t, path, 0) + old(Rest(stack))
    {
      var idx := |t.kids|;
      ghost var rest := Rest(stack);
      while idx > 0
        invariant 0 <= idx <= |t.kids| && Rest(stack) == Below(t, path, idx) + rest
      {
        idx := idx - 1;
        PushNext(stack, t, path, idx, rest);
        if t.kids[idx].Some? {
          stack := stack + [Item(t.kids[idx].value, Join(path, t.kids[idx].value.name))];
        }
      }
    }

    /** `next`: the head of what is to come, and nothing else is lost or added. */
    method Next() returns (r: Option<Item>)
      modifies this
      ensures r.None? ==> old(Rest(stack)) == [] && stack == []
      ensures r.Some? ==> old(Rest(stack)) == [r.value] + Rest(stack)
    {
      if stack == [] { return None; }
      var top := stack[|stack| - 1];
      stack := stack[..|stack| - 1];
      if top.tree.isDir { PushChildren(top.tree, top.path); }
      r := Some(top);
    }
  }

  /** Running the iterator to its end visits the tree in depth-first order. */
  method Iterate(root: Option<Tree>) returns (items: seq<Item>)
    ensures items == if root.Some? then PreOrder(root.value, ROOT_PATH) else []
  {
    var it := new RafsIterator(root);
    items := [];
    ghost var all := Rest(it.stack);
    while true
      invariant items + Rest(it.stack) == all && fresh(it)
      decreases |Rest(it.stack)|
    {
      var x := it.Next();
      if x.None? { break; }
      items := items + [x.value];
    }
  }

  // ----- The recursive walk ---------------------------------------------------------------------------

  /** The callback decides from the visits so far whether to go on. */
  type Callback = seq<Item> -> bool

  /** `do_walk_directory`: all visits, and whether it came to the end. */
  function Walk(t: Tree, path: Path, cb: Callback, seen: seq<Item>): (seq<Item>, bool)
    decreases t, |t.kids| + 1
  {
    var now := seen + [Item(t, path)];
    if !cb(now) then (now, false) else if t.isDir then WalkBelow(t, path, 0, cb, now) else (now, true)
  }

  function WalkBelow(t: Tree, path: Path, i: nat, cb: Callback, seen: seq<Item>): (seq<Item>, bool)
    requires i <= |t.kids|
    decreases t, |t.kids| - i
  {
    if i == |t.kids| then (seen, true)
    else if t.kids[i].None? then (seen, false)
    else
      var (now, ok) := Walk(t.kids[i].value, Join(path, t.kids[i].value.name), cb, seen);
      if !ok then (now, false) else WalkBelow(t, path, i + 1, cb, now)
  }

  /** The same with a loop over the child indices. */
  method WalkDirectory(t: Tree, parent: Option<Path>, cb: Callback, seen: seq<Item>)
    returns (items: seq<Item>, ok: bool)
    ensures (items, ok) == Walk(t, if parent.Some? then Join(parent.value, t.name) else ROOT_PATH, cb, seen)
    decreases t
  {
    var path := if parent.Some? then Join(parent.value, t.name) else ROOT_PATH;
    items := seen + [Item(t, path)];
    if !cb(items) { return items, false; }
    if t.isDir {
      var idx := 0;
      ghost var start := items;
      while idx < |t.kids|
        invariant 0 <= idx <= |t.kids|
        invariant WalkBelow(t, path, idx, cb, items) == WalkBelow(t, path, 0, cb, start)
      {
        match t.kids[idx] {
          case None => return items, false;
          case Some(child) =>
            items, ok := WalkDirectory(child, Some(path), cb, items);
            if !ok { return items, false; }
        }
        idx := idx + 1;
      }
    }
    ok := true;
  }

  /** No access below `t` fails. */
  ghost predicate Intact(t: Tree)
    decreases t, |t.kids| + 1
  {
    t.isDir ==> IntactFrom(t, 0)
  }

  ghost predicate IntactFrom(t: Tree, i: nat)
    requires i <= |t.kids|
    decreases t, |t.kids| - i
  {
    i == |t.kids| || (t.kids[i].Some? && Intact(t.kids[i].value) && IntactFrom(t, i + 1))
  }

  /** The walk visits a prefix of the depth-first order. It comes to the end, having visited all of it,
      exactly if no access fails and the callback never objects. */
  lemma {:induction false} WalkIsPrefix(t: Tree, path: Path, cb: Callback, seen: seq<Item>)
    ensures var (items, ok) := Walk(t, path, cb, seen);
            && seen <= items <= seen + PreOrder(t, path)
            && (ok ==> items == seen + PreOrder(t, path))
            && (ok <==> Intact(t) && Agrees(cb, seen, PreOrder(t, path)))
    decreases t, |t.kids| + 1
  {
    var x := Item(t, path);
    var now := seen + [x];
    var below := if t.isDir then Below(t, path, 0) else [];
    AgreesCons(cb, seen, x, below);
    PrefixGrows(seen, [x], below, now);
    if cb(now) && t.isDir { WalkBelowIsPrefix(t, path, 0, cb, now); }
  }

  lemma {:induction false} WalkBelowIsPrefix(t: Tree, path: Path, i: nat, cb: Callback, seen: seq<Item>)
    requires i <= |t.kids|
    ensures var (items, ok) := WalkBelow(t, path, i, cb, seen);
            && seen <= items <= seen + Below(t, path, i)
            && (ok ==> items == seen + Below(t, path, i))
            && (ok <==> IntactFrom(t, i) && Agrees(cb, seen, Below(t, path, i)))
    decreases t, |t.kids| - i
  {
    if i < |t.kids| && t.kids[i].Some? {
      var child := t.kids[i].value;
      var p := Join(path, child.name);
      WalkIsPrefix(child, p, cb, seen);
      var (now, ok) := Walk(child, p, cb, seen);
      AgreesConcat(cb, seen, PreOrder(child, p), Below(t, path, i + 1));
      PrefixGrows(seen, PreOrder(child, p), Below(t, path, i + 1), now);
      if ok { WalkBelowIsPrefix(t, path, i + 1, cb, now); }
    }
  }

  lemma PrefixGrows(seen: seq<Item>, a: seq<Item>, b: seq<Item>, now: seq<Item>)
    requires seen <= now <= seen + a
    ensures now <= seen + (a + b) && seen + a + b == seen + (a + b)
  {
    assert seen + a + b == seen + (a + b);
  }

  /** The callback accepts all of `items` after `seen`. */
  ghost predicate Agrees(cb: Callback, seen: seq<Item>, items: seq<Item>)
    decreases |items|
  {
    items == [] || (cb(seen + [items[0]]) && Agrees(cb, seen + [items[0]], items[1..]))
  }

  lemma AgreesCons(cb: Callback, seen: seq<Item>, x: Item, items: seq<Item>)
    ensures Agrees(cb, seen, [x] + items) == (cb(seen + [x]) && Agrees(cb, seen + [x], items))
  {
    assert ([x] + items)[1..] == items;
  }

  lemma {:induction false} AgreesConcat(cb: Callback, seen: seq<Item>, a: seq<Item>, b: seq<Item>)
    ensures Agrees(cb, seen, a + b) == (Agrees(cb, seen, a) && Agrees(cb, seen + a, b))
    decreases |a|
  {
    if a == [] {
      assert a + b == b && seen + a == seen;
    } else {
      assert (a + b)[1..] == a[1..] + b && seen + a == seen + [a[0]] + a[1..];
      AgreesConcat(cb, seen + [a[0]], a[1..], b);
    }
  }

  /** With intact accesses the iterator and the recursive walk produce the same inodes and paths. */
  method IterateAndWalk(root: Tree) returns (iterated: seq<Item>, walked: seq<Item>, ok: bool)
    ensures walked <= iterated
    ensures ok <==> Intact(root)
    ensures ok ==> walked == iterated
  {
    iterated := Iterate(Some(root));
    walked, ok := WalkDirectory(root, None, _ => true, []);
    WalkIsPrefix(root, ROOT_PATH, _ => true, []);
    AlwaysAgrees([], PreOrder(root, ROOT_PATH));
  }

  lemma {:induction false} AlwaysAgrees(seen: seq<Item>, items: seq<Item>)
    ensures Agrees(_ => true, seen, items)
    decreases |items|
  {
    if items != [] { AlwaysAgrees(seen + [items[0]], items[1..]); }
  }

  // ----- The paths --------------------------------------------------------------------------------

  /** The names on the way from the root to every inode of the tree, in the same order. */
  ghost function Routes(t: Tree, names: seq<Name>): seq<seq<Name>>
    decreases t, |t.kids| + 1
  {
    [names] + if t.isDir then RoutesBelow(t, names, 0) else []
  }

  ghost function RoutesBelow(t: Tree, names: seq<Name>, i: nat): seq<seq<Name>>
    requires i <= |t.kids|
    decreases t, |t.kids| - i
  {
    if i == |t.kids| then []
    else
      (if t.kids[i].Some? then Routes(t.kids[i].value, names + [t.kids[i].value.name]) else []) +
      RoutesBelow(t, names, i + 1)
  }

  /** Every name below the directory is one that a directory entry can have. */
  ghost predicate ProperBelow(t: Tree, i: nat)
    requires i <= |t.kids|
    decreases t, |t.kids| - i
  {
    i == |t.kids| ||
    (&& (t.kids[i].Some? ==> Proper(t.kids[i].value.name) && ProperBelow(t.kids[i].value, 0))
     && ProperBelow(t, i + 1))
  }

  ghost predicate PathsMatch(items: seq<Item>, routes: seq<seq<Name>>) {
    |items| == |routes| && forall i | 0 <= i < |items| :: AllProper(routes[i]) && items[i].path == PathTo(routes[i])
  }

  lemma PathsMatchConcat(a: seq<Item>, b: seq<Item>, r: seq<seq<Name>>, q: seq<seq<Name>>)
    requires PathsMatch(a, r) && PathsMatch(b, q)
    ensures PathsMatch(a + b, r + q)
  {
  }

  /** The path of every inode that the traversal visits is made of the names on the way to it, so that
      splitting it gives these names back. */
  lemma {:induction false} PathsAreRoutes(t: Tree, names: seq<Name>)
    requires AllProper(names) && ProperBelow(t, 0)
    ensures PathsMatch(PreOrder(t, PathTo(names)), Routes(t, names))
    decreases t, |t.kids| + 1
  {
    assert PathsMatch([Item(t, PathTo(names))], [names]);
    if t.isDir {
      PathsBelow(t, names, 0);
      PathsMatchConcat([Item(t, PathTo(names))], Below(t, PathTo(names), 0), [names], RoutesBelow(t, names, 0));
    } else {
      PathsMatchConcat([Item(t, PathTo(names))], [], [names], []);
    }
  }

  lemma {:induction false} PathsBelow(t: Tree, names: seq<Name>, i: nat)
    requires AllProper(names) && i <= |t.kids| && ProperBelow(t, i)
    ensures PathsMatch(Below(t, PathTo(names), i), RoutesBelow(t, names, i))
    decreases t, |t.kids| - i
  {
    if i < |t.kids| {
      PathsBelow(t, names, i + 1);
      if t.kids[i].Some? {
        var kid := t.kids[i].value;
        JoinBelow(names, kid.name);
        PathsAreRoutes(kid, names + [kid.name]);
        PathsMatchConcat(PreOrder(kid, PathTo(names + [kid.name])), Below(t, PathTo(names), i + 1),
                         Routes(kid, names + [kid.name]), RoutesBelow(t, names, i + 1));
      } else {
        PathsMatchConcat([], Below(t, PathTo(names), i + 1), [], RoutesBelow(t, names, i + 1));
      }
    }
  }

  /** From the root: item `i` of the traversal has an absolute path whose components are its route. */
  lemma ItemPath(root: Tree, i: nat)
    requires ProperBelow(root, 0) && i < |PreOrder(root, ROOT_PATH)|
    ensures |Routes(root, [])| == |PreOrder(root, ROOT_PATH)|
    ensures var path := PreOrder(root, ROOT_PATH)[i].path; IsAbsolute(path) && Components(path) == Routes(root, [])[i]
  {
    PathsAreRoutes(root, []);
    ParseAbsolute(Routes(root, [])[i]);
  }
}
