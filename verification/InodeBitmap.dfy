/** The inode bitmap of utils/src/inode_bitmap.rs: a map from word index to 64-bit word, exported
    as a list of inode ranges. */
module InodeBitmap {
  import opened Common
  import opened Bits

  const WORD_BITS: nat := 64

  // ----- Abstract contents ----------------------------------------------------------------

  /** The words as stored: indices come from `ino >> 6`, values are 64-bit. */
  predicate WordsOk(words: map<nat, nat>) {
    forall k | k in words :: k < Pow2(58) && words[k] < Pow2(64)
  }

  predicate Member(words: map<nat, nat>, ino: nat) {
    ino / WORD_BITS in words && Bit(words[ino / WORD_BITS], ino % WORD_BITS)
  }

  ghost function Members(words: map<nat, nat>): iset<nat> {
    iset ino | Member(words, ino)
  }

  // ----- Exported ranges ------------------------------------------------------------------

  datatype Run = Run(start: nat, end: nat)

  /** `range_to_vec`: a one-element range is written as a single number. */
  function RangeToVec(run: Run): seq<nat> {
    if run.start == run.end then [run.start] else [run.start, run.end]
  }

  ghost function Render(runs: seq<Run>): seq<seq<nat>> {
    seq(|runs|, i requires 0 <= i < |runs| => RangeToVec(runs[i]))
  }

  /** Every range is shown by its first and its last number, or by one number if they are the same. */
  ghost predicate Shows(ret: seq<seq<nat>>, runs: seq<Run>) {
    && |ret| == |runs|
    && forall i | 0 <= i < |runs| ::
         if runs[i].start == runs[i].end then |ret[i]| == 1 && ret[i][0] == runs[i].start
         else |ret[i]| == 2 && ret[i][0] == runs[i].start && ret[i][1] == runs[i].end
  }

  ghost predicate InRun(run: Run, x: nat) {
    run.start <= x <= run.end
  }

  ghost predicate InSome(runs: seq<Run>, x: nat) {
    exists i :: 0 <= i < |runs| && InRun(runs[i], x)
  }

  /** `runs` lists the maximal ranges of `members` in ascending order: ranges are non-empty,
      neither overlap nor touch, and cover the members and nothing else. */
  ghost predicate Exact(runs: seq<Run>, members: iset<nat>) {
    && (forall i | 0 <= i < |runs| :: runs[i].start <= runs[i].end)
    && (forall i, j | 0 <= i < j < |runs| :: runs[i].end + 1 < runs[j].start)
    && (forall x :: x in members <==> InSome(runs, x))
  }

  lemma FirstIsMember(runs: seq<Run>, members: iset<nat>)
    requires Exact(runs, members) && runs != []
    ensures runs[0].start in members
  {
    assert InRun(runs[0], runs[0].start) && InSome(runs, runs[0].start);
  }

  lemma NoMembersNoRuns(b: seq<Run>, members: iset<nat>)
    requires Exact(b, members) && Exact([], members)
    ensures b == []
  {
    assert forall x :: x in members ==> InSome([], x);
    if b != [] { FirstIsMember(b, members); }
  }

  /** A set has only one such list. */
  lemma {:induction false} ExactIsUnique(a: seq<Run>, b: seq<Run>, members: iset<nat>)
    requires Exact(a, members) && Exact(b, members)
    ensures a == b
  {
    if a == [] {
      NoMembersNoRuns(b, members);
    } else {
      assert InRun(a[0], a[0].start) && InSome(a, a[0].start);
      assert InSome(b, a[0].start);
      FirstRunsAgree(a, b, members);
      FirstRunsAgree(b, a, members);
      var rest := iset x | x in members && x > a[0].end;
      TailIsExact(a, members, rest);
      TailIsExact(b, members, rest);
      ExactIsUnique(a[1..], b[1..], rest);
      assert a == [a[0]] + a[1..] && b == [b[0]] + b[1..];
    }
  }

  lemma LeastMember(a: seq<Run>, members: iset<nat>, x: nat)
    requires Exact(a, members) && a != [] && x in members
    ensures a[0].start <= x
  {
    assert InSome(a, x);
    var i :| 0 <= i < |a| && InRun(a[i], x);
    assert i == 0 || a[0].end + 1 < a[i].start;
  }

  lemma FirstRunsAgree(a: seq<Run>, b: seq<Run>, members: iset<nat>)
    requires Exact(a, members) && Exact(b, members) && a != [] && b != []
    ensures b[0].start <= a[0].start && (a[0].start == b[0].start ==> a[0].end <= b[0].end)
  {
    assert InRun(a[0], a[0].start) && InSome(a, a[0].start);
    LeastMember(b, members, a[0].start);
    if a[0].start == b[0].start && b[0].end < a[0].end {
      assert InRun(a[0], b[0].end + 1) && InSome(a, b[0].end + 1);
      assert InSome(b, b[0].end + 1);
      var j :| 0 <= j < |b| && InRun(b[j], b[0].end + 1);
      assert false;
    }
  }

  lemma TailIsExact(a: seq<Run>, members: iset<nat>, rest: iset<nat>)
    requires Exact(a, members) && a != []
    requires rest == iset x | x in members && x > a[0].end
    ensures Exact(a[1..], rest)
  {
    var tail := a[1..];
    forall x ensures x in rest <==> InSome(tail, x) {
      if x in rest {
        assert InSome(a, x);
        var i :| 0 <= i < |a| && InRun(a[i], x);
        assert i > 0 && InRun(tail[i - 1], x);
      }
      if InSome(tail, x) {
        var i :| 0 <= i < |tail| && InRun(tail[i], x);
        assert InRun(a[i + 1], x) && InSome(a, x);
        assert a[0].end + 1 < a[i + 1].start;
      }
    }
  }

  // ----- The export loop as a fold over the inodes it visits --------------------------------

  /** The loop variables of `bitmap_to_vec`. */
  datatype Acc = Acc(ret: seq<seq<nat>>, start: Option<nat>, last: nat)

  function Visit(acc: Acc, ino: nat): Acc {
    match acc.start
    case None => Acc(acc.ret, Some(ino), ino)
    case Some(s) =>
      if ino != acc.last + 1 then Acc(acc.ret + [RangeToVec(Run(s, acc.last))], Some(ino), ino)
      else Acc(acc.ret, Some(s), ino)
  }

  function Finish(acc: Acc): seq<seq<nat>> {
    match acc.start
    case None => acc.ret
    case Some(s) => acc.ret + [RangeToVec(Run(s, acc.last))]
  }

  ghost function VisitAll(acc: Acc, inos: seq<nat>): Acc
    decreases inos
  {
    if inos == [] then acc else VisitAll(Visit(acc, inos[0]), inos[1..])
  }

  const FRESH := Acc([], None, 0)

  /** The inodes of one word, lowest first. */
  ghost function WordInodes(v: nat, base: nat): seq<nat> {
    if v == 0 then [] else
      ClearLowest(v, 0);
      [base + TrailingZeros(v)] + WordInodes(And(v, v - 1), base)
  }

  ghost predicate IsLeast(m: nat, s: set<nat>) {
    m in s && forall x | x in s :: m <= x
  }

  lemma LeastExists(s: set<nat>)
    requires s != {}
    ensures exists m :: IsLeast(m, s)
  {
    var m :| m in s;
    var rest := s - {m};
    if rest == {} {
      assert s == {m} && IsLeast(m, s);
    } else {
      LeastExists(rest);
      var n :| IsLeast(n, rest);
      var least := if m <= n then m else n;
      forall x | x in s ensures least <= x {
        assert x == m || x in rest;
      }
      assert IsLeast(least, s);
    }
  }

  ghost function Least(s: set<nat>): (m: nat)
    requires s != {}
    ensures IsLeast(m, s)
  {
    LeastExists(s);
    var m :| IsLeast(m, s);
    m
  }

  /** The inodes of the words `keys`, word by word in ascending key order. */
  ghost function InodesOf(words: map<nat, nat>, keys: set<nat>): seq<nat>
    requires keys <= words.Keys
  {
    if keys == {} then [] else
      var k: nat := Least(keys);
      WordInodes(words[k], k * WORD_BITS) + InodesOf(words, keys - {k})
  }

  lemma {:induction false} VisitConcat(acc: Acc, a: seq<nat>, b: seq<nat>)
    ensures VisitAll(acc, a + b) == VisitAll(VisitAll(acc, a), b)
    decreases a
  {
    if a == [] {
      assert a + b == b;
    } else {
      assert (a + b)[1..] == a[1..] + b;
      VisitConcat(Visit(acc, a[0]), a[1..], b);
    }
  }

  /** `bitmap_to_vec` over the word values it loads. */
  method ToVec(words: map<nat, nat>) returns (ret: seq<seq<nat>>)
    ensures ret == Finish(VisitAll(FRESH, InodesOf(words, words.Keys)))
  {
    var acc := FRESH;
    var keys := words.Keys;
    while keys != {}
      invariant keys <= words.Keys
      invariant VisitAll(acc, InodesOf(words, keys)) == VisitAll(FRESH, InodesOf(words, words.Keys))
      decreases |keys|
    {
      LeastExists(keys);
      var k: nat :| k in keys && forall x | x in keys :: k <= x;
      assert k == Least(keys);
      var base := k * WORD_BITS;
      var v := words[k];
      ghost var before := acc;
      while v != 0
        invariant VisitAll(acc, WordInodes(v, base)) == VisitAll(before, WordInodes(words[k], base))
        decreases v
      {
        var ino := base + TrailingZeros(v);
        ClearLowest(v, 0);
        v := And(v, v - 1);
        acc := Visit(acc, ino);
      }
      VisitConcat(before, WordInodes(words[k], base), InodesOf(words, keys - {k}));
      keys := keys - {k};
    }
    ret := Finish(acc);
  }

  // ----- The visited inodes are the members in ascending order -------------------------------

  ghost predicate Ascending(inos: seq<nat>) {
    forall i, j | 0 <= i < j < |inos| :: inos[i] < inos[j]
  }

  ghost predicate BitAt(v: nat, base: nat, x: nat) {
    base <= x && Bit(v, x - base)
  }

  lemma LowestInode(v: nat, base: nat, x: nat)
    requires v > 0
    ensures BitAt(v, base, x) <==> x == base + TrailingZeros(v) || BitAt(And(v, v - 1), base, x)
    ensures BitAt(And(v, v - 1), base, x) ==> base + TrailingZeros(v) < x
  {
    TrailingZerosIsLowest(v, 0);
    if base <= x {
      ClearLowest(v, x - base);
      TrailingZerosIsLowest(v, x - base);
    }
  }

  lemma {:induction false} WordInodesListBits(v: nat, base: nat)
    ensures Ascending(WordInodes(v, base))
    ensures forall x :: x in WordInodes(v, base) <==> BitAt(v, base, x)
    decreases v
  {
    if v == 0 {
      forall x: nat ensures !BitAt(v, base, x) {
        if base <= x { ZeroHasNoBits(x - base); }
      }
    } else {
      ClearLowest(v, 0);
      var rest := WordInodes(And(v, v - 1), base);
      WordInodesListBits(And(v, v - 1), base);
      assert WordInodes(v, base) == [base + TrailingZeros(v)] + rest;
      forall x: nat ensures x in WordInodes(v, base) <==> BitAt(v, base, x) {
        LowestInode(v, base, x);
      }
      forall j | 0 <= j < |rest| ensures base + TrailingZeros(v) < rest[j] {
        assert rest[j] in rest;
        LowestInode(v, base, rest[j]);
      }
    }
  }

  /** The members of word `k` are those numbered from `64 k` to `64 k + 63`. */
  lemma WordMember(words: map<nat, nat>, k: nat, x: nat)
    requires WordsOk(words) && k in words
    ensures x in WordInodes(words[k], k * WORD_BITS) <==> x / WORD_BITS == k && Member(words, x)
  {
    WordInodesListBits(words[k], k * WORD_BITS);
    if k * WORD_BITS <= x {
      if x - k * WORD_BITS < WORD_BITS {
        assert x / WORD_BITS == k && x % WORD_BITS == x - k * WORD_BITS;
      } else {
        HighBitsClear(words[k], 64, x - k * WORD_BITS);
      }
    }
  }

  lemma {:induction false} InodesOfListsMembers(words: map<nat, nat>, keys: set<nat>)
    requires WordsOk(words) && keys <= words.Keys
    ensures Ascending(InodesOf(words, keys))
    ensures forall x :: x in InodesOf(words, keys) <==> x / WORD_BITS in keys && Member(words, x)
  {
    if keys != {} {
      var k: nat := Least(keys);
      var head := WordInodes(words[k], k * WORD_BITS);
      var tail := InodesOf(words, keys - {k});
      WordInodesListBits(words[k], k * WORD_BITS);
      InodesOfListsMembers(words, keys - {k});
      forall x: nat ensures x in head <==> x / WORD_BITS == k && Member(words, x) { WordMember(words, k, x); }
      forall i, j | 0 <= i < |head| && 0 <= j < |tail| ensures head[i] < tail[j] {
        assert head[i] in head && tail[j] in tail;
        assert head[i] / WORD_BITS == k && tail[j] / WORD_BITS > k;
      }
    }
  }

  // ----- The ranges of an ascending list -----------------------------------------------------

  /** The next inode extends the last range or opens a new one. */
  ghost function AddToRuns(r: seq<Run>, ino: nat): (runs: seq<Run>)
    ensures runs != [] && runs[|runs| - 1].end == ino
  {
    if r != [] && r[|r| - 1].end + 1 == ino
    then r[..|r| - 1] + [Run(r[|r| - 1].start, ino)]
    else r + [Run(ino, ino)]
  }

  ghost function RunsOf(inos: seq<nat>): (runs: seq<Run>)
    ensures inos == [] ==> runs == []
    ensures inos != [] ==> runs != [] && runs[|runs| - 1].end == inos[|inos| - 1]
  {
    if inos == [] then [] else AddToRuns(RunsOf(inos[..|inos| - 1]), inos[|inos| - 1])
  }

  ghost function Upto(inos: seq<nat>): iset<nat> {
    iset x | x in inos
  }

  /** Opening a new range at `ino` because it does not touch the last one. */
  lemma OpenRun(runs: seq<Run>, members: iset<nat>, ino: nat)
    requires Exact(runs, members) && (runs != [] ==> runs[|runs| - 1].end + 1 < ino)
    ensures Exact(runs + [Run(ino, ino)], members + iset{ino})
  {
    var after := runs + [Run(ino, ino)];
    forall i, j | 0 <= i < j < |after| ensures after[i].end + 1 < after[j].start {
      assert j == |runs| && i < |runs| - 1 ==> runs[i].end + 1 < runs[|runs| - 1].start;
    }
    forall x ensures x in members + iset{ino} <==> InSome(after, x) {
      assert x in members <==> InSome(runs, x);
      assert InRun(after[|runs|], x) <==> x == ino;
      if i :| 0 <= i < |runs| && InRun(runs[i], x) { assert InRun(after[i], x); }
      if i :| 0 <= i < |runs| && InRun(after[i], x) { assert InRun(runs[i], x); }
    }
  }

  /** Extending the last range by its immediate successor. */
  lemma GrowRun(runs: seq<Run>, members: iset<nat>)
    requires Exact(runs, members) && runs != []
    ensures var n := |runs| - 1;
            Exact(runs[..n] + [Run(runs[n].start, runs[n].end + 1)], members + iset{runs[n].end + 1})
  {
    var n := |runs| - 1;
    var ino := runs[n].end + 1;
    var after := runs[..n] + [Run(runs[n].start, ino)];
    forall i, j | 0 <= i < j < |after| ensures after[i].end + 1 < after[j].start {
      assert runs[i].end + 1 < runs[j].start;
    }
    forall x ensures x in members + iset{ino} <==> InSome(after, x) {
      assert x in members <==> InSome(runs, x);
      assert InRun(after[n], x) <==> InRun(runs[n], x) || x == ino;
      if i :| 0 <= i < |runs| && InRun(runs[i], x) { assert InRun(after[i], x); }
      if i :| 0 <= i < |runs| && InRun(after[i], x) && x != ino { assert InRun(runs[i], x); }
    }
  }

  lemma AddKeepsExact(runs: seq<Run>, members: iset<nat>, ino: nat)
    requires Exact(runs, members) && (runs != [] ==> runs[|runs| - 1].end < ino)
    ensures Exact(AddToRuns(runs, ino), members + iset{ino})
  {
    if runs != [] && runs[|runs| - 1].end + 1 == ino {
      GrowRun(runs, members);
    } else {
      OpenRun(runs, members, ino);
    }
  }

  lemma UptoSnoc(inos: seq<nat>)
    requires inos != []
    ensures Upto(inos) == Upto(inos[..|inos| - 1]) + iset{inos[|inos| - 1]}
  {
    assert inos == inos[..|inos| - 1] + [inos[|inos| - 1]];
  }

  lemma EmptyIsExact()
    ensures Exact([], iset{})
  {
    assert forall x :: !InSome([], x);
  }

  lemma {:induction false} RunsAreExact(inos: seq<nat>, members: iset<nat>)
    requires Ascending(inos) && members == Upto(inos)
    ensures Exact(RunsOf(inos), members)
  {
    if inos == [] {
      EmptyIsExact();
      assert members == iset{};
    } else {
      var n := |inos| - 1;
      var before := inos[..n];
      var rest := Upto(before);
      RunsAreExact(before, rest);
      if n > 0 { assert before[n - 1] < inos[n]; }
      AddKeepsExact(RunsOf(before), rest, inos[n]);
      UptoSnoc(inos);
    }
  }

  /** The fold writes out the ranges of the inodes it visited. */
  lemma {:induction false} FoldWritesRuns(inos: seq<nat>)
    ensures var acc := VisitAll(FRESH, inos);
            && Finish(acc) == Render(RunsOf(inos))
            && (inos == [] ==> acc == FRESH)
            && (inos != [] ==> var r := RunsOf(inos);
                  acc.start == Some(r[|r| - 1].start) && acc.last == inos[|inos| - 1]
                  && acc.ret == Render(r[..|r| - 1]))
  {
    if inos != [] {
      var n := |inos| - 1;
      var before := inos[..n];
      FoldWritesRuns(before);
      VisitConcat(FRESH, before, [inos[n]]);
      assert inos == before + [inos[n]];
      var acc := VisitAll(FRESH, before);
      assert VisitAll(FRESH, inos) == Visit(acc, inos[n]);
      var r := RunsOf(before);
      if n > 0 {
        assert before[n - 1] == inos[n - 1];
        if r[|r| - 1].end + 1 == inos[n] {
          assert RunsOf(inos)[..|r| - 1] == r[..|r| - 1];
        } else {
          assert RunsOf(inos)[..|r|] == r;
        }
      }
    }
  }

  /** The exported list is the ascending list of maximal, disjoint, non-adjacent ranges whose
      union is the set of inodes in the bitmap, across word boundaries. */
  lemma ExportIsExact(words: map<nat, nat>)
    requires WordsOk(words)
    ensures var inos := InodesOf(words, words.Keys);
            && Exact(RunsOf(inos), Members(words))
            && Finish(VisitAll(FRESH, inos)) == Render(RunsOf(inos)) && Shows(Render(RunsOf(inos)), RunsOf(inos))
  {
    var inos := InodesOf(words, words.Keys);
    InodesOfListsMembers(words, words.Keys);
    RunsAreExact(inos, Upto(inos));
    FoldWritesRuns(inos);
    assert Upto(inos) == Members(words);
  }

  // ----- The bitmap object --------------------------------------------------------------------

  /** `fetch_or` of one inode's mask into its word, inserting the word when it is missing. */
  function Inserted(words: map<nat, nat>, ino: nat): map<nat, nat> {
    var k := ino / WORD_BITS;
    words[k := Or(if k in words then words[k] else 0, Pow2(ino % WORD_BITS))]
  }

  function Removed(words: map<nat, nat>, ino: nat): map<nat, nat> {
    var k := ino / WORD_BITS;
    if k in words then words[k := AndNot(words[k], Pow2(ino % WORD_BITS))] else words
  }

  lemma SamePlace(x: nat, y: nat)
    ensures x == y <==> x / WORD_BITS == y / WORD_BITS && x % WORD_BITS == y % WORD_BITS
  {
  }

  lemma WordIndexFits(ino: nat)
    requires ino < Pow2(64)
    ensures ino / WORD_BITS < Pow2(58) && Pow2(ino % WORD_BITS) < Pow2(64)
  {
    Pow2Monotone(ino % WORD_BITS, 63);
    assert Pow2(64) == 64 * Pow2(58) by {
      assert Pow2(64) == 2 * Pow2(63) == 4 * Pow2(62) == 8 * Pow2(61);
      assert Pow2(61) == 2 * Pow2(60) == 4 * Pow2(59) == 8 * Pow2(58);
    }
  }

  lemma MemberAfterInsert(words: map<nat, nat>, ino: nat, x: nat)
    ensures Member(Inserted(words, ino), x) <==> Member(words, x) || x == ino
  {
    var k := ino / WORD_BITS;
    var before := if k in words then words[k] else 0;
    SamePlace(x, ino);
    BitOfOr(before, Pow2(ino % WORD_BITS), x % WORD_BITS);
    BitOfPow2(ino % WORD_BITS, x % WORD_BITS);
    ZeroHasNoBits(x % WORD_BITS);
  }

  lemma InsertKeepsWords(words: map<nat, nat>, ino: nat)
    requires WordsOk(words) && ino < Pow2(64)
    ensures WordsOk(Inserted(words, ino))
  {
    var k := ino / WORD_BITS;
    WordIndexFits(ino);
    OrStaysInWidth(if k in words then words[k] else 0, Pow2(ino % WORD_BITS), 64);
  }

  lemma InsertAddsOne(words: map<nat, nat>, ino: nat)
    requires WordsOk(words) && ino < Pow2(64)
    ensures WordsOk(Inserted(words, ino))
    ensures Members(Inserted(words, ino)) == Members(words) + iset{ino}
  {
    InsertKeepsWords(words, ino);
    forall x: nat ensures Member(Inserted(words, ino), x) <==> Member(words, x) || x == ino {
      MemberAfterInsert(words, ino, x);
    }
  }

  lemma RemoveDropsOne(words: map<nat, nat>, ino: nat)
    requires WordsOk(words)
    ensures WordsOk(Removed(words, ino))
    ensures Members(Removed(words, ino)) == Members(words) - iset{ino}
  {
    var after := Removed(words, ino);
    var k := ino / WORD_BITS;
    if k in words { AndNotShrinks(words[k], Pow2(ino % WORD_BITS)); }
    forall x: nat ensures Member(after, x) <==> Member(words, x) && x != ino {
      SamePlace(x, ino);
      if k in words { BitOfAndNot(words[k], Pow2(ino % WORD_BITS), x % WORD_BITS); }
      BitOfPow2(ino % WORD_BITS, x % WORD_BITS);
    }
  }

  lemma ZeroedIsEmpty(words: map<nat, nat>)
    requires forall k | k in words :: words[k] == 0
    ensures Members(words) == iset{}
  {
    forall x: nat ensures !Member(words, x) { ZeroHasNoBits(x % WORD_BITS); }
  }

  class Bitmap {
    var words: map<nat, nat>

    ghost predicate Valid() reads this { WordsOk(words) }

    ghost function Inodes(): iset<nat> reads this { Members(words) }

    constructor ()
      ensures Valid() && Inodes() == iset{}
    {
      words := map[];
    }

    method Set(ino: nat)
      requires Valid() && ino < Pow2(64)
      modifies this
      ensures Valid() && Inodes() == old(Inodes()) + iset{ino}
    {
      InsertAddsOne(words, ino);
      words := Inserted(words, ino);
    }

    method IsSet(ino: nat) returns (r: bool)
      requires Valid()
      ensures r <==> ino in Inodes()
    {
      r := ino / WORD_BITS in words && And(words[ino / WORD_BITS], Pow2(ino % WORD_BITS)) != 0;
      if ino / WORD_BITS in words { MaskTestsBit(words[ino / WORD_BITS], ino % WORD_BITS); }
    }

    method Clear(ino: nat)
      requires Valid()
      modifies this
      ensures Valid() && Inodes() == old(Inodes()) - iset{ino}
    {
      RemoveDropsOne(words, ino);
      words := Removed(words, ino);
    }

    method ClearAll()
      requires Valid()
      modifies this
      ensures Valid() && Inodes() == iset{} && words.Keys == old(words.Keys)
    {
      words := map k | k in words :: 0;
      ZeroedIsEmpty(words);
    }

    /** `bitmap_to_array` (`clear == false`) and `bitmap_to_array_and_clear` (`clear == true`). */
    method ToArray(clear: bool) returns (ret: seq<seq<nat>>, ghost runs: seq<Run>)
      requires Valid()
      modifies this
      ensures Valid() && Shows(ret, runs) && Exact(runs, old(Inodes()))
      ensures Inodes() == if clear then iset{} else old(Inodes())
    {
      ret := ToVec(words);
      ExportIsExact(words);
      runs := RunsOf(InodesOf(words, words.Keys));
      if clear {
        words := map k | k in words :: 0;
        ZeroedIsEmpty(words);
      }
    }
  }

  lemma {:induction false} MaskTestsBit(v: nat, i: nat)
    ensures And(v, Pow2(i)) != 0 <==> Bit(v, i)
  {
    ZeroHasNoBits(i);
    if i == 0 {
      assert And(v / 2, 0) == 0;
    } else if v > 0 {
      MaskTestsBit(v / 2, i - 1);
    }
  }

  // ----- Exports interleaved with updates -------------------------------------------------------

  /** A clearing export in progress: the word keys still to fetch and the values fetched so far. */
  datatype Export = Export(todo: set<nat>, loaded: map<nat, nat>)

  /** `ever` collects every inode that was ever set. */
  datatype System = System(words: map<nat, nat>, exports: map<nat, Export>, ever: iset<nat>)

  datatype Step = SetExisting(ino: nat) | SetInsert(ino: nat) | ExportStart(id: nat) | ExportWord(id: nat)

  /** An export holds the read lock for its whole scan, so words are only inserted between
      exports, while bits of existing words may change at any time. */
  ghost predicate Enabled(s: System, step: Step) {
    match step
    case SetExisting(ino) => ino < Pow2(64) && ino / WORD_BITS in s.words
    case SetInsert(ino) => ino < Pow2(64) && forall id | id in s.exports :: s.exports[id].todo == {}
    case ExportStart(id) => id !in s.exports
    case ExportWord(id) => id in s.exports && s.exports[id].todo != {}
  }

  ghost function Apply(s: System, step: Step): System
    requires Enabled(s, step)
  {
    match step
    case SetExisting(ino) => s.(words := Inserted(s.words, ino), ever := s.ever + iset{ino})
    case SetInsert(ino) => s.(words := Inserted(s.words, ino), ever := s.ever + iset{ino})
    case ExportStart(id) => s.(exports := s.exports[id := Export(s.words.Keys, map[])])
    case ExportWord(id) =>
      var e := s.exports[id];
      var k := Least(e.todo);
      if k in s.words then
        s.(words := s.words[k := 0],
           exports := s.exports[id := Export(e.todo - {k}, e.loaded[k := s.words[k]])])
      else s
  }

  ghost predicate Reported(exports: map<nat, Export>, x: nat) {
    exists id :: id in exports && Member(exports[id].loaded, x)
  }

  ghost predicate SystemOk(s: System) {
    && WordsOk(s.words)
    && (forall id | id in s.exports ::
          && WordsOk(s.exports[id].loaded)
          && s.exports[id].todo + s.exports[id].loaded.Keys <= s.words.Keys
          && s.exports[id].todo !! s.exports[id].loaded.Keys)
    && (forall x :: x in s.ever <==> Member(s.words, x) || Reported(s.exports, x))
  }

  lemma FetchMovesWord(s: System, id: nat)
    requires SystemOk(s) && Enabled(s, ExportWord(id))
    ensures SystemOk(Apply(s, ExportWord(id)))
  {
    var t := Apply(s, ExportWord(id));
    var e := s.exports[id];
    var k := Least(e.todo);
    forall x: nat
      ensures Member(t.words, x) || Reported(t.exports, x) <==> Member(s.words, x) || Reported(s.exports, x)
    {
      ZeroHasNoBits(x % WORD_BITS);
      assert Member(t.exports[id].loaded, x) <==>
             Member(e.loaded, x) || (x / WORD_BITS == k && Member(s.words, x));
      if i :| i in s.exports && Member(s.exports[i].loaded, x) {
        assert i in t.exports && Member(t.exports[i].loaded, x);
      }
      if i :| i in t.exports && i != id && Member(t.exports[i].loaded, x) {
        assert i in s.exports && Member(s.exports[i].loaded, x);
      }
    }
  }

  lemma SetKeepsSystem(s: System, ino: nat)
    requires SystemOk(s) && ino < Pow2(64)
    ensures SystemOk(s.(words := Inserted(s.words, ino), ever := s.ever + iset{ino}))
  {
    InsertAddsOne(s.words, ino);
    forall x: nat ensures Member(Inserted(s.words, ino), x) <==> Member(s.words, x) || x == ino {
      MemberAfterInsert(s.words, ino, x);
    }
  }

  lemma StartKeepsSystem(s: System, id: nat)
    requires SystemOk(s) && id !in s.exports
    ensures SystemOk(s.(exports := s.exports[id := Export(s.words.Keys, map[])]))
  {
    var t := s.(exports := s.exports[id := Export(s.words.Keys, map[])]);
    forall x: nat ensures Reported(t.exports, x) <==> Reported(s.exports, x) {
      if i :| i in s.exports && Member(s.exports[i].loaded, x) {
        assert i in t.exports && Member(t.exports[i].loaded, x);
      }
    }
  }

  lemma StepKeepsSystem(s: System, step: Step)
    requires SystemOk(s) && Enabled(s, step)
    ensures SystemOk(Apply(s, step))
  {
    match step
    case SetExisting(ino) => SetKeepsSystem(s, ino);
    case SetInsert(ino) => SetKeepsSystem(s, ino);
    case ExportWord(id) => FetchMovesWord(s, id);
    case ExportStart(id) => StartKeepsSystem(s, id);
  }

  ghost predicate IsRun(states: seq<System>, steps: seq<Step>) {
    && |states| == |steps| + 1
    && states[0] == System(map[], map[], iset{})
    && forall i | 0 <= i < |steps| ::
         Enabled(states[i], steps[i]) && states[i + 1] == Apply(states[i], steps[i])
  }

  lemma RunStep(states: seq<System>, steps: seq<Step>, n: nat)
    requires IsRun(states, steps) && n < |steps|
    ensures Enabled(states[n], steps[n]) && states[n + 1] == Apply(states[n], steps[n])
  {
  }

  lemma {:induction false} RunKeepsSystem(states: seq<System>, steps: seq<Step>, n: nat)
    requires IsRun(states, steps) && n < |states|
    ensures SystemOk(states[n])
  {
    if n > 0 {
      RunKeepsSystem(states, steps, n - 1);
      RunStep(states, steps, n - 1);
      StepKeepsSystem(states[n - 1], steps[n - 1]);
    }
  }

  /** In any interleaving of `set` with clearing exports, an inode was ever set exactly when it is
      still set or was reported by some export, and what an export fetched is what it lists. */
  lemma NothingLost(states: seq<System>, steps: seq<Step>, n: nat, x: nat)
    requires IsRun(states, steps) && n < |states|
    ensures SystemOk(states[n])
    ensures x in states[n].ever <==> Member(states[n].words, x) || Reported(states[n].exports, x)
    ensures forall id | id in states[n].exports ::
              var loaded := states[n].exports[id].loaded;
              Exact(RunsOf(InodesOf(loaded, loaded.Keys)), Members(loaded))
  {
    RunKeepsSystem(states, steps, n);
    forall id | id in states[n].exports
      ensures var loaded := states[n].exports[id].loaded;
              Exact(RunsOf(InodesOf(loaded, loaded.Keys)), Members(loaded))
    {
      ExportIsExact(states[n].exports[id].loaded);
    }
  }

  /** The exports that report `x`. */
  ghost function Reporters(exports: map<nat, Export>, x: nat): set<nat> {
    set id | id in exports && Member(exports[id].loaded, x)
  }

  /** How often `x` is reported, and once more if it is still set. */
  ghost function Accounted(s: System, x: nat): nat {
    |Reporters(s.exports, x)| + if Member(s.words, x) then 1 else 0
  }

  /** How often `x` has been set by the first `n` steps. */
  ghost function Sets(steps: seq<Step>, n: nat, x: nat): nat
    requires n <= |steps|
  {
    if n == 0 then 0
    else
      var step := steps[n - 1];
      Sets(steps, n - 1, x) + if (step.SetExisting? || step.SetInsert?) && step.ino == x then 1 else 0
  }

  lemma FetchedMember(s: System, id: nat, x: nat)
    requires SystemOk(s) && Enabled(s, ExportWord(id))
    ensures var t, moved := Apply(s, ExportWord(id)), x / WORD_BITS == Least(s.exports[id].todo) && Member(s.words, x);
            && t.exports.Keys == s.exports.Keys
            && (forall i | i in s.exports && i != id :: t.exports[i] == s.exports[i])
            && (Member(t.exports[id].loaded, x) <==> Member(s.exports[id].loaded, x) || moved)
            && (moved ==> !Member(s.exports[id].loaded, x))
            && (Member(t.words, x) <==> Member(s.words, x) && !moved)
  {
    ZeroHasNoBits(x % WORD_BITS);
  }

  lemma FetchReportsOnce(s: System, id: nat, x: nat)
    requires SystemOk(s) && Enabled(s, ExportWord(id))
    ensures Accounted(Apply(s, ExportWord(id)), x) == Accounted(s, x)
  {
    FetchedMember(s, id, x);
    ReportersChange(s.exports, Apply(s, ExportWord(id)).exports, id, x);
  }

  lemma ReportersChange(es: map<nat, Export>, fs: map<nat, Export>, id: nat, x: nat)
    requires id in es && fs.Keys == es.Keys && (forall i | i in es && i != id :: fs[i] == es[i])
    requires Member(es[id].loaded, x) ==> Member(fs[id].loaded, x)
    ensures |Reporters(fs, x)| ==
            |Reporters(es, x)| + if Member(fs[id].loaded, x) && !Member(es[id].loaded, x) then 1 else 0
  {
    if Member(fs[id].loaded, x) && !Member(es[id].loaded, x) {
      assert Reporters(fs, x) == Reporters(es, x) + {id} && id !in Reporters(es, x);
    } else {
      assert Reporters(fs, x) == Reporters(es, x);
    }
  }

  lemma StepReportsOnce(s: System, step: Step, x: nat)
    requires SystemOk(s) && Enabled(s, step)
    ensures Accounted(Apply(s, step), x) <=
            Accounted(s, x) + if (step.SetExisting? || step.SetInsert?) && step.ino == x then 1 else 0
  {
    match step
    case SetExisting(ino) => MemberAfterInsert(s.words, ino, x);
    case SetInsert(ino) => MemberAfterInsert(s.words, ino, x);
    case ExportStart(id) => assert Reporters(Apply(s, step).exports, x) == Reporters(s.exports, x);
    case ExportWord(id) => FetchReportsOnce(s, id, x);
  }

  /** In any interleaving no set is reported twice: an inode is reported by at most as many exports as it has
      been set, and by fewer if it still is. */
  lemma {:induction false} ReportedOncePerSet(states: seq<System>, steps: seq<Step>, n: nat, x: nat)
    requires IsRun(states, steps) && n < |states|
    ensures Accounted(states[n], x) <= Sets(steps, n, x)
  {
    if n == 0 {
      assert Reporters(states[0].exports, x) == {};
    } else {
      ReportedOncePerSet(states, steps, n - 1, x);
      RunKeepsSystem(states, steps, n - 1);
      RunStep(states, steps, n - 1);
      StepReportsOnce(states[n - 1], steps[n - 1], x);
    }
  }
}
