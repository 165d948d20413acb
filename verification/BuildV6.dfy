/** How the image builder lays out a RAFS v6 directory (src/bin/nydus-image/core/node.rs): greedy
    packing of sorted entries into blocks.  What it writes is a directory that lookup and walk
    read back. */
module BuildV6 {
  import opened Common
  import opened Names
  import opened DirentV6
  import opened DirV6
  import opened DirV6Walk

  /** The blocks the builder fills, where `cur` holds the entries collected for the current one. */
  function Pack(list: seq<Entry>, cur: seq<Entry>): seq<seq<Entry>>
    decreases list
  {
    if list == [] then (if cur == [] then [] else [cur])
    else if Used(cur) + Len(list[0]) > BLOCK then [cur] + Pack(list[1..], [list[0]])
    else Pack(list[1..], cur + [list[0]])
  }

  /** One step of `v6_dir_d_size`: an entry that would cross a block boundary starts a new block. */
  function Grow(d: nat, len: nat): nat {
    (if d % BLOCK + len > BLOCK then DivRoundUp(d, BLOCK) * BLOCK else d) + len
  }

  /** `v6_dir_d_size` continued from size `d` over the entries of `list`. */
  function DirSize(list: seq<Entry>, d: nat): nat
    decreases list
  {
    if list == [] then d else DirSize(list[1..], Grow(d, Len(list[0])))
  }

  ghost predicate EntriesFit(list: seq<Entry>) {
    forall i | 0 <= i < |list| :: EntryOk(list[i]) && Len(list[i]) <= BLOCK
  }

  /** Packing loses, repeats and reorders nothing. */
  lemma {:induction false} PackKeepsEntries(list: seq<Entry>, cur: seq<Entry>)
    ensures Flatten(Pack(list, cur)) == cur + list
    decreases list
  {
    if list == [] {
      assert Flatten([cur]) == cur + Flatten([]);
    } else if Used(cur) + Len(list[0]) > BLOCK {
      PackKeepsEntries(list[1..], [list[0]]);
      assert [list[0]] + list[1..] == list;
      assert ([cur] + Pack(list[1..], [list[0]]))[1..] == Pack(list[1..], [list[0]]);
    } else {
      PackKeepsEntries(list[1..], cur + [list[0]]);
      assert cur + [list[0]] + list[1..] == cur + list;
    }
  }

  ghost predicate BlockFits(es: seq<Entry>) {
    es != [] && Used(es) <= BLOCK && forall i | 0 <= i < |es| :: EntryOk(es[i])
  }

  /** Every block is non-empty and within the block size. */
  lemma {:induction false} PackFits(list: seq<Entry>, cur: seq<Entry>)
    requires EntriesFit(list) && (cur == [] || BlockFits(cur))
    ensures forall b | 0 <= b < |Pack(list, cur)| :: BlockFits(Pack(list, cur)[b])
    ensures list != [] || cur != [] ==> Pack(list, cur) != []
    decreases list
  {
    if list != [] {
      var e := list[0];
      UsedSnoc([], e);
      UsedSnoc(cur, e);
      assert [] + [e] == [e];
      assert EntryOk(e);
      PackFits(list[1..], if Used(cur) + Len(e) > BLOCK then [e] else cur + [e]);
    }
  }

  lemma Align(m: nat, used: nat, len: nat)
    requires 0 < used <= BLOCK && 0 < len <= BLOCK
    ensures Grow(BLOCK * m + used, len) ==
            if used + len > BLOCK then BLOCK * (m + 1) + len else BLOCK * m + used + len
  {
    BlockRemainder(m, used);
    assert DivRoundUp(BLOCK * m + used, BLOCK) == m + 1;
  }

  ghost predicate SizeOf(blocks: seq<seq<Entry>>, m: nat, size: nat) {
    blocks != [] && size == BLOCK * (m + |blocks| - 1) + Used(blocks[|blocks| - 1])
  }

  lemma SizeOfCons(cur: seq<Entry>, blocks: seq<seq<Entry>>, m: nat, size: nat)
    requires SizeOf(blocks, m + 1, size)
    ensures SizeOf([cur] + blocks, m, size)
  {
  }

  /** The size recorded in the inode is the space the packed blocks take. */
  lemma {:induction false} SizeMatchesPacking(list: seq<Entry>, cur: seq<Entry>, m: nat)
    requires EntriesFit(list) && BlockFits(cur)
    ensures SizeOf(Pack(list, cur), m, DirSize(list, BLOCK * m + Used(cur)))
    decreases list
  {
    if list != [] {
      var e := list[0];
      assert EntryOk(e);
      Align(m, Used(cur), Len(e));
      if Used(cur) + Len(e) > BLOCK {
        UsedSnoc([], e);
        assert [] + [e] == [e];
        SizeMatchesPacking(list[1..], [e], m + 1);
        SizeOfCons(cur, Pack(list[1..], [e]), m, DirSize(list[1..], BLOCK * (m + 1) + Len(e)));
      } else {
        UsedSnoc(cur, e);
        SizeMatchesPacking(list[1..], cur + [e], m);
      }
    }
  }

  lemma WholeSize(list: seq<Entry>)
    requires EntriesFit(list) && list != []
    ensures var p := Pack(list, []);
            p != [] && DirSize(list, 0) == BLOCK * (|p| - 1) + Used(p[|p| - 1])
  {
    var e := list[0];
    UsedSnoc([], e);
    assert [] + [e] == [e];
    assert EntryOk(e);
    assert DivRoundUp(0, BLOCK) == 0;
    SizeMatchesPacking(list[1..], [e], 0);
  }

  // ----- Writing the blocks -----------------------------------------------------------------

  lemma TableStep(es: seq<Entry>, i: nat, off: nat)
    requires i < |es|
    ensures DirentTable(es[i..], off) == EncodeDirent(es[i], off) + DirentTable(es[i + 1..], off + |es[i].name|)
    ensures NameTable(es[i..]) == es[i].name + NameTable(es[i + 1..])
  {
    assert es[i..][1..] == es[i + 1..] && es[i..][0] == es[i];
  }

  /** The dirents and the names of the first `i` entries. */
  ghost function DirentsTo(es: seq<Entry>, i: nat): seq<Byte>
    requires i <= |es|
  {
    if i == 0 then [] else DirentsTo(es, i - 1) + EncodeDirent(es[i - 1], NameOff(es, i - 1))
  }

  ghost function NamesTo(es: seq<Entry>, i: nat): seq<Byte>
    requires i <= |es|
  {
    if i == 0 then [] else NamesTo(es, i - 1) + es[i - 1].name
  }

  lemma {:induction false} DirentsSplit(es: seq<Entry>, i: nat)
    requires i <= |es|
    ensures DirentsTo(es, i) + DirentTable(es[i..], NameOff(es, i)) == DirentTable(es, DIRENT * |es|)
  {
    if i == 0 {
      assert es[0..] == es;
    } else {
      DirentsSplit(es, i - 1);
      BeforeStep(es, i - 1);
      DirentsMove(es, i - 1, NameOff(es, i - 1));
    }
  }

  lemma DirentsMove(es: seq<Entry>, i: nat, off: nat)
    requires i < |es| && off == NameOff(es, i)
    ensures DirentsTo(es, i + 1) + DirentTable(es[i + 1..], off + |es[i].name|) ==
            DirentsTo(es, i) + DirentTable(es[i..], off)
  {
    TableStep(es, i, off);
    Regroup(DirentsTo(es, i), EncodeDirent(es[i], off), DirentTable(es[i + 1..], off + |es[i].name|));
  }

  lemma {:induction false} NamesSplit(es: seq<Entry>, i: nat)
    requires i <= |es|
    ensures NamesTo(es, i) + NameTable(es[i..]) == NameTable(es)
  {
    if i == 0 {
      assert es[0..] == es;
    } else {
      NamesSplit(es, i - 1);
      TableStep(es, i - 1, 0);
      Regroup(NamesTo(es, i - 1), es[i - 1].name, NameTable(es[i..]));
    }
  }

  lemma TablesComplete(es: seq<Entry>)
    ensures DirentsTo(es, |es|) + NamesTo(es, |es|) == EncodeBlock(es)
  {
    DirentsSplit(es, |es|);
    NamesSplit(es, |es|);
    var n: seq<Byte> := [];
    assert es[|es|..] == [] && DirentTable([], NameOff(es, |es|)) == n && NameTable([]) == n;
    assert DirentsTo(es, |es|) + n == DirentsTo(es, |es|) && NamesTo(es, |es|) + n == NamesTo(es, |es|);
  }

  /** Writing out one block: name offsets are assigned in order and stay below the block size. */
  method WriteBlock(dirents: seq<Entry>) returns (data: seq<Byte>)
    requires BlockFits(dirents)
    ensures data == EncodeBlock(dirents)
  {
    var nameOff := DIRENT * |dirents|;
    data := [];
    var names: seq<Byte> := [];
    var i := 0;
    while i < |dirents|
      invariant 0 <= i <= |dirents| && nameOff == NameOff(dirents, i)
      invariant data == DirentsTo(dirents, i) && names == NamesTo(dirents, i)
    {
      var e := dirents[i];
      NameStaysInBlock(dirents, i);
      assert nameOff < BLOCK;
      data := data + EncodeDirent(e, nameOff);
      names := names + e.name;
      nameOff := nameOff + |e.name|;
      i := i + 1;
    }
    TablesComplete(dirents);
    data := data + names;
  }

  lemma NameStaysInBlock(es: seq<Entry>, i: nat)
    requires BlockFits(es) && i < |es|
    ensures NameOff(es, i) < BLOCK && NameOff(es, i + 1) == NameOff(es, i) + |es[i].name|
  {
    BeforeStep(es, i);
    assert EntryOk(es[i]);
  }

  ghost function Encoded(blocks: seq<seq<Entry>>): seq<seq<Byte>> {
    if blocks == [] then [] else [EncodeBlock(blocks[0])] + Encoded(blocks[1..])
  }

  lemma {:induction false} EncodedConcat(a: seq<seq<Entry>>, b: seq<seq<Entry>>)
    ensures Encoded(a + b) == Encoded(a) + Encoded(b)
  {
    if a == [] {
      assert a + b == b;
    } else {
      assert (a + b)[1..] == a[1..] + b;
      EncodedConcat(a[1..], b);
    }
  }

  lemma {:induction false} EncodedAtBlock(blocks: seq<seq<Entry>>, b: nat)
    requires b < |blocks|
    ensures |Encoded(blocks)| == |blocks| && Encoded(blocks)[b] == EncodeBlock(blocks[b])
  {
    if |blocks| > 1 { EncodedAtBlock(blocks[1..], if b > 0 then b - 1 else 0); }
  }

  lemma EncodedSnoc(blocks: seq<seq<Entry>>, es: seq<Entry>)
    ensures Encoded(blocks + [es]) == Encoded(blocks) + [EncodeBlock(es)]
  {
    EncodedConcat(blocks, [es]);
    assert [es][1..] == [];
  }

  /** One turn of the packing loop. */
  lemma PackStep(list: seq<Entry>, i: nat, cur: seq<Entry>)
    requires EntriesFit(list) && i < |list| && (cur == [] || BlockFits(cur))
    ensures var e := list[i];
            && Used(cur + [e]) == Used(cur) + Len(e) && Used([e]) == Len(e) && BlockFits([e])
            && if Used(cur) + Len(e) > BLOCK then cur != [] && Pack(list[i..], cur) == [cur] + Pack(list[i + 1..], [e])
               else BlockFits(cur + [e]) && Pack(list[i..], cur) == Pack(list[i + 1..], cur + [e])
  {
    var e := list[i];
    assert list[i..][0] == e && list[i..][1..] == list[i + 1..] && EntryOk(e);
    UsedSnoc(cur, e);
    UsedSnoc([], e);
    assert [] + [e] == [e];
  }

  /** `v6_dump_dir`: the block images written, one per block slot and the tail last. */
  method DumpDir(list: seq<Entry>) returns (blocks: seq<seq<Byte>>)
    requires EntriesFit(list)
    ensures blocks == Encoded(Pack(list, []))
  {
    blocks := [];
    var dirents: seq<Entry> := [];
    var used := 0;
    ghost var packed: seq<seq<Entry>> := [];
    var i := 0;
    assert list[0..] == list;
    while i < |list|
      invariant 0 <= i <= |list| && used == Used(dirents)
      invariant dirents == [] || BlockFits(dirents)
      invariant blocks == Encoded(packed)
      invariant packed + Pack(list[i..], dirents) == Pack(list, [])
    {
      var e := list[i];
      var len := |e.name| + DIRENT;
      PackStep(list, i, dirents);
      if used + len > BLOCK {
        var data := WriteBlock(dirents);
        EncodedSnoc(packed, dirents);
        Regroup(packed, [dirents], Pack(list[i + 1..], [e]));
        blocks := blocks + [data];
        packed := packed + [dirents];
        dirents := [];
        used := 0;
        assert dirents + [e] == [e];
      }
      dirents := dirents + [e];
      used := used + len;
      i := i + 1;
    }
    assert list[i..] == [];
    if used > 0 {
      var data := WriteBlock(dirents);
      EncodedSnoc(packed, dirents);
      blocks := blocks + [data];
    } else {
      assert packed + [] == packed;
    }
  }

  // ----- The recorded size --------------------------------------------------------------------

  /** Place for an entry in a list that is sorted by name. */
  function InsertByName(es: seq<Entry>, e: Entry): seq<Entry> {
    if es == [] || Less(e.name, es[0].name) then [e] + es else [es[0]] + InsertByName(es[1..], e)
  }

  /** The entries in the order in which they are written: the children are sorted already, and the
      dots are sorted in among them. */
  function Arranged(dot: Entry, dotdot: Entry, children: seq<Entry>): seq<Entry> {
    InsertByName(InsertByName(children, dotdot), dot)
  }

  /** `v6_dir_d_size`: the dots come first, then the children. */
  function RecordedSize(dot: Entry, dotdot: Entry, children: seq<Entry>): nat {
    DirSize([dot, dotdot] + children, 0)
  }

  /** A directory as the builder holds it before it is written. */
  ghost predicate Buildable(dot: Entry, dotdot: Entry, children: seq<Entry>) {
    && dot.name == DOT && dotdot.name == DOTDOT
    && EntriesFit([dot, dotdot] + children) && AscendingNames(children)
    && forall i | 0 <= i < |children| :: children[i].name != DOT && children[i].name != DOTDOT
  }

  lemma {:induction false} InsertAscends(es: seq<Entry>, e: Entry)
    requires AscendingNames(es) && forall i | 0 <= i < |es| :: es[i].name != e.name
    ensures AscendingNames(InsertByName(es, e))
    ensures forall x :: x in InsertByName(es, e) <==> x in es || x == e
    ensures |InsertByName(es, e)| == |es| + 1
  {
    if es == [] { return; }
    Trichotomy(e.name, es[0].name);
    if Less(e.name, es[0].name) {
      forall j | 0 < j < |es| ensures Less(e.name, es[j].name) { Transitive(e.name, es[0].name, es[j].name); }
    } else {
      var rest := InsertByName(es[1..], e);
      InsertAscends(es[1..], e);
      forall j | 0 <= j < |rest| ensures Less(es[0].name, rest[j].name) {
        assert rest[j] in rest;
      }
    }
  }

  /** What is written is sorted and holds the dots and the children, nothing else. */
  lemma ArrangedIs(dot: Entry, dotdot: Entry, children: seq<Entry>)
    requires Buildable(dot, dotdot, children)
    ensures var list := Arranged(dot, dotdot, children);
            && AscendingNames(list) && EntriesFit(list) && |list| == |children| + 2
            && forall x :: x in list <==> x in children || x == dot || x == dotdot
  {
    var some := InsertByName(children, dotdot);
    InsertAscends(children, dotdot);
    forall i | 0 <= i < |some| ensures some[i].name != DOT { assert some[i] in some; }
    InsertAscends(some, dot);
    var list := Arranged(dot, dotdot, children);
    var all := [dot, dotdot] + children;
    forall i | 0 <= i < |list| ensures EntryOk(list[i]) && Len(list[i]) <= BLOCK {
      assert list[i] in list;
      assert list[i] in all by {
        assert all[0] == dot && all[1] == dotdot;
        if list[i] in children {
          var k :| 0 <= k < |children| && children[k] == list[i];
          assert all[k + 2] == list[i];
        }
      }
    }
  }

  /** With no child below "..", the dots come first in both orders. */
  lemma DotsFirstAgree(dot: Entry, dotdot: Entry, children: seq<Entry>)
    requires Buildable(dot, dotdot, children)
    requires children == [] || Less(DOTDOT, children[0].name)
    ensures Arranged(dot, dotdot, children) == [dot, dotdot] + children
    ensures RecordedSize(dot, dotdot, children) == DirSize(Arranged(dot, dotdot, children), 0)
  {
    DotsAscend();
    if children != [] { Asymmetric(DOTDOT, children[0].name); }
    assert InsertByName(children, dotdot) == [dotdot] + children;
    assert [dot] + ([dotdot] + children) == [dot, dotdot] + children;
  }

  lemma {:induction false} FitsInOneBlock(list: seq<Entry>, d: nat)
    requires d < BLOCK && d + Used(list) <= BLOCK
    ensures DirSize(list, d) == d + Used(list)
    decreases list
  {
    if list != [] {
      assert list == [list[0]] + list[1..];
      UsedConcat([list[0]], list[1..]);
      UsedSnoc([], list[0]);
      assert [] + [list[0]] == [list[0]];
      assert Grow(d, Len(list[0])) == d + Len(list[0]);
      if list[1..] == [] { return; }
      assert Used(list[1..]) > 0;
      FitsInOneBlock(list[1..], d + Len(list[0]));
    }
  }

  lemma {:induction false} InsertUsed(es: seq<Entry>, e: Entry)
    ensures Used(InsertByName(es, e)) == Used(es) + Len(e)
  {
    UsedSnoc([], e);
    assert [] + [e] == [e];
    if es == [] || Less(e.name, es[0].name) {
      UsedConcat([e], es);
    } else {
      InsertUsed(es[1..], e);
      UsedConcat([es[0]], InsertByName(es[1..], e));
      UsedConcat([es[0]], es[1..]);
      assert es == [es[0]] + es[1..];
    }
  }

  /** So do they when everything fits into one block, in whatever order. */
  lemma OneBlockAgrees(dot: Entry, dotdot: Entry, children: seq<Entry>)
    requires Used([dot, dotdot] + children) <= BLOCK
    ensures RecordedSize(dot, dotdot, children) == DirSize(Arranged(dot, dotdot, children), 0)
  {
    FitsInOneBlock([dot, dotdot] + children, 0);
    InsertUsed(children, dotdot);
    InsertUsed(InsertByName(children, dotdot), dot);
    UsedConcat([dot, dotdot], children);
    UsedSnoc([], dot);
    UsedSnoc([dot], dotdot);
    assert [] + [dot] == [dot] && [dot] + [dotdot] == [dot, dotdot];
    FitsInOneBlock(Arranged(dot, dotdot, children), 0);
  }

  // ----- From the builder to the reader -------------------------------------------------------

  /** What the builder knows of the inode: whether it is compact, and for every xattr the bytes of its name
      behind the prefix and of its value. */
  datatype Node = Node(compact: bool, xattrs: seq<nat>)

  /** The xattr header and the first `i` xattrs, each of which ends at a multiple of four. */
  function AlignedTo(xattrs: seq<nat>, i: nat): (size: nat)
    requires i <= |xattrs|
    ensures size >= 12 && size % 4 == 0
  {
    if i == 0 then 12 else DivRoundUp(AlignedTo(xattrs, i - 1) + 4 + xattrs[i - 1], 4) * 4
  }

  function XattrBytes(xattrs: seq<nat>): nat {
    if xattrs == [] then 0 else AlignedTo(xattrs, |xattrs|)
  }

  /** `aligned_size_v6`. */
  method AlignedSize(xattrs: seq<nat>) returns (size: nat)
    ensures size == XattrBytes(xattrs)
  {
    if xattrs == [] { return 0; }
    size := 12;
    for i := 0 to |xattrs|
      invariant size == AlignedTo(xattrs, i)
    {
      size := size + 4;
      size := size + xattrs[i];
      size := DivRoundUp(size, 4) * 4;
    }
  }

  /** `count_v6`: what is recorded in the inode. */
  function XattrCount(xattrs: seq<nat>): nat {
    if xattrs == [] then 0 else (XattrBytes(xattrs) - 12) / 4 + 1
  }

  /** `v6_size_with_xattr`. */
  function SizeWithXattr(node: Node): nat {
    (if node.compact then 32 else 64) + XattrBytes(node.xattrs)
  }

  /** The inode in the image is the one the builder wrote. */
  predicate InodeOf(d: Dir, node: Node) {
    d.inode.format % 2 == (if node.compact then 0 else 1) && d.inode.xattrCount == XattrCount(node.xattrs)
  }

  /** Every xattr takes its entry header and its bytes, and up to three more. */
  lemma AlignedStep(xattrs: seq<nat>, i: nat)
    requires i < |xattrs|
    ensures 4 + xattrs[i] <= AlignedTo(xattrs, i + 1) - AlignedTo(xattrs, i) < 4 + xattrs[i] + 4
  {
  }

  /** The number in the inode tells the reader how many bytes the xattrs take. */
  lemma XattrSizeReads(d: Dir, node: Node)
    requires InodeOf(d, node)
    ensures InodeSize(d.inode) + XattrSize(d.inode) == SizeWithXattr(node) && SizeWithXattr(node) % 4 == 0
  {
  }

  /** The reader looks behind the inode at the next multiple of eight, the builder writes right there. */
  predicate TailAligned(d: Dir, node: Node) {
    d.inode.format / 2 == FLAT_INLINE ==> SizeWithXattr(node) % 8 == 0
  }

  /** Where `v6_dump_dir` writes block `b` of `n`: whole blocks from the address in the inode on, the
      last one behind the inode if the layout is inline. */
  function WriteOffset(d: Dir, node: Node, b: nat, n: nat): nat {
    if d.inode.format / 2 == FLAT_INLINE && b + 1 == n then d.inode.offset + SizeWithXattr(node)
    else d.inode.union * BLOCK + b * BLOCK
  }

  /** The reader finds the last block where the builder wrote it exactly if the layout is plain or the inode
      and its xattrs end at a multiple of eight.  Otherwise it starts four bytes late. */
  lemma TailFoundIff(d: Dir, node: Node, b: nat)
    requires InodeOf(d, node) && PlainOrInline(d) && d.BlocksCount() == b + 1
    ensures DataBlockOffset(d, b) == Ok(WriteOffset(d, node, b, b + 1)) <==> TailAligned(d, node)
    ensures !TailAligned(d, node) ==> DataBlockOffset(d, b) == Ok(WriteOffset(d, node, b, b + 1) + 4)
  {
    XattrSizeReads(d, node);
  }

  /** Block `b` is in the image where it was written, and the gap up to the next block is zero. */
  ghost predicate WrittenAt(d: Dir, node: Node, blocks: seq<seq<Byte>>, b: nat)
    requires b < |blocks|
  {
    var o := WriteOffset(d, node, b, |blocks|);
    && o % 2 == 0 && o + |blocks[b]| <= |d.image| && d.image[o..o + |blocks[b]|] == blocks[b]
    && (b + 1 < |blocks| ==>
          o + BLOCK <= |d.image| && forall k | o + |blocks[b]| <= k < o + BLOCK :: d.image[k] == 0)
  }

  /** The two layouts the builder gives to directories. */
  ghost predicate PlainOrInline(d: Dir) {
    d.inode.format < 16 && (d.inode.format / 2 == FLAT_PLAIN || d.inode.format / 2 == FLAT_INLINE)
  }

  /** Zeros from `o + used` up to `o + limit`. */
  ghost predicate ZeroBetween(image: seq<Byte>, o: nat, used: nat, limit: nat) {
    used < limit ==> o + limit <= |image| && forall k | o + used <= k < o + limit :: image[k] == 0
  }

  /** What the recorded size reserves behind the last block was not written to. */
  ghost predicate TailIsZero(d: Dir, node: Node, blocks: seq<seq<Byte>>) {
    blocks != [] ==>
      var b := |blocks| - 1;
      ZeroBetween(d.image, WriteOffset(d, node, b, |blocks|), |blocks[b]|, d.inode.size % BLOCK)
  }

  /** The image holds what the builder wrote, under the size it recorded. */
  ghost predicate Dumped(d: Dir, node: Node, dot: Entry, dotdot: Entry, children: seq<Entry>) {
    var blocks := Encoded(Pack(Arranged(dot, dotdot, children), []));
    && PlainOrInline(d) && InodeOf(d, node)
    && d.inode.size == RecordedSize(dot, dotdot, children)
    && (forall b | 0 <= b < |blocks| :: WrittenAt(d, node, blocks, b))
    && TailIsZero(d, node, blocks)
  }

  lemma {:induction false} BlocksFromAll(d: Dir, dir: seq<seq<Entry>>, b: nat)
    requires forall i | 0 <= i < |dir| :: BlockAt(d, i, dir[i])
    ensures BlocksFrom(d, dir, b)
    decreases |dir| - b
  {
    if b < |dir| { BlocksFromAll(d, dir, b + 1); }
  }

  lemma WrittenHolds(d: Dir, node: Node, dir: seq<seq<Entry>>, b: nat)
    requires b < |dir| && BlockFits(dir[b]) && |Encoded(dir)| == |dir| && Encoded(dir)[b] == EncodeBlock(dir[b])
    requires WrittenAt(d, node, Encoded(dir), b) && d.BlocksCount() == |dir| && PlainOrInline(d)
    requires InodeOf(d, node) && TailAligned(d, node)
    ensures BlockHolds(d, b, dir[b]) && DataBlockOffset(d, b) == Ok(WriteOffset(d, node, b, |dir|))
  {
    BlockFound(d, node, b, |dir|);
  }

  /** With an aligned tail the reader looks for every block where the builder wrote it. */
  lemma BlockFound(d: Dir, node: Node, b: nat, n: nat)
    requires b < n == d.BlocksCount() && PlainOrInline(d) && InodeOf(d, node) && TailAligned(d, node)
    ensures DataBlockOffset(d, b) == Ok(WriteOffset(d, node, b, n))
  {
    if b + 1 == n { TailFoundIff(d, node, b); }
  }

  lemma WrittenIsStored(d: Dir, node: Node, dir: seq<seq<Entry>>, b: nat)
    requires b < |dir| && BlockFits(dir[b]) && |Encoded(dir)| == |dir| && Encoded(dir)[b] == EncodeBlock(dir[b])
    requires WrittenAt(d, node, Encoded(dir), b) && d.BlocksCount() == |dir| && PlainOrInline(d)
    requires InodeOf(d, node) && TailAligned(d, node)
    requires b + 1 == |dir| ==>
               TailIsZero(d, node, Encoded(dir)) && (LastFull(d) || Used(dir[b]) <= d.inode.size % BLOCK)
    ensures BlockAt(d, b, dir[b])
  {
    WrittenHolds(d, node, dir, b);
  }

  /** The recorded size has as many blocks as were written, and reaches as far. */
  predicate BigEnough(dot: Entry, dotdot: Entry, children: seq<Entry>) {
    var recorded, written := RecordedSize(dot, dotdot, children), DirSize(Arranged(dot, dotdot, children), 0);
    DivRoundUp(recorded, BLOCK) == DivRoundUp(written, BLOCK) && written <= recorded
  }

  /** Sizes with the same number of blocks compare as what they take of the last one. */
  lemma CompareTails(size: nat, n: nat, used: nat)
    requires n > 0 && 0 < used <= BLOCK
    ensures DivRoundUp(BLOCK * (n - 1) + used, BLOCK) == n
    ensures DivRoundUp(size, BLOCK) == n ==>
              (BLOCK * (n - 1) + used <= size <==> size % BLOCK == 0 || used <= size % BLOCK)
  {
  }

  lemma PackedTail(list: seq<Entry>)
    requires EntriesFit(list) && list != []
    ensures var dir := Pack(list, []);
            && dir != [] && BlockFits(dir[|dir| - 1]) && 0 < Used(dir[|dir| - 1]) <= BLOCK
            && DirSize(list, 0) == BLOCK * (|dir| - 1) + Used(dir[|dir| - 1])
            && DivRoundUp(DirSize(list, 0), BLOCK) == |dir|
  {
    var dir := Pack(list, []);
    PackFits(list, []);
    WholeSize(list);
    assert BlockFits(dir[|dir| - 1]);
    CompareTails(0, |dir|, Used(dir[|dir| - 1]));
  }

  /** A size that is big enough makes what was written a directory as the reader expects it. */
  lemma BigEnoughIsStored(d: Dir, node: Node, dot: Entry, dotdot: Entry, children: seq<Entry>)
    requires Buildable(dot, dotdot, children) && Dumped(d, node, dot, dotdot, children)
    requires TailAligned(d, node) && BigEnough(dot, dotdot, children)
    ensures Stored(d, Pack(Arranged(dot, dotdot, children), []))
  {
    var list := Arranged(dot, dotdot, children);
    ArrangedIs(dot, dotdot, children);
    var dir := Pack(list, []);
    PackFits(list, []);
    PackedTail(list);
    CompareTails(d.inode.size, |dir|, Used(dir[|dir| - 1]));
    forall b | 0 <= b < |dir| ensures BlockAt(d, b, dir[b]) {
      EncodedAtBlock(dir, b);
      assert BlockFits(dir[b]);
      WrittenIsStored(d, node, dir, b);
    }
    BlocksFromAll(d, dir, 0);
  }

  /** The reader sees the blocks of `dir`, and reads number and name of every entry. */
  ghost predicate ReadsBack(d: Dir, dir: seq<seq<Entry>>) {
    && d.BlocksCount() == |dir|
    && (forall b | 0 <= b < |dir| :: GetEntry(d, b, 0).Ok? && GetEntry(d, b, 0).value.nameOff / DIRENT == |dir[b]|)
    && forall b, i | IsPlace(dir, b, i) :: EntryAt(d, b, i, |dir[b]|) == Ok((dir[b][i].nid, dir[b][i].name))
  }

  lemma StoredReadsBack(d: Dir, dir: seq<seq<Entry>>)
    requires Stored(d, dir) && !LastFull(d)
    ensures ReadsBack(d, dir)
  {
    forall b | 0 <= b < |dir| ensures GetEntry(d, b, 0).Ok? && GetEntry(d, b, 0).value.nameOff / DIRENT == |dir[b]| {
      BlockStored(d, dir, 0, b);
      HeadCountsEntries(d, b, dir[b]);
    }
    forall b, i | IsPlace(dir, b, i) ensures EntryAt(d, b, i, |dir[b]|) == Ok((dir[b][i].nid, dir[b][i].name)) {
      EntryAtReads(d, dir, b, i);
    }
  }

  /** The last entry alone needs a recorded size that reaches behind it and is no multiple of the block size. */
  lemma LastEntryNeedsSize(d: Dir, node: Node, dir: seq<seq<Entry>>, b: nat, es: seq<Entry>, i: nat)
    requires d.BlocksCount() == |dir| == b + 1 && PlainOrInline(d) && InodeOf(d, node) && TailAligned(d, node)
    requires dir[b] == es && BlockFits(es) && |es| == i + 1
    requires |Encoded(dir)| == b + 1 && Encoded(dir)[b] == EncodeBlock(es) && WrittenAt(d, node, Encoded(dir), b)
    requires EntryAt(d, b, i, i + 1).Ok? && EntryAt(d, b, i, i + 1).value.1 == es[i].name
    ensures 0 < Used(es) <= d.inode.size % BLOCK
  {
    WrittenHolds(d, node, dir, b);
    LastNameNeedsRoom(d, b, es);
  }

  /** Node numbers of four bytes. */
  ghost predicate SmallNumbers(es: seq<Entry>) {
    forall i | 0 <= i < |es| :: es[i].nid < Limit(4)
  }

  /** The reader reads back everything the builder wrote exactly if it finds the last block, and the size
      that was recorded with the dots in front is big enough for the written order and no multiple of the
      block size.  A last block that it does not find can look right only to node numbers of more than four
      bytes. */
  lemma DumpedReadsBackIff(d: Dir, node: Node, dot: Entry, dotdot: Entry, children: seq<Entry>)
    requires Buildable(dot, dotdot, children) && Dumped(d, node, dot, dotdot, children)
    ensures TailAligned(d, node) || SmallNumbers(Arranged(dot, dotdot, children)) ==>
              (ReadsBack(d, Pack(Arranged(dot, dotdot, children), [])) <==>
               && TailAligned(d, node) && BigEnough(dot, dotdot, children)
               && RecordedSize(dot, dotdot, children) % BLOCK != 0)
  {
    var dir := Pack(Arranged(dot, dotdot, children), []);
    if TailAligned(d, node) {
      if BigEnough(dot, dotdot, children) && RecordedSize(dot, dotdot, children) % BLOCK != 0 {
        BigEnoughIsStored(d, node, dot, dotdot, children);
        StoredReadsBack(d, dir);
      }
      if ReadsBack(d, dir) { ReadingNeedsSize(d, node, dot, dotdot, children); }
    } else if SmallNumbers(Arranged(dot, dotdot, children)) && ReadsBack(d, dir) {
      MisalignedIsLost(d, node, dot, dotdot, children);
    }
  }

  lemma ReadingNeedsSize(d: Dir, node: Node, dot: Entry, dotdot: Entry, children: seq<Entry>)
    requires Buildable(dot, dotdot, children) && Dumped(d, node, dot, dotdot, children) && TailAligned(d, node)
    requires ReadsBack(d, Pack(Arranged(dot, dotdot, children), []))
    ensures BigEnough(dot, dotdot, children) && RecordedSize(dot, dotdot, children) % BLOCK != 0
  {
    var list := Arranged(dot, dotdot, children);
    var dir := Pack(list, []);
    var b := |dir| - 1;
    ReadsLast(d, dir);
    ArrangedIs(dot, dotdot, children);
    PackedTail(list);
    EncodedAtBlock(dir, b);
    LastEntryNeedsSize(d, node, dir, b, dir[b], |dir[b]| - 1);
    CompareTails(d.inode.size, |dir|, Used(dir[b]));
  }

  lemma ReadsLast(d: Dir, dir: seq<seq<Entry>>)
    requires ReadsBack(d, dir)
    ensures var b := |dir| - 1;
            && d.BlocksCount() == |dir|
            && (dir != [] && dir[b] != [] ==>
                  var i := |dir[b]| - 1;
                  EntryAt(d, b, i, |dir[b]|) == Ok((dir[b][i].nid, dir[b][i].name)))
  {
    var b := |dir| - 1;
    if dir != [] && dir[b] != [] { assert IsPlace(dir, b, |dir[b]| - 1); }
  }

  lemma MisalignedIsLost(d: Dir, node: Node, dot: Entry, dotdot: Entry, children: seq<Entry>)
    requires Buildable(dot, dotdot, children) && Dumped(d, node, dot, dotdot, children) && !TailAligned(d, node)
    requires SmallNumbers(Arranged(dot, dotdot, children))
    ensures !ReadsBack(d, Pack(Arranged(dot, dotdot, children), []))
  {
    var list := Arranged(dot, dotdot, children);
    var dir := Pack(list, []);
    ArrangedIs(dot, dotdot, children);
    PackedTail(list);
    EncodedAtBlock(dir, |dir| - 1);
    PackedIsListed(list, |dir| - 1);
    LateIsLost(d, node, dir, |dir| - 1, dir[|dir| - 1]);
  }

  lemma PackedIsListed(list: seq<Entry>, b: nat)
    requires b < |Pack(list, [])| && Pack(list, [])[b] != []
    ensures Pack(list, [])[b][0] in list
  {
    PackKeepsEntries(list, []);
    assert [] + list == list;
    FlattenAt(Pack(list, []), b, 0);
  }

  lemma LateIsLost(d: Dir, node: Node, dir: seq<seq<Entry>>, b: nat, es: seq<Entry>)
    requires |dir| == b + 1 && dir[b] == es && BlockFits(es) && es[0].nid < Limit(4)
    requires PlainOrInline(d) && InodeOf(d, node) && !TailAligned(d, node)
    requires |Encoded(dir)| == b + 1 && Encoded(dir)[b] == EncodeBlock(es) && WrittenAt(d, node, Encoded(dir), b)
    ensures !ReadsBack(d, dir)
  {
    if d.BlocksCount() == |dir| {
      TailFoundIff(d, node, b);
      FourBytesLate(d.image, WriteOffset(d, node, b, b + 1), es);
      assert IsPlace(dir, b, 0);
    }
  }

  /** Four bytes late the number of the first entry is wrong: its upper half is the name offset. */
  lemma FourBytesLate(image: seq<Byte>, o: nat, es: seq<Entry>)
    requires BlockFits(es) && o + Used(es) <= |image| && image[o..o + Used(es)] == EncodeBlock(es)
    requires es[0].nid < Limit(4)
    ensures GetDirent(image, o + 4).Ok? ==> GetDirent(image, o + 4).value.nid != es[0].nid
  {
    var off := DIRENT * |es|;
    var head, low := EncodeDirent(es[0], off), ToLE(off, 2) + [es[0].fileType, 0];
    assert EncodeBlock(es)[..DIRENT] == head;
    SliceOfSlice(image, o, Used(es), 4, 12);
    assert EncodeBlock(es)[4..12] == head[4..12];
    assert head[4..12] == ToLE(es[0].nid, 8)[4..] + low;
    FromLEConcat(ToLE(es[0].nid, 8)[4..], low);
    FromLEConcat(ToLE(off, 2), [es[0].fileType, 0]);
    assert off < Limit(2) by { assert Limit(1) == 256 * Limit(0); }
    LERoundTrip(off, 2);
    AtLeast(Limit(4), FromLE(low));
  }

  lemma AtLeast(a: nat, b: nat)
    requires b > 0
    ensures a <= a * b
  {
  }

  lemma AscendingIsSorted(dir: seq<seq<Entry>>)
    requires AscendingNames(Flatten(dir))
    ensures Sorted(dir)
  {
    forall b1, i1, b2, i2 | IsPlace(dir, b1, i1) && IsPlace(dir, b2, i2) && Earlier(b1, i1, b2, i2)
      ensures Less(dir[b1][i1].name, dir[b2][i2].name)
    {
      FlattenAt(dir, b1, i1);
      FlattenAt(dir, b2, i2);
      StartStep(dir, b1);
      if b1 < b2 { StartMonotone(dir, b1 + 1, b2); }
    }
  }

  /** Packing keeps the order of the names. */
  lemma PackedIsSorted(list: seq<Entry>)
    requires AscendingNames(list)
    ensures Sorted(Pack(list, []))
  {
    PackKeepsEntries(list, []);
    assert [] + list == list;
    AscendingIsSorted(Pack(list, []));
  }

  /** For every directory the builder writes with an aligned tail and under a size that is big enough, lookup
      by name in the image finds exactly the entry the builder was given, except for the names on which the
      search underflows. */
  method LookupBuilt(d: Dir, node: Node, dot: Entry, dotdot: Entry, children: seq<Entry>, name: Name)
    returns (r: Result<nat>)
    requires Buildable(dot, dotdot, children) && Dumped(d, node, dot, dotdot, children)
    requires TailAligned(d, node) && BigEnough(dot, dotdot, children)
    requires ChildrenReadable(d, Pack(Arranged(dot, dotdot, children), []))
    ensures NonEmpty(Pack(Arranged(dot, dotdot, children), []))
    ensures r == if Underflows(LastFull(d), Pack(Arranged(dot, dotdot, children), []), name) then Err(Overflow)
                 else Scan(Arranged(dot, dotdot, children), name)
  {
    ghost var list := Arranged(dot, dotdot, children);
    ghost var dir := Pack(list, []);
    BigEnoughIsStored(d, node, dot, dotdot, children);
    StoredNonEmpty(d, dir);
    ArrangedIs(dot, dotdot, children);
    PackedIsSorted(list);
    PackKeepsEntries(list, []);
    assert [] + list == list;
    r := GetChildByName(d, name, dir);
  }

  /** The abort-free case spelt out: names from the first entry on, unless the last block is full. */
  lemma LookupDefined(full: bool, list: seq<Entry>, name: Name)
    requires EntriesFit(list) && list != [] && !full && !Less(name, list[0].name)
    requires NonEmpty(Pack(list, []))
    ensures !Underflows(full, Pack(list, []), name)
  {
    var dir := Pack(list, []);
    PackKeepsEntries(list, []);
    assert [] + list == list;
    assert IsPlace(dir, 0, 0);
    FlattenAt(dir, 0, 0);
  }

  /** `calculate_nid`: the number the builder gives to the inode it writes at an offset. */
  function CalculateNid(offset: nat, metaAddr: nat): nat
    requires metaAddr <= offset
  {
    (offset - metaAddr) / 32
  }

  /** The number leads the reader back to the offset, and it can open the inode exactly if all of it lies in
      the image: 32 bytes, or 64 if the first byte says that it is extended. */
  lemma NidLeadsBack(d: Dir, offset: nat)
    requires d.metaOffset <= offset && (offset - d.metaOffset) % 32 == 0
    ensures var nid := CalculateNid(offset, d.metaOffset);
            InodeWrapper(d, nid) ==
            if offset + 32 <= |d.image| && (d.image[offset] % 2 == 1 ==> offset + 64 <= |d.image|) then Ok(nid)
            else Err(EINVAL)
  {
    assert d.metaOffset + (offset - d.metaOffset) / 32 * 32 == offset;
  }

  // ----- Every directory can be dumped ---------------------------------------------------------

  /** The blocks one after another, each padded with zeros. */
  function Laid(blocks: seq<seq<Byte>>): seq<Byte>
    requires forall i | 0 <= i < |blocks| :: |blocks[i]| <= BLOCK
  {
    if blocks == [] then [] else blocks[0] + seq(BLOCK - |blocks[0]|, _ => 0) + Laid(blocks[1..])
  }

  lemma {:induction false} LaidLength(blocks: seq<seq<Byte>>)
    requires forall i | 0 <= i < |blocks| :: |blocks[i]| <= BLOCK
    ensures |Laid(blocks)| == BLOCK * |blocks|
  {
    if blocks != [] { LaidLength(blocks[1..]); }
  }

  lemma {:induction false} LaidAt(blocks: seq<seq<Byte>>, b: nat, k: nat)
    requires forall i | 0 <= i < |blocks| :: |blocks[i]| <= BLOCK
    requires b < |blocks| && k < BLOCK && |Laid(blocks)| == BLOCK * |blocks|
    ensures Laid(blocks)[BLOCK * b + k] == if k < |blocks[b]| then blocks[b][k] else 0
  {
    if b > 0 {
      LaidLength(blocks[1..]);
      LaidAt(blocks[1..], b - 1, k);
      assert Laid(blocks)[BLOCK * b + k] == Laid(blocks[1..])[BLOCK * (b - 1) + k];
      assert blocks[1..][b - 1] == blocks[b];
    }
  }

  lemma LaidIsWritten(d: Dir, node: Node, blocks: seq<seq<Byte>>, b: nat)
    requires b < |blocks| && forall i | 0 <= i < |blocks| :: |blocks[i]| <= BLOCK
    requires d.image == Laid(blocks) && d.inode.format == d.inode.union == 0
    ensures WrittenAt(d, node, blocks, b) && ZeroBetween(d.image, WriteOffset(d, node, b, |blocks|), |blocks[b]|, BLOCK)
  {
    LaidLength(blocks);
    var o := BLOCK * b;
    forall k | o <= k < o + BLOCK ensures d.image[k] == if k - o < |blocks[b]| then blocks[b][k - o] else 0 {
      LaidAt(blocks, b, k - o);
    }
    assert d.image[o..o + |blocks[b]|] == blocks[b];
  }

  /** An image that holds what the builder writes for a given directory. */
  lemma SomeDump(dot: Entry, dotdot: Entry, children: seq<Entry>) returns (d: Dir, node: Node)
    requires Buildable(dot, dotdot, children)
    ensures Dumped(d, node, dot, dotdot, children)
  {
    var list := Arranged(dot, dotdot, children);
    var blocks := Encoded(Pack(list, []));
    ArrangedIs(dot, dotdot, children);
    EncodedFits(list);
    node := Node(true, []);
    d := Dir(Laid(blocks), 0, OnDiskInode(0, RecordedSize(dot, dotdot, children), 0, 0, 0));
    forall b | 0 <= b < |blocks| ensures WrittenAt(d, node, blocks, b) { LaidIsWritten(d, node, blocks, b); }
    if blocks != [] { LaidIsWritten(d, node, blocks, |blocks| - 1); }
  }

  lemma EncodedFits(list: seq<Entry>)
    requires EntriesFit(list) && list != []
    ensures forall b | 0 <= b < |Encoded(Pack(list, []))| :: |Encoded(Pack(list, []))[b]| <= BLOCK
  {
    var dir := Pack(list, []);
    PackFits(list, []);
    EncodedAtBlock(dir, 0);
    forall b | 0 <= b < |dir| ensures |Encoded(dir)[b]| <= BLOCK {
      EncodedAtBlock(dir, b);
      assert BlockFits(dir[b]);
    }
  }

  // ----- A directory whose last entry is lost -------------------------------------------------

  lemma {:induction false} PackFill(a: seq<Entry>, rest: seq<Entry>, cur: seq<Entry>)
    requires Used(cur) + Used(a) <= BLOCK
    ensures Pack(a + rest, cur) == Pack(rest, cur + a)
    decreases a
  {
    if a == [] {
      assert a + rest == rest && cur + a == cur;
    } else {
      UsedSnoc(cur, a[0]);
      UsedConcat([a[0]], a[1..]);
      UsedSnoc([], a[0]);
      assert [] + [a[0]] == [a[0]] && [a[0]] + a[1..] == a;
      assert (a + rest)[0] == a[0] && (a + rest)[1..] == a[1..] + rest;
      PackFill(a[1..], rest, cur + [a[0]]);
      assert cur + [a[0]] + a[1..] == cur + a;
    }
  }

  /** A block that is filled up to where the next entry no longer fits. */
  lemma PackBlock(a: seq<Entry>, rest: seq<Entry>)
    requires Used(a) <= BLOCK && rest != [] && Len(rest[0]) <= BLOCK < Used(a) + Len(rest[0])
    ensures Pack(a + rest, []) == [a] + Pack(rest, [])
  {
    assert [] + a == a && [] + [rest[0]] == [rest[0]];
    PackFill(a, rest, []);
  }

  lemma PackLast(a: seq<Entry>)
    requires a != [] && Used(a) <= BLOCK
    ensures Pack(a, []) == [a]
  {
    PackFill(a, [], []);
    assert a + [] == a && [] + a == a;
  }

  lemma {:induction false} InsertBetween(low: seq<Entry>, high: seq<Entry>, e: Entry)
    requires forall i | 0 <= i < |low| :: Less(low[i].name, e.name)
    requires high == [] || Less(e.name, high[0].name)
    ensures InsertByName(low + high, e) == low + [e] + high
  {
    if low == [] {
      assert low + high == high;
    } else {
      Asymmetric(low[0].name, e.name);
      assert (low + high)[0] == low[0] && (low + high)[1..] == low[1..] + high;
      InsertBetween(low[1..], high, e);
      assert [low[0]] + (low[1..] + [e] + high) == low + [e] + high;
    }
  }

  lemma LenWithin(es: seq<Entry>, i: nat)
    requires i < |es|
    ensures Len(es[i]) <= Used(es)
  {
    UsedConcat(es[..i], es[i..]);
    UsedConcat([es[i]], es[i + 1..]);
    UsedSnoc([], es[i]);
    assert [] + [es[i]] == [es[i]] && [es[i]] + es[i + 1..] == es[i..] && es[..i] + es[i..] == es;
  }

  /** Entries that fit into a block, with ascending first bytes between two bounds. */
  ghost predicate StartBetween(es: seq<Entry>, from: int, to: int) {
    && EntriesFit(es) && ByFirstByte(es)
    && forall i | 0 <= i < |es| :: from < es[i].name[0] < to
  }

  lemma JoinStarts(a: seq<Entry>, b: seq<Entry>, from: int, mid: int, to: int)
    requires StartBetween(a, from, mid) && StartBetween(b, mid - 1, to) && from < mid < to
    ensures StartBetween(a + b, from, to)
  {
    forall i | 0 <= i < |a + b|
      ensures EntryOk((a + b)[i]) && Len((a + b)[i]) <= BLOCK && (a + b)[i].name != []
      ensures from < (a + b)[i].name[0] < to
    {
      assert (a + b)[i] == if i < |a| then a[i] else b[i - |a|];
    }
    forall i, j | 0 <= i < j < |a + b| ensures (a + b)[i].name[0] < (a + b)[j].name[0] {
      assert (a + b)[i] == if i < |a| then a[i] else b[i - |a|];
      assert (a + b)[j] == if j < |a| then a[j] else b[j - |a|];
    }
  }

  lemma RowStarts(n: nat, byte: Byte, len: nat) returns (es: seq<Entry>)
    requires 0 < byte && byte + n < 256 && len > 0 && 256 * n + len + DIRENT <= BLOCK
    ensures StartBetween(es, byte - 1, byte + n + 1) && Used(es) == 256 * n + len + DIRENT
  {
    es := RowAnd(n, byte, len);
    RowAndIs(n, byte, len);
    forall i | 0 <= i < |es| ensures Len(es[i]) <= BLOCK { LenWithin(es, i); }
  }

  /** Two blocks with the dots in front, and three with the dots behind `low` and `one`. */
  ghost predicate Misplaced(low: seq<Entry>, one: seq<Entry>, row: seq<Entry>, last: seq<Entry>) {
    && Used(low) == 4064 && Used(one) == 20 && Used(row) == 3840 && Used(last) == 230 && |one| == |last| == 1
    && StartBetween(low + one, 0, 46) && StartBetween(row + last, 46, 256)
  }

  /** Such names exist: fifteen of 244 bytes, one of 212 and one of 8, then fifteen of 244 and one
      of 218, all with different first bytes. */
  lemma SomeMisplaced() returns (low: seq<Entry>, one: seq<Entry>, row: seq<Entry>, last: seq<Entry>)
    ensures Misplaced(low, one, row, last)
  {
    low := RowStarts(15, 1, 212);
    one := OneStarts(8, 17);
    row := RowStarts(14, 50, 244);
    last := OneStarts(218, 65);
    JoinStarts(low, one, 0, 17, 46);
    JoinStarts(row, last, 49, 65, 256);
  }

  lemma OneStarts(len: nat, byte: Byte) returns (es: seq<Entry>)
    requires 0 < byte && 0 < len <= BLOCK - DIRENT
    ensures StartBetween(es, byte - 1, byte + 1) && Used(es) == len + DIRENT && |es| == 1
  {
    es := [Plain(len, byte)];
    PlainOk(len, byte);
    UsedSnoc([], es[0]);
    assert [] + es == es;
  }

  lemma UsedOne(es: seq<Entry>)
    requires |es| == 1
    ensures Used(es) == Len(es[0])
  {
    UsedSnoc([], es[0]);
    assert [] + [es[0]] == es;
  }

  const DOTS := [DOT_ENTRY, DOTDOT_ENTRY]

  lemma MisplacedBuildable(low: seq<Entry>, one: seq<Entry>, row: seq<Entry>, last: seq<Entry>)
    requires Misplaced(low, one, row, last)
    ensures Buildable(DOT_ENTRY, DOTDOT_ENTRY, (low + one) + (row + last))
  {
    var children := (low + one) + (row + last);
    JoinStarts(low + one, row + last, 0, 46, 256);
    FirstByteAscends(children);
    DotsAscend();
    forall i | 0 <= i < |children| ensures children[i].name[0] != 46 {
      assert children[i] == if i < |low + one| then (low + one)[i] else (row + last)[i - |low + one|];
    }
  }

  lemma MisplacedRecorded(low: seq<Entry>, one: seq<Entry>, row: seq<Entry>, last: seq<Entry>)
    requires Misplaced(low, one, row, last)
    ensures RecordedSize(DOT_ENTRY, DOTDOT_ENTRY, (low + one) + (row + last)) == BLOCK + 4090
  {
    var first, rest := DOTS + low, one + (row + last);
    DotsUsed();
    UsedConcat(DOTS, low);
    UsedConcat(row, last);
    UsedConcat(one, row + last);
    UsedOne(one);
    assert DOTS + ((low + one) + (row + last)) == first + rest;
    PackBlock(first, rest);
    PackLast(rest);
    MisplacedBuildable(low, one, row, last);
    WholeSize(first + rest);
  }

  lemma MisplacedArranged(low: seq<Entry>, one: seq<Entry>, row: seq<Entry>, last: seq<Entry>)
    requires Misplaced(low, one, row, last)
    ensures Arranged(DOT_ENTRY, DOTDOT_ENTRY, (low + one) + (row + last)) == (low + one) + ((DOTS + row) + last)
  {
    var below, above := low + one, row + last;
    DotsAscend();
    assert above[0].name[0] > 46;
    InsertBetween(below, above, DOTDOT_ENTRY);
    assert below + [DOTDOT_ENTRY] + above == below + ([DOTDOT_ENTRY] + above);
    InsertBetween(below, [DOTDOT_ENTRY] + above, DOT_ENTRY);
    assert below + [DOT_ENTRY] + ([DOTDOT_ENTRY] + above) == below + ((DOTS + row) + last);
  }

  lemma MisplacedPacked(low: seq<Entry>, one: seq<Entry>, row: seq<Entry>, last: seq<Entry>)
    requires Misplaced(low, one, row, last)
    ensures Pack((low + one) + ((DOTS + row) + last), []) == [low + one, DOTS + row, last]
    ensures Used(low + one) == 4084 && Used(DOTS + row) == 3867
  {
    DotsUsed();
    DotsAscend();
    UsedConcat(low, one);
    UsedConcat(DOTS, row);
    UsedOne(last);
    PackBlock(low + one, (DOTS + row) + last);
    PackBlock(DOTS + row, last);
    PackLast(last);
  }

  /** What the reader takes for the whole directory: the first two of the three blocks. */
  lemma MisplacedStored(d: Dir, node: Node, low: seq<Entry>, one: seq<Entry>, row: seq<Entry>, last: seq<Entry>)
    requires Misplaced(low, one, row, last) && d.inode.format / 2 == FLAT_PLAIN
    requires Dumped(d, node, DOT_ENTRY, DOTDOT_ENTRY, (low + one) + (row + last))
    ensures Stored(d, [low + one, DOTS + row]) && !LastFull(d)
  {
    MisplacedRecorded(low, one, row, last);
    MisplacedArranged(low, one, row, last);
    MisplacedPacked(low, one, row, last);
    MisplacedBuildable(low, one, row, last);
    var all, seen := [low + one, DOTS + row, last], [low + one, DOTS + row];
    ArrangedIs(DOT_ENTRY, DOTDOT_ENTRY, (low + one) + (row + last));
    PackFits(Arranged(DOT_ENTRY, DOTDOT_ENTRY, (low + one) + (row + last)), []);
    forall b | 0 <= b < 2 ensures BlockAt(d, b, seen[b]) {
      EncodedAtBlock(all, b);
      assert BlockFits(all[b]) && WrittenAt(d, node, Encoded(all), b);
      EarlyBlockStored(d, node, all, b);
    }
    BlocksFromAll(d, seen, 0);
  }

  /** A block that is followed by another one, in the plain layout. */
  lemma EarlyBlockStored(d: Dir, node: Node, dir: seq<seq<Entry>>, b: nat)
    requires b + 1 < |dir| && BlockFits(dir[b]) && |Encoded(dir)| == |dir| && Encoded(dir)[b] == EncodeBlock(dir[b])
    requires WrittenAt(d, node, Encoded(dir), b) && PlainOrInline(d) && d.inode.format / 2 == FLAT_PLAIN
    requires Extent(d, b) == BLOCK || Used(dir[b]) <= Extent(d, b)
    ensures BlockAt(d, b, dir[b])
  {
  }

  lemma LastNameIsLast(list: seq<Entry>, front: seq<Entry>, e: Entry)
    requires AscendingNames(list) && list == front + [e] && front != []
    ensures AscendingNames(front) && Scan(front, e.name) == Err(ENOENT) && Scan(list, e.name) == Ok(e.nid)
    ensures Less(front[0].name, e.name)
  {
    forall i | 0 <= i < |front| ensures front[i].name != e.name {
      assert list[i] == front[i] && list[|front|] == e;
      Asymmetric(front[i].name, e.name);
    }
    forall i, j | 0 <= i < j < |front| ensures Less(front[i].name, front[j].name) {
      assert list[i] == front[i] && list[j] == front[j];
    }
    ScanMisses(front, e.name);
    ScanFinds(list, |front|);
    assert list[0] == front[0];
  }

  /** Names below the dots can make the recorded size too small.  Of this directory three blocks are
      written and two are recorded, so in the plain layout the reader never looks at the third, and the
      last name is reported as absent. */
  method LastEntryIsLost(d: Dir, node: Node, low: seq<Entry>, one: seq<Entry>, row: seq<Entry>, last: seq<Entry>)
    returns (r: Result<nat>)
    requires Misplaced(low, one, row, last) && d.inode.format / 2 == FLAT_PLAIN
    requires Dumped(d, node, DOT_ENTRY, DOTDOT_ENTRY, (low + one) + (row + last))
    requires ChildrenReadable(d, [low + one, DOTS + row])
    ensures Buildable(DOT_ENTRY, DOTDOT_ENTRY, (low + one) + (row + last)) && d.BlocksCount() == 2
    ensures Scan(Arranged(DOT_ENTRY, DOTDOT_ENTRY, (low + one) + (row + last)), last[0].name) == Ok(last[0].nid)
    ensures r == Err(ENOENT)
  {
    ghost var seen := [low + one, DOTS + row];
    LostIsAbsent(low, one, row, last);
    MisplacedStored(d, node, low, one, row, last);
    StoredNonEmpty(d, seen);
    r := GetChildByName(d, last[0].name, seen);
  }

  lemma LostIsAbsent(low: seq<Entry>, one: seq<Entry>, row: seq<Entry>, last: seq<Entry>)
    requires Misplaced(low, one, row, last)
    ensures var seen, name := [low + one, DOTS + row], last[0].name;
            && Buildable(DOT_ENTRY, DOTDOT_ENTRY, (low + one) + (row + last))
            && Sorted(seen) && NonEmpty(seen) && Scan(Flatten(seen), name) == Err(ENOENT)
            && Scan(Arranged(DOT_ENTRY, DOTDOT_ENTRY, (low + one) + (row + last)), name) == Ok(last[0].nid)
            && !Underflows(false, seen, name)
  {
    MisplacedBuildable(low, one, row, last);
    MisplacedArranged(low, one, row, last);
    ArrangedIs(DOT_ENTRY, DOTDOT_ENTRY, (low + one) + (row + last));
    var seen, list := [low + one, DOTS + row], (low + one) + ((DOTS + row) + last);
    var front := (low + one) + (DOTS + row);
    assert Flatten(seen) == front by {
      assert seen[1..] == [DOTS + row] && seen[1..][1..] == [];
      assert Flatten([DOTS + row]) == DOTS + row;
    }
    assert list == front + [last[0]];
    LastNameIsLast(list, front, last[0]);
    AscendingIsSorted(seen);
    Asymmetric(front[0].name, last[0].name);
  }
}
