/** On-disk directory blocks of RAFS v6 (the EROFS directory format): how dirents and names are laid
    out in a block, and how `get_entry` and `entry_name` of rafs/src/metadata/direct_v6.rs read them
    back from the mapped image. */
module DirentV6 {
  import opened Common
  import opened Names

  const BLOCK: nat := 4096
  const DIRENT: nat := 12

  // ----- Little-endian integers -----------------------------------------------------------

  function ToLE(n: nat, width: nat): (bytes: seq<Byte>)
    ensures |bytes| == width
  {
    if width == 0 then [] else [n % 256] + ToLE(n / 256, width - 1)
  }

  function FromLE(bytes: seq<Byte>): nat {
    if bytes == [] then 0 else bytes[0] + 256 * FromLE(bytes[1..])
  }

  function Limit(width: nat): nat {
    if width == 0 then 1 else 256 * Limit(width - 1)
  }

  lemma {:induction false} LERoundTrip(n: nat, width: nat)
    requires n < Limit(width)
    ensures FromLE(ToLE(n, width)) == n
  {
    if width > 0 { LERoundTrip(n / 256, width - 1); }
  }

  lemma {:induction false} FromLEConcat(a: seq<Byte>, b: seq<Byte>)
    ensures FromLE(a + b) == FromLE(a) + Limit(|a|) * FromLE(b)
  {
    if a == [] {
      assert a + b == b;
    } else {
      assert (a + b)[1..] == a[1..] + b;
      FromLEConcat(a[1..], b);
      Shifted(a[0], FromLE(a[1..]), Limit(|a| - 1), FromLE(b));
    }
  }

  lemma Shifted(low: nat, a: nat, limit: nat, b: nat)
    ensures low + 256 * (a + limit * b) == low + 256 * a + 256 * limit * b
  {
  }

  // ----- Building a block -----------------------------------------------------------------

  datatype Entry = Entry(nid: nat, name: Name, fileType: Byte)

  ghost predicate NulFree(name: Name) {
    name == [] || (name[0] != 0 && NulFree(name[1..]))
  }

  ghost predicate EntryOk(e: Entry) {
    e.nid < Limit(8) && e.name != [] && NulFree(e.name)
  }

  /** A dirent: 8 bytes of node number, 2 of name offset, the file type and a reserved byte. */
  function EncodeDirent(e: Entry, nameOff: nat): (bytes: seq<Byte>)
    ensures |bytes| == DIRENT
  {
    ToLE(e.nid, 8) + ToLE(nameOff, 2) + [e.fileType, 0]
  }

  function NameBytes(es: seq<Entry>): nat {
    if es == [] then 0 else |es[0].name| + NameBytes(es[1..])
  }

  function DirentTable(es: seq<Entry>, nameOff: nat): (bytes: seq<Byte>)
    ensures |bytes| == DIRENT * |es|
    decreases es
  {
    if es == [] then []
    else EncodeDirent(es[0], nameOff) + DirentTable(es[1..], nameOff + |es[0].name|)
  }

  function NameTable(es: seq<Entry>): (bytes: seq<Byte>)
    ensures |bytes| == NameBytes(es)
  {
    if es == [] then [] else es[0].name + NameTable(es[1..])
  }

  /** A directory block: all dirents, then all names, without gaps. */
  function EncodeBlock(es: seq<Entry>): (bytes: seq<Byte>)
    ensures |bytes| == Used(es)
  {
    DirentTable(es, DIRENT * |es|) + NameTable(es)
  }

  function Used(es: seq<Entry>): nat {
    DIRENT * |es| + NameBytes(es)
  }

  /** Bytes taken by the names before entry `i`. */
  function Before(es: seq<Entry>, i: nat): nat
    requires i <= |es|
  {
    if i == 0 then 0 else |es[0].name| + Before(es[1..], i - 1)
  }

  function NameOff(es: seq<Entry>, i: nat): nat
    requires i <= |es|
  {
    DIRENT * |es| + Before(es, i)
  }

  // ----- Reading a block ------------------------------------------------------------------

  /** The fields of the on-disk inode that locate directory data. */
  datatype OnDiskInode = OnDiskInode(offset: nat, size: nat, format: nat, union: nat, xattrCount: nat)

  /** A directory inode inside the mapped image. */
  datatype Dir = Dir(image: seq<Byte>, metaOffset: nat, inode: OnDiskInode) {
    function BlocksCount(): nat { DivRoundUp(inode.size, BLOCK) }
  }

  const FLAT_PLAIN: nat := 0
  const FLAT_INLINE: nat := 2

  function InodeSize(inode: OnDiskInode): nat {
    if inode.format % 2 != 0 then 64 else 32
  }

  function XattrSize(inode: OnDiskInode): nat {
    if inode.xattrCount > 0 then (inode.xattrCount - 1) * 4 + 12 else 0
  }

  /** `inode_xattr_size`: where the reader expects what follows the inode and its xattrs. */
  function InodeXattrSize(inode: OnDiskInode): nat {
    DivRoundUp(InodeSize(inode) + XattrSize(inode), 8) * 8
  }

  /** `data_block_offset`: where block `index` of the directory starts in the image. */
  function DataBlockOffset(d: Dir, index: nat): Result<nat> {
    if d.inode.format >= 16 then Err(EINVAL)
    else
      var layout := d.inode.format / 2;
      if layout == FLAT_PLAIN || (layout == FLAT_INLINE && index + 1 != d.BlocksCount()) then
        Ok(d.inode.union * BLOCK + index * BLOCK)
      else if layout == FLAT_INLINE then
        Ok(d.inode.offset + InodeXattrSize(d.inode))
      else Err(InvalidImage)
  }

  datatype Dirent = Dirent(nid: nat, nameOff: nat)

  /** `FileMapState::get_ref` for a dirent: in bounds and aligned to two bytes. */
  function GetDirent(image: seq<Byte>, offset: nat): Result<Dirent> {
    if offset + DIRENT > |image| || offset % 2 != 0 then Err(InvalidImage)
    else Ok(Dirent(FromLE(image[offset..offset + 8]), FromLE(image[offset + 8..offset + 10])))
  }

  function GetSlice(image: seq<Byte>, offset: nat, len: nat): Result<seq<Byte>> {
    if offset + len > |image| then Err(InvalidImage) else Ok(image[offset..offset + len])
  }

  function GetEntry(d: Dir, block: nat, index: nat): Result<Dirent> {
    var offset :- DataBlockOffset(d, block);
    GetDirent(d.image, offset + DIRENT * index)
  }

  /** Exactly which dirents can be read: those that lie in the image, at an even offset, in a directory of a known
      layout. */
  lemma GetEntryIff(d: Dir, block: nat, index: nat)
    ensures var layout := d.inode.format / 2;
            if layout >= 8 then GetEntry(d, block, index) == Err(EINVAL)
            else if layout != 0 && layout != 2 then GetEntry(d, block, index) == Err(InvalidImage)
            else && DataBlockOffset(d, block).Ok?
                 && var at := DataBlockOffset(d, block).value + 12 * index;
                    if at % 2 == 0 && at + 12 <= |d.image| then GetEntry(d, block, index).Ok?
                    else GetEntry(d, block, index) == Err(InvalidImage)
  {
  }

  function UpToNul(buf: seq<Byte>): Name {
    if buf == [] || buf[0] == 0 then [] else [buf[0]] + UpToNul(buf[1..])
  }

  /** The first zero byte from `i` on, or the end. */
  function ZeroAt(buf: seq<Byte>, i: nat): (z: nat)
    requires i <= |buf|
    ensures i <= z <= |buf|
    decreases |buf| - i
  {
    if i == |buf| || buf[i] == 0 then i else ZeroAt(buf, i + 1)
  }

  lemma {:induction false} UpToNulEnds(buf: seq<Byte>, i: nat)
    requires i <= |buf|
    ensures UpToNul(buf[i..]) == buf[i..ZeroAt(buf, i)]
    decreases |buf| - i
  {
    if i < |buf| && buf[i] != 0 {
      UpToNulEnds(buf, i + 1);
      assert buf[i..][0] == buf[i] && buf[i..][1..] == buf[i + 1..];
      assert buf[i..ZeroAt(buf, i)] == [buf[i]] + buf[i + 1..ZeroAt(buf, i)];
    }
  }

  /** The scan that decides how long the last name of a block is. */
  method NameLength(buf: seq<Byte>) returns (l: nat)
    ensures l <= |buf| && buf[..l] == UpToNul(buf)
  {
    l := 0;
    var i := 0;
    while i < |buf|
      invariant 0 <= i == l <= |buf| && ZeroAt(buf, l) == ZeroAt(buf, 0)
    {
      if buf[i] != 0 {
        l := l + 1;
        if |buf| == l { break; }
      } else {
        break;
      }
      i := i + 1;
    }
    UpToNulEnds(buf, 0);
    assert buf[0..] == buf && buf[0..l] == buf[..l];
  }

  /** Space the last name of block `block` may occupy, given what precedes it in the block. */
  function LastNameRoom(d: Dir, block: nat, s: nat): Result<nat> {
    if s > Extent(d, block) then Err(Overflow) else Ok(Extent(d, block) - s)
  }

  /** Where the last name of a block has to end: at the end of the block, or of the directory. */
  function Extent(d: Dir, block: nat): nat {
    if d.BlocksCount() == block + 1 then d.inode.size % BLOCK else BLOCK
  }

  /** `entry_name`: the name of entry `index` of a block that holds `max` entries. */
  function EntryName(d: Dir, block: nat, index: nat, max: nat): Result<Name> {
    var offset :- DataBlockOffset(d, block);
    var de :- GetEntry(d, block, index);
    if max == 0 then Err(Overflow)
    else if index < max - 1 then
      var next :- GetEntry(d, block, index + 1);
      if next.nameOff < de.nameOff then Err(InvalidImage)
      else GetSlice(d.image, offset + de.nameOff, next.nameOff - de.nameOff)
    else
      var head :- GetEntry(d, block, 0);
      if de.nameOff < head.nameOff then Err(Overflow)
      else
        var len :- LastNameRoom(d, block, de.nameOff - head.nameOff + DIRENT * max);
        var buf :- GetSlice(d.image, offset + de.nameOff, len);
        Ok(UpToNul(buf))
  }

  // ----- Slices ---------------------------------------------------------------------------

  lemma SliceRight<T>(a: seq<T>, b: seq<T>, i: nat, j: nat)
    requires i <= j <= |b|
    ensures (a + b)[|a| + i..|a| + j] == b[i..j]
  {
  }

  lemma SliceLeft<T>(a: seq<T>, b: seq<T>, i: nat, j: nat)
    requires i <= j <= |a|
    ensures (a + b)[i..j] == a[i..j]
  {
  }

  // ----- Structure of an encoded block ----------------------------------------------------

  lemma {:induction false} BeforeStep(es: seq<Entry>, i: nat)
    requires i < |es|
    ensures Before(es, i + 1) == Before(es, i) + |es[i].name| <= NameBytes(es)
    ensures i + 1 == |es| ==> Before(es, i + 1) == NameBytes(es)
  {
    if i > 0 { BeforeStep(es[1..], i - 1); }
  }

  lemma {:induction false} DirentTableAt(es: seq<Entry>, nameOff: nat, i: nat)
    requires i < |es|
    ensures DirentTable(es, nameOff)[DIRENT * i..DIRENT * i + DIRENT] ==
            EncodeDirent(es[i], nameOff + Before(es, i))
    decreases es
  {
    var head := EncodeDirent(es[0], nameOff);
    var tail := DirentTable(es[1..], nameOff + |es[0].name|);
    if i == 0 {
      SliceLeft(head, tail, 0, DIRENT);
      assert head[0..DIRENT] == head;
    } else {
      DirentTableAt(es[1..], nameOff + |es[0].name|, i - 1);
      SliceRight(head, tail, DIRENT * (i - 1), DIRENT * (i - 1) + DIRENT);
    }
  }

  lemma {:induction false} NameTableAt(es: seq<Entry>, i: nat)
    requires i < |es|
    ensures Before(es, i) <= Before(es, i + 1) <= NameBytes(es)
    ensures NameTable(es)[Before(es, i)..Before(es, i + 1)] == es[i].name
  {
    BeforeStep(es, i);
    var head, rest := es[0].name, es[1..];
    var tail := NameTable(rest);
    if i == 0 {
      SliceLeft(head, tail, 0, |head|);
      assert head[0..|head|] == head;
      assert Before(rest, 0) == 0;
    } else {
      NameTableAt(rest, i - 1);
      var x, y := Before(rest, i - 1), Before(rest, i);
      assert Before(es, i) == |head| + x && Before(es, i + 1) == |head| + y;
      SliceRight(head, tail, x, y);
      assert NameTable(es) == head + tail && rest[i - 1] == es[i];
    }
  }

  lemma DirentRoundTrip(image: seq<Byte>, p: nat, e: Entry, nameOff: nat)
    requires p + DIRENT <= |image| && p % 2 == 0
    requires e.nid < Limit(8) && nameOff < Limit(2) && image[p..p + DIRENT] == EncodeDirent(e, nameOff)
    ensures GetDirent(image, p) == Ok(Dirent(e.nid, nameOff))
  {
    var nid, off := ToLE(e.nid, 8), ToLE(nameOff, 2);
    SliceOfSlice(image, p, DIRENT, 0, 8);
    SliceOfSlice(image, p, DIRENT, 8, 10);
    assert (nid + off + [e.fileType, 0])[0..8] == nid;
    assert (nid + off + [e.fileType, 0])[8..10] == off;
    LERoundTrip(e.nid, 8);
    LERoundTrip(nameOff, 2);
  }

  lemma {:induction false} UpToNulReadsName(name: Name, pad: seq<Byte>)
    requires NulFree(name)
    requires pad != [] ==> pad[0] == 0
    ensures UpToNul(name + pad) == name
  {
    if name == [] {
      assert name + pad == pad;
    } else {
      assert (name + pad)[1..] == name[1..] + pad;
      UpToNulReadsName(name[1..], pad);
    }
  }

  // ----- Directories in the image ---------------------------------------------------------

  /** Block `b` of the image starts with the encoded entries. */
  ghost predicate BlockHolds(d: Dir, b: nat, es: seq<Entry>) {
    && es != [] && Used(es) <= BLOCK
    && (forall i | 0 <= i < |es| :: EntryOk(es[i]))
    && DataBlockOffset(d, b).Ok?
    && var o := DataBlockOffset(d, b).value;
       o % 2 == 0 && o + Used(es) <= |d.image| && d.image[o..o + Used(es)] == EncodeBlock(es)
  }

  /** Unless it is an exactly full last block, only zeros follow the entries up to its extent. */
  ghost predicate Padded(d: Dir, b: nat, o: nat, used: nat) {
    Extent(d, b) > 0 ==>
      && used <= Extent(d, b) && o + Extent(d, b) <= |d.image|
      && forall k | o + used <= k < o + Extent(d, b) :: d.image[k] == 0
  }

  ghost predicate BlockAt(d: Dir, b: nat, es: seq<Entry>) {
    BlockHolds(d, b, es) && Padded(d, b, DataBlockOffset(d, b).value, Used(es))
  }

  ghost predicate BlocksFrom(d: Dir, dir: seq<seq<Entry>>, b: nat)
    decreases |dir| - b
  {
    b < |dir| ==> BlockAt(d, b, dir[b]) && BlocksFrom(d, dir, b + 1)
  }

  /** `dir` is the directory stored at `d`, block by block.  Its size may count zeros behind the last name. */
  ghost predicate Stored(d: Dir, dir: seq<seq<Entry>>) {
    dir != [] && |dir| == d.BlocksCount() && BlocksFrom(d, dir, 0)
  }

  lemma {:induction false} BlockStored(d: Dir, dir: seq<seq<Entry>>, from: nat, b: nat)
    requires BlocksFrom(d, dir, from) && from <= b < |dir|
    ensures BlockAt(d, b, dir[b])
    decreases b - from
  {
    if from < b { BlockStored(d, dir, from + 1, b); }
  }

  /** The dirent of entry `i` and its name, as slices of the encoded block. */
  lemma EncodedAt(es: seq<Entry>, i: nat)
    requires i < |es|
    ensures NameOff(es, i) + |es[i].name| == NameOff(es, i + 1) <= Used(es)
    ensures i + 1 == |es| ==> NameOff(es, i + 1) == Used(es)
    ensures EncodeBlock(es)[DIRENT * i..DIRENT * i + DIRENT] == EncodeDirent(es[i], NameOff(es, i))
    ensures EncodeBlock(es)[NameOff(es, i)..NameOff(es, i + 1)] == es[i].name
  {
    var k := DIRENT * |es|;
    BeforeStep(es, i);
    NameTableAt(es, i);
    DirentTableAt(es, k, i);
    SliceLeft(DirentTable(es, k), NameTable(es), DIRENT * i, DIRENT * i + DIRENT);
    SliceRight(DirentTable(es, k), NameTable(es), Before(es, i), Before(es, i + 1));
  }

  /** The dirent of entry `i` in an image that holds the block at `o`. */
  lemma DirentInImage(image: seq<Byte>, o: nat, es: seq<Entry>, i: nat)
    requires i < |es| && o % 2 == 0 && o + Used(es) <= |image| && image[o..o + Used(es)] == EncodeBlock(es)
    requires Used(es) <= BLOCK && es[i].nid < Limit(8)
    ensures GetDirent(image, o + DIRENT * i) == Ok(Dirent(es[i].nid, NameOff(es, i)))
  {
    EncodedAt(es, i);
    SliceOfSlice(image, o, Used(es), DIRENT * i, DIRENT * i + DIRENT);
    assert BLOCK < Limit(2) by { assert Limit(1) == 256 * Limit(0); }
    DirentRoundTrip(image, o + DIRENT * i, es[i], NameOff(es, i));
  }

  /** `get_entry` reads back the node number and the name offset of every entry. */
  lemma GetEntryReads(d: Dir, b: nat, es: seq<Entry>, i: nat)
    requires BlockHolds(d, b, es) && i < |es|
    ensures GetEntry(d, b, i) == Ok(Dirent(es[i].nid, NameOff(es, i)))
  {
    assert EntryOk(es[i]);
    DirentInImage(d.image, DataBlockOffset(d, b).value, es, i);
  }

  /** The bytes of every name sit where its offset says. */
  lemma NameInImage(image: seq<Byte>, o: nat, es: seq<Entry>, i: nat)
    requires i < |es| && o + Used(es) <= |image| && image[o..o + Used(es)] == EncodeBlock(es)
    ensures NameOff(es, i) + |es[i].name| == NameOff(es, i + 1) <= Used(es)
    ensures i + 1 == |es| ==> NameOff(es, i + 1) == Used(es)
    ensures image[o + NameOff(es, i)..o + NameOff(es, i + 1)] == es[i].name
  {
    EncodedAt(es, i);
    SliceOfSlice(image, o, Used(es), NameOff(es, i), NameOff(es, i + 1));
  }

  /** True of the one entry whose length `entry_name` cannot compute: the last entry of a last
      block that is exactly full. */
  ghost predicate Unreadable(d: Dir, dir: seq<seq<Entry>>, b: nat, i: nat) {
    d.inode.size % BLOCK == 0 && b + 1 == |dir| && i + 1 == |dir[b]|
  }

  /** Reading a name up to a limit when a zero follows it. */
  lemma PaddedNameReads(image: seq<Byte>, start: nat, name: Name, limit: nat)
    requires start + |name| <= limit <= |image| && image[start..start + |name|] == name && NulFree(name)
    requires start + |name| < limit ==> image[start + |name|] == 0
    ensures UpToNul(image[start..limit]) == name
  {
    var mid := start + |name|;
    var pad := image[mid..limit];
    assert image[start..limit] == name + pad by { SliceJoin(image, start, mid, limit); }
    UpToNulReadsName(name, pad);
  }

  lemma BlockRemainder(n: nat, used: nat)
    requires used <= BLOCK
    ensures (BLOCK * n + used) % BLOCK == if used == BLOCK then 0 else used
  {
  }

  lemma StoredUsed(d: Dir, dir: seq<seq<Entry>>, b: nat)
    requires Stored(d, dir) && b < |dir|
    ensures dir[b] != [] && 0 < Used(dir[b]) <= BLOCK && EntryOk(dir[b][|dir[b]| - 1])
  {
    BlockStored(d, dir, 0, b);
  }

  /** What `entry_name` computes for the last entry, from the offsets it reads. */
  lemma LastEntryName(d: Dir, b: nat, max: nat, o: nat, off: nat, limit: nat, name: Name)
    requires max > 0 && DataBlockOffset(d, b) == Ok(o)
    requires GetEntry(d, b, 0).Ok? && GetEntry(d, b, 0).value.nameOff == DIRENT * max
    requires GetEntry(d, b, max - 1).Ok? && GetEntry(d, b, max - 1).value.nameOff == off >= DIRENT * max
    requires limit == Extent(d, b)
    requires off <= limit ==> o + limit <= |d.image| && UpToNul(d.image[o + off..o + limit]) == name
    ensures EntryName(d, b, max - 1, max) == if off > limit then Err(Overflow) else Ok(name)
  {
    assert off <= limit ==> o + off + (limit - off) == o + limit;
  }

  /** What `entry_name` computes for any other entry. */
  lemma InnerEntryName(d: Dir, b: nat, i: nat, max: nat, o: nat, off: nat, next: nat)
    requires i + 1 < max && DataBlockOffset(d, b) == Ok(o)
    requires GetEntry(d, b, i).Ok? && GetEntry(d, b, i).value.nameOff == off
    requires GetEntry(d, b, i + 1).Ok? && GetEntry(d, b, i + 1).value.nameOff == next
    requires off <= next && o + next <= |d.image|
    ensures EntryName(d, b, i, max) == Ok(d.image[o + off..o + next])
  {
  }

  /** What reading entry `i` of a block at `o` amounts to. */
  ghost predicate EntryFacts(d: Dir, b: nat, o: nat, es: seq<Entry>, i: nat) {
    && i < |es| && DataBlockOffset(d, b) == Ok(o)
    && GetEntry(d, b, i) == Ok(Dirent(es[i].nid, NameOff(es, i)))
    && NameOff(es, i) + |es[i].name| == NameOff(es, i + 1) <= Used(es) && o + Used(es) <= |d.image|
    && d.image[o + NameOff(es, i)..o + NameOff(es, i + 1)] == es[i].name
  }

  lemma BlockEntry(d: Dir, b: nat, es: seq<Entry>, i: nat)
    requires BlockHolds(d, b, es) && i < |es|
    ensures DataBlockOffset(d, b).Ok? && EntryFacts(d, b, DataBlockOffset(d, b).value, es, i)
  {
    var o := DataBlockOffset(d, b).value;
    GetEntryReads(d, b, es, i);
    NameInImage(d.image, o, es, i);
    assert GetEntry(d, b, i) == Ok(Dirent(es[i].nid, NameOff(es, i)));
  }

  ghost predicate BlockTail(d: Dir, b: nat, o: nat, es: seq<Entry>) {
    es != [] && EntryOk(es[|es| - 1]) && Used(es) <= BLOCK && Padded(d, b, o, Used(es))
  }

  lemma StoredEntry(d: Dir, dir: seq<seq<Entry>>, b: nat, i: nat) returns (o: nat)
    requires Stored(d, dir) && b < |dir| && i < |dir[b]|
    ensures EntryFacts(d, b, o, dir[b], i) && BlockTail(d, b, o, dir[b])
  {
    o := StoredBlock(d, dir, b, i);
    StoredUsed(d, dir, b);
  }

  lemma StoredBlock(d: Dir, dir: seq<seq<Entry>>, b: nat, i: nat) returns (o: nat)
    requires Stored(d, dir) && b < |dir| && i < |dir[b]|
    ensures EntryFacts(d, b, o, dir[b], i) && Padded(d, b, o, Used(dir[b]))
  {
    BlockStored(d, dir, 0, b);
    BlockEntry(d, b, dir[b], i);
    o := DataBlockOffset(d, b).value;
  }

  lemma InnerNameReads(d: Dir, b: nat, o: nat, es: seq<Entry>, i: nat)
    requires i + 1 < |es| && EntryFacts(d, b, o, es, i) && EntryFacts(d, b, o, es, i + 1)
    ensures EntryName(d, b, i, |es|) == Ok(es[i].name)
  {
    InnerEntryName(d, b, i, |es|, o, NameOff(es, i), NameOff(es, i + 1));
  }

  lemma PaddedRoom(d: Dir, b: nat, o: nat, es: seq<Entry>, limit: nat)
    requires es != [] && EntryFacts(d, b, o, es, |es| - 1) && BlockTail(d, b, o, es) && NameOff(es, |es|) == Used(es)
    requires limit == Extent(d, b) > 0
    ensures Used(es) <= limit && o + limit <= |d.image|
    ensures UpToNul(d.image[o + NameOff(es, |es| - 1)..o + limit]) == es[|es| - 1].name
  {
    var start, name := o + NameOff(es, |es| - 1), es[|es| - 1].name;
    assert start + |name| == o + Used(es);
    PaddedNameReads(d.image, start, name, o + limit);
  }

  lemma LastNameReads(d: Dir, b: nat, o: nat, es: seq<Entry>)
    requires es != [] && EntryFacts(d, b, o, es, 0) && EntryFacts(d, b, o, es, |es| - 1) && BlockTail(d, b, o, es)
    requires NameOff(es, |es|) == Used(es)
    ensures EntryName(d, b, |es| - 1, |es|) == if Extent(d, b) == 0 then Err(Overflow) else Ok(es[|es| - 1].name)
  {
    var i := |es| - 1;
    var off := NameOff(es, i);
    var limit := Extent(d, b);
    if limit > 0 { PaddedRoom(d, b, o, es, limit); }
    assert NameOff(es, 0) == DIRENT * |es| <= off;
    LastEntryName(d, b, |es|, o, off, limit, es[i].name);
  }

  /** `entry_name` returns every stored name: inner entries by the next offset, the last entry of a
      full block by the block size, the last entry of the directory by the directory size.  Only
      the last entry of an exactly full last block is out of its reach. */
  lemma EntryNameReads(d: Dir, dir: seq<seq<Entry>>, b: nat, i: nat)
    requires Stored(d, dir) && b < |dir| && i < |dir[b]|
    ensures EntryName(d, b, i, |dir[b]|) ==
            if Unreadable(d, dir, b, i) then Err(Overflow) else Ok(dir[b][i].name)
  {
    if i == |dir[b]| - 1 {
      LastEntryReads(d, dir, b);
    } else {
      var o := StoredEntry(d, dir, b, i);
      var _ := StoredEntry(d, dir, b, i + 1);
      InnerNameReads(d, b, o, dir[b], i);
    }
  }

  lemma LastEntryReads(d: Dir, dir: seq<seq<Entry>>, b: nat)
    requires Stored(d, dir) && b < |dir| && dir[b] != []
    ensures EntryName(d, b, |dir[b]| - 1, |dir[b]|) ==
            if Unreadable(d, dir, b, |dir[b]| - 1) then Err(Overflow) else Ok(dir[b][|dir[b]| - 1].name)
  {
    var es := dir[b];
    var o := StoredEntry(d, dir, b, |es| - 1);
    var _ := StoredEntry(d, dir, b, 0);
    BeforeStep(es, |es| - 1);
    LastNameReads(d, b, o, es);
    StoredUsed(d, dir, b);
    assert |dir| == d.BlocksCount();
  }

  lemma {:induction false} UpToNulShorter(buf: seq<Byte>)
    ensures |UpToNul(buf)| <= |buf|
  {
    if buf != [] && buf[0] != 0 { UpToNulShorter(buf[1..]); }
  }

  lemma ReadNeedsRoom(d: Dir, b: nat, max: nat, o: nat, off: nat, name: Name)
    requires max > 0 && DataBlockOffset(d, b) == Ok(o)
    requires GetEntry(d, b, 0).Ok? && GetEntry(d, b, 0).value.nameOff == DIRENT * max
    requires GetEntry(d, b, max - 1).Ok? && GetEntry(d, b, max - 1).value.nameOff == off >= DIRENT * max
    requires EntryName(d, b, max - 1, max) == Ok(name)
    ensures off + |name| <= Extent(d, b)
  {
    var len := LastNameRoom(d, b, off).value;
    UpToNulShorter(GetSlice(d.image, o + off, len).value);
  }

  /** The last name of a block can only be read if the block's extent reaches behind it. */
  lemma LastNameNeedsRoom(d: Dir, b: nat, es: seq<Entry>)
    requires BlockHolds(d, b, es) && EntryName(d, b, |es| - 1, |es|) == Ok(es[|es| - 1].name)
    ensures 0 < Used(es) <= Extent(d, b)
  {
    EndsRead(d, b, es, |es| - 1);
    ReadNeedsRoom(d, b, |es|, DataBlockOffset(d, b).value, NameOff(es, |es| - 1), es[|es| - 1].name);
  }

  lemma EndsRead(d: Dir, b: nat, es: seq<Entry>, i: nat)
    requires BlockHolds(d, b, es) && |es| == i + 1
    ensures GetEntry(d, b, 0).Ok? && GetEntry(d, b, 0).value.nameOff == DIRENT * |es| <= NameOff(es, i)
    ensures GetEntry(d, b, i).Ok? && GetEntry(d, b, i).value.nameOff == NameOff(es, i)
    ensures NameOff(es, i) + |es[i].name| == Used(es)
  {
    GetEntryReads(d, b, es, i);
    GetEntryReads(d, b, es, 0);
    BeforeStep(es, i);
  }

  /** The head dirent tells how many entries the block holds. */
  lemma HeadCountsEntries(d: Dir, b: nat, es: seq<Entry>)
    requires BlockHolds(d, b, es)
    ensures GetEntry(d, b, 0).Ok? && GetEntry(d, b, 0).value.nameOff / DIRENT == |es|
  {
    GetEntryReads(d, b, es, 0);
  }
}
