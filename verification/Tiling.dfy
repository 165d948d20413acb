/** Covering a file range with descriptors: what it means that a list of descriptors reads exactly
    the bytes of a range, for any file cut into fixed-size chunks. */
module Tiling {
  import opened Common
  import opened BlobIo

  /** A file as a row of chunks: `chunkAt(k)` is the blob and the chunk that hold the bytes from
      `k * chunkSize` on, if they are known. */
  datatype Layout = Layout(chunkSize: nat, count: nat, chunkAt: nat -> Option<(Blob, Chunk)>) {
    /** Blobs with the same index are the same blob. */
    ghost predicate Valid() {
      && chunkSize > 0
      && forall a, b :: chunkAt(a).Some? && chunkAt(b).Some? && chunkAt(a).value.0.index == chunkAt(b).value.0.index ==>
           chunkAt(a).value.0.id == chunkAt(b).value.0.id
    }
  }

  function MakeDesc(f: Layout, k: nat, offset: nat, len: nat, userIo: bool): Option<IoDesc> {
    match f.chunkAt(k)
    case None => None
    case Some((blob, chunk)) => Some(IoDesc(blob, chunk, offset, len, userIo))
  }

  // ----- Tiling a file range --------------------------------------------------------------

  /** `d` is the part of file position `pos` up to `end` that lies in the chunk of `pos`. */
  ghost predicate Piece(f: Layout, d: IoDesc, pos: nat, end: nat, userIo: bool)
    requires f.chunkSize > 0
  {
    && pos / f.chunkSize < f.count
    && d.offset == pos % f.chunkSize
    && d.size == Min(f.chunkSize - d.offset, end - pos)
    && MakeDesc(f, pos / f.chunkSize, d.offset, d.size, userIo) == Some(d)
  }

  /** The descriptors cover exactly [pos, end) in order, each the largest piece of its chunk. */
  ghost predicate Tiles(f: Layout, descs: seq<IoDesc>, pos: nat, end: nat, userIo: bool)
    requires f.chunkSize > 0
    decreases descs
  {
    if descs == [] then pos == end
    else
      && pos < end && Piece(f, descs[0], pos, end, userIo)
      && Tiles(f, descs[1..], pos + descs[0].size, end, userIo)
  }

  ghost function Flat(vecs: seq<IoVec>): seq<IoDesc> {
    if vecs == [] then [] else Flat(vecs[..|vecs| - 1]) + vecs[|vecs| - 1].descs
  }

  /** Vectors are consistent and non-empty, and neighbours target different blobs. */
  ghost predicate VecsOk(vecs: seq<IoVec>) {
    var n := |vecs|;
    n > 0 ==>
      && VecOk(vecs[n - 1]) && vecs[n - 1].descs != []
      && (n > 1 ==> vecs[n - 2].blob.index != vecs[n - 1].blob.index)
      && VecsOk(vecs[..n - 1])
  }

  lemma {:induction false} TilesSnoc(f: Layout, descs: seq<IoDesc>, pos: nat, mid: nat, d: IoDesc, end: nat,
                                     userIo: bool)
    requires f.chunkSize > 0 && Tiles(f, descs, pos, mid, userIo) && mid % f.chunkSize == 0
    requires mid < end && Piece(f, d, mid, end, userIo) && mid + d.size == end
    ensures Tiles(f, descs + [d], pos, end, userIo)
    decreases descs
  {
    if descs == [] {
      assert descs + [d] == [d] && [d][1..] == [];
    } else {
      var rest := descs[1..];
      assert (descs + [d])[1..] == rest + [d];
      PieceStaysBefore(pos, mid, f.chunkSize);
      TilesSnoc(f, rest, pos + descs[0].size, mid, d, end, userIo);
    }
  }

  /** A chunk boundary beyond `pos` leaves room for the rest of the chunk of `pos`. */
  lemma PieceStaysBefore(pos: nat, boundary: nat, cs: nat)
    requires cs > 0 && pos < boundary && boundary % cs == 0
    ensures cs - pos % cs <= boundary - pos
  {
    var q, b := pos / cs, boundary / cs;
    assert pos == q * cs + pos % cs && boundary == b * cs;
    if b <= q {
      MulOrder(b, q, cs);
    } else {
      MulOrder(q + 1, b, cs);
    }
  }

  lemma {:induction false} TilesTotal(f: Layout, descs: seq<IoDesc>, pos: nat, end: nat, userIo: bool)
    requires f.chunkSize > 0 && Tiles(f, descs, pos, end, userIo)
    ensures pos + Total(descs) == end
    decreases descs
  {
    if descs != [] { TilesTotal(f, descs[1..], pos + descs[0].size, end, userIo); }
  }

  /** State of the loop: `vecs` are finished, `cur` is open, and together they tile [offset, pos). */
  ghost predicate Built(f: Layout, vecs: seq<IoVec>, cur: IoVec, offset: nat, pos: nat, userIo: bool)
    requires f.chunkSize > 0
  {
    && VecsOk(vecs + [cur])
    && Tiles(f, Flat(vecs + [cur]), offset, pos, userIo)
    && (forall i | 0 <= i < |cur.descs| :: ResolvesTo(f, cur.descs[i].blob))
    && cur.blob == cur.descs[0].blob
  }

  ghost predicate ResolvesTo(f: Layout, b: Blob) {
    exists k :: f.chunkAt(k).Some? && f.chunkAt(k).value.0 == b
  }

  lemma SameIndexSameBlob(f: Layout, a: Blob, b: Blob)
    requires f.Valid() && ResolvesTo(f, a) && ResolvesTo(f, b) && a.index == b.index
    ensures SameBlob(a, b)
  {
    var x :| f.chunkAt(x).Some? && f.chunkAt(x).value.0 == a;
    var y :| f.chunkAt(y).Some? && f.chunkAt(y).value.0 == b;
  }

  lemma FlatSnoc(vecs: seq<IoVec>, v: IoVec)
    ensures Flat(vecs + [v]) == Flat(vecs) + v.descs
  {
    assert (vecs + [v])[..|vecs|] == vecs;
  }

  lemma {:induction false} LastVecFits(vecs: seq<IoVec>, cur: IoVec)
    ensures Total(Flat(vecs + [cur])) >= Total(cur.descs)
  {
    FlatSnoc(vecs, cur);
    TotalConcat(Flat(vecs), cur.descs);
  }

  lemma SingleVec(d: IoDesc)
    requires d.size < U32_LIMIT
    ensures VecsOk([Push(EmptyVec(d.blob), d)]) && Flat([Push(EmptyVec(d.blob), d)]) == [d]
  {
    var cur := Push(EmptyVec(d.blob), d);
    PushKeepsVec(EmptyVec(d.blob), d);
    assert [cur][..0] == [] && cur.descs == [d];
    assert Flat([cur][..0]) == [];
  }

  lemma SingleTile(f: Layout, d: IoDesc, offset: nat, end: nat, userIo: bool)
    requires f.chunkSize > 0 && offset < end && Piece(f, d, offset, end, userIo) && offset + d.size == end
    ensures Tiles(f, [d], offset, end, userIo) && ResolvesTo(f, d.blob)
  {
    assert [d][1..] == [];
    assert Tiles(f, [], end, end, userIo);
    assert f.chunkAt(offset / f.chunkSize).Some?;
  }

  /** The first descriptor opens the first vector. */
  lemma FirstPiece(f: Layout, d: IoDesc, offset: nat, end: nat, userIo: bool)
    requires f.chunkSize > 0 && offset < end < offset + U32_LIMIT && Piece(f, d, offset, end, userIo)
    requires offset + d.size == end
    ensures Built(f, [], Push(EmptyVec(d.blob), d), offset, end, userIo)
  {
    var cur := Push(EmptyVec(d.blob), d);
    SingleVec(d);
    SingleTile(f, d, offset, end, userIo);
    assert [] + [cur] == [cur];
  }

  /** A further descriptor on the blob of the open vector. */
  lemma SameVec(vecs: seq<IoVec>, cur: IoVec, d: IoDesc)
    requires VecsOk(vecs + [cur]) && SameBlob(cur.blob, d.blob) && cur.size + d.size < U32_LIMIT
    ensures CanPush(cur, d) && VecsOk(vecs + [Push(cur, d)])
    ensures Flat(vecs + [Push(cur, d)]) == Flat(vecs + [cur]) + [d]
  {
    assert (vecs + [cur])[..|vecs|] == vecs && (vecs + [Push(cur, d)])[..|vecs|] == vecs;
    PushKeepsVec(cur, d);
    FlatSnoc(vecs, cur);
    FlatSnoc(vecs, Push(cur, d));
    Regroup(Flat(vecs), cur.descs, [d]);
    if |vecs| > 0 { assert (vecs + [cur])[|vecs| - 1] == (vecs + [Push(cur, d)])[|vecs| - 1]; }
  }

  /** A descriptor on another blob opens a vector of its own. */
  lemma NewVec(vecs: seq<IoVec>, d: IoDesc)
    requires vecs != [] && VecsOk(vecs) && vecs[|vecs| - 1].blob.index != d.blob.index && d.size < U32_LIMIT
    ensures var v := Push(EmptyVec(d.blob), d);
            CanPush(EmptyVec(d.blob), d) && VecsOk(vecs + [v]) && Flat(vecs + [v]) == Flat(vecs) + [d]
  {
    var v := Push(EmptyVec(d.blob), d);
    PushKeepsVec(EmptyVec(d.blob), d);
    FlatSnoc(vecs, v);
    assert v.descs == [d] && (vecs + [v])[..|vecs|] == vecs;
  }

  /** Each further descriptor goes to the open vector if it targets the same blob, otherwise it opens
      a new one; in both cases no assertion of `push` can fire. */
  lemma NextPiece(f: Layout, vecs: seq<IoVec>, cur: IoVec, offset: nat, pos: nat, d: IoDesc, end: nat, userIo: bool)
    requires f.Valid() && Built(f, vecs, cur, offset, pos, userIo) && pos % f.chunkSize == 0
    requires offset <= pos < end < offset + U32_LIMIT
    requires Piece(f, d, pos, end, userIo) && pos + d.size == end
    ensures if d.blob.index == cur.blob.index
            then CanPush(cur, d) && Built(f, vecs, Push(cur, d), offset, end, userIo)
            else CanPush(EmptyVec(d.blob), d) && Built(f, vecs + [cur], Push(EmptyVec(d.blob), d), offset, end, userIo)
  {
    var open := vecs + [cur];
    SingleTile(f, d, pos, end, userIo);
    TilesTotal(f, Flat(open), offset, pos, userIo);
    LastVecFits(vecs, cur);
    TilesSnoc(f, Flat(open), offset, pos, d, end, userIo);
    if d.blob.index == cur.blob.index {
      SameIndexSameBlob(f, cur.blob, d.blob);
      SameVec(vecs, cur, d);
    } else {
      NewVec(open, d);
    }
  }

  /** Some chunk that [offset, end) needs cannot be resolved. */
  ghost predicate Unresolved(f: Layout, offset: nat, end: nat)
    requires f.chunkSize > 0
  {
    exists k :: offset / f.chunkSize <= k < f.count && k * f.chunkSize < end && f.chunkAt(k).None?
  }

  lemma ChunkStart(f: Layout, k: nat)
    requires f.chunkSize > 0
    ensures (k * f.chunkSize) / f.chunkSize == k && (k * f.chunkSize) % f.chunkSize == 0
  {
    QuotientUnique(k * f.chunkSize, f.chunkSize, k, 0);
  }

  lemma FirstUnresolved(f: Layout, offset: nat, left: nat)
    requires f.chunkSize > 0 && offset / f.chunkSize < f.count
    requires f.chunkAt(offset / f.chunkSize).None?
    ensures Unresolved(f, offset, offset + (if left > 0 then left else 1))
  {
    var k := offset / f.chunkSize;
    assert offset == k * f.chunkSize + offset % f.chunkSize;
  }

  // ----- What the descriptors read ----------------------------------------------------------

  /** The uncompressed bytes of each chunk. */
  type Contents<!B> = nat -> seq<B>

  /** The file's byte at position `x`. */
  ghost function ByteAt<B>(f: Layout, data: Contents<B>, x: nat): Option<B>
    requires f.chunkSize > 0
  {
    var k, o := x / f.chunkSize, x % f.chunkSize;
    if k < f.count && o < |data(k)| then Some(data(k)[o]) else None
  }

  /** The bytes the descriptors designate, `pos` being the file position of the first. */
  ghost function ReadAt<B>(f: Layout, data: Contents<B>, descs: seq<IoDesc>, pos: nat, j: nat): Option<B>
    requires f.chunkSize > 0
    decreases descs
  {
    if descs == [] || pos / f.chunkSize >= f.count then None
    else if j < descs[0].size then
      var chunk := data(pos / f.chunkSize);
      if descs[0].offset + j < |chunk| then Some(chunk[descs[0].offset + j]) else None
    else ReadAt(f, data, descs[1..], pos + descs[0].size, j - descs[0].size)
  }

  lemma SameChunk(pos: nat, j: nat, cs: nat)
    requires cs > 0 && pos % cs + j < cs
    ensures (pos + j) / cs == pos / cs && (pos + j) % cs == pos % cs + j
  {
    assert pos + j == pos / cs * cs + (pos % cs + j);
    QuotientUnique(pos + j, cs, pos / cs, pos % cs + j);
  }

  /** Reading through the descriptors gives the file's bytes: the j-th byte read is the file's byte
      at `pos + j`, and nothing is read past `end`. */
  lemma {:induction false} ReadsFileBytes<B>(f: Layout, data: Contents<B>, descs: seq<IoDesc>, pos: nat, end: nat,
                                             userIo: bool, j: nat)
    requires f.chunkSize > 0 && Tiles(f, descs, pos, end, userIo)
    ensures ReadAt(f, data, descs, pos, j) == if j < end - pos then ByteAt(f, data, pos + j) else None
    decreases descs
  {
    if descs != [] {
      var d := descs[0];
      if j < d.size {
        SameChunk(pos, j, f.chunkSize);
      } else {
        ReadsFileBytes(f, data, descs[1..], pos + d.size, end, userIo, j - d.size);
      }
    }
  }

  /** Every descriptor stays within its chunk. */
  lemma {:induction false} StaysInChunk(f: Layout, descs: seq<IoDesc>, pos: nat, end: nat, userIo: bool, i: nat)
    requires f.chunkSize > 0 && Tiles(f, descs, pos, end, userIo) && i < |descs|
    ensures 0 < descs[i].size && descs[i].offset + descs[i].size <= f.chunkSize && descs[i].userIo == userIo
    decreases descs
  {
    if i > 0 { StaysInChunk(f, descs[1..], pos + descs[0].size, end, userIo, i - 1); }
  }

  /** A descriptor made from the start of chunk `k` is a piece of the range that starts there. */
  lemma BoundaryPiece(f: Layout, k: nat, len: nat, d: IoDesc, userIo: bool)
    requires f.chunkSize > 0 && k < f.count && 0 < len <= f.chunkSize && MakeDesc(f, k, 0, len, userIo) == Some(d)
    ensures k * f.chunkSize % f.chunkSize == 0 && Piece(f, d, k * f.chunkSize, k * f.chunkSize + len, userIo)
  {
    ChunkStart(f, k);
  }

  lemma BoundaryUnresolved(f: Layout, offset: nat, k: nat, end: nat)
    requires f.chunkSize > 0 && offset / f.chunkSize <= k < f.count && k * f.chunkSize < end && f.chunkAt(k).None?
    ensures Unresolved(f, offset, end)
  {
  }
}
