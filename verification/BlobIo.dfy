/** Blob I/O descriptors and their scatter/gather vectors (storage/src/device.rs). */
module BlobIo {
  import opened Common

  datatype Blob = Blob(index: nat, id: string, legacyStargz: bool)

  /** A chunk of a blob: its place in the compressed blob and its uncompressed size. */
  datatype Chunk = Chunk(blobIndex: nat, id: nat, offset: nat, size: nat, uncompressedSize: nat) {
    function End(): nat { offset + size }
  }

  /** I/O on `size` bytes of `chunk`, starting `offset` bytes into its uncompressed data. */
  datatype IoDesc = IoDesc(blob: Blob, chunk: Chunk, offset: nat, size: nat, userIo: bool)

  /** `BlobIoDesc::is_continuous`. */
  predicate IsContinuous(prev: IoDesc, next: IoDesc, maxGap: nat) {
    && prev.chunk.blobIndex == next.chunk.blobIndex
    && next.chunk.offset >= prev.chunk.End()
    && next.chunk.offset - prev.chunk.End() <= if next.blob.legacyStargz then maxGap * 8 else maxGap
  }

  // ----- Scatter/gather vectors -----------------------------------------------------------

  datatype IoVec = IoVec(blob: Blob, size: nat, descs: seq<IoDesc>)

  function Total(descs: seq<IoDesc>): nat {
    if descs == [] then 0 else descs[0].size + Total(descs[1..])
  }

  lemma {:induction false} TotalConcat(a: seq<IoDesc>, b: seq<IoDesc>)
    ensures Total(a + b) == Total(a) + Total(b)
  {
    if a == [] {
      assert a + b == b;
    } else {
      assert (a + b)[1..] == a[1..] + b;
      TotalConcat(a[1..], b);
    }
  }

  predicate SameBlob(a: Blob, b: Blob) {
    a.index == b.index && a.id == b.id
  }

  /** The recorded size is the sum of the descriptor sizes, it fits 32 bits, and every descriptor
      targets the vector's blob. */
  ghost predicate VecOk(v: IoVec) {
    && v.size == Total(v.descs) < U32_LIMIT
    && forall i | 0 <= i < |v.descs| :: v.descs[i].blob.index == v.blob.index && v.descs[i].blob.id == v.blob.id
  }

  /** The assertions of `BlobIoVec::push` and `BlobIoVec::append`. */
  predicate CanPush(v: IoVec, d: IoDesc) {
    SameBlob(v.blob, d.blob) && v.size + d.size < U32_LIMIT
  }

  predicate CanAppend(v: IoVec, w: IoVec) {
    SameBlob(v.blob, w.blob) && v.size + w.size < U32_LIMIT
  }

  function Push(v: IoVec, d: IoDesc): IoVec {
    IoVec(v.blob, v.size + d.size, v.descs + [d])
  }

  function Append(v: IoVec, w: IoVec): IoVec {
    IoVec(v.blob, v.size + w.size, v.descs + w.descs)
  }

  function EmptyVec(blob: Blob): IoVec {
    IoVec(blob, 0, [])
  }

  /** A push that does not trip an assertion keeps the vector consistent, and no other does. */
  lemma PushKeepsVec(v: IoVec, d: IoDesc)
    requires VecOk(v)
    ensures VecOk(Push(v, d)) <==> CanPush(v, d)
  {
    TotalConcat(v.descs, [d]);
    assert Total([d]) == d.size;
    var p := Push(v, d);
    if VecOk(p) { assert p.descs[|v.descs|].blob.index == v.blob.index; }
  }

  /** So does an append, and no other append of descriptors does. */
  lemma AppendKeepsVec(v: IoVec, w: IoVec)
    requires VecOk(v) && VecOk(w)
    ensures CanAppend(v, w) ==> VecOk(Append(v, w))
    ensures w.descs != [] && VecOk(Append(v, w)) ==> CanAppend(v, w)
  {
    TotalConcat(v.descs, w.descs);
    var a := Append(v, w);
    if w.descs != [] && VecOk(a) { assert a.descs[|v.descs|] == w.descs[0] && w.descs[0].blob.index == w.blob.index; }
  }

  /** `BlobIoVec` as the object its callers update in place. */
  class BlobIoVec {
    const blob: Blob
    var size: nat
    var descs: seq<IoDesc>

    function View(): IoVec reads this { IoVec(blob, size, descs) }

    constructor (blob: Blob)
      ensures View() == EmptyVec(blob) && VecOk(View())
    {
      this.blob := blob;
      size, descs := 0, [];
    }

    /** The object that holds a given vector. */
    constructor Of(v: IoVec)
      ensures View() == v
    {
      blob, size, descs := v.blob, v.size, v.descs;
    }

    /** `push`; fails without an effect where an assertion of the source does. */
    method PushDesc(d: IoDesc) returns (ok: bool)
      modifies this
      ensures ok <==> CanPush(old(View()), d)
      ensures View() == if ok then Push(old(View()), d) else old(View())
      ensures old(VecOk(View())) ==> VecOk(View())
    {
      if VecOk(View()) { PushKeepsVec(View(), d); }
      if !CanPush(View(), d) { return false; }
      size := size + d.size;
      descs := descs + [d];
      ok := true;
    }

    /** `append`, which moves the descriptors over. */
    method AppendVec(w: BlobIoVec) returns (ok: bool)
      requires this != w
      modifies this, w
      ensures ok <==> CanAppend(old(View()), old(w.View()))
      ensures View() == if ok then Append(old(View()), old(w.View())) else old(View())
      ensures if ok then w.descs == [] else w.View() == old(w.View())
      ensures old(VecOk(View()) && VecOk(w.View())) ==> VecOk(View())
    {
      if !CanAppend(View(), w.View()) { return false; }
      if VecOk(View()) && VecOk(w.View()) { AppendKeepsVec(View(), w.View()); }
      descs := descs + w.descs;
      w.descs := [];
      size := size + w.size;
      ok := true;
    }

    method Reset()
      modifies this
      ensures View() == EmptyVec(blob) && VecOk(View())
    {
      size, descs := 0, [];
    }
  }

  // ----- Merging descriptors into ranges ----------------------------------------------------

  datatype Tag = User(offset: nat, len: nat) | Internal

  /** `tag_from_desc`. */
  function TagOf(d: IoDesc): Tag {
    if d.userIo then User(d.offset, d.size) else Internal
  }

  /** Chunks that follow one another in one blob without overlap, at most `maxGap` bytes apart. */
  ghost predicate Chained(descs: seq<IoDesc>, maxGap: nat) {
    forall i | 0 < i < |descs| ::
      descs[i - 1].chunk.blobIndex == descs[i].chunk.blobIndex && Joins(descs[i - 1], descs[i], maxGap)
  }

  predicate Joins(prev: IoDesc, next: IoDesc, maxGap: nat) {
    prev.chunk.End() <= next.chunk.offset <= prev.chunk.End() + maxGap
  }

  function ChunkBytes(descs: seq<IoDesc>): nat {
    if descs == [] then 0 else descs[0].chunk.size + ChunkBytes(descs[1..])
  }

  /** Bytes between consecutive chunks. */
  ghost function Gaps(descs: seq<IoDesc>): int {
    if |descs| < 2 then 0
    else descs[1].chunk.offset - descs[0].chunk.End() + Gaps(descs[1..])
  }

  /** What a merged range of `descs` is: it reaches from the start of the first chunk to the end of
      the last, and lists chunks and tags one to one. */
  datatype RangeView = RangeView(offset: nat, size: nat, chunks: seq<Chunk>, tags: seq<Tag>)

  ghost predicate Spans(r: RangeView, descs: seq<IoDesc>) {
    && descs != []
    && r.offset == descs[0].chunk.offset
    && r.offset + r.size == descs[|descs| - 1].chunk.End()
    && |r.chunks| == |r.tags| == |descs|
    && forall i | 0 <= i < |descs| ::
         && r.chunks[i] == descs[i].chunk
         && r.tags[i] == if descs[i].userIo then User(descs[i].offset, descs[i].size) else Internal
  }

  /** The size of a range is the chunk sizes plus the gaps between them. */
  lemma {:induction false} SpanIsChunksPlusGaps(descs: seq<IoDesc>)
    requires descs != []
    ensures descs[|descs| - 1].chunk.End() - descs[0].chunk.offset == ChunkBytes(descs) + Gaps(descs)
  {
    if |descs| > 1 { SpanIsChunksPlusGaps(descs[1..]); }
  }

  /** Chunks of a chained list are ordered and disjoint, not only neighbours. */
  lemma {:induction false} ChainedIsDisjoint(descs: seq<IoDesc>, maxGap: nat, i: nat, j: nat)
    requires Chained(descs, maxGap) && i < j < |descs|
    ensures descs[i].chunk.End() <= descs[j].chunk.offset
  {
    if i + 1 < j { ChainedIsDisjoint(descs, maxGap, i, j - 1); }
  }

  class BlobIoRange {
    var offset: nat
    var size: nat
    var chunks: seq<Chunk>
    var tags: seq<Tag>

    function View(): RangeView reads this { RangeView(offset, size, chunks, tags) }

    constructor (bio: IoDesc)
      ensures Spans(View(), [bio])
    {
      offset, size := bio.chunk.offset, bio.chunk.size;
      chunks, tags := [bio.chunk], [TagOf(bio)];
    }

    /** `merge`: the new chunk must start at or after the range's end and within `maxGap` of it, or else
        an assertion fails; the sums that are asserted not to wrap are ends of chunks. */
    method Merge(bio: IoDesc, maxGap: nat, ghost merged: seq<IoDesc>) returns (ok: bool)
      requires Spans(View(), merged) && bio.chunk.End() < U64_LIMIT
      modifies this
      ensures ok <==> Joins(merged[|merged| - 1], bio, maxGap)
      ensures if ok then Spans(View(), merged + [bio]) else View() == old(View())
    {
      var end := offset + size;
      var bioOffset := bio.chunk.offset;
      var bioSize := bio.chunk.size;
      var grow;
      if end == bioOffset {
        assert bioOffset + bioSize < U64_LIMIT;
        grow := bioSize;
      } else {
        if !(bioOffset > end && bioOffset - end <= maxGap) { return false; }
        grow := bioSize + (bioOffset - end);
      }
      assert end + grow < U64_LIMIT;
      size := size + grow;
      tags := tags + [TagOf(bio)];
      chunks := chunks + [bio.chunk];
      ok := true;
    }
  }

  /** A descriptor that `is_continuous` accepts after the last one of a chained list extends the
      chain, unless the blob is a legacy one with its eight times wider gap. */
  lemma ContinuousExtendsChain(descs: seq<IoDesc>, bio: IoDesc, maxGap: nat)
    requires descs != [] && Chained(descs, maxGap)
    requires IsContinuous(descs[|descs| - 1], bio, maxGap)
    ensures Chained(descs + [bio], maxGap) <==>
            !bio.blob.legacyStargz || bio.chunk.offset - descs[|descs| - 1].chunk.End() <= maxGap
  {
    var all := descs + [bio];
    var n := |descs|;
    if Chained(all, maxGap) {
      assert all[n - 1].chunk.End() <= all[n].chunk.offset <= all[n - 1].chunk.End() + maxGap;
    }
  }

  // ----- Issuing merged requests (storage/src/cache/mod.rs) -----------------------------------

  ghost function Concat<T>(groups: seq<seq<T>>): seq<T> {
    if groups == [] then [] else Concat(groups[..|groups| - 1]) + groups[|groups| - 1]
  }

  /** Compressed bytes from the first chunk's start to the last chunk's end. */
  ghost function Span(descs: seq<IoDesc>): int
    requires descs != []
  {
    descs[|descs| - 1].chunk.End() - descs[0].chunk.offset
  }

  /** Neighbours that `is_continuous` accepts. */
  ghost predicate Continuous(descs: seq<IoDesc>, maxGap: nat) {
    forall i | 0 < i < |descs| :: IsContinuous(descs[i - 1], descs[i], maxGap)
  }

  /** `BlobIoMergeState::issue`: one range for the pending descriptors, unless a gap is too wide. */
  method Issue(bios: seq<IoDesc>, maxGap: nat) returns (r: Result<RangeView>)
    requires bios != [] && Continuous(bios, maxGap)
    requires forall i | 0 <= i < |bios| :: bios[i].chunk.End() < U64_LIMIT
    ensures match r
            case Ok(range) => Chained(bios, maxGap) && Spans(range, bios)
            case Err(e) => !Chained(bios, maxGap) && e == AssertFailed
  {
    var range := new BlobIoRange(bios[0]);
    var i := 1;
    assert bios[..1] == [bios[0]];
    while i < |bios|
      invariant 1 <= i <= |bios| && fresh(range)
      invariant Spans(range.View(), bios[..i]) && Chained(bios[..i], maxGap)
    {
      assert bios[..i] + [bios[i]] == bios[..i + 1];
      assert IsContinuous(bios[i - 1], bios[i], maxGap);
      var ok := range.Merge(bios[i], maxGap, bios[..i]);
      if !ok { return Err(AssertFailed); }
      i := i + 1;
    }
    assert bios[..i] == bios;
    r := Ok(range.View());
  }

  /** Chunks whose ends are 64-bit numbers. */
  ghost predicate EndsFit(bios: seq<IoDesc>) {
    forall i | 0 <= i < |bios| :: bios[i].chunk.End() < U64_LIMIT
  }

  /** Sizes for which the 32-bit bookkeeping of pending bytes cannot overflow. */
  ghost predicate SizesFit(bios: seq<IoDesc>, maxCompSize: nat, maxGap: nat) {
    forall i | 0 <= i < |bios| ::
      maxCompSize + (if bios[i].blob.legacyStargz then maxGap * 8 else maxGap) + bios[i].chunk.size < U32_LIMIT
  }

  /** The descriptors pending since the last issue, with the bookkeeping of `BlobIoMergeState`. */
  ghost predicate Pending(pending: seq<IoDesc>, size: nat, maxCompSize: nat, maxGap: nat) {
    && pending != [] && Continuous(pending, maxGap) && size == Span(pending)
    && (|pending| > 1 ==> Span(pending[..|pending| - 1]) < maxCompSize)
  }

  /** How the descriptors are grouped into requests: `pending` and the descriptors from `index` on. */
  ghost function Groups(bios: seq<IoDesc>, index: nat, pending: seq<IoDesc>, maxCompSize: nat,
                        maxGap: nat): seq<seq<IoDesc>>
    requires pending != []
    decreases |bios| - index
  {
    if index >= |bios| then [pending]
    else if !IsContinuous(pending[|pending| - 1], bios[index], maxGap) || Span(pending) >= maxCompSize then
      [pending] + Groups(bios, index + 1, [bios[index]], maxCompSize, maxGap)
    else Groups(bios, index + 1, pending + [bios[index]], maxCompSize, maxGap)
  }

  /** The requests `merge_and_issue` would make of a list. */
  ghost function Requests(bios: seq<IoDesc>, maxCompSize: nat, maxGap: nat): seq<seq<IoDesc>> {
    if bios == [] then [] else Groups(bios, 1, [bios[0]], maxCompSize, maxGap)
  }

  ghost predicate AllChained(groups: seq<seq<IoDesc>>, maxGap: nat) {
    forall i | 0 <= i < |groups| :: Chained(groups[i], maxGap)
  }

  /** The gap before descriptor `i` and the span up to it are numbers the bookkeeping can hold. */
  ghost predicate BookedAt(group: seq<IoDesc>, i: nat)
    requires 0 < i < |group|
  {
    && group[i].chunk.offset - group[i - 1].chunk.End() < U32_LIMIT - 1
    && group[i].chunk.End() - group[0].chunk.offset < U32_LIMIT
  }

  ghost predicate Booked(group: seq<IoDesc>) {
    forall i | 0 < i < |group| :: BookedAt(group, i)
  }

  ghost predicate AllBooked(groups: seq<seq<IoDesc>>) {
    forall i | 0 <= i < |groups| :: Booked(groups[i])
  }

  /** Two neighbouring requests are separate only for a reason: the second does not continue the
      first, or the first was already large enough. */
  ghost predicate Justified(a: seq<IoDesc>, b: seq<IoDesc>, maxCompSize: nat, maxGap: nat) {
    && a != [] && b != []
    && (!IsContinuous(a[|a| - 1], b[0], maxGap) || Span(a) >= maxCompSize)
  }

  /** One issued request and the descriptors it was made of. */
  ghost predicate GroupOk(r: RangeView, group: seq<IoDesc>, maxCompSize: nat, maxGap: nat) {
    && Spans(r, group) && Chained(group, maxGap)
    && (|group| > 1 ==> Span(group[..|group| - 1]) < maxCompSize)
  }

  /** Each request is in order, and so is the boundary to the one before it. */
  ghost predicate IssuedOk(issued: seq<RangeView>, groups: seq<seq<IoDesc>>, maxCompSize: nat, maxGap: nat) {
    var n := |groups|;
    && |issued| == n
    && (n > 0 ==>
          && GroupOk(issued[n - 1], groups[n - 1], maxCompSize, maxGap)
          && (n > 1 ==> Justified(groups[n - 2], groups[n - 1], maxCompSize, maxGap))
          && IssuedOk(issued[..n - 1], groups[..n - 1], maxCompSize, maxGap))
  }

  lemma {:induction false} IssuedAt(issued: seq<RangeView>, groups: seq<seq<IoDesc>>, maxCompSize: nat, maxGap: nat,
                                    i: nat)
    requires IssuedOk(issued, groups, maxCompSize, maxGap) && i < |groups|
    ensures GroupOk(issued[i], groups[i], maxCompSize, maxGap)
    ensures i > 0 ==> Justified(groups[i - 1], groups[i], maxCompSize, maxGap)
  {
    var n := |groups|;
    if i < n - 1 { IssuedAt(issued[..n - 1], groups[..n - 1], maxCompSize, maxGap, i); }
  }

  ghost function ChunkList(descs: seq<IoDesc>): seq<Chunk> {
    seq(|descs|, i requires 0 <= i < |descs| => descs[i].chunk)
  }

  /** The chunks of all issued requests, in order. */
  ghost function IssuedChunks(issued: seq<RangeView>): seq<Chunk> {
    if issued == [] then [] else IssuedChunks(issued[..|issued| - 1]) + issued[|issued| - 1].chunks
  }

  lemma {:induction false} IssuedListsAll(issued: seq<RangeView>, groups: seq<seq<IoDesc>>, maxCompSize: nat,
                                          maxGap: nat)
    requires IssuedOk(issued, groups, maxCompSize, maxGap)
    ensures IssuedChunks(issued) == ChunkList(Concat(groups))
    decreases |groups|
  {
    var n := |groups|;
    if n > 0 {
      IssuedListsAll(issued[..n - 1], groups[..n - 1], maxCompSize, maxGap);
      assert issued[n - 1].chunks == ChunkList(groups[n - 1]);
      assert ChunkList(Concat(groups)) == ChunkList(Concat(groups[..n - 1])) + ChunkList(groups[n - 1]);
    }
  }

  lemma PushPending(pending: seq<IoDesc>, size: nat, bio: IoDesc, maxCompSize: nat, maxGap: nat)
    requires Pending(pending, size, maxCompSize, maxGap) && size < maxCompSize
    requires IsContinuous(pending[|pending| - 1], bio, maxGap)
    ensures var grow := bio.chunk.offset - pending[|pending| - 1].chunk.End() + bio.chunk.size;
            Pending(pending + [bio], size + grow, maxCompSize, maxGap)
  {
    assert (pending + [bio])[..|pending|] == pending;
  }

  lemma IssueGroup(issued: seq<RangeView>, groups: seq<seq<IoDesc>>, r: RangeView, pending: seq<IoDesc>,
                   size: nat, maxCompSize: nat, maxGap: nat)
    requires IssuedOk(issued, groups, maxCompSize, maxGap) && Pending(pending, size, maxCompSize, maxGap)
    requires Spans(r, pending) && Chained(pending, maxGap)
    requires groups != [] ==> Justified(groups[|groups| - 1], pending, maxCompSize, maxGap)
    ensures IssuedOk(issued + [r], groups + [pending], maxCompSize, maxGap)
    ensures Concat(groups + [pending]) == Concat(groups) + pending
  {
    var after := groups + [pending];
    assert after[..|after| - 1] == groups && (issued + [r])[..|issued|] == issued;
  }

  /** The loop state of `merge_and_issue` after `index` descriptors. */
  ghost predicate Merged(bios: seq<IoDesc>, index: nat, issued: seq<RangeView>, groups: seq<seq<IoDesc>>,
                         pending: seq<IoDesc>, size: nat, maxCompSize: nat, maxGap: nat)
  {
    && 1 <= index <= |bios|
    && Pending(pending, size, maxCompSize, maxGap) && pending[|pending| - 1] == bios[index - 1]
    && Concat(groups) + pending == bios[..index]
    && EndsFit(pending) && IssuedOk(issued, groups, maxCompSize, maxGap) && AllChained(groups, maxGap)
    && Booked(pending) && AllBooked(groups)
    && Requests(bios, maxCompSize, maxGap) == groups + Groups(bios, index, pending, maxCompSize, maxGap)
    && (groups != [] ==> Justified(groups[|groups| - 1], pending, maxCompSize, maxGap))
  }

  /** Starting a new request for the next descriptor. */
  lemma StartGroup(bios: seq<IoDesc>, index: nat, issued: seq<RangeView>, groups: seq<seq<IoDesc>>,
                   pending: seq<IoDesc>, size: nat, maxCompSize: nat, maxGap: nat, r: RangeView)
    requires Merged(bios, index, issued, groups, pending, size, maxCompSize, maxGap) && index < |bios|
    requires EndsFit(bios) && Spans(r, pending) && Chained(pending, maxGap)
    requires !IsContinuous(bios[index - 1], bios[index], maxGap) || size >= maxCompSize
    ensures Merged(bios, index + 1, issued + [r], groups + [pending], [bios[index]], bios[index].chunk.size,
                   maxCompSize, maxGap)
  {
    IssueGroup(issued, groups, r, pending, size, maxCompSize, maxGap);
    assert bios[..index + 1] == bios[..index] + [bios[index]];
    Regroup(groups, [pending], Groups(bios, index + 1, [bios[index]], maxCompSize, maxGap));
  }

  /** Adding the next descriptor to the pending request. */
  lemma ExtendGroup(bios: seq<IoDesc>, index: nat, issued: seq<RangeView>, groups: seq<seq<IoDesc>>,
                    pending: seq<IoDesc>, size: nat, maxCompSize: nat, maxGap: nat)
    requires Merged(bios, index, issued, groups, pending, size, maxCompSize, maxGap) && index < |bios| && EndsFit(bios)
    requires IsContinuous(bios[index - 1], bios[index], maxGap) && size < maxCompSize
    requires Booked(pending + [bios[index]])
    ensures var bio := bios[index];
            var grow := bio.chunk.offset - pending[|pending| - 1].chunk.End() + bio.chunk.size;
            Merged(bios, index + 1, issued, groups, pending + [bio], size + grow, maxCompSize, maxGap)
  {
    PushPending(pending, size, bios[index], maxCompSize, maxGap);
    assert bios[..index + 1] == bios[..index] + [bios[index]];
    assert Concat(groups) + (pending + [bios[index]]) == Concat(groups) + pending + [bios[index]];
  }

  /** The pending descriptors begin the next request. */
  lemma {:induction false} PendingBegins(bios: seq<IoDesc>, index: nat, pending: seq<IoDesc>, maxCompSize: nat,
                                         maxGap: nat)
    requires pending != []
    ensures var rest := Groups(bios, index, pending, maxCompSize, maxGap); rest != [] && pending <= rest[0]
    decreases |bios| - index
  {
    if index < |bios| && IsContinuous(pending[|pending| - 1], bios[index], maxGap) && Span(pending) < maxCompSize {
      PendingBegins(bios, index + 1, pending + [bios[index]], maxCompSize, maxGap);
    }
  }

  /** A gap that is too wide in the pending descriptors is one in the request they belong to. */
  lemma WideGapStays(bios: seq<IoDesc>, index: nat, groups: seq<seq<IoDesc>>, pending: seq<IoDesc>, maxCompSize: nat,
                     maxGap: nat)
    requires pending != [] && !Chained(pending, maxGap)
    ensures !AllChained(groups + Groups(bios, index, pending, maxCompSize, maxGap), maxGap)
  {
    PendingBegins(bios, index, pending, maxCompSize, maxGap);
    var rest := Groups(bios, index, pending, maxCompSize, maxGap);
    var i :| 0 < i < |pending| && !(pending[i - 1].chunk.blobIndex == pending[i].chunk.blobIndex &&
                                    Joins(pending[i - 1], pending[i], maxGap));
    assert rest[0][i - 1] == pending[i - 1] && rest[0][i] == pending[i];
    assert (groups + rest)[|groups|] == rest[0];
  }

  /** A descriptor that overflows the bookkeeping does so in the request it belongs to. */
  lemma OverflowStays(bios: seq<IoDesc>, index: nat, groups: seq<seq<IoDesc>>, pending: seq<IoDesc>, maxCompSize: nat,
                      maxGap: nat)
    requires pending != [] && !Booked(pending)
    ensures !AllBooked(groups + Groups(bios, index, pending, maxCompSize, maxGap))
  {
    PendingBegins(bios, index, pending, maxCompSize, maxGap);
    var rest := Groups(bios, index, pending, maxCompSize, maxGap);
    var i :| 0 < i < |pending| && !BookedAt(pending, i);
    assert rest[0][0] == pending[0] && rest[0][i - 1] == pending[i - 1] && rest[0][i] == pending[i];
    assert !BookedAt(rest[0], i);
    assert (groups + rest)[|groups|] == rest[0];
  }

  /** Issuing the last request completes the list. */
  lemma LastGroup(bios: seq<IoDesc>, issued: seq<RangeView>, groups: seq<seq<IoDesc>>, pending: seq<IoDesc>, size: nat,
                  maxCompSize: nat, maxGap: nat, r: RangeView)
    requires Merged(bios, |bios|, issued, groups, pending, size, maxCompSize, maxGap)
    requires Spans(r, pending) && Chained(pending, maxGap)
    ensures var all := groups + [pending];
            && all == Requests(bios, maxCompSize, maxGap) && Concat(all) == bios
            && AllChained(all, maxGap) && AllBooked(all)
            && IssuedOk(issued + [r], all, maxCompSize, maxGap) && IssuedChunks(issued + [r]) == ChunkList(bios)
  {
    assert bios[..|bios|] == bios;
    IssueGroup(issued, groups, r, pending, size, maxCompSize, maxGap);
    IssuedListsAll(issued + [r], groups + [pending], maxCompSize, maxGap);
  }

  /** A request overflows the 32-bit bookkeeping, or it has a gap wider than `maxGap`, which
      `is_continuous` lets through for legacy stargz blobs. */
  ghost predicate CannotIssue(bios: seq<IoDesc>, maxCompSize: nat, maxGap: nat) {
    var groups := Requests(bios, maxCompSize, maxGap);
    !AllBooked(groups) || !AllChained(groups, maxGap)
  }

  /** Issuing what is pending before the next descriptor. */
  method IssuePending(bios: seq<IoDesc>, index: nat, issued: seq<RangeView>, ghost groups: seq<seq<IoDesc>>,
                      pending: seq<IoDesc>, ghost size: nat, ghost maxCompSize: nat, maxGap: nat)
    returns (r: Result<RangeView>)
    requires Merged(bios, index, issued, groups, pending, size, maxCompSize, maxGap)
    ensures match r
            case Ok(range) => Spans(range, pending) && Chained(pending, maxGap)
            case Err(e) => e == AssertFailed && CannotIssue(bios, maxCompSize, maxGap)
  {
    r := Issue(pending, maxGap);
    if r.Err? { WideGapStays(bios, index, groups, pending, maxCompSize, maxGap); }
  }

  /** `push` of a descriptor that continues the pending ones: the size afterwards. */
  method PushSize(pending: seq<IoDesc>, bio: IoDesc, size: nat, maxGap: nat) returns (r: Result<nat>)
    requires pending != [] && IsContinuous(pending[|pending| - 1], bio, maxGap)
    requires size == Span(pending) && Booked(pending)
    ensures match r
            case Ok(n) =>
              && n == size + (bio.chunk.offset - pending[|pending| - 1].chunk.End() + bio.chunk.size)
              && Booked(pending + [bio])
            case Err(e) => e == AssertFailed && !Booked(pending + [bio])
  {
    var prev := pending[|pending| - 1].chunk.End();
    assert prev <= bio.chunk.offset;
    var grow := bio.chunk.offset - prev + bio.chunk.size;
    BookedSnoc(pending, bio);
    if bio.chunk.offset - prev >= U32_LIMIT - 1 || size + grow >= U32_LIMIT { return Err(AssertFailed); }
    r := Ok(size + grow);
  }

  /** Adding the next descriptor to the pending request, if the bookkeeping allows it. */
  method PushNext(bios: seq<IoDesc>, index: nat, ghost issued: seq<RangeView>, ghost groups: seq<seq<IoDesc>>,
                  pending: seq<IoDesc>, size: nat, ghost maxCompSize: nat, maxGap: nat)
    returns (r: Result<nat>)
    requires Merged(bios, index, issued, groups, pending, size, maxCompSize, maxGap) && index < |bios| && EndsFit(bios)
    requires IsContinuous(bios[index - 1], bios[index], maxGap) && size < maxCompSize
    ensures match r
            case Ok(n) =>
              Merged(bios, index + 1, issued, groups, pending + [bios[index]], n, maxCompSize, maxGap)
            case Err(e) => e == AssertFailed && CannotIssue(bios, maxCompSize, maxGap)
  {
    r := PushSize(pending, bios[index], size, maxGap);
    if r.Ok? {
      ExtendGroup(bios, index, issued, groups, pending, size, maxCompSize, maxGap);
    } else {
      OverflowStays(bios, index + 1, groups, pending + [bios[index]], maxCompSize, maxGap);
    }
  }

  lemma BookedSnoc(pending: seq<IoDesc>, bio: IoDesc)
    requires pending != [] && Booked(pending)
    ensures Booked(pending + [bio]) <==> BookedAt(pending + [bio], |pending|)
  {
    var all := pending + [bio];
    forall i | 0 < i < |pending| ensures BookedAt(all, i) { assert BookedAt(pending, i); }
  }

  /** One turn of the loop: what is issued, pending and its size afterwards. */
  method MergeNext(bios: seq<IoDesc>, index: nat, issued: seq<RangeView>, ghost groups: seq<seq<IoDesc>>,
                   pending: seq<IoDesc>, size: nat, maxCompSize: nat, maxGap: nat)
    returns (r: Result<(seq<RangeView>, seq<IoDesc>, nat)>, ghost done: seq<seq<IoDesc>>)
    requires Merged(bios, index, issued, groups, pending, size, maxCompSize, maxGap) && index < |bios| && EndsFit(bios)
    ensures match r
            case Err(e) => e == AssertFailed && CannotIssue(bios, maxCompSize, maxGap)
            case Ok((all, left, n)) => Merged(bios, index + 1, all, done, left, n, maxCompSize, maxGap)
  {
    done := groups;
    var bio := bios[index];
    if !IsContinuous(bios[index - 1], bio, maxGap) || size >= maxCompSize {
      var range := IssuePending(bios, index, issued, groups, pending, size, maxCompSize, maxGap);
      if range.Err? { return Err(range.error), groups; }
      StartGroup(bios, index, issued, groups, pending, size, maxCompSize, maxGap, range.value);
      return Ok((issued + [range.value], [bio], bio.chunk.size)), groups + [pending];
    }
    var grown := PushNext(bios, index, issued, groups, pending, size, maxCompSize, maxGap);
    r := if grown.Err? then Err(grown.error) else Ok((issued, pending + [bio], grown.value));
  }

  /** `merge_and_issue`: every descriptor goes into exactly one request, in order; each request
      covers one gap-bounded stretch of the blob, and requests are merged whenever they may be.  An
      assertion fails exactly if a request overflows the 32-bit bookkeeping or has too wide a gap. */
  method MergeAndIssue(bios: seq<IoDesc>, maxCompSize: nat, maxGap: nat)
    returns (r: Result<seq<RangeView>>)
    requires EndsFit(bios)
    ensures match r
            case Err(e) => e == AssertFailed && CannotIssue(bios, maxCompSize, maxGap)
            case Ok(issued) =>
              var groups := Requests(bios, maxCompSize, maxGap);
              && !CannotIssue(bios, maxCompSize, maxGap) && Concat(groups) == bios
              && IssuedOk(issued, groups, maxCompSize, maxGap) && IssuedChunks(issued) == ChunkList(bios)
  {
    var issued: seq<RangeView> := [];
    ghost var groups: seq<seq<IoDesc>> := [];
    if bios == [] { return Ok([]); }
    var pending := [bios[0]];
    var size: nat := bios[0].chunk.size;
    var index := 1;
    while index < |bios|
      invariant Merged(bios, index, issued, groups, pending, size, maxCompSize, maxGap)
    {
      var next;
      next, groups := MergeNext(bios, index, issued, groups, pending, size, maxCompSize, maxGap);
      if next.Err? { return Err(next.error); }
      issued, pending, size := next.value.0, next.value.1, next.value.2;
      index := index + 1;
    }
    var range := IssuePending(bios, index, issued, groups, pending, size, maxCompSize, maxGap);
    if range.Err? { return Err(range.error); }
    LastGroup(bios, issued, groups, pending, size, maxCompSize, maxGap, range.value);
    r := Ok(issued + [range.value]);
  }

  // ----- Which lists trip the assertion of `merge` ------------------------------------------------

  /** Without legacy stargz blobs no request has a gap that is too wide. */
  lemma {:induction false} NoLegacyIsChained(bios: seq<IoDesc>, index: nat, pending: seq<IoDesc>, maxCompSize: nat,
                                             maxGap: nat)
    requires pending != [] && Chained(pending, maxGap) && forall i | 0 <= i < |bios| :: !bios[i].blob.legacyStargz
    ensures AllChained(Groups(bios, index, pending, maxCompSize, maxGap), maxGap)
    decreases |bios| - index
  {
    if index < |bios| {
      var bio := bios[index];
      if !IsContinuous(pending[|pending| - 1], bio, maxGap) || Span(pending) >= maxCompSize {
        NoLegacyIsChained(bios, index + 1, [bio], maxCompSize, maxGap);
      } else {
        ContinuousExtendsChain(pending, bio, maxGap);
        NoLegacyIsChained(bios, index + 1, pending + [bio], maxCompSize, maxGap);
      }
    }
  }

  /** Sizes that fit the bookkeeping never overflow it. */
  lemma {:induction false} SizesFitIsBooked(bios: seq<IoDesc>, index: nat, pending: seq<IoDesc>, maxCompSize: nat,
                                            maxGap: nat)
    requires SizesFit(bios, maxCompSize, maxGap) && pending != [] && Booked(pending) && Span(pending) >= 0
    ensures AllBooked(Groups(bios, index, pending, maxCompSize, maxGap))
    decreases |bios| - index
  {
    if index < |bios| {
      var bio := bios[index];
      if !IsContinuous(pending[|pending| - 1], bio, maxGap) || Span(pending) >= maxCompSize {
        SizesFitIsBooked(bios, index + 1, [bio], maxCompSize, maxGap);
      } else {
        BookedSnoc(pending, bio);
        SizesFitIsBooked(bios, index + 1, pending + [bio], maxCompSize, maxGap);
      }
    }
  }

  /** So without legacy blobs, and within the sizes of the bookkeeping, no assertion fails. */
  lemma NoLegacyNeverFails(bios: seq<IoDesc>, maxCompSize: nat, maxGap: nat)
    requires forall i | 0 <= i < |bios| :: !bios[i].blob.legacyStargz
    ensures AllChained(Requests(bios, maxCompSize, maxGap), maxGap)
    ensures SizesFit(bios, maxCompSize, maxGap) ==> !CannotIssue(bios, maxCompSize, maxGap)
  {
    if bios != [] {
      NoLegacyIsChained(bios, 1, [bios[0]], maxCompSize, maxGap);
      if SizesFit(bios, maxCompSize, maxGap) { SizesFitIsBooked(bios, 1, [bios[0]], maxCompSize, maxGap); }
    }
  }

  /** Two chunks of a legacy stargz blob, five bytes apart, with a gap of one byte allowed: the gap test
      admits them to one request, and merging them fails. */
  lemma LegacyGapFails()
    ensures var blob := Blob(0, "blob", true);
            var bios := [IoDesc(blob, Chunk(0, 0, 0, 10, 10), 0, 10, true),
                         IoDesc(blob, Chunk(0, 1, 15, 10, 10), 0, 10, true)];
            && EndsFit(bios) && SizesFit(bios, 100, 1) && IsContinuous(bios[0], bios[1], 1)
            && Requests(bios, 100, 1) == [bios] && CannotIssue(bios, 100, 1)
  {
    var blob := Blob(0, "blob", true);
    var bios := [IoDesc(blob, Chunk(0, 0, 0, 10, 10), 0, 10, true), IoDesc(blob, Chunk(0, 1, 15, 10, 10), 0, 10, true)];
    assert [bios[0]] + [bios[1]] == bios;
    assert Groups(bios, 2, bios, 100, 1) == [bios];
    assert Groups(bios, 1, [bios[0]], 100, 1) == [bios];
    assert !Joins(bios[0], bios[1], 1);
    assert !Chained(bios, 1) && [bios][0] == bios;
  }
}
