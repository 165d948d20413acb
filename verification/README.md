# Nydus RAFS: a verified model

This project models the read and metadata path of the Nydus image service in Dafny and proves what
the code relies on: that two-level lookup in a RAFS v6 directory finds what a scan finds, that file
ranges become descriptors for exactly those bytes, that amplification, merging and prefetching neither
lose nor overrun anything, that paths and inode numbers are inverse to each other, that the in-memory
tree of RAFS v5 can be built without meeting a shared node and agrees with the mapped image, and that
the asynchronous channel loses neither messages nor wake-ups.

| area | files |
|---|---|
| RAFS v6 directories | `DirentV6` (blocks and names), `DirV6` (lookup), `DirV6Walk` (walk, index, count), `BuildV6` (the builder's layout) |
| listings | `Readdir` (resumable walks, for every version) |
| file I/O | `BlobIo` (vectors, ranges, merging), `Tiling` (what it means to cover a range), `BioV6`, `BioV5` (allocation), `SparseV5` (files with holes), `Amplify`, `ReadPath` (user reads), `ScanV5`, `AppendV5` (what amplification adds to a read), `Prefetch` |
| RAFS v5 metadata | `CachedV5` (loading), `DirectV5` (mapped image, agreement of both modes) |
| trees and paths | `Traversal`, `Paths`, `PathsV5`, `PathsV6` |
| memory | `ScatterGather` (`copyv`, `MemSliceCursor`) |
| helpers of the system | `Mpmc` (channel), `InodeBitmap` |
| arithmetic and order | `Common`, `Bits`, `Names` |

Objects that the code updates in place are classes whose methods are tied to a function of their old
state (`BlobIoVec`, `BlobIoRange`, `BlobIoMerge`, `CachedSuperBlock`, `MemSliceCursor`, `RafsIterator`,
`Bitmap`); loops are methods with invariants; buffers are arrays. The channel and the concurrent side of
the bitmap are systems of atomic steps, because their calls interleave. Failing assertions of the
code are the error `AssertFailed`; they abort the process in every build. An unsigned subtraction below
zero is the error `Overflow`: the models of RAFS v6 directories, of v6 allocation and of paths follow a
build with overflow checks, where it aborts; the release profile has none, so there the value wraps and
the code goes on with a wrong index. An empty v5 request follows the release build, where the debug
assertion on empty ranges is absent. Ghost parameters name what an image stores, so
that the contracts can speak about it; they have no counterpart in the code.

## What the code does not promise

The following properties do not hold for all inputs. The members named state when exactly they hold, or
give a family of inputs for which they fail.

- Looking up a name below the first entry of a v6 directory underflows `pivot - 1`, although such a
  name is only absent (`DirV6.GetChildByName`, `DirV6.DashBelowDotUnderflows`).
- A v6 directory whose size is a multiple of 4096 has an entry whose name cannot be read, and a lookup
  or walk that needs it underflows (`DirentV6.EntryNameReads`, `DirV6.FullDirectoryUnderflows`).
- The builder records the size of a v6 directory with "." and ".." in front of the children, but writes
  the entries in sorted order. If a child sorts before "..", the two can need different space. The reader
  reads back every entry exactly if it finds the last block, and the recorded size has as many blocks as were
  written, reaches at least as far, and is no multiple of 4096 (`BuildV6.DumpedReadsBackIff`). The two sizes
  are equal if no child sorts before ".." or everything fits one block (`BuildV6.DotsFirstAgree`,
  `BuildV6.OneBlockAgrees`). A directory exists whose last name the lookup reports as absent, because the
  recorded size leaves out its block (`BuildV6.LastEntryIsLost`).
- The builder writes the inline tail of a v6 directory right behind the inode and its xattrs, which end at a
  multiple of four; the reader looks for it at the next multiple of eight. It finds the tail exactly if inode
  and xattrs end at a multiple of eight, and otherwise reads from four bytes behind its start
  (`BuildV6.TailFoundIff`, `BuildV6.DumpedReadsBackIff`).
- The path of a v6 directory leads back to it exactly if no lookup on the way reads an exactly full last
  block (`PathsV6.RoundTripV6`).
- v6 allocation casts the clipped length to 32 bits, so it covers the range exactly if that is shorter
  than 4 GiB (`BioV6.CoversWholeRangeIff`). It casts chunk indices too: for a file of 2^32 chunks or more
  it works with the wrapped indices (`BioV6.AllocBioVecs`, `BioV6.WrappedReadsNothing`).
- A read of a v5 file trips the assertion that its first vector is not empty exactly if the chunks of the
  first blob end before the range, which a sparse tail does (`SparseV5.FilledIff`, `ReadPath.PrepareRead`,
  `SparseV5.SparseTailIsMissed`). It trips the assertion that every vector has bytes exactly if all chunks
  of a vector that end behind the offset are empty, and nothing fetched ahead adds bytes to that vector
  (`SparseV5.EmptyVecIff`, `ReadPath.PrepareRead`).
- With the hole flag an allocation fails if any chunk starts at or beyond the end of the request
  (`SparseV5.AllocFailsIff`, `SparseV5.SparseHeadFails`), and because amplification passes such errors on,
  a file behind the one that is read can fail the read (`Amplify.AmplifyKeepsBudget`,
  `ReadPath.FileBehindFailsRead`).
- Amplification does not append a chunk that the user reads already, unless the chunk has no compressed
  bytes: the last chunk of a file with the hole flag is then appended once more
  (`AppendV5.AppendedChunksAreNew`, `AppendV5.HolePhaseRepeatsEmpty`).
- `copyv` fails when the destination is exactly full and another source buffer follows, even an unneeded
  one (`ScatterGather.Copyv`, `ScatterGather.ExactFitCanFail`), and when it reaches an empty destination
  buffer with bytes left (`ScatterGather.LandsIff`).
- A prefetch vector can be appended in every state exactly if it is smaller than 4 GiB less 16 MiB
  (`Prefetch.SafeInEveryStateIff`, `Prefetch.OversizeFails`).
- Pending descriptors that are all empty are dropped by the final drain of a prefetch, as happens to a v6
  file of exactly 4 GiB (`Prefetch.PrefetchConserves`, `Prefetch.FourGiBFileIsLost`).
- The eightfold gap that `is_continuous` grants legacy stargz blobs can exceed what `merge` asserts, and a
  merged request can overflow the 32-bit count of pending bytes
  (`BlobIo.ContinuousExtendsChain`, `BlobIo.MergeAndIssue`, `BlobIo.LegacyGapFails`).
- Cached and direct mode of RAFS v5 answer an index past the end with different errors
  (`DirectV5.IndexErrorsDiffer`), and a lookup in a file too: `ENOENT` and `EINVAL`.
- Loading a v5 image panics exactly if the parent of some inode is not a directory. This is for validated
  images in which every parent is loaded earlier, no two inodes share the number of a directory, and inodes
  without a parent are directories (`CachedV5.LoadFailsIff`, `CachedV5.FileAsParentFails`).

The comment on `prefetch_files` says that each inode passed should be a directory; the code also takes
files, and the model follows the code.

## Model

| member | source | states |
|---|---|---|
| `DirentV6.LERoundTrip` | rafs/src/metadata/layout/v6.rs:955-1008 | little-endian decoding of a dirent field inverts its encoding |
| `DirentV6.GetEntryReads` | rafs/src/metadata/direct_v6.rs:332-347 | `get_entry` reads back node number and name offset of every entry of an encoded block |
| `DirentV6.GetEntryIff` | rafs/src/metadata/direct_v6.rs:332-345 | exactly which dirents can be read: those of a known layout that lie in the image at an even offset |
| `DirentV6.NameLength` | rafs/src/metadata/direct_v6.rs:395-406 | the length scan stops at the first NUL or at the end |
| `DirentV6.EntryNameReads` | rafs/src/metadata/direct_v6.rs:349-411 | `entry_name` returns every stored name, by three length rules, except exactly the last entry of an exactly full last block |
| `DirentV6.HeadCountsEntries` | rafs/src/metadata/direct_v6.rs:546-550 | the first dirent's name offset gives the number of entries |
| `DirV6.BlockEnds` | rafs/src/metadata/direct_v6.rs:546-556 | the probe of a block reads its first and last name |
| `DirV6.FindTargetBlock` | rafs/src/metadata/direct_v6.rs:530-568 | the block search ends in the block that holds the name, or in one where its absence shows, unless it underflows, and underflows exactly under `Underflows` |
| `DirV6.SearchBlock` | rafs/src/metadata/direct_v6.rs:966-996 | the search inside the block opens what a scan of the whole directory finds, or says ENOENT |
| `DirV6.GetChildByName` | rafs/src/metadata/direct_v6.rs:960-996 | for every stored, sorted directory and every name: what a linear scan finds, opened, or ENOENT, or an underflow exactly under `Underflows`; ENOENT for an empty directory and an unknown layout |
| `DirV6.DashBelowDotUnderflows` | rafs/src/metadata/direct_v6.rs:560-561 | an image with a well-formed directory of "." and "..", on which looking up "-" underflows where a scan says ENOENT |
| `DirV6.FullDirectoryUnderflows` | rafs/src/metadata/direct_v6.rs:382-389 | images with a well-formed, exactly full one-block directory, on which every lookup underflows |
| `Readdir.WalkDelivers` | rafs/src/metadata/mod.rs:103-117 | a walk from offset k hands over the listing from entry k on, each tagged index plus one, up to the first call not answered Continue |
| `Readdir.SessionsListOnce` | rafs/src/fs.rs:368-406 | any pattern of Break and resume delivers every entry once and in order |
| `Readdir.UnstoppedSessionCompletes` | rafs/src/fs.rs:368-406 | a session that is not stopped delivers all that is left |
| `DirV6Walk.WalkChildren` | rafs/src/metadata/direct_v6.rs:894-954 | the v6 walk is the walk of the directory's listing from the given offset |
| `DirV6Walk.GetChildByIndex` | rafs/src/metadata/direct_v6.rs:1004-1046 | access by index finds the idx-th entry that is not a dot, or ENOENT |
| `DirV6Walk.GetChildCount` | rafs/src/metadata/direct_v6.rs:1048-1070 | the child count is the number of entries less two |
| `DirV6Walk.IndicesEnumerateListing` | rafs/src/metadata/direct_v6.rs:1004-1070 | with one "." and one "..", the indices below the child count enumerate the listing without the dots, and no other index succeeds |
| `BuildV6.PackKeepsEntries` | src/bin/nydus-image/core/node.rs:1161-1277 | packing into blocks loses, repeats and reorders nothing |
| `BuildV6.PackFits` | src/bin/nydus-image/core/node.rs:1161-1277 | every block is non-empty and within 4096 bytes |
| `BuildV6.SizeMatchesPacking` | src/bin/nydus-image/core/node.rs:958-965 | for entries in one order, the size rule grows in step with the blocks packed in that order |
| `BuildV6.WholeSize` | src/bin/nydus-image/core/node.rs:958-965 | for entries in one order, the size rule gives all blocks but the last plus what the last one uses |
| `BuildV6.ArrangedIs` | src/bin/nydus-image/core/bootstrap.rs:275-300 | what is written is sorted by name and holds the dots and the children, nothing else |
| `BuildV6.DotsFirstAgree` | src/bin/nydus-image/core/node.rs:950-968 | if no child sorts before "..", the recorded size is that of the written order |
| `BuildV6.OneBlockAgrees` | src/bin/nydus-image/core/node.rs:950-968 | so it is if everything fits one block |
| `BuildV6.WriteBlock` | src/bin/nydus-image/core/node.rs:1197-1222 | the bytes written for a block are its dirents followed by its names, with offsets that fit |
| `BuildV6.DumpDir` | src/bin/nydus-image/core/node.rs:1161-1277 | the blocks written are the encodings of the packed blocks |
| `BuildV6.AlignedSize` | rafs/src/metadata/layout/v6.rs:1873-1888 | the bytes of all xattrs: a header of 12, and every xattr with its entry header rounded up to four |
| `BuildV6.AlignedStep` | rafs/src/metadata/layout/v6.rs:1882-1884 | every xattr takes its four bytes of header and its own bytes, and less than four more |
| `BuildV6.XattrSizeReads` | rafs/src/metadata/direct_v6.rs:494-502 | the count recorded in the inode gives the reader the number of bytes that the builder wrote |
| `BuildV6.TailFoundIff` | rafs/src/metadata/direct_v6.rs:436-507 | the reader finds the last block where the builder wrote it exactly if the layout is plain or inode and xattrs end at a multiple of eight, and is four bytes late otherwise |
| `BuildV6.NidLeadsBack` | rafs/src/metadata/layout/v6.rs:1245-1247 | the number that the builder gives to an inode leads the reader back to its offset, and opens it exactly if all of it lies in the image |
| `BuildV6.DumpedReadsBackIff` | src/bin/nydus-image/core/node.rs:1161-1277 | the reader counts the blocks and reads every entry that the builder wrote exactly if inode and xattrs end at a multiple of eight or the layout is plain, and the size recorded with the dots in front has as many blocks as the written order, is at least its size, and is no multiple of 4096 |
| `BuildV6.SomeDump` | src/bin/nydus-image/core/node.rs:1161-1277 | every directory of the builder has an image that holds it as written |
| `BuildV6.SomeMisplaced` | src/bin/nydus-image/core/node.rs:950-968 | names below and above the dots that need two blocks in the recorded order and three in the written one |
| `BuildV6.LastEntryIsLost` | src/bin/nydus-image/core/node.rs:950-968 | for such names, in the plain layout, the recorded size has two blocks, and looking up the last name gives ENOENT although it was written |
| `BuildV6.PackedIsSorted` | src/bin/nydus-image/core/bootstrap.rs:275-300 | sorted children stay sorted across blocks |
| `BuildV6.LookupBuilt` | src/bin/nydus-image/core/node.rs:1161-1277 | where the tail is aligned and the recorded size is big enough, lookup in a built image finds exactly the entries the builder was given, or underflows exactly under `Underflows` |
| `BuildV6.LookupDefined` | rafs/src/metadata/direct_v6.rs:530-568 | names from the first entry on never underflow unless the last block is full |
| `BlobIo.PushKeepsVec` | storage/src/device.rs:545-551 | a push keeps size, width and blob of a vector consistent exactly if its assertions hold |
| `BlobIo.AppendKeepsVec` | storage/src/device.rs:554-560 | an append whose assertions hold keeps a vector well-formed, and no other append of descriptors does |
| `BlobIo.BlobIoVec.constructor` | storage/src/device.rs:536-542 | a new vector is empty and consistent |
| `BlobIo.BlobIoVec.PushDesc` | storage/src/device.rs:545-551 | the descriptor is added at the end, or an assertion fails exactly under `CanPush` |
| `BlobIo.BlobIoVec.AppendVec` | storage/src/device.rs:554-560 | the other vector's descriptors are moved to the end, or an assertion fails exactly under `CanAppend` |
| `BlobIo.BlobIoVec.Reset` | storage/src/device.rs:563-566 | the vector is emptied, its blob stays |
| `BlobIo.BlobIoRange.constructor` | storage/src/device.rs:729-746 | a range of one descriptor spans its chunk |
| `BlobIo.BlobIoRange.Merge` | storage/src/device.rs:749-773 | succeeds exactly if the chunk starts within the gap behind the range, which then spans from the first chunk's start to the new chunk's end, chunks and tags one to one |
| `BlobIo.SpanIsChunksPlusGaps` | storage/src/device.rs:749-765 | the size of a range is its chunk sizes plus the gaps |
| `BlobIo.ChainedIsDisjoint` | storage/src/device.rs:749-765 | merged chunks are ordered and do not overlap |
| `BlobIo.ContinuousExtendsChain` | storage/src/device.rs:495-508 | `is_continuous` justifies the assertion of `merge` exactly if the blob is not legacy stargz or the gap is within the limit |
| `BlobIo.Issue` | storage/src/cache/mod.rs:97-108 | issuing a group produces the range that spans it, or fails exactly if a gap is too wide |
| `BlobIo.MergeAndIssue` | storage/src/cache/mod.rs:79-131 | the chunks of the issued ranges are the descriptors' chunks, each once and in order; every range spans one gap-bounded group within the size limit, and neighbours are separate only for a reason; an assertion fails exactly if a group has too wide a gap or overflows the 32-bit count of pending bytes |
| `BlobIo.NoLegacyNeverFails` | storage/src/cache/mod.rs:112-131 | without legacy stargz blobs no group has too wide a gap, and if the size limit, the gap and a chunk together fit 32 bits no assertion fails |
| `BlobIo.LegacyGapFails` | storage/src/device.rs:495-508 | two chunks of a legacy stargz blob that the gap test admits to one group and `merge` refuses |
| `BlobIo.IssuedAt` | storage/src/cache/mod.rs:112-131 | what that says about the i-th issued range |
| `Tiling.ReadsFileBytes` | rafs/src/metadata/direct_v6.rs:639-698 | reading through descriptors that tile a range gives the bytes of the file, and nothing past the end |
| `Tiling.StaysInChunk` | rafs/src/metadata/direct_v6.rs:639-698 | no descriptor reaches beyond its chunk |
| `Tiling.NextPiece` | rafs/src/metadata/direct_v6.rs:677-686 | a further descriptor joins the open vector if it targets the same blob and opens a new one otherwise, and no assertion of `push` fires |
| `BioV6.AllocFirst` | rafs/src/metadata/direct_v6.rs:657-673 | the first descriptor covers the rest of its chunk or the whole request |
| `BioV6.AllocRest` | rafs/src/metadata/direct_v6.rs:674-695 | the loop tiles the rest with `left` zero at the end, or a chunk is unresolved, or the chunks run out and the final assertion fails |
| `BioV6.AllocBioVecs` | rafs/src/metadata/direct_v6.rs:639-698 | for every file and request: vectors that tile the clipped length from the wrapped position on, neighbours on different blobs; EINVAL exactly for an unresolved chunk among them, a failed assertion exactly if the chunks run out, and the outcomes before the first chunk |
| `BioV6.SmallFileOutcome` | rafs/src/metadata/direct_v6.rs:639-698 | for a file of fewer than 2^32 chunks and an offset in it nothing wraps and no assertion fails: the tiling starts at the offset, or a chunk is unresolved, or the image is invalid |
| `BioV6.WrappedReadsNothing` | rafs/src/metadata/direct_v6.rs:520 | a read of the first chunk of a file of 2^32 chunks gets no vectors |
| `BioV6.CoversWholeRangeIff` | rafs/src/metadata/direct_v6.rs:658 | for fewer than 2^32 chunks: the descriptors cover [offset, offset + size), cut at the end of the file, exactly if that is shorter than 4 GiB |
| `BioV5.AddChunkTo` | rafs/src/metadata/layout/v5.rs:1260-1309 | the open vector gets the overlap of the chunk with the range, nothing for a chunk before it, and an error for one beyond it |
| `BioV5.AllocBioVecs` | rafs/src/metadata/layout/v5.rs:1196-1247 | the loop computes `Alloc` |
| `BioV5.AddChunkBound` | rafs/src/metadata/layout/v5.rs:1260-1317 | a chunk adds at most the part of the range it advances over |
| `BioV5.AllocBounded` | rafs/src/metadata/layout/v5.rs:1196-1340 | for every file, holes or not: at most the requested bytes, consistent vectors, and an assertion only for 4 GiB or more |
| `BioV5.HoleFreeTiles` | rafs/src/metadata/layout/v5.rs:1196-1340 | without holes the descriptors tile exactly the clipped range, or a needed chunk is unresolved |
| `SparseV5.AllocFailsIff` | rafs/src/metadata/layout/v5.rs:1196-1340 | for every file an allocation fails with EINVAL exactly if the request wraps around or looks at a chunk of an unknown blob or one at or beyond its end, and otherwise holds at most the requested bytes |
| `SparseV5.FilledIff` | rafs/src/metadata/layout/v5.rs:1225-1246 | for every file with ordered chunks the first vector is missing or empty exactly if no chunk of the first run on one blob ends behind the offset, and otherwise no vector is empty |
| `SparseV5.FilledWeigh` | rafs/src/metadata/layout/v5.rs:1260-1309 | without empty chunks a vector with descriptors has bytes |
| `SparseV5.AllocReadsRuns` | rafs/src/metadata/layout/v5.rs:1225-1246 | vector i holds the overlaps of the i-th run of chunks on one blob with the range, in order |
| `SparseV5.AllocReads` | rafs/src/metadata/layout/v5.rs:1196-1309 | for every file, holes or not, the descriptors are the overlaps of the chunks looked at with the range, in order |
| `SparseV5.SparseReads` | rafs/src/metadata/layout/v5.rs:1319-1325 | with the hole flag these are the overlaps of all chunks of the file |
| `SparseV5.EmptyVecIff` | rafs/src/metadata/layout/v5.rs:1225-1309 | a vector has no bytes exactly if all chunks of its run that end behind the offset are empty |
| `SparseV5.HoleFreeIsHit` | rafs/src/metadata/layout/v5.rs:1319-1340 | a range inside a file without holes never misses the chunks |
| `SparseV5.HoleFreeFailsIff` | rafs/src/metadata/layout/v5.rs:1319-1340 | without holes an allocation fails exactly on an unknown blob among its chunks |
| `SparseV5.SparseTailIsMissed` | rafs/src/fs.rs:722-723 | a valid file with holes, a read of whose tail gives one empty vector |
| `SparseV5.SparseHeadFails` | rafs/src/metadata/layout/v5.rs:1272-1275 | a valid file with holes, a request for whose head fails |
| `Amplify.MergeInto` | rafs/src/metadata/md_v5.rs:114-124 | the vector is appended if it continues the last descriptor, and an assertion of `append` is reported |
| `Amplify.AppendVecs` | rafs/src/metadata/md_v5.rs:151-164 | one allocation is appended as `AppendAll` says |
| `Amplify.MergeKeepsBudget` | rafs/src/metadata/md_v5.rs:114-124 | a merge within the window trips no assertion and keeps the budget |
| `Amplify.FetchKeepsBudget` | rafs/src/metadata/md_v5.rs:148-164 | a request within the window fails exactly if the allocation does, and keeps the budget |
| `Amplify.RequestFits` | rafs/src/metadata/md_v5.rs:175-183 | no file is asked for more than the window |
| `Amplify.FilePhaseKeepsBudget` | rafs/src/metadata/md_v5.rs:146-165 | the rest of the same file keeps appended bytes plus window within the initial window, and fails exactly if its allocation does |
| `Amplify.ScanPhaseKeepsBudget` | rafs/src/metadata/md_v5.rs:167-206 | so does the scan of the following files, which fails exactly if the allocation of an inode it asks for does |
| `Amplify.AmplifyMore` | rafs/src/metadata/md_v5.rs:167-206 | the scan as a loop; it ends because inode numbers grow |
| `Amplify.AmplifyIo` | rafs/src/metadata/md_v5.rs:131-209 | only the last vector is replaced, and by what `Amplified` says; `ScanV5.AmplifiedVisits` states what that is |
| `Amplify.AmplifyKeepsBudget` | rafs/src/metadata/md_v5.rs:131-209 | the original descriptors stay in front, what follows is internal I/O on the same blob within the window, no assertion fires, and the result is EINVAL exactly if a requested allocation fails |
| `ScanV5.AppendAllTakes` | rafs/src/metadata/md_v5.rs:114-124 | each vector of an allocation on the same blob uses up the window, and is put behind the last vector if it continues it within the gap; one on another blob changes nothing |
| `ScanV5.ScanVisits` | rafs/src/metadata/md_v5.rs:167-206 | the inodes behind are visited one by one: a regular file is asked for all of it if it is smaller than the window, and otherwise for the whole chunks that fit; the scan ends exactly when window or tries are used up, the next inode is missing, does not fit or cannot be described |
| `ScanV5.AmplifiedVisits` | rafs/src/metadata/md_v5.rs:131-209 | amplification is what the rest of the file offers, and then such a scan with 64 tries and a gap of the 128th part of the size limit |
| `ScanV5.SmallFilesFollow` | rafs/src/metadata/md_v5.rs:175-203 | small files that lie behind one another in image and blob are all read along while window and tries last |
| `ReadPath.WindowArithmetic` | rafs/src/fs.rs:729-734 | for power-of-two chunk sizes the window starts at a chunk boundary or the end of the file, behind the user's bytes and less than a chunk behind them, without underflow |
| `ReadPath.ReadWindowIs` | rafs/src/fs.rs:729-735 | without masks: the window starts at the request's end rounded up to chunks, cut at the end of the file, and has what `amplify_io` leaves of the span from the first chunk on, if anything |
| `ReadPath.CheckVecs` | rafs/src/fs.rs:755-757 | the per-vector checks hold exactly if no vector is empty |
| `ReadPath.AllocUser` | rafs/src/fs.rs:720-723 | for every file: EINVAL exactly if the allocation fails, the assertion exactly if the range misses the chunks, and otherwise non-empty vectors within the request that tile it if there are no holes |
| `ReadPath.AmplifyRead` | rafs/src/fs.rs:725-752 | the user's vectors with the last one amplified over the window, or an error exactly if one of the allocations fails |
| `ReadPath.NonEmptyIff` | rafs/src/fs.rs:755-757 | no vector is empty exactly if none has only empty chunks, apart from a last one to which amplification added bytes |
| `ReadPath.PrepareRead` | rafs/src/fs.rs:707-757 | for every file, holes or not: aligned user span plus appended bytes stay within `amplify_io`; the read fails exactly on its own or an amplified allocation; its assertions fire exactly on a range that misses the chunks or on a vector without bytes, which empty chunks alone make; without holes the vectors cover exactly the requested bytes inside the file |
| `ReadPath.FileBehindFailsRead` | rafs/src/metadata/md_v5.rs:185-186 | a file without holes whose read fails because of the sparse file behind it |
| `AppendV5.AppendedChunksAreNew` | rafs/src/metadata/md_v5.rs:146-165 | for every validated file whose chunks have compressed bytes, holes or not, every descriptor that the file phase appends reads a later chunk than every descriptor of the user |
| `AppendV5.HolePhaseAppendsNothing` | rafs/src/metadata/md_v5.rs:146-165 | after a read of a file with the hole flag the file phase appends nothing, unless the last chunk reaches into the window and has no compressed bytes |
| `AppendV5.HolePhaseRepeatsEmpty` | rafs/src/metadata/md_v5.rs:114-124 | in that case the last chunk of the user is appended once more |
| `Prefetch.CollectsEachOnce` | rafs/src/metadata/cached_v5.rs:403-426 | the descendants collected are the non-empty files of the tree, each as often as it occurs |
| `Prefetch.CollectOrder` | rafs/src/metadata/cached_v5.rs:403-426 | first the files of the directory in order, then those below each subdirectory, one after the other |
| `Prefetch.CollectDescendants` | rafs/src/metadata/cached_v5.rs:403-426 | collects these in that order; ENOTDIR for a file |
| `Prefetch.AddConserves` | storage/src/device.rs:625-650 | one vector: sent plus pending grows by its descriptors, and pending stays within 16 MiB and 1024 descriptors |
| `Prefetch.RoomyNeverFails` | storage/src/device.rs:554-560 | vectors below 4 GiB less 16 MiB never trip the assertion of `append` |
| `Prefetch.SafeInEveryStateIff` | storage/src/device.rs:554-560 | a vector can be appended in every state exactly if it is below that bound |
| `Prefetch.OversizeFails` | storage/src/device.rs:554-560 | any other trips the assertion in a state one step away from the empty one |
| `Prefetch.HardlinksOnce` | rafs/src/metadata/mod.rs:730-737 | a hardlinked inode contributes once, any other as often as it is listed |
| `Prefetch.TargetsAsAsked` | rafs/src/metadata/mod.rs:750-779 | the inodes taken for a list are the non-empty files below its directories and its non-empty regular files, each as often as it occurs |
| `Prefetch.PrefetchSucceedsIff` | rafs/src/metadata/mod.rs:698-779 | a list succeeds exactly if every inode is known, every allocation succeeds and no assertion of `append` fires |
| `Prefetch.DataConserves` | rafs/src/metadata/mod.rs:750-779 | without an error, sent plus pending is what was allocated, per blob and in order |
| `Prefetch.DataLeaves` | rafs/src/metadata/mod.rs:750-779 | what is pending of a blob at the end is a fold over the allocated vectors |
| `Prefetch.PrefetchConserves` | rafs/src/metadata/mod.rs:689-710 | after the drain the batches of a blob are its allocated descriptors exactly if that fold does not leave empty descriptors only |
| `Prefetch.FourGiBFileIsLost` | rafs/src/metadata/direct_v6.rs:658 | the one descriptor of a v6 file of exactly 4 GiB is allocated and never handed over |
| `Prefetch.NonEmptyAllArrive` | rafs/src/metadata/mod.rs:689-710 | with no empty descriptor they always are |
| `Prefetch.BlobIoMerge.constructor` | storage/src/device.rs:618-623 | nothing pending, nothing sent |
| `Prefetch.BlobIoMerge.AppendVec` | storage/src/device.rs:626-639 | appends to the vector of the blob, or fails where `BlobIoVec::append` would |
| `Prefetch.BlobIoMerge.FetchVec` | rafs/src/fs.rs:534-549 | the fetcher hands over a vector above a threshold, or any non-empty one at the end, and resets it |
| `Prefetch.BlobIoMerge.AddVecs` | rafs/src/metadata/mod.rs:740-745 | append and fetch for each vector in turn |
| `Prefetch.BlobIoMerge.PrefetchNode` | rafs/src/metadata/mod.rs:723-748 | one inode, hardlinks skipped |
| `Prefetch.BlobIoMerge.PrefetchNodes` | rafs/src/metadata/mod.rs:766-768 | inodes in turn up to the first error |
| `Prefetch.BlobIoMerge.PrefetchList` | rafs/src/metadata/mod.rs:750-779 | the file list up to the first error |
| `Prefetch.BlobIoMerge.Drain` | rafs/src/metadata/mod.rs:706-708 | whatever the order, every pending vector with bytes is handed over |
| `Prefetch.BlobIoMerge.PrefetchFiles` | rafs/src/metadata/mod.rs:689-710 | asks for every non-empty file below a listed directory and every listed non-empty regular file, as often as they occur; succeeds exactly if all are known, allocated and appended; then the device has received per blob exactly what was allocated for them, hardlinks once, under the same exact condition |
| `Prefetch.RangeRequests` | rafs/src/fs.rs:513-525 | the requests cut [0, size) into consecutive pieces of 1 MiB, only the last one shorter |
| `CachedV5.SortKeeps` | rafs/src/metadata/cached_v5.rs:348-354 | sorting a child list gives a name-ordered permutation |
| `CachedV5.HashKeeps` | rafs/src/metadata/cached_v5.rs:117-133 | after `hash_inode` the handles are counted right: one for the caller, one more exactly if the map refers to the inode |
| `CachedV5.HardlinkKeepsData` | rafs/src/metadata/cached_v5.rs:122-129 | a hardlinked inode with data keeps its place in the map |
| `CachedV5.LoadOneKeeps` | rafs/src/metadata/cached_v5.rs:68-99 | loading the next inode succeeds and keeps the ownership invariant |
| `CachedV5.AttachDirKeeps` | rafs/src/metadata/cached_v5.rs:101-104 | so does attaching the next directory in reverse order |
| `CachedV5.LoadIsSafeAndComplete` | rafs/src/metadata/cached_v5.rs:65-139 | for every well-formed image `get_mut` never fails, every inode is in exactly its parent's list, once, and with correct counts every list is a name-sorted permutation of the children |
| `CachedV5.MaxInode` | rafs/src/metadata/cached_v5.rs:118-120 | the recorded maximum is the maximum of the image |
| `CachedV5.MaxInoBounds` | rafs/src/metadata/cached_v5.rs:118-120 | what that maximum is |
| `CachedV5.LoadedIsSane` | rafs/src/metadata/cached_v5.rs:358-389 | an image that loads has valid inodes only: numbered, named, below a smaller number unless linked, and consistent with their kind |
| `CachedV5.InsaneIsRefused` | rafs/src/metadata/cached_v5.rs:358-389 | the first inode that is not valid ends loading with EINVAL |
| `CachedV5.HashTakesOver` | rafs/src/metadata/cached_v5.rs:117-133 | a number is taken over by the next inode that has it, except by a link to an inode with data |
| `CachedV5.LoadFailsIff` | rafs/src/metadata/cached_v5.rs:65-139 | for every valid image with unshared directory numbers, directories as roots and parents loaded earlier: the unwrap fails exactly if some parent is not a directory |
| `CachedV5.FileAsParentFails` | rafs/src/metadata/cached_v5.rs:135-139 | the smallest such image |
| `CachedV5.NumbersStay` | rafs/src/metadata/cached_v5.rs:117-133 | every number of the image is in the map at the end |
| `CachedV5.CachedSuperBlock.constructor` | rafs/src/metadata/cached_v5.rs:52-60 | nothing loaded, the maximum is the root |
| `CachedV5.CachedSuperBlock.Hash` | rafs/src/metadata/cached_v5.rs:117-133 | the map and the counts after `hash_inode` |
| `CachedV5.CachedSuperBlock.AddToParent` | rafs/src/metadata/cached_v5.rs:135-139 | the handle moves into the parent's list, is dropped, or the unwrap fails |
| `CachedV5.CachedSuperBlock.LoadInode` | rafs/src/metadata/cached_v5.rs:88-98 | one turn of the first loop |
| `CachedV5.CachedSuperBlock.LoadInodes` | rafs/src/metadata/cached_v5.rs:65-99 | the first loop and the directories it remembers |
| `CachedV5.CachedSuperBlock.AttachInode` | rafs/src/metadata/cached_v5.rs:101-104 | one turn of the second loop |
| `CachedV5.CachedSuperBlock.AttachInodes` | rafs/src/metadata/cached_v5.rs:101-104 | the second loop, last directory first |
| `CachedV5.CachedSuperBlock.LoadAllInodes` | rafs/src/metadata/cached_v5.rs:65-107 | both phases; for well-formed images it succeeds and the tree is complete |
| `DirectV5.LayoutIsSound` | rafs/src/metadata/direct_v5.rs:174-225 | a layout that passes keeps all tables inside the file and apart from each other, and bounds the inode table |
| `DirectV5.LayoutAcceptedIff` | rafs/src/metadata/direct_v5.rs:174-225 | exactly which layouts pass |
| `DirectV5.MappedIsSane` | rafs/src/metadata/direct_v5.rs:419-478 | exactly which mapped inodes pass validation; regular files of a chunk dictionary never do |
| `DirectV5.TableRoundTrip` | rafs/src/metadata/layout/v5.rs:390-417 | an offset that can be set is read back, and no other entry changes; the others are refused with EINVAL |
| `DirectV5.TableGetIff` | rafs/src/metadata/layout/v5.rs:406-417 | exactly which entries can be read, and the two errors |
| `DirectV5.GetChildByName` | rafs/src/metadata/direct_v5.rs:626-660 | the 32-bit search gives what a scan gives, and no signed sum overflows |
| `DirectV5.CachedGetChildByName` | rafs/src/metadata/cached_v5.rs:560-566 | the search of the loaded list gives what a scan gives |
| `DirectV5.WalkChildren` | rafs/src/metadata/direct_v5.rs:582-620 | the v5 walk, the same in both modes, is the walk of ".", ".." and the children |
| `DirectV5.LoadedInOrder` | rafs/src/metadata/cached_v5.rs:348-354 | a loaded child list is the directory's contiguous part of the image, in order |
| `DirectV5.ModesAgree` | rafs/src/metadata/direct_v5.rs:626-684 | both modes enumerate the same children in the same order |
| `DirectV5.IndexErrorsDiffer` | rafs/src/metadata/direct_v5.rs:666-684 | by index both modes agree below the count and differ in the error above it |
| `DirectV5.LookupBothWays` | rafs/src/metadata/cached_v5.rs:560-566 | lookup by name gives the same answer in both modes |
| `DirectV5.WalkBothWays` | rafs/src/metadata/cached_v5.rs:510-558 | the walk makes the same calls in both modes |
| `Traversal.RafsIterator.constructor` | rafs/src/lib.rs:241-258 | the whole tree is to come, or nothing without a root |
| `Traversal.RafsIterator.PushChildren` | rafs/src/lib.rs:268-279 | the children are to come first, in order |
| `Traversal.RafsIterator.Next` | rafs/src/lib.rs:266-282 | `next` yields the head of what is to come and leaves the rest |
| `Traversal.Iterate` | rafs/src/lib.rs:239-283 | the iterator ends and yields the depth-first order of what can be accessed |
| `Traversal.WalkDirectory` | rafs/src/metadata/mod.rs:862-881 | the recursive walk as `Walk` defines it |
| `Traversal.WalkIsPrefix` | rafs/src/metadata/mod.rs:862-881 | it visits a prefix of that order, and all of it exactly if no access fails and the callback never objects |
| `Traversal.IterateAndWalk` | rafs/src/lib.rs:239-283 | without failing accesses iterator and walk produce the same inodes and paths |
| `Traversal.ItemPath` | rafs/src/lib.rs:239-283 | the path of every item is absolute and splits into the names on the way from the root to it |
| `Paths.ParseRelative` | rafs/src/metadata/mod.rs:641-650 | splitting joined names gives the names back |
| `Paths.ComponentsLaws` | rafs/src/metadata/mod.rs:641-650 | for all paths: a slash separates, empty parts and "." vanish, and everything else is a component |
| `Paths.ParseAbsolute` | rafs/src/metadata/mod.rs:641-650 | splitting an absolute path gives its names, the last one included |
| `Paths.JoinBelow` | rafs/src/lib.rs:273-277 | joining a name to an absolute path adds one component, at the root and below it |
| `Paths.PathFromIno` | rafs/src/metadata/mod.rs:802-824 | the path is the names from the root down, each followed by a slash, or the first error on the way up |
| `Paths.InoFromPath` | rafs/src/metadata/mod.rs:633-673 | relative paths are refused, "/" is the root, anything else is resolved name by name |
| `Paths.RoundTrip` | rafs/src/metadata/mod.rs:802-824 | the path of an inode resolves to where its names resolve to |
| `Paths.LinkedResolves` | rafs/src/metadata/mod.rs:802-824 | the inode itself, if every inode on the way up is found by name in its parent |
| `PathsV5.Lookup` | rafs/src/metadata/cached_v5.rs:560-566 | the binary search in a loaded image gives the lookup of the file system |
| `PathsV5.WayUpEnds` | rafs/src/metadata/cached_v5.rs:363-371 | the validated parent numbers make the loop over parents end |
| `PathsV5.ParentFinds` | rafs/src/metadata/cached_v5.rs:153-161 | in a loaded image with unique names every parent finds its child by name |
| `PathsV5.RoundTripV5` | rafs/src/metadata/mod.rs:802-824 | for every well-formed v5 image with unique names the path of every inode, hardlinks included, resolves to its number |
| `PathsV6.Lookup` | rafs/src/metadata/direct_v6.rs:960-996 | the lookup in the image gives the lookup of the file system |
| `PathsV6.GetParent` | rafs/src/metadata/direct_v6.rs:570-575 | the parent is what ".." leads to, or an underflow |
| `PathsV6.GetName` | rafs/src/metadata/direct_v6.rs:577-598 | the name is that of the first readable entry of the parent with the inode's number |
| `PathsV6.GetExtendedInode` | rafs/src/metadata/direct_v6.rs:237-257 | the root, a directory with parent and name, or ENOENT |
| `PathsV6.PathOutcome` | rafs/src/metadata/direct_v6.rs:570-598 | the names of a directory resolve to it, or a lookup on the way underflows |
| `PathsV6.RoundTripV6` | rafs/src/metadata/mod.rs:802-824 | for every tree of v6 directories the path of a directory resolves to it exactly if no lookup on the way underflows; other inodes have none |
| `PathsV6.NoneFullIsClear` | rafs/src/metadata/direct_v6.rs:382-389 | without an exactly full directory none does |
| `ScatterGather.Write` | storage/src/utils.rs:74-77 | the contract of the destination slice: as much as fits, an error at the end |
| `ScatterGather.WriteOnce` | storage/src/utils.rs:67-85 | one write and the cursor after it |
| `ScatterGather.CopyBuffer` | storage/src/utils.rs:66-94 | one source buffer lands at the cursor, nothing else changes, and it ends where `Land` says |
| `ScatterGather.LandsIff` | storage/src/utils.rs:66-94 | for any destination buffers the bytes of one source buffer can be written exactly if no empty destination buffer and no end is in their way, and which of the two errors it is otherwise |
| `ScatterGather.Copyv` | storage/src/utils.rs:43-98 | on success exactly the wanted bytes are in place, all others unchanged and the cursor advanced by as much; for any buffers their lengths tell by `LandAll` whether it succeeds, where it ends and with which error; for non-empty ones it succeeds exactly under `HasRoom` |
| `ScatterGather.SolidLandsAll` | storage/src/utils.rs:63-95 | between non-empty buffers it gets through the first i source buffers exactly if there is room left when the last of them is reached and enough for its bytes |
| `ScatterGather.ContributedLand` | storage/src/utils.rs:63-95 | if every source buffer contributes bytes, it succeeds exactly if all bytes go between the start and the next empty buffer |
| `ScatterGather.MoreRoomSuffices` | storage/src/utils.rs:43-98 | more room than bytes is enough |
| `ScatterGather.ExactFitCanFail` | storage/src/utils.rs:69-71 | just enough room is not |
| `ScatterGather.PosIsUnique` | storage/src/utils.rs:43-98 | between non-empty buffers the position determines the cursor |
| `ScatterGather.CoveredBytes` | storage/src/utils.rs:144-181 | the slices handed out hold the bytes of the flat range |
| `ScatterGather.AdvancePos` | storage/src/utils.rs:118-141 | the cursor moves by the size or to the end |
| `ScatterGather.MemSliceCursor.constructor` | storage/src/utils.rs:109-115 | a new cursor is at position 0 |
| `ScatterGather.MemSliceCursor.MoveCursor` | storage/src/utils.rs:118-141 | moves forward by the size or to the end |
| `ScatterGather.MemSliceCursor.Consume` | storage/src/utils.rs:144-181 | moves as `move_cursor` does, and the slices cover exactly what it skips |
| `InodeBitmap.ExactIsUnique` | utils/src/inode_bitmap.rs:94-128 | a set has only one list of maximal ranges |
| `InodeBitmap.ToVec` | utils/src/inode_bitmap.rs:94-128 | the export loop folds over the inodes in ascending order |
| `InodeBitmap.ExportIsExact` | utils/src/inode_bitmap.rs:94-128 | the exported list is the ascending list of maximal, disjoint, non-adjacent ranges of the set, across word boundaries, each shown by its first and last number |
| `InodeBitmap.Bitmap.constructor` | utils/src/inode_bitmap.rs:33-36 | the set is empty |
| `InodeBitmap.Bitmap.Set` | utils/src/inode_bitmap.rs:51-65 | adds the inode |
| `InodeBitmap.Bitmap.IsSet` | utils/src/inode_bitmap.rs:67-74 | tells membership |
| `InodeBitmap.Bitmap.Clear` | utils/src/inode_bitmap.rs:76-83 | removes the inode |
| `InodeBitmap.Bitmap.ClearAll` | utils/src/inode_bitmap.rs:85-92 | empties the set and keeps the words |
| `InodeBitmap.Bitmap.ToArray` | utils/src/inode_bitmap.rs:130-136 | exports the exact ranges, first number first, and empties the set if asked to |
| `InodeBitmap.NothingLost` | utils/src/inode_bitmap.rs:51-65 | in every interleaving of `set` with clearing exports, an inode was ever set exactly if it still is or some export reported it |
| `InodeBitmap.ReportedOncePerSet` | utils/src/inode_bitmap.rs:134-136 | in every such interleaving no set is reported twice: an inode has at most as many reports as it was set, and fewer if it still is |
| `Mpmc.RunKeepsInv` | utils/src/mpmc.rs:39-95 | the invariants hold in every reachable state of every run |
| `Mpmc.NoLostWakeup` | utils/src/mpmc.rs:47-86 | while messages wait and a receiver is parked, a sender has yet to notify, or another receiver holds a notification or has yet to look |
| `Mpmc.WakesAtMostOne` | utils/src/mpmc.rs:47-56 | in every run a `notify_one` wakes at most one receiver: the wake-ups used and on their way are no more than the calls |
| `Mpmc.CloseWakesAll` | utils/src/mpmc.rs:39-42 | once a close has finished, no receiver is asleep |
| `Mpmc.NotifyAllReaches` | utils/src/mpmc.rs:103-105 | in every run `notify_waiters` reaches every `recv` in progress, registered or not: it does not sleep before its next future |
| `Mpmc.QuiescentMeansDrained` | utils/src/mpmc.rs:63-86 | when nothing can move, an unfinished receiver means an empty, open channel |
| `Mpmc.Conservation` | utils/src/mpmc.rs:47-95 | accepted messages are the disjoint union of received, flushed and queued ones, in order |
| `Mpmc.FlushTakesSelected` | utils/src/mpmc.rs:90-95 | a flush takes exactly the queued messages that its predicate selects; all others stay queued, in order |
| `Mpmc.TakesOldest` | utils/src/mpmc.rs:58-60 | a look at the queue takes the oldest message, if there is one |
| `Mpmc.DeliveredOnce` | utils/src/mpmc.rs:58-86 | no message is delivered to two receivers |
| `Mpmc.FailsOnlyWhenDrainedThenClosed` | utils/src/mpmc.rs:71-76 | a receiver fails only after it saw the queue empty and, as its next step, the flag up |
| `Mpmc.SendAfterCloseIsRejected` | utils/src/mpmc.rs:47-56 | a send that starts when the channel has been closed is never admitted |
| `Mpmc.OpenRejectsNothing` | utils/src/mpmc.rs:47-56 | while the channel is open no send is rejected |
| `Mpmc.HoldsItsMessage` | utils/src/mpmc.rs:47-56 | a send call holds the message it was given, and gives it back when it is rejected |

## Left out

- HTTP API, configuration, blobfs, logging and command-line tools: plumbing around the modelled core.
- Blob caches and backends, compression, digests and digest validation: opaque to the modelled code.
- The mapped file as raw memory: the image is a byte sequence or a table of decoded inodes with bounds-checked access; range checks of single inodes in the v5 image are not modelled.
- On-disk inode structures of v5 and v6 beyond the fields used: decoding them would only add easy members.
- `prefetch_data_v5` and `prefetch_data_v6`: only the list-driven prefetch and the range requests are modelled.
- `read_to` on the device and the accumulation of its results in `read`: the model ends where the vectors are handed over.
- `collect_descendants_inodes` in direct mode, whose child accesses can fail.
- Weak memory ordering: atomics and locks are sequentially consistent steps.
- Metrics, tracing and error messages.
- BlobIo.MergeAndIssue: chunk ends are 64-bit numbers, and the sum of gap and chunk size follows a build with overflow checks.
- BioV6.AllocBioVecs: for blobs that share an index nothing is stated; the subtraction of chunk indices follows a build with overflow checks.
- BioV5.AllocBioVecs: an empty request follows the release build; the debug assertion on empty ranges is not modelled.
- BuildV6.DumpedReadsBackIff: that a misaligned tail is lost is stated for node numbers below 2^32; larger ones could by chance read right four bytes late.
- BioV5.HoleFreeTiles: a file with holes has no tiling; `SparseV5.AllocReads`, `AllocFailsIff` and `FilledIff` state what holds for it.
- ReadPath.PrepareRead: for a power-of-two chunk size; sums are not wrapped beyond the 64-bit check that the code makes; whether amplification adds bytes to a vector without any is told by the specification of `amplify_io`.
- AppendV5.AppendedChunksAreNew: chunk counts are as validation demands for files without the hole flag (rafs/src/metadata/cached_v5.rs:374), below 2^32; chunks without compressed bytes are excluded, because the last one of a file with holes can be appended again.
- CachedV5.SortKeeps: does not state that the sort is stable, which matters only for equal names.
- CachedV5.LoadIsSafeAndComplete: parents must be directories loaded earlier and directory numbers unshared, as breadth-first images have them.
- CachedV5.LoadFailsIff: an inode without a parent must be a directory; a file in its place is not shared, and could take children.
- DirectV5.GetChildByName: for readable children in ascending order; a child that fails validation ends the search with its error.
- Paths.PathFromIno: parents have a smaller rank; a cyclic chain of parents would not end.
- PathsV5.RoundTripV5: stated for the loaded image; the mapped one answers the same lookups (`DirectV5.ModesAgree`).
- PathsV6.RoundTripV6: the directories form a tree with "." and ".." in place; on-disk inodes are given decoded, and a ".." that leads to a file is not modelled.
- ScatterGather.Copyv: destination buffers are distinct and do not overlap the source, which is given by value.
- Mpmc.RunKeepsInv: `recv` is modelled up to cancellation, and the notifier by its documented behaviour; the order in which it wakes the waiters is not used.
- Names are byte strings; path prefixes of other platforms do not occur.
