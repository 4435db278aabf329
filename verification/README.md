# Datamon, modelled and proved in Dafny

Datamon keeps versioned file sets in write-once object storage. This project models the parts of it whose
correctness is not visible in any one function, and proves what they promise: over every run, every input
and every order in which concurrent work completes.

`dafny verify dfyconfig.toml` checks the whole project.

## What is modelled

**Diamonds** (`Names`, `Merge`, `MergeOrder`, `DiamondProtocol`, `DiamondListing`, `DiamondOutcome`,
`DiamondProgress`). Many nodes upload *splits*,
a coordinator merges their file lists into one bundle, and the only synchronisation is the order of writes
and puts that never overwrite. The protocol is a transition system with any number of splitters, committers
and cancelers, in any interleaving, with a crash at any step. The merge is the source's loop, over any
arrival order, in its four conflict modes. `DiamondOutcome` joins the two: what a committed diamond's bundle
holds, in terms of what the splits uploaded. `DiamondListing` joins the protocol with the paged listing that a
commit collects its splits from. `DiamondProgress` says what can be done from every reachable state, and what is
refused for good.

**Content-addressed files** (`Cafs`, `CafsWriter`, `CafsReader`, `CafsReadAt`, `CafsWriteTo`, `CafsPut`,
`LeafCache`, `LeafCacheLimits`). The chunking writer with parallel flushes, the blob behind a root key, the three
readers, and the cache of pinned leaf buffers with its latch, its order of use and its free list. Hashes are function values: the only thing ever assumed
of them is that particular pieces do not collide. A store read may return fewer bytes than asked for, and the
end with or after the last bytes.

**The read-only file system** (`FuseTree`). A flat list of names becomes inodes and four indexes that have to
agree.

**Purge** (`PurgeMark`, `PurgeMarkLimits`, `PurgeUpload`, `PurgeSweep`). Concurrent scanners, one for each repo, mark the
keys in use, chunks of the index are streamed and loaded back, and the sweep deletes what is neither indexed nor newer.

**Lists, listings, differences and paths** (`Chunking`, `FileList`, `IndexIterators`, `Listing`,
`MetadataListing`, `BundleDiff`, `Paths`). Loops and parsers, over all inputs and all arrival orders.

## Where the code falls short of its promise

Each of these is a proved statement: the exact condition under which the promise holds, or a failing case, or both.

- Which version stays at a path after a merge depends on arrival order unless one version wins
  (`MergeOrder.StableIffWinner`); the newest can be lost (`MergeOrder.NewestMayBeLost`).
- A name that is not clean can land in another split's conflict location (`Names.JoinVerbatim`,
  `Names.JoinCollides`).
- A `Write` of more than a leaf spins for ever or slices out of range (`CafsWriter.WriteReturnsIff`). So `Put` returns
  exactly if its source hands over no piece longer than a leaf (`CafsPut.Put`): a source with a `WriteTo` of its own
  that writes everything at once must fit a leaf, and a plain one needs leaves no smaller than the copy buffer of
  `io.Copy`, or content that fits.
- `Read` indexes an empty key list when the file is empty (`CafsReader.ChunkReader.Read`), and it returns the
  bytes of a leaf before the leaf is checked (`CafsReader.BytesBeforeTheCheck`). Only reading to the end says
  that all bytes were checked (`CafsReader.ReadChecked`); before that, all but those of the leaf in progress
  (`CafsReader.DeliveredSoFar`).
- `WriteTo` copies whatever the blobs hold: the destination gets the content exactly if every stored leaf is the
  original (`CafsWriteTo.WriteToAny`, `CafsWriteTo.CorruptLeafIsCopied`).
- `ReadAt` slices out of range between the end of a file and the end of its last leaf's slot
  (`CafsReadAt.ReadAtStored`).
- The latch that a call holds from its cache lookup to its pin keeps other lookups out, but additions and the evictions
  they cause do not take it. A run stays safe exactly until a buffer is put on the free list that a call has found and
  not pinned yet (`LeafCache.UndisturbedRunIsSafe`, `LeafCacheLimits.DisturbanceIsFatal`). Every run is safe, and every
  call returns its window in every run, exactly if the cache has a slot for every leaf in the store
  (`LeafCacheLimits.SafeIffRoomy`). With one leaf more, a call for any leaf can return the bytes of any other
  (`LeafCacheLimits.WrongBytes`): although the leaf it found is the most recently used, calls that missed before it
  looked can add as many leaves as there are slots before it pins.
- Skipping a root that is already indexed is harmless exactly if a root that is also a leaf of another file has no
  leaves, or is always visited before that file's keys are stored: it is in the same or an earlier bundle of the
  repo, or in an earlier context, or in at least as many repos started before as are scanned at a time
  (`PurgeMarkLimits.CompleteIffHarmless`, `PurgeMarkLimits.SharedRootIsMissed`). Roots and leaves are hashed at
  different node depths, so a key that is both takes a hash collision, or metadata made by hand.
- A blob written while the sweep runs is lost exactly if the sweep had looked its key up and decided to delete it
  before the upload (`PurgeSweep.UploadSurvivesIff`). No upload can be lost exactly if the sweep has nothing to delete
  (`PurgeSweep.UploadsKeptIff`).
- A blob that an upload finds and trusts is not written again, and keeps its time. The sweep deletes it if it is old, not
  indexed and yet to be looked up, so a bundle put after the scan does not protect the old blobs it reuses
  (`CafsPut.Put`, `Cafs.DuplicateIsNotWritten`, `PurgeSweep.ReusedBlobGoes`).
- If the attributes of a blob cannot be looked up, the error is dropped and the blob counts as old: it is deleted
  although it is newer than the index (`PurgeSweep.Sweeper.CheckKey`, `PurgeSweep.UploadSurvivesIff`).
- With a chunk size of zero the index upload ends with nothing uploaded (`PurgeUpload.UploadRest`).
- A listing stops at the first page that is empty after filtering (`Listing.FetchKeys`), such as a page of a split's
  index files only; a commit then misses splits that were done in time, and misses none if its pages have no such
  gap (`MetadataListing.IndexFilesHideSplits`, `DiamondListing.ListedInTimeIsCommitted`). An object that has only its
  final descriptor is not listed (`Listing.ListedFor`).
- The walk over one split's index files follows the iterator over splits when that moves on
  (`IndexIterators.WalkAfterNext`); the download loop never lets that happen (`IndexIterators.DownloadAll`).
- A bundle identifier that contains `-bundle-files-`, or an index of 2^63 or more, does not survive the round
  trip through a consumable path (`Paths.DescriptorRoundTrip`, `Paths.FileListRoundTrip`).
- Reading the root directory of an empty bundle reports that there is no such entry (`FuseTree.Mount`), and a file
  without a hash opens as a directory (`FuseTree.OpensIffDir`).

The comment in `pkg/core/purge.go:545` says that an indexed root "necessarily" has all its leaves in the
store. While scanners run it does not: a missing leaf is then still pending in a live scanner, which is the
invariant proved here.

## Model

| member | source | states |
|---|---|---|
| `Names.JoinVerbatim` | pkg/model/diamond.go:307-315 | joining a special root, a split and a name keeps all three as they are exactly if the split is a proper component and the name is clean |
| `Names.JoinInjective` | pkg/model/diamond.go:307-315 | clean files and proper splits that share a special location are the same |
| `Names.JoinCollides` | pkg/model/diamond.go:307-315 | a name that climbs out of its directory shares a location with another split's file |
| `Names.JoinIsClean` | pkg/model/diamond.go:307-315 | for any names, the joined path is clean, and leads as deep as its parts do together |
| `Merge.DefaultSeparates` | pkg/model/diamond.go:307-315 | the built-in conflict and checkpoint locations lie outside all uploadable names and are distinct for distinct splits and files |
| `Merge.DefaultLocations` | pkg/core/diamond.go:53-67 | for clean names the built-in location is `.conflicts/{split}/{path}` in conflicts mode and `.checkpoints/{split}/{path}` in checkpoints mode |
| `Merge.PanicsIff` | pkg/core/diamond_commit.go:268-329 | a turn of the loop panics exactly at a file without a time that conflicts, and gives up exactly in forbid mode at one from another split |
| `Merge.MergeBatch` | pkg/core/diamond_commit.go:258-334 | the inner merge loop carries on the merge of everything that arrived before, and stops where that fails |
| `Merge.MergeSplits` | pkg/core/diamond_commit.go:235-353 | the merge loop over batches computes the merge of the arrival sequence, or fails where that does |
| `Merge.SlotIsFree` | pkg/core/diamond_commit.go:299-323 | the special location a new arrival may write to is neither a path that arrived nor taken already |
| `Merge.MergeOneKeeps` | pkg/core/diamond_commit.go:258-334 | one turn of the loop keeps: every hash held, every entry accounted for, keys equal names, entries counted by paths and conflicts |
| `Merge.MergeLosesNothing` | pkg/core/diamond_commit.go:251-353 | in conflicts and checkpoints modes, for every arrival order, the merge succeeds, every uploaded hash of a path is at the path or in a special location of it, every entry comes from an input under a key equal to its name, and there is one entry for each path and each conflict |
| `Merge.OwnVersionsNeverConflict` | pkg/core/diamond_commit.go:282-310 | versions of a path that one split lists never conflict: every mode merges them as ignore mode does, without a conflict |
| `MergeOrder.ForbidIffAgree` | pkg/core/diamond_commit.go:273-333 | in forbid mode the merge succeeds exactly if splits that list a path agree on its hash, and then gives exactly the union without conflicts |
| `MergeOrder.IgnoreHolds` | pkg/core/diamond_commit.go:258-333 | in ignore mode each path holds the fold of its own versions in arrival order |
| `MergeOrder.DeconflictHolds` | pkg/core/diamond_commit.go:258-333 | so it does in conflicts and checkpoints modes, the special locations notwithstanding |
| `MergeOrder.StableIffWinner` | pkg/core/diamond_commit.go:258-333 | the hash left at a path is the same for all arrival orders exactly if one version beats all versions with other hashes |
| `MergeOrder.NewestStays` | pkg/core/diamond_commit.go:258-333 | if versions differ pairwise in hash and time, the newest stays for every order |
| `MergeOrder.NewestMayBeLost` | pkg/core/diamond_commit.go:268-308 | with equal hashes it need not: two orders of the same three versions leave different files |
| `MergeOrder.HeadTimeGrows` | pkg/core/diamond_commit.go:276-333 | the timestamp held at a path never decreases |
| `MergeOrder.IgnoreIsOrderFree` | pkg/core/diamond_commit.go:258-333 | in ignore mode the files kept do not depend on the order, if versions of a path differ pairwise |
| `DiamondProtocol.StepKeepsInv` | pkg/core/diamond_commit.go:28-218 | every step of every splitter, committer and canceler, and a crash of any of them, keeps the protocol invariant |
| `DiamondProtocol.RunKeepsInv` | pkg/core/diamond_commit.go:116-218 | it holds in every reachable state, and stored records never change |
| `DiamondProtocol.TerminalRecordIsFinal` | pkg/core/diamond.go:114-127 | a terminal diamond record is done or canceled and is the same in all later states |
| `DiamondProtocol.CommittedBundleIsComplete` | pkg/core/diamond_commit.go:116-218 | a done record names a bundle whose descriptor is stored with a count, and exactly the index files below that count are, with the merged entries |
| `DiamondProtocol.FinishedSplitIsOneAttempt` | pkg/core/split.go:94-235 | the index files of a finished split's generation are exactly and completely those of the attempt that wrote the done record |
| `DiamondProtocol.ReadFindsList` | pkg/core/index_iterators.go:147-161 | an index file a committer goes to read is there and is a file list |
| `DiamondProtocol.DoneInTimeIsCommitted` | pkg/core/diamond_commit.go:69-88 | from a state in which a split is done and every committer that is listing is bound to list it, every later commit of a run without listing gaps has the split; `DiamondListing.RunHasNoGapIfListed` derives that runs have no gap from the pages they list |
| `DiamondProtocol.CommittedHasEarlySplit` | pkg/core/diamond_commit.go:69-88 | a diamond that becomes done by a commit that had not begun to list when a split was done records that split, if listings have no gap, which `DiamondListing.ListedInTimeIsCommitted` derives from their pages |
| `DiamondListing.RunKeepsRunningFirst` | pkg/core/split.go:94-235 | in every reachable state, a split that is done or uploading has its running descriptor stored, so that the listing does not pass it over |
| `DiamondListing.DueIsListed` | pkg/core/split_list.go:175-188 | from pages without a gap that show what was stored when the listing began, every split done by then is listed by its final descriptor |
| `DiamondListing.ListedHasNoGap` | pkg/core/diamond_commit.go:69-88 | a merge of the splits listed as done from such pages leaves out no split that was done when the listing began |
| `DiamondListing.RunHasNoGapIfListed` | pkg/core/diamond_commit.go:69-88 | so a run whose merges take what such pages list has no listing gap |
| `DiamondListing.ListedInTimeIsCommitted` | pkg/core/diamond_commit.go:69-88 | in such a run, a split that is done before any committer of its diamond begins to list is in every bundle committed for it from then on, and in the done record |
| `DiamondOutcome.CommitReadsGoodInputs` | pkg/core/split_ops.go:48-116 | what a commit reads meets what the merge relies on: clean names, timestamps, one file of a name from each split |
| `DiamondOutcome.CommitReadsEverything` | pkg/core/index.go:132-153 | every file of the attempt behind each collected split reaches the merge |
| `DiamondOutcome.CommitReadsNothingElse` | pkg/core/index_iterators.go:147-161 | every file that reaches the merge is from such an attempt, under its split |
| `DiamondOutcome.CommittedKeepsEveryVersion` | pkg/core/diamond_commit.go:116-353 | in every run, a committed bundle in conflicts or checkpoints mode holds each version its splits uploaded, at its path or at `.conflicts/{split}/{path}`, in checkpoints mode `.checkpoints/{split}/{path}`, for one of its splits |
| `DiamondOutcome.CommittedInventsNothing` | pkg/core/diamond_commit.go:116-353 | and each of its entries has the hash and size of a file one of its splits uploaded, at that file's path or a special location of it |
| `DiamondOutcome.CommittedForbidMeansAgreement` | pkg/core/diamond_commit.go:273-333 | a committed bundle in forbid mode has splits that agree on every path they share, and lists each file with that hash |
| `DiamondProgress.CommitIsRecorded` | pkg/core/diamond_commit.go:142-153 | a commit whose bundle is described, of an open diamond, leaves the done record with its bundle and its splits, and nothing else changes |
| `DiamondProgress.CancelIsRecorded` | pkg/core/diamond_commit.go:28-51 | a canceler that found the diamond open leaves the canceled record |
| `DiamondProgress.SplitIsRecorded` | pkg/core/split.go:182-200 | a splitter that has written all its lists leaves the split's done record, with its generation and their number |
| `DiamondProgress.TerminalRefuses` | pkg/core/diamond_ops.go:68-82 | a process that meets a terminal record, at its check or at its own write, ends and writes nothing |
| `DiamondProgress.FirstWriterGoesOn` | pkg/core/split.go:218-235 | of two writers of a record the first goes on and the other ends, the record being the first one's |
| `DiamondProgress.GivesUp` | pkg/core/diamond_commit.go:289-295 | a committer whose merge gives up ends, and nothing is committed |
| `DiamondProgress.ClosedStaysClosed` | pkg/core/diamond_ops.go:68-82 | in every run from a terminal record that nobody was past checking, no record, attempt or commit of the diamond is added |
| `DiamondProgress.FinishedSplitIsNotRetried` | pkg/core/split_ops.go:70-94 | in every run from a done split that nobody was uploading, no attempt at it begins and no list of it is written |
| `DiamondProgress.RunKeepsCreatedFirst` | pkg/core/split_ops.go:62-68 | in every reachable state, what has a record beside its initial one is a diamond that was created |
| `DiamondProgress.CanFinishSplit` | pkg/core/split.go:88-203 | from every reachable state with an open diamond, any split that is not done can be finished with any files, and no other is meanwhile |
| `DiamondProgress.CanCancel` | pkg/core/diamond_commit.go:28-51 | from every state with an open diamond, it can be canceled, with no other change |
| `DiamondProgress.CanCommit` | pkg/core/diamond_commit.go:116-218 | from every reachable state with an open diamond and a split that is done, it can be committed with exactly the splits that are done, in every mode, with conflicts forbidden if their files agree |
| `DiamondProgress.CommitRunExists` | pkg/core/diamond_commit.go:116-218 | for any splits with any files there is a run from the beginning that ends with the diamond committed with exactly these |
| `Chunking.ChunksShape` | pkg/core/index.go:235-304 | the cut into runs loses and reorders nothing, runs are full but for the last, none is empty |
| `Chunking.ChunksUnique` | pkg/core/index.go:235-304 | it is the only cut of that shape |
| `FileList.Pack` | pkg/core/index.go:235-304 | packing entries gives exactly that cut, and counts the files |
| `FileList.Unpack` | pkg/core/bundle_unpack.go:255-309 | for every arrival order, unpacking gives the concatenation exactly if every file but the last is full and the last fits, and otherwise an error with the size of a list that is not as it should be |
| `FileList.PackUnpack` | pkg/core/bundle_unpack.go:255-309 | unpacking what was packed gives the same entries, for every arrival order |
| `IndexIterators.AllSplitsIterator.Next` | pkg/core/index_iterators.go:147-161 | the next split's identifier and a walk over as many files as it counts |
| `IndexIterators.IndexIterator.Next` | pkg/core/index_iterators.go:36-44 | the next path, built from the split its owner is at, or the empty string at the end |
| `IndexIterators.DownloadAll` | pkg/core/index.go:132-153 | starts, split by split, one download for each of its index files, from `diamonds/{repo}/{diamond}/splits/{split}/{generation}/bundle-files-{index}.yaml` with the split's own generation, and no other |
| `IndexIterators.DownloadParses` | pkg/model/paths.go:48-209 | parsing the path of such a download gives back repo, diamond, split, generation and file |
| `IndexIterators.DownloadsDistinct` | pkg/model/diamond.go:303-305 | equal index file paths mean the same split, generation and index |
| `IndexIterators.WalkAfterNext` | pkg/core/index_iterators.go:147-161 | a walk used after the iterator moved on gives the next split's files |
| `Cafs.WriteBlobStores` | pkg/cafs/check_blob.go:14-55 | a written blob ends up with the data exactly if none was there, or an empty one, or one with a known and different checksum, or that data; a blob that is not empty and has an unknown or the same checksum leaves the store as it was; other blobs stay |
| `Cafs.WriteAllLeaves` | pkg/cafs/writer.go:180-229 | whatever the order of writes whose keys do not clash, each leaves what it would leave alone |
| `Cafs.DuplicateIsNotWritten` | pkg/cafs/writer.go:180-194 | data that is there already leaves the store as it was |
| `Cafs.WriteAllStores` | pkg/cafs/writer.go:180-229 | whatever the order of the writes, each ends up stored, if keys do not clash and no foreign blob is trusted |
| `Cafs.Leaves` | pkg/cafs/hasher.go:131-140 | cuts a buffer into keys exactly if its size is a multiple of the key size, and the keys make up the buffer |
| `Cafs.VerifiedKeys` | pkg/cafs/hasher.go:144-173 | accepts exactly the root blobs, and says when the buffer is too short or not a number of keys |
| `Cafs.ReloadKeys` | pkg/cafs/hasher.go:103-164 | a root blob gives back the keys written into it |
| `CafsWriter.WriteReturnsIff` | pkg/cafs/writer.go:86-119 | a call returns exactly if its input is no longer than a leaf; otherwise it spins for ever from an empty buffer and slices out of range from another |
| `CafsWriter.FsWriter.Write` | pkg/cafs/writer.go:86-119 | terminates having taken all its input; the content grows by it |
| `CafsWriter.FsWriter.CompleteFlush` | pkg/cafs/writer.go:126-156 | any flush in flight may complete next: the content stays, and the blob is written under the leaf's own number |
| `CafsWriter.FsWriter.OrderedKeys` | pkg/cafs/writer.go:260-263 | whatever the completion order, the keys come out by leaf number, none missing |
| `CafsWriter.FsWriter.Flush` | pkg/cafs/writer.go:249-286 | the leaf keys are those of the canonical cut of all that was written, in order; the root and the key bytes are theirs; exactly the leaves were written as blobs |
| `CafsReader.WrittenLeafVerifies` | pkg/cafs/reader.go:651-671 | reader and writer number leaves alike: each leaf written passes its check |
| `CafsReader.VerifiedIsOriginal` | pkg/cafs/reader.go:695-715 | a leaf that passes its check is the one written, unless the two collide |
| `CafsReader.ChunkReader.Read` | pkg/cafs/reader.go:620-693 | for any buffer and short reads: fills the buffer or reports the end, the bytes continue what was delivered, leaves that ended were checked; it fails to index its keys exactly if it has none, and refuses a leaf only once the buffer reaches past its end |
| `CafsReader.ReadAll` | pkg/cafs/reader.go:620-693 | reading to the end with buffers of any size terminates and gives all leaves in order |
| `CafsReader.CheckedIsOriginal` | pkg/cafs/reader.go:651-671 | for any store contents, leaves read to their end with checks on are a prefix of the original, and all of them are all of it, barring collisions |
| `CafsReader.ReadBack` | pkg/cafs/reader.go:620-693 | a stored content is read back as it was, with or without checks |
| `CafsReader.ReadChecked` | pkg/cafs/reader.go:620-715 | with checks on, reading to the end gives the original or an error, and an error exactly if some leaf is missing or not the original (when reads do not fail) |
| `CafsReader.BytesBeforeTheCheck` | pkg/cafs/reader.go:639-690 | a buffer that ends before a leaf does is filled from whatever the blob holds |
| `CafsReader.DeliveredSoFar` | pkg/cafs/reader.go:620-693 | at any point of a read with checks on, for any store contents, what was delivered is the original up to the last leaf that ended, and after that bytes of the next leaf's blob |
| `CafsReadAt.ReadLeaf` | pkg/cafs/reader.go:378-485 | reads a whole leaf into a buffer, in pieces of any size, and checks it by the writer's numbering |
| `CafsReadAt.ReadAt` | pkg/cafs/reader.go:547-614 | copies from consecutive leaves, from the offset on, until the buffer is full or the leaves are used up; goes out of range exactly if the offset is beyond the bytes of its leaf |
| `CafsReadAt.ReadAtStored` | pkg/cafs/reader.go:547-614 | for a stored content: exactly the requested window, cut at the end; out of range exactly between the end and the end of the last slot |
| `CafsReadAt.ReadAtChecked` | pkg/cafs/reader.go:467-483 | with checks on, for any store contents, what is returned is the original window, barring collisions |
| `CafsWriteTo.WriteTo` | pkg/cafs/reader.go:218-281 | copiers of all leaves in any interleaving put what the blobs hold in front of the destination and leave the rest; the count is its size; it fails exactly if a leaf is missing |
| `CafsWriteTo.WriteToAny` | pkg/cafs/reader.go:218-281 | for stored leaves of the right sizes and any bytes, the destination gets those bytes, hence the content exactly if every leaf is the original |
| `CafsWriteTo.CorruptLeafIsCopied` | pkg/cafs/reader.go:242-262 | a one-leaf file with other bytes stored is copied as they are and counted as the file |
| `CafsPut.Put` | pkg/cafs/cafs.go:167-242 | for any source and any order of flushes: it returns exactly if no piece the source hands over is longer than a leaf, and then the root is that of the content's leaf keys, each leaf and the root blob is left as it was if it was not empty and not known to differ and is stored otherwise, if keys do not clash, other blobs stay, a file that is stored already is not written again, and it says whether the root's blob was there |
| `CafsPut.LeavesForHash` | pkg/cafs/hasher.go:103-128 | resolves a root key to the keys its blob was made of, or says that it is missing or corrupt |
| `CafsPut.PutGet` | pkg/cafs/cafs.go:167-350 | a file that was put is got back: its keys, its bytes by concurrent copying, any window of it, and, unless it is empty and has no key to read from, its bytes by reading to the end |
| `LeafCache.StepKeeps` | pkg/cafs/reader.go:547-614 | every step of concurrent cached reads, evictions and releases that frees no buffer some call has found and not pinned keeps the invariant that each buffer is in one place and holds what that place says |
| `LeafCache.UndisturbedRunIsSafe` | pkg/cafs/freelists.go:316-362 | in every run of such steps: finished calls have exactly their windows, no call slices out of range or claims a dirty buffer, the free list has no duplicate, at most one buffer above the watermark and none that is pinned or cached, cached buffers hold their leaves, and no buffer is lost: each is cached, free, being released, dropped for a full free list, or some call's own |
| `LeafCacheLimits.DisturbanceIsFatal` | pkg/cafs/freelists.go:345-362 | after any step that frees a buffer some call has found and not pinned, the pin goes through and a pinned buffer is on the free list |
| `LeafCacheLimits.SafeIffUndisturbed` | pkg/cafs/reader.go:564-600 | all runs are safe exactly if no run has such a step |
| `LeafCacheLimits.SafeIffRoomy` | pkg/cafs/cafs.go:99-106 | all runs are safe, and all results right, exactly if there are no more leaves in the store than slots in the cache; the latch, the order of use and the common leaf size are kept in the failing runs |
| `LeafCacheLimits.WrongBytes` | pkg/cafs/reader.go:564-600 | with more leaves than slots, for any two leaves that differ a run exists in which a call for the one returns all of the other |
| `FuseTree.ReadOnlyFs.InsertDirEntry` | pkg/fuse/fs_ro_ops.go:483-524 | succeeds exactly if the entry is new to each index it goes to; the indexes then agree on one more directory |
| `FuseTree.ReadOnlyFs.InsertFsEntry` | pkg/fuse/fs_ro_ops.go:526-561 | the same for a file |
| `FuseTree.ReadOnlyFs.NodesFromEntry` | pkg/fuse/fs_ro_ops.go:325-399 | the file and exactly its missing directories, each attached to the next and the last to the deepest directory there is |
| `FuseTree.ReadOnlyFs.AddNodes` | pkg/fuse/fs_ro_ops.go:403-423 | adds them all, and fails exactly if the place next to that directory is taken |
| `FuseTree.ReadOnlyFs.Populate` | pkg/fuse/fs_ro_ops.go:448-481 | succeeds exactly if names are distinct and none is an ancestor of another; the indexes then agree on a tree with exactly those files and the directories on the way |
| `FuseTree.WalkFinds` | pkg/fuse/fs_ro_ops.go:72-94 | looking up component after component from a directory finds exactly the nodes below it |
| `FuseTree.ReadOnlyFs.LookUpPath` | pkg/fuse/fs_ro_ops.go:72-94 | looking a path up by one lookup for each component is that walk from the root |
| `FuseTree.ReadOnlyFs.ReadDir` | pkg/fuse/fs_ro_ops.go:139-166 | a page is a run of the directory's entries from the offset, as many as the room takes and no more; no page exactly for an unlisted directory or an offset beyond it |
| `FuseTree.ReadOnlyFs.ReadWholeDir` | pkg/fuse/fs_ro_ops.go:139-166 | paging with any rooms that fit an entry lists every child once, in order |
| `FuseTree.TreeLookups` | pkg/fuse/fs_ro_ops.go:448-481 | each file is found by walking from the root, as a file with the hash and size of its bundle entry; nothing else is but directories on the way, which have no hash; and inodes are unique |
| `FuseTree.TreeAttributes` | pkg/fuse/fs_ro_ops.go:96-111 | an inode's entry is the one that was looked up, and every inode but the root's is found by a path |
| `FuseTree.ReadOnlyFs.OpenDir` | pkg/fuse/fs_ro_ops.go:121-137 | opens exactly what is there and has no hash |
| `FuseTree.OpensIffDir` | pkg/fuse/fs_ro_ops.go:247-249 | what is found opens exactly if it is a directory, exactly if no file of the bundle lacks a hash |
| `FuseTree.TreeDirs` | pkg/fuse/fs_ro_ops.go:448-481 | directories are closed under ancestors and list exactly their children, each once; only the root of an empty bundle has no list |
| `FuseTree.Mount` | pkg/fuse/fs_ro_ops.go:448-481 | a bundle is refused exactly if two names clash, and otherwise lookups, attributes and directories are as above |
| `PurgeMark.StoreKeeps` | pkg/core/purge.go:304-317 | storing a key keeps the invariant: a missing leaf of an indexed root is pending in a live scanner |
| `PurgeMark.VisitKeeps` | pkg/core/purge.go:530-568 | so does visiting a file, with its leaves fetched or skipped |
| `PurgeMark.StepKeepsOrder` | pkg/core/purge.go:194-226 | when a repo's scanner is under way, those of earlier contexts are through, and of those started before it fewer are not than may run at a time |
| `PurgeMark.CoveredIsIndexed` | pkg/core/purge.go:288-322 | so a root that is in an earlier bundle of the repo, in an earlier context, or in that many repos started before, is indexed by the time its turn as a leaf comes; one in the same bundle may still be ahead |
| `PurgeMark.RunKeeps` | pkg/core/purge.go:272-340 | it holds throughout every run of one scanner for each repo, which takes its bundles in order, with uploads in between |
| `PurgeMark.RunKeepsChunked` | pkg/core/purge.go:343-407 | every uploaded key is in exactly one place of the chunks |
| `PurgeMark.MarkIsComplete` | pkg/core/purge.go:515-571 | when all scanners are through, the index is exactly the roots of the bundles and their leaves, if roots that are also leaves are harmless |
| `PurgeMarkLimits.SharedRootIsMissed` | pkg/core/purge.go:544-547 | for every configuration: if a file's leaf is the root of another file that is not always visited before, and both have a leaf of their own, some complete run misses one of these leaves |
| `PurgeMarkLimits.CompleteIffHarmless` | pkg/core/purge.go:515-571 | if roots have leaves of their own, all complete runs index everything exactly if shared roots are harmless |
| `PurgeUpload.IterateKV` | pkg/core/purge.go:1068-1111 | sends distinct unmarked keys up to a number, and all of them if they are fewer |
| `PurgeUpload.DbReader.Read` | pkg/core/purge.go:1120-1168 | for any buffer sizes the reads make up one header line and the key lines; keys are marked as they are taken; the end comes after the last |
| `PurgeUpload.UploadChunk` | pkg/core/purge.go:456-496 | a chunk's text is its header and its keys, which are marked |
| `PurgeUpload.UploadRest` | pkg/core/purge.go:416-444 | the final loop terminates; every key is in exactly one chunk, all of them exactly if chunks may hold keys or none was left; the last chunk is empty |
| `PurgeUpload.SplitOfLines` | pkg/core/purge.go:902-944 | plain lines are split as they were joined |
| `PurgeUpload.SplitAtReturn` | pkg/core/purge.go:902-944 | a carriage return before the newline is dropped |
| `PurgeUpload.LoadChunk` | pkg/core/purge.go:902-944 | the first line is the time, or an error; every other line is put into the index |
| `PurgeUpload.LoadAll` | pkg/core/purge.go:818-900 | loading all chunks in any order gives back exactly the keys in them, and the time |
| `PurgeSweep.Sweeper.CheckKey` | pkg/core/purge.go:751-797 | looks up the next key of a page: keeps it if it is indexed, or known to be newer, else decides to delete it unless it is a dry run, and counts which; what the counters then count is `PurgeSweep.SweepKeepsCounted` |
| `PurgeSweep.Sweeper.DeleteKey` | pkg/core/purge.go:799-812 | carries out a deletion that was decided, whatever the blob is by then |
| `PurgeSweep.StepKeepsSweep` | pkg/core/purge.go:631-815 | every lookup, deletion and upload keeps: what was to survive is there and not up for deletion, only looked-up keys are, counters add up |
| `PurgeSweep.SweepKeepsCounted` | pkg/core/purge.go:751-797 | in every state of every sweep, the indexed counter is the number of looked-up positions whose key is in the index; the counter of more recent ones is at least the number of those known to be newer at first, and at most that and those uploaded since |
| `PurgeSweep.DoneIsReported` | pkg/core/purge.go:710-734 | so at the end these are numbers of listed keys, and without uploads more recent and deleted ones are exact, from index, times and failed lookups |
| `PurgeSweep.PutRule` | pkg/cafs/check_blob.go:14-55 | an upload leaves a blob that is not empty with an unknown or the same checksum, and writes it otherwise |
| `PurgeSweep.ReusesIffTrusted` | pkg/cafs/check_blob.go:14-55 | which is the rule by which the writer of a file trusts a blob, from its size and checksum |
| `PurgeSweep.ScanBlobs` | pkg/core/purge.go:631-734 | pages in any interleaving of lookups and deletions, with any number of uploads anywhere: scanned is indexed plus more recent plus deleted, each counted as above; what was indexed or known to be newer survives; listed blobs that may go are gone, and no others |
| `PurgeSweep.UploadSurvivesIff` | pkg/core/purge.go:766-808 | what an upload leaves is there in the end exactly if nobody is about to delete it, and it is not both still to be looked up and up for deletion; so a blob that was written survives exactly if no deletion of its key was decided and not carried out, if its attributes can be looked up |
| `PurgeSweep.StaysIff` | pkg/core/purge.go:766-808 | from any state of a sweep, the same for any blob that is not uploaded again |
| `PurgeSweep.UploadIsLost` | pkg/core/purge.go:766-808 | for every listed key that is up for deletion a complete run loses an upload of it |
| `PurgeSweep.UploadsKeptIff` | pkg/core/purge.go:631-815 | no complete sweep loses an upload exactly if no listed key is up for deletion |
| `PurgeSweep.ReusedBlobGoes` | pkg/core/purge.go:766-808 | a listed, old and unindexed blob that an upload finds and reuses, at any time of the sweep, is gone in the end |
| `PurgeSweep.BuildAndLoad` | pkg/core/purge.go:818-900 | a successful build of the index, uploaded and loaded back, has exactly the roots and leaves of the bundles, and the time it was written with |
| `PurgeSweep.IndexThenSweep` | pkg/core/purge.go:52-171 | after a successful build and a sweep, every root and leaf blob of the scanned bundles and every blob newer than the time in the loaded index when the sweep began survives, if its attributes can be looked up, and of the listed blobs no others are left but newer ones |
| `BundleDiff.DiffBundles` | pkg/core/bundle_diff.go:44-87 | exactly the names at which the bundles differ, each once, with what happened to it |
| `BundleDiff.Apply` | pkg/core/bundle_unpack.go:322-381 | applying the entries in any interleaving, every put finds its name absent and the destination becomes exactly the new files |
| `BundleDiff.Update` | pkg/core/bundle_unpack.go:444-539 | a destination with the old bundle's files gets exactly the new bundle's |
| `BundleDiff.FilesOfUnique` | pkg/core/bundle_diff.go:46-53 | with unique names, a bundle's files are exactly its entries |
| `BundleDiff.FilesOfLast` | pkg/core/bundle_diff.go:46-53 | of several entries with one name the last counts |
| `Listing.FilterPage` | pkg/core/diamond.go:133-147 | keeps the keys whose base name qualifies, in order |
| `Listing.FetchKeys` | pkg/core/keys.go:19-65 | fetches all keys exactly if no page empty after filtering comes before one that is not |
| `Listing.MergeKeys` | pkg/core/keys.go:93-142 | what is retained depends on the keys in their order and not on the pages |
| `Listing.OneAtATime` | pkg/core/keys.go:108-136 | what is retained for an object depends on its own keys only |
| `Listing.ListedFor` | pkg/core/keys.go:108-136 | an object with only a final key is not listed, one with both is listed by the first of them |
| `Listing.ListedOnce` | pkg/core/keys.go:93-142 | in sorted keys whose names are in order, each object with a running key is listed once, by its final key if it has one, and no other object is |
| `Listing.ListKeys` | pkg/core/diamond_list.go:168-181 | so the whole pipeline lists each such object once, for any pages without a gap |
| `MetadataListing.DiamondNaming` | pkg/core/keys.go:83-92 | the names of a repo's diamond descriptors are in order: one of each kind for a diamond, the final one first in lexicographic order |
| `MetadataListing.SplitNaming` | pkg/core/keys.go:83-92 | so are those of a diamond's split descriptors |
| `MetadataListing.KeptIsDiamond` | pkg/core/diamond_list.go:168-173 | of the keys under a repo's diamonds the filter keeps exactly the diamonds' descriptors |
| `MetadataListing.ListDiamonds` | pkg/core/diamond_list.go:168-181 | from any pages of the sorted keys of a repo without a gap: each diamond by its final descriptor if stored, else by its running one, once, and not at all if it has none |
| `MetadataListing.ListSplits` | pkg/core/split_list.go:175-188 | the same for the splits of a diamond |
| `MetadataListing.IndexFilesHideSplits` | pkg/core/split_list.go:175-188 | if the first page of keys under a diamond's splits has index files only, no split is listed |
| `Paths.PathInjective` | pkg/model/diamond.go:226-305 | distinct objects never share a path |
| `Paths.DescriptorSpelled` | pkg/model/diamond.go:221-296 | the paths of labels, bundles, diamonds and splits as they are documented |
| `Paths.FileListSpelled` | pkg/model/diamond.go:298-305 | and those of the lists of files of bundles and splits |
| `Paths.ParseOfPath` | pkg/model/paths.go:48-209 | parsing an object's path gives back its components exactly if its identifiers are in order |
| `Paths.ParsedIsSound` | pkg/model/paths.go:48-209 | what any path is parsed to makes sense: diamonds and generations are unique identifiers, a generation comes with its split and a list of files, and only done descriptors are final |
| `Paths.ParseOfSplitPrefix` | pkg/model/paths.go:132-176 | the prefix of what lies below a split is parsed to repo, diamond and split |
| `Paths.ChunkRoundTrip` | pkg/model/paths.go:219-234 | the number of an index chunk is read back from its path, for every 64-bit number |
| `Paths.ValueOfDecimal` | pkg/model/paths.go:219-234 | decimal printing and parsing undo each other |
| `Paths.DescriptorRoundTrip` | pkg/model/bundle.go:107-146 | a descriptor's consumable path gives back its bundle exactly if the identifier has no file-list mark and no newline |
| `Paths.FileListRoundTrip` | pkg/model/bundle.go:107-167 | a file list's consumable path gives back bundle and index exactly if the index fits a signed 64-bit integer and the identifier has no newline |

## Left out

- BLAKE2b, CRC32C, KSUID generation and YAML are abstract: function values, fresh names and an identity codec.
- Storage backends, retries, metrics, logging, the command line and the web interface are not modelled; the stores are maps with create-if-absent, overwrite, get, delete and paging.
- Prefetching of leaves is not modelled as such; for the cache it is a call that asks for no bytes.
- Resuming an index build, and chunk uploads that fail and are retried, are not modelled: keys are marked when they are read, so the claims about the index do not carry over.
- Failed writes of blobs in the writer are not modelled; failed reads are.
- The mutable file system, its inode generator and the write tracker are not modelled.
- Concurrent parts (`DiamondProtocol`, `LeafCache`, `PurgeMark`) are transition systems over values: what the code updates in place is a map from buffer or process to its state, so sharing is explicit but objects are not.
- The sweep's counter of deleted bytes and the counters that are only reported are not modelled.
- Leaf truncation is off, offsets are not negative, and inode and byte counts do not wrap around.
- Names in the file system tree are clean relative paths, as component sequences; absolute names and names with dots are not modelled.
- Goroutine leaks, liveness of channels and timing are not modelled: channels are arbitrary arrival orders.
- Lines longer than the limit of the scanner that loads index chunks are not modelled.
- Deleting entries from stored bundles, write-ahead logs, fingerprints and the sidecar are not modelled.
- CafsWriteTo.WriteTo: stored leaves of other sizes than the leaves had are not covered, because their copies overlap or leave gaps and what remains depends on timing.
- PurgeSweep.Sweeper.CheckKey: whether the attributes of a key can be looked up does not change during a sweep, so a key that is listed twice fails twice or not at all; a lookup in the index that fails and ends the sweep is not modelled.
- PurgeMarkLimits.CompleteIffHarmless: the direction from completeness assumes that every root with leaves has one that is no root and no leaf of any other root; without that, a leaf skipped under one root may be indexed under another.
- Listing.MergeKeys: a key that is no metadata path is skipped but not reported, because the error goes to a separate field of the batch that consumers handle.
