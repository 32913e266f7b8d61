# A verified model of nanogit

nanogit stages, packs, fetches and decodes Git objects in memory. This project
models its hand-written algorithms in Dafny and proves what they are for. It is
checked with `dafny verify dfyconfig.toml`.

## What is modelled

**The staged writer** (`writer.go`). A writer holds a flat map from paths to entries,
an overlay of gitlinks, a set of dirty directories, the last root tree and a pack of
new objects. Staging calls only mark directories dirty; a commit rebuilds the dirty
ones, deepest first.

* `StagedTree`, `StagedInvariant`, `StagedSteps`, `StagedMove`: the calls as functions
  on a state, and the invariant that every directory whose stored hash is out of date
  is dirty and that dirtiness reaches up to the root.
* `StagedRebuild`: the incremental rebuild gives the same root hash and the same hash
  for every directory as a build from scratch that ignores all stored directory hashes.
* `WriterRuns`: whole runs of staging, commits and pushes against a remote. Every commit
  records the from-scratch tree; every push is self-contained.
* `WriterLimits`: the calls that the writer accepts although they break this, each with
  the exact condition under which they do not.
* `WriterLimitRuns`: for each of them a run of successful calls from a sound writer, and
  what it commits.
* `StagedMaps`, `StagedWriting`: the mutable writer object itself, each method proved
  against the functions above.
* `FlatTrees`, `FlatRoundTrip`: flattening a tree and rebuilding it undo each other, in
  both directions, and agree with walking the tree by path.

**Fetching** (`tree.go`, `protocol/client/fetch.go`, `protocol/delta*.go`).

* `TreeCollection`: batched discovery of directories from a server that may answer with
  anything, the depth-first completeness check, and the completion; and when the three
  together get everything from a server that answers from a repository.
* `DeltaCodec`, `DeltaApply`: parsing and applying deltas, and when a delta's target has
  the announced length.
* `DeltaFormat`: the format as a relation between payloads and instructions; parsing is
  its inverse in both directions.
* `DeltaResolution`: resolving delta chains is a fixpoint that does not depend on order.

**Codecs** (`protocol/packfile.go`, `protocol/identity.go`).

* `TreeCodec`, `CommitCodec`: tree and commit objects as bytes, with signatures.
* `PackFormat`, `PackWriting`: packs, read and written, in memory, on disk, or moving
  from one to the other.
* `KnownBytes`: what these formats look like on the wire, in literal characters and
  numbers, so that a writer and a reader that agree with each other on anything else
  are ruled out.

**Streams** (`protocol/pack.go`, `protocol/client/receivepack.go`, `protocol/model.go`,
`protocol/client/maxbytes_reader.go`).

* `PktLine`: pkt-line framing (gitprotocol-common, "pkt-line Format") and the errors that
  packets announce.
* `ReportStatus`, `ReportVerdict`: the answer to a push (gitprotocol-pack, "Report
  Status"), bare, nested or as raw lines, however it is cut into packets.
* `StreamReaders`: the capped response body and the demultiplexer above it.

**Diffs** (`commit.go`). `CommitDiff` computes the changes between two flat trees and
detects renames; `DiffMeaning` says what they mean: patching the base gives the head.

`GitTypes`, `GitObjects`, `Sequences`, `Sorting`, `TreeOrder` and `ByteText` hold what
these share.

## How things are represented

* Hashing is an injective constructor over an object's type and content, so equal hashes
  mean equal objects and no assumption about collisions is needed. That the byte formats
  are injective on well-formed trees and commits is proved (`SameObjectSameEntries`,
  `SameObjectSameCommit`).
* A path is a sequence of non-empty names without slashes. In `CommitDiff` it is its text.
* Iterating over a map picks keys in an arbitrary order; results are proved to be the
  same for every order, or the order is shown to matter.
* Compression, checksums and hash texts are functions that the caller supplies;
  compressed streams are assumed to say where they end. Signing is any function.
* A temporary file is its bytes and a position. A network body gives any non-empty part
  of what is left at each read. A server answers each request with any objects at all.
* Machine integers are unbounded with the wrap-around written out where it is visible:
  delta headers, copy bounds, pack sizes, timestamps, sixteen-bit modes.

## Where the code does less than one might expect

Each of these comes with a lemma that names the failing case and one that says exactly
when the case arises; for the writer there is also a run that reaches it.

* A file created, updated or moved to a path that is still dirty from a deleted directory
  is overwritten with a tree hash by the next rebuild (`WrittenFileSurvivesIff`,
  `RenameBlobKeepsIff`; runs `RecreatedPathIsCorrupted`, `MovedFileIsCorrupted`); updating
  also accepts a directory as its target (`WriteBlobKeepsIff`; run
  `UpdatedDirectoryKeepsItsFiles`).
* Moving a directory copies stored hashes, so a directory that was out of date stays wrong
  at its new path; a new one is committed under the zero hash (`RenameTreeKeepsIff`,
  `MovedNewDirectoryStaysZero`; run `MovedNewDirectoryIsZero`).
* Wiping the root leaves an entry for the root that no rebuild updates
  (`RootEntryRightIff`; run `WipedRootEntryIsStale`).
* Pushing without a commit sends no pack; if the remote accepts, staged blobs are lost and
  a later commit refers to them (`PushKeepsSoundIff`; run `CommitlessPushLosesFile`).
* Reparenting cached gitlinks depends on the map's order when one gitlink's new path is the
  old path of another one, as after moving a directory onto a gitlink inside it
  (`ReparentOrderIrrelevantIff`; run `MapOrderShowsInTree`).
* A directory stays when its last entry is deleted, and is committed as the empty tree,
  although the comment at `writer.go:348` says it is removed; the model follows the code
  (`DeleteBlobLeavesEmptyIff`, `DeleteTreeLeavesEmptyIff`).
* A create or update that fails because something above its path is no directory has
  staged the file all the same (`FailedWriteIsStaged`, `StoreBlob`).
* A delta with no instructions is refused as too short unless its source is at least
  16384 bytes (`DeltaRoundTripIff`, `PayloadRead`). A delta whose instructions overshoot
  the announced length, or stop short of it at one that is out of range, is accepted
  (`OvershootAccepted`, `QuietStopAccepted`, `AnnouncedLengthIff`).
* The discovery does not look into a directory that was cached: if a directory two levels
  below it is absent too, the fetch fails although the server has everything. It succeeds
  exactly when two steps are enough (`HiddenSubtreeIsMissed`, `FetchAllTreeObjects`).
* The pack writer accepts objects above ten mebibytes, which the reader refuses
  (`ReadBackIff`).
* Adding an object after a push that was interrupted while its temporary file was being
  copied overwrites stored objects; repeating the push first is right
  (`AddToFileRightIff`, `WritePackfile`).
* A commit's extra header fields are parsed but not built, so rebuilding a parsed commit
  drops them (`CommitRoundTripIff`).
* A change of mode alone is not reported as a change (`PatchIsHeadIff`).

Two branches are never taken, which the methods' contracts say outright:

* The retry queue of the batched discovery is never filled, because a hash taken from the
  queue has always been requested before (`HandleMissingObjects`, `ProcessBatch`); nothing
  is ever given up as not returned (`FetchAllTreeObjects`).
* The branch that forgives a size-cap breach after all wanted objects were read: the loop
  stops right after the last of them (`ReadPack`).

## Model

| member | source | states |
|---|---|---|
| TreeOrder.SortKeyInjective | protocol/packfile.go:973-985 | only an exact 040000 entry compares with a trailing slash, and for slash-free names equal keys mean equal names |
| TreeOrder.EntryLessIff | protocol/packfile.go:973-985 | two entries compare by their sort keys exactly as Git orders them, spelled out byte by byte without the keys |
| TreeOrder.CanonicalIff | protocol/packfile.go:965-985 | a list of distinct names is sorted by the keys if and only if every pair of its entries is in that order |
| TreeOrder.EntryIsOrder | protocol/packfile.go:973-985 | the comparison of tree entries is a strict weak order, so a library sort with it makes sense |
| TreeOrder.SortEntriesCanonical | protocol/packfile.go:965-985 | sorting a directory with distinct names gives exactly its entries in the order Git wants: by name bytes, and where one name is the front of the other, with a slash behind the name of a directory (mode 040000) and nothing behind any other |
| TreeOrder.SortIgnoresOrder | protocol/packfile.go:965-985 | any two listings of the same distinct-named entries are sorted to the same list |
| TreeOrder.SortIsCanon | protocol/packfile.go:965-985 | sorting any listing of a directory gives the one canonical listing of it |
| StagedTree.AddDirsAt | writer.go:1107-1151 | marking the parents of a path creates exactly the missing directories above it, with no hash yet, and makes exactly those paths dirty |
| StagedTree.MarkDirsAt | writer.go:1160-1195 | marking after a removal makes exactly the paths above dirty and nothing else |
| StagedTree.RelocatedAt | writer.go:805-812 | a moved map holds at a destination path exactly what the corresponding source path held: a bijection |
| StagedInvariant.ParentsDirty | writer.go:1107-1195 | both marking loops make exactly the proper prefixes of the path, the root included, dirty |
| StagedInvariant.AddParentsRoots | writer.go:1107-1151 | after a successful marking every staged path has all its parents staged as directories |
| StagedInvariant.FreshnessKept | writer.go:1107-1234 | a change only below dirty directories leaves every other stored directory hash right |
| StagedSteps.WriteBlobKeeps | writer.go:246-344 | creating or updating a file at a path that is not dirty keeps the invariant: dirtiness closed under parent, every stale directory dirty |
| StagedSteps.WritesFile | writer.go:263-284 | creating or updating stages exactly the new file and the missing directories above it; every other path, the gitlinks and the root keep what they held, and exactly the paths above become dirty |
| StagedSteps.RemoveBlobKeeps | writer.go:364-398 | deleting a file keeps the invariant |
| StagedSteps.RemovesFile | writer.go:384-397 | deleting a file takes exactly it away and makes exactly the paths above it dirty |
| StagedSteps.RenameBlobKeeps | writer.go:419-487 | moving a file to a free path that is not dirty keeps the invariant |
| StagedSteps.MovesFile | writer.go:455-487 | a move takes the old path away, stages its mode and hash at the new one, adds the missing directories above that, keeps everything else, and makes exactly the paths above both dirty |
| StagedSteps.RemoveTreeKeeps | writer.go:609-663 | deleting a directory with its entries and gitlinks keeps the invariant |
| StagedSteps.RemovesSubtree | writer.go:624-660 | deleting a directory takes exactly what is at or below it away, gitlinks included |
| StagedSteps.WipeTreeKeeps | writer.go:585-607 | deleting the root leaves a consistent empty stage |
| StagedMove.RenameTreeInside | writer.go:779-838 | after a move, what is under the destination is exactly what was under the source |
| StagedMove.RenameTreeOutside | writer.go:684-853 | elsewhere a move changes nothing but the source, which is gone, and the missing directories above the destination, which appear |
| StagedMove.MovedFreshness | writer.go:779-802 | a moved directory's hash is right at its new path exactly when it was right at the old one |
| StagedMove.RenameTreeKeepsIff | writer.go:684-853 | a move keeps the invariant if and only if every moved directory was up to date or lands on a dirty path, and no moved file lands on a dirty path |
| StagedMaps.PathsUnder | writer.go:766-776 | lists exactly the staged paths at or below a directory, each once, in whatever order the map gives |
| StagedMaps.RemoveUnder | writer.go:631-648 | removes exactly the entries at or below the directory |
| StagedMaps.MoveEntries | writer.go:779-802 | copies the entries to their new paths in the order the map gives them, and then deletes the old ones |
| StagedMaps.MovedOverIs | writer.go:779-802 | when no entry is in another's way, this is the relocation, in whatever order |
| StagedMaps.ReparentSubmodules | writer.go:820-838 | moves the cached gitlinks one at a time, in the order the map gives them |
| StagedMaps.ReparentOrderIrrelevant | writer.go:820-838 | when no gitlink is in another's way, every map order gives the relocation |
| StagedMaps.ReparentOrderIrrelevantIff | writer.go:820-838 | the map's order makes no difference if and only if no gitlink's new path is the old path of another one |
| StagedRebuild.RebuiltBeforeIsOrder | writer.go:1254-1269 | the rebuild comparator, with the root at depth 0 and last among equals, is a strict weak order |
| StagedRebuild.DeepestFirstParentsFollow | writer.go:1254-1269 | in the sorted order every dirty directory is followed by its parent |
| StagedRebuild.BuildOneFresh | writer.go:1362-1406 | rebuilding one directory makes its hash right and only its parent's stale |
| StagedRebuild.RebuildIsFromScratch | writer.go:1239-1290 | after the incremental rebuild the root hash and every directory's hash are those of a bottom-up build of all staged files and unshadowed gitlinks that ignores every stored directory hash |
| WriterRuns.CommitKeepsSound | writer.go:880-947 | a commit records the from-scratch tree with the previous commit as parent, and everything it reaches is packed or in the base |
| WriterRuns.PruningChangesNothing | writer.go:1078-1097 | pruning the gitlink cache changes no directory's rebuild result |
| WriterRuns.PushKeepsSound | writer.go:968-1056 | an accepted push of a commit re-establishes the invariant for the next round |
| WriterRuns.StepKeepsSound | writer.go:246-1056 | every successful call whose condition holds keeps the run invariant |
| WriterRuns.MoveTreeIsRename | writer.go:684-853 | a move whose gitlinks are not in each other's way is the relocation, whatever order the maps give |
| WriterRuns.EveryCommitIsFromScratch | writer.go:880-947 | in every run, each commit's tree and each directory hash it leaves behind is what a from-scratch build gives |
| WriterRuns.EveryPushIsSelfContained | writer.go:968-1056 | in every run, a push sends commits in a parent chain back to the remote's reference, with every tree and blob they reach in the pack or already remote; the remote's reference becomes the last commit, and the remote again has all that its objects reach |
| WriterLimits.WrittenFileSurvivesIff | writer.go:269-278 | a created or updated file survives the next rebuild if and only if its path is not still dirty from a directory that was there |
| WriterLimits.WriteBlobKeepsIff | writer.go:305-344 | writing a file keeps the invariant if and only if the path is not dirty and nothing is staged below it; an update checks presence only |
| WriterLimits.RenameBlobKeepsIff | writer.go:419-487 | moving a file keeps the invariant if and only if the new path is not dirty |
| WriterLimits.MovedNewDirectoryStaysZero | writer.go:779-802 | a directory staged since the last commit and moved to a path that is not dirty is committed under the zero hash |
| WriterLimits.CleanMoveIsCovered | writer.go:684-853 | with no dirty directory in the source and no file landing on a dirty path a move is always safe |
| WriterLimits.RootEntryRightIff | writer.go:585-607 | after wiping the root, the entry kept for the root itself is right if and only if the root stays empty |
| WriterLimits.CommitListsTop | writer.go:1239-1406 | in any state, consistent or not, a commit with a dirty root lists the top-level entries as the rebuild leaves them |
| WriterLimits.DirtyFileIsCommittedAsTree | writer.go:1271-1289 | a top-level file whose path is still dirty is committed as a file with the hash of a tree |
| WriterLimits.CommittedEmptyIff | writer.go:1362-1406 | a directory is committed as the empty tree if and only if it has no children |
| WriterLimits.DeleteBlobLeavesEmptyIff | writer.go:346-398 | the directory of a deleted file stays, and the next commit holds the empty tree there if and only if the file was its only child and hid no cached gitlink |
| WriterLimits.DeleteTreeLeavesEmptyIff | writer.go:609-663 | the same for a deleted directory, which takes the gitlinks it hid with it |
| WriterLimits.PushKeepsSoundIff | writer.go:968-1056 | an accepted push keeps the invariant if and only if the pack holds a commit or neither the root nor any staged hash names an object that only the pack has |
| WriterLimits.LostFileBreaksNextCommit | writer.go:880-947 | once a staged file's content is lost, the next commit's tree is not fully stored |
| WriterLimitRuns.StartIsSound | writer.go:50-142 | a writer on a commit of the empty tree satisfies the run invariant, so the runs below start somewhere |
| WriterLimitRuns.CommitPossible | writer.go:880-947 | once something is packed there is a rebuild order, and a commit succeeds |
| WriterLimitRuns.RecreatedPathIsCorrupted | writer.go:246-663 | from every sound writer: create a/b, delete a, create a, commit; all succeed, and the commit lists a as a file with the hash of a tree |
| WriterLimitRuns.MovedFileIsCorrupted | writer.go:419-663 | create a/b and c, delete a, move c to a, commit: the same |
| WriterLimitRuns.MovedNewDirectoryIsZero | writer.go:684-853 | create a/b, move a to c, commit: the commit lists c with the zero hash |
| WriterLimitRuns.WipedRootEntryIsStale | writer.go:585-607 | delete the root, create a, commit: the entry kept for the root is not the committed tree |
| WriterLimitRuns.UpdatedDirectoryKeepsItsFiles | writer.go:305-344 | create a/b, commit, update a: accepted, and a/b stays staged below what is now a file |
| WriterLimitRuns.CommitlessPushLosesFile | writer.go:968-1056 | create a, push without a commit, create b, commit: the commit's tree is not fully stored anywhere |
| WriterLimitRuns.StartWithGitlinks | writer.go:50-142 | there is a sound writer whose cache holds the gitlinks a and c/b |
| WriterLimitRuns.MapOrderShowsInTree | writer.go:820-838 | from there: create a/n, move c to a/c, commit, move a to a/c/b; two map orders both succeed, and the submodule at a/c/b/c/b names one commit or the other |
| StagedWriting.StagedWriter.constructor | writer.go:50-142 | a new writer holds the flat listing of the reference's tree, nothing dirty, nothing packed |
| StagedWriting.StagedWriter.AddMissingOrStaleTreeEntries | writer.go:1107-1151 | marks and creates parents, or stops at the first path above that is staged as a file, with the marks made so far |
| StagedWriting.StagedWriter.RemoveFromTree | writer.go:1160-1234 | marks parents, or stops at the first path above that is not a staged directory |
| StagedWriting.StagedWriter.CreateBlob | writer.go:246-285 | every error case, and the whole new state on success and on failure, path by path on success |
| StagedWriting.StagedWriter.UpdateBlob | writer.go:305-344 | every error case, and the whole new state on success and on failure, path by path on success |
| StagedWriting.StagedWriter.StoreBlob | writer.go:263-284 | packs and stages the content before the parents are checked |
| StagedWriting.FailedWriteIsStaged | writer.go:263-284 | a write that fails because something above is no directory leaves the file staged below it, and the state inconsistent |
| StagedWriting.StagedWriter.DeleteBlob | writer.go:364-398 | every error case, and on success the whole new state, path by path |
| StagedWriting.StagedWriter.MoveBlob | writer.go:419-487 | every early error, success whenever the parents allow it, and the whole new state: the source gone, its mode and hash at the destination, new directories above that, everything else as before |
| StagedWriting.StagedWriter.RestageBlob | writer.go:455-486 | the same for a move that can start, which stages the new path before it drops the old one |
| StagedWriting.StagedWriter.DeleteTree | writer.go:576-663 | wiping the root, every error case, and the whole new state, path by path |
| StagedWriting.StagedWriter.RemoveSubtree | writer.go:624-660 | drops the entries and gitlinks of a directory and marks its parents, which must all be there |
| StagedWriting.StagedWriter.MoveTree | writer.go:684-755 | every early error, success whenever the move can start, and the whole new state on success, for the orders in which the maps were ranged over |
| StagedWriting.StagedWriter.RelocateSubtree | writer.go:766-853 | entries and gitlinks are moved in the maps' orders, then both sets of parents marked |
| StagedWriting.StagedWriter.UpdateTreeStructuresForMove | writer.go:841-853 | marks the parents of the destination and of the source, and succeeds whenever the first are not blocked and the second are all there |
| StagedWriting.StagedWriter.CollectDirectChildren | writer.go:1299-1359 | lists exactly the staged children of a directory and the gitlinks they do not shadow, each name once |
| StagedWriting.StagedWriter.BuildSingleTree | writer.go:1362-1406 | packs the tree of exactly the directory's children in the order Git wants, and records its hash |
| StagedWriting.StagedWriter.BuildPendingTrees | writer.go:1239-1290 | rebuilds all dirty directories in a listing sorted by the comparator and clears the dirty set |
| StagedWriting.StagedWriter.Commit | writer.go:880-947 | every error case, success exactly when something is packed, and on success one commit step of the run model: a commit of the new root on the last commit with the given text |
| StagedWriting.StagedWriter.BuildAndRecord | writer.go:905-940 | rebuilds what is dirty and, if something is packed, makes one commit step of the run model |
| StagedWriting.StagedWriter.RecordCommit | protocol/packfile.go:1047-1098 | a commit of the root tree is packed unless it is there already |
| StagedWriting.StagedWriter.Push | writer.go:968-1056 | every error case leaves the state alone, and success is one push step of the run model |
| StagedWriting.StagedWriter.ResetAfterPush | writer.go:1029-1047 | the remote takes the pack if one was written and the writer starts a new one |
| StagedWriting.StagedWriter.PruneSubmoduleEntriesAfterPush | writer.go:1078-1097 | keeps exactly the gitlinks that no entry shadows and whose parents are all staged directories |
| StagedWriting.BuildAllPacksIff | writer.go:1271-1289 | a rebuild packs something exactly when some dirty path is still a directory |
| FlatTrees.ReachesSplits | tree.go:810-939 | what lies below a tree is exactly what each of its entries contributes |
| FlatTrees.TraverseTree | tree.go:830-933 | succeeds exactly when every directory below is in the collection, and then lists each path reached by the component-by-component walk once, gitlinks apart, in path order: name by name in byte order, a directory before what is below it |
| FlatTrees.TraverseEntry | tree.go:848-930 | one entry contributes itself and, for a directory, everything below it |
| FlatTrees.GetTreeByPath | tree.go:1161-1222 | navigates the components, trimmed of white space, with each error case |
| FlatTrees.NavigateIsWalk | tree.go:1161-1222 | navigation succeeds exactly where the walk along the trimmed components meets a directory, and gives its hash |
| FlatTrees.KeyByPath | writer.go:80-102 | keys a flat listing by path without losing or adding an entry |
| FlatTrees.StageLookupIsWalk | writer.go:80-102 | a fresh writer holds at each path exactly what the walk from the root reaches there |
| FlatTrees.FlattenThenRebuild | tree.go:810-939 | for any tree of canonical directories, flattening and rebuilding every directory gives back every original hash |
| FlatRoundTrip.WalkIsLookup | writer.go:1299-1340 | walking a rebuilt tree finds at each path exactly what is staged there |
| FlatRoundTrip.BuiltTreesCanonical | writer.go:1362-1406 | every tree a clean stage holds is canonical at every depth |
| FlatRoundTrip.RebuildThenFlatten | tree.go:810-939 | flattening what was rebuilt gives back the staged entries and the gitlinks a push keeps |
| FlatRoundTrip.CommitThenFlatten | writer.go:880-947 | reading the flat tree of a new commit gives exactly what is staged |
| FlatRoundTrip.GitlinkCacheAfterPush | writer.go:1078-1097 | a commit pushed at once leaves in the cache exactly the pushed tree's gitlinks, and every directory would be rebuilt as before |
| FlatRoundTrip.FreshWriterIsSound | writer.go:50-142 | a writer made from the flat listing of a stored commit satisfies the run invariant, so every run may start there |
| TreeCollection.TreeCheck.CheckTree | tree.go:692-745 | the depth-first search visits only what is reachable, explores it fully, and ends even on a cyclic collection |
| TreeCollection.VerifyTreeCompleteness | tree.go:692-745 | returns, each once, exactly the absent directories reachable from the root through present ones |
| TreeCollection.CompleteMeansNoFallback | tree.go:891-914 | when nothing reachable is missing, flattening never asks for a directory individually |
| TreeCollection.Discovery.PrepareBatch | tree.go:445-465 | takes the next batch off the retries or the queue, in order and within the batch sizes |
| TreeCollection.Discovery.HandleMissingObjects | tree.go:531-556 | a hash that was requested before is never queued again, and one missed for the first time is not given up |
| TreeCollection.Discovery.CollectMissingTreeHashes | tree.go:561-658 | queues every absent child of a newly received tree, each hash once ever |
| TreeCollection.Discovery.ProcessSingleBatch | tree.go:468-513 | stores what is answered for a batch, gives nothing up, and queues what the answer names |
| TreeCollection.Discovery.ProcessBatch | tree.go:400-513 | one round takes a batch off the queue, stores exactly what the server answers for it, fails exactly when the server does, and either requests new hashes or shortens the queue; with a server that answers from a repository it stays on track: everything asked for has arrived, and every child of a tree seen is there or asked for |
| TreeCollection.Discovery.ProcessPendingTreeBatches | tree.go:400-442 | no hash is requested twice whatever the server returns, the loop ends by unrequested hashes and queue length, and the batch cap needs a thousand requests |
| TreeCollection.CompleteMissingTrees | tree.go:749-800 | asks for the missing directories in order, each once, and adds to the collection exactly what is answered, or fails if a request does |
| TreeCollection.DiscoveryEnds | tree.go:400-442 | when the queue is empty the collection is complete if nothing cached was incomplete, and with a server that sends only what it is asked for it holds exactly what was there and what had to be asked for |
| TreeCollection.CheckAndComplete | tree.go:270-301 | the check, the completion and the second check: complete, or an error that says why not |
| TreeCollection.HiddenSubtreeIsMissed | tree.go:270-301 | with a directory cached but not the one below it, two steps are not enough: what is two levels below it is never asked for |
| TreeCollection.FetchAllTreeObjects | tree.go:244-314 | fails at once exactly without the root; success means every directory reachable from it is there, whatever the server answered; with a server that answers every request with all the trees asked for it succeeds unless the batch cap is hit, provided no tree that was cached lists an absent one; and with one that sends nothing else it succeeds exactly when two steps are enough, the discovery asking for exactly the absent trees reached through absent ones |
| TreeCollection.GetFlatTree | tree.go:208-240 | succeeds under the same conditions; with answers that have the hashes they are stored under, the collection is flattened without any further request, and gives the root's flat listing in path order |
| DeltaCodec.DeltaHeaderSize | protocol/delta.go:253-270 | reads the little-endian base-128 number in front, modulo 2^64, and gives what follows |
| DeltaCodec.ShiftedSum | protocol/delta.go:253-270 | shifting digit by digit adds up to the shifted number |
| DeltaCodec.ParseOffset | protocol/delta.go:179-212 | the four conditional bytes are the little-endian number that the command's low bits flag, or the missing-byte error |
| DeltaCodec.ParseSize | protocol/delta.go:215-241 | the three conditional bytes are the little-endian number that bits 4 to 6 flag, or the missing-byte error |
| DeltaCodec.OperandsBound | protocol/delta.go:146-152 | the operands stay so small that the wrap-around check never fires |
| DeltaCodec.ParseCopyCommand | protocol/delta.go:135-160 | a copy with its operands, a stop when out of range, or an error; size zero means 65536 |
| DeltaCodec.ParseDeltaCommand | protocol/delta.go:124-176 | copy, insertion, or the reserved-command error |
| DeltaCodec.CommandConsumes | protocol/delta.go:124-176 | every instruction is non-empty, fits the target, and a copy lies inside the declared source |
| KnownBytes.InsertCommand | protocol/delta.go:162-176 | an insertion is its length and then its bytes |
| KnownBytes.FullCopyCommand | protocol/delta.go:135-241 | a copy with all its operands is four offset and three size bytes, the lowest first |
| DeltaCodec.ParseDelta | protocol/delta.go:86-120 | the loop computes the instruction list defined by recursion on the payload, and ends on every payload |
| DeltaApply.ApplyDelta | protocol/delta_apply.go:24-65 | succeeds exactly when the base has the declared length and every copy is non-empty and in bounds, and then gives, byte by byte, what the instructions say |
| DeltaApply.TargetDescribed | protocol/delta_apply.go:36-64 | byte j of instruction i is at the summed length of the instructions before it plus j: the inserted byte, or the base byte at the offset plus j |
| DeltaApply.DescribedOnce | protocol/delta_apply.go:36-64 | and that describes one target only |
| DeltaApply.TargetSize | protocol/delta_apply.go:36-64 | the target is as long as the instructions say |
| DeltaApply.InstructionsInRange | protocol/delta.go:86-176 | on any payload, every parsed copy is non-empty and inside the declared source |
| DeltaApply.ParsedDeltaApplies | protocol/delta_apply.go:24-65 | on any payload, what parsing accepts applies to every base of the declared length without an error |
| DeltaApply.InstructionsFillIff | protocol/delta.go:95-117 | parsed instructions fill the announced bytes if and only if the payload goes on with instructions in range that fill them exactly |
| DeltaApply.AnnouncedLengthIff | protocol/delta.go:86-120 | a parsed delta applied to any base of the declared length gives a target of the announced length if and only if its payload is exact in that sense |
| DeltaApply.OvershootAccepted | protocol/delta.go:95-117 | a payload that announces 5 target bytes and inserts 6 is accepted |
| DeltaApply.QuietStopAccepted | protocol/delta.go:109-111 | a payload that announces 2 target bytes, inserts 1 and then copies out of range is accepted with the one byte |
| DeltaFormat.NumberRead | protocol/delta.go:253-270 | every way to write a number in groups of seven bits, padded or not, is read back as the number |
| DeltaFormat.FlaggedRead | protocol/delta.go:179-241 | flagged bytes, any superset of those that are not zero, are read back as the number |
| DeltaFormat.FlaggedSplit | protocol/delta.go:179-241 | and whatever is read was written that way |
| DeltaFormat.CopyWithoutOperands | protocol/delta.go:146-148 | a copy of 65536 bytes from offset zero may be written without any operand byte |
| DeltaFormat.CommandRead | protocol/delta.go:124-176 | every way to write an instruction is read back as the instruction |
| DeltaFormat.CommandSplit | protocol/delta.go:124-176 | and whatever instruction is read was written in one of these ways |
| DeltaFormat.PayloadRead | protocol/delta.go:86-120 | every payload of the format is read as what it means, unless it has fewer than four bytes, which takes an empty target and a source below 16384 bytes |
| DeltaFormat.PayloadSplit | protocol/delta.go:86-120 | whatever is read with the announced length is a payload of the format |
| DeltaFormat.DeltaFormatIff | protocol/delta.go:86-120 | a payload is read as given instructions with the length it announces if and only if it is one of the ways to write them |
| DeltaFormat.DeltaRoundTripIff | protocol/delta.go:86-120 | every delta whose instructions fit the format has a payload that is read back, except that one with an empty target and a source below 16384 bytes is refused as too short |
| DeltaResolution.ParsedIsWellSized | protocol/delta.go:135-160 | copies of parsed deltas never overflow 64 bits |
| DeltaResolution.Resolver.FindBaseObject | protocol/client/fetch.go:426-449 | finds the base among the fetched objects or in storage, with the content its hash stands for |
| DeltaResolution.Resolver.ResolveSingleDelta | protocol/client/fetch.go:452-486 | applies the delta and records the result, with its base's type and byte by byte what the instructions say, under its own hash in both stores, or changes nothing |
| DeltaResolution.Resolver.TryDelta | protocol/client/fetch.go:396-423 | resolves a delta exactly when its base is known and it applies |
| DeltaResolution.Resolver.ResolveDeltaIteration | protocol/client/fetch.go:396-423 | a round adds only derivable objects, keeps exactly the unresolved deltas in order, and a round without progress leaves only deltas whose base is unknown or that do not apply |
| DeltaResolution.Resolver.ResolveDeltas | protocol/client/fetch.go:369-393 | adds exactly what can be derived by following bases, each with its base's type and its instructions' bytes; succeeds exactly when every delta can be resolved, otherwise reports the bases of the others, never runs out of iterations, and keeps the stores hash-consistent |
| DeltaResolution.ResultsMean | protocol/client/fetch.go:452-513 | every object that resolving adds has the type of some delta's base and the bytes that delta describes |
| DeltaResolution.FixpointContains | protocol/client/fetch.go:369-423 | a set closed under delta application contains everything derivable |
| DeltaResolution.SuccessMeansAllResolvable | protocol/client/fetch.go:369-393 | success is for every delta at once |
| DeltaResolution.OrderDoesNotMatter | protocol/client/fetch.go:369-423 | two orders of the same deltas give the same objects and the same outcome |
| DeltaResolution.ReadPack | protocol/client/fetch.go:253-330 | stops right after the last wanted object when only those matter, and otherwise at the trailer, the end or the first failure; adds exactly the objects read before that, reports a failure exactly when it comes first, keeps the deltas unless the wanted objects are complete, and never forgives a failure |
| DeltaResolution.ShouldTerminateEarly | protocol/client/fetch.go:355-364 | ticks a wanted object off, once however often it is sent, and says when none is left |
| DeltaResolution.ProcessPackfileResponse | protocol/client/fetch.go:253-338 | fails exactly when a failure comes before the wanted objects are complete or some remaining delta is not resolvable; adds exactly the objects read and the results of the resolvable deltas |
| DeltaResolution.CompleteNeverFails | protocol/client/fetch.go:222-250 | once all wanted objects have been read, nothing later in the stream can make the fetch fail |
| ByteText.NumeralRoundTrip | protocol/packfile.go:990-995 | a number printed in any base up to sixteen is read back |
| ByteText.HexRoundTrip | protocol/hash/hash.go:24-55 | hexadecimal text is read back as the bytes it was written from |
| KnownBytes.HexAt | protocol/hash/hash.go:24-55 | each byte becomes two lower-case digits, the higher one first |
| ByteText.FormatIntRoundTrip | protocol/identity.go:44-47 | a printed timestamp is read back exactly when it fits 64 bits |
| ByteText.JoinSplit | protocol/packfile.go:307-310 | splitting into lines and joining them again changes nothing |
| ByteText.TrimOneBlank | protocol/identity.go:35-45 | a blank put in front of or behind a text without outer white space is trimmed away, and the text is left as it is |
| ByteText.TrimSpaceTrims | protocol/identity.go:35-39 | trimming takes away white space, the Unicode spaces included, at both ends and nothing else |
| TreeCodec.BuildTreeObject | protocol/packfile.go:965-1016 | writes exactly the given entries one after the other, in the order Git wants if their names are distinct; the first hash that is not hexadecimal is an error |
| TreeCodec.BuildIgnoresOrder | protocol/packfile.go:965-1016 | every permutation of distinct-named entries gives the same object bytes |
| TreeCodec.ParseTree | protocol/packfile.go:202-248 | the loop computes the entries defined by recursion on the bytes, with each error case |
| KnownBytes.FileLine | protocol/packfile.go:987-1012 | a file's line is its mode in octal, a blank, the name, a NUL and the twenty bytes of its hash |
| KnownBytes.ModeTexts | protocol/packfile.go:990-995 | the modes of directories, gitlinks and files in octal are 40000, 160000 and 100644 |
| TreeCodec.ListingRoundTripIff | protocol/packfile.go:202-248 | tree bytes parse back to their entries if and only if every name is free of NUL and every hash is twenty bytes in lower case |
| TreeCodec.TreeRoundTrip | protocol/packfile.go:202-248 | building and parsing recovers exactly the sorted entries |
| TreeCodec.SameObjectSameEntries | protocol/packfile.go:965-1016 | directories with the same tree object have the same entries, which is why a hash may stand for them |
| CommitCodec.IdentityRoundTripIff | protocol/identity.go:21-84 | an identity reads back as written if and only if its name has no ASCII or Unicode white space at its ends, its email has no less-than sign, its timestamp fits 64 bits and its zone is valid |
| CommitCodec.ParsedIsNormal | protocol/identity.go:21-78 | whatever parses is in that normal form |
| CommitCodec.ParseCommit | protocol/packfile.go:250-312 | the line loop computes the commit defined by recursion on the bytes: headers to the first empty line, then the message |
| CommitCodec.LastHeaderCounts | protocol/packfile.go:314-373 | of several headers with one name the last one counts, a name without a header is unset, and the message is what follows the empty line |
| CommitCodec.LastParentWins | protocol/packfile.go:314-365 | of several parents the last one is read |
| CommitCodec.OtherHeadersKept | protocol/packfile.go:328-373 | every header with a name of its own is kept with its last data |
| CommitCodec.IndentIsContinued | protocol/packfile.go:443-447 | folding a text gives its lines, all but the first one continued by a space |
| CommitCodec.BlockParses | protocol/packfile.go:264-312 | header lines, an empty line and any message are read as the lines' steps and that message |
| CommitCodec.ContinuedSteps | protocol/packfile.go:290-296 | continuation lines collect the folded lines in order |
| CommitCodec.BuildIsLines | protocol/packfile.go:434-451 | the built object is the header lines, an empty line and the message |
| KnownBytes.CommitLayout | protocol/packfile.go:422-451 | the built object is, in this order, lines with the keywords tree, parent, author, committer and gpgsig, an empty line and the message, with people as name, email in angle brackets, seconds and zone |
| CommitCodec.BuildParses | protocol/packfile.go:422-451 | any message and any signature survive building and parsing |
| CommitCodec.CommitRoundTripIff | protocol/packfile.go:250-451 | a commit reads back as built if and only if its people are in normal form on one line and it has no extra header fields |
| CommitCodec.SignedPayloadSurvives | protocol/packfile.go:1047-1067 | the stored commit reads back with its signature, and without it is byte for byte what was signed |
| CommitCodec.SameObjectSameCommit | protocol/packfile.go:434-451 | commits with the same bytes are the same commit |
| PackFormat.WriteHeader | protocol/packfile.go:1250-1267 | writes the type and the size in seven-bit groups |
| PackFormat.ReadHeader | protocol/packfile.go:543-562 | reads the type and the size, the latter as a 64-bit pattern |
| PackFormat.HeaderRoundTrip | protocol/packfile.go:1250-1267 | the type and a size of any length are read back, whatever follows |
| PackFormat.WrittenHeader | protocol/packfile.go:1250-1267 | a written object starts with its type, 1 to 4, in three bits above the low four of its size, then seven bits at a time, the lowest first |
| PackFormat.ReadTypeBits | protocol/packfile.go:543-642 | what is read is of the type those three bits say: 1 commit, 2 tree, 3 blob, 4 tag, 7 reference delta |
| PackFormat.PackfileReader.ReadObject | protocol/packfile.go:506-642 | the next entry, then the trailer once, then the end; an error stays |
| PackFormat.AfterRead | protocol/packfile.go:506-576 | one read moves exactly one entry from the stream to the result |
| PackFormat.ReadEntries | protocol/client/fetch.go:275-306 | reading up to the trailer gives the entries the header counts |
| PackFormat.ReadPackfile | protocol/packfile.go:773-813 | signature, version and count checks, then the entries |
| PackFormat.StartRoundTrip | protocol/packfile.go:773-813 | a pack of version 2 or 3 is read with its count, and no other version is |
| PackFormat.EntryRoundTrip | protocol/packfile.go:644-705 | one written object is read back with its recomputed hash and the stream is left right behind it; above ten mebibytes it is refused |
| PackFormat.DeltaRoundTrip | protocol/packfile.go:629-705 | a written reference delta is read back as its twenty parent bytes and its parsed payload, or refused as too large or for the payload's error |
| PackFormat.PackRoundTrip | protocol/packfile.go:1173-1281 | reading a written pack gives its objects back, up to the first that is too large or does not parse |
| PackFormat.WrittenStart | protocol/packfile.go:1195-1213 | a pack starts with PACK, version 2 and the count, the highest byte first |
| PackFormat.ChecksumBehind | protocol/packfile.go:1173-1192 | and ends with the checksum of all that is before |
| PackFormat.ReadBackIff | protocol/packfile.go:566-576 | all objects come back if and only if none exceeds ten mebibytes and every tree and commit parses; the writer checks neither |
| PackFormat.ReadBackGives | protocol/packfile.go:601-626 | then they come back in order, each with its own hash and its content parsed |
| PackFormat.BuiltTreeReadable | protocol/packfile.go:965-1016 | a tree built from recoverable entries comes back as those entries, sorted |
| PackFormat.BuiltCommitReadable | protocol/packfile.go:1047-1098 | a commit of people in normal form comes back as that commit |
| PackWriting.PackfileWriter.constructor | protocol/packfile.go:871-883 | a new writer has collected nothing, in any storage mode |
| PackWriting.PackfileWriter.WriteObjectToFile | protocol/packfile.go:1364-1395 | writes one encoded object at the file's position |
| PackWriting.PackfileWriter.MigrateToFile | protocol/packfile.go:1330-1346 | moves all objects in memory to the file, in order, none lost or doubled |
| PackWriting.PackfileWriter.AddObjectToStorage | protocol/packfile.go:1284-1327 | stores the object where the mode wants it; in auto mode on disk exactly from the eleventh object or the first after five mebibytes on |
| PackWriting.PackfileWriter.Remember | protocol/packfile.go:944-960 | a new object is stored last and its hash remembered |
| PackWriting.PackfileWriter.AddBlob | protocol/packfile.go:931-961 | collects the blob under its hash unless it is there, or one of two errors without a change |
| PackWriting.PackfileWriter.AddObject | protocol/packfile.go:1019-1036 | collects the object under the hash it comes with unless it is there; failures are silent |
| PackWriting.PackfileWriter.AddCommit | protocol/packfile.go:1047-1098 | signs if asked to, collects the commit, and makes a new one the commit to push |
| PackWriting.PackfileWriter.RememberCommit | protocol/packfile.go:1079-1097 | a new commit is stored last and becomes the one to push |
| PackWriting.PackfileWriter.Cleanup | protocol/packfile.go:895-927 | forgets everything and refuses a second time |
| PackWriting.PackfileWriter.WriteObjects | protocol/packfile.go:1216-1244 | the encoded objects in insertion order from either storage, wherever the file's position was; when the receiver fails on the way, a prefix of them, and the position stays where reading stopped |
| PackWriting.PackfileWriter.WritePackfile | protocol/packfile.go:1109-1192 | reference update, header with the number of objects, objects and checksum, or the error and what was written before it; nothing collected is lost, and a repeat after an interruption is right |
| PackWriting.AddToFileRightIff | protocol/packfile.go:1225-1234 | adding an object to the temporary file is right if and only if its position is at the end, which it is not after an interrupted copy |
| PktLine.LineAndFlushParse | protocol/packfile.go:1147-1170 | a receiver of the reference update reads its line as one packet, then the flush, and is left right before the pack |
| PackWriting.EmissionReads | protocol/packfile.go:1147-1192 | what a receiver reads of a push: one packet, which cut at its blanks and its NUL gives the old hash, the last commit's hash, the reference and the capabilities; then the end; then the pack |
| PackWriting.WriteAll | protocol/packfile.go:1284-1346 | for any calls, memory, disk and auto mode emit the same bytes, and writing again repeats them, also after a try that failed halfway |
| PackWriting.NothingLostOrDoubled | protocol/packfile.go:931-1098 | any calls collect each hash once, in the order of first appearance, and no other |
| PackWriting.CollectedPackReadsBack | protocol/packfile.go:1173-1281 | the pack of any calls reads back as what they collected, with the header count equal to the number of objects |
| PackWriting.ProperPackComesBack | protocol/packfile.go:931-1098 | for any blobs, built trees and clean commits of at most ten mebibytes, reading the pack gives every collected object, in order, under the hash it was collected under, with its content parsed |
| PktLine.FormatPacks | protocol/pack.go:347-365 | the packets in order, with a flush packet added if there was none, or the first marshalling error |
| PktLine.PrefixRoundTrip | protocol/pack.go:138-146 | the four-digit length prefix is read back for every length below 65536 |
| PktLine.Parser.ReadFull | protocol/pack.go:518-598 | reads as many bytes as wanted or what is left |
| PktLine.Parser.Next | protocol/pack.go:471-515 | skips empty and special packets, ends at a flush, a response end or a short length, and reports bad, too large and truncated packets and announced errors |
| PktLine.PacketsRoundTrip | protocol/pack.go:347-515 | data packets followed by a flush deliver their non-empty lines up to the first that announces an error |
| PktLine.AllKindsRoundTrip | protocol/pack.go:347-515 | packets of any kind are read as they were written: delimiters and empty packets are passed over, a flush or response end is the end |
| PktLine.ErrPacketFails | protocol/pack.go:610-676 | a packet that starts with ERR and a blank fails the read with what is behind them, after the lines before it |
| PktLine.EveryLength | protocol/pack.go:471-515 | what each of the 65536 lengths means: an end, a packet passed over, too large, cut short, or data |
| KnownBytes.PrefixDigits | protocol/pack.go:138-146 | a length is written in four lower-case hexadecimal digits, the highest first |
| KnownBytes.PacketKeywords | protocol/pack.go:610-733 | the prefixes and sentinels are these words |
| KnownBytes.SpecialPackets | protocol/pack.go:148-190 | the flush, delimiter and response-end packets are 0000, 0001 and 0002 |
| ReportStatus.RemoteProgressBuffer.Append | protocol/client/receivepack.go:57-77 | keeps exactly the first 65536 bytes of the progress stream |
| ReportStatus.DecodeRemoteProgress | protocol/client/receivepack.go:431-460 | the messages are those of the joined stream, however it was split |
| ReportStatus.ScanNestedPktLineStream | protocol/client/receivepack.go:344-359 | whether some inner line is the success sentinel, or the first error |
| ReportStatus.ScanRawLine | protocol/client/receivepack.go:378-391 | wrapping one line as a packet and parsing it is classifying the line |
| ReportStatus.ScanRawReportStatusStream | protocol/client/receivepack.go:373-393 | classifies every non-blank line of the joined stream |
| ReportStatus.ScanSideBandReportStatus | protocol/client/receivepack.go:310-339 | detects the encoding from the first four bytes of the joined stream, however the packets split it |
| ReportStatus.ClassifyReceivePackLine | protocol/client/receivepack.go:241-282 | what one packet adds to progress, channel 1 or the bare report; a message on channel 3 is the fatal error with exactly that message |
| ReportStatus.ParseReceivePackResponse | protocol/client/receivepack.go:162-233 | the loop computes the verdict defined on the parsed packets, with the remote messages on every rejection |
| ReportVerdict.VerdictOnStreams | protocol/client/receivepack.go:162-233 | however report and progress are cut into packets and interleaved, the verdict, messages included, is a function of the two joined streams |
| ReportVerdict.ChunkingDoesNotMatter | protocol/client/receivepack.go:162-233 | two ways of cutting the same streams give the same verdict |
| ReportVerdict.CarriesMeaning | protocol/pack.go:610-653 | up to trailing blanks, a report line announces an error exactly when it refuses and is the sentinel exactly when it says "unpack ok" |
| ReportVerdict.RejectionNamesReference | protocol/pack.go:715-733 | a rejected reference is reported with its name and the trimmed reason, or a standard one if there is none |
| ReportVerdict.ErrorsMean | protocol/pack.go:656-710 | an error or fatal message, bare or on channel 3, is a failed unpacking exactly if it contains that word, and otherwise the server's error with the text behind the colon |
| ReportVerdict.ChannelThreeErrors | protocol/pack.go:656-710 | an error or fatal message means the same on channel 3 as bare |
| ReportVerdict.ChannelThreeRejects | protocol/client/receivepack.go:257-270 | whatever came before, the first message on channel 3 rejects the push with exactly that message and the messages of the progress before it |
| ReportVerdict.RefusedOnChannelThree | protocol/client/receivepack.go:162-270 | the same for written packets: any that announce no error, then one on channel 3, then any others |
| ReportVerdict.SilenceIsAccepted | protocol/client/receivepack.go:162-282 | an answer of progress and empty channel packets only is a success |
| ReportVerdict.MessagesLineByLine | protocol/client/receivepack.go:431-460 | each line of the progress stream, ended by either line break, is a message without trailing blanks unless it is blank, in order |
| ReportVerdict.BareReportVerdict | protocol/client/receivepack.go:162-282 | a bare report is accepted if and only if it says "unpack ok" and refuses nothing |
| ReportVerdict.NestedReportVerdict | protocol/client/receivepack.go:310-359 | the same for a report in packets inside channel 1, however that is cut up |
| ReportVerdict.RawReportVerdict | protocol/client/receivepack.go:310-393 | the same for a report as plain lines inside channel 1, however that is cut up |
| ReportVerdict.ReportEncoding | protocol/client/receivepack.go:325-339 | channel 1 is read as packets exactly if it starts with four hexadecimal digits, and as plain lines otherwise |
| ReportVerdict.RawTrailingBlanks | protocol/client/receivepack.go:373-393 | tabs, carriage returns and blanks behind a plain line make no difference |
| StreamReaders.Body.Read | protocol/client/maxbytes_reader.go:86 | an underlying read may give any non-empty part of what is left, and the end with the last bytes or after them |
| StreamReaders.LimitedReadCloser.Read | protocol/client/maxbytes_reader.go:63-99 | for every sequence of reads, delivers exactly the first bytes of the body up to the cap; the error is sticky and is the cap's exactly when the body is longer |
| StreamReaders.LimitedReadCloser.ReadFull | protocol/pack.go:518-598 | reading fully from the capped body is reading from its first bytes with a failure behind them if the body is longer |
| StreamReaders.MultiplexedReader.CopyOut | protocol/model.go:117-122 | copies the front that fits into the caller's slice |
| StreamReaders.MultiplexedReader.Read | protocol/model.go:107-188 | for every sequence of reads, delivers the channel-1 data in order without loss or repetition and reports the end only after all of it |
| StreamReaders.MultiplexedDelivers | protocol/model.go:107-188 | a multiplexed response gives exactly the joined channel-1 payloads and then the end of file |
| StreamReaders.OtherChannelStops | protocol/model.go:150-188 | the first packet on channel 3 ends the pack data with its message, and one on an unknown channel with an error; what came before is delivered |
| StreamReaders.CapIsHonest | protocol/client/maxbytes_reader.go:63-99 | a response cut off by a failure gives a part of the full data and an error, never an end of file, unless the full response would have ended the same way |
| CommitDiff.GroupByHash | commit.go:333-346 | groups deletions and additions by content hash |
| CommitDiff.PairHash | commit.go:355-388 | pairs the deletions and additions of one hash one by one, as many as there are of both |
| CommitDiff.RenamesPair | commit.go:355-388 | from lists in path order these are the pairs of that hash in path order |
| CommitDiff.PairAll | commit.go:354-389 | the pairs of all hashes, in whatever order the map gives them |
| CommitDiff.MarkedIffPaired | commit.go:391-408 | a change is dropped exactly when it is one of a pair |
| CommitDiff.DetectRenames | commit.go:333-409 | replaces exactly the pairs by renames and keeps everything else |
| CommitDiff.FindHeadChanges | commit.go:269-297 | additions and content changes of the head, directories excepted |
| CommitDiff.FindDeletions | commit.go:299-313 | deletions, in whatever order the map gives them |
| CommitDiff.CompareTrees | commit.go:250-326 | exactly the reported changes, each path once, strictly in the byte order of the paths |
| CommitDiff.OneResult | commit.go:320-325 | a set of changes has one listing in path order, so no map or entry order shows in the result |
| DiffMeaning.RenamesSayTheSame | commit.go:333-409 | taking every rename apart into a deletion and an addition gives back exactly the plain changes |
| DiffMeaning.RenamesPerHash | commit.go:366-388 | renames of a content number the smaller of its deletions and additions |
| DiffMeaning.FieldsAreTheTrees | commit.go:269-388 | every field of a change is the right tree's: the new ones the head's, the old ones the base's, with modes from the base in sixteen bits; a rename joins a path gone from the base and a new one with the same content |
| DiffMeaning.SameContentIsRenamed | commit.go:333-388 | a content at paths gone from the base and at new paths of the head is reported as renamed as often as there are both |
| DiffMeaning.Patched | commit.go:250-326 | patching the base with the changes: new and differing paths are as in the head, deleted ones gone, all others as in the base |
| DiffMeaning.PatchGivesHead | commit.go:250-326 | the patched base has exactly the head's paths and the head's hash at every path that is not a directory |
| DiffMeaning.PatchIsHeadIff | commit.go:285 | it is the head altogether if and only if no path kept its content but changed its mode or type and no directory changed |

## Left out

- StagedWriting.StagedWriter.MoveBlob: what a move that fails on its parents leaves behind is not stated, here and for the other moving and deleting calls; the run theorems range over successful calls.
- PackFormat.PackRoundTrip: lengths are below 2^64, as every length in the program is.
- Aliasing of entries: the writer keeps pointers to entries and changes a hash through them; the model stores entries as values in the map.
- The writer's pack is the set of its hashes and its last commit; the bytes are modelled apart, in `PackWriting`, and the two are not joined into one object.
- A failed capability lookup after an accepted push, which returns before the writer gets a new pack, and failures of the temporary file itself; a receiver that fails outside the objects of a pack changes nothing and is not modelled.
- `GetTree`, `BlobExists` and `Cleanup` of the staged writer: they read or drop the state and would add easy members only.
- Fetching a missing directory individually while flattening: the traversal reports it as missing instead; `GetFlatTree` shows that this does not happen after a complete fetch.
- The commit text in the writer is abstract; identities, messages and signatures are modelled in `CommitCodec`.
- Parsing the sections of a fetch response before the pack, capability lists, and the lock around their negotiation.
- HTTP, authentication, retry timing, SHA-1, zlib, signing algorithms, buffer pools, logging, metrics and size estimates.
- Glob matching and writing files in `clone.go`, eviction in `storage/inmemory.go`, commit listing and reference wrappers: they would add easy members only.
- Malformed paths and trees that bind a name twice are excluded by types and preconditions.
