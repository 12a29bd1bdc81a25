# DateiLager, modelled and proved

DateiLager stores many versions of many directory trees. Every object row carries a version
interval `[start, stop)`; a client moves its directory from one version to another by asking the
server for the difference of the two and applying it. This project models that system in Dafny,
from the SQL statements up to the client protocol, and proves what it promises.

Check everything with `dafny verify dfyconfig.toml`.

## How the model is built

| module | what it is |
|---|---|
| `Paths` | paths, directories, and which pack a path is routed to |
| `TarFormat`, `PackMerge`, `PackLaws`, `PackOrder` | tar entries and their normal form; the streaming merge of a pack with a batch, what it amounts to, and the order of its entries |
| `Table`, `Difference` | object rows, their unique indexes, the files of a version; the difference query and its application to a directory |
| `Statements`, `LooseLaws`, `PackWrites`, `UpdateLaws` | the writing statements and their effect, up to "an update edits the directory" |
| `CopyLaws`, `ResetLaws` | clone and template copy; rollback and garbage collection |
| `Store`, `RequestLaws`, `Runs`, `TreeLaws`, `QuietLaws` | the whole database as a state machine over requests; what each request does, row by row; statements about every run; which updates keep versions tree-shaped; which ones change nothing |
| `Server` | the requests as methods of a class that changes the tables step by step, each proved to be the transition of the same name in `Store` |
| `ContentCache`, `Chunks`, `TarStreams`, `ObjectStreams` | the content cache, the chunked loader, and the two generators, as classes over bytes |
| `GetLaws`, `Transport`, `RebuildLaws` | query, contents, stream, tar and client put together |
| `ByteStore` | the contents of a database as bytes, and both of these in every state that a run of requests and cache events reaches |
| `ClientProtocol`, `Upload` | "send my edits, then maybe catch up"; the worker pipeline as a transition system |
| `Examples` | concrete inputs on which the program does not do what one would expect |

The view of a version is a map from paths to files with every pack expanded (`Table.Files`).
Almost every theorem compares something the program does with that map.

### Hypotheses

Each of these is a `requires` of the theorems that need it, or is built into the data model.

- The hash has no collisions. In the tables a hash is represented by what it was computed from
  (`Table.Hash`); in the byte-level modules it is an injective function parameter.
- Compression, and writing a tar, are function parameters with a stated inverse.
- Pack patterns are arbitrary predicates on directory names.
- `LIKE 'x%'` is literal prefix matching.
- The difference with removals is asked for with the empty prefix.
- The files of the target version are tree-shaped: no file or empty-directory marker has anything beneath it.
  `Difference.EveryOrderReachesTargetIff` gives the exact condition for the result not to depend on the order of writing, and
  `TreeLaws.EditKeepsTreesIff` the exact condition for an update to keep it; runs of such updates need no hypothesis about their files.
- A batch names each path once and sets no marker above something else it sets (`UpdateLaws.ProperBatch`).
  For the store invariant alone the exact condition on loose paths is `LooseLaws.SafeBatch`.
- Contents are not collected between an update's content insert and its commit.
- A client that updates has edits of its own; its version, when it takes the shortcut, and the new one are tree-shaped.
  What its files are exactly, beyond what a tar carries, is said for clients that edited what they had received, in plain modes
  (`TarFormat.Plain`), and for clients with the exact files; `ClientProtocol.ClientEndsLike` needs neither.
- No file consists of the very bytes of a stored pack, where tables are read as bytes (`ByteStore.FitsKind`).
  `ContentCache.LookupIsRightIff` is the exact condition; it and `ContentCache.FirstKindWins` assume that compression changes every content and that
  no bytes decompress to themselves (`ContentCache.NeverItself`).
- Every row that a client is sent goes out alone as a pack, or has a path or a body (`RebuildLaws.Weighs`); `TarStreams.NeverLosesIff` is
  the exact condition.

### Where the program falls short

These are theorems, with the condition under which the program is right and, in most cases, a concrete input on which it is not.

- A batch that changes or deletes a path after setting it leaves two live rows for it, or violates an index: `LooseLaws.SafeOnEveryStoreIff`, `Examples.SetTwice`.
- A client whose batch brings nothing new records version `v + 1` without a rebuild although another client wrote it: `ClientProtocol.ShortcutWithoutUpdateIff`, `Examples.ShortcutMissesFile`.
- A catch-up after somebody deleted what the client had just added keeps the deleted file: `ClientProtocol.CatchUpIff`, `Examples.DeletedAgainStays`.
- An empty prefix asks for the root directory, which a pattern can pack; the request then misses the other files: `GetLaws.GetEverything`, `GetLaws.GetIsRightIff`.
- A prefix request whose path is a packed directory without its slash misses the files beside that directory: `GetLaws.GetIsRightIff`, `Examples.PrefixMissesNeighbour`.
- A request for a difference across which any pack was removed indexes an empty buffer. A pack that was merely changed does the same to a request whose path does not select it, because the skip rules see the selected rows only: `GetLaws.CrashesIff`, `Examples.RemovedPackCrashes`, `Examples.ChangedPackCrashes`.
- Mode bits other than permissions, directory and symlink do not reach the client: `RebuildLaws.RebuildIsExactIff`, `Examples.SetuidIsLost`.
- An administrator's stream whose first message is for the project -1, and a later one for another, is routed by the patterns of the project -1: `Server.RoutedByTargetIff`, `Examples.BorrowedPatterns`.
- A client whose directory is its version's does not record the version that was made for its batch when the difference to it is empty: `ClientProtocol.RecordsIff`, `Examples.NothingToRecord`.
- A packed write beneath an empty-directory marker leaves the marker, so that the version is no tree and the next difference loses the marker: `TreeLaws.EditKeepsTreesIff`, `Difference.EveryOrderReachesTargetIff`, `Examples.MarkerStaysAbovePack`.
- A row with neither a path nor a body is dropped when it is alone in the last tar: `TarStreams.NeverLosesIff`, `TarStreams.WeightlessRowIsLost`.
- The same bytes stored as a file and as a pack are read back wrongly: `ContentCache.LookupIsRightIff`, `ContentCache.FirstKindWins`.
- A rollback to a negative version leaves an invalid store: `Store.RollbackKeepsValidIff`.

## Model

| member | source | states |
|---|---|---|
| `Paths.IsPathPacked` | internal/db/query.go:401-415 | The loop over chunks and patterns finds the pack parent: the shortest directory above the path that any pattern matches, or none. |
| `Paths.SearchedAll` | internal/db/query.go:401-415 | In terms of the single patterns: the answer lies above the path and some pattern matches it, and no pattern matches a shorter directory above the path; without an answer no pattern matches any. |
| `Paths.PackParentChar` | internal/db/query.go:401-415 | A directory is the pack parent of a path if and only if it lies above the path, is matched, and no shorter directory above it is. |
| `Paths.BeneathAPackParent` | internal/db/query.go:401-415 | Everything at or beneath a pack parent, the parent included, is routed to that parent, for any patterns. |
| `Paths.PackParentsDoNotNest` | internal/db/query.go:401-415 | No pack parent lies above another. |
| `Paths.LoosePathsAvoidPacks` | internal/db/update.go:82-95 | A path that is not packed has no pack parent at it or above it, so a loose write never closes a packed row. |
| `Paths.PreviousPaths` | internal/db/update.go:82-87 | The paths whose rows a loose write replaces are the path itself and every directory marker above it, and nothing else. |
| `TarFormat.EncodeAfterDecode` | internal/pb/fs.go:76-97 | Reading a tar entry and writing it again reproduces it exactly. |
| `TarFormat.NormalForm` | internal/db/tar.go:64-99 | The trip of an object through a tar keeps path, type, permissions and content, drops other mode bits, makes the size fit, and is idempotent. |
| `TarFormat.ModeBits` | internal/pb/fs.go:17-25 | In plain bits: bit 31 makes a directory, bit 27 without it a symlink, and of the mode the nine permission bits and that type bit come back. |
| `TarFormat.PlainIff` | internal/db/tar.go:64-99 | Mode and content survive the trip through a tar if and only if the mode is permissions and at most one type bit, and a directory has no content. |
| `PackMerge.SortSorts` | internal/db/tar.go:233 | Sorting the updates orders them by path; that the order is the ascending one is `PackOrder.LessIsBefore`. |
| `PackMerge.SortedIsUnique` | internal/db/tar.go:233 | For distinct paths the sorted sequence depends only on the set of updates. |
| `PackMerge.MergeStream.constructor` | internal/db/tar.go:225-233 | The stream starts with the whole merge still to come. |
| `PackMerge.MergeStream.Next` | internal/db/tar.go:235-278 | Each call hands out the next object of the merge or silently gets closer to the end; it reports the end exactly when nothing is left. |
| `PackMerge.MergeStream.NextUnseen` | internal/db/tar.go:237-250 | Although the hint is set to an index into a slice, it never passes an update that has not been seen. |
| `PackMerge.Drain` | internal/db/tar.go:186-223 | Draining the stream terminates and yields all of it. |
| `PackMerge.UpdateObjects` | internal/db/tar.go:225-281 | The packed result is the merge, or the empty-pack error exactly when the merge has no object. |
| `PackLaws.MergeOverrides` | internal/db/tar.go:225-281 | Path by path, the merged pack is the old pack overridden by the updates minus the deletions, for all inputs. |
| `PackLaws.EmptyIffNothingLeft` | internal/db/tar.go:213-215 | The pack is empty if and only if the overridden map is. |
| `PackLaws.EachPathOnceIff` | internal/db/tar.go:225-281 | The merged pack names each path once if and only if every name the old pack repeats is deleted by the updates. |
| `PackLaws.MergeKeepsGood` | internal/db/tar.go:225-281 | Merging routed updates into a good pack, or none, gives a good pack or nothing. |
| `PackLaws.ArrivalOrderIsIrrelevant` | internal/db/tar.go:233-281 | Any two arrival orders of the same distinct-path updates give the same pack. |
| `PackLaws.ResendingChangesNothing` | internal/db/update.go:136-150 | Sending again what a pack already says, deletions included, reproduces the very same pack. |
| `PackLaws.MergeSameIff` | internal/db/update.go:136-150 | A merge reproduces the pack, so that the hash does not change, if and only if the pack already says all that the updates say. |
| `PackOrder.LessIsBefore` | internal/db/tar.go:233 | The comparison is the order in which a proper prefix comes first, and otherwise the path with the smaller character where the two first differ. |
| `PackOrder.UpdatesAscend` | internal/db/tar.go:233 | The updates are walked in ascending order of their paths. |
| `PackOrder.MergedOrder` | internal/db/tar.go:225-281 | A merged pack has first the old entries that are not deleted, in their old order, then what is new, ascending and disjoint from the old names. |
| `Table.IntervalsSatisfyIndexes` | migrations/000001_initial.up.sql:21-25 | A table whose intervals for one path never overlap violates none of the unique indexes. |
| `Difference.FromZeroNeedsNoRemovals` | internal/db/queryBuilder.go:240-252 | From version 0 the query without removals equals the general one, because every start is at least 1. |
| `Difference.ApplyAllEffect` | internal/files/writer.go:252-305 | A coherent sequence of changes acts as a union: what any of them writes, minus what any of them clears, the rest untouched. |
| `Difference.DiffReachesTarget` | internal/db/queryBuilder.go:38-139 | Applying the updated and removed rows to the files of `f` gives exactly the files of `t`, in every order, with repetitions, skip rules included. |
| `Difference.TreesAreUnobstructed` | internal/db/queryBuilder.go:120-129 | A tree-shaped target is enough for that. |
| `Difference.EveryOrderReachesTargetIff` | internal/db/queryBuilder.go:120-139 | Every order of application reaches the target if and only if no updated row clears a path of the target outside itself. |
| `Difference.ChainReachesTarget` | cmd/fuzz-test/main.go:400-443 | Rebuilding through any chain of intermediate versions reaches the same files as rebuilding at once. |
| `Difference.VersionZeroIsEmpty` | internal/db/queryBuilder.go:149-172 | Version 0 of every project is the empty directory, so a rebuild from scratch is a chain from 0. |
| `Transport.SentEffect` | internal/files/writer.go:84-176 | Path by path, what a sequence of sent changes writes arrives in normal form, and everything else is as the changes themselves would leave it. |
| `Transport.ArrivalReachesTarget` | internal/db/queryBuilder.go:38-139 | A directory that has only received files at `f` becomes the one that has only received files at `t`, for every store. |
| `Transport.ArrivalIsExactIff` | internal/db/tar.go:72-82 | The exact files are reached from the exact files if and only if the updated loose rows are plain. |
| `Statements.EarlierObjectsKept` | internal/db/update.go:26-197 | Writes of later versions leave every object of earlier versions as it was. |
| `Statements.EarlierDiffsKept` | internal/db/queryBuilder.go:38-139 | They leave every difference between earlier versions as it was, too. |
| `LooseLaws.StepEffect` | internal/db/update.go:26-103 | One loose write or deletion succeeds, keeps the store good, reports a change exactly when there is one, and affects only its path and the markers above it. |
| `LooseLaws.SafeBatchKeepsGood` | pkg/api/fs.go:597-619 | A safe batch of loose writes succeeds on every good store and keeps it good. |
| `LooseLaws.SafeOnEveryStoreIff` | internal/db/update.go:89-95 | A batch keeps every store good if and only if no path is deleted or changed after the batch has set it. |
| `LooseLaws.LoosePhaseEffect` | pkg/api/fs.go:597-619 | A batch of distinct paths has exactly its effect on the objects of the new version, and reports a change exactly when it makes one. |
| `PackWrites.PackStepEffect` | internal/db/update.go:105-197 | Writing one pack replaces the pack's object by the merge, or removes it when nothing is left, and touches no other path. |
| `PackWrites.PackPhaseEffect` | pkg/api/fs.go:627-647 | Whatever order the pack buffer is iterated in, each pack ends as the merge of what it was with its updates. |
| `UpdateLaws.UpdateKeepsGood` | pkg/api/fs.go:597-647 | An update with a safe batch succeeds and keeps the store good, in every iteration order of the packs. |
| `UpdateLaws.QuietUpdate` | pkg/api/fs.go:652-654 | An update that reports no change has touched no row, for every batch. |
| `UpdateLaws.UpdateRefinesEdit` | pkg/api/fs.go:560-647 | Every file of the new version is what a plain edit of the directory by the batch gives, for any arrival order of the batch and any order of the packs. |
| `UpdateLaws.UpdateIsEdit` | pkg/api/fs.go:560-647 | The files of the new version as a whole are that edit. |
| `CopyLaws.CloneEffect` | internal/db/copy.go:44-100 | The clone succeeds, and the target's new version stores exactly what the source stores at the requested version, also when the two are one project. |
| `CopyLaws.CloneAgain` | internal/db/copy.go:44-100 | Cloning what the target already shows changes no row. |
| `CopyLaws.CopyEffect` | internal/db/copy.go:11-42 | A project made from a template has the template's latest version, under the template's version number, and no other row is touched. |
| `ResetLaws.ResetKeepsVersions` | internal/db/reset.go:29-59 | A rollback to `w` violates no index and leaves every object of every version up to `w` as it was. |
| `ResetLaws.ResetRestores` | internal/db/reset.go:29-59 | It restores exactly the rows the project had when `w` was its latest version. |
| `ResetLaws.GcKeepsVersions` | internal/db/gc.go:22-36 | Object collection leaves every version up to `from` and every version at or above `latest - keep` as it was. |
| `ResetLaws.GcKeepsDiffs` | internal/db/gc.go:22-36 | It leaves every difference between such versions as it was. |
| `ResetLaws.GcMayDropUnprotected` | internal/db/gc.go:22-36 | For every other version there is a store in which it loses an object. |
| `Store.OneLiveRowPerPath` | migrations/000004_identical_object_index.up.sql:1-2 | In a valid database a path has at most one live row, which the schema alone does not enforce. |
| `Store.ValidIsIndexed` | migrations/000001_initial.up.sql:21-25 | A valid database satisfies every unique index. |
| `Store.UpdateKeepsValid` | pkg/api/fs.go:507-669 | An update keeps the database valid and raises the version by exactly one or changes nothing. |
| `Store.CloneKeepsValid` | pkg/api/fs.go:127-184 | A clone never violates an index, succeeds exactly when the target exists and the patterns agree, and keeps the database valid. |
| `Store.NewProjectKeepsValid` | pkg/api/fs.go:75-125 | Creating a project, with or without a template, never violates an index and keeps the database valid; what it does is `RequestLaws.NewProjectDoes`. |
| `Store.RollbackKeepsValidIff` | pkg/api/fs.go:671-701 | A rollback succeeds, and keeps the database valid if and only if the version is not negative. |
| `Store.ResetKeepsValid` | pkg/api/fs.go:800-850 | A reset to versions that are not negative succeeds and keeps the database valid. |
| `Store.GcKeepsValid` | pkg/api/fs.go:852-889 | Object and content collection keep the database valid, so every row's content stays present. |
| `Store.GcProjectIsTwoRequests` | pkg/api/fs.go:875-883 | The collection of a project is two requests, each committed on its own, so that runs may have others between them. |
| `Store.DeleteKeepsValid` | internal/db/project.go:31-49 | Deleting a project keeps the database valid. |
| `Store.NextKeepsValid` | pkg/api/fs.go:75-963 | Every permitted request keeps the database valid. |
| `Store.RunsStayValid` | pkg/api/fs.go:75-963 | Every state of every run is valid: intervals never overlap, lie within 1 to latest, packed rows sit at pack parents, and every hash has content. |
| `Store.UpdateEditsLatest` | pkg/api/fs.go:507-669 | Seen from outside, an update turns the latest files into the edit by its batch and answers with the version that shows them. |
| `RequestLaws.NewProjectSucceedsIff` | pkg/api/fs.go:98-111 | A project is created exactly when its id is free and its template, if it is another project, exists and has the same patterns. |
| `RequestLaws.NewProjectDoes` | internal/db/copy.go:21-36 | The id is added with the patterns as given and nothing else changes; without a template it is at version 0 without a file, otherwise at the template's latest version, with copies of exactly the template's live rows, and with the files the template has there. |
| `RequestLaws.UpdateTouchesOne` | pkg/api/fs.go:507-669 | An update leaves every other project's record and rows, and its own project's patterns, as they were. |
| `RequestLaws.UpdateStores` | internal/db/update.go:64-69 | A loose object that is set is stored with its own hash, mode and size, unless hash and mode were already those. |
| `RequestLaws.CloneDoes` | pkg/api/fs.go:127-184 | A clone raises its target by one version that stores what the source stores, sizes included, and touches no other project and no content. |
| `RequestLaws.RollbackDoes` | internal/db/reset.go:29-59 | A rollback to `w` leaves exactly the rows that had started by `w`, live again where they stopped later, puts the project at `w`, and touches nothing else; a missing project is no error. |
| `RequestLaws.RollbackShows` | internal/db/reset.go:29-59 | Afterwards every version up to `w` has the files it had, and every later one has those of `w`. |
| `RequestLaws.ResetDoes` | internal/db/reset.go:61-79 | An empty snapshot empties the database; one that names projects once rolls back each of them and drops every other project with its rows. |
| `RequestLaws.DeleteDoes` | internal/db/project.go:31-49 | The project and its rows are gone; every other project, and every content, is as it was. |
| `RequestLaws.GcRowsDoes` | internal/db/gc.go:22-36 | The row collection deletes a row of its project if and only if no version that it has to keep shows the row, and nothing else. |
| `RequestLaws.GcContentsDoes` | internal/db/gc.go:78-96 | After a content collection a hash is present if and only if it was before and was not asked for or is the hash of some row. |
| `RequestLaws.GcProjectDoes` | pkg/api/fs.go:852-889 | No content of a deleted row remains unless another row has it; every other content stays; it fails exactly for a `keep` that is not positive. |
| `QuietLaws.QuietIff` | pkg/api/fs.go:597-654 | An update reports no change if and only if its batch brings nothing new: no loose deletion, no word about a missing pack, and every file as it is. |
| `QuietLaws.AnswersLatestIff` | pkg/api/fs.go:652-654 | The server answers with the version it already has if and only if the batch brings nothing new. |
| `QuietLaws.ResendIsQuietIff` | pkg/api/fs.go:507-669 | Sending a proper batch again answers the same version and touches no row if and only if it deletes no loose path and every pack it is about is there. |
| `QuietLaws.ResendIsQuiet` | pkg/api/fs.go:507-669 | In particular, sending a batch without deletions again answers the same version and touches no row. |
| `Store.CloneShowsSource` | pkg/api/fs.go:127-184 | After a clone the target's new version shows the files of the source's version, and each of its earlier versions shows what it did. |
| `Store.CloneTwiceChangesNothing` | internal/db/copy.go:44-100 | A repeated clone adds and closes no row, whichever projects and version it is for. |
| `Runs.RunGrows` | pkg/api/fs.go:507-669 | Over any run of new projects, updates and clones, a project only gains later rows and later stops. |
| `Runs.ReadersAreStable` | internal/db/query.go:60-80 | A reader that fixed its versions gets the same files and the same difference however such requests interleave with its statements. |
| `Runs.EveryDifferenceIsRight` | internal/db/queryBuilder.go:38-139 | After any run from the empty database, every difference leads from the files of its first version to those of its second. |
| `Runs.ResetUndoesTheRun` | internal/db/reset.go:29-79 | Resetting to a snapshot after any run of new projects, updates and clones restores projects and rows exactly. |
| `TreeLaws.EditKeepsTreesIff` | internal/db/update.go:82-95 | An update of a tree gives a tree if and only if no two paths it sets lie one above the other and none lies above or beneath what the batch neither names nor replaces. |
| `TreeLaws.StepKeepsTrees` | pkg/api/fs.go:75-963 | Every request, with updates that fit, keeps every version of every project tree-shaped. |
| `TreeLaws.FittingRunsKeepTrees` | pkg/api/fs.go:75-963 | So does every run from the empty database. |
| `TreeLaws.EveryDifferenceOfAFittingRun` | internal/db/queryBuilder.go:38-139 | After such a run every difference leads from the files of its first version to those of its second, with nothing assumed about them. |
| `ClientProtocol.Client.Rebuild` | pkg/client/client.go:361-505 | The client applies the stream change by change and records the version; it does nothing when it is at the version asked for, or when the stream is empty. |
| `ClientProtocol.CatchUpIff` | pkg/client/client.go:644-651 | A directory with local edits made at `f` catches up with `t` if and only if the edits agree with `t` wherever the difference is silent and nothing they added was deleted in silence. |
| `ClientProtocol.CatchUpReceivedIff` | pkg/client/client.go:644-651 | The same between received directories, for files of any mode. |
| `ClientProtocol.Client.FinishUpdate` | pkg/client/client.go:639-653 | The version recorded and returned is the answered one on the shortcut, the old one after an empty stream, and otherwise the one the rebuild reached, with every change applied. |
| `ClientProtocol.EndsAtLatest` | pkg/client/client.go:644-650 | Whatever version the update was answered with and whoever committed since, a rebuild with a difference records the latest version, with its directory exactly under the conditions of the catch-up. |
| `ClientProtocol.RebuildAfterUpdate` | pkg/client/client.go:644-651 | Whatever other clients committed before the batch arrived, and in whatever modes, a rebuild right after it leads a client with plain edits of what it had received to what the new version is received as. |
| `ClientProtocol.RebuildEnds` | pkg/client/client.go:644-651 | The same for every client, path by path: each file of the new version is there as it is sent, as the client set it, or as the client had it before, and nothing else is there. |
| `ClientProtocol.ClientEndsLike` | pkg/client/client.go:507-654 | When any client with edits of its own made the server create version `w` and nobody committed since, it ends with a directory that is `w` up to what a tar does not carry, and records `w`, on both paths. |
| `ClientProtocol.ClientEndsAtItsVersion` | pkg/client/client.go:507-654 | When it edited what it had received, in plain modes, it ends with exactly what `w` is received as, and records `w`, whatever others wrote. |
| `ClientProtocol.ClientEndsExactly` | pkg/client/client.go:507-654 | When it edited the exact files of `v` and what was written since is plain, it ends with the exact files of `w`. |
| `ClientProtocol.RecordsIff` | pkg/client/client.go:639-651 | Whatever the directory, the new version is recorded if and only if it is the next one or the difference to it is not empty. |
| `ClientProtocol.Client.CompleteUpdate` | pkg/client/client.go:632-653 | The end of an update of a client that edited what it had received leaves what the new version is received as, and returns and records that version. |
| `ClientProtocol.ShortcutWithoutUpdateIff` | pkg/client/client.go:639-643 | When the batch was no change but the answer is `v + 1`, the recorded version is right if and only if that other commit touched nothing outside the batch. |
| `Server.Fs.InsertContent` | internal/db/update.go:54-62 | Adds the content under its own hash, keeping what is there. |
| `Server.Fs.UpdateObject` | internal/db/update.go:42-103 | Stores the content and makes the row changes of a loose write, and says whether there were any. |
| `Server.Fs.SelectPack` | internal/db/update.go:109-134 | Finds the hash and the entries of the live pack. |
| `Server.Fs.UpdatePackedObjects` | internal/db/update.go:105-197 | Replaces the live pack by the streamed merge, keeping every row's content present, and says whether it changed. |
| `Server.Fs.ReplacePack` | internal/db/update.go:136-197 | The writing half: nothing when the hash is the same, otherwise close and, unless empty, insert. |
| `Server.Fs.Route` | pkg/api/fs.go:560-566 | Adds one object to the buffer it belongs to; the buffers stay the split of what has arrived. |
| `Server.Fs.Receive` | pkg/api/fs.go:529-579 | The stream is accepted or refused as `Server.AcceptedIff` says; the two buffers then split the batch, in arrival order, by the patterns of the first message's project. |
| `Server.AcceptedIff` | pkg/api/fs.go:540-558 | A stream is accepted exactly when every message is for the token's project, or, for an administrator, those for -1 come first and the others are all for one project, and the first message names a project that exists; it is then for the project of the last one. |
| `Server.Fs.WriteObjects` | pkg/api/fs.go:597-619 | Writes the object buffer one after the other, as the phase of the same name. |
| `Server.Fs.WritePacks` | pkg/api/fs.go:627-647 | Writes the packs in some order of the buffer, as the phase for that order. |
| `Server.Fs.Update` | pkg/api/fs.go:507-669 | The request is an update transition for the settled project, with the new version committed or the rows as they were; otherwise it fails and changes nothing. |
| `Server.UpdateIsRoutedByTarget` | pkg/api/fs.go:540-558 | The settled project is that of the first message if and only if the stream is identified; then the update is that of its project by its own patterns, and keeps the database valid for a safe batch. |
| `Server.FirstIsTargetIff` | pkg/api/fs.go:540-558 | An accepted stream settles on the project of its first message if and only if a token names the project, the first message is not for -1, or every message is. |
| `Server.RoutedByTargetIff` | pkg/api/fs.go:540-560 | Every database that accepts the stream routes it by the patterns of the project it settles on, if and only if it is identified. |
| `Server.Fs.NewProject` | pkg/api/fs.go:75-125 | The request is the transition of the same name, errors included, which is pinned down in `RequestLaws.NewProjectDoes`; the database stays valid. |
| `Server.Fs.CloneToProject` | pkg/api/fs.go:127-184 | The request is the clone transition, errors included; a valid database stays valid. |
| `Server.Fs.Rollback` | pkg/api/fs.go:671-701 | The request is the rollback transition; a valid database stays valid for a version that is not negative. |
| `Server.Fs.Snapshot` | internal/db/project.go:51-77 | The response has every project once, with its latest version: what `Runs.ResetUndoesTheRun` resets to. |
| `Server.Fs.Reset` | pkg/api/fs.go:800-850 | The request is the reset transition: everything truncated for an empty snapshot, else each project rolled back and the others dropped. |
| `Server.Fs.GcProjectObjects` | internal/db/gc.go:12-55 | Deletes the collected rows and returns their hashes, one for each row. |
| `Server.Chunk` | internal/db/gc.go:101-107 | The chunks concatenate to the input, and none is longer than the chunk size. |
| `Server.Fs.GcContentHashes` | internal/db/gc.go:71-99 | Collecting in chunks of 500, duplicates included: a hash is present afterwards if and only if it was before and was not asked for or is the hash of some row; the count is the number of contents that went. |
| `Server.MissingSplit` | internal/db/gc.go:78-96 | Collecting a second chunk after a first one removes exactly what collecting both at once removes; that it is what no row has is `RequestLaws.GcContentsDoes`. |
| `Server.Fs.GcProject` | pkg/api/fs.go:852-889 | The two statements one after the other are the collection transition: no content of a deleted row remains unless another row has it, every other content stays, and the count is the number that went. |
| `Upload.NeverPanics` | pkg/client/client.go:594-597 | No operation that can happen sends on a closed channel or closes one twice. |
| `Upload.InvStep` | pkg/client/client.go:528-630 | Every operation keeps each entry in exactly one place and the channels' closing protocol. |
| `Upload.RemainingStep` | pkg/client/client.go:528-630 | Every operation brings the pipeline exactly one operation closer to its end. |
| `Upload.NeverStuck` | pkg/client/client.go:528-630 | Until everything has ended, some operation can happen, with at least one reader. |
| `Upload.RunsAreSafe` | pkg/client/client.go:528-630 | After any interleaving: pending, waiting, held, queued and sent entries add up to the difference, each entry is in one place, and no next operation panics. |
| `Upload.EveryEntrySentOnce` | pkg/client/client.go:528-630 | An interleaving that cannot go on has sent every entry exactly once, and took the same number of operations as any other. |
| `Upload.RunsEnd` | pkg/client/client.go:528-630 | No interleaving goes on for longer. |
| `ContentCache.ContentLookup.Lookup` | internal/db/content.go:179-246 | Everything the table holds is found; whatever is found was read from the table or the cache; the cache only gains what the table holds, whatever it evicts in between. |
| `ContentCache.LookupIsAnEvent` | internal/db/content.go:179-246 | Whatever a lookup does to the cache is to copy some table entries and to drop others, which is what the runs are made of. |
| `ContentCache.RunsStayIntact` | internal/db/content.go:179-246 | Over every run of stores, collections, evictions and lookups, each value in the table and in the cache is what storing the content of its hash gives. |
| `ContentCache.LookupAgreesWithTable` | internal/db/content.go:179-246 | After every such run a lookup cannot fail, agrees with decoding the table directly, and never gives content of another hash. |
| `ContentCache.LookupIsRightIff` | internal/db/content.go:189-204 | With no assumption about kinds, after any run: a lookup of a content as one kind always gives it if and only if it was first stored as that kind since it was last collected, and the cache does not still hold it as the other kind. |
| `ContentCache.FirstKindWins` | internal/db/update.go:54-59 | The same bytes stored as a file and then as a pack: every answer for the pack is the compressed file. |
| `Chunks.LookupServes` | internal/db/query.go:144-172 | A lookup for the rows of a chunk succeeds and finds what belongs to each row, also where rows share a hash. |
| `Chunks.ChunkHashes` | internal/db/query.go:145-153 | The hashes of a chunk are those of its uncached rows, each with the flag of some row that has it. |
| `Chunks.LayOut` | internal/db/query.go:160-171 | The contents of a chunk, row by row. |
| `Chunks.LoadChunk` | internal/db/query.go:144-172 | Every row of the chunk gets its own content, and the cache stays intact. |
| `TarStreams.TarWriter.WriteObject` | internal/db/tar.go:64-99 | An object becomes a tar entry with its permissions, its type, its link name or its body, and the running size grows by its name and its body. |
| `TarStreams.TarStream.Next` | internal/db/query.go:268-317 | A call of the generator, chunk reloads included, is a step over the rows paired with their own contents. |
| `TarStreams.TarStream.SendAll` | pkg/api/fs.go:397-418 | The loop of the handler sends everything the generator delivers and ends within two calls more than there are rows. |
| `TarStreams.PacksGoOutOnce` | internal/db/query.go:297-299 | Every pack row goes out once, in order, with its own content. |
| `TarStreams.RowsGoOutOnce` | internal/db/query.go:268-317 | Every other row goes out once, in order, in a shared tar, except what is lost at the very end. |
| `TarStreams.CompleteIff` | internal/db/query.go:268-317 | A whole query delivers exactly its rows if and only if nothing is lost. |
| `TarStreams.EveryRowGoesOut` | internal/db/query.go:297-314 | A pack row that is not cached goes out as its pack; every other row, cached packs included, has an entry in a shared tar that says what it is, its hash if it is cached, if nothing is lost. |
| `TarStreams.OnlyRowsGoOut` | internal/db/query.go:268-317 | Nothing else goes out. |
| `TarStreams.NeverLosesIff` | internal/db/query.go:269-280 | No query over the rows a project may hold loses a row if and only if each row that shares a tar has a path, or is a removal, cached or a regular file and has a body. |
| `TarStreams.WeightlessRowIsLost` | internal/db/query.go:269-280 | A single row without path and body is not delivered at all. |
| `TarStreams.SharedTarsAreFull` | internal/db/query.go:308-314 | Every shared tar but the last delivery exceeds the target size, and only by its last object; the last one is not empty. |
| `ObjectStreams.ObjectStream.Next` | internal/db/query.go:199-247 | A call of the generator, chunk reloads and the pack buffer included, is a step over the rows paired with their own contents. |
| `ObjectStreams.ObjectStream.CollectAll` | pkg/api/fs.go:487-501 | The loop of the handler ends, with everything the generator hands out or a failure. |
| `ObjectStreams.StreamGivesMatches` | internal/db/query.go:103-113 | The stream gives every matching object of every row, packs expanded, in order, if and only if no row is cached and no pack is empty; which objects match is `GetLaws.GetAnswers`. |
| `GetLaws.GetUnary` | pkg/api/fs.go:424-505 | The request over the content table, the cache and the stream returns what the model says. |
| `GetLaws.PresentRows` | internal/db/query.go:228-246 | The stream reads back from the stored bytes exactly the objects a row stands for, at least one. |
| `GetLaws.CrashesIff` | internal/db/query.go:228-237 | A request fails if and only if some pack was removed between its versions, wherever that pack is. |
| `GetLaws.CrashesOnLostPack` | internal/db/queryBuilder.go:111-139 | In terms of the rows: it fails if and only if some pack live at `f` has stopped by `t` and no row written since lies in it that the query selects. |
| `GetLaws.SelectedUnlessMissed` | internal/db/query.go:176-183 | The query, redirected to the pack parent, selects the row of a matching file unless the path is a packed directory without its slash and the file lies beside it. |
| `GetLaws.GetShows` | internal/db/query.go:176-248 | From version 0 a request succeeds, returns each path once, and shows the version at every matching path that is not missed, and nothing elsewhere. |
| `GetLaws.GetAnswers` | internal/db/query.go:103-113 | Where nothing is missed: a prefix request returns exactly the files whose path starts with the asked string, an exact one the file at that path, each once, not deleted, with its mode and content and the stored size. |
| `GetLaws.GetEverything` | internal/db/query.go:103-113 | The empty prefix returns every file of the version, unless a pattern packs the root. |
| `GetLaws.NamedBeneath` | internal/db/query.go:103-113 | A prefix request for a directory with its slash is for everything beneath it and nothing else. |
| `GetLaws.GetIsRightIff` | internal/db/query.go:176-248 | It returns exactly the files whose path starts with the prefix, or is the exact path, if and only if the version has no missed file. |
| `RebuildLaws.GetCompress` | pkg/api/fs.go:339-422 | The request over the content table, the cache and the generator sends the tars of the model. |
| `RebuildLaws.RowArrives` | internal/files/writer.go:252-305 | A row reaches the client, through hash, content, compression and tar, as the change the difference asks for, a loose file in the normal form of a tar. |
| `RebuildLaws.RowArrivesUnchangedIff` | internal/db/tar.go:72-82 | It arrives unchanged if and only if it is a removal, a pack, or a file of plain mode. |
| `RebuildLaws.TarsCarryDiff` | internal/db/query.go:252-318 | The tars of a whole-project request carry exactly the changes of the difference, each as it is sent, if every row goes out alone or has a path or a body. |
| `RebuildLaws.RebuildReachesTarget` | pkg/client/client.go:361-505 | End to end and for every store: a directory received at `f`, patched with what the server sends for `t`, entry by entry in whatever order and interleaving, is the directory received at `t`. |
| `RebuildLaws.RebuildIsExactIff` | internal/db/tar.go:72-82 | From the exact files of `f` it reaches the exact files of `t` if and only if every loose row it updates is plain. |
| `ByteStore.ValidIsHeld` | internal/db/update.go:42-62 | In a valid database in which every key is of one kind, the byte table holds every row's content, as the row's kind. |
| `ByteStore.StoringIsAnInsert` | internal/db/update.go:54-59 | Storing a content is one insert into the byte table, or none when it is there. |
| `ByteStore.CollectingIsARemoval` | internal/db/gc.go:79-90 | Collecting contents removes the entries of their keys from the byte table, and no others. |
| `ByteStore.CachedRunsAreSound` | internal/db/content.go:179-246 | Over every run of requests, evictions and refills, with one kind for each key, the database stays valid and the cache intact, whatever is collected and stored again. |
| `ByteStore.GetOnEveryRun` | internal/db/query.go:176-248 | In every state of every such run, with whatever the cache then holds, a request from version 0 succeeds and returns exactly the files it names if and only if none of them is missed. |
| `ByteStore.RebuildOnEveryRun` | pkg/client/client.go:361-505 | In every state of such a run whose updates fit, what the server sends between any two versions turns what was received at the one into what is received at the other, in whatever order it is written. |
| `Examples.SetTwice` | internal/db/update.go:89-95 | Setting a path twice, differently, in one batch leaves two live rows. |
| `Examples.ShortcutMissesFile` | pkg/client/client.go:639-643 | A valid store and a client that records version 1 without one of its two files. |
| `Examples.DeletedAgainStays` | pkg/client/client.go:644-651 | A file added by a client and deleted by another before the catch-up stays in the client's directory. |
| `Examples.PrefixMissesNeighbour` | internal/db/query.go:176-183 | A version that holds `ab` beside the packed `a/`: no answer to a request for the prefix `a` shows it. |
| `Examples.RemovedPackCrashes` | internal/db/query.go:228-237 | A store with one removed pack on which every request across the removal fails. |
| `Examples.ChangedPackCrashes` | internal/db/queryBuilder.go:111-131 | A pack that only changed makes a request crash that does not select it. |
| `Examples.NothingToRecord` | pkg/client/client.go:401-406 | A client without edits of its own, for whose batch a version was made, goes on recording the earlier one; its directory is right. |
| `Examples.SetuidIsLost` | internal/db/tar.go:74 | A file with the setuid bit arrives without it. |
| `Examples.BorrowedPatterns` | pkg/api/fs.go:540-558 | A valid database, a stream that begins with the project -1, and the invalid database that its update leaves. |
| `Examples.MarkerStaysAbovePack` | internal/db/update.go:105-197 | A version with a file beneath a marker, and the difference to it that loses the marker. |
| `Examples.MarkerUpdate` | internal/db/update.go:105-197 | A packed write beneath an empty directory makes that version. |

## Left out

- SQL text, connections, row locks and isolation levels: a statement is a function on the row set and a transaction is one step; an error rolls the rows back.
- SHA-256, S2 and the bytes of a tar: function parameters with stated laws. The reuse of one output buffer by `TarWriter.BytesAndReset` is not modelled either.
- The size of a stored pack: `Table.PackSize` stands for the length of the compressed tar, and nothing depends on which function it is.
- Regular expressions, `LIKE` wildcards and ignore lists: predicates, literal prefixes, none.
- Prefix-restricted differences with removals: the removed query has no path predicate, so such a difference does not lead to a view.
- Cached objects on the client's disk (`is_cached` is modelled in the tar stream only), cache versions, hard links, the CSI driver.
- The disk: a client's directory is a map from paths to files. That writing beneath a file replaces it is part of the map patch; on a real disk a path that changes its kind makes `MkdirAll` fail.
- What a client makes of the mode of a directory or a symlink: the model keeps it, the disk does not.
- fsdiff: the batch is assumed to describe the local edits.
- Content collection between an update's content insert and its commit: the insert and the commit are one step here.
- Failures and cancellation in the upload pipeline: no read, send or receive fails.
- Strings are compared character by character, where a character is a code point; Go compares the bytes of UTF-8, which is the same order.
- `sort.Slice` is a stable insertion sort here; for distinct paths, which order it picks is not observable (`PackMerge.SortedIsUnique`).
- Random sampling in garbage collection: the sample is an arbitrary set of hashes.
- Authentication, logging, telemetry, the command line and the TypeScript clients: no hard property.
- Runs.ResetUndoesTheRun: speaks of projects and object rows; contents that the run added stay until they are collected.
- ClientProtocol.Client.Rebuild: the receiver, its check that all responses carry one version, and the writing workers are not modelled; the stream is in the order in which they write, and `RebuildLaws.RebuildReachesTarget` holds for every order.
- Server.Fs.GcProject: other requests between its two statements; `Store.GcProjectIsTwoRequests` has them.
