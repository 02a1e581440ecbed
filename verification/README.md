# A verified model of the Nextcloud Rust core's file cache

The Rust core in this repository answers WebDAV requests and keeps
`oc_filecache`, the table of files and folders of a user's storage, in step with
them.  This project models that code in Dafny and proves what it keeps.

Three parts carry the weight.

* **The filecache tree** (`Paths`, `Tree`, `Propagation`, `Stores`,
  `Operations`, `FileCaches` and the proof modules).  The class `FileCache` holds
  the table as a map of rows and runs PUT, bulk upload, MKCOL, COPY, MOVE,
  PROPPATCH of the mtime, hard delete and delete-to-trash statement by statement.
  Each method is proved equal to a function on the store.  About those functions
  the lemmas prove the shape of the tree, exact folder sizes, conservation on
  trashing, the quota over whole runs, and that a client following changed etags
  misses nothing.  `Outcomes`, `WriteOutcomes`, `MoveOutcomes` and `TrashOutcomes`
  write out what every request does to every row: sizes, the three time and etag
  columns, and exactly when it is done.
* **Concurrent propagation** (`Locks`, `Concurrency`).  Any number of
  transactions lock ancestor rows in ascending order.  There is no deadlock, every
  schedule ends, and the result is that of the same propagations in commit order.
* **The batched PROPFIND** (`Propfind`, `Listing`).  The gated batch answers what
  the per-node queries would, with the exact exception for `nc:sharees`, and what
  it answers is right in terms of the tables.

The smaller parts are the multipart parser of bulk uploads (`Multipart`), the
chunking archive writer (`Streaming`), the session and token caches (`Caches`),
three calendar computations (`Calendar`), percent encoding (`PercentCodec`), tags
(`Tags`), trash names (`TrashNames`) and the text form of paths (`PathText`).

A folder is *exact* when it records -1 if any child is unscanned and otherwise
the sum of its children's sizes.  Etags are numbers from a counter, so a new etag
is one that never occurred before.  `Env` carries the clock and the mtimes on
disk; `diskOk` and `onDisk` stand for what the disk answers, and `checksumOk` for
the comparison of a body with its announced checksum.

Run `dafny verify dfyconfig.toml` here to check everything.

## What the proofs found

The model follows the code, also where its comments or its callers expect
something else.  Each point is stated by the members it names.

* MOVE hands the parent paths to the size recomputation, which only visits strict
  ancestors of what it is given.  The two direct parents keep wrong sizes
  (`MoveLeavesParentsWrong`); `MoveSizesExact` says exactly when they do not.
* `check_quota` reads a negative free space as "unlimited", and the free space of
  a user over quota is negative (`GateEnforcesUntilExceeded`).  The check at commit
  uses the whole storage instead of `files`, and is sound by itself
  (`PutCommitted`).  It is off for users under the server's default quota, so an
  upload that announces less than it sends can then exceed it
  (`UndeclaredPutExceeds`; `AnnouncementDecides` gives the exact condition).
* A MOVE keeps the moved directory's etag, so comparing path and etag only is not
  enough to notice every change (`PathAndEtagMislead`); comparing fileid and etag
  is (`MirrorIsComplete`).  Path and etag suffice as long as no directory is moved
  (`RunIsNoticedByPath`).
* The floor at -1 makes concurrent size updates depend on their order exactly when
  the reductions of a row do not fit (`InterleavingsAgree`).
* Replacing, deleting or trashing the last unscanned entry of a folder by a delta
  leaves the folder at -1 (`PutKeeps`, `HardDeleteKeeps`, `TrashExact`).
* The share gate looks for `sharees` in the wrong namespace, and the batch lists a
  share twice where the single-row query says DISTINCT (`BatchAgrees`,
  `ShareesAloneAreLost`).
* A bulk part without a path or with a bad mtime is skipped before its length is
  checked (`SkippedPartIsUnchecked`).
* The archive's year is one too early in January and February
  (`YearLagsBeforeMarch`, `ArchiveYearIs`).
* The archive writer loses its tail when the channel is full at the end
  (`StreamingWriter.Drop`).
* A token fetch that is under way during a revocation stores the revoked token
  again (`LateStoreRevives`; `RevocationExact` says exactly when it can come back).
* Asking for a stored tag with extra blanks only removes the tag (`LostIff`,
  `UpdateIsRequest`).

## Model

| member | source | states |
|---|---|---|
| `FileCaches.GetParents` | core-rs/crates/nc-dav/src/propagator.rs:54-69 | Lists exactly the strict ancestors of a path, root first, one per segment. |
| `PathText.GetParents` | core-rs/crates/nc-dav/src/propagator.rs:43-69 | The text loop yields the texts of the strict ancestors of any path written with slashes, starting with the empty text of the storage root. |
| `FileCaches.FileCache.PropagateChange` | core-rs/crates/nc-dav/src/propagator.rs:82-124 | One statement over the listed ancestors: every strict ancestor gets one shared new etag, the signed size change, and the larger of its mtime and the reported time, which counts as the present time when it lies ahead; no mtime goes back, and no other row changes. |
| `FileCaches.FileCache.RecomputeFolderSize` | core-rs/crates/nc-dav/src/propagator.rs:454-505 | After the write the folder records what its children say: -1 with any unscanned child, else their sum; an absent folder or a right size changes nothing. |
| `FileCaches.SumAndMin` | core-rs/crates/nc-dav/src/propagator.rs:466-488 | The pass over the children finds their total, and -1 as the least size exactly when some child is unscanned. |
| `FileCaches.FileCache.CorrectFolderSizeChain` | core-rs/crates/nc-dav/src/propagator.rs:440-449 | Recomputes every ancestor, deepest first. |
| `FileCaches.FileCache.CorrectParentStorageMtime` | core-rs/crates/nc-dav/src/propagator.rs:385-425 | Both mtimes of the row at the path, and nothing else, take the directory's mtime on disk. |
| `Outcomes.PropTells` | core-rs/crates/nc-dav/src/propagator.rs:88-172 | The same of the propagation function, row by row and with the numbers: mtimes never fall nor pass the clock, unscanned sizes stay, other sizes stop at -1. |
| `Outcomes.TouchTells` | core-rs/crates/nc-dav/src/propagator.rs:385-425 | Both mtimes of exactly the row at the path become the mtime on disk; no etag changes. |
| `Propagation.ChainExact` | core-rs/crates/nc-dav/src/propagator.rs:440-505 | One recomputation of the chain makes every folder on it exact, whatever it recorded before, and keeps every other exact folder exact. |
| `Propagation.ChainExactIff` | core-rs/crates/nc-dav/src/propagator.rs:440-505 | After a recomputation a folder is exact if and only if it is a strict ancestor of the path or was exact before. |
| `Propagation.ChainRepairs` | core-rs/crates/nc-dav/src/propagator.rs:440-505 | From arbitrary sizes on the chain, with exact folders elsewhere, one recomputation makes the whole tree exact and a second changes nothing. |
| `Propagation.NoClamp` | core-rs/crates/nc-dav/src/propagator.rs:164-172 | Where a delta is due, no scanned ancestor can fall below zero, so the floor at -1 never fires. |
| `Propagation.DeltaExactOn` | core-rs/crates/nc-dav/src/propagator.rs:82-172 | Where a delta is due, the signed update makes every ancestor exact. |
| `Propagation.FastRefinesSlow` | core-rs/crates/nc-dav/src/propagator.rs:82-124 | The signed delta and the recomputed chain record the same sizes on every row. |
| `Statements.ChainDelta` | core-rs/crates/nc-dav/src/propagator.rs:440-505 | Where a delta is due, recomputing the chain shifts exactly the scanned ancestors by it. |
| `PathText.ParentAndName` | core-rs/crates/nc-dav/src/path_utils.rs:5-12 | Cutting at the last slash gives the parent path and the last segment. |
| `PathText.RenderInjective` | core-rs/crates/nc-dav/src/row/paths.rs:20-23 | Different paths have different texts, so an injective hash of the text identifies the row. |
| `PathText.PrefixMeansAbove` | core-rs/crates/nc-dav/src/row/rekey.rs:22-29 | A text starts with another followed by a slash exactly when its path lies below the other. |
| `PathText.RekeyText` | core-rs/crates/nc-dav/src/row/rekey.rs:15-62 | Replacing the old prefix text by the new one moves a descendant to the same place below the new prefix. |
| `PathText.DavIsUnderFiles` | core-rs/crates/nc-dav/src/row/paths.rs:6-17 | Every request path becomes `files` or a path below it. |
| `FileCaches.FileCache.EnsureParentDir` | core-rs/crates/nc-dav/src/mutations.rs:27-233 | The segment walk succeeds exactly when the row exists or every existing ancestor is a directory and the first segment can be made beside `files`; it creates the missing ancestors only, and on failure leaves the table as it was. |
| `FileCaches.FileCache.MakeDir` | core-rs/crates/nc-dav/src/mutations.rs:109-229 | One missing directory: the row under its parent's id, the parent's mtime from disk, then the stamps above. |
| `FileCaches.FileCache.StoreVersion` | core-rs/crates/nc-dav/src/versions.rs:32-165 | The old content's version row, its folders and their repair, or nothing for part files, empty files, directories and blocked paths. |
| `FileCaches.FileCache.Put` | core-rs/crates/nc-dav/src/davfile.rs:398-716 | The whole upload, from opening to propagation, with its refusals: onto a directory, below a file, bad checksum, over quota; when it is done the file is there as sent, and keeps its old etag exactly when the storage mtime recorded before is set and is the one on disk. |
| `FileCaches.FileCache.OverQuotaNow` | core-rs/crates/nc-dav/src/row/quota.rs:13-40 | Refuses a body at least as large as the quota minus the recorded size of the storage root, floored at zero. |
| `FileCaches.FileCache.CommitNew` | core-rs/crates/nc-dav/src/davfile.rs:612-716 | A new file: row, recomputed chain, parent mtime, then stamps without a delta. |
| `FileCaches.FileCache.OverwriteRow` | core-rs/crates/nc-dav/src/davfile.rs:587-611 | One UPDATE by fileid: size, both mtimes and the etag of the file's row, and nothing else. |
| `FileCaches.FileCache.CommitOverwrite` | core-rs/crates/nc-dav/src/davfile.rs:587-716 | An overwrite: row, parent mtime, then stamps with the signed difference; the row keeps its etag exactly when the storage mtime recorded before is set and is the one on disk, and otherwise gets the newly drawn one. |
| `FileCaches.FileCache.BulkWrite` | core-rs/crates/nc-dav/src/bulk_handler.rs:341-489 | One bulk part: refused without a parent directory, otherwise written and reported as a signed delta. |
| `FileCaches.FileCache.Mkcol` | core-rs/crates/nc-dav/src/mutations.rs:236-317 | MKCOL with ancestor creation. |
| `FileCaches.FileCache.CloneRow` | core-rs/crates/nc-dav/src/mutations.rs:603-713 | The clone keeps size, mtime and etag of its source and hangs below the ensured parent; without a source row nothing is inserted. |
| `FileCaches.FileCache.Copy` | core-rs/crates/nc-dav/src/mutations.rs:572-858 | COPY: old target row out, clone in, target chain stamped and recomputed, then the shadow chain under `files_versions`. |
| `FileCaches.FileCache.MoveRow` | core-rs/crates/nc-dav/src/mutations.rs:365-474 | The moved row's own update followed by the subtree rekey equals moving every row of the subtree at once. |
| `FileCaches.FileCache.Move` | core-rs/crates/nc-dav/src/mutations.rs:320-569 | MOVE, with the parent paths handed to the recomputation as the code does. |
| `FileCaches.FileCache.SetMtime` | core-rs/crates/nc-dav/src/mutations.rs:861-894 | A PROPPATCH of the modification time: both mtimes of the row at the path become the requested one and nothing else in it changes; the folders above are told, clamped. |
| `FileCaches.FileCache.HardDelete` | core-rs/crates/nc-dav/src/trashbin.rs:74-287 | Deleting a file by id or a directory by prefix removes exactly the subtree, then sends the negative delta up. |
| `FileCaches.FileCache.FreeStamp` | core-rs/crates/nc-dav/src/trashbin.rs:376-394 | The collision loop ends, with the least timestamp from now on for which neither the table nor the disk has `name.d<timestamp>` in the trash folder. |
| `FileCaches.FileCache.MoveToTrash` | core-rs/crates/nc-dav/src/trashbin.rs:184-543 | Delete-to-trash: least free stamp, skeleton and cache folders, the moved rows, trash chain first and source chain last. |
| `FileCaches.FileCache.MoveIntoTrash` | core-rs/crates/nc-dav/src/trashbin.rs:457-586 | The moved rows, the node's recorded mtime from disk, then the trash chain and at last the source chain. |
| `FileCaches.FileCache.PrepareTrash` | core-rs/crates/nc-dav/src/trashbin.rs:396-427 | Creates exactly the missing skeleton folders and the cache folder. |
| `FileCaches.FileCache.EnsureCache` | core-rs/crates/nc-dav/src/cache_rows.rs:75-128 | The cache folder's row is made below the storage root when absent. |
| `OperationProofs.EnsureKeeps` | core-rs/crates/nc-dav/src/mutations.rs:27-233 | Ancestor creation keeps shape, exactness and history, leaves rows off the chain alone and adds empty directories on it only. |
| `Outcomes.EnsureRow` | core-rs/crates/nc-dav/src/mutations.rs:27-233 | Row by row: the made directory carries the present time and its own etag; each row above is told at the present time under one new etag, and is first read back from disk exactly where the next segment was missing; no other row changes. |
| `OperationProofs.StoreVersionKeeps` | core-rs/crates/nc-dav/src/versions.rs:32-165 | Storing a version keeps shape, exactness and history and touches only the chain of the version path. |
| `WriteOutcomes.VersionRow` | core-rs/crates/nc-dav/src/versions.rs:57-165 | Row by row: whether the old content is kept (name not ending in `.part`, not empty, nothing but files and folders where they belong), under `name.v<mtime>` with size, mtime and etag of the file, and which folders are read back from disk and told. |
| `OperationProofs.CommitNewKeeps` | core-rs/crates/nc-dav/src/davfile.rs:612-716 | Committing a new file keeps shape, exactness and history, and the file is there as uploaded. |
| `OperationProofs.MkcolKeeps` | core-rs/crates/nc-dav/src/mutations.rs:236-317 | MKCOL succeeds exactly when the target is free and its parent is or can be made a directory, and keeps shape, exactness and history. |
| `RequestProofs.PutKeeps` | core-rs/crates/nc-dav/src/davfile.rs:676-716 | PUT keeps shape and history; on an exact tree it is done exactly when the table before admits it, and the tree stays exact if and only if it was not admitted or does not replace a folder's last unscanned entry. |
| `PutGuards.PutDecided` | core-rs/crates/nc-dav/src/davfile.rs:422-542 | Which uploads are accepted, from the table before: target no directory, parent a directory or one that can be made, checksum right, and the body below the quota minus what the root records once the old version has been kept. |
| `PutGuards.VersionRoot` | core-rs/crates/nc-dav/src/versions.rs:140-164 | Keeping a new version adds the old size to a scanned storage root, and nothing otherwise. |
| `WriteOutcomes.PutDone` | core-rs/crates/nc-dav/src/davfile.rs:422-542 | An upload is accepted exactly when its checksum matches, no folder is at the path, only folders are above it, `files` is there, and the size is below the quota minus what the root records once the old version is kept. |
| `WriteOutcomes.PutNewRow` | core-rs/crates/nc-dav/src/davfile.rs:612-716 | A new file, row by row: the file as sent with a new etag, its folder read back from disk, every folder above told of the upload's mtime or, above a folder that had to be made, of the present time. |
| `WriteOutcomes.PutOverRow` | core-rs/crates/nc-dav/src/davfile.rs:587-716 | An overwrite, row by row: the file keeps its etag if the storage mtime recorded before is not 0 and equals the one on disk and gets a new one otherwise; sizes above shift by the difference with unscanned ones left alone; the kept version and its folders. |
| `WriteOutcomes.PutUploads` | core-rs/crates/nc-dav/src/davfile.rs:587-716 | The file after any accepted upload: size and both mtimes as sent, its old etag or a new one as above. |
| `WriteOutcomes.RootMtime` | core-rs/crates/nc-dav/src/propagator.rs:88-165 | The storage root's mtime after an accepted upload, in terms of the one before, the upload's, the clock and the disk. |
| `WriteOutcomes.PutRefusedRow` | core-rs/crates/nc-dav/src/davfile.rs:422-542 | A refused upload leaves nothing behind but the folders made for it or the version of what it would have replaced. |
| `WriteOutcomes.NoRowLost` | core-rs/crates/nc-dav/src/davfile.rs:398-716 | PUT, bulk parts and MKCOL take no row away, accepted or not. |
| `RequestProofs.BulkKeeps` | core-rs/crates/nc-dav/src/bulk_handler.rs:480-489 | The same for a bulk part, which is done exactly when the parent is a directory and the target is not. |
| `WriteOutcomes.BulkDone` | core-rs/crates/nc-dav/src/bulk_handler.rs:341-395 | A bulk part is written exactly when its folder is there and no folder is in its place; otherwise nothing changes. |
| `WriteOutcomes.BulkNewRow` | core-rs/crates/nc-dav/src/bulk_handler.rs:426-489 | A new bulk file, row by row: the file as sent with a new etag, and every folder above told of the clamped mtime and the size. |
| `WriteOutcomes.BulkOverRow` | core-rs/crates/nc-dav/src/bulk_handler.rs:405-489 | A bulk part onto a file, row by row: always a new etag, and no folder of the file is read back from disk. |
| `WriteOutcomes.MkcolDone` | core-rs/crates/nc-dav/src/mutations.rs:236-317 | MKCOL makes a folder exactly where nothing is, only folders are above and `files` is there; otherwise nothing changes. |
| `WriteOutcomes.MkcolRow` | core-rs/crates/nc-dav/src/mutations.rs:236-317 | MKCOL, row by row: the empty folder at the present time, and what happens to every row above it. |
| `RequestProofs.HardDeleteKeeps` | core-rs/crates/nc-dav/src/trashbin.rs:145-173 | Exactly the subtree disappears, every ancestor is stamped, and sizes stay exact if and only if no folder loses its last unscanned entry. |
| `WriteOutcomes.HardDeleteRow` | core-rs/crates/nc-dav/src/trashbin.rs:145-173 | A hard delete, row by row: exactly the subtree goes, and every folder above is told at the present time of the scanned bytes that went. |
| `RequestProofs.CopyKeeps` | core-rs/crates/nc-dav/src/mutations.rs:822-855 | COPY keeps shape, exactness and history and leaves a clone of the source at the target. |
| `MoveOutcomes.CopyDone` | core-rs/crates/nc-dav/src/mutations.rs:572-630 | COPY is done exactly when the disk copy succeeds, the ends differ, no folder is at either and only folders are above the target; otherwise nothing changes. |
| `MoveOutcomes.CopyRowTells` | core-rs/crates/nc-dav/src/mutations.rs:603-858 | COPY, row by row: the clone has its source's size, mtime and etag and is recorded at the present time; the folders above, those made for it, and those above its place among the versions are told. |
| `MoveOutcomes.CopyRemoves` | core-rs/crates/nc-dav/src/mutations.rs:586-602 | COPY takes away the row it replaces and no other. |
| `RequestProofs.SetMtimeKeeps` | core-rs/crates/nc-dav/src/mutations.rs:861-894 | Changing an mtime keeps shape, exactness and history. |
| `WriteOutcomes.SetMtimeRow` | core-rs/crates/nc-dav/src/mutations.rs:861-894 | PROPPATCH of the mtime, row by row: both mtimes of the row at the path and nothing else in it; every folder above gets the larger of its mtime and the requested one, at most the present time. |
| `MoveProofs.MoveKeeps` | core-rs/crates/nc-dav/src/mutations.rs:348-474 | MOVE succeeds exactly on a free target outside itself with an existing parent, keeps every fileid, and puts each row of the subtree at its new path and every other row where it was. |
| `MoveOutcomes.MoveDone` | core-rs/crates/nc-dav/src/mutations.rs:320-364 | MOVE is done exactly when the source and the target's folder are there, the target is not below the source, and nothing else is at it; otherwise nothing changes. |
| `MoveOutcomes.MoveRowTells` | core-rs/crates/nc-dav/src/mutations.rs:365-566 | MOVE, row by row: moved rows change in path only, the node also in name and parent; both folders are read back from disk; everything above either end or above the target's place among the versions is told, and the last of the three to reach a row gives it its etag. |
| `MoveProofs.MoveExactIff` | core-rs/crates/nc-dav/src/mutations.rs:488-566 | After MOVE a folder is exact if and only if one of the three recomputed chains passes it or it was exact once the rows had moved. |
| `MoveProofs.MoveSizesExact` | core-rs/crates/nc-dav/src/mutations.rs:519-548 | On an exact tree every folder but the two direct parents stays exact, and the whole tree does if and only if the guard `SafeMove` holds before the move. |
| `MoveProofs.MoveRepaired` | core-rs/crates/nc-dav/src/mutations.rs:519-548 | Recomputing the chains of the old and the new full path repairs any move. |
| `MoveProofs.MoveLeavesParentsWrong` | core-rs/crates/nc-dav/src/mutations.rs:524-548 | Counterexample: moving one byte from `files/a` to `files/b` leaves an exact tree inexact. |
| `TrashProofs.TrashKeeps` | core-rs/crates/nc-dav/src/trashbin.rs:308-338 | Delete-to-trash succeeds exactly when row, free name and trash folder are there, loses no row, keeps every fileid and puts each row of the subtree below its trash name. |
| `TrashOutcomes.TrashDecided` | core-rs/crates/nc-dav/src/trashbin.rs:184-430 | Delete-to-trash is done exactly when the node is there, its trash name is free in the table and the trash bin is not a file; otherwise nothing changes. |
| `TrashOutcomes.TrashRowTells` | core-rs/crates/nc-dav/src/trashbin.rs:376-586 | Delete-to-trash, row by row: moved rows change in path only, the node also in name, parent and recorded mtime; which folders of the bin are made, which rows are read back from disk, and what every folder above either end is told. |
| `TrashProofs.TrashExact` | core-rs/crates/nc-dav/src/trashbin.rs:242-287 | An exact tree stays exact if and only if the request was not allowed by the table before it or takes no folder's last unscanned entry. |
| `TrashProofs.TrashConserves` | core-rs/crates/nc-dav/src/trashbin.rs:554-586 | Over the whole request, trashing a scanned node of s bytes lowers every scanned source ancestor below the root by s, raises the trash ancestors by s and leaves the root as it was, though in between the root is too large by s. |
| `TrashProofs.TrashStamps` | core-rs/crates/nc-dav/src/trashbin.rs:266-287 | After the whole request the root and all source ancestors share one new etag, both trash folders another, and no other row that stayed has its etag changed. |
| `TrashNames.TrashNameParses` | core-rs/crates/nc-dav/src/trashbin.rs:997-999 | Splitting a trash name at its last `.d` gives back basename and timestamp for every basename, and its extension is a trash extension. |
| `TrashNames.TrashNameInjective` | core-rs/crates/nc-dav/src/trashbin.rs:369-394 | Different timestamps give different trash names, which is why the loop ends. |
| `Decimal.TextIs` | core-rs/crates/nc-dav/src/versions.rs:82 | Printed numbers have a sign when negative, no leading zeros, and read back. |
| `Stores.EditEvolves` | core-rs/crates/nc-dav/src/propagator.rs:71-124 | A directory that a write leaves unstamped keeps its whole subtree, row for row. |
| `Stores.EvolvesTransitive` | core-rs/crates/nc-dav/src/propagator.rs:71-124 | Unused ids, fresh etags and untouched subtrees compose over any sequence of writes. |
| `Runs.StepKeeps` | core-rs/crates/nc-dav/src/filesystem.rs:518-574 | Every write request keeps the tree shape and the link between a directory's etag and its subtree. |
| `Runs.StepExact` | core-rs/crates/nc-dav/src/propagator.rs:82-505 | An exact tree stays exact under a request if and only if a condition on the table before it holds. |
| `Runs.RunKeeps` | core-rs/crates/nc-dav/src/filesystem.rs:518-574 | Every run of requests keeps shape and history. |
| `Runs.RunExact` | core-rs/crates/nc-dav/src/propagator.rs:82-505 | Sizes are exact at every point of a run if and only if every request of it was safe when it came. |
| `ScannedProofs.StepFiles` | core-rs/crates/nc-dav/src/propagator.rs:164-172 | No request turns a scanned file into an unscanned one. |
| `Totals.ExactScanned` | core-rs/crates/nc-dav/src/propagator.rs:492-493 | With exact folders and scanned files, every folder is scanned. |
| `Totals.ExactMeansTotal` | core-rs/crates/nc-dav/src/quota.rs:158-162 | An exact, scanned folder records the number of file bytes below it, at any depth. |
| `QuotaProofs.GateEnforcesUntilExceeded` | core-rs/crates/nc-dav/src/quota.rs:51-110 | The gate enforces the quota exactly while the user is within it; over it, everything is admitted. |
| `QuotaProofs.AdmittedIff` | core-rs/crates/nc-dav/src/handler.rs:225-314 | Which requests pass the gate, with the numbers: an upload as announced, a part as sent, a folder as 4096 bytes, a copy as its source; a user over the quota passes always. |
| `HealthyRuns.RunHealthy` | core-rs/crates/nc-dav/src/propagator.rs:82-505 | Every run without a move to another folder keeps every folder's size equal to the file bytes below it. |
| `HealthyRuns.MoveScanned` | core-rs/crates/nc-dav/src/mutations.rs:519-548 | On a scanned exact tree a move keeps sizes exact if and only if it stays in its folder or moves no bytes. |
| `QuotaProofs.PutCommitted` | core-rs/crates/nc-dav/src/davfile.rs:527-542 | An upload that passes the check at commit stays below the quota read there, since the root records at least the size of `files`. |
| `QuotaProofs.QuotaHolds` | core-rs/crates/nc-dav/src/handler.rs:225-314 | From within a finite quota, no run of admitted requests takes the real bytes under `files` above it, as long as each upload sends at most what it announces or its check at commit reads the quota or a smaller one. |
| `QuotaProofs.AnnouncementDecides` | core-rs/crates/nc-dav/src/quota.rs:59-61 | An upload ends within every quota from every healthy state within it if and only if it announces at least what it sends, or the commit would not even accept it into an empty storage. |
| `QuotaProofs.UndeclaredPutExceeds` | core-rs/crates/nc-dav/src/row/quota.rs:31-34 | The failing input: with the check at commit off, as under the server's default quota, an upload that announces less than it sends is admitted into an empty storage and ends above the quota. |
| `Sync.MirrorIsComplete` | core-rs/crates/nc-dav/src/propagator.rs:71-124 | A client that lists only directories whose etag changed ends with exactly the server's table. |
| `Sync.RunIsNoticed` | core-rs/crates/nc-dav/src/propagator.rs:71-124 | The same after any run of requests. |
| `Sync.StepStamps` | core-rs/crates/nc-dav/src/propagator.rs:96-101 | After a completed request every directory above each touched path carries an etag that occurred nowhere before. |
| `Sync.MovedRowKeepsEtag` | core-rs/crates/nc-dav/src/mutations.rs:365-385 | MOVE leaves the moved row's own etag alone. |
| `Sync.PathAndEtagMislead` | core-rs/crates/nc-dav/src/mutations.rs:365-385 | Comparing path and etag without the fileid is not enough: three requests put another directory at the same path under the same etag. |
| `PathSync.RunIsNoticedByPath` | core-rs/crates/nc-dav/src/mutations.rs:365-385 | Over every run that moves no directory, a directory at the same path under the same etag is the same fileid with the same subtree, and a client comparing path and etag ends with exactly the server's table. |
| `PathSync.SamePlaceIsSame` | core-rs/crates/nc-dav/src/mutations.rs:365-385 | The reason: directories stay in place or go to the trash, and new ones carry new etags. |
| `PathSync.PathMirrorMisled` | core-rs/crates/nc-dav/src/mutations.rs:365-385 | With directory moves that client ends with a wrong table, whenever anything lies below the moved child. |
| `Locks.StepInv` | core-rs/crates/nc-dav/src/propagator.rs:132-172 | Every step of every interleaving keeps exclusive locks taken in ascending key order. |
| `Locks.WritesAreLocked` | core-rs/crates/nc-dav/src/propagator.rs:132-172 | A row is written only by a transaction that holds all its rows, while no other holds any of them. |
| `Locks.NoCycle` | core-rs/crates/nc-dav/src/propagator.rs:132-141 | No state with ordered locks has a cycle of waiting transactions. |
| `Locks.Progress` | core-rs/crates/nc-dav/src/propagator.rs:132-141 | From any unfinished transaction, following who it waits for leads to one that can step. |
| `Locks.RunInv` | core-rs/crates/nc-dav/src/propagator.rs:149-155 | Every schedule keeps the lock invariant and uses up one of finitely many steps, so none runs forever. |
| `Locks.NeverStuck` | core-rs/crates/nc-dav/src/propagator.rs:94-101 | After any schedule there is no waiting cycle, and unless all have finished one can step. |
| `Locks.RunIsSerial` | core-rs/crates/nc-dav/src/propagator.rs:149-155 | Under the locks every interleaving is a serial run in commit order. |
| `Locks.FinalSize` | core-rs/crates/nc-dav/src/propagator.rs:164-172 | If a row's reductions fit, every finished schedule leaves it at its start plus all deltas. |
| `Locks.FinalMtime` | core-rs/crates/nc-dav/src/propagator.rs:164-165 | Every finished schedule leaves a row with the latest of its mtime and the reported times. |
| `Locks.RunInOrder` | core-rs/crates/nc-dav/src/propagator.rs:141-172 | Every commit order is reached by some schedule. |
| `Locks.InterleavingsAgree` | core-rs/crates/nc-dav/src/propagator.rs:164-172 | All schedules agree on start plus deltas if and only if the reductions alone fit or the total is the floor itself. |
| `Locks.UnsortedDeadlocks` | core-rs/crates/nc-dav/src/propagator.rs:132-140 | Without the order two propagations can block each other for good. |
| `Concurrency.ConcurrentIsInTurn` | core-rs/crates/nc-dav/src/propagator.rs:82-172 | Any schedule of the locking statements leaves the sizes and mtimes of the same propagations, each with its own clock, run one after another on the filecache. |
| `Concurrency.ConcurrentTotals` | core-rs/crates/nc-dav/src/propagator.rs:82-172 | A folder whose reductions fit records what it held plus the deltas of all concurrent writes below it. |
| `Concurrency.ConcurrentMtime` | core-rs/crates/nc-dav/src/propagator.rs:88-165 | Under every finished schedule a folder's mtime is the latest of its own and the times reported below it, none of them ahead of the clock it was reported by. |
| `Propfind.SplitNotes` | core-rs/crates/nc-dav/src/row/propfind.rs:338-354 | The one-pass split gives each file the note of the single-row query. |
| `Propfind.SplitDetails` | core-rs/crates/nc-dav/src/row/propfind.rs:355-388 | The one-pass split gives each file its details in scan order. |
| `Propfind.LatestIsNewest` | core-rs/crates/nc-dav/src/row/sharing.rs:49-65 | The chosen note is not empty and none is newer; no note means none is set. |
| `Propfind.Decode` | core-rs/crates/nc-dav/src/row/propfind.rs:216-325 | Reading the fan-out row by row keeps, for each child, exactly its own columns. |
| `Propfind.GroupCustom` | core-rs/crates/nc-dav/src/row/properties.rs:80-124 | One scan grouped by path holds each child's custom properties. |
| `Propfind.ReadDirBatched` | core-rs/crates/nc-dav/src/propfind.rs:148-489 | For every child each batch map holds the gated query's answer, a miss meaning its default. |
| `Propfind.CollectFacts` | core-rs/crates/nc-dav/src/propfind.rs:495-838 | A node in the batch is answered from the maps, any other by single-row queries, tags through their own cache. |
| `Propfind.BatchAgrees` | core-rs/crates/nc-dav/src/propfind.rs:148-183 | Every requested property agrees with the single-row queries, `nc:sharees` if and only if its gate was opened and no share is listed twice, or there is nothing to list. |
| `Listing.ListDirectory` | core-rs/crates/nc-dav/src/propfind.rs:109-492 | The whole listing, in terms of the tables: exactly the children, and for each requested property its right value: the numbers of folders and files in it, comments and unread comments, the newest note, tags, share types and sharees, visible system tags, metadata and stored properties; families of which nothing was requested are not queried; agreement with the single-row queries as in `BatchAgrees`. |
| `Listing.QueriedRight` | core-rs/crates/nc-dav/src/row/counts.rs:9-38 | Every single-row query gives the right value, by the name of the property. |
| `Listing.SelectChooses` | core-rs/crates/nc-dav/src/row/propfind.rs:98-156 | A WHERE clause picks exactly the rows that satisfy it, in table order. |
| `Propfind.ShareesAloneAreLost` | core-rs/crates/nc-dav/src/propfind.rs:159-161 | A client asking only for `nc:sharees` gets none in a listing, whatever the shares. |
| `Texts.FindSubsequence` | core-rs/crates/nc-dav/src/bulk_handler.rs:537-539 | The window scan finds the first occurrence, or none. |
| `Texts.TrimIs` | core-rs/crates/nc-dav/src/bulk_handler.rs:623-624 | Trimming leaves the longest stretch between two characters that are not white space. |
| `Multipart.ParseHeaders` | core-rs/crates/nc-dav/src/bulk_handler.rs:620-627 | Trimmed lower-case names and trimmed values; a repeated name keeps its last value. |
| `Multipart.HeaderIs` | core-rs/crates/nc-dav/src/bulk_handler.rs:620-627 | A header line sets its name, without case and surrounding white space, to its trimmed value, the last line of a name winning; a line without a colon says nothing. |
| `Multipart.LengthIs` | core-rs/crates/nc-dav/src/bulk_handler.rs:154-168 | A length is read from exactly the digit strings, with or without a plus sign. |
| `Multipart.LengthReads` | core-rs/crates/nc-dav/src/bulk_handler.rs:154-168 | A printed number is read back as that number. |
| `Multipart.StepIs` | core-rs/crates/nc-dav/src/bulk_handler.rs:573-640 | One step in terms of the text alone: the end exactly without a boundary or with closing dashes after the first one, an error exactly without an empty line after it, otherwise the part between that line and the next delimiter or the end. |
| `Multipart.Parser.Next` | core-rs/crates/nc-dav/src/bulk_handler.rs:573-640 | Each call moves forward or ends the iteration, and yields the specified step on the rest of the body. |
| `Multipart.ReadPart` | core-rs/crates/nc-dav/src/bulk_handler.rs:592-639 | After a boundary: the closing dashes end it, a missing empty line is an error, otherwise headers and the body up to the next delimiter. |
| `Multipart.HandleParts` | core-rs/crates/nc-dav/src/bulk_handler.rs:107-238 | The part loop accepts exactly the specified files, and answers 400 exactly when the text leads to bad framing or to a part with a path, a good mtime and a bad length or hash before its end. |
| `Multipart.HeaderEnd` | core-rs/crates/nc-dav/src/bulk_handler.rs:603-618 | The first empty line after printed headers is their end. |
| `Multipart.FirstDelimiter` | core-rs/crates/nc-dav/src/bulk_handler.rs:629-633 | A body is cut no later than its end, and exactly there if and only if it holds no delimiter. |
| `Multipart.AcceptedIsPrefix` | core-rs/crates/nc-dav/src/bulk_handler.rs:688-700 | For every printed list of honest parts, whatever their bodies contain, mixed with parts that are passed over and hold no delimiter, the accepted files are those of the honest parts before the first delimiter or bad hash, with identical bodies. |
| `Multipart.AllPartsComeBack` | core-rs/crates/nc-dav/src/bulk_handler.rs:107-238 | A printed request fails if and only if some part that is not passed over holds the delimiter or has a wrong hash, and the files are exactly those of the parts before it. |
| `Multipart.SkippedPartIsUnchecked` | core-rs/crates/nc-dav/src/bulk_handler.rs:118-149 | A part without a path or with a bad mtime is passed over before its length is looked at, so parts hidden in its body are accepted. |
| `Streaming.Channel.BlockingSend` | core-rs/crates/nc-dav/src/archive_stream.rs:270-278 | Waits for room while the receiver runs, and fails only when it is gone. |
| `Streaming.Channel.TrySend` | core-rs/crates/nc-dav/src/archive_stream.rs:255-257 | Refused exactly when the channel is full or the receiver gone. |
| `Streaming.StreamingWriter.Write` | core-rs/crates/nc-dav/src/archive_stream.rs:264-282 | Sent chunks plus buffer stay equal to all bytes written, every chunk has the chunk size, and less than one chunk stays buffered. |
| `Streaming.StreamingWriter.Flush` | core-rs/crates/nc-dav/src/archive_stream.rs:284-298 | Sends all full chunks and loses nothing. |
| `Streaming.StreamingWriter.Drop` | core-rs/crates/nc-dav/src/archive_stream.rs:253-260 | With room in the channel nothing is lost; otherwise exactly the last partial chunk is. |
| `Streaming.ChunkIsSlice` | core-rs/crates/nc-dav/src/archive_stream.rs:268-270 | The i-th chunk is the i-th slice of what was written. |
| `Streaming.StreamAll` | core-rs/crates/nc-dav/src/archive_stream.rs:234-323 | Over every interleaving with a live receiver the delivered bytes are a prefix, short by less than a chunk, and complete exactly when the tail found room. |
| `Caches.SessionCache.Lookup` | core-rs/crates/nc-auth/src/session.rs:116-140 | The hot path of a lookup under the session policy with the caller's time to live, failures kept for five seconds. |
| `Caches.LookIsLatest` | core-rs/crates/nc-auth/src/session.rs:84-157 | Over every history with evictions, a lookup answers by what was stored last under its key: the identity for the time to live, a failure for five seconds, nothing after that. |
| `Caches.LookIsHit` | core-rs/crates/nc-auth/src/session.rs:116-140 | The session lookup and the general hot path agree, so the staleness and revocation results apply to it. |
| `Caches.PutIsFetch` | core-rs/crates/nc-auth/src/session.rs:84-96 | Storing an identity or a failure is one completed fetch of a source that knows the key or does not. |
| `Caches.SessionCache.Insert` | core-rs/crates/nc-auth/src/session.rs:84-86 | From now on the key answers with the identity for exactly the time to live; every other key answers as before. |
| `Caches.SessionCache.InsertNegative` | core-rs/crates/nc-auth/src/session.rs:94-96 | From now on the key is known to fail for exactly five seconds; every other key answers as before. |
| `Caches.SessionCache.EvictExpired` | core-rs/crates/nc-auth/src/session.rs:150-157 | No later lookup within the default time to live notices, and no entry is kept that could not answer now. |
| `Caches.EvictionUnobservable` | core-rs/crates/nc-auth/src/session.rs:142-157 | No later lookup notices an eviction if and only if its positive time to live is at most 60 seconds. |
| `Caches.EvictingRunsAgree` | core-rs/crates/nc-auth/src/session.rs:142-157 | Over whole histories a cache that evicts answers like one that never does. |
| `Caches.TokenCache.LookupBearer` | core-rs/crates/nc-auth/src/bearer.rs:68-151 | What is answered has not expired: the row cached less than 300 seconds ago, else the one in the table, which is then cached, else nothing. |
| `Caches.TokenCache.Evict` | core-rs/crates/nc-auth/src/bearer.rs:154-159 | From now on the token misses and every other token answers as before. |
| `Caches.HitIsRecent` | core-rs/crates/nc-auth/src/token.rs:38-54 | In every history a hit was the source's answer no longer ago than the time to live plus one fetch, and the clock has not passed its expiry. |
| `Caches.RevocationExact` | core-rs/crates/nc-auth/src/bearer.rs:68-159 | Once the source has forgotten a key, it can be given out again without being added again if and only if right now a usable answer is cached within its time to live or a fetch of one is under way; expiry counts unless the clock may be set back. |
| `Caches.LateStoreRevives` | core-rs/crates/nc-auth/src/bearer.rs:116-150 | It happens in a history from the empty cache: a fetch that asked before the revocation and stores after it brings the old answer back. |
| `Calendar.FormulasAgree` | core-rs/crates/nc-bench/src/budget.rs:310-316 | The era formula and the Julian-day formula give the same day for every date from year 0 on. |
| `Calendar.FieldsInvert` | core-rs/crates/nc-dav/src/archive.rs:608-622 | The archive's fields invert both formulas once the year is advanced for January and February. |
| `Calendar.DaysAreCounted` | core-rs/crates/nc-dav/src/path_utils.rs:135-141 | Both formulas give 0 for 1970-01-01 and one more for the day after, on every valid date. |
| `Calendar.YearLagsBeforeMarch` | core-rs/crates/nc-dav/src/archive.rs:617-622 | Without that step the fields are right if and only if the month is after February. |
| `Calendar.DatesComeBack` | core-rs/crates/nc-dav/src/path_utils.rs:135-141 | Every valid date from 1970 on survives the way to a day number and back. |
| `Calendar.ArchiveYearIs` | core-rs/crates/nc-dav/src/archive.rs:624-626 | Within the format's range the stored year is right if and only if the month is after February or clamping to 1980 hides the error; before it becomes 1980 and after it 2107. |
| `PercentCodec.PercentDecodePath` | core-rs/crates/nc-dav/src/handler.rs:899-915 | The loop decodes complete escapes and keeps everything else. |
| `PercentCodec.UrlDecode` | core-rs/crates/nc-dav/src/archive.rs:300-316 | The archive's loop computes the same function. |
| `PercentCodec.DecodeIs` | core-rs/crates/nc-dav/src/handler.rs:899-915 | Byte by byte: a percent sign and two hex digits of either case give the byte they stand for, anything else is kept. |
| `PercentCodec.KeptAre` | core-rs/crates/nc-dav/src/path_utils.rs:54-97 | Which characters the two encoders keep. |
| `PercentCodec.PercentEncodePath` | core-rs/crates/nc-dav/src/path_utils.rs:54-97 | Keeps exactly the path-safe bytes and escapes the others in upper-case hex. |
| `PercentCodec.PercentEncodeFilename` | core-rs/crates/nc-dav/src/handler.rs:1037-1051 | Keeps exactly the unreserved bytes and escapes the others. |
| `PercentCodec.DecodeEncode` | core-rs/crates/nc-dav/src/handler.rs:899-915 | Decoding undoes every encoder that escapes the percent sign, for every byte string. |
| `PercentCodec.EncodersAreUndone` | core-rs/crates/nc-dav/src/path_utils.rs:54-97 | Both encoders are undone by the decoder, so both are injective. |
| `PercentCodec.EncodedIsPermitted` | core-rs/crates/nc-dav/src/handler.rs:1037-1051 | Every byte of encoded output is permitted or part of a complete upper-case escape. |
| `PercentCodec.PlainStays` | core-rs/crates/nc-dav/src/path_utils.rs:52-78 | Text of permitted bytes is left alone both ways. |
| `Tags.TagStore.GetOrCreateCategory` | core-rs/crates/nc-dav/src/tags.rs:221-259 | The category of the trimmed name, made when missing, none for a blank name; no file's tags change. |
| `Tags.TagStore.TagAs` | core-rs/crates/nc-dav/src/tags.rs:265-288 | Adds the trimmed name to this file only. |
| `Tags.TagStore.UnTag` | core-rs/crates/nc-dav/src/tags.rs:294-322 | Removes the trimmed name from this file only. |
| `Tags.TagStore.SetFavorite` | core-rs/crates/nc-dav/src/tags.rs:329-341 | Adds or removes the favorite sentinel. |
| `Tags.TagStore.UpdateTags` | core-rs/crates/nc-dav/src/tags.rs:351-383 | The file ends with the tags before, plus the trimmed missing ones, minus those not asked for, the sentinel aside; no other file changes. |
| `Tags.UpdateIsRequest` | core-rs/crates/nc-dav/src/tags.rs:343-383 | The file ends with exactly the requested names plus the sentinel if it was set, if and only if every requested name is trimmed and not empty. |
| `Tags.UpdatedAre` | core-rs/crates/nc-dav/src/tags.rs:359-382 | Name by name: a stored name stays exactly when it is asked for as it is, a new one is there exactly when it is asked for in any form. |
| `Tags.UpdateIsTrimmedRequest` | core-rs/crates/nc-dav/src/tags.rs:359-382 | The file ends with what the request means after trimming if and only if no stored name is asked for in padded form only and an unset favorite is not named in padded form. |
| `Tags.LostIff` | core-rs/crates/nc-dav/src/tags.rs:360-369 | A stored name is lost exactly when it is not itself in the request, and lost although asked for exactly when only padded forms of it are. |
| `Tags.FormatTagsXml` | core-rs/crates/nc-dav/src/tags.rs:454-467 | Writes one escaped element per tag, in order. |
| `Tags.ParseTagsXml` | core-rs/crates/nc-dav/src/tags.rs:419-443 | Reads the values between markers, left to right, up to an unclosed one. |
| `Tags.ParseIs` | core-rs/crates/nc-dav/src/tags.rs:419-443 | On any text: what stands before the first opening marker is skipped, a value goes up to the closing marker, and without one it is dropped. |
| `Tags.EscapedIs` | core-rs/crates/nc-dav/src/tags.rs:458-461 | Escaping works character by character: three become entities, the others stay. |
| `Tags.ParseFormat` | core-rs/crates/nc-dav/src/tags.rs:419-467 | Parsing formatted tags yields the escaped names in order. |
| `Tags.EscapedInjective` | core-rs/crates/nc-dav/src/tags.rs:458-461 | Escaping loses nothing. |
| `Tags.RoundTripIff` | core-rs/crates/nc-dav/src/tags.rs:419-467 | The names themselves come back if and only if none holds an ampersand or angle bracket. |

## Left out

- Version files moved along with MOVE, COPY and both deletes (`rename_versions`, `copy_versions`, `trash_versions`, `hard_delete_versions`): the model has their closing chain calls on MOVE and COPY and assumes there are no version rows to move. Versions stored by an overwrite are modelled.
- TrashProofs.TrashStamps: holds for nodes without versions, whose relocation stamps the trash bin again between the two chains.
- The standalone `correct_folder_size`: no modelled request calls it.
- Columns and tables beside the tree: mimetypes, checksums, permissions, extended rows, `oc_files_trash`, preview and version entities, custom property rows on rename.
- SQL `LIKE` wildcards in names: a subtree is the rows strictly below a path.
- Failures of the database or disk in the middle of a request, which the code logs and passes over, and the retry loop of `propagate_change`.
- Two requests racing on the same rows outside the propagation statement (the insert race in `ensure_parent_dir`).
- The clock inside one request: all its statements read the same `now`.
- Whether a delete goes to trash (the app's state and `.part` names): the caller of the model chooses the request.
- Locks.InterleavingsAgree: the statement's locks and update only; other statements of the requests are not interleaved with it.
- Concurrency.ConcurrentIsInTurn: says nothing about etags, which depend on the commit order alone.
- The scanner that replaces a recorded -1 by a size.
- The MD5 of a path is an injective key, and 128 random bits are an etag never drawn before.
- Arithmetic at the ends of 64-bit integers.
- The request paths are those `dav_to_fc_path` yields below `files`; the user's root itself cannot be written, moved or deleted.
- The WebDAV library in front of the file system: conditional requests, `Overwrite`, the removal of an existing target before MOVE, and the walk over a tree for COPY of a directory.
- PROPFIND on SQLite, the depth-0 node's own tags, properties that are not queried per node, and how values are written as XML or JSON.
- Propfind.CollectFacts: rows that tie in an unordered SQL result are taken in the order of the scan.
- Quota text parsing, which differs between the gate and the check at commit: each is given its own quota, a number of bytes or none.
- QuotaProofs.QuotaHolds: leaves out moves between folders, after which the recorded sizes are not the bytes stored.
- UTF-8: text is a sequence of characters or bytes, lower-casing is ASCII, and white space is the ASCII kind.
- Multipart.ParseHeaders: header bytes that are not UTF-8, an error in the code, cannot occur.
- The receiver's disconnection in the middle of an archive, and `Seek` on the writer.
- The session lookup that falls through to PHP, the key hashes, and the other readers of the caches.
- The lazy `cache` row that the first listing of the home folder may write (`ensure_lazy_cache_row`); the same row made by a deletion is modelled.
- Caches.RevocationExact: the clock that measures the time to live does not run backwards, as a monotone clock does not.
- Chunked upload, sharing rules, two-factor gates, previews, the benchmark's runs, and other members with little to prove.
