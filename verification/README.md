# Verified models of the Proton Drive command line client and SDK

This project models the parts of the client whose correctness is least obvious from reading one function, and
proves what they promise for every input, every run and every interleaving. Each module is one component:

- **Formats of the SDK.** `Crc`, `CrcCheck` and `ShiftRegister`: the CRC-32 loop. `Zip` and `ZipFormat`: the diagnostic
  archive writer and an end-first reader. `Chunks`: reassembly of interleaved chunked updates. `Docs` and `DocsFormat`: key derivation
  (RFC 5869), encrypted messages and commits. `YjsFrame`: the length prefix around a document update. `LiveSync`: the
  debounce of a live document.
- **The mounted drive.** `StreamCache`, `Streaming`, `StreamingRuns` and `BlockReads`: the block cache of a streamed
  file, the readers and read-ahead tasks that share it, and reading a byte range. `Journal`: the retrying upload journal and the
  dirty sweep. `InodeTree`, `Inodes`, `InodesExact` and `Populate`: the inode table under local operations, remote deletions, the
  listing of folders and the `MyFiles` migration. `EventLog`: the capped log of sync events.
- **Backup sync.** `ConflictNames`, `SyncPlan`, `SyncRun`, `Sync`, `SyncMirror`, `SyncLoss` and `SyncJob`: comparing two
  trees, carrying out the transfers with conflict copies, what a sync leaves at every path, many syncs in a row, and
  exactly when a version can be lost.
- **Concurrent import and polling.** `Import`, `ImportRuns` and `PhotoIndex`: jobs with keyed locks over a shared duplicate
  index, what becomes of every file, and the plan that trashes extra copies. `Scheduler` and `SchedulerCalls`: foreground
  and background polling tasks racing with calls, and what each call achieves.
- **Export and ancestor walks.** `TakeoutNames`, `Takeout`, `TakeoutExact`, `TakeoutRuns` and `TakeoutExporter`: a resumable
  export with its manifest in the destination. `Hierarchy`: the walk from a node to its root.

`Bytes` and `Decimals` hold bits, little-endian numbers and decimal numerals, `StableSort` the sort by size that sync and
export share, `Wrappers` and `Collections` what several modules need.

## How things are modelled

Concurrency is modelled as state plus atomic steps: one step per section under a lock or between two waits. A run is
any sequence of enabled steps, so a statement about runs covers every interleaving. The network, the clock, the
file system's failures and random numbers are parameters of the steps or methods (`Luck`, `Outcome`, `ok`, `now`).
SQL tables are maps from row id to row, with ids handed out in increasing order. Ciphers, MACs, protobuf and
update decoding are function parameters of which only the inverse and length laws stated in the `requires` are used.
Code that changes state in place is a class or a method with loops whose contract ties it to a specification function
or relation; the lemmas are about those.

Some things the code or its documentation promises hold only under a condition. The code is kept as it is, and the
condition is proved exact, in both directions:

- Data returned by a streamed read is right if and only if no downloaded block disagrees with the file anywhere; a block
  longer than its claimed size does harm (`BlockReads.ReadsAreRight`).
- A manual retry can give a file two pending uploads (`Journal.RetryKeepsUploadsUnique`).
- The `MyFiles` migration keeps every parent a directory unless a legacy *file* called `MyFiles` is there and something
  has to be moved (`Inodes.MigrationKeepsTree`).
- Listing a folder's children gives the lock up in between. If the folder has gone by then, rows are inserted whose
  parent is missing (`Populate.PopulateKeepsTree`).
- The opening comment of `crates/proton-drive-sdk/src/event_scheduler.rs` says the client is never called again before it
  has processed the previous events. A scope removed and added again while its old task is alive can be polled
  twice at once (`Scheduler.ReAddOverlaps`, `Scheduler.OverlapHappens`).
- The export's last-resort name is not checked, so paths can collide once all 10,000 numbered names and it are taken
  (`Takeout.PathsStayDistinct`, `Takeout.LastResortCollides`); a count that can be taken before a run rules that out
  (`TakeoutRuns.RunsKeepTidy`).
- An exported file is there afterwards unless it is called like the manifest or its temporary file, at the top of the
  destination: saving the manifest moves the one away and replaces the other (`Takeout.StoredUnlessReserved`,
  `Takeout.ReservedNameLosesFile`). It is recognised later if and only if its claimed size is the length of what is there, so
  a file that claims size 0 but has content is exported again on every run (`Takeout.ExportThenSkip`).
- A commit encrypted under a salt that starts with the chunk signal cannot be read back, unless the cipher itself opens the
  rest to the same content (`Docs.CommitRoundTrip`).
- A ZIP archive of more than 65,535 files cannot be read back (`Zip.RoundTrip`).
- Sync converges if and only if the transferred files have times both sides represent (`Sync.Converges`).
- A sync loses nothing, whatever the files hold and wherever it stops, if and only if no download goes to a name at which
  there is a local file the comparison passes over, or a conflict copy could be made
  (`SyncLoss.LosesNothingExactlyIfGuarded`). A remote file named like a conflict copy, of
  which there is a local one too, is such a download (`SyncLoss.MarkedRemoteReplaces`).

Two more statements differ from the comments they come with:

- The comment at `crates/pdcli/src/fs.rs:188` says blocks being fetched are not downloaded twice. Two downloads of one
  block are never in flight together, but there is a run in which a block delivered between a reader's look and its claim is
  downloaded again (`Streaming.CachedBlockClaimed`). That is the only way (`Streaming.OnlyWhenDeliveredSinceItsLook`); the
  converse is not stated, since the block may be dropped from the queue again before the claim.
- The comment at `crates/proton-drive-sdk/src/docs.rs:210` asks for one extra unchanged poll before a write; the code
  waits for two (`LiveSync.WritesWhenSettled`).

## Model

| member | source | states |
|---|---|---|
| `Crc.Crc32` | crates/proton-drive-sdk/src/diagnostic.rs:177-190 | the bit-by-bit loop computes the complemented shift-register checksum of the whole input |
| `Crc.BitStepInverse` | crates/proton-drive-sdk/src/diagnostic.rs:181-187 | one bit step loses nothing: the register before it can be computed from the one after |
| `Crc.MachineIsLawful` | crates/proton-drive-sdk/src/diagnostic.rs:180-187 | a byte step is injective in the register and linear over xor |
| `Crc.TableDriven` | crates/proton-drive-sdk/src/diagnostic.rs:177-190 | the loop agrees with the table-driven form of section 8 of RFC 1952 on every input and register |
| `Crc.DetectsBurst` | crates/proton-drive-sdk/src/diagnostic.rs:177-190 | contents of any length that differ only inside at most four consecutive bytes never share a checksum |
| `Crc.DetectsByte` | crates/proton-drive-sdk/src/diagnostic.rs:177-190 | nor do contents of one length that differ in exactly one byte |
| `CrcCheck.OnMachineWords` | crates/proton-drive-sdk/src/diagnostic.rs:177-190 | on every input the checksum is what the loop over 32-bit words computes, complemented |
| `CrcCheck.CheckValue` | crates/proton-drive-sdk/src/diagnostic.rs:177-190 | the digits 1 to 9 have the published check value 0xcbf43926 |
| `ShiftRegister.WindowDecides` | crates/proton-drive-sdk/src/diagnostic.rs:179-188 | for any lawful register, two windows of four elements that lead to the same register from the same one are equal |
| `Zip.GenerateDiagnosticZip` | crates/proton-drive-sdk/src/diagnostic.rs:92-154 | fails exactly when a name is longer than 65,535 bytes, and otherwise writes all local records, then all central records, then the end record |
| `Zip.RecordsHold` | crates/proton-drive-sdk/src/diagnostic.rs:96-140 | every local record stands where its central record's offset field points, and every central record where the directory has it |
| `ZipFormat.LocalFields` | crates/proton-drive-sdk/src/diagnostic.rs:105-117 | every field of a local header, its numbers cut to their width |
| `ZipFormat.CentralFields` | crates/proton-drive-sdk/src/diagnostic.rs:119-136 | every field of a central header |
| `ZipFormat.EndFields` | crates/proton-drive-sdk/src/diagnostic.rs:143-152 | every field of the end record |
| `Zip.RoundTrip` | crates/proton-drive-sdk/src/diagnostic.rs:92-154 | within the 32-bit limits a reader going from the end record over the directory to the local headers recovers exactly the names, contents and checksums, if and only if there are at most 65,535 files |
| `Zip.WriteThenRead` | crates/proton-drive-sdk/src/diagnostic.rs:92-154 | writing with the real CRC-32 and reading back gives the files |
| `Zip.ChecksumFits` | crates/proton-drive-sdk/src/diagnostic.rs:177-190 | a checksum fits its 32-bit field |
| `Chunks.MergeChunkedUpdates` | crates/proton-drive-sdk/src/docs.rs:1029-1073 | the loop over a map of partial messages is the fold the lemmas speak about |
| `Chunks.MergeIsCorrect` | crates/proton-drive-sdk/src/docs.rs:1029-1073 | for every interleaving, in any index order, with repeated pieces and reused ids, each message comes out as its pieces in index order at its completing piece, and plain updates keep their places |
| `Chunks.EmittedOnce` | crates/proton-drive-sdk/src/docs.rs:1029-1073 | a message whose pieces were all sent comes out at exactly one position |
| `Docs.HkdfSha256` | crates/proton-drive-sdk/src/docs.rs:880-905 | the expand loop computes the key derivation, with its error above 255 blocks |
| `Docs.HkdfOctets` | crates/proton-drive-sdk/src/docs.rs:880-905 | the output has exactly the requested length and consists of the first octets of T(1), T(2) and so on (section 2.3 of RFC 5869) |
| `Docs.HkdfPrefix` | crates/proton-drive-sdk/src/docs.rs:880-905 | a shorter output is a prefix of a longer one |
| `DocsFormat.HkdfExpands` | crates/proton-drive-sdk/src/docs.rs:880-905 | the output is the start of any list of blocks T(1) = MAC(PRK, info, 1), T(i+1) = MAC(PRK, T(i), info, i+1), PRK being the MAC of the input under the salt |
| `Docs.MessageRoundTrip` | crates/proton-drive-sdk/src/docs.rs:852-933 | decrypting an encrypted message under the same key and associated data gives the plaintext |
| `DocsFormat.MessageFormat` | crates/proton-drive-sdk/src/docs.rs:907-933 | a message is the salt, the nonce and the sealed plaintext, under the one-block key for this salt and associated data; it fails exactly if the cipher does |
| `DocsFormat.MessageOpened` | crates/proton-drive-sdk/src/docs.rs:852-878 | any such message is opened with that key, and refused if nothing follows the nonce or the cipher refuses it |
| `DocsFormat.AssociatedDataInjective` | crates/proton-drive-sdk/src/docs.rs:840-850 | two updates are authenticated with the same text exactly if version, time and author agree, a missing author being the same as one called anonymous |
| `DocsFormat.AssociatedDataSamples` | crates/proton-drive-sdk/src/docs.rs:840-850 | two samples of that text |
| `DocsFormat.CommitFormat` | crates/proton-drive-sdk/src/docs.rs:951-985 | a commit carries one update of version 1, its time in 32 hexadecimal digits as id, sealed with the text that names them |
| `DocsFormat.HexMeaning` | crates/proton-drive-sdk/src/docs.rs:966 | the id has exactly 32 small hexadecimal digits that read as the time |
| `Docs.CommitRoundTrip` | crates/proton-drive-sdk/src/docs.rs:808-985 | decrypting an encrypted commit gives one update with the original bytes and author, if and only if the salt does not start with the chunk signal, or goes on like the header of a whole message and the cipher opens the rest to the same content |
| `YjsFrame.DecodeLength` | crates/proton-drive-sdk/src/docs.rs:580-589 | the loop over at most ten bytes computes the length the recursive reading gives, truncation to 64 bits included |
| `YjsFrame.EncodedFrom` | crates/proton-drive-sdk/src/docs.rs:580-589 | every 64-bit length, written seven bits a byte, is read back with what follows it |
| `YjsFrame.CutOff` | crates/proton-drive-sdk/src/docs.rs:582-584 | a length cut off before its last byte is refused |
| `YjsFrame.LengthMeaning` | crates/proton-drive-sdk/src/docs.rs:580-589 | any bytes: the length is made of the seven lowest bits of each byte up to the first below 128 or the tenth, cut to 64 bits |
| `YjsFrame.LengthUnfinished` | crates/proton-drive-sdk/src/docs.rs:580-589 | bytes that end before the length does are refused |
| `YjsFrame.UpdateOtherwise` | crates/proton-drive-sdk/src/docs.rs:571-593 | what decodes as it is needs no frame; without a frame, or with less in it than it says, anything else is refused |
| `YjsFrame.FramedUpdate` | crates/proton-drive-sdk/src/docs.rs:571-593 | a framed update of any 64-bit length is unwrapped to exactly its payload unless the frame itself decodes |
| `LiveSync.LiveSyncTick` | crates/proton-drive-sdk/src/docs.rs:211-228 | one poll moves the watch as the transition function says |
| `LiveSync.WritesWhenSettled` | crates/proton-drive-sdk/src/docs.rs:210-228 | over all sequences of polls a write happens exactly when the text differs from what was written and the two observations before showed the same |
| `StreamCache.Cache.constructor` | crates/pdcli/src/fs.rs:184-191 | a new cache is empty |
| `StreamCache.Cache.Cached` | crates/pdcli/src/fs.rs:193-200 | finds a block exactly when it is cached, and moves its entry to the back |
| `StreamCache.Cache.Remember` | crates/pdcli/src/fs.rs:202-211 | adds a new block at the back, dropping the front of a full queue, and leaves a present one alone |
| `StreamCache.HitKeepsOrder` | crates/pdcli/src/fs.rs:193-200 | after a hit the queue is still the last six distinct blocks used, by last use |
| `StreamCache.ArrivalKeepsOrder` | crates/pdcli/src/fs.rs:202-211 | so it is after an arrival |
| `StreamCache.BoundedAndDistinct` | crates/pdcli/src/fs.rs:181-211 | such a queue has at most six entries and no block twice |
| `StreamCache.RecencyExactly` | crates/pdcli/src/fs.rs:185-211 | the order the queue is a part of: exactly the blocks ever used, by their last use |
| `Streaming.EveryRun` | crates/pdcli/src/fs.rs:193-260 | in every interleaving of readers and read-ahead tasks the in-flight set is exactly the set of owned blocks, each owned by one thread, the cache is the last six blocks used, and all cached or returned data is the file's |
| `Streaming.ExclusiveKept` | crates/pdcli/src/fs.rs:219-257 | no step lets two threads own one block or leaves the in-flight set out of step |
| `Streaming.CacheSoundKept` | crates/pdcli/src/fs.rs:193-211 | no step puts wrong data into the cache or breaks its order |
| `Streaming.ThreadsSoundKept` | crates/pdcli/src/fs.rs:229-245 | a waiting reader always waits for a download of the block it asked for |
| `Streaming.OwnersProgress` | crates/pdcli/src/fs.rs:214-260 | no deadlock: whoever a reader waits for can always take its next step, and a claim is released after at most four of them |
| `StreamingRuns.ReadersGet` | crates/pdcli/src/fs.rs:214-252 | in every run a reader comes back with the block it asked for last, with the file's data, or with nothing if a download of that block has failed |
| `StreamingRuns.EveryReadAnswered` | crates/pdcli/src/fs.rs:214-252 | in every run, whatever a reader is in the middle of, there are steps after which it has an answer for its block |
| `StreamingRuns.EveryReaderServed` | crates/pdcli/src/fs.rs:214-252 | and one that starts can be given its block, whatever all others are in the middle of |
| `StreamingRuns.QueueMoves` | crates/pdcli/src/fs.rs:193-211 | only a look that finds its block and a stored block change the queue, and how |
| `StreamingRuns.LookWorks` | crates/pdcli/src/fs.rs:193-200 | a look finds its block exactly if it is cached |
| `Streaming.CachedBlockClaimed` | crates/pdcli/src/fs.rs:219-227 | a run in which a cached block is claimed for download again |
| `Streaming.OnlyWhenDeliveredSinceItsLook` | crates/pdcli/src/fs.rs:219-227 | that happens only if the block was delivered between the thread's look and its claim (one direction) |
| `BlockReads.NewReader` | crates/proton-drive-sdk/src/node/file/download.rs:271-280 | the starts add up the claimed sizes |
| `BlockReads.BlockAt` | crates/proton-drive-sdk/src/node/file/download.rs:312-319 | the block found contains the offset, and none is found exactly past the end |
| `BlockReads.Read` | crates/pdcli/src/fs.rs:262-289 | the loop computes the block-by-block read, with the saturating end and both error cases |
| `BlockReads.ReadsAreRight` | crates/pdcli/src/fs.rs:262-289 | every successful read of every range is exactly that range of the file, if and only if every readable block agrees with the file wherever it has bytes |
| `BlockReads.ShortBlocksReported` | crates/pdcli/src/fs.rs:272-284 | a read succeeds exactly when every block it wants arrived and is long enough, and then remembers the block of the last byte for read-ahead |
| `Journal.BatchExists` | crates/pdcli/src/db.rs:596-622 | every table has a batch of its least often tried pending entries, oldest first, and it is empty only if nothing is pending |
| `Journal.JournalDb.Enqueue` | crates/pdcli/src/db.rs:581-594 | adds a fresh pending row under a new id |
| `Journal.JournalDb.HasPending` | crates/pdcli/src/db.rs:454-462 | tells exactly whether some pending row belongs to the inode |
| `Journal.JournalDb.EnqueueDirtyUpload` | crates/pdcli/src/fs.rs:882-909 | enqueues the upload a file's remote state calls for, unless one is pending or the revision is unknown |
| `Journal.DirtyFile` | crates/pdcli/src/fs.rs:882-909 | a file adds an entry exactly if none is pending for it and it is not a remote one without a known revision: a creation if it has no node, a new revision otherwise |
| `Journal.JournalDb.SweepDirty` | crates/pdcli/src/fs.rs:2328-2332 | the sweep is the fold of that over the dirty files |
| `Journal.SweepCovers` | crates/pdcli/src/fs.rs:2328-2332 | after a sweep every dirty file that has no node, or has one and a known revision, has a pending entry; old rows are unchanged, and each new row is a creation for a listed file without a node or a revision of one with both, at most one a file, only if it had none pending |
| `Journal.JournalDb.RecordResult` | crates/pdcli/src/fs.rs:2342-2381 | the row gets the status the outcome and the retry count call for, and one more retry |
| `Journal.JournalDb.DeleteCompleted` | crates/pdcli/src/db.rs:638-643 | removes exactly the done rows |
| `Journal.JournalDb.RetryFailed` | crates/pdcli/src/db.rs:683-704 | makes exactly the chosen failed rows pending with no retries, and reports an error when there are none |
| `Journal.EveryRun` | crates/pdcli/src/fs.rs:2288-2414 | in every run an entry gets at most 11 attempts before it fails or is manually revived, is never attempted again after a success, and leaves the journal only after one |
| `Journal.GivenUpAfterEleven` | crates/pdcli/src/fs.rs:2352-2378 | an entry that only meets passing errors is given up with exactly its eleventh attempt, a permanent error ends it at once, and a success at any time |
| `Journal.AttemptsBounded` | crates/pdcli/src/fs.rs:2342-2381 | without arrivals every recorded result lowers the sum of 11 minus the retry count, so that sum bounds the attempts of the run |
| `Journal.KeepsGoing` | crates/pdcli/src/fs.rs:2300-2326 | while that sum is positive the next batch is not empty: the journal drains |
| `Journal.Fair` | crates/pdcli/src/db.rs:596-622 | from equal retry counts and without arrivals, pending counts never differ by more than one |
| `Journal.UploadsUnique` | crates/pdcli/src/fs.rs:882-909 | without manual retries no inode ever has two pending uploads |
| `Journal.RetryKeepsUploadsUnique` | crates/pdcli/src/db.rs:683-704 | a manual retry keeps that exactly when every failed upload it revives is its file's only one pending or revived |
| `Journal.RetryCanDuplicateAnUpload` | crates/pdcli/src/db.rs:683-704 | a table where it does not |
| `Journal.Rounds` | crates/pdcli/src/fs.rs:2305-2324 | a batch is worked off completely and in order, uploads up to four at a time, anything else by itself |
| `Journal.FlushUploads` | crates/pdcli/src/fs.rs:2383-2414 | collected uploads are appended in full rounds of four, the last one possibly smaller |
| `InodeTree.AddLeaf` | crates/pdcli/src/db.rs:243-276 | adding a row under an existing directory keeps every chain reaching the root |
| `InodeTree.DropLeaf` | crates/pdcli/src/db.rs:480-484 | so does removing a row nobody has as parent |
| `InodeTree.MoveRow` | crates/pdcli/src/db.rs:486-493 | so does moving a row under a directory outside its subtree |
| `InodeTree.TreeRemoved` | crates/pdcli/src/fs.rs:1073-1081 | so does removing a whole subtree, and the descendants of all other rows stay the same |
| `InodeTree.ChildrenThenRow` | crates/pdcli/src/fs.rs:1073-1081 | removing the children's subtrees and then the row removes exactly its subtree |
| `InodeTree.ChainUnique` | crates/pdcli/src/db.rs:209-222 | a row has at most one chain to the root |
| `Inodes.MigrationMoves` | crates/pdcli/src/db.rs:296-366 | the migration leaves only `MyFiles` and `Computers` under the root, moves everything else there into `MyFiles`, hands it the root's remote identity and changes nothing else |
| `InodesExact.MigrationExactly` | crates/pdcli/src/db.rs:279-366 | the migration row by row: which folder it finds or adds and under which id, who gets the root's identity, which entries move, and that all else stays |
| `InodesExact.ComputersExactly` | crates/pdcli/src/db.rs:368-381 | which folder for computers is found or added and under which id; all else stays |
| `InodesExact.LookupExactly` | crates/pdcli/src/db.rs:181-192 | a lookup finds the lowest row of that name in the folder, if there is one |
| `InodesExact.ProtectedExactly` | crates/pdcli/src/fs.rs:456-463 | protected are exactly the root and the folder for computers right under it |
| `Inodes.MigrationIdempotent` | crates/pdcli/src/db.rs:296-366 | a second migration changes nothing and returns the same folder |
| `Inodes.MigrationKeepsTree` | crates/pdcli/src/db.rs:296-366 | it keeps the tree if and only if `MyFiles` is a folder or nothing is moved |
| `Inodes.LegacyFileNamedMyFiles` | crates/pdcli/src/db.rs:356-366 | a table where it does not |
| `Inodes.MigrationsMakeSound` | crates/pdcli/src/db.rs:296-381 | after both migrations the drive is in the state all operations keep |
| `Inodes.FuseDb.EnsureMyFilesRoot` | crates/pdcli/src/db.rs:296-354 | the statements carry out the migration |
| `Inodes.FuseDb.ReparentLegacyRootChildren` | crates/pdcli/src/db.rs:356-366 | moves exactly the legacy entries |
| `Inodes.FuseDb.EnsureComputersRoot` | crates/pdcli/src/db.rs:368-381 | finds or adds the folder for computers; its row is what a lookup of the name then finds |
| `Inodes.FuseDb.InsertRoot` | crates/pdcli/src/db.rs:279-294 | adds the root row only if it is missing |
| `Inodes.FuseDb.Create` | crates/pdcli/src/fs.rs:1585-1700 | exact error cases and no other replies; otherwise one new file row, kept even if the cache file fails; the tree is kept |
| `Inodes.FuseDb.Mkdir` | crates/pdcli/src/fs.rs:1702-1776 | exact error cases; otherwise one new folder row, queued unless ignored; the tree is kept |
| `Inodes.FuseDb.Unlink` | crates/pdcli/src/fs.rs:1778-1819 | exact error cases; otherwise exactly the named file goes, with a remote deletion queued if it is remote |
| `Inodes.FuseDb.RmdirLookup` | crates/pdcli/src/fs.rs:1821-1849 | exact error cases of the first half, before the lock is given up |
| `Inodes.FuseDb.RmdirFinish` | crates/pdcli/src/fs.rs:1850-1867 | removes the folder exactly if it has no children by then, even if it has gone meanwhile |
| `Inodes.FuseDb.Rename` | crates/pdcli/src/fs.rs:1869-1947 | exact error cases; otherwise an existing target goes, the row moves, and the right changes are queued in order; the tree is kept |
| `Inodes.FuseDb.RemoveInodeTree` | crates/pdcli/src/fs.rs:1073-1081 | the recursion ends and deletes exactly the row's subtree |
| `Inodes.FuseDb.ApplyRemoteDelete` | crates/pdcli/src/fs.rs:1083-1096 | deletes the subtree of a row with that link, and nothing when there is none; the tree is kept |
| `Inodes.PathComponents` | crates/pdcli/src/db.rs:209-222 | the bounded loop computes the bounded walk |
| `Inodes.ComponentsExact` | crates/pdcli/src/db.rs:209-222 | the bounded walk succeeds exactly for rows whose chain to the root is short enough, with the names along it; never on a cycle |
| `Inodes.InodePath` | crates/pdcli/src/db.rs:392-408 | the unbounded loop computes the walk, wherever that has an end |
| `Inodes.WalksAgree` | crates/pdcli/src/db.rs:209-408 | on a tree the components are the names of the path without the root below a depth of 4096, and nothing beyond |
| `Populate.PopulateFolder` | crates/pdcli/src/fs.rs:985-1020 | with the lock held again: every listed child that has a name and no row gets one under the folder, then exactly the subtrees of its stale children go; the tree is kept exactly if the folder is still there or nothing was new |
| `Populate.PopulateKeepsTree` | crates/pdcli/src/fs.rs:930-1000 | inserting the listed children keeps every chain to the root if and only if the folder is still a directory row or there is nothing to insert |
| `InodesExact.PopulatedExactly` | crates/pdcli/src/fs.rs:542-1001 | listing children changes no row, leaves a row for each listed node with a name, and adds exactly those of nodes that had none, under the folder, once |
| `InodesExact.StaleGoes` | crates/pdcli/src/fs.rs:1004-1014 | of the folder's children exactly those go whose node is not listed any more and that are neither changed nor queued |
| `Populate.RemoveTrees` | crates/pdcli/src/fs.rs:1006-1014 | deleting several siblings one after the other removes exactly their subtrees |
| `EventLog.SyncEvents.Record` | crates/pdcli/src/db.rs:726-747 | after the insert and the trim the log is the 100 greatest of everything ever recorded, whatever the clock says |
| `EventLog.SyncEvents.Recent` | crates/pdcli/src/db.rs:749-766 | the query lists the newest rows, newest first, and up to 100 of them it answers as the untrimmed log would |
| `EventLog.TrimThenInsert` | crates/pdcli/src/db.rs:735-745 | the newest after an insert are found among the newest before it |
| `EventLog.TrimmingUnseen` | crates/pdcli/src/db.rs:749-766 | a query of up to 100 rows cannot tell the trimmed log from the untrimmed one |
| `EventLog.TopCount` | crates/pdcli/src/db.rs:740-742 | the trim leaves exactly 100 rows, or all if there are fewer |
| `Hierarchy.GetNodeHierarchy` | crates/proton-drive-sdk/src/client.rs:716-738 | ends on every finite set of nodes; gives the duplicate-free chain from the root exactly when there is one, a loop error exactly when the chain comes back, a fetch error exactly when it breaks off |
| `Hierarchy.HierarchyExcludesCycle` | crates/proton-drive-sdk/src/client.rs:722-727 | a chain that ends at a root has no duplicates and no cycle |
| `ConflictNames.ConflictNameRecognised` | crates/pdcli/src/computers.rs:873-908 | every name a conflict copy can get is recognised as one |
| `ConflictNames.FreeConflict` | crates/pdcli/src/computers.rs:893-908 | a conflict copy's path does not exist yet |
| `ConflictNames.CopyOfOne` | crates/pdcli/src/computers.rs:885-908 | a conflict name tells which file it is a copy of: no path is a copy of two files that are not copies themselves |
| `ConflictNames.ConflictNameAt` | crates/pdcli/src/computers.rs:885-902 | the name of a conflict copy, letter by letter |
| `SyncMirror.MarkedExactly` | crates/pdcli/src/computers.rs:873-875 | a name is passed over as a conflict copy exactly if it contains the text of the marker |
| `SyncRun.OwnVersionsKept` | crates/pdcli/src/computers.rs:820-866 | wherever one transfer stops, both versions of its path survive at the path, in a conflict copy or remotely, unless a download overwrites a local file |
| `SyncRun.ExecFrame` | crates/pdcli/src/computers.rs:820-866 | a transfer touches nothing but its own path and one new conflict copy |
| `SyncRun.ExecPreserves` | crates/pdcli/src/computers.rs:820-866 | with that exception no transfer loses a version kept by any earlier one |
| `SyncRun.RunPreserves` | crates/pdcli/src/computers.rs:811-871 | nor does a run whose downloads find no local file and no conflict copy in their way, also one that stops at a failed transfer |
| `SyncRun.ShelteredStays` | crates/pdcli/src/computers.rs:820-908 | every successful transfer leaves the remaining ones so |
| `SyncRun.RunUntouched` | crates/pdcli/src/computers.rs:811-871 | a path without a transfer keeps its entries on both sides |
| `SyncRun.RunInStep` | crates/pdcli/src/computers.rs:811-1011 | after a successful run whose downloads found nothing in their way, both sides hold the same content at every planned path, namely the side's that was to win, with equal times exactly when the transferred time was representable |
| `SyncPlan.Planner.PlanTree` | crates/pdcli/src/computers.rs:688-808 | the recursive comparison succeeds exactly if no remote folder it looks at has a name locally taken by something it passes over; then exactly the folders it went through are there on both sides, and its plan lists exactly the transfers the two old trees call for, each path once |
| `SyncPlan.Planner.PlanLocals` | crates/pdcli/src/computers.rs:702-789 | the pass over the local entries plans exactly what is wanted behind the names that take part, or fails because the comparison gets stuck |
| `SyncPlan.Planner.PlanRemotes` | crates/pdcli/src/computers.rs:791-806 | the pass over the remaining remote children completes it, or fails for that reason |
| `SyncPlan.Planner.PlanEntry` | crates/pdcli/src/computers.rs:711-787 | one local entry: exactly the transfers wanted and the folders needed at and below it; fails exactly if the comparison gets stuck there |
| `SyncPlan.Planner.PlanRemote` | crates/pdcli/src/computers.rs:792-806 | one unmatched remote child: exactly the transfers wanted and the folders needed at and below it; fails exactly if the comparison gets stuck there |
| `SyncPlan.GrownWanted` | crates/pdcli/src/computers.rs:724-741 | creating folders while comparing changes neither what is wanted nor where the comparison gets stuck |
| `Sync.PlanReady` | crates/pdcli/src/computers.rs:688-871 | every planned transfer finds the entries it expects when the run starts; on a plain tree no download finds anything in its way |
| `Sync.Converges` | crates/pdcli/src/computers.rs:688-1011 | after a fully successful sync planning again finds nothing, if and only if every transferred time is one both sides represent |
| `Sync.NewerWins` | crates/pdcli/src/computers.rs:752-866 | after a successful sync a compared file of both sides has the newer content on both, and a file of one side is on both |
| `SyncMirror.WantedExactly` | crates/pdcli/src/computers.rs:688-808 | on a plain tree a transfer is wanted exactly at a path whose name and folders are unmarked, where one side has a file and the other nothing, or both have files of different times; and which one it is |
| `SyncMirror.FoldersExactly` | crates/pdcli/src/computers.rs:724-798 | the folders compared are exactly the unmarked ones that are folders on every side that has them, all the way up |
| `SyncMirror.PlainUnblocked` | crates/pdcli/src/computers.rs:791-798 | on a plain tree the planning gets stuck nowhere |
| `SyncMirror.RunDelivers` | crates/pdcli/src/computers.rs:811-1011 | after a successful run each planned file is on both sides with the content and time of the side it came from |
| `SyncMirror.MirrorHolds` | crates/pdcli/src/computers.rs:484-1011 | after a successful sync of a plain tree every path is mirrored: a file or folder of one side is on both, of two versions the newer is on both and the other in a marked copy beside it, equal times leave both alone, and whatever is marked, of another kind or in a mismatch is as it was |
| `SyncMirror.RunSucceeds` | crates/pdcli/src/computers.rs:811-1011 | a run gets to its end exactly if every write and upload goes well and one of the thousand copy names is free for each replacement, seen from the beginning |
| `SyncMirror.SyncSucceeds` | crates/pdcli/src/computers.rs:484-495 | so a sync of a plain tree succeeds exactly if all its planned transfers are fortunate |
| `SyncMirror.SizeIsMoved` | crates/pdcli/src/computers.rs:672-799 | the size by which transfers are ordered is the number of bytes a successful one writes on either side, the kept remote version included |
| `Sync.NothingLost` | crates/pdcli/src/computers.rs:688-908 | over any number of guarded syncs, each possibly stopped anywhere, every version once present at a path is still at the path, in a conflict copy of it or remote |
| `Sync.PlainStaysGuarded` | crates/pdcli/src/computers.rs:688-908 | a tree without marked remote names, and without links where remote entries belong, is guarded, and so is every later state of it |
| `SyncLoss.LosesNothingExactlyIfGuarded` | crates/pdcli/src/computers.rs:688-908 | for every tree of names, kinds and times: whatever the files hold, no sync loses a version, if and only if the tree is guarded |
| `SyncLoss.ExposedLost` | crates/pdcli/src/computers.rs:789-866 | where a local file stands at the name of a wanted download, some contents and a run of that shape lose it |
| `SyncLoss.CopyLost` | crates/pdcli/src/computers.rs:820-908 | where a wanted replacement could choose that name for its conflict copy, some contents and a run lose the copied version |
| `SyncLoss.MarkedRemoteReplaces` | crates/pdcli/src/computers.rs:713-866 | a sync of two differing files of one conflict copy's name, after which the local content is nowhere |
| `Sync.ExactReordered` | crates/pdcli/src/computers.rs:816-817 | sorting a plan keeps it exact |
| `StableSort.SortBy` | crates/pdcli/src/computers.rs:816-817 | sorts by a key, keeping the order of equal keys |
| `StableSort.SortedAscends` | crates/pdcli/src/takeout.rs:302-303 | the result is a permutation in ascending order |
| `StableSort.StableIsUnique` | crates/pdcli/src/takeout.rs:302-303 | any stable sort gives this result |
| `SyncJob.Executor.CopyConflictFile` | crates/pdcli/src/computers.rs:877-908 | copies to the first free of 1000 names, or fails; no existing file changes |
| `SyncJob.Executor.DownloadFile` | crates/pdcli/src/computers.rs:990-1011 | writes the remote content, over a file if there is one, with the remote time if that is after the epoch; fails at a folder |
| `SyncJob.Executor.UploadFile` | crates/pdcli/src/computers.rs:919-988 | sets the remote content and time to the local ones |
| `SyncJob.Executor.Transfer` | crates/pdcli/src/computers.rs:820-866 | the four kinds of transfer, each stopping at its first failure |
| `SyncJob.Executor.RunPlan` | crates/pdcli/src/computers.rs:811-871 | carries out the plan smallest first, equal sizes in their order, and stops at the first failure |
| `SyncJob.SyncOnce` | crates/pdcli/src/computers.rs:484-495 | a whole sync, planner and executor: it is one of the rounds of the loss theorem, reaches the transfers exactly if the comparison gets stuck nowhere, and on a plain tree succeeds exactly if all transfers are fortunate; then both sides mirror each other and nothing is left to do if and only if all times are representable |
| `Import.EveryRun` | crates/pdcli/src/photos.rs:554-910 | under the skip strategy no fingerprint is uploaded twice or although the scan found it, reported uploads happened, skipped contents are vouched for, at most the allowed jobs run, and none starts after a permanent failure |
| `Import.AllAccountedFor` | crates/pdcli/src/photos.rs:694-756 | when the loop ends without a permanent failure every file has exactly one result |
| `ImportRuns.NewUploadedOnce` | crates/pdcli/src/photos.rs:694-910 | when an import that met no failure is over, every file not known as imported was read, everything read is present, and each content neither the cache nor a scan knew was uploaded exactly once, by a job that read it |
| `ImportRuns.ResultsMean` | crates/pdcli/src/photos.rs:723-910 | every result means what it says: an error that the job's last step failed, an upload that this job uploaded what it read last, a skip that the content is present or the file known as imported; uploads and skips are remembered |
| `ImportRuns.Retried` | crates/pdcli/src/photos.rs:767-792 | a job ends in a passing error exactly with its tenth passing failure, after nine retries, and in a permanent one exactly with its first |
| `ImportRuns.FailureWorks` | crates/pdcli/src/photos.rs:767-792 | an attempt can fail exactly while it opens, hashes, scans or uploads; that gives up its locks and an unfinished scan, and before the tenth attempt a passing failure leads to another |
| `ImportRuns.UploadWasRead` | crates/pdcli/src/photos.rs:899-910 | in every run an upload is of the content its job read last, the job's only one and the content's only one |
| `ImportRuns.CacheSpares` | crates/pdcli/src/photos.rs:822-850 | a file known as imported can be skipped unread, and a content in the cache without a scan, and no others |
| `ImportRuns.ImportEnds` | crates/pdcli/src/photos.rs:694-792 | every import ends, after at most 121 steps a file |
| `Import.SomeoneMoves` | crates/pdcli/src/photos.rs:554-569 | the name-then-content lock order and the one-time scan cannot deadlock |
| `Import.LocksKept` | crates/pdcli/src/photos.rs:556-569 | a lock is never held by two jobs, and a job's locks are dropped with its attempt |
| `Import.NewToAll` | crates/pdcli/src/photos.rs:836-910 | what a job is uploading has not been uploaded by any job |
| `Import.UploadsKept` | crates/pdcli/src/photos.rs:836-910 | no step uploads a known fingerprint, and the index lags behind only by what is being recorded |
| `Import.SkipsKept` | crates/pdcli/src/photos.rs:843-866 | no step skips or caches content nobody vouches for |
| `Import.CountedKept` | crates/pdcli/src/photos.rs:694-743 | running, finished and unstarted jobs always add up |
| `PhotoIndex.Index.AddHash` | crates/pdcli/src/photos.rs:223-236 | a photo joins the group of its content, or the unchecked ones if its hash has another length, and the counters stay right |
| `PhotoIndex.Index.Scan` | crates/pdcli/src/photos.rs:358-385 | completes exactly at the first page that names no next one, if no cursor comes back before it; a cursor that comes back first, or a page that cannot be fetched, is exactly the error; photos listed on several pages are counted once, in the group of the hash they were first listed with, or unchecked if that is not a SHA-256 |
| `PhotoIndex.Index.RemovalPlan` | crates/pdcli/src/photos.rs:247-266 | of every content exactly the photo with the lowest uid is left, nothing unchecked is trashed, and the extras are as many as counted |
| `PhotoIndex.SurvivorCount` | crates/pdcli/src/photos.rs:247-266 | one photo survives per content |
| `Scheduler.EveryRun` | crates/proton-drive-sdk/src/event_scheduler.rs:82-173 | in every run the own volume is in the foreground, at most one shared scope is, and outside calls every wrongly armed timer has a command queued |
| `Scheduler.TimersKept` | crates/proton-drive-sdk/src/event_scheduler.rs:110-173 | also within a call: a wrongly armed timer has a command queued or about to be sent |
| `Scheduler.CallKeeps` | crates/proton-drive-sdk/src/event_scheduler.rs:110-138 | no atomic step of a call puts two shared scopes into the foreground |
| `SchedulerCalls.SetForegroundWorks` | crates/proton-drive-sdk/src/event_scheduler.rs:108-125 | in every interleaving, when the call is over the scope's flag is up, every other shared one's down and the rest as before; the scope was sent one poll command, each cleared one a reschedule, and nobody anything else |
| `SchedulerCalls.FlagBeforePoll` | crates/proton-drive-sdk/src/event_scheduler.rs:123-124 | throughout the call the scope is sent nothing before its flag is up |
| `SchedulerCalls.SetBackgroundWorks` | crates/proton-drive-sdk/src/event_scheduler.rs:128-137 | when that call is over exactly the scope's flag has come down, and it was sent one reschedule and nobody anything else |
| `SchedulerCalls.CallsEnabled` | crates/proton-drive-sdk/src/event_scheduler.rs:82-144 | in every run: exactly when each call does anything, and that no two overlap |
| `SchedulerCalls.CallFinishes` | crates/proton-drive-sdk/src/event_scheduler.rs:110-138 | in every run a call under way can be finished without waiting for a polling task |
| `SchedulerCalls.RemoveWorks` | crates/proton-drive-sdk/src/event_scheduler.rs:140-144 | removing a scope unregisters it and closes its task's queue, and changes nothing else |
| `Scheduler.AddAndBegin` | crates/proton-drive-sdk/src/event_scheduler.rs:82-106 | adding a scope registers it, in the foreground if it is the own volume, and it is polled at once |
| `SchedulerCalls.TimerWorks` | crates/proton-drive-sdk/src/event_scheduler.rs:153-168 | after a callback the timer is armed for the current flag, and when it runs out the callback starts again |
| `SchedulerCalls.CommandsWork` | crates/proton-drive-sdk/src/event_scheduler.rs:168-173 | a sleeping task takes its oldest command out and polls or rearms; without one it ends exactly if its scope was removed |
| `Scheduler.CommandsTakeEffect` | crates/proton-drive-sdk/src/event_scheduler.rs:153-173 | a poll command starts the callback at once, a reschedule command arms the timer for the current flag without polling |
| `Scheduler.NoOverlap` | crates/proton-drive-sdk/src/event_scheduler.rs:146-173 | polls of a scope never overlap if it is added again only after its last task has ended |
| `Scheduler.ReAddOverlaps` | crates/proton-drive-sdk/src/event_scheduler.rs:82-173 | adding it earlier makes overlapping polls possible if and only if a task of its earlier life is alive |
| `Scheduler.OverlapHappens` | crates/proton-drive-sdk/src/event_scheduler.rs:82-173 | a run in which they overlap |
| `TakeoutNames.SafeName` | crates/pdcli/src/takeout.rs:494-501 | the result is one ordinary path component, and a harmless name is unchanged |
| `TakeoutNames.SafeNameExactly` | crates/pdcli/src/takeout.rs:494-501 | separators become underscores, an empty name or step becomes unnamed, and nothing else changes |
| `TakeoutNames.NumberedAt` | crates/pdcli/src/takeout.rs:532-541 | the number goes before the extension, if there is something on both sides of the last dot |
| `TakeoutNames.CandidatesDiffer` | crates/pdcli/src/takeout.rs:532-548 | the numbered alternatives to a name are pairwise different |
| `TakeoutNames.UniqueRelativePath` | crates/pdcli/src/takeout.rs:516-549 | the loop finds the first unused alternative or falls back |
| `TakeoutNames.UniqueUnlessExhausted` | crates/pdcli/src/takeout.rs:516-549 | the path is unused unless all 10,000 alternatives and the last resort are used, which takes at least 10,000 used paths in the folder |
| `TakeoutNames.ReservedExactly` | crates/pdcli/src/takeout.rs:16 | the two names at the top of the destination that the manifest uses |
| `TakeoutNames.UniqueReserved` | crates/pdcli/src/takeout.rs:516-549 | a new path is one of the manifest's two exactly if the file is called so, at the top, while nothing is there |
| `TakeoutNames.UniqueIsSafe` | crates/pdcli/src/takeout.rs:494-549 | the path is one the manifest gives back and lies in the planned folder |
| `TakeoutExporter.Exporter.Open` | crates/pdcli/src/takeout.rs:116-133 | reads the manifest of the destination, starts empty without one, and fails exactly if it cannot be read |
| `TakeoutExporter.Exporter.ExportFile` | crates/pdcli/src/takeout.rs:339-466 | choosing the path, recognising a finished export, fetching and saving the manifest, branch by branch |
| `TakeoutExporter.Exporter.FetchTo` | crates/pdcli/src/takeout.rs:388-459 | the download through a partial file, or straight to the path, with its failures |
| `TakeoutExporter.Exporter.SaveManifest` | crates/pdcli/src/takeout.rs:487-492 | the manifest goes to its temporary file, which then replaces it; each way this can break off |
| `TakeoutExporter.Exporter.DownloadAll` | crates/pdcli/src/takeout.rs:296-337 | sorts the plan by size and goes through it, recording the failures that may be recorded and stopping at others |
| `Takeout.SaveEffect` | crates/pdcli/src/takeout.rs:487-492 | saving touches only the manifest and its temporary file; unless it succeeds the manifest stays as it was |
| `Takeout.ExportEffect` | crates/pdcli/src/takeout.rs:362-466 | exactly when a file gets stored; the manifest records the stored files and no others, and after a success its own file holds it; apart from the manifest's two files nothing existing changes but the chosen path, and only folders and at most one unmoved partial file are left otherwise |
| `TakeoutExact.SkippedExactly` | crates/pdcli/src/takeout.rs:345-376 | a file is skipped exactly if the manifest has this revision and size for it and a file of that length is at the recorded path; if that path is unusable, at the last resort, all 10,000 candidates being taken |
| `TakeoutExact.GoesTo` | crates/pdcli/src/takeout.rs:345-386 | where any other file goes: to its recorded path, if usable and, in direct mode, free; otherwise to the first candidate not taken |
| `TakeoutExact.StoredExactly` | crates/pdcli/src/takeout.rs:388-449 | a file that is not skipped is stored exactly if no file is in a folder's place, its place is no folder, a partial file can be named, the download arrives with the claimed length and can be moved - or, in direct mode, its place is free |
| `TakeoutExact.ExportedExactly` | crates/pdcli/src/takeout.rs:450-466 | it then counts as exported exactly if neither the manifest nor its temporary file is a folder and the saving works |
| `TakeoutExact.FailureLeaves` | crates/pdcli/src/takeout.rs:388-449 | a failed export changes nothing but for the folders above its place and a finished partial file that could not be moved |
| `TakeoutExact.UnsavedLeaves` | crates/pdcli/src/takeout.rs:487-492 | what a manifest that could not be saved leaves in its temporary file |
| `TakeoutExact.TurnExactly` | crates/pdcli/src/takeout.rs:306-336 | a run goes on exactly after a success, a skip, or a failure that is to be recorded and could be saved; exactly those failures become issues |
| `TakeoutExact.NewRevisionFetched` | crates/pdcli/src/takeout.rs:362-466 | a revision other than the recorded one is never skipped; once exported, the manifest in memory and on disk has it, and the recorded path has the new bytes |
| `Takeout.StoredUnlessReserved` | crates/pdcli/src/takeout.rs:449-492 | after an export the downloaded bytes are at the chosen path, if and only if that is not the manifest's temporary name, nor its own name with another text |
| `Takeout.ReservedNameLosesFile` | crates/pdcli/src/takeout.rs:449-492 | a file with either name is exported into an empty destination, reported as exported, and not there |
| `Takeout.ChosenReserved` | crates/pdcli/src/takeout.rs:345-386 | those two paths are chosen exactly for a file that is called so at the top, or recorded there before |
| `Takeout.ChosenIsSafe` | crates/pdcli/src/takeout.rs:345-386 | the chosen path never leaves the destination |
| `Takeout.PathsStayDistinct` | crates/pdcli/src/takeout.rs:339-466 | whatever happens during an export, recorded paths stay pairwise distinct, if and only if it is not the case that the file can be placed, all names are taken and another node is recorded at the last resort |
| `Takeout.NothingElseReplaced` | crates/pdcli/src/takeout.rs:378-492 | no export replaces a file recorded for another node, apart from that case and exactly the manifest's two names; direct output replaces nothing else |
| `Takeout.ExportThenSkip` | crates/pdcli/src/takeout.rs:362-376 | right after an export the file is recognised if and only if its claimed size is the length of what is at the path, the manifest's text or nothing for its two names |
| `TakeoutRuns.SpaciousIsRoomy` | crates/pdcli/src/takeout.rs:296-549 | if in every planned folder the used names and two for each file that goes there are fewer than 10,000 before a run, no export of it meets a taken last resort, whatever happens |
| `TakeoutRuns.RunsKeepTidy` | crates/pdcli/src/takeout.rs:296-466 | then the recorded paths stay pairwise distinct over the whole run, finished or not |
| `TakeoutRuns.NotExportedAgain` | crates/pdcli/src/takeout.rs:296-492 | resuming: a file whose turn was reached, and which was exported with as many bytes as claimed or already there, is skipped by the next run that reads the manifest from the destination, whatever any other file does in either run and wherever either stops |
| `TakeoutRuns.GoodIsSettled` | crates/pdcli/src/takeout.rs:296-492 | such a file is in the saved manifest and on the disk when the run ends or is cut short |
| `TakeoutExact.NewRevisionKept` | crates/pdcli/src/takeout.rs:296-466 | over a run: such a file is not skipped when its turn comes, and if it is stored, the new revision and bytes are there when the run is over |
| `TakeoutExact.NextRunFetches` | crates/pdcli/src/takeout.rs:296-466 | two runs: what one run exported or recognised is not skipped by the next if that plans another revision |
| `TakeoutRuns.TurnInStep` | crates/pdcli/src/takeout.rs:318-334 | a run goes on only with its manifest saved, and one that ends leaves the last saved one |
| `TakeoutRuns.RunThenRerun` | crates/pdcli/src/takeout.rs:296-492 | a run without faults is not repeated: reading the manifest and running again, whatever the network does, changes nothing |
| `Takeout.LastResortCollides` | crates/pdcli/src/takeout.rs:548 | for any plain name, a destination where two nodes end up recorded at one path |

## Left out

- Network requests, retries inside the HTTP client, OpenPGP, AES-GCM, HMAC and SHA: their results are parameters.
- SQLite itself, its encryption, and the plaintext migration of the database; tables are maps.
- Protobuf, Yjs and Lexical decoding and rendering, gzip inside `yjs_update`.
- `zip_generators` and `async_iterator_map`: merging two streams is the one fact and easy.
- Panicking or aborted tasks and runtime shutdown.
- Chunks.MergeIsCorrect: speaks of messages of 1 to 255 pieces sent one at a time per id; streams that break off or announce wrong counts are covered only by `Chunks.MergeChunkedUpdates`.
- BlockReads.ReadsAreRight: takes every downloaded block to be shorter than 4 GiB, the largest request there is.
- Inodes.FuseDb.Create: file sizes, times, media types and open handles of the inode table are left out, they play no part in the tree; so are database statements that fail.
- Populate.PopulateFolder: metadata updates of rows that exist already, the listing of computers, and an insert that fails.
- Inodes.FuseDb.Rename: the kernel's guarantees are preconditions: the target folder exists, lies outside the moved subtree, and the target is another entry.
- Inodes.InodePath: its precondition is that the walk ends; on a longer parent cycle the loop of the source does not.
- EventLog.SyncEvents.Recent: a negative limit, which SQLite reads as no limit.
- Journal.EveryRun: the contents of a queued payload, what an attempt does remotely, and which error texts count as permanent.
- SyncPlan.Planner.PlanTree: remote siblings of one name, photo nodes and local names that are not UTF-8; failing directory listings and folder creations, which only end the planning.
- SyncRun.OwnVersionsKept: what a download writes through a symbolic link, or a copy through one that leads nowhere, is outside the modelled tree, and a link where a remote folder belongs counts as taken even if it leads to a folder.
- SyncLoss.LosesNothingExactlyIfGuarded: is about names, kinds and times; a tree that is not guarded may still be safe for the contents it happens to hold.
- Sync.Converges: edits made by others during a sync, and clocks at or before the epoch.
- SyncRun.RunInStep: a failure to set the time of a downloaded file, which the source ignores.
- Import.EveryRun: the other duplicate strategies; uploads that succeed remotely but are reported as failed; other clients; the cache's own records of files, of which only the ones at the start matter to a run.
- PhotoIndex.Index.RemovalPlan: the order of the two lists; uids are compared by their rank.
- Scheduler.EveryRun: the lengths of the intervals and the jitter.
- Takeout.ExportEffect: manifests that record the destination itself as a file, which the program never writes.
- TakeoutExporter.Exporter.FetchTo: folders already made when making all folders above a file fails.
- TakeoutExporter.Exporter.DownloadAll: the listing before it, which makes the planned folders and records unsupported files.
- TakeoutRuns.NotExportedAgain: takes the node ids of a plan to be distinct, and a run that was cut short not to have put a file in the place of the manifest.
- Markdown rendering, progress output, tray, service, credentials, sharing and the other commands.
