# Verified models of the desktop client's protocols and of the supporter service

This project models the parts of the repository in which several steps, processes or byte formats have to fit
together, and proves what those parts are for. One module covers one source component; `dafny verify
dfyconfig.toml` checks all of them.

| module | what it models |
|---|---|
| `ResumableUpload` | uploads that continue after failures and crashes: a durable record, four requests in flight, confirmations in any order, the re-read prefix and its digest |
| `ByteRanges`, `MediaStream` | the HTTP range field, slicing a CDN-aligned source of arbitrary chunks, guards, quota, and the response built from them |
| `EncryptedStream`, `EncryptedResponse` | which ciphertext records a plaintext range needs, reassembling and authenticating them from any fragmentation, and the protected response |
| `FolderLayout` | per-account folder layouts swapped through one pair of shared tables with a marker file, with a crash allowed between any two steps |
| `MetadataEpoch` | the sequence lock around metadata, with any number of concurrent writers |
| `FileInventory`, `InventoryCache` | the incremental inventory of a remote folder, its verification and audit sweep, the cache's eviction and the shared audit budget |
| `Checkout` | concurrent finalisers of a paid order and everything they race with |
| `ServerLifecycle` | concurrent restarts, exits and shutdowns of a local server |
| `Notifications` | the queue-and-flag wake-up protocol and the bounded receipt index |
| `Bandwidth` | the weekly quota ledger |
| `IsoBoxes`, `VideoAtoms`, `HeicMetadata` | length-prefixed boxes of section 4.2 of ISO/IEC 14496-12, and the two parsers of untrusted files built on them |
| `Common` | options, bytes, chunked streams, ordered sets |

Code that changes state step by step is a class or a method with loops, as in the source; a protocol with concurrent
participants is a state machine whose steps are single SQL statements or batches, lock sections, atomic operations,
store writes and file renames, and the procedure that takes those steps is a method that lets any steps of the other
participants happen wherever the source awaits. Failures of stores, networks and remote services are
non-deterministic branches.

## What the proofs rely on

* SHA-256 is collision free: a digest is represented by what it was computed from. The AEAD is ideal: a record opens
  only as the record that was sealed under its index, and the final record only as the sealed one.
* Requests of an upload attempt that has ended are delivered or lost before the next attempt starts.
* The operations on the folder layout run one at a time, as the database connection's mutex makes them.
* Between two loads of the metadata revision it is raised fewer than 2^64 times. `WrapIsInvisible` shows that this
  bound is exact. The counter of pending mutations is unbounded.
* No finaliser acts after its 60-second lease. `LateReleaseOrphansEntitlement` shows what happens otherwise. New
  entitlement ids are fresh. Order ids are unique by the schema (supporter-service/migrations/0001_initial.sql).
* Fewer than 2^64 local changes are reported during one inventory read, and for `RunFolder` over the whole run.
* A server generation below 2^64 - 1 is bumped, and a restart that has started its server is not cancelled.
* Completed listings reach the inventory cache one at a time, and the clock of the audit budget never runs backwards.

## Where the code and a promise differ

The model follows the code, and lemmas say exactly when the promise holds.

* An empty representation is never served in part, although section 14.1.2 of RFC 9110 calls a non-zero suffix of it
  satisfiable (`EmptySuffixDiffers`). An invalid range whose positions are both at least 2^64 - 1 is refused instead of
  ignored (`SaturatedInvalidRangeIsRefused`); `RangeFollowsRfc` states that these are the only two differences.
* A source longer than the declared length is not noticed by an upload: it succeeds with exactly the declared bytes,
  which are the stream if and only if the lengths agree (`Uploader.Complete`, ensured by `Upload`).
* A box whose 64-bit size is zero runs to the end of the input for the image parser, although section 4.2 of ISO/IEC
  14496-12 gives that meaning to a 32-bit size of zero only; the video parser rejects it (`ZeroLongSizeDiffers`). The two
  agree, and what the image parser accepts is in the forms of the standard, if and only if no box on the way is such a
  box (`ReadersAgree`, `StandardIffNoLongToEnd`).
* A range that starts at 2^47 bytes or beyond is not served from the right place, because the number of chunks to skip
  no longer fits 32 bits (`SkippedChunksReachBoundary`, exact); files up to that size are not affected
  (`SmallFilesAreReachable`).
* A layout edit is kept for its account if and only if the marker names that account (`EditKeptIffOwner`); the edit
  commands do not ask.
* The layout of an earlier release belongs to nobody until a marker exists. If the first sign-out is interrupted before
  it writes the marker, the next account is shown that layout as its own, and otherwise it is not
  (`InterruptedFirstSignOut`). Over every run before the first marker, an account other than the first claimant, with
  nothing stored of its own, holds a copy of the claimant's layout if and only if a sign-out of its own was interrupted
  that way while the layout was the same (`SharedIffInterrupted`).
* A completion batch keeps payments and entitlements paired if and only if it still finds its claim in processing
  (`BatchKeepsPairingIffProcessing`). A finaliser that releases a claim after its lease can leave an entitlement
  without a completed claim (`LateReleaseOrphansEntitlement`), and that claim can then never complete
  (`OrphanBlocksOrder`, and over every later run `OrphanNeverCompletes`).
* The receipt index stays exact if and only if the loaded list had no duplicates (`IndexExactIffLoadedDistinct`); with
  one, a receipt that is still retained can be claimed again (`DuplicateBreaksIndex`).
* When two readers of the metadata see the same revision, no mutation was inside its critical part in between; a guard
  may be alive that has already raised the revision for the second time, or that has not raised it yet
  (`NoMutationBetween` says which, before and after the look at the pending counter).
* A failed inventory read leaves rows, cursor and sweep position in memory unchanged, but its cursor record may already
  have been written to the account's store; the store is not read back in the same session.

## Model

| member | source | states |
|---|---|---|
| `ResumableUpload.PartsTile` | app/src-tauri/src/resumable_upload.rs:213-219 | for every non-empty upload, part lengths are positive, at most the part size, and add up to exactly its length |
| `ResumableUpload.DigestMatchMeansSameParts` | app/src-tauri/src/resumable_upload.rs:368-382 | if the record is truthful and its digest is that of the re-read prefix, the sink's parts below `completed_parts` are, one by one, the parts that would be sent now |
| `ResumableUpload.RecordStaysTruthful` | app/src-tauri/src/resumable_upload.rs:388-440 | whatever happens to requests still in flight, every part below the saved `completed_parts` stays accepted and the saved digest stays theirs |
| `ResumableUpload.ReplyKeeps` | app/src-tauri/src/resumable_upload.rs:414-437 | a reply to any part in any order, accepted or refused, keeps the loop's invariant about sink, digests and sets of parts |
| `ResumableUpload.AdvanceKeeps` | app/src-tauri/src/resumable_upload.rs:420-427 | moving the confirmed prefix over a confirmed part takes over the digest of exactly the stream up to it |
| `ResumableUpload.NothingLeftMeansDone` | app/src-tauri/src/resumable_upload.rs:411-454 | when nothing is in flight and nothing failed, all parts are confirmed and the sink's file is the concatenation of the pieces |
| `ResumableUpload.Uploader.LoadSession` | app/src-tauri/src/resumable_upload.rs:272-303 | only a usable record is continued, and a usable one is never removed; anything else is removed or reported |
| `ResumableUpload.Uploader.Save` | app/src-tauri/src/resumable_upload.rs:309-318 | the record is replaced as a whole or not at all |
| `ResumableUpload.Uploader.ReadPart` | app/src-tauri/src/resumable_upload.rs:221-236 | a part that is read is exactly the stream's part of that number; a stream that ends inside it is an error |
| `ResumableUpload.Uploader.Reproduce` | app/src-tauri/src/resumable_upload.rs:368-376 | re-reading leaves the reader behind exactly the recorded parts, with their bytes digested |
| `ResumableUpload.Uploader.Begin` | app/src-tauri/src/resumable_upload.rs:339-367 | the session to continue is truthful and describes this upload; progress is taken only from a usable record |
| `ResumableUpload.Uploader.Upload` | app/src-tauri/src/resumable_upload.rs:319-454 | success means the sink's parts concatenate to the declared bytes of the current stream and the record says so; each part is sent at most once, in order, at most four in flight; any outcome leaves a truthful record; progress is only discarded as stale when the source's prefix really differs |
| `ResumableUpload.Uploader.SendRest` | app/src-tauri/src/resumable_upload.rs:388-454 | the sending loop terminates, and from a verified prefix it ends with the whole stream stored, or fails with a truthful record |
| `ResumableUpload.Uploader.Fill` | app/src-tauri/src/resumable_upload.rs:396-413 | reads and sends consecutive parts until four are in flight, the parts run out or the source fails |
| `ResumableUpload.Uploader.GiveUp` | app/src-tauri/src/resumable_upload.rs:414-437 | an attempt cut off with any subset of its requests delivered leaves a truthful record |
| `ResumableUpload.Uploader.Attempts` | app/src-tauri/src/resumable_upload.rs:319-454 | over any number of attempts, each with its own source, fingerprint and stream and cut off anywhere, the record is always truthful, and if the last one succeeds the sink holds its stream |
| `ByteRanges.FoldSaturates` | app/src-tauri/src/server.rs:777-786 | the saturating fold is the number the digits denote, capped at 2^64 - 1 |
| `ByteRanges.RangeFollowsRfc` | app/src-tauri/src/server.rs:777-831 | for every `a-b`, `a-` and `-n` with blanks and any number of digits: partial exactly when the range is valid, satisfiable and the file not empty, with exactly the selected positions; ignored exactly when invalid below the saturation point |
| `ByteRanges.OtherFieldsAreIgnored` | app/src-tauri/src/server.rs:790-822 | any field that is not ignored has one of the three forms |
| `ByteRanges.EmptySuffixDiffers` | app/src-tauri/src/server.rs:808-811 | a suffix of an empty file is refused although RFC 9110 calls it satisfiable |
| `ByteRanges.SaturatedInvalidRangeIsRefused` | app/src-tauri/src/server.rs:777-786 | a concrete invalid range past 2^64 - 1 is refused, not ignored |
| `MediaStream.SliceMediaChunks` | app/src-tauri/src/server.rs:865-901 | for every chunking the body is the requested window of what the source delivers, and ends normally exactly when enough was delivered before an end or failure |
| `MediaStream.GuardMediaChunks` | app/src-tauri/src/server.rs:905-928 | a guard or pacer passes a body on unchanged or ends it early in an error, never anything else |
| `MediaStream.QuotaMediaChunks` | app/src-tauri/src/server.rs:930-948 | the reservation is committed exactly when the body ended normally at its declared length |
| `MediaStream.SkippedChunksReachBoundary` | app/src-tauri/src/server.rs:1001-1013 | the skipped chunks reach exactly the preceding boundary if and only if it lies below 2^31 chunks |
| `MediaStream.WindowOfAligned` | app/src-tauri/src/server.rs:1059-1064 | the window after the boundary offset is the requested part of the file, or a prefix of it |
| `MediaStream.ServeSlice` | app/src-tauri/src/server.rs:1059-1069 | slicing, pacing, guarding and accounting together serve a prefix of the requested bytes, all of them and only then charged when the body ends normally |
| `MediaStream.BuildMediaResponse` | app/src-tauri/src/server.rs:1022-1095 | status, range and length follow the range selection; a body that ends normally is exactly that slice for every start below 2^47 bytes; unless refused it ends normally exactly when the source delivers enough |
| `EncryptedStream.OffsetIsExact` | app/src-tauri/src/crypto/envelope/range.rs:33-56 | a record's computed offset exists exactly for the envelope's records and is where the record starts |
| `EncryptedStream.FetchCoversRange` | app/src-tauri/src/server.rs:1172-1216 | for every satisfiable range the planned records cover it, their lengths add up to the ciphertext requested, and that window of the stored file is exactly their ciphertext |
| `EncryptedStream.DecryptChunkAt` | app/src-tauri/src/crypto/envelope/decrypt_reader.rs:59-93 | a record opens exactly when it is the one sealed under its index, to that chunk's plaintext |
| `EncryptedStream.DecryptReader.Feed` | app/src-tauri/src/crypto/envelope/decrypt_reader.rs:210-249 | a fragment is accepted exactly when everything fed so far is authentic, and yields exactly the plaintext of the records it completes |
| `EncryptedStream.DecryptReader.Drain` | app/src-tauri/src/crypto/envelope/decrypt_reader.rs:138-166 | decrypts every record held in full and nothing forged |
| `EncryptedStream.DecryptReader.Finish` | app/src-tauri/src/crypto/envelope/decrypt_reader.rs:250-256 | succeeds exactly when the whole sealed body was fed |
| `EncryptedStream.DecryptAll` | app/src-tauri/src/crypto/envelope/decrypt_reader.rs:138-256 | however the body is fragmented, decoding succeeds exactly on the sealed body, with exactly its plaintext |
| `EncryptedResponse.Pull` | app/src-tauri/src/server.rs:1235-1241 | buffers download fragments without loss until enough are there or the download ends |
| `EncryptedResponse.PortionAdvances` | app/src-tauri/src/server.rs:1265-1267 | cutting a record to the range continues the plaintext exactly where the record before it stopped |
| `EncryptedResponse.StreamRecord` | app/src-tauri/src/server.rs:1231-1267 | one record: it continues the requested plaintext, or the download was not the range's ciphertext |
| `EncryptedResponse.VerifyEnd` | app/src-tauri/src/server.rs:1252-1264 | the end of a whole file verifies exactly when the download was the complete genuine ciphertext |
| `EncryptedResponse.EncryptedChunks` | app/src-tauri/src/server.rs:1227-1269 | for any fragmentation the output is a prefix of the requested plaintext, ends normally exactly on the genuine ciphertext and is then all of it; the last record of a whole file comes only after the final record is verified |
| `EncryptedResponse.GuardProtectedChunks` | app/src-tauri/src/server.rs:1306-1337 | re-chunking to at most 64 KiB keeps the bytes and their order, or is cut off by an error |
| `EncryptedResponse.ServeRange` | app/src-tauri/src/server.rs:1217-1278 | a served body is a prefix of the requested plaintext, complete exactly when what was fetched is genuine and nobody refused; only a complete one is charged |
| `EncryptedResponse.BuildEncryptedMediaResponse` | app/src-tauri/src/server.rs:1123-1296 | a response is served exactly when the account, range, header, length, credential and quota allow it, and then serves exactly that range |
| `EncryptedResponse.HonestSourceIsGenuine` | app/src-tauri/src/server.rs:1217-1222 | a source that delivers the stored file far enough always yields the genuine ciphertext, whatever its chunking |
| `FolderLayout.InsertSelected` | app/src-tauri/src/folder_layout.rs:93-134 | inserting a table's selected rows restores exactly that table |
| `FolderLayout.SavedLayoutRestores` | app/src-tauri/src/folder_layout.rs:63-134 | what is read from the tables is exactly what writing it back restores |
| `FolderLayout.WriteTablesReplaces` | app/src-tauri/src/folder_layout.rs:93-134 | replacing the tables fails exactly when a key repeats in the layout, and then changes nothing; otherwise the tables hold exactly the layout's rows |
| `FolderLayout.ActivateKeeps` | app/src-tauri/src/folder_layout.rs:144-164 | however far a sign-in gets, every account's latest layout is in the tables if the marker names it and in its own store otherwise; once complete the tables hold the account's latest layout |
| `FolderLayout.DeactivateKeeps` | app/src-tauri/src/folder_layout.rs:172-190 | the same for a sign-out; once complete the tables are empty and nobody's |
| `FolderLayout.EditKeptIffOwner` | app/src-tauri/src/commands/folder_groups.rs:95-260 | an edit is kept for its account if and only if the marker names that account |
| `FolderLayout.ShownOnlyToOwner` | app/src-tauri/src/folder_layout.rs:194-200 | while a marker exists, tables are readable exactly by the account it names, and are then its latest layout |
| `FolderLayout.NothingLostOrMisattributed` | app/src-tauri/src/folder_layout.rs:136-200 | from an existing marker, over every run of sign-ins, sign-outs and edits interrupted anywhere, no layout is lost, saved under another account or shown to another session |
| `FolderLayout.RunFromUnscoped` | app/src-tauri/src/folder_layout.rs:136-200 | the same over every run that begins before the first marker: the layout of an earlier release is credited to whoever writes the first marker, and from then on tables are shown only to the account they belong to |
| `FolderLayout.FirstClaim` | app/src-tauri/src/folder_layout.rs:144-190 | the first sign-in, or a sign-out that reaches its marker, credits an unscoped layout to that account |
| `FolderLayout.InterruptedFirstSignOut` | app/src-tauri/src/folder_layout.rs:172-190 | without a marker, the next account is shown the leaving account's layout exactly when the sign-out stopped before its marker |
| `FolderLayout.SharedIffInterrupted` | app/src-tauri/src/folder_layout.rs:144-190 | over every run before the first marker, another account than the first claimant holds a copy of the claimant's layout if and only if a sign-out of its own stopped before its marker while the layout was the same |
| `FolderLayout.SharedLayout.Activate` | app/src-tauri/src/folder_layout.rs:144-164 | performs exactly the steps whose every cut was proved safe, and reports success exactly when all are done |
| `FolderLayout.SharedLayout.Deactivate` | app/src-tauri/src/folder_layout.rs:172-190 | the same for signing out |
| `FolderLayout.SharedLayout.PrepareLayout` | app/src-tauri/src/commands/folder_groups.rs:16-27 | whatever goes wrong no layout is lost, and tables are shown only when they are the session's account's latest layout |
| `MetadataEpoch.NoMutationBetween` | app/src-tauri/src/local_search.rs:405-452 | if two revision checks agree, at no moment between their revision loads was any of any number of mutators inside its mutation |
| `MetadataEpoch.RowsUnchanged` | app/src-tauri/src/local_search.rs:405-452 | nothing the index is built from changed between two agreeing checks |
| `MetadataEpoch.SameRevisionMeansQuiet` | app/src-tauri/src/local_search.rs:423-429 | fewer than 2^64 raises apart, revisions are equal exactly when there was no raise |
| `MetadataEpoch.WrapIsInvisible` | app/src-tauri/src/local_search.rs:432-452 | exactly 2^64 raises later the revision is the same again, so the bound cannot be weakened |
| `MetadataEpoch.QuietKeepsPhases` | app/src-tauri/src/local_search.rs:432-452 | while the revision rests, a mutator inside its mutation stays inside and one about to enter waits |
| `MetadataEpoch.Epoch.Begin` | app/src-tauri/src/local_search.rs:432-441 | interleaved with all other threads, returns inside the mutation with the pending counter raised |
| `MetadataEpoch.Epoch.Drop` | app/src-tauri/src/local_search.rs:443-452 | leaves the mutation without disturbing any other guard |
| `MetadataEpoch.Epoch.MetadataRevision` | app/src-tauri/src/local_search.rs:423-429 | succeeds exactly when nothing was pending at its first load, with the revision of its second |
| `MetadataEpoch.Epoch.Snapshot` | app/src-tauri/src/local_search.rs:655-770 | rows read one at a time between two agreeing checks are all the rows of one moment, however writers interleave |
| `FileInventory.History` | app/src-tauri/src/file_inventory.rs:666-698 | walking a changing history finds every supported message above the cursor that was there all along, newest first, or the newest beyond the limit; the high-water id does not fall |
| `FileInventory.VerifyBatch` | app/src-tauri/src/file_inventory.rs:699-712 | a verified batch holds genuine rows only, and every id that was there all along |
| `FileInventory.Verify` | app/src-tauri/src/file_inventory.rs:454-480 | the same for any list of ids, batch by batch |
| `FileInventory.Sweep` | app/src-tauri/src/file_inventory.rs:360-384 | a quota-limited sweep keeps every row at or below its position fetched since it began; a finished one covers every row; a forced one finishes |
| `FileInventory.Merge` | app/src-tauri/src/file_inventory.rs:336-352 | new rows replace and extend the old ones, nothing else changes |
| `FileInventory.Truncate` | app/src-tauri/src/file_inventory.rs:385-390 | exactly the newest 50,000 rows are kept |
| `FileInventory.MergeHolds` | app/src-tauri/src/file_inventory.rs:330-352 | old rows and the walk of a growing remote together hold its newest messages |
| `FileInventory.RecheckHolds` | app/src-tauri/src/file_inventory.rs:353-384 | dirty verification and audits against a fixed remote lose and change nothing |
| `FileInventory.TruncateSyncs` | app/src-tauri/src/file_inventory.rs:385-390 | what is left after truncation is the newest min(n, 50,000) supported messages, with the completeness flag exact |
| `FileInventory.Reconcile` | app/src-tauri/src/file_inventory.rs:330-390 | one reconciliation keeps rows genuine, the high-water id from falling and the sweep sound, and syncs with a remote that only gained newer messages |
| `FileInventory.DeletedBeforeSweepIsGone` | app/src-tauri/src/file_inventory.rs:360-384 | a message deleted before a finished sweep began, and not back since, is not in the rows |
| `FileInventory.ComparisonDecides` | app/src-tauri/src/file_inventory.rs:391-452 | comparing sizes and looking up every old row decides exactly whether the visible listing changed |
| `FileInventory.NextSerial` | app/src-tauri/src/file_inventory.rs:391-452 | the serial moves exactly when the visible listing does, even when it wraps |
| `FileInventory.SnapshotDescends` | app/src-tauri/src/file_inventory.rs:414-452 | the published snapshot lists rows newest first |
| `FileInventory.SnapshotListsAll` | app/src-tauri/src/file_inventory.rs:414-452 | the published snapshot lists every row |
| `FileInventory.Inventory.constructor` | app/src-tauri/src/file_inventory.rs:260-280 | before the first read the inventory agrees with an empty remote |
| `FileInventory.Inventory.Read` | app/src-tauri/src/file_inventory.rs:290-452 | a read that fails or need not reconcile changes nothing; a finished sweep leaves only rows fetched since it began; against a remote fixed during the read that only gained newer messages, agreement is kept |
| `FileInventory.Inventory.Reads` | app/src-tauri/src/file_inventory.rs:290-452 | over any number of reads of a growing remote that is fixed during each, whatever verification and audits run, the rows are the newest listing of the last reconciled remote |
| `FileInventory.Gather` | app/src-tauri/src/file_inventory.rs:531-538 | waiting ids are the newest of old and new ones, ascending and without duplicates |
| `FileInventory.Dirty.Changed` | app/src-tauri/src/file_inventory.rs:523-543 | reported ids wait under a new generation, all of them unless more than 50,000 wait, and then the newest; every reader that looked before is marked outdated |
| `FileInventory.Dirty.Settle` | app/src-tauri/src/file_inventory.rs:438-447 | waiting ids are cleared exactly when nothing was reported since the read looked, and then all of them were taken by that read |
| `FileInventory.Folder.Report` | app/src-tauri/src/file_inventory.rs:523-543 | a report moves its ids to the waiting ones, or gives up the oldest beyond 50,000 |
| `FileInventory.Folder.ReadFolder` | app/src-tauri/src/file_inventory.rs:290-452 | a read during which reports arrive keeps the invariant that no row is older than a report about it that no longer waits |
| `FileInventory.RunFolder` | app/src-tauri/src/file_inventory.rs:290-543 | over every run of reports and reads, succeeding or failing, with reports arriving during reads: an id once reported is still waiting, was given up beyond 50,000, or its row was fetched after the report or is gone |
| `InventoryCache.TotalWithout` | app/src-tauri/src/file_inventory.rs:1144-1179 | the retained totals do not depend on the order of the entries |
| `InventoryCache.Cache.EvictUntilWithin` | app/src-tauri/src/file_inventory.rs:1144-1179 | the eviction loop terminates within the bounds or with nothing left to evict, oldest first and only while over the bounds |
| `InventoryCache.Cache.Trim` | app/src-tauri/src/file_inventory.rs:1144-1179 | afterwards at most 100,000 rows and 1,000 audit batches are retained; no pinned entry but the current one goes, and that only when nothing else can |
| `InventoryCache.Cache.Complete` | app/src-tauri/src/file_inventory.rs:1134-1140 | completing a listing of any size keeps the cache within its bounds |
| `InventoryCache.TracksPop` | app/src-tauri/src/file_inventory.rs:131-148 | forgetting a reservation that left the window loses nothing the budget needs |
| `InventoryCache.TracksPush` | app/src-tauri/src/file_inventory.rs:138-148 | any 26 consecutive reservations still span the window after one more is granted |
| `InventoryCache.AuditBudget.Reserve` | app/src-tauri/src/file_inventory.rs:138-148 | granted unless the last 25 reservations were made within the window, and the spacing of all reservations ever granted is kept |
| `Checkout.FirstCompletedIsFirst` | supporter-service/src/paypal.ts:131-143 | the capture found is the first completed one |
| `Checkout.OrderPaysOneClaim` | supporter-service/src/paypal.ts:131-143 | a verified order is valid for exactly one claim, with a completed capture of the full price |
| `Checkout.EntitledIffCompleted` | supporter-service/src/db.ts:83-141 | an order has an entitlement exactly when its claim is completed, and the claim names it |
| `Checkout.BatchKeepsPairingIffProcessing` | supporter-service/src/db.ts:83-141 | a successful completion batch keeps payment and entitlement together if and only if its claim is in processing |
| `Checkout.CleanupKeepsPairing` | supporter-service/src/db.ts:267-281 | expiry and the release of stale processing never touch a completed claim or the pairing |
| `Checkout.CompletedStays` | supporter-service/src/db.ts:24-73 | no step of anybody, at any time, leaves `completed`; only an acknowledgement drops a completed claim's recovery ciphertext |
| `Checkout.LeaseKeepsInv` | supporter-service/src/db.ts:46-56 | taking a claim never takes it from a finaliser within its lease |
| `Checkout.CommitKeepsInv` | supporter-service/src/db.ts:83-141 | a batch by the lease holder completes its claim with its own entitlement |
| `Checkout.FreeKeepsInv` | supporter-service/src/db.ts:58-63 | a release by a finaliser within its lease frees only its own claim |
| `Checkout.StepKeepsInv` | supporter-service/src/db.ts:24-141 | every step of finalisers, cancellation, failure, expiry, cleanup, acknowledgement and refund keeps the invariant |
| `Checkout.RunKeepsInv` | supporter-service/src/db.ts:24-141 | every reachable state satisfies it |
| `Checkout.EntitledExactlyWhenCompleted` | supporter-service/src/index.ts:182-217 | in every interleaving, an order is entitled exactly when its claim is completed, by a verified capture of that order, and the recovery code is gone only once acknowledged |
| `Checkout.OrphanBlocksOrder` | supporter-service/src/db.ts:83-141 | an entitlement left by an unfinished claim makes every later batch for its order fail |
| `Checkout.OrphanNeverCompletes` | supporter-service/src/db.ts:24-141 | in every run, late finalisers included, such a claim stays unfinished and its entitlement stays for ever |
| `Checkout.LateReleaseOrphansEntitlement` | supporter-service/src/db.ts:58-63 | a concrete run in which a release after the lease leaves such an entitlement |
| `Checkout.Service.FinalizePaidOrder` | supporter-service/src/index.ts:182-217 | interleaved with any requests, a claim is returned only when completed and for exactly this verified order; a payment that does not verify changes nothing |
| `Checkout.Service.CompleteCheckout` | supporter-service/src/index.ts:193-217 | the leased part ends with the claim completed or given back, and never leaves a finaliser behind |
| `ServerLifecycle.LocalServerLifecycle.Install` | app/src-tauri/src/server_lifecycle.rs:75-84 | installs exactly when the reserved generation is still the current one |
| `ServerLifecycle.LocalServerLifecycle.Finished` | app/src-tauri/src/server_lifecycle.rs:92-110 | an exit removes a handle exactly if its generation is the one that exited, clears `running` and records the error only if that generation is current, and changes no generation |
| `ServerLifecycle.StepKeepsInv` | app/src-tauri/src/lib.rs:162-293 | every step of restarts, exits and shutdowns keeps lock, handle, servers and generations consistent |
| `ServerLifecycle.RunKeepsInv` | app/src-tauri/src/lib.rs:162-293 | every reachable state satisfies it |
| `ServerLifecycle.RunningMeansCurrent` | app/src-tauri/src/server_lifecycle.rs:55-134 | in every interleaving `running` means the installed handle has the current generation, and somebody answers for every started server |
| `ServerLifecycle.InstallNeverOverwrites` | app/src-tauri/src/server_lifecycle.rs:75-84 | no handle is there when one is installed; a server of an older generation is stopped by its own starter |
| `ServerLifecycle.HandleIsCollected` | app/src-tauri/src/server_lifecycle.rs:86-134 | a handle leaves only to somebody who stops its server, or after that server exited |
| `ServerLifecycle.Host.Bind` | app/src-tauri/src/server_lifecycle.rs:137-174 | at most six attempts, a sixth only after five ports in use, abandoned only when the generation is obsolete |
| `ServerLifecycle.Host.RestartServer` | app/src-tauri/src/lib.rs:162-293 | among all other restarts, exits and shutdowns, a restart that reports success left its server current and running |
| `Notifications.StepKeepsInv` | app/src-tauri/src/desktop_notifications.rs:284-313 | every step of enqueuers and flushes keeps flag, queue and lock consistent |
| `Notifications.RunKeepsInv` | app/src-tauri/src/desktop_notifications.rs:284-313 | every reachable state satisfies it |
| `Notifications.WakeupsAreNeverLost` | app/src-tauri/src/desktop_notifications.rs:284-313 | whenever something is queued a flush is scheduled or about to be, there is at most one such flush, and everything pushed is taken in order or still queued |
| `Notifications.NothingLeftBehind` | app/src-tauri/src/desktop_notifications.rs:272-357 | when nobody is enqueuing and no flush is scheduled, everything pushed was taken |
| `Notifications.Coordinator.Enqueue` | app/src-tauri/src/desktop_notifications.rs:272-300 | among all other threads, a newly queued candidate leaves with the flag raised |
| `Notifications.Coordinator.Flush` | app/src-tauri/src/desktop_notifications.rs:302-357 | takes what is queued, without duplicates, and clears the flag while the queue is locked |
| `Notifications.ClaimKeepsSound` | app/src-tauri/src/desktop_notifications.rs:359-391 | a claim succeeds exactly when the receipt is not among the newest 2,000, and keeps index and retained receipts equal and distinct |
| `Notifications.Receipts.ClaimReceipt` | app/src-tauri/src/desktop_notifications.rs:359-391 | no receipt is claimed twice unless 2,000 others were claimed in between, and the file holds the retained receipts or what it held |
| `Notifications.Receipts.constructor` | app/src-tauri/src/desktop_notifications.rs:503-515 | a duplicate-free stored list loads into a sound state |
| `Notifications.IndexExactIffLoadedDistinct` | app/src-tauri/src/desktop_notifications.rs:359-391 | the index stays exact through all later claims if and only if the loaded list had no duplicates |
| `Notifications.DuplicateBreaksIndex` | app/src-tauri/src/desktop_notifications.rs:359-391 | with a duplicate, a receipt that is still retained becomes claimable again |
| `Bandwidth.HeldWithout` | app/src-tauri/src/bandwidth.rs:221-238 | the sum of holds does not depend on the order they are added in |
| `Bandwidth.SettledState` | app/src-tauri/src/bandwidth.rs:329-348 | charging a hold keeps usage and holds together the same and never charges an id twice |
| `Bandwidth.BandwidthManager.constructor` | app/src-tauri/src/bandwidth.rs:126-164 | a missing file starts a new ledger, an invalid one blocks everything and is kept |
| `Bandwidth.BandwidthManager.Prepare` | app/src-tauri/src/bandwidth.rs:165-208 | usage is reset exactly when a new week began; admission is blocked exactly by unreadable or unwritable accounting or a clock behind the window |
| `Bandwidth.BandwidthManager.SumUsed` | app/src-tauri/src/bandwidth.rs:221-238 | usage plus all holds, or an overflow |
| `Bandwidth.BandwidthManager.Reserve` | app/src-tauri/src/bandwidth.rs:239-267 | a transfer is admitted only within the limit in force, under a new id; it is refused only for the limit, the number of holds, exhausted ids or blocked accounting |
| `Bandwidth.BandwidthManager.Release` | app/src-tauri/src/bandwidth.rs:268-273 | dropping a hold charges and refunds nothing |
| `Bandwidth.BandwidthManager.Resize` | app/src-tauri/src/bandwidth.rs:274-299 | only a hold's size changes; growing ends within the limit, and only then may anything rise |
| `Bandwidth.BandwidthManager.SetLimit` | app/src-tauri/src/bandwidth.rs:300-317 | the limit changes as a whole or not at all, and is never zero |
| `Bandwidth.BandwidthManager.Commit` | app/src-tauri/src/bandwidth.rs:329-348 | exactly the hold is charged, in its direction, at its last size, once, even when the file cannot be written; usage plus holds does not rise or overflow |
| `Bandwidth.BandwidthReservation.Finish` | app/src-tauri/src/bandwidth.rs:98-110 | only the first call charges, and at most once |
| `Bandwidth.BandwidthReservation.Drop` | app/src-tauri/src/bandwidth.rs:111-117 | dropping an unfinished reservation releases its hold and charges nothing; dropping a finished one changes nothing |
| `Bandwidth.Perform` | app/src-tauri/src/bandwidth.rs:98-348 | any call on the manager has one of five effects on the holds and the ledger, and only an admission or a growing resize may raise what is used, and then within the limit |
| `Bandwidth.FatesAreFinal` | app/src-tauri/src/bandwidth.rs:98-348 | whatever happens later, a released id stays released and a charged one stays charged at the same size |
| `Bandwidth.RunCalls` | app/src-tauri/src/bandwidth.rs:98-348 | over every run of calls: an id was never admitted, is held at its last size, was released and is never charged, or was charged exactly once, at the size of its last resize |
| `IsoBoxes.FoldReadsBigEndian` | app/src-tauri/src/heic.rs:65-71 | a field of at most eight bytes reads back the value written |
| `IsoBoxes.BigEndianOfFold` | app/src-tauri/src/heic.rs:65-71 | a field is the big-endian form of the value read from it |
| `IsoBoxes.TilingIsUnique` | app/src-tauri/src/heic.rs:76-108 | parsing returns boxes exactly when they tile the input without gap, overlap or overrun, for either reader of a box |
| `IsoBoxes.Boxes` | app/src-tauri/src/heic.rs:76-108 | terminates, returns the boxes that tile the input, and fails only when no tiling of at most 4,096 boxes exists |
| `IsoBoxes.WrittenBoxReads` | app/src-tauri/src/heic.rs:84-104 | a written box with a 32-bit, 64-bit, to-end or zero 64-bit size reads back as itself, whatever surrounds it; the strict reader knows only the first three |
| `IsoBoxes.BoxesReadWritten` | app/src-tauri/src/heic.rs:76-108 | the serialisation of any list of at most 4,096 boxes in forms the reader understands is parsed back to that list |
| `IsoBoxes.ParsedRewrites` | app/src-tauri/src/heic.rs:76-108 | whatever is accepted is exactly the serialisation of what is returned, in the forms the reader understands |
| `IsoBoxes.ReadersAgree` | app/src-tauri/src/desktop_video_upload.rs:345-367 | the two readers agree on an input if and only if the lenient one rejects it or none of its boxes has a 64-bit size of zero |
| `IsoBoxes.ZeroLongSizeDiffers` | app/src-tauri/src/heic.rs:84-97 | a concrete box with a 64-bit size of zero is accepted by one reader, as running to the end, and rejected by the other |
| `IsoBoxes.StandardIffNoLongToEnd` | app/src-tauri/src/heic.rs:84-97 | an accepted input is the serialisation of its boxes in the three forms of the standard if and only if none of them has a 64-bit size of zero |
| `VideoAtoms.ExplicitIsVerbatim` | app/src-tauri/src/desktop_video_upload.rs:317-406 | a metadata box with an explicit size is collected byte for byte |
| `VideoAtoms.ToEndIsSized` | app/src-tauri/src/desktop_video_upload.rs:317-406 | a metadata box that runs to the end is collected with only its size written out |
| `VideoAtoms.DecisionIsStreams` | app/src-tauri/src/desktop_video_upload.rs:317-406 | the latched decision reports streaming exactly when a first `moov` exists and the box before it, if any, starts below 128 KiB |
| `VideoAtoms.MetadataAtoms` | app/src-tauri/src/desktop_video_upload.rs:317-406 | unless interrupted, a file is accepted exactly when boxes tile it and its metadata fits 16 MiB; it then returns exactly the `ftyp` and `moov` boxes in file order and the streaming decision |
| `HeicMetadata.OnlyBoxIsOne` | app/src-tauri/src/heic.rs:109-116 | a single box of a kind is found |
| `HeicMetadata.OneIsOnlyBox` | app/src-tauri/src/heic.rs:109-116 | what is found is the single box of its kind |
| `HeicMetadata.DimensionsReadsSizes` | app/src-tauri/src/heic.rs:117-132 | exactly the sizes within the limits are accepted, and none is misread |
| `HeicMetadata.TypesAreDeclared` | app/src-tauri/src/heic.rs:133-173 | the item types are exactly what the entries declare |
| `HeicMetadata.TypesRejected` | app/src-tauri/src/heic.rs:133-173 | they are rejected exactly when an entry does not decode or repeats an item |
| `HeicMetadata.ItemTypes` | app/src-tauri/src/heic.rs:133-173 | computes those types |
| `HeicMetadata.Associate` | app/src-tauri/src/heic.rs:391-430 | computes the associations, which name only existing properties |
| `HeicMetadata.AssociationsMean` | app/src-tauri/src/heic.rs:391-430 | associations are accepted exactly in boxes whose entries are readable, distinct and fill them to the last byte, and are then exactly what the entries list |
| `HeicMetadata.AssociationsAreListed` | app/src-tauri/src/heic.rs:391-430 | an item is associated with a list of properties exactly when an entry says so |
| `HeicMetadata.AssociationsRejected` | app/src-tauri/src/heic.rs:391-430 | they are rejected exactly when an entry is not readable, names a missing property or repeats an item |
| `HeicMetadata.IndicesAreStored` | app/src-tauri/src/heic.rs:413-428 | an entry's properties are its non-zero stored indices less one, in order and without omission |
| `HeicMetadata.ReadExtents` | app/src-tauri/src/heic.rs:248-286 | an item's extents are readable exactly when each is non-empty and inside its area; a grid description is the bytes of a single one |
| `HeicMetadata.ReadLocations` | app/src-tauri/src/heic.rs:197-290 | succeeds exactly when good locations of distinct typed items fill the box, and these are its only ones |
| `HeicMetadata.PrimaryGrid` | app/src-tauri/src/heic.rs:174-315 | accepts exactly the primary images laid out as one coded image or a grid, and tells which, with the grid's tile count |
| `HeicMetadata.ReadTileIds` | app/src-tauri/src/heic.rs:478-490 | tiles are returned exactly when every listed one is a coded image of a valid size and together they stay within 128,000,000 pixels |
| `HeicMetadata.FindTiles` | app/src-tauri/src/heic.rs:454-495 | succeeds exactly when at most one reference lists the primary's tiles, as many as the grid promises, all sound |
| `HeicMetadata.Orientation` | app/src-tauri/src/heic.rs:496-509 | sides are exchanged exactly when an odd number of rotations turn sideways; rejected exactly for malformed rotations and crops |
| `HeicMetadata.TopLevel` | app/src-tauri/src/heic.rs:318-375 | returns the metadata exactly of still images: at most 128 boxes tile the file, allowed file types ending in an HEVC brand, one bounded metadata box |
| `HeicMetadata.AcceptedIsBounded` | app/src-tauri/src/heic.rs:318-511 | every accepted size is non-zero, at most 16,384 a side and 64,000,000 pixels; a grid has exactly rows times columns tiles, at most 512 and together 128,000,000 pixels |
| `HeicMetadata.PrimaryDimensions` | app/src-tauri/src/heic.rs:318-511 | a size is returned exactly for files that can be read as a supported still image, and it is the primary image's size as shown |

## Left out

* Telegram, PayPal, HTTP, SOCKS and process input and output, Tauri commands, the user interfaces and the operating
  system's keyring: they are inputs, non-deterministic failures or not modelled.
* Cryptographic algorithms: digests and authenticated records are the ideal ones described above; key unwrapping and
  header parsing are parameters of the protected response.
* Time: a lease, a window or a poll interval is modelled where a property needs it; deadlines, retries and delays
  otherwise only decide that something fails. One attempt of an upload reads its clock once.
* Pacing, checkpoint intervals and audit intervals are non-deterministic choices, so that every timing is covered.
* Lock poisoning and fair scheduling: a thread that waits for a lock may wait for ever.
* A marker file that exists but cannot be read is treated as missing by the code; the model has only the missing one.
* The boolean column of a folder is stored as a number by the code; the model keeps the boolean.
* The notification categories, preferences, aggregation delay and message texts: they do not touch the wake-up
  protocol.
* An accounting file with an unparsable date, and usage counters shown to the user.
* The restart procedure's messages, port selection and token handling.
* File identity and read errors in the two file parsers: a file is a fixed sequence of bytes while it is read.
* Webhook verification and deduplication, device activation and token refresh: they do not change claims or
  entitlements in ways the checkout model does not already allow.
* MP4 utilities, database migrations, external file handling, full-text ranking and JPEG validation.
- Checkout.Service.FinalizePaidOrder: gives up silently when its lease runs out, where the code would go on; this is the assumption that no finaliser acts after its lease.
- FileInventory.Inventory.Read: does not say when a read succeeds, because every request and store access may fail.
- ServerLifecycle.Host.RestartServer: does not promise that a restart succeeds, because the operation lock and the port may stay taken.
