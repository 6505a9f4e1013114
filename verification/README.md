# A model of a deduplicating chunk store

This project models the single-process chunk store of `core/src/store`, the
chunkers and readers that feed it, and the queue reader of the asynchronous
Python wrapper. The store keeps a manifest for every file (its ordered chunk
digests), a reference count and size for every live chunk, running byte totals,
and a key-value backend with the chunk blobs, one record for each manifest and
each count, and two index lists.

`dafny verify dfyconfig.toml` checks all of it.

## How it is built

The operations are written twice. `StoreSpec` and `DiskSpec` give each of them
as a function from a store state to the state reached together with a value or
an error. The classes `MemoryBackend`, `Manifest`, `RefCount`, `Stats`,
`ChunkStore`, `IngestSession`, `FixedChunker` and `QueueReader` hold the same
fields as the originals, and their methods run the same loops and updates in
place; each one is proved to leave the state, and to give the answer, that its
function says. Everything else is proved about the functions.

* **Faults and crashes.** The backend carries a plan: never fail, or let n more
  calls through and then fail, without effect. An operation stops at its first
  failed call, so the values of n are all the points at which a call can fail
  or the process can stop. Unless a lemma asks for the plan `Never`, it holds
  for every n.
* **Digests.** The hash is an arbitrary function to 32 bytes (SHA-256 is
  section 6.2 of FIPS 180-4). No injectivity is assumed of it, which would be
  contradictory: a payload is *in play* when it is the one chosen for its
  digest, and `CollisionFreeSetsAreInPlay` shows that every set of payloads
  without a collision can be in play as a whole.
* **Codec.** A blob codec is optional and may refuse a payload. The only law
  asked of it is that decoding undoes encoding.
* **Iteration orders** of hash tables are parameters; results hold for all.
* **Keys.** The backend is one map for blobs and one for each family of
  records. `NamesAreDistinct` justifies it. The index list lives under the name
  `__index__` of its family, as in the code, so an ingest of that id meets it.
* **Pending references.** `Consistent` says that each count is its occurrences
  in all manifests, with multiplicity, plus the references that the operation
  in progress holds; that every counted chunk is stored and its size right; and
  that each family holds exactly the records of the tables, each listed once.

## Main results

1. *A plain map.* Failure-free runs behave as a map from ids to bytes
   (`Refinement.RunRefines`), with exact counts, exact totals and a backend that
   opens to the same store (`Reopen.ReopenRestores`).
2. *Nothing dangles.* However calls fail and whenever the process restarts, no
   manifest anywhere names a missing or damaged chunk
   (`FaultRuns.NoDanglingDigest`).
3. *Crash safety.* A backend is *torn* when a listed record, or the blob of a
   counted chunk of unknown size, is missing. A store is *in step* when its
   backend holds its files and is not torn, and the counts in memory and on the
   backend cover the files; after faults they may exceed them. From any such
   store, an operation stopped at any call leaves a backend that opens exactly
   when the stop is in none of the windows given for it in terms of its
   arguments and its calls, and the store opened is in step and serves the old
   or the new files
   (`Recovery.CrashSafe`).
   An ingest has no window up to its manifest save (`Recovery.IngestCrashSafe`).
   Over whole runs with faults and restarts, `open` succeeds exactly when the
   backend is not torn (`CrashRuns.RunOpens`).
4. *Conservation and inverses.* Byte totals, live and collected chunks, ingest
   followed by delete, and ingesting the same content again.
5. *Opening.* What `open` makes of a backend, document by document
   (`Loading.OpenedTable`), and exactly which backends it refuses
   (`Loading.OpensIff`).
6. *Verified reads.* For arbitrary blobs, where a read stops, what it has written
   and which error it gives (`Reads.ReadToEnds`).
7. *Streaming.* Chunking does not depend on how the input is delivered, nor does
   the store reached.
8. *Threads.* Every interleaving of ingests of new files
   (`Concurrency.EveryInterleaving`), and exactly when their manifest index is
   complete (`IndexRaces.IndexComplete`).
9. *Races.* A delete between the lock scopes of an ingest, and exactly when the
   new file is lost (`Races.DeleteDuringIngest`); an ingest within a delete
   (`ReplaceRaces.IngestDuringDelete`); a delete within a save or within a turn
   of a release (`SaveRaces.DeleteDuringSave`, `TurnRaces.DeleteWithinTurn`); and
   every interleaving of two changes to an index list
   (`IndexOverlaps.OverlapClash`).

## What the code does not promise

* `docs/CONSISTENCY.md` line 24 calls concurrent ingest and delete on one store
  safe. It is not. These are the places modelled, with one operation running
  within another; the list is not claimed to be complete:
  * put and count of a chunk (`mod.rs` lines 322 to 344): a delete can unlink the
    blob, and the new file is lost unless another file, an earlier chunk or a
    later chunk of the session has it (`Races.DeleteDuringIngest`);
  * decrement and save of a release (`mod.rs` lines 460 to 476): counts made in
    between are overwritten on the backend
    (`ReleaseRaces.CountBetweenDecrementAndSave`), and references released in
    between come back (`TurnRaces.DeleteWithinTurn`);
  * peek and insertion of a replacement (`mod.rs` lines 650 to 680): a delete or
    another replacement of the same file in between has the previous version
    released twice (`CommitRaces.DeleteBetweenPeekAndInsert`,
    `ReplaceRaces.IngestBetweenPeekAndInsert`);
  * insertion and save of a manifest (`mod.rs` lines 674 to 681): a delete or a
    replacement of the same file in between is undone on the backend
    (`CommitRaces.DeleteBetweenInsertAndSave`,
    `ReplaceRaces.IngestBetweenInsertAndSave`);
  * removal of a manifest from memory and of its record (`mod.rs` lines 446 to
    452): an ingest of the same file in between is forgotten by the backend
    (`ReplaceRaces.IngestDuringDelete`);
  * record, index read and index write of `save_manifest`, `remove_manifest`,
    `save_refcount` and `remove_refcount` (`persistence.rs` lines 115 to 163): two
    of them that overlap can leave a name without a record, so that the store
    cannot be opened, or a record without its name, which is not loaded
    (`IndexOverlaps.OverlapClash`, `SaveRaces.DeleteDuringSave`,
    `IndexRaces.QuiescentIsClean`).
* `remove_manifest` and `remove_refcount` delete the record before they rewrite
  the index. A process that stops between the two leaves a store that cannot be
  opened (`Recovery.RemoveManifestTears`, `Recovery.DropTears`). So does one that
  stops right after unlinking an empty chunk, before its count is deleted, and,
  after faults, a repair that unlinks one (`Repairs.FsckCut`,
  `EmptyChunks.RepairTearsBackend`).
* The empty id is refused only after its chunks have been counted
  (`Reads.EmptyIdLeaks`). A reader that breaks leaves its complete chunks
  counted in the same way (`Streaming.BrokenReadLeaks`).
* The id `__index__` is accepted and destroys the manifest index
  (`Reads.ReservedIdBreaksIndex`).
* Reusing an orphan blob leaves the stored bytes short
  (`Orphans.TotalsRightIff`).
* A codec that encodes the empty chunk as something else gives it a wrong size
  on the next open (`Reopen.ReopenRestores`).

## Model

| member | source | states |
|---|---|---|
| Refinement.RunRefines | core/src/store/mod.rs:202-455 | Every failure-free run of ingests, re-ingests, deletes and reads, from any clean store, gives answer by answer what a plain map from file id to bytes gives, and ends in a clean store that stands for the map reached; totals that were right stay right |
| Refinement.StepRefines | core/src/store/mod.rs:202-455 | One operation and one step of the map give the same answer and corresponding results; exact counts, backend agreement and right totals are kept |
| Refinement.IngestRefines | core/src/store/mod.rs:297-307 | Ingest binds the id to exactly the concatenated chunks, returns their digests in order, and leaves every other file alone; counts stay exact with multiplicity, each record is persisted and listed once |
| Refinement.DeleteRefines | core/src/store/mod.rs:425-455 | Delete removes exactly that file and keeps the invariant; an absent id is refused with NotFound and no effect |
| Refinement.ReadRefines | core/src/store/mod.rs:407-423 | Read returns exactly the bytes ingested last, and NotFound exactly when the id is absent |
| Refinement.EmptyStoreIsClean | core/src/store/mod.rs:153-169 | The empty store satisfies the invariant and stands for the empty map |
| Refinement.UnlinkExact | core/src/store/persistence.rs:124-133 | Removing a manifest makes its references pending, or stops before the record or before the index |
| Refinement.ReadToReplans | core/src/store/mod.rs:407-417 | Reading changes nothing on the backend, whatever call fails |
| ExactSteps.StoreChunkExact | core/src/store/mod.rs:309-354 | From a consistent store, storing a chunk fails only with the backend, never for a size mismatch, and leaves the store consistent with one more pending reference |
| ExactSteps.StoreChunkStored | core/src/store/mod.rs:309-354 | It reports whether the blob was there, adds the blob exactly when it was not, raises one count by one, appends the digest to the index exactly when it is new, and changes nothing else |
| ExactSteps.StoredBalanced | core/src/store/mod.rs:346-351 | Without orphans the running totals stay equal to the sums over the refcount table |
| ExactSteps.CountStepEffect | core/src/store/mod.rs:334-344 | The size check of a consistent table never refuses; a save that is cut short leaves the old record or the new record without its index entry |
| ExactOps.AcceptAllExact | core/src/store/mod.rs:632-643 | Accepting a chunk list makes exactly its digests, with multiplicity, pending, and touches neither manifests nor the gc count |
| ExactOps.PublishedExact | core/src/store/mod.rs:674-681 | Saving the manifest turns the pending references of the session into the file's, and makes those of the replaced version pending |
| ExactOps.MeaningOfChunks | core/src/store/mod.rs:297-307 | The digest list of a chunk list stands for the concatenation of the chunks |
| ExactRelease.CommitExact | core/src/store/mod.rs:645-687 | Commit binds the manifest, releases the replaced version, and leaves nothing pending |
| ExactRelease.ReleaseOneReleased | core/src/store/mod.rs:457-485 | Releasing a reference lowers one count by one; the last one takes blob, record and index entry with it |
| ExactRelease.ReleasedExact | core/src/store/mod.rs:457-485 | After it the counts are exact without that reference; no zero entry is kept |
| ExactRelease.ReleasedBalanced | core/src/store/stats.rs:23-30 | The saturating subtractions never saturate, and right totals stay right |
| ExactRelease.ReleaseAllExact | core/src/store/mod.rs:457-485 | Releasing a pending list never fails for a missing count and leaves nothing of it pending |
| Records.SavePersists | core/src/store/persistence.rs:99-122 | A completed save changes one record; the index keeps its order and lists each id once |
| Records.RemovePersists | core/src/store/persistence.rs:124-133 | A completed removal drops one record and its index entry, and keeps the order of the rest |
| Records.SaveEntryEffect | core/src/store/persistence.rs:99-122 | A save touches one family only; it fails only with the backend, before the record or before the index |
| Records.RemoveEntryEffect | core/src/store/persistence.rs:155-164 | A removal touches one family only; it fails only with the backend, before the record or before the index |
| KeyNames.NamesAreDistinct | core/src/store/persistence.rs:17-47 | Blob keys and the two families of metadata keys never share a text, so one map for each family loses nothing |
| Inverse.IngestThenDelete | core/src/store/mod.rs:425-485 | Ingesting an absent id and deleting it restores manifests, counts, blobs, totals, all records and both index lists in order, with repeated and shared chunks; the gc count grows by the blobs put |
| Inverse.ReingestIsIdentity | core/src/store/mod.rs:645-687 | Ingesting a file again with the same digests gives back the identical store, in memory and on the backend |
| Inverse.RefsDetermined | core/src/store/mod.rs:139-149 | Two consistent stores with the same manifests have the same refcount table |
| Inverse.IngestConserves | core/src/store/mod.rs:457-485 | Live digests plus collected chunks grow by exactly the blobs an ingest puts |
| Inverse.DeleteConserves | core/src/store/mod.rs:457-485 | A delete keeps live digests plus collected chunks |
| Conservation.RunCollects | core/src/store/stats.rs:27-30 | Over every run, live digests plus collected chunks are those at the start plus the blobs put |
| Conservation.TotalsConserved | core/src/store/stats.rs:5-30 | The running total is the sum over digests of size times count and also the sum over files of their lengths; stored bytes are the sizes of the live digests |
| Conservation.TotalsFit | core/src/store/stats.rs:5-30 | While chunks are accepted, and wherever that stops, neither total passes 2^64 as long as file bytes plus ingested bytes stay below it |
| Conservation.AcceptAllTotal | core/src/store/mod.rs:346-351 | Accepting adds exactly the accepted bytes to the running total, and at every stop at most those |
| Counting.ByteConservation | core/src/store/stats.rs:5-30 | Exchange of the two sums: size times count over digests equals file length over files when the counts are exact |
| Orphans.TotalsRightIff | core/src/store/mod.rs:346-351 | From right totals, the totals after an ingest are what a recount gives if and only if every orphan blob it reuses is of an empty chunk |
| Orphans.IngestShort | core/src/store/mod.rs:346-351 | The stored bytes fall short by exactly the sizes of the distinct orphans reused; the total bytes stay right |
| ExactRelease.ReleasedShort | core/src/store/stats.rs:23-30 | The same with stored bytes that are short by a gap: no subtraction saturates, as long as the gap leaves room for the chunk dropped, and the gap stays |
| Reopen.ReopenRestores | core/src/store/mod.rs:153-179 | Opening the backend of a clean store rewrites nothing and gives the same store, totals recomputed, if and only if every live empty chunk is stored as the empty blob; always so without a codec. With right totals only the gc count differs |
| Reopen.ConsistentLoads | core/src/store/persistence.rs:49-87 | Loading gives exactly the manifests and counts in memory |
| Opening.OpenResult | core/src/store/mod.rs:153-169 | What opening a loadable backend gives, for every iteration order of the tables |
| Opening.OpensIffSizable | core/src/store/mod.rs:517-549 | A loadable backend opens if and only if every counted chunk of unknown size has its blob |
| Opening.LegacyMigration | core/src/store/mod.rs:690-711 | For any mix of bare counts and sized records, opening keeps every count, sets each unknown size to the blob length, writes refcount records only, and a second open gives the same store and changes no stored value |
| Loading.OpenedTable | core/src/store/persistence.rs:49-97 | The opened tables document by document, for any mix of legacy and sized records: the listed files as recorded; the listed counts that are positive, a bare number being a count without a size; the recorded size, or the length of the blob when none is recorded; and nothing else |
| Loading.OpensIff | core/src/store/mod.rs:153-169 | On a backend that does not fail, open succeeds if and only if both indexes and all listed records are well formed and every size can be found; a size that cannot be is refused with NotFound |
| Loading.OpenRefuses | core/src/store/persistence.rs:49-97 | Which error open gives for a backend that is not well formed: manifests first, each family in the order of its index, a missing or undecodable record before the shape of its digests; nothing is changed |
| Opening.BackfillResult | core/src/store/mod.rs:690-711 | Filling in sizes measures exactly the visited entries whose blob is there |
| Opening.RecountResult | core/src/store/mod.rs:517-549 | Rebuilding totals sums over the table in whatever order it is visited |
| Opening.LoadResult | core/src/store/persistence.rs:49-97 | Loading visits the listed records, in sized or legacy form, and drops zero counts |
| Recovery.CrashSafe | core/src/store/mod.rs:153-169 | Whatever backend call of an ingest, delete, read, check or open is the last before the process stops, from any store in step with its backend, also one that has itself recovered: open succeeds if and only if the stop is in none of the windows of the operation, which the rows below list and which depend on the store, the arguments and the number of calls let through only, and then gives a store in step that reads the files as before or all of them as after. Ids other than the index name, the empty one included |
| Recovery.IngestCrashSafe | core/src/store/mod.rs:645-681 | An ingest stopped anywhere up to its manifest save leaves a backend that opens to a store in step, with this file wholly old or wholly new and every other file as it was |
| CrashRuns.RunOpens | core/src/store/mod.rs:153-169 | After every run of ingests, deletes, reads, checks and restarts with failing calls, stops inside open and inside a repair included, and with any number of restarts that fail in a row: open succeeds if and only if the backend is not torn, and gives a store in step that reads every file, each as some ingest of the run made it or as at the start |
| CrashRuns.RunRecords | core/src/store/persistence.rs:99-133 | Over every such run the listed records can be decoded, and each manifest record, listed or not, is one of the start or of an ingest of the run |
| CrashRuns.SafeIsSalvageable | core/src/store/persistence.rs:49-97 | What such a run leaves on the backend belongs to the files that it lists |
| CrashRuns.ConsistentCanStart | core/src/store/mod.rs:139-149 | A store between failure-free operations is a possible start of such a run |
| Salvage.SalvageableOpens | core/src/store/mod.rs:153-169 | A backend that holds what belongs to some files opens if and only if no listed record and no blob of unknown size is missing, and gives a store in step that reads those files |
| Salvage.TornStopsOpen | core/src/store/persistence.rs:49-87 | A listed manifest or refcount without a record, or a counted chunk of unknown size without a blob, makes open fail |
| Salvage.ConsistentIsInStep | core/src/store/mod.rs:139-149 | A store between failure-free operations, or within one that holds references, is in step with its backend |
| Recovery.ActCut | core/src/store/mod.rs:202-455 | Wherever an operation stops, the backend belongs to the files before it or after it, and it is torn if and only if the stop is in a window of the operation |
| Recovery.SaveCut | core/src/store/mod.rs:645-681 | Accepting chunks and saving the manifest, of any id but the index name, never tears the backend, wherever they stop |
| Recovery.IngestCut | core/src/store/mod.rs:645-687 | An ingest tears the backend if and only if it stops in a window of the release of the replaced version |
| Recovery.DeleteCut | core/src/store/mod.rs:425-455 | A delete tears the backend if and only if it stops after one or two calls of the manifest removal, or in a window of the release |
| Recovery.RemoveManifestTears | core/src/store/persistence.rs:124-133 | Removing a manifest tears the backend exactly when it stops between deleting the record and rewriting the index |
| Recovery.ReleaseAllTears | core/src/store/mod.rs:457-485 | The release loop tears the backend exactly when it stops in the drop of a last reference at some turn; looking up a size and saving a remaining count never do |
| Recovery.ReleaseOneTears | core/src/store/mod.rs:458-483 | The same for one turn |
| Recovery.DropTears | core/src/store/mod.rs:468-474 | Dropping a chunk tears the backend exactly between deleting its count and rewriting the index, or when its size is recorded as zero and only its blob is gone |
| Repairs.FsckCut | core/src/store/mod.rs:572-613 | Wherever a check stops, the backend belongs to the same files, and it is torn if and only if the calls let through reach an orphan whose blob is there and which the backend, but not the memory, counts with size zero |
| Repairs.RepairTears | core/src/store/mod.rs:606-611 | The same from any backend that is not torn |
| Repairs.RepairIsHarmless | core/src/store/mod.rs:572-613 | A repair never tears the backend when every digest counted there is counted in memory |
| EmptyChunks.RepairTearsBackend | core/src/store/mod.rs:572-613 | When the delete of a file that alone holds the empty chunk stops at its fifth call, the store is in step and reads every file; a complete repair of it tears the backend, and open fails |
| EmptyChunks.OneEmptyChunk | core/src/store/mod.rs:297-307 | Ingesting a single empty chunk into the empty store gives such a file |
| Recovery.OpenCut | core/src/store/mod.rs:690-711 | Wherever open stops, in the filling in of sizes too, the backend belongs to the same files and is not torn by it |
| Families.SaveManifestKeeps | core/src/store/persistence.rs:99-122 | Wherever it stops, saving a manifest lists the new version or leaves the files as they were, and keeps listed records decodable and present |
| Families.RemoveManifestKeeps | core/src/store/persistence.rs:124-133 | Wherever it stops, removing a manifest drops that file or leaves the files as they were |
| Families.AcceptAllKeeps | core/src/store/mod.rs:632-643 | Wherever it stops, accepting chunks changes no manifest and does not tear the backend |
| Families.ReleaseAllKeeps | core/src/store/mod.rs:457-485 | Wherever it stops, a release changes no manifest and keeps the listed records decodable |
| SavePoint.IngestIsSaveThenRelease | core/src/store/mod.rs:645-687 | Ingest is the part up to the manifest save followed by the release of the replaced version |
| SavePoint.SavedExact | core/src/store/mod.rs:674-681 | When the manifest is saved, exactly the references of the replaced version are left to release |
| FaultRuns.NoDanglingDigest | core/src/store/mod.rs:309-354 | In every run in which any backend call may fail and the process may stop and open again, at every stop: each manifest, in memory or on the backend, listed or not, names only digests whose blob is there and intact, and no count is below its occurrences |
| FaultRuns.RunSafe | core/src/store/mod.rs:425-485 | The invariant of runs with faults holds after every such run |
| FaultRuns.ActSafe | core/src/store/mod.rs:202-455 | It is kept by every single operation, wherever that operation stops |
| FaultRuns.IngestSafe | core/src/store/mod.rs:645-687 | It is kept by an ingest of any id, also the empty and the reserved one; so no chunk of the new or the old manifest is unlinked at an intermediate step |
| FaultRuns.DeleteSafe | core/src/store/mod.rs:425-455 | It is kept by a delete wherever it stops |
| FaultRuns.FsckSafe | core/src/store/mod.rs:572-613 | It is kept by a repair wherever it stops: only uncounted chunks are unlinked |
| FaultRuns.OpenSafe | core/src/store/mod.rs:153-169 | Opening from any point of such a run, with or without a codec, gives a store that satisfies it, and a failed open leaves the backend satisfying it |
| FaultRuns.SafeMeansNoDangling | core/src/store/mod.rs:309-354 | What the invariant says about blobs and counts |
| FaultRuns.ConsistentIsSafe | core/src/store/mod.rs:139-149 | A store between failure-free operations is a possible start of such a run |
| Vault.StoreChunkGuarded | core/src/store/mod.rs:309-354 | Storing a chunk keeps the held chunks present and covered by the counts in memory and on the backend, wherever it stops |
| Vault.ReleaseOneGuarded | core/src/store/mod.rs:457-485 | So does releasing a reference: a blob is unlinked only when nothing holds it |
| FsckLaws.FsckRepairs | core/src/store/mod.rs:572-613 | Missing are exactly the counted digests without a blob, each once, orphans exactly the digest-shaped keys without a count, each once; a repair removes exactly the orphans and nothing else |
| FsckLaws.FsckWithoutListing | core/src/store/mod.rs:593-605 | On a backend that cannot list its keys: the same missing digests, each once, no orphans, and no repair |
| FsckLaws.ReportInOrder | core/src/store/mod.rs:600-605 | Both lists of the report keep the order of the scan |
| FsckLaws.ListingTexts | core/src/store/mod.rs:127-136 | A key listing has the blob keys and the texts of the metadata keys, and nothing else |
| FsckLaws.FsckIdempotent | core/src/store/mod.rs:572-613 | A second run finds no orphans, repairs nothing, and reports the same digests as missing |
| FsckLaws.FsckKeepsReads | core/src/store/mod.rs:572-613 | When the counts cover the manifests, a repair changes no read, successful or failing |
| FsckLaws.OrphansAmongFacts | core/src/store/fsck.rs:15-30 | The filter keeps exactly the digest-shaped names without a count |
| Refusals.StoreChunkRefuses | core/src/store/mod.rs:309-354 | On a backend that does not fail: a payload that the codec refuses is refused before anything is put; a size that contradicts the recorded one is refused after the blob is put, with nothing counted; and nothing else is. The encoded payload is put if there was no blob, one reference is counted in memory and on the backend with the size known now, and the totals include it |
| Refusals.IncrementRefuses | core/src/store/refcount.rs:33-48 | A count is refused, with InvalidArgument, if and only if two known sizes differ; otherwise it is one higher and an unknown size is filled in |
| Refusals.CodecStopsIngest | core/src/store/mod.rs:309-318 | An ingest whose chunk k the codec refuses fails with CodecFailed, with exactly the chunks before it counted and every file as it was |
| Refusals.SaveManifestRefuses | core/src/store/persistence.rs:99-122 | A manifest is saved if and only if all its digests are well shaped; it is refused without effect otherwise |
| Refusals.SaveRefcountRefuses | core/src/store/persistence.rs:135-153 | So is a count |
| Refusals.ReleaseOneRefuses | core/src/store/mod.rs:458-515 | A release is refused without effect when no size can be found, NotFound without a blob and CodecFailed with one that does not decode, or when the chunk is not counted; otherwise what it does to table, blob, record and totals, which do not go below zero |
| Refusals.IngestFixedRefines | core/src/store/mod.rs:206-219 | A chunk size of zero is refused without effect; with any other one the file is the data |
| Reads.ReadToVerified | core/src/store/mod.rs:392-417 | For arbitrary blobs and any failing call, what has been written is a prefix of the file on a chunk boundary, and all of it when the read completes |
| Reads.ReadVerified | core/src/store/mod.rs:419-423 | A read fails or returns the bytes that were ingested |
| Reads.ReadToEnds | core/src/store/mod.rs:392-417 | For arbitrary blobs and any failing call, where a read stops, what has been written then, and its error: Fault when the backend fails, NotFound when the blob is not there, CodecFailed when it does not decode, DigestMismatch when it decodes to a payload with another hash |
| Reads.ReadEnds | core/src/store/mod.rs:392-423 | On a backend that does not fail the first damaged chunk decides the error of a read, and without one it returns the payloads in order; an absent file is NotFound |
| Reads.IngestsIffValidId | core/src/store/manifest.rs:21-33 | From a clean store an ingest succeeds if and only if its id is neither empty nor the name of the index |
| Reads.EmptyIdLeaks | core/src/store/mod.rs:674-680 | The empty id is refused at commit, and leaves exactly the references of the session counted |
| Reads.ReservedIdBreaksIndex | core/src/store/persistence.rs:17-47 | An id equal to the name of the index overwrites the index list: the ingest fails and the store cannot be opened |
| Streaming.StreamingEqualsBuffered | core/src/store/mod.rs:226-239 | For every way of delivering the bytes in short reads, and whatever backend call fails, the digests and the state are those of the buffered ingest |
| Streaming.BrokenReadLeaks | core/src/store/mod.rs:270-279 | A failing read leaves the file as it was and exactly the complete chunks delivered so far accepted |
| Streaming.ScriptEnds | core/src/chunker/mod.rs:30-39 | The input ends with the first read that delivers nothing, or when the reader has run out; a read that fails before that breaks it; what comes later does not matter |
| Streaming.AcceptStreamResult | core/src/chunker/mod.rs:21-46 | The read loop accepts the chunks of the whole input, or the complete chunks before the failing read |
| Streaming.AcceptAllAppend | core/src/store/mod.rs:632-643 | Accepting two lists in turn is accepting their concatenation, wherever it stops |
| QueueReading.IngestAiterStoresAll | python/python_src/chunkstore/async_store.py:131-151 | ingest_aiter stores exactly the concatenation of the blocks, empty ones included |
| QueueReading.ReadsConcatenate | python/python_src/chunkstore/async_store.py:154-178 | For every sequence of blocks and of read sizes, the reads and what is still to be delivered concatenate to the blocks |
| QueueReading.ReadDelivers | python/python_src/chunkstore/async_store.py:162-178 | A read delivers the next bytes, no more than asked for, and none exactly when nothing is left |
| QueueReading.ReadAmount | python/python_src/chunkstore/async_store.py:162-178 | How much a read delivers: asked for n bytes, n or all there are before the end marker; asked for no number, what is buffered and the fewest whole blocks that make 65536 bytes; asked for none, none; and it takes no more blocks than that |
| QueueReading.QueueScriptDelivers | core/src/chunker/mod.rs:30-39 | The read loop never stops early on a queue |
| QueueReading.QueueReader.constructor | python/python_src/chunkstore/async_store.py:157-160 | Starts with the queued blocks, nothing buffered, and no end seen |
| QueueReading.QueueReader.Read | python/python_src/chunkstore/async_store.py:162-178 | The method reads as its specification function says, and leaves the reader as that says |
| Chunking.SplitIndependence | core/src/chunker/fixed.rs:26-47 | What feed and finish emit depends on the whole input only, not on its division into feeds |
| Chunking.FixedChunksTile | core/src/chunker/fixed.rs:26-47 | The chunks concatenate to the input, none is empty, and all but the last have exactly the chunk size |
| Chunking.FixedChunksNumber | core/src/chunker/fixed.rs:26-47 | Their number is the length over the chunk size, rounded up |
| Chunking.FeedInTwo | core/src/chunker/fixed.rs:26-36 | Feeding in two steps is feeding at once |
| Chunking.FixedChunker.constructor | core/src/chunker/fixed.rs:12-18 | Starts with an empty buffer |
| Chunking.FixedChunker.Feed | core/src/chunker/fixed.rs:26-36 | Emits the complete chunks of buffer and data, and keeps the rest |
| Chunking.FixedChunker.Finish | core/src/chunker/fixed.rs:38-44 | Emits the rest, if there is any, and empties the buffer |
| Concurrency.EveryInterleaving | core/src/store/mod.rs:322-351 | In every interleaving of the blob, refcount, stats, manifest, record and index steps of any number of threads ingesting new distinct ids, at every point: no step fails, each new digest is put exactly once, persisted counts equal counts in memory, all files read back, and totals plus what threads owe equal the recount |
| Concurrency.Quiescent | core/src/store/mod.rs:645-681 | When all threads are done the counts and totals are exact, no blob is an orphan, and the files are those at the start and one for each thread, each with its record |
| Concurrency.StepKeeps | core/src/store/mod.rs:322-351 | Every step of every thread keeps the invariant |
| Concurrency.StartInv | core/src/store/mod.rs:617-630 | A clean store with new sessions satisfies it |
| IndexRaces.IndexComplete | core/src/store/persistence.rs:117-121 | In every such interleaving, at every point, the manifest index keeps the files of the start, lists nothing twice and nothing unfinished, and lists every finished file if and only if no thread has written the index over one that it had not read |
| IndexRaces.QuiescentIsClean | core/src/store/persistence.rs:117-121 | When all threads are done, store and backend are as failure-free operation leaves them if and only if no index was overwritten; otherwise some finished file is not listed, so the next open does not load it |
| Races.DeleteDuringIngest | core/src/store/mod.rs:309-354 | A delete during an ingest of any chunk list: between chunks, between put and count or count and totals of a chunk, before the commit, between insertion and save of the manifest, or between turns of the release (of the ingested file itself up to the commit): the ingest succeeds, the manifests are as if one had followed the other, every other file reads back; and the store is exact and the new file reads back unless the delete ran between the put and the count of a chunk that only the deleted file held, not accepted before and not to come again; then it cannot be read |
| Races.DeletePending | core/src/store/mod.rs:457-485 | A delete keeps what running sessions hold; a chunk of the deleted file is there afterwards exactly when it is still counted |
| Races.CommitInRelease | core/src/store/mod.rs:683-685 | A delete during the release of the replaced version, of another file or of the new version itself, leaves an exact store |
| Races.InsertedThenDeleted | core/src/store/mod.rs:674-681 | Deleting another file right after the manifest is inserted comes to the same as deleting it before |
| Twins.AcceptAllTwin | core/src/store/mod.rs:632-643 | Stores that differ in some blobs only fail or succeed together when chunks are accepted, and still differ in those only |
| SaveRaces.DeleteDuringSave | core/src/store/persistence.rs:99-122 | A delete of any file, the saved one included, after the record is put or after the index is read as well: the backend is torn if and only if the saved file is deleted before the index is read, or any file is deleted after it when the saved file is new; otherwise the store is exact, with the replaced version left to release |
| SaveRaces.SaveUnraced | core/src/store/persistence.rs:99-122 | With no such file these calls are the save |
| CommitRaces.DeleteBetweenPeekAndInsert | core/src/store/mod.rs:650-680 | When the file being replaced is deleted between the peek and the insertion, the commit succeeds with counts that cover the files if and only if the previous version had no chunks |
| CommitRaces.DeleteBetweenInsertAndSave | core/src/store/mod.rs:674-681 | When the new file is deleted between its insertion and its save, its record comes back: the backend lists it, with counts that cover it if and only if it has no chunks |
| ReplaceRaces.IngestPending | core/src/store/mod.rs:297-307 | An ingest keeps what other operations hold |
| ReplaceRaces.IngestBetweenPeekAndInsert | core/src/store/mod.rs:650-680 | When the file is replaced by another ingest between the peek and the insertion, the commit succeeds with exact counts if and only if the version released twice and the version never released have the same chunks, with multiplicity |
| ReplaceRaces.IngestBetweenInsertAndSave | core/src/store/mod.rs:674-681 | When it is replaced between the insertion and the save, memory has the inner version and the backend the outer one, and the counts cover that if and only if its chunks are among those of the inner one, with multiplicity |
| ReplaceRaces.IngestDuringDelete | core/src/store/mod.rs:425-455 | An ingest of any file within a delete, before the record is removed or before any turn of the release: every file in memory reads back, and the store is exact unless the ingest is of the deleted file and before the record is removed; then the backend does not list it |
| TurnRaces.DeleteWithinTurn | core/src/store/mod.rs:459-476 | A delete of any file after the size is looked up, after the decrement or after the blob is unlinked: the counts in memory and on the backend afterwards, and the store is exact unless the delete is between the decrement and the save and the file holds the chunk; then the backend counts as many more as the file has of it |
| ReleaseRaces.CountBetweenDecrementAndSave | core/src/store/mod.rs:460-476 | References counted between the decrement and the save or the unlinking, and between the unlinking and the removal of the count, are in memory and overwritten on the backend: the persisted counts agree with memory, and cover the references, if and only if there are none; the blob is there if and only if the count was above one or a session has put it after the unlinking |
| ReleaseRaces.LateIsSettle | core/src/store/mod.rs:468-476 | With nothing in between, this is the turn of the release loop |
| IndexOverlaps.OverlapClash | core/src/store/persistence.rs:115-163 | In each of the twenty interleavings of the record call, index read and index write of two saves or removals in one family, of the same or of different records: index and records agree in the end if and only if the two do not clash; no other record and no other name changes |
| IndexOverlaps.InterleavedResult | core/src/store/persistence.rs:115-163 | The records and the index list that each of these interleavings leaves |
| IndexOverlaps.AroundClash | core/src/store/persistence.rs:99-164 | The same on the backend, for one whole save or removal between two calls of another: a save and a removal of one record clash unless a save that has found its name writes no index; changes of different records clash when the outer one has read the index and then writes it and the inner one changes it |
| IndexOverlaps.ChangeCalls | core/src/store/persistence.rs:99-164 | The calls of each save and removal, one by one and together, are these steps |
| IndexOverlaps.CountDuringRemoval | core/src/store/persistence.rs:155-164 | A count saved between the index read and the index write of the removal of another count is not loaded by open if and only if it was not listed before |
| IndexOverlaps.RemovalDuringRemoval | core/src/store/persistence.rs:155-164 | Of two removals of counts that overlap so, the inner one is listed without a record, and the backend torn, if it was listed |
| Hashing.HexInjective | core/src/hasher.rs:29-41 | Hex text identifies the hash value |
| Hashing.HexDenotes | core/src/hasher.rs:29-41 | Two digits for each byte, the high half first, all of them 0 to 9 or a to f |
| Hashing.DenotesOnce | core/src/hasher.rs:29-41 | No other text does that |
| Hashing.DigestDenotes | core/src/hasher.rs:6-15 | The digest of a payload is the one text that denotes its hash |
| Hashing.DigestShape | core/src/store/persistence.rs:6-13 | The shape of a digest: 64 hex digits, upper case allowed |
| KeyNames.KeyTexts | core/src/store/persistence.rs:17-47 | The texts of the keys, index keys included |
| Hashing.EncodeHex | core/src/hasher.rs:29-41 | The loop writes the text that denotes the bytes |
| Hashing.VerifyDigest | core/src/hasher.rs:17-27 | Accepts exactly the text that denotes the hash of the payload; DigestMismatch otherwise |
| Hashing.CollisionFreeSetsAreInPlay | core/src/hasher.rs:6-15 | Every set of payloads without a hash collision can be the set in play |
| Backends.MemoryBackend.Call | core/src/store/mod.rs:93-136 | A backend call is let through, or fails without effect |
| Backends.MemoryBackend.Exists | core/src/store/mod.rs:111-117 | Answers whether the key is there |
| Backends.MemoryBackend.GetBlob | core/src/store/mod.rs:94-101 | Returns the stored value, or none |
| Backends.MemoryBackend.PutBlob | core/src/store/mod.rs:103-109 | Stores the value and changes no other key |
| Backends.MemoryBackend.DeleteBlob | core/src/store/mod.rs:119-125 | Removes the key and no other |
| Backends.MemoryBackend.GetDoc | core/src/store/mod.rs:94-101 | Returns the stored document, or none |
| Backends.MemoryBackend.PutDoc | core/src/store/mod.rs:103-109 | Stores the document in its family and changes no other key |
| Backends.MemoryBackend.DeleteDoc | core/src/store/mod.rs:119-125 | Removes the document from its family and no other key |
| Backends.MemoryBackend.ListKeys | core/src/store/mod.rs:127-136 | Returns the texts of exactly the keys there are |
| Tables.Manifest.Insert | core/src/store/manifest.rs:21-33 | Binds digests and length; the empty id is refused without effect |
| Tables.Manifest.Get | core/src/store/manifest.rs:35-40 | The digests, or NotFound |
| Tables.Manifest.TryGet | core/src/store/manifest.rs:17-19 | The digests, or none |
| Tables.Manifest.Remove | core/src/store/manifest.rs:42-49 | Removes from both maps; NotFound exactly when absent |
| Tables.RefCount.Set | core/src/store/refcount.rs:23-31 | Sets count and size; a zero count removes the entry |
| Tables.RefCount.Increment | core/src/store/refcount.rs:33-48 | Raises the count; an unknown size is filled in, a contradicting one is refused without effect |
| Tables.RefCount.Decrement | core/src/store/refcount.rs:50-61 | Lowers the count and removes the entry at zero; NotFound exactly when absent |
| Tables.RefCount.SizeOf | core/src/store/refcount.rs:67-69 | The recorded size |
| Tables.Manifest.constructor | core/src/store/manifest.rs:13-15 | Starts empty, both maps together |
| Tables.RefCount.constructor | core/src/store/refcount.rs:19-21 | Starts empty |
| Tables.Stats.constructor | core/src/store/stats.rs:5-9 | Starts at zero |
| Tables.Stats.AddReference | core/src/store/stats.rs:14-16 | Adds to the total bytes only |
| Tables.Stats.AddUniqueChunk | core/src/store/stats.rs:18-21 | Adds to total and stored bytes |
| Tables.Stats.RemoveReference | core/src/store/stats.rs:23-25 | Subtracts from the total bytes, not below zero |
| Tables.Stats.RemoveUniqueChunk | core/src/store/stats.rs:27-30 | Subtracts from the stored bytes, not below zero, and counts a collection |
| Persistence.ReadStringList | core/src/store/persistence.rs:166-175 | An absent list is empty; anything but a list is refused |
| Persistence.WriteStringList | core/src/store/persistence.rs:177-185 | Overwrites the list |
| Persistence.ValidateDigest | core/src/store/persistence.rs:6-13 | Accepts exactly 64 hex digits |
| Persistence.ValidateAll | core/src/store/persistence.rs:105-107 | Accepts a list exactly when every digest has 64 hex digits |
| Persistence.RetainOthers | core/src/store/persistence.rs:130-132 | Keeps the other ids in order |
| Persistence.LoadManifests | core/src/store/persistence.rs:49-68 | Gives the manifests that the specification loads, or its error, for every fault plan |
| Persistence.LoadRefcounts | core/src/store/persistence.rs:70-97 | Gives the counts that the specification loads, or its error, for every fault plan (Loading.OpenedTable says which, record by record) |
| Persistence.SaveManifest | core/src/store/persistence.rs:99-122 | Leaves the backend as the specification does, for every fault plan |
| Persistence.RemoveManifest | core/src/store/persistence.rs:124-133 | Leaves the backend as the specification does, for every fault plan |
| Persistence.SaveRefcount | core/src/store/persistence.rs:135-153 | Leaves the backend as the specification does, for every fault plan |
| Persistence.RemoveRefcount | core/src/store/persistence.rs:155-164 | Leaves the backend as the specification does, for every fault plan |
| Store.ChunkStore.constructor | core/src/store/mod.rs:157-168 | Puts the loaded tables together with the backend and zero totals |
| Store.ChunkStore.PutIfAbsent | core/src/store/mod.rs:322-332 | Puts the blob exactly when the key is absent, and reports which |
| Store.ChunkStore.CountReference | core/src/store/mod.rs:334-344 | Counts the reference in memory, then persists the count |
| Store.ChunkStore.StoreChunk | core/src/store/mod.rs:309-354 | Reaches the specified state and answer for every fault plan |
| Store.ChunkStore.PeekDigests | core/src/store/mod.rs:380-390 | The digests of the current version, or none |
| Store.ChunkStore.ChunkSize | core/src/store/mod.rs:487-515 | The recorded size, or the decoded length of the blob |
| Store.ChunkStore.ReleaseOne | core/src/store/mod.rs:458-483 | One turn of the release loop, for every fault plan |
| Store.ChunkStore.ReleaseDigests | core/src/store/mod.rs:457-485 | The whole release loop, for every fault plan |
| Store.ChunkStore.Delete | core/src/store/mod.rs:425-455 | Reaches the specified state and answer for every fault plan |
| Store.ChunkStore.RebuildStats | core/src/store/mod.rs:517-549 | Replaces the totals by the sums over the table, in the order visited |
| Store.ChunkStore.ReadChunk | core/src/store/mod.rs:392-404 | Fetches, decodes and verifies one chunk |
| Store.ChunkStore.ReadToWriter | core/src/store/mod.rs:407-417 | What the writer has been given is as specified, also when the read fails |
| Store.ChunkStore.Read | core/src/store/mod.rs:419-423 | Reaches the specified answer for every fault plan |
| Store.ChunkStore.FindMissing | core/src/store/mod.rs:600-604 | Collects the counted digests without a blob |
| Store.ChunkStore.DeleteBlobs | core/src/store/mod.rs:606-611 | Deletes the listed keys one by one |
| Store.ChunkStore.Fsck | core/src/store/mod.rs:572-613 | Reports and repairs as specified, for every fault plan |
| Store.CollectOrphans | core/src/store/fsck.rs:19-30 | The loop computes the filter |
| Store.IngestSession.constructor | core/src/store/mod.rs:624-630 | Starts with no chunk accepted |
| Store.IngestSession.Accept | core/src/store/mod.rs:632-643 | Stores the chunk and appends digest and size |
| Store.IngestSession.AcceptEach | core/src/store/mod.rs:297-307 | Accepts a list in order, up to the first failure |
| Store.IngestSession.Commit | core/src/store/mod.rs:645-687 | Reaches the specified state and answer for every fault plan |
| Store.IngestChunks | core/src/store/mod.rs:297-307 | Reaches the specified state and answer for every fault plan |
| Store.AcceptInput | core/src/store/mod.rs:281-295 | Accepts what feed and finish make of the input |
| Store.IngestFixed | core/src/store/mod.rs:206-219 | Refuses a zero chunk size; otherwise ingests the fixed chunks |
| Store.AcceptReads | core/src/chunker/mod.rs:21-46 | The read loop driving a session reaches the specified state |
| Store.IngestReaderFixed | core/src/store/mod.rs:226-239 | Reaches the specified state and answer for every fault plan and every sequence of reads |
| Store.BackfillRefcountSizes | core/src/store/mod.rs:690-711 | Visits exactly the entries of unknown size, and does as specified |
| Store.Open | core/src/store/mod.rs:153-169 | Gives the specified store, or the specified error, for every fault plan |
| Store.OpenWithCodec | core/src/store/mod.rs:172-179 | Opens without the codec, then attaches it |

## Left out

- Postgres metadata (`core/src/store/postgres_meta.rs`): feature-gated SQL, whose guarantees depend on the database.
- Content-defined chunking: its cut points come from a crate; `ingest_chunks` with an arbitrary chunk list covers what the store does with them.
- SHA-256, hex parsing and JSON text: records are decoded values, and a value that does not decode is `Garbage`.
- Filesystem and S3 backends, paths and temporary files: the model has one backend, the in-memory one, with failing calls.
- C, Go and Python bindings, HTTP examples, benches and fuzz targets: foreign calls around the same operations.
- Lock poisoning, and the blocking of the bounded queue: a queue is the list of items its producer puts; a producer that fails without the end marker is not modelled.
- `savings_pct`: a floating-point ratio of two totals.
- 64-bit overflow of counts and gc chunks: counters are unbounded; only the byte totals have a bound.
- Writer failures in `read_to_writer`: the writer takes whatever it is given.
- Partial effects of a failed backend call, and reordering of calls by the storage.
- Overlaps beyond the races above: each of them is one whole operation, a number of counts, or one index change within another operation; several such operations interleaved step by step with each other, and a repair beside other operations, are not modelled.
- Recovery.CrashSafe: excludes ingests of the index name, which destroy the index (Reads.ReservedIdBreaksIndex).
- Concurrency.EveryInterleaving: covers sessions whose ids are new and distinct, on a backend that does not fail.
- Reads.ReadVerified: assumes that no blob on the backend decodes to a second payload with the same digest.
- Conservation.TotalsFit: covers the accepting phase, the only one that adds to the totals.
- Chunking.FixedChunker.Feed: demands a positive chunk size, which the source asserts in debug builds only; the ingest methods check it first.
