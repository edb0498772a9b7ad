# Bóveda, verified

Bóveda cuts a byte stream into content-defined chunks, compresses and encrypts each, stores them deduplicated in an S3
bucket, and keeps snapshots, chunk references and keys in SQLite. This project models its core in Dafny and proves what
the code guarantees. Code that changes state step by step is modelled by classes and methods with loops, each proved
against a specification; concurrent protocols are state machines whose invariants hold in every run.

| file | subject |
|---|---|
| `Common.dfy`, `Sorting.dfy` | shared vocabulary; stable sorting |
| `FastCdc.dfy` | the rolling hash, the resumable boundary scan, the streamer |
| `Pipeline.dfy` | producer, bounded queue, consumer and upload semaphore |
| `ChunkFormat.dfy` | the 26-byte header, nonces, wrapped data keys |
| `Catalog.dfy`, `CatalogStore.dfy` | the chunk catalog with its triggers, and the two-phase purge |
| `CliSchedule.dfy` | the schedule of the backup command, and runs outside it |
| `Backup.dfy`, `Restore.dfy`, `Keys.dfy` | writing a snapshot, reading it back, rotating the key |
| `CatalogRestore.dfy`, `EndToEnd.dfy` | restoring from the catalog and after a purge; one backup command |
| `Vault.dfy` | an installation under any sequence of commands |
| `Retention.dfy` | the retention classification over time |
| `CircuitBreaker.dfy` | the circuit breaker under concurrency, and the failover router |
| `Outbox.dfy` | the transactional outbox with crashes and many drainers |
| `Manifest.dfy` | the Merkle root, what it binds, and its relation to RFC 6962 |
| `Tickets.dfy`, `Tokens.dfy` | one-time tickets; base64url and access tokens |

`dafny verify dfyconfig.toml` checks everything.

## How it is modelled

- Encryption, compression, digests, JSON and signatures are function-valued parameters. Each result states the laws it
  needs: decryption undoes encryption, a recorded payload has no second preimage, what a root hashes does not collide.
  No law is stated globally where that would be unsatisfiable.
- Time, random bytes, network answers and failures are parameters, so every result holds for all of them.
- FastCDC keeps its three sizes, the widths of its two masks and the Gear table symbolic; `FastCdc.DeployedCutIff` says
  what cuts with the deployed constants. Words wrap at 2^64.
- Ids that SQLite or a random generator hands out are fresh where the code relies on that.

## Where the code and its documentation differ

- ARCHITECTURE.md line 60 calls the Merkle trees conformant to RFC 6962. The code repeats the last node of an odd level
  where the standard does not, so `Manifest.AgreesWithRfc6962Iff` proves agreement exactly for the empty list and for
  lengths that are powers of two. The root alone binds the list only up to padding (`Manifest.SameRootIff`); root and
  number of chunks together bind it.
- ARCHITECTURE.md line 51 promises no dangling pointers, network failures included. In the schedule of the backup
  command, `CliSchedule.CliDanglesIff` proves exactly when this holds: no link is saved for a hash whose last put was
  due and left no object, because it failed or the process died before it, or whose object a bulk delete removed before
  it raised and the row was reverted. A death after the put or during the purge does no harm.
  `CliSchedule.FailedPutPresentedAgain`, from the empty start, and `CliSchedule.RaisingDeleteRevived`, from a state with
  one orphan, are runs that break it. They present the same payload twice. Today's engine seals every chunk under a
  fresh data key and nonce prefix, so equal payloads do not occur in practice: these are faults of the upload callback
  that it does not trigger. Two more runs, outside that schedule, let a purge overtake an upload.
- The code comments that only one probe runs while a breaker is HALF_OPEN. `CircuitBreakers.SingleProbeIff` proves
  when this holds, and `CircuitBreakers.StaleSuccessAdmitsSecondProbe` is a run in which it does not.
- A restore checks neither how many rows there are nor that their numbers are contiguous. Rows missing anywhere go
  unnoticed (`Restore.MissingRowsGoUnnoticed`); the source comes back exactly when none is missing
  (`Restore.RestoresSourceIff`).
- Key rotation is documented to rewrap all data keys. One of a snapshot that is RUNNING at the time stays under the
  old key; `Keys.RestoresAfterRotationsIff` proves that the snapshot, once COMPLETED, restores exactly if it was
  COMPLETED or EXPIRED at every rotation, and `Keys.PassedOverBlocksRotation` that it makes every later rotation fail.
- Retention counts snapshots of every state as the first of their month or the last of their week:
  `Retention.OldMonthKeepsOneIff` and `Retention.OldWeekKeepsOneIff` prove that a month or week out of reach of the
  other rules keeps a COMPLETED snapshot exactly when its oldest, or newest, one is COMPLETED.
- The ticket store purges from the front only. `Tickets.ReachableEvictsOnlyWhenAllLiveIff` proves exactly when the next
  eviction is sure to find live tickets only.

## Model

| member | source | states |
|---|---|---|
| FastCdc.RollResume | src/boveda/fastcdc.py:50-52 | rolling the hash may stop anywhere and go on from the stored fingerprint |
| FastCdc.RollIsSum | src/boveda/fastcdc.py:50-52 | the rolling hash of a stretch of bytes is the sum of their table entries, each shifted once for every byte behind it, modulo 2^64 |
| FastCdc.CutIff | src/boveda/fastcdc.py:50-58 | an offset below AVG is a cut iff the sum from MIN on is a multiple of 2^strict, from AVG on iff it is one of 2^lax |
| FastCdc.DeployedCutIff | src/boveda/fastcdc.py:19-28 | with the deployed constants: 22 zero bits from 1 MiB on, 20 from 2 MiB on, and a cap of 4 MiB |
| FastCdc.Scan | src/boveda/fastcdc.py:50-58 | the loop stops at the first offset that passes its mask test, with the hash rolled exactly that far |
| FastCdc.FindBoundary | src/boveda/fastcdc.py:31-68 | each of the five outcomes of the search: short buffer, cut, cap, end of data, no boundary yet |
| FastCdc.ScanOutcome | src/boveda/fastcdc.py:43-68 | a resumed search finds the chunk end of a fresh search over the same bytes, or leaves a resumable state |
| FastCdc.Streamer.NextChunk | src/boveda/fastcdc.py:99-122 | one turn cuts the next chunk off the buffer, or proves that no chunk ends in it yet |
| FastCdc.Streamer.Feed | src/boveda/fastcdc.py:90-125 | emitted chunks are settled whatever follows; scan iterations never exceed bytes fed; the buffer peaks below MAX plus the new data |
| FastCdc.EmitsPrefix | src/boveda/fastcdc.py:90-125 | what was emitted is a prefix of the one-shot chunk list of every continuation of the stream |
| FastCdc.ChunksIff | src/boveda/fastcdc.py:31-125 | the one-shot chunks are the one list that partitions the stream so that each chunk but the last ends behind the first offset at which the sum cuts, or at MAX |
| FastCdc.ChunkStream | src/boveda/fastcdc.py:90-125 | feeding invariance: any splitting of the stream into calls yields the chunks of the one-shot chunker, and each but the last ends behind the first offset at which the sum over the bytes cuts, or at MAX |
| FastCdc.ChunksPartition | src/boveda/fastcdc.py:117-122 | the chunks concatenate to the stream |
| FastCdc.ChunksSizes | src/boveda/fastcdc.py:40-68 | every chunk but the last has size in (MIN, MAX], the last in [1, MAX], and only the empty stream has none |
| FastCdc.CutIsLocal | src/boveda/fastcdc.py:25-58 | once past MIN by the mask width, a cut is decided by the sum over the last bytes alone, 22 with the strict mask and 20 with the lax one |
| FastCdc.SameTailSameCut | src/boveda/fastcdc.py:50-58 | equal last bytes in the same mask region give the same decision in two different streams |
| FastCdc.Resynchronise | src/boveda/fastcdc.py:117-122 | a boundary exactly before a common suffix makes its chunk lists identical in both streams |
| Pipeline.StepKeepsOrder | src/boveda/engine.py:42-82 | no step of producer or consumer loses, doubles or reorders a chunk |
| Pipeline.NeverDeadlocks | src/boveda/engine.py:111-178 | until everything is uploaded some step is possible, for every queue size and semaphore of at least one |
| Pipeline.EveryRun | src/boveda/engine.py:111-171 | in every run the uploads started are the first chunks, once each, in order, and at most q + s + 2 chunks are in flight |
| Pipeline.AtMostFourInFlight | src/boveda/constants.py:2-3 | with the deployed constants at most four chunks are produced and not yet uploaded |
| Pipeline.FourCanBeInFlight | src/boveda/constants.py:2-3 | and four are reached: one being uploaded, one taken, one queued, one in hand |
| Pipeline.RunsFinish | src/boveda/engine.py:111-178 | every schedule finishes after exactly 5n + 2 steps, and no shorter run is stuck |
| ChunkFormat.HeaderRoundTrip | src/boveda/crypto.py:137-162 | a header whose fields fit is written and read back unchanged |
| ChunkFormat.HeaderCanonical | src/boveda/crypto.py:151-162 | every accepted header is the one its own fields would be written as |
| ChunkFormat.RejectedWhy | src/boveda/crypto.py:151-162 | a header is rejected for its length, its magic bytes or a version other than 1, in this order, and for nothing else |
| ChunkFormat.HeaderLayout | src/boveda/crypto.py:137-148 | which headers can be written, and each of their 26 bytes: "BVPM", version 1, sequence number, nonce, ciphertext length, numbers with their most significant byte first |
| ChunkFormat.NonceLayout | src/boveda/crypto.py:129-134 | the prefix, then the counter with its most significant byte first |
| ChunkFormat.NoncesDiffer | src/boveda/crypto.py:127-134 | different counters below 2^64 give different nonces |
| ChunkFormat.NonceGenerator.Next | src/boveda/crypto.py:122-134 | prefix and big-endian counter, then the counter moves on; an overflow error after 2^64 draws |
| ChunkFormat.DrawNonces | src/boveda/crypto.py:122-134 | nonces drawn from one generator are pairwise distinct |
| ChunkFormat.UnwrapWrap | src/boveda/crypto.py:91-119 | a wrapped key is the data key sealed with the snapshot id, its 16-byte tag kept apart; the same key and id unwrap it |
| ChunkFormat.WrappedForOneSnapshot | src/boveda/crypto.py:98-119 | if the cipher rejects other associated data, a wrapped key does not unwrap for another snapshot |
| Backup.UploadChunk | src/boveda/cli.py:218-278 | prepare, put exactly when the row is new or caught in PURGING_S3, link; the catalog and the bucket after it, after a put that raises, and after a link that fails |
| Backup.UploadKeepsImage | src/boveda/cli.py:218-278 | an upload replaces no object that another snapshot's link leads to |
| Backup.CompressEncryptUpload | src/boveda/engine.py:118-171 | exactly the chunks sent are linked, numbered from zero, with their objects stored; every other snapshot is as it was; it stops at the first chunk the header cannot describe |
| Backup.PayloadParts | src/boveda/engine.py:145-153 | a payload parses back into its header and the ciphertext sealed with that header and the snapshot id, of the length the header gives |
| Backup.NoncesOfASnapshotDiffer | src/boveda/engine.py:119-150 | no two payloads of a snapshot carry the same nonce |
| Restore.RestoreSnapshot | src/boveda/restore.py:21-93 | output and error are those of the specified outcome, for any rows, any downloads and any decompressor, partial output before an error included; nothing is written for a snapshot that is not COMPLETED or whose key is rejected |
| Restore.OpenedIff | src/boveda/restore.py:58-91 | a recorded row yields its chunk's frame from exactly its own payload; any other answer is reported as failed, as too short, or as having the wrong digest |
| Restore.SwappedRowRejected | src/boveda/restore.py:68-82 | a row that leads to the payload of another chunk is rejected by its number |
| Restore.ForeignRowRejected | src/boveda/restore.py:84-91 | if the cipher rejects other keys and other associated data, a row of another snapshot is rejected by its seal |
| Restore.AnyOrderIsSorted | src/boveda/restore.py:49-55 | sorting undoes every rearrangement of rows with distinct numbers |
| Restore.FailSafe | src/boveda/restore.py:56-93 | whatever is downloaded, the output is the chunks before the first wrong download; restoring succeeds iff there is none, and otherwise reports what is wrong with it |
| Restore.RoundTrip | src/boveda/restore.py:21-93 | restoring intact rows, as a list in any order or as a stream in order, from a bucket that holds them yields all chunks in order |
| Restore.StreamIsTakenAsItComes | src/boveda/restore.py:49-56 | recorded rows presented as a stream, in whatever order, left out or repeated, restore to their chunks in that order |
| Restore.MissingRowsGoUnnoticed | src/boveda/restore.py:56-93 | whichever of the recorded rows are left, restoring succeeds and writes the chunks of exactly these |
| Restore.RestoresSourceIff | src/boveda/restore.py:56-93 | what is restored from the rows that are left is the source iff no row is missing |
| Keys.RewrapAll | src/boveda/keys.py:125-155 | succeeds iff every COMPLETED or EXPIRED data key unwraps under the old key; each then unwraps to the same key under the new one and has the nonce drawn for it, and the other rows are unchanged |
| Keys.Database.RotateKek | src/boveda/keys.py:113-166 | all or nothing: a failure leaves rows and salt as they were; the salt changes iff one is given and an entry exists |
| Keys.RotationsPreserveRestores | src/boveda/keys.py:113-166 | over any history of rotations, failed ones included, of state changes and new snapshots, a COMPLETED snapshot that was COMPLETED or EXPIRED at every rotation restores to the same outcome for all rows and downloads |
| Keys.RestoresAfterRotationsIff | src/boveda/keys.py:125-129 | when new keys reject stale wrappings, a snapshot COMPLETED in the end restores as before iff it was COMPLETED or EXPIRED at every rotation that succeeded; otherwise its key is rejected |
| Keys.PassedOverBlocksRotation | src/boveda/keys.py:125-139 | a snapshot that a rotation passed over and that is COMPLETED later makes every further rotation fail |
| Keys.RotateCommand | src/boveda/cli.py:456-480 | the command succeeds iff the old passphrase unlocks the database, and then the new one does, with the stored salt |
| EndToEnd.RunPipeline | src/boveda/engine.py:24-178 | for every splitting of the source and every complete schedule the chunks uploaded are the one-shot chunks |
| EndToEnd.RunBackup | src/boveda/cli.py:193-307 | the snapshot ends COMPLETED with all its chunks linked and stored iff every chunk fits its header, else FAILED; every other snapshot's links and objects are untouched |
| Vaults.Vault.RunBackup | src/boveda/cli.py:165-330 | the backup command keeps every COMPLETED snapshot restoring to its own source, and adds its own iff every chunk fits its header, whatever the purge at its end meets |
| Vaults.Vault.Purge | src/boveda/retention.py:107-134 | a purge keeps every COMPLETED snapshot restoring to its own source; if nothing goes wrong, exactly the swept catalog and its objects are left |
| Vaults.Vault.RotateKek | src/boveda/keys.py:113-166 | with the key in force a rotation of the whole table always succeeds, every COMPLETED snapshot restores to its own source under the new key, and the data keys of RUNNING and other snapshots are left alone |
| Vaults.Vault.RestoreSnapshot | src/boveda/cli.py:95-152 | after any sequence of commands, restoring a COMPLETED snapshot yields its own source, in whatever order the rows come, and any other snapshot is refused |
| Vaults.BackupPurgeRotateRestore | src/boveda/cli.py:285-315 | in every reachable installation, chunking, pipeline, upload, purge, key rotation and restore compose to the identity on the source bytes |
| Vaults.SoundAfterBackup | src/boveda/cli.py:165-307 | a backup that touches no other image leaves every other snapshot's source restorable, and makes its own so |
| Vaults.SoundAfterPurge | src/boveda/retention.py:107-134 | a purge that keeps the images of live snapshots leaves their sources restorable |
| Vaults.SoundAfterRotation | src/boveda/keys.py:131-155 | rewrapping the data keys leaves all sources restorable under the new key |
| EndToEnd.SourceIffAllRows | src/boveda/restore.py:56-93 | of the rows of a backup none can be spared: restoring yields the source iff all are there |
| CatalogRestore.SameImageSameRestore | src/boveda/restore.py:21-93 | equal links, keys and objects restore to the same outcome, under every key |
| CatalogRestore.PurgeKeepsRestore | src/boveda/retention.py:53-134 | dropping a snapshot and purging orphans, whatever the bulk delete does, leaves the restore outcome of every other snapshot unchanged |
| CatalogRestore.PurgeThenRestore | src/boveda/retention.py:107-134 | restoring after the whole purge gives the outcome of restoring before it |
| CatalogRestore.RecordedRestores | src/boveda/cli.py:126-144 | the rows that the catalog lists for a recorded backup restore to its chunks |
| Catalog.StorageKeysDiffer | src/boveda/cli.py:231-234 | different hashes have different storage keys |
| Catalog.ExactMeans | src/boveda/database.py:207-287 | in an exact catalog, rows being deleted have no links, the clamp at zero is never reached, and storage keys are unique |
| Catalog.LinkExact | src/boveda/database.py:208-221 | the insert trigger keeps counts exact, the chunk ACTIVE and unscheduled, from any earlier state of the row |
| Catalog.LinkedIs | src/boveda/database.py:208-221 | a new link makes its chunk ACTIVE with one link more, and changes no other row; a violated key changes nothing |
| Catalog.UnlinkExact | src/boveda/database.py:222-243 | the delete trigger keeps counts exact |
| Catalog.UnlinkedIs | src/boveda/database.py:222-243 | deleting a link schedules its chunk for deletion iff no other link to it is left, and changes no other row |
| Catalog.ConfirmExact | src/boveda/retention.py:88-96 | phase 2 never deletes a linked row, and the guard against deleting active rows never fires on what it deletes |
| Catalog.PrepareExact | src/boveda/cli.py:219-255 | finding, creating or reviving the pool row keeps the catalog exact |
| Catalog.PreparedIs | src/boveda/cli.py:219-255 | only a missing row or one that is being deleted is changed, into an ACTIVE one |
| Catalog.SnapshotGoneIff | src/boveda/database.py:262-269 | the only transaction that removes a snapshot is its deletion, and only if it is neither COMPLETED nor RUNNING |
| Catalog.EveryInterleavingExact | src/boveda/database.py:207-287 | every interleaving of prepare, link, unlink, snapshot (cascade included) and purge transactions on a new catalog leaves it exact |
| Catalog.WithoutOneMore | src/boveda/retention.py:118-120 | the per-row triggers of a bulk delete add up to removing all its links at once, in any order |
| Catalog.PurgeKeepsImage | src/boveda/retention.py:53-104 | purging orphans, whatever the bulk delete removes and wherever it stops, leaves what every snapshot restores from unchanged |
| Catalog.SweepOne | src/boveda/retention.py:117-125 | unlinking one snapshot and confirming its orphans removes exactly the rows that nothing needs without it |
| Catalog.SweepMore | src/boveda/retention.py:110-125 | purging snapshots one after another leaves what purging them at once would leave, in any order |
| CatalogStore.ChunkCatalog.CheckAndPrepare | src/boveda/cli.py:219-255 | the first upload transaction in place, and when a put is needed: new row, or row caught in PURGING_S3 |
| CatalogStore.ChunkCatalog.SaveChunkRef | src/boveda/cli.py:264-278 | the second upload transaction in place with its trigger, or no change when a key constraint fails |
| CatalogStore.ChunkCatalog.UnlinkSnapshot | src/boveda/retention.py:118-120 | deleting a snapshot's links row by row leaves an exact catalog without them |
| CatalogStore.ChunkCatalog.MarkOrphans | src/boveda/retention.py:60-75 | as many orphans as the batch allows are marked PURGING_S3, and nothing else changes |
| CatalogStore.ChunkCatalog.ExecuteTwoPhasePurge | src/boveda/retention.py:53-104 | as many orphans as the batch allows are chosen; the pool and the bucket after each outcome of the bulk delete: confirmed, reverted, or left marked by a database error |
| CatalogStore.ChunkCatalog.PurgeSnapshot | src/boveda/retention.py:112-134 | the links of one snapshot go, and of the chunks that nothing else needs as many as the batch allows, in each outcome; nothing goes wrong: exactly the swept catalog is left; the restore input of every other snapshot stays |
| CatalogStore.ChunkCatalog.PurgeExpiredSnapshots | src/boveda/retention.py:107-134 | purging preserves meaning: no expired snapshot is left, and every other keeps its state, its links and its object bytes; and it purges: if nothing goes wrong, exactly the chunks that only expired snapshots linked and the waiting orphans are gone, rows and objects |
| CatalogStore.SweptMeans | src/boveda/retention.py:115-125 | after such a purge a chunk linked before has neither row nor object if only purged snapshots linked it; otherwise it has both, is ACTIVE, and counts the links that are left |
| CliSchedule.PresentStep | src/boveda/cli.py:219-262 | reviving a row left in PURGING_S3 forces the put, so no upload relies on an object that may be gone |
| CliSchedule.WipeStep | src/boveda/retention.py:77-85 | whatever a bulk delete removes, whether it raises or not, it removes only objects that nothing links to |
| CliSchedule.CliDanglesIff | src/boveda/cli.py:285-315 | in the pipeline-then-purge schedule, for every outcome of puts, deletes and processes: no link ever dangles iff none is saved for a hash whose last put was due and left no object or whose object a raising delete removed before reverting its row |
| CliSchedule.ReadyIff | src/boveda/cli.py:219-262 | between uploads of such a run, a row that forces no put has its object iff its hash is not one of those |
| CliSchedule.CliNeverDangles | src/boveda/cli.py:285-315 | in particular, nothing dangles as long as such hashes are not presented again |
| CliSchedule.PurgeOvertakesPut | src/boveda/retention.py:67-85 | outside that schedule: mark, prepare, put, delete, link ends with a dangling link |
| CliSchedule.PurgeOvertakesLink | src/boveda/cli.py:257-278 | outside that schedule: prepare, unlink, mark, link, delete ends with a dangling link |
| CliSchedule.FailedPutPresentedAgain | src/boveda/cli.py:241-262 | within the schedule: a hash whose put failed and that is presented again is linked without an object |
| CliSchedule.RaisingDeleteRevived | src/boveda/retention.py:77-102 | within the schedule: a bulk delete that removes the object and raises is reverted, and the next backup links the missing object |
| CliSchedule.FailedPutOverStoredObject | src/boveda/cli.py:241-262 | a failed put does no harm where the object was never deleted: the revived row is linked to it |
| Retention.ProtectMonthly | src/boveda/retention.py:19-29 | the first snapshot of each of the twelve months up to now |
| Retention.ProtectWeekly | src/boveda/retention.py:31-42 | the last snapshot of each of the four ISO weeks up to now |
| Retention.ProtectDaily | src/boveda/retention.py:44-48 | every snapshot of the last seven days |
| Retention.SameWeekIff | src/boveda/retention.py:32-37 | two times lie in the same ISO week iff the Mondays 00:00 at or before them are the same, computed from day number and weekday |
| Retention.ProtectedByCalendar | src/boveda/retention.py:16-48 | a snapshot is protected iff it is the first of one of the last 12 months, the last of one of the last four Monday-to-Sunday weeks, or at most seven days old; equal times are told apart by their place in the list |
| Retention.ClassifySnapshots | src/boveda/retention.py:16-50 | the expired ones are, in list order, exactly the COMPLETED snapshots that are not the first of their month, the last of their Monday-to-Sunday week or recent |
| Retention.PickExtreme | src/boveda/retention.py:28-42 | what is taken from a sorted period is its oldest or its newest snapshot |
| Retention.ExpiredStaysExpired | src/boveda/retention.py:16-50 | what one run leaves unprotected no later run over any superset would protect |
| Retention.ProtectionSurvives | src/boveda/retention.py:16-50 | dropping unprotected snapshots does not change what is protected |
| Retention.PurgeCommutesWithTime | src/boveda/retention.py:16-50 | purging now and classifying later, with any snapshots added between, keeps exactly what classifying everything later would keep |
| Retention.Idempotent | src/boveda/retention.py:16-50 | classifying what was kept expires nothing more |
| Retention.PurgingEveryRound | src/boveda/retention.py:16-50 | over any history, purging in every round leaves what one classification at the end keeps |
| Retention.KeptOldBound | src/boveda/retention.py:11-50 | at most 16 COMPLETED snapshots older than seven days are kept |
| Retention.MonthKeepsOneIff | src/boveda/retention.py:19-50 | each of the twelve months keeps a COMPLETED snapshot iff its oldest of any state is COMPLETED, or another COMPLETED one is kept for its week or as recent |
| Retention.OldMonthKeepsOneIff | src/boveda/retention.py:19-50 | a month out of reach of the weekly and daily rules keeps one iff its oldest snapshot is COMPLETED |
| Retention.WeekKeepsOneIff | src/boveda/retention.py:31-50 | each of the four weeks keeps a COMPLETED snapshot iff its newest of any state is COMPLETED, or another COMPLETED one is kept for its month or as recent |
| Retention.OldWeekKeepsOneIff | src/boveda/retention.py:31-50 | a week out of reach of the monthly and daily rules keeps one iff its newest snapshot is COMPLETED |
| CircuitBreakers.CircuitBreaker.Enter | src/boveda/circuit_breaker.py:82-104 | rejection during cooldown, the switch to HALF_OPEN and the claim; an OPEN breaker rejected, a HALF_OPEN one has its flag up |
| CircuitBreakers.CircuitBreaker.RecordFailure | src/boveda/circuit_breaker.py:141-164 | the loop over expired timestamps and the trip, in each state; the flag is down afterwards and an opening carries its time |
| CircuitBreakers.CircuitBreaker.RecordSuccess | src/boveda/circuit_breaker.py:125-139 | a success closes or advances HALF_OPEN, resets the window in CLOSED, and is ignored in OPEN; the flag is down afterwards |
| CircuitBreakers.CircuitBreaker.Call | src/boveda/circuit_breaker.py:75-123 | entering, running and recording or releasing, for success, failure and cancellation |
| CircuitBreakers.TripsExactly | src/boveda/circuit_breaker.py:154-164 | the deque is exactly the failures recorded in CLOSED since the last reset within the window, and the breaker trips iff they reach the threshold |
| CircuitBreakers.NoCallDuringCooldown | src/boveda/circuit_breaker.py:86-95 | after any opening at time t no call is admitted before t + cooldown |
| CircuitBreakers.ClosesExactly | src/boveda/circuit_breaker.py:125-137 | in every run of a new breaker a success recorded in HALF_OPEN closes it iff it brings the successes since the switch to the threshold |
| CircuitBreakers.ReopensIff | src/boveda/circuit_breaker.py:116-152 | what else ends HALF_OPEN: a failure, or a cancellation of the probe with its flag up; no call is then admitted before another cooldown is over |
| CircuitBreakers.ClaimEndsFlagDown | src/boveda/circuit_breaker.py:116-164 | however a claimed call ends, the probe flag is down afterwards |
| CircuitBreakers.NeverStuck | src/boveda/circuit_breaker.py:82-104 | with no claimed call running and the cooldown over, the next call is admitted |
| CircuitBreakers.EveryRun | src/boveda/circuit_breaker.py:75-164 | in every run of a new breaker, however calls interleave, the window, the cooldown, the success counter and the probe invariants hold; a raised flag has a running owner |
| CircuitBreakers.SingleProbeIff | src/boveda/circuit_breaker.py:86-104 | at most one call runs while HALF_OPEN throughout a run iff no earlier call is running at any switch to HALF_OPEN |
| CircuitBreakers.SingleProbeFromStartIff | src/boveda/circuit_breaker.py:53-104 | the same for every run of a new breaker |
| CircuitBreakers.StaleSuccessAdmitsSecondProbe | src/boveda/circuit_breaker.py:125-139 | a run in which a stale success lets a second probe in |
| CircuitBreakers.MultiCloudStorageRouter.UploadChunk | src/boveda/circuit_breaker.py:184-225 | who is tried, in which order, who takes the payload, and what both breakers remember, also when they are the same |
| Outbox.BackoffBelowCap | src/boveda/storage.py:282-288 | a row that stays PENDING waits 2^attempts, at most 512 seconds: the cap of 3600 never binds |
| Outbox.ClaimKeepsInv | src/boveda/storage.py:220-249 | a claim never takes a row whose drainer is still at work |
| Outbox.FailKeepsInv | src/boveda/storage.py:281-308 | the failure update, at any phase of the work on a row, keeps it durable and its retries bounded |
| Outbox.EveryRunIsDurable | src/boveda/storage.py:173-310 | after every run of a new outbox with crashes and many drainers: a row not PROCESSED has its staged payload, a PROCESSED one was accepted, no two drainers share a row, and ten attempts mean DEAD_LETTER |
| Outbox.RetryWaits | src/boveda/storage.py:281-308 | in every run a row is left alone for 2^n seconds after its n-th failure and may be claimed from then on; after the tenth it is a dead letter for good |
| Outbox.NothingLeftBehind | src/boveda/storage.py:173-277 | in a run in which no process dies, every staged file belongs to an enqueue under way, to a row not processed, or to one whose drainer is about to remove it |
| Outbox.TransactionalOutbox.EnqueueChunk | src/boveda/storage.py:173-211 | file and row appear together, or neither does; the new row is PENDING and due at once |
| Outbox.TransactionalOutbox.HandleRow | src/boveda/storage.py:252-308 | upload, confirm and remove the file; a failed upload or a failed removal is counted; durability holds and work decreases |
| Outbox.DrainedRows | src/boveda/storage.py:214-310 | each row of the batch is handled once, with its own outcome, and no other row is touched |
| Outbox.DrainTakesTheDue | src/boveda/storage.py:219-249 | a drain changes only rows that were PENDING with their retry time reached or DRAINING for 15 minutes, at most the limit, and leaves such a row alone only behind as many others as the limit allows |
| Outbox.DeliveredCount | src/boveda/storage.py:279-310 | what is counted is the number of rows that became PROCESSED |
| Outbox.TransactionalOutbox.Drain | src/boveda/storage.py:214-310 | the whole table after a drain; it takes the first due rows and no others; the number processed is the number of rows that became PROCESSED; the staged files of exactly these rows are removed; every row handled uses up an attempt |
| Outbox.DrainRepeatedly | src/boveda/storage.py:281-310 | however often the outbox is drained, at most ten tries per row are made |
| Outbox.DrainToTheEnd | src/boveda/storage.py:214-310 | drains spaced 512 seconds apart, ten times as many as there are rows, leave no row PENDING or DRAINING, whatever the uploads do |
| Manifest.HashLevel | src/boveda/manifest.py:27-34 | the inner loop hashes neighbours pairwise and doubles a last node without neighbour |
| Manifest.ComputeMerkleRoot | src/boveda/manifest.py:12-36 | the nested loops compute the hash of the bottom-up tree, and the digest of nothing for the empty list |
| Manifest.HashBinds | src/boveda/manifest.py:21-34 | domain separation and fixed-size digests make the root determine the whole tree |
| Manifest.RootAndCountBind | src/boveda/manifest.py:50-60 | equal root and equal number of chunks mean equal lists |
| Manifest.RootAloneDoesNotBind | src/boveda/manifest.py:29-31 | repeating the last hash of an odd list of three or more keeps the root |
| Manifest.SameRootIff | src/boveda/manifest.py:26-36 | two non-empty lists have equal roots iff they pad to the same list, each to the least power of two that is at least its length |
| Manifest.BottomUpIsPadded | src/boveda/manifest.py:26-34 | the loop builds a perfect tree in which a half that would be empty repeats the other |
| Manifest.TreeHashIs | src/boveda/manifest.py:21-36 | the tree hash of section 2.1 of RFC 6962, written out over the data, is the hash of the tree that the lemmas compare |
| Manifest.TreesAgreeIff | src/boveda/manifest.py:26-34 | that tree is the one of RFC 6962, section 2.1, iff the length is a power of two |
| Manifest.AgreesWithRfc6962Iff | src/boveda/manifest.py:12-36 | the root is MTH of RFC 6962, section 2.1, iff the list is empty or its length is a power of two |
| Tickets.TicketStore.CreateTicket | src/boveda/auth.py:144-165 | purge from the front, eviction of the oldest when full, insertion; the ticket can then be looked up and the capacity is kept; the error when nothing can be evicted |
| Tickets.TicketStore.ConsumeTicket | src/boveda/auth.py:167-179 | the ticket is gone whatever the outcome, and yields its claims iff present and not expired |
| Tickets.PurgeFrontIs | src/boveda/auth.py:152-157 | in a store ordered by expiry, purging the front removes every expired ticket and nothing else |
| Tickets.EveryRun | src/boveda/auth.py:136-179 | in every run, creations overtaking each other included, the store stays within its capacity and each ticket is redeemed at most once, with its own claims |
| Tickets.RedeemedIff | src/boveda/auth.py:167-179 | a redemption succeeds iff the ticket was issued, never presented before, not crowded out, and not expired |
| Tickets.ReachableEvictsOnlyWhenAllLiveIff | src/boveda/auth.py:151-161 | in every reachable store, the next eviction is sure to find only live tickets iff there is room, or the oldest stored ticket has expired, or none expires before it |
| Tickets.CrowdedOutOnlyWhenFull | src/boveda/auth.py:159-161 | so it is with atomic creations and one time to live: a ticket is evicted only while the store holds its full capacity of live unconsumed tickets, of which it is the oldest |
| Tickets.OvertakingCrowdsOutEarly | src/boveda/auth.py:147-161 | a run with creations that overtake each other that breaks the condition: the only live ticket of a store for two is evicted |
| Tickets.OvertakingCanBeHarmless | src/boveda/auth.py:147-161 | a run with such creations that meets the condition: evictions find only live tickets |
| Tokens.EncodingIsClean | src/boveda/auth.py:45-46 | encodings are ASCII without padding and without the separator |
| Tokens.DigitIs | src/boveda/auth.py:45-53 | the 64 digits are those of table 2 of RFC 4648; the decoder takes those of table 1 too |
| Tokens.EncodesTheNumber | src/boveda/auth.py:45-46 | read in base 64 an encoding is the number that its bytes are in base 256, filled up with zero bits to whole digits |
| Tokens.DecodeEncode | src/boveda/auth.py:45-53 | stripping the padding is undone: every byte string is decoded from its encoding |
| Tokens.ForeignSkipped | src/boveda/auth.py:49-53 | the decoder skips characters that are neither digits nor padding |
| Tokens.PaddingEnds | src/boveda/auth.py:49-53 | padding ends the input exactly where it completes a group of four |
| Tokens.SplitThree | src/boveda/auth.py:81-92 | joining three clean parts and splitting them again yields the parts |
| Tokens.TokenRoundTrip | src/boveda/auth.py:64-133 | a created token verifies back to its claims iff unexpired with the default issuer and audience; otherwise the first failing check is reported |
| Tokens.ClaimsComeLast | src/boveda/auth.py:84-131 | claims are looked at iff the encodings are sound, the header is the one allowed and the signature verifies |
| Tokens.OwnTokensNotForged | src/boveda/auth.py:64-81 | what the service creates for issued claims carries a signature over those claims |
| Tokens.AcceptedMeansIssued | src/boveda/auth.py:84-133 | whatever string is presented, unless its signature was forged, accepted claims were issued and pass every check |
| Tokens.AcceptsExactlyTheIssued | src/boveda/auth.py:64-133 | one signer, both directions: claims are accepted through some unforged string iff they were issued, are unexpired and name the default issuer and audience |

## Left out

- Pipeline.EveryRun: runs with a shutdown event or a cancellation are not modelled; there a failed upload can be discarded before it is gathered, and the pipeline returns normally.
- Restore.RestoreSnapshot: the decompressor is an abstract stream of writes; what its last flush puts out and the messages of the errors are not modelled.
- Backup.CompressEncryptUpload: puts succeed here, as one that raises shuts the pipeline down, and uploads run one at a time, as the deployed semaphore has it; puts that raise are in `Backup.UploadChunk` and in the schedule of the CLI. It starts from a catalog in which every row of its hashes that forces no put has its object; `CliSchedule.ReadyIff` says for which hashes that is so. Digests of recorded payloads are assumed to have no second preimage where restoring relies on it.
- EndToEnd.RunBackup: a backup ends FAILED here only when a chunk does not fit its header; errors of the source process, of uploads and cancellations end in the shutdown paths that are not modelled.
- Vaults.Vault.RunBackup: commands run one after the other; a backup presents no hash that is lost in the sense of `CliSchedule.CliDanglesIff`.
- Catalog.EveryInterleavingExact: transactions are atomic, as BEGIN IMMEDIATE makes them; timestamps of the rows are reduced to whether a purge is scheduled.
- CliSchedule.CliDanglesIff: one upload runs at a time and no backup runs while a purge is under way. Backups that overlap another process's purge are only covered by the two lemmas that show links dangling.
- CatalogStore.ChunkCatalog.ExecuteTwoPhasePurge: no other transaction runs between its phases; the interleavings are in the catalog's state machine.
- Keys.RotationsPreserveRestores: histories do not delete snapshots.
- Retention.ClassifySnapshots: integer microseconds and a monotone month index stand for dates, time zones and calendar libraries; ISO weeks are computed.
- CircuitBreakers.EveryRun: at most one cancellation per call, and none while an outcome is being recorded.
- Outbox.EveryRunIsDurable: a drainer finishes its batch or dies within 15 minutes of its claim; the updates have no guard against later ones. Date strings and the order of rows created in the same instant are not modelled.
- Outbox.TransactionalOutbox.Drain: drains neither crash nor overlap here; the state machine covers both.
- Keys.Database.RotateKek: rows change only through the rotation while it runs; key derivation is a parameter, and remote key providers are left out.
- Manifest.ComputeMerkleRoot: takes decoded digests; reading hexadecimal text, canonical JSON and the Ed25519 seal are not modelled.
- Tickets.EveryRun: the clock is monotone under the lock and random ids are new.
- Tokens.TokenRoundTrip: JSON with its validation and Ed25519 are abstract functions with the round-trip laws stated.
- Subprocess and stderr handling, S3 clients and retries, webhooks, the web API, command-line output, logging and path validation are I/O.
- `src/boveda/fsm.py` is a small fixed table that most code bypasses.
- Version 2 headers, synthetic nonces and tenant key derivation are not on the path from backup to restore.
