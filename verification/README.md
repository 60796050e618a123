# tmpmail: a verified model of the message store and its neighbours

tmpmail accepts mail over SMTP, keeps it for a while in a directory of message files indexed by an SQLite
database, and deletes it again. This project models the parts of the program whose correctness depends on
many steps going right, or failing, in the right order, and proves what they promise.

The core is the **store** (`internal/app/store.go`). Four pieces of state can fail separately: files in a
directory (what is visible now, and what would survive a power loss), the tables `messages`, `blobs` (with
reference counts) and `pending_deletions`, the counters `storedBytes` and `storedMessages` in memory, and the
latched `storageFault` with the retry cursor.

* `Machine` is a step relation for all of it: every file operation, commit, counter update, process exit,
  power loss and restart is one step. `Machine.Inv` is kept by every step (`NextKeepsInv`).
* `Stores.Store` is the program: a class whose methods follow `store.go` statement by statement. Oracles
  decide, operation by operation, what the host lets succeed: one for removals of queued files, one for the SQL and
  the directory sync of drains, one for everything else, each with its own clock. So a contract can say of a failure
  what it belongs to: a failed unlink is never taken for a failed drain, nor a failed drain for a failed `Save`.
  Every effect is recorded as a step, and `Valid()` says that the record is a run of the machine; so whatever holds
  of every run holds at every moment of every history of a `Store`, between operations and in the middle of one.
  Where the program leaves the lock, or never takes it, `LockFree` and `Interference` stand for whatever other
  operations do meanwhile: a caller knows nothing of them but that they are steps of the machine.
* `Runs` proves the whole-run theorems: saved mail survives every crash, accounting is exact whichever step
  failed, the disk stays bounded, no file goes unaccounted (each with its one exception stated exactly), mail
  leaves only by expiry or eviction, and a reader without the lock never sees wrong bytes.
* `Statements` holds the transactions, statement by statement; `Tables`, `Eviction`, `Queue`, `Legacy` and
  `Recipients` hold the laws of the tables, of the eviction order, of the retry queue, of the migration from the
  earlier schema, and of addresses.

Around it, each with one law that spans the whole component: the analytics queue and its worker
(`AnalyticsQueue`), SMTP connection admission (`Admission`), the TLS certificate reloader (`Reloader`), the
admin search and traffic chart (`Search`, `Buckets`), and the HTML rewrite (`Html` on values, `HtmlTree` on
the heap, in place).

`dafny verify dfyconfig.toml` checks everything.

## Assumptions

* `newID` and temporary names are fresh: they collide with no name in use, nor (in `Runs.ConcurrentRead`) with one that
  a reader still holds.
* A commit that reports an error had no effect; one that reports success is durable.
* A directory sync makes all earlier creates, renames and unlinks in it durable. Without one, each may or may
  not survive a power loss. A file whose contents were never flushed may come back shortened.
* A `stat` that succeeds is accurate; any `stat` may fail. `writeMu` makes every locked operation one sequential piece
  of a run.
* Domains are ASCII. Message paths are written relative to the message directory.
* The clock is a parameter wherever it is read, and is not assumed to run forward (except in `Reloader`, where
  the law itself needs it).

## Where the code falls short of a law

* The certificate reloader is meant to be indistinguishable from one that retries on every handshake. It is, exactly
  when no handshake is raced and none is blinded (`Reloader.RefinesRetryExactly`). A handshake whose first `stat`
  sees a memoised state is skipped even if the files are replaced right after that `stat`
  (`Reloader.RacedHandshakeDiffers`), and a `stat` that fails during a load is memoised like a bad pair and then
  hides a good one until the files change (`Reloader.FailedStatHidesGoodPair`).
* A temporary that `Save` can neither remove nor examine with `stat` is left on disk without row, record or latch, and
  the next `Save` is admitted just the same (`Runs.TemporaryLeftBehind`), so that one process can fill the directory
  beyond any size without a row, a record or a count changing (`Runs.DiskOutgrows`). The model keeps such files in
  `leaked`: a message file is unaccounted exactly when it is there (`Runs.NoUnaccountedFile`), and the disk bound grows
  by one message for each (`Runs.DiskStaysBounded`). The next startup queues them.
* A cleanup that fails in nothing, its drain included, may still leave files on disk: a drain starts behind the retry
  cursor and visits at most 256 records. With at most 256 queued, the queue is empty after it if and only if the cursor
  stood in front of every record (`Stores.Store.CleanDrainFrees`; `Queue.BehindTheCursor` has an input). With the next
  drain every one of them has been tried (`Queue.EveryRecordIsRetried`).
* The migration of the earlier schema yields consistent tables exactly when no two old rows share a file
  (`Legacy.MigrationConsistent`), and a store fit to start exactly when every old file is also intact
  (`Legacy.MigratedIsSafe`).
* Conservation of analytics events in the simple form `accepted = committed + dropped + pending` holds only
  between the steps of an overflow or of a settled batch: `pending` is lowered by a separate atomic operation.
  `AnalyticsQueue.AnalyticsConservation` states the exact balance at every moment.
* A store that starts above its cap stays bounded by the usage it started with, not by the cap
  (`Runs.DiskStaysBounded` states both cases).

## Model

| member | source | states |
|---|---|---|
| `Machine.NextKeepsInv` | internal/app/store.go:201-344 | Every step of the store, failed or not, and every crash, keeps the joint invariant: consistent tables, a durable file with the given bytes behind every blob row, no queued file larger than its record whether visible or coming back, exact counters unless a fault is latched, every visible message file named, staged, latched or left behind, bounded charge. |
| `Machine.KeepCommitSave` | internal/app/store.go:298-327 | Committing a delivery together with its evictions keeps the invariant: charge up by the message, count up by the rows less the evicted, no file orphaned. |
| `Machine.KeepCommitCleanup` | internal/app/store.go:571-608 | Committing a cleanup batch keeps the invariant: released bytes stay charged as queued bytes. |
| `Machine.KeepPowerLoss` | internal/app/store.go:769-825 | Whatever the directory looks like after losing power, every blob row's file is there with its bytes, and no file of a queue record came back larger than the record. |
| `Runs.RunKeepsInv` | internal/app/store.go:201-344 | The invariant holds at every moment of every run of operations, failures, exits, power losses and restarts. |
| `Runs.SavedMailSurvives` | internal/app/store.go:259-343 | Crash safety: from a committed `Save` on, as long as its blob row stands, its file holds the bytes given to that `Save`, now and after any power loss at any later moment. |
| `Runs.NoBlobMissing` | internal/app/store.go:780-792 | In every reachable state every blob row's file exists, so startup never reports a missing referenced blob. |
| `Runs.MailLeavesOnlyByExpiryOrEviction` | internal/app/store.go:487-533 | A message present at one moment and absent at a later one left at a step in between that removed it as expired, or evicted it within the shortest prefix of the priority order that brings the charge to the cap. |
| `Runs.ExpiredOnlyLeave` | internal/app/store.go:431-464 | While a process is up and no delivery brings one, no step makes a message count as expired at a given cutoff: the expired ones only become fewer. |
| `Runs.StoredRowStays` | internal/app/store.go:298-311 | Over any run, as long as the table has a row with its id, a row with a normalized recipient is unchanged in every column. |
| `Runs.ExactAccounting` | internal/app/store.go:466-471 | In every reachable running state with no latched fault, `storedBytes` is the blob sizes plus the queued sizes and `storedMessages` the number of rows, whichever steps failed before. |
| `Runs.NoUnaccountedFile` | internal/app/store.go:746-825 | Outside staging and with no latched fault, a message file on disk has a blob row or a queue record if and only if it is not a temporary left behind; after any crash a successful reopen leaves none. |
| `Runs.ForeignFilesStay` | internal/app/store.go:799-806 | A file in the message directory that is durable, named neither `.incoming-*` nor `*.eml`, and in no table, is left as it is for ever, by startups, failures and crashes too. |
| `Runs.RecordOutlivesFile` | internal/app/store.go:644-744 | A step removes a queue record only when its file is gone and no power loss could bring it back. |
| `Runs.DiskBound` | internal/app/store.go:224-294 | In every invariant state of a running process, staged file included, message-file bytes stay within the ceiling fixed at load plus the bytes left behind. |
| `Runs.DiskStaysBounded` | internal/app/store.go:224-294 | Within one process run that started at or below the cap, message files never exceed `MaxStorageBytes + MaxMessageBytes` and one message for each temporary left behind, under any failures and any number of saves; nothing is left behind if and only if no such step occurred; a run that started above never grows past its start but by those. |
| `Runs.LeakedSinceLoad` | internal/app/store.go:264-271 | Since the last load exactly one temporary, of at most one message, is left behind for each `Save` that could neither remove nor examine it. |
| `Runs.TemporaryLeftBehind` | internal/app/store.go:264-271 | From every state that admits a message there is a run that leaves its whole temporary on disk without row, record or latch, and admits the same message again. |
| `Runs.DiskOutgrows` | internal/app/store.go:264-271 | From every state that admits a message with any bytes, and for every size, some run of the same process puts more than that size on disk, with every table and counter as it was. |
| `Runs.ConcurrentRead` | internal/app/store.go:400-411 | A reader that looked up a blob and opens its file any number of steps later, without the lock, gets exactly the bytes of the delivery or finds the file gone, the latter only after the blob row has left. |
| `Runs.CommitOutcome` | internal/app/store.go:298-319 | A committed delivery adds exactly its rows and one blob counting them all, drops exactly the evicted prefix, and keeps all its own rows whatever the clock says. |
| `Tables.DeleteMessageTx` | internal/app/store.go:612-633 | The statements of one deletion compute `DeleteMessage`, or fail only if a statement failed. |
| `Tables.DeleteMessageSound` | internal/app/store.go:612-633 | Deleting a stored message keeps reference counts, keys and path disjointness, removes that row only, and moves bytes to the queue without changing the charge. |
| `Tables.DeleteListed` | internal/app/store.go:571-602 | Any distinct stored messages can be deleted in one transaction; exactly they are gone and the tables are consistent. |
| `Tables.DeleteFirstMoves` | internal/app/store.go:612-633 | Any sequence of deletions only moves paths and bytes from blobs to the queue; the total charge is conserved. |
| `Tables.DeliverConsistent` | internal/app/store.go:298-311 | The inserts of a delivery keep every reference count equal to the number of messages naming the blob, at least one, with distinct paths disjoint from the queue. |
| `Eviction.PriorityIsOrder` | internal/app/store.go:496-518 | The priority listing is a permutation of the messages of other blobs: those with an expiry at or before the clock first, by expiry, then the rest by arrival; for every rank the rows of that rank stand in rowid order. |
| `Eviction.NextVictim` | internal/app/store.go:496-518 | The two victim queries find the head of the listing, remembering that no expired message is left; without a victim only protected messages remain. |
| `Eviction.EvictTx` | internal/app/store.go:487-533 | The eviction loop deletes exactly the shortest prefix of the listing that brings usage to the cap (every shorter one leaves more), ends, and counts the expired ones, which come first, and the evicted ones, with the bytes that each kind released; it reports exhaustion only if the whole listing is not enough, and a failure exactly if a statement failed. |
| `Eviction.AdmissionComplete` | internal/app/store.go:244-253 | After the admission checks, giving up the whole listing always reaches the cap, even though single deletions may release nothing. |
| `Queue.SelectPending` | internal/app/store.go:684-706 | The next at most 256 records after the cursor in path order, all of them if fewer. |
| `Queue.EveryRecordIsRetried` | internal/app/store.go:647-659 | Retry fairness: from any cursor, with n records and none added, every record gets an unlink attempt within ceil(n/256)+1 drains, however many others keep failing. |
| `Queue.BehindTheCursor` | internal/app/store.go:647-659 | With the cursor at `b.eml`, a drain passes over a lone record at `a.eml`; only the next drain visits it. |
| `Legacy.MigrationConsistent` | internal/app/store.go:109-155 | The migrated tables satisfy reference counting and key discipline if and only if no two old rows share a file. |
| `Legacy.MigratedIsSafe` | internal/app/store.go:109-155 | A migrated store satisfies the machine's invariant if and only if no two old rows share a file and every old file is there, durable and of the recorded size; then every whole-run theorem covers it. |
| `Legacy.MigrationKeepsRows` | internal/app/store.go:141-146 | Tables are the migrated ones if and only if, column by column, each row is the old row in the old place but for its blob id, each has its own blob row with the old file, size and one reference, there are no other blob rows, and nothing is queued. |
| `Legacy.MigratedPaths` | internal/app/store.go:776-792 | The files that startup looks for after the migration are exactly those of the old rows. |
| `Repeats.DropRepeats` | internal/app/store.go:211-219 | The loop over recipients computes the list of distinct names. |
| `Repeats.DistinctIsFirstOccurrences` | internal/app/store.go:211-219 | Each name is listed once, in the order of first occurrences. |
| `Recipients.NormalizeMeaning` | internal/app/smtp.go:309-314 | Normalizing is idempotent and identifies exactly the addresses with equal local parts and domains equal up to case (section 2.4 of RFC 5321). |
| `Recipients.NormalizeChars` | internal/app/smtp.go:309-314 | Character by character: behind the last `@` capital letters become small, and nothing else changes. |
| `Stores.Store.constructor` | internal/app/store.go:54-107 | A store over an unused directory begins a run. |
| `Stores.Store.Upgrade` | internal/app/store.go:109-155 | A store over any migrated database and any files holds every old row in its place, the same in every column but for its blob id, which is its own id, and one blob row for each with its file and size. It begins a run if and only if every old row has an intact file of its own; every old file that is there counts as accepted with its bytes. |
| `Stores.Store.Resume` | internal/app/store.go:54-107 | A store may take up any run of the machine that ended with the process down, in the middle of an operation or not; `Open` and all else then apply. |
| `Stores.Store.Open` | internal/app/store.go:54-107 | Opening fails if and only if a statement of the set-up, the reconciliation or one of the two readings of the usage failed, whatever becomes of the startup sweep; even a reported blob is not missing, only its `stat` failed. It ends with exact counters, no fault, all recipients normalized and no row lost. Every message file without a blob row has joined the queue, and every queued file was tried once; exactly those stay whose unlink failed, unless the sweep itself was aborted. |
| `Stores.Store.FindMissingBlob` | internal/app/store.go:776-797 | Startup passes if and only if every blob row's file is there and no `stat` fails; otherwise it names a blob. |
| `Stores.Store.ReconcileFiles` | internal/app/store.go:772-825 | After a successful scan every message file is named by a blob row or the queue; rows are unchanged. Whatever happens, what joins the queue are message files without a blob row, each with its size, and nothing leaves it. A success asked for the status of every blob's file. |
| `Stores.Store.NormalizeStored` | internal/app/store.go:827-859 | All recipients are normalized in one transaction, or nothing changes; the former if and only if no statement failed. |
| `Statements.UpdateRecipients` | internal/app/store.go:851-858 | The updates, one address at a time, put every row in normal form; no update catches a row that an earlier one already changed. |
| `Stores.Store.LoadUsage` | internal/app/store.go:466-471 | On success the counters equal the tables. |
| `Stores.Store.Save` | internal/app/store.go:201-344 | All or nothing: refused leaves messages and blobs unchanged, and everything if refused on the arguments or the latch. Saved returns one row for each mailbox that a recipient names, each with the call's sender, subject and size, received now and expiring after the time to live; `Get` finds each exactly until then; the file is durable, exactly a prefix of the priority order is displaced, and a drain follows the commit. Each refusal has its exact condition: on the arguments and the latch, on the charge and the queued bytes in the state that its first drain left, and on whether any operation from the query for the queued bytes to the commit failed; no failure of a drain is among them. "Storage limit exhausted" never happens. |
| `Stores.Store.SavedIsServed` | internal/app/store.go:303-311 | As long as a row that `Save` returned is stored, with any operations, crashes and restarts in between, the query of `Get` finds a row with its id at time t if and only if t is before the delivery's time plus the time to live. |
| `Stores.Store.Admit` | internal/app/store.go:235-253 | The checks under the lock: latch, one drain, then cap and queued bytes in the state that the drain left, each refusal with its exact condition and none for a failed drain; passing them is what the machine demands before staging. |
| `Stores.Store.FillTemp` | internal/app/store.go:273-287 | The temporary holds the flushed message if and only if write, chmod, sync and close, four operations, all succeeded. |
| `Stores.Store.Stage` | internal/app/store.go:259-294 | A staged file ends durable under its final name, after seven operations, if and only if none failed; otherwise it is removed, queued, latched or left behind, and the tables of mail are unchanged. |
| `Stores.Store.AbandonTemp` | internal/app/store.go:264-271 | A temporary that was not renamed is removed; only if that fails and `stat` finds it is it discarded, and only if both fail left behind. |
| `Stores.Store.Transact` | internal/app/store.go:295-327 | Inserts and evictions commit together or not at all, and commit if and only if no operation failed; the eviction never reports an exhausted limit. |
| `Stores.Store.Discard` | internal/app/store.go:746-767 | A discarded file is gone, or queued, or the latched orphan; messages and blobs are untouched. If nothing failed it was recorded and a drain followed; if it could not be recorded it was removed at once, the latch set if and only if that failed, and the directory synced. |
| `Stores.Store.RecordStagedFile` | internal/app/store.go:749-763 | The record is added and the usage reloaded; the stale-usage fault is latched if and only if a reading failed. |
| `Stores.Store.UnlinkBatch` | internal/app/store.go:707-723 | The loop tries every path of the batch once in order, whichever fail, and leaves the directory, the removed paths and the bytes to reclaim that `UnlinkEach`, `Gone` and `BytesGone` give. |
| `Stores.Store.UnlinkOutcome` | internal/app/store.go:707-723 | These are: removed are exactly the paths whose unlink succeeded, their files are gone, no other path comes to be among the undone unlinks, and the bytes are those of their records. |
| `Stores.Store.FinishDrain` | internal/app/store.go:724-739 | Records and their charge go together if and only if the sync and every statement succeed; otherwise neither does. A dropped record's file is gone and no power loss can bring it back. |
| `Stores.Store.DrainPendingBatch` | internal/app/store.go:683-744 | One batch after the cursor. It is aborted if and only if SQL or a sync failed, and then the queue stays as it was; otherwise exactly the records whose unlink failed stay, the others' files are gone beyond recall and their bytes given back. |
| `Stores.Store.DrainPending` | internal/app/store.go:647-659 | One drain behind the wrapping cursor. Unless SQL or a sync failed it is one of those the fairness theorem is about, however many unlinks failed; if one did, the cursor starts over and the queue is untouched. Of the directory exactly the files whose unlink succeeded are gone. |
| `Stores.Store.CleanDrainFrees` | internal/app/store.go:644-659 | If nothing failed in a drain that found at most 256 records, every record behind the cursor is gone from the queue, its file is gone beyond recall and its bytes are no longer charged; the queue is then empty, and the charge the blob bytes alone, if and only if the cursor stood in front of every record. |
| `Stores.Store.DrainRounds` | internal/app/store.go:647-659 | Fairness of the code: with n records queued, ceil(n/256)+1 drains from any cursor try every one of them, however many unlinks fail; they stop early if and only if SQL or a sync failed. |
| `Stores.Store.DrainAll` | internal/app/store.go:661-681 | The startup drain ends and tries every record exactly once in path order, however many unlinks fail, leaving exactly those whose unlink failed; it stops early if and only if SQL or a sync failed. |
| `Stores.Store.CleanupBatch` | internal/app/store.go:571-608 | One transaction removes at most 256 messages, those with an expiry at or before the cutoff only, unless a statement of its own failed; a short batch leaves none; a committed batch is followed at once by a drain, whose failure does not undo the commit; the counter follows the rows. |
| `Stores.Store.CleanupLocked` | internal/app/store.go:556-569 | The loop with the lock held ends; without error no message expired at the cutoff remains; with one, which some operation of a batch or drain caused, earlier batches stay committed and counted. All batches but the last are full, and each has a drain of its own that began in the state its commit left. |
| `Stores.Store.Cleanup` | internal/app/store.go:431-464 | With the lock released between batches and other operations doing anything: a return without error means that the last commit left no message expired at the cutoff, nor is there one now; an error is that of the last batch, all batches before it were full, stay committed and were drained without a failure, and the counters match the rows. The last commit too is followed by a drain. Unless expired messages keep arriving, it returns within floor(n/256)+1 batches of the n that were there. |
| `Stores.Store.Get` | internal/app/store.go:392-414 | With other operations doing anything between the query and the reading of the file: a row is found exactly if an unexpired one was there, and its file holds the bytes its delivery was given or is gone, the latter only after the blob row has left; it fails only if the query or the read does. |
| `Stores.Store.EveryMoment` | internal/app/store.go:201-344 | At every moment of a store's history, in or between operations, the invariant and the disk bound hold. |
| `AnalyticsQueue.NextKeepsInv` | internal/app/analytics.go:254-361 | Every atomic step of recorders and worker, sends between the end of the drain loop and the final count included, keeps every accepted event in exactly one place, and both counters exact. |
| `AnalyticsQueue.AnalyticsConservation` | internal/app/analytics.go:99-132 | In every interleaving accepted = committed + dropped + pending, corrected by the decrements one step behind; until the final drop `pending` is queue + batch + recorders sending; the batch is at most 128 with at most 3 failed attempts. |
| `AnalyticsQueue.EventsDecidedOnce` | internal/app/analytics.go:254-361 | No accepted event is committed or dropped more often than it was accepted. |
| `AnalyticsQueue.ThreeAttempts` | internal/app/analytics.go:264-345 | Counting steps of any run: before the final drop of a shutdown the worker drops a batch exactly at the third attempt that failed since the last batch was settled, a failed transaction or a retry that finds no database; any attempt that succeeds commits it; until then the worker keeps it. The only other events dropped are overflows. |
| `AnalyticsQueue.FirstInFirstOut` | internal/app/analytics.go:309-330 | What the batch and the queue hold, read in order, are the events sent last, in the order they were sent. |
| `AnalyticsQueue.FullBatchIsWritten` | internal/app/analytics.go:306-330 | A batch of 128 never waits in the event loop unless there is no database. |
| `AnalyticsQueue.QueueIsUsed` | internal/app/analytics.go:120-131 | A recorder can always go on: it sends if fewer than 4096 events are queued and drops its event only if not. The shutdown drain stops exactly when the queue is empty or the database gone, and writes once 128 events are taken or none is left. |
| `AnalyticsQueue.DatabaseIsUsed` | internal/app/analytics.go:270-354 | The worker loses its database only by a failed transaction, drop, prune or maintenance, gets one back only from a retry that opened it, and then writes at once. |
| `AnalyticsQueue.LeftAfterExit` | internal/app/analytics.go:306-322 | After the worker's exit `pending` is exactly what recorders slipped, or will slip, into the queue behind it. |
| `AnalyticsQueue.ShutdownEnds` | internal/app/analytics.go:306-322 | From the stop signal on, a run has only boundedly many effective steps, so the shutdown drain ends. |
| `AnalyticsQueue.ShutdownNeverStuck` | internal/app/analytics.go:306-322 | Until it exits, the worker of a shutdown always has a next step. |
| `Admission.AdmissionAccounts` | internal/app/smtp.go:115-158 | In every interleaving each source count is its admitted unreleased connections, positive and within a positive limit; slots = counts + connections midway, at most the capacity; all gone means all empty; giving a slot back never blocks. |
| `Admission.AdmissionDecides` | internal/app/smtp.go:115-189 | In every interleaving a source is refused if and only if a positive limit of its own connections is admitted at that moment, a connection is refused altogether only when every slot is taken, and no decision touches another connection. |
| `Admission.SourceTable.AcquireSource` | internal/app/smtp.go:181-189 | Refuses exactly at a positive limit, and otherwise counts the source once more. |
| `Admission.SourceTable.ReleaseSource` | internal/app/smtp.go:191-199 | Uncounts the source once and drops it at zero. |
| `Reloader.CertificateReloader.GetCertificate` | internal/app/smtp.go:367-390 | One handshake updates the fields as `Handshake` does and returns the certificate then in use. |
| `Reloader.QuietHandshakeIsFresh` | internal/app/smtp.go:367-390 | A handshake during which the files stay as they are and hold a pair that covers the server name and is valid now returns that pair, whatever races came before, if and only if it is not blinded. |
| `Reloader.RefinesRetryExactly` | internal/app/smtp.go:367-390 | The memoising reloader agrees on every handshake with one that always retries, if and only if no handshake is raced and none is blinded by a `stat` that failed during an earlier load. |
| `Reloader.QuietRunsRefineRetry` | internal/app/smtp.go:367-390 | If no files are replaced in mid-handshake and every `stat` of a load is answered, the two agree throughout. |
| `Reloader.RacedHandshakeDiffers` | internal/app/smtp.go:370-378 | For any two distinct loadable pairs, replacing one by the other after the first `stat` makes the two differ. |
| `Reloader.FailedStatHidesGoodPair` | internal/app/smtp.go:377-383 | A failed `stat` during a load is memoised, and the pair stays hidden for any number of later handshakes. |
| `Reloader.OnlyValidDisplaces` | internal/app/smtp.go:402-434 | Over any run, any certificate in use other than the first was loaded between two equal stats, covered the server name and was valid at the time. |
| `Search.LiteralSearch` | internal/app/admin.go:366-388 | For every term and text the escaped pattern matches under LIKE with ESCAPE exactly when the term occurs as a contiguous substring up to ASCII case. |
| `Buckets.Partition` | internal/app/admin.go:224-240 | Every timestamp of the window lies in exactly one bucket, which is where it is added; only the window's very end is ever clamped, and only if the buckets divide the window. |
| `Buckets.SupportedWindows` | internal/app/admin.go:215-224 | For each offered window the buckets divide it, into minutes, hours, thirds of a day and days, and an event is clamped exactly when it is at `hi`. |
| `Buckets.Accumulate` | internal/app/admin.go:232-246 | The loop over the rows, with clamp and guard, adds each of the three counts of each row to its bucket and to no other. |
| `Buckets.Chart` | internal/app/admin.go:214-246 | From any grouping of one snapshot, in any row order, each bucket shows exactly the events of its own interval, and the buckets sum to the window totals. |
| `Buckets.ChartTotals` | internal/app/admin.go:189-196 | Buckets that hold their own intervals together hold the window's deliveries, requests and polling requests. |
| `Buckets.TalliedCounts` | internal/app/admin.go:189-196 | What the totals count: the deliveries, the requests, and the requests that poll. |
| `Html.RemoveUnsafeTwice` | internal/app/mime.go:229-256 | Rewriting twice is rewriting once, with images only if both rewrites load them: idempotence, and load-then-block equals block. |
| `Html.KeepsUnblocked` | internal/app/mime.go:229-256 | The result holds exactly the nodes with no blocked self or ancestor, in document order and at their depth, with their attributes rewritten. |
| `Html.NothingUnsafeLeft` | internal/app/mime.go:229-256 | Below the root no element of the eight kinds is left, no handler, no `srcset`, no `src` but of a loaded image, no `href` but on an `a` into the page or to http, https or mailto, and no `target` or `rel` but the two that the rewrite adds; names and schemes up to case. |
| `Html.RewriteShows` | internal/app/mime.go:229-277 | The whole result: in document order and at their depth stay exactly the nodes that are not, nor stand below, an element of the eight kinds; of each element the attributes with a safe name and, for an `href`, a safe link, all in their order, a loaded image's source trimmed; and `target` and `rel` follow exactly when an `href` that stays leads out of the page. |
| `Html.TrimIsCore` | internal/app/mime.go:263-265 | Trimming takes off the white space of Unicode on both sides and nothing else. |
| `Html.LowerReads` | internal/app/mime.go:238-266 | Comparing with a word after lowering is comparing letter by letter up to case; only two letters outside ASCII come down to one inside. |
| `Html.AttrsTwice` | internal/app/mime.go:235-251 | Rewriting attributes twice is rewriting once; the added `target` and `rel` are not doubled. |
| `Html.TrimTwice` | internal/app/mime.go:239-240 | Trimming is idempotent, so a trimmed image source is judged as before. |
| `FilterMaps.FilterMapFusion` | internal/app/mime.go:236-247 | Two filter-map passes are one pass of the composition. |
| `HtmlTree.HtmlNode.CompactAttrs` | internal/app/mime.go:236-247 | The in-place compaction equals a filter-map of the old attributes. |
| `HtmlTree.HtmlNode.LeadsOut` | internal/app/mime.go:270-277 | Finds an outgoing link exactly when there is one. |
| `HtmlTree.HtmlNode.CleanAttrs` | internal/app/mime.go:235-251 | An element's attributes become the rewritten ones, with `target` and `rel` on outgoing links. |
| `HtmlTree.HtmlNode.RewriteChild` | internal/app/mime.go:235-252 | One child is rewritten in place and its siblings are left alone. |
| `HtmlTree.HtmlNode.RemoveUnsafeNodes` | internal/app/mime.go:229-256 | The recursive in-place rewrite turns the tree into `RemoveUnsafe` of the old tree, so that below the root exactly what `Html.RewriteShows` says is shown. |

## Left out

- `enforceLimitLocked`, `Close`, `Status`, `RunCleanup`, the cleanup error count and the time of the last cleanup:
  no hard property.
- `List` and `ListPage`: plain queries.
- Stores.Store.Open: the transaction that migrates the earlier schema has no statements of its own; it is taken as
  committed before the store begins (`Upgrade`), and a failure there would only mean that startup fails.
- Message files outside the message directory, and uncleaned legacy paths, are not modelled.
- Integer widths: sizes and counts are unbounded integers; the original's are 64 bits wide and far from overflow.
- SQL text, SQLite's journal and indices: tables are values, transactions are atomic.
- SMTP sessions, `Rcpt`, `accepts` and scheduled rejections; STARTTLS and message parsing belong to a library.
- Contents of analytics rows, string bounds, `backlogSince`, pruning and storage figures of the analytics database.
- Certificate parsing and verification: a pair is an abstract value with a validity interval and a verdict on the
  server name.
- The other admin filters, rankings and the status page.
- HTML and URL parsing and rendering: the rewrite starts from a parsed tree, and whether an address has an http(s)
  host is a parameter.
- HTTP handlers, rate limiting, metrics, logging, configuration, ACME.
