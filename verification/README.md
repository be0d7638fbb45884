# Marchi, modelled and proved in Dafny

Marchi archives mail: it fetches messages over IMAP, the Gmail API or Microsoft Graph, files
the raw bytes in Maildir directories, records them in SQLite, mirrors them to S3 and later
evicts or deletes them. This project models the parts whose correctness is a matter of order,
of crashes and of bookkeeping, and proves what they keep.

**The archive protocol.** `Archive` is one transition system over `tmp/`, `new/`, the tables
`emails`, `folders` and `s3_upload_queue`, the S3 objects, and the running syncs, upload
workers and retention passes. A step is one file operation, one S3 request or one Single-Writer
transaction; every interleaving and every kill between two steps is a run. `ArchiveFiles`,
`ArchiveQueue`, `ArchiveMail` and `ArchiveMirror` prove what every run keeps; `ArchiveHistory`
adds what becomes of a row over time, and concludes that nothing archived is lost;
`ArchiveLimits` and `ArchiveOverlap` show where the promises stop. `ImapSync` puts one IMAP
folder, its server and its watermark on top, with the syncs of other folders and accounts beside
it; `ImapDrain` says exactly when a run without faults leaves nothing unhandled; `ImapArchive`
shows that IMAP histories are archive runs. `ImapFetch`, `Uploads` and `Retention` are the
programs in their own imperative form, proved to take steps of the archive and no others;
`FetchedRows` spells out, column by column, what archiving adds to the tables.
`GmailSync` and `GraphSync` are the cursors of the two API connectors; `Ledger`, `GmailArchive`
and `GraphArchive` tie what they have handled to rows of the archive. `MailImport` is the import
command, `FolderMove` the bulk move.

**Beside it.** `SingleWriter` (the channel protocol), `Mbox` (printer against parser),
`LruCache`, `MasterKey`, `Rules` and `RuleOrder`, `TailFile`, `CronRefresh`.

## Assumptions about the schedule

The program relies on these and does not enforce them. `Archive.ALL` collects the first three;
for each there is a run that shows what happens without it.

- A Maildir writer gives out names that no other writer of that directory gives out
  (names hold second, pid and a counter per writer; `Commit` renames without looking).
  Without it: `ArchiveLimits.SameNamesLoseMail`.
- One sync per account at a time (the duplicate check reads outside the transaction; the
  scheduler and a manual trigger can overlap). Without it:
  `ArchiveLimits.OverlappingSyncsDuplicate`.
- One retention pass at a time (`internal/scheduler/scheduler.go:399` and
  `cmd/marchi/cmd_retention.go:78` take no lock). Without it:
  `ArchiveOverlap.OverlappingPassesLoseMail`. What the mirror needs is less, that no pass deletes
  an S3 object whose key another email has by then: `ArchiveMirror.ExpireKeepsIff` says that
  nothing weaker will do, and `SerialHasNoStaleExpire` that the habits above are enough.
- FETCH returns UIDs in ascending order, and the highest message when the requested range is
  empty (RFC 3501, section 9, seq-range); a message keeps its bytes under its UID; UIDVALIDITY
  only grows (section 2.3.1.1 there), and not between a run's folder listing and its last FETCH,
  since `FetchNewMessages` does not look at the UIDVALIDITY that SELECT returns.
- The last page of a Gmail history walk covers every arrival up to the history id it carries
  (`GmailSync.WalkComplete`; `SnapshotPagesWouldLoseMail` shows why), a finished full listing
  contains what arrived before it began, and a Graph delta feed only grows.
- Hashes, key derivation and encryption are ideal.

## Where the code and its comments differ

The model follows the code.

- `internal/httpapi/export.go:269-275` promises the original byte for byte; that holds only
  for mail without CR before LF (`Mbox.ByteForByteIff`), so not for mail with CRLF lines.
- `internal/httpapi/emails.go:411-419` calls a rename that never reaches SQLite a harmless
  orphan; the row then points at a file that is gone (`FolderMove.MoveKeepsFilesIff`).
- `internal/db/repo/emails.go:380-382` promises an unused UID; the 32-bit increment can wrap
  onto UID 0 (`FolderMove.NextUidUnusedIff`).
- `internal/logging/reader.go:38-39` speaks of non-empty lines; inner blank lines are returned,
  and blank lines at the end of a file longer than one 64 KiB read can cost part of the answer
  (`TailFile.AgreeIff` says exactly when, `LongLineIsCut` gives such a file).
- `internal/db/writer/writer.go:28-29` says `Close` stops accepting work; a request can still be
  taken between the closing and the goroutine's exit (`SingleWriter.AcceptedAfterClosing`).
- `internal/sync/fetch.go:382-384` has the next sync re-archive a message whose transaction
  failed; when a row of an older UIDVALIDITY holds its UID, no run ever gets past it
  (`ImapDrain.NewValidityBlocksFolder`).
- `cmd/marchi/cmd_import.go:56-60` calls a repeated import safe; messages without a Message-ID
  are archived again (`MailImport.ImportTwice`).

## Model

| member | source | states |
|---|---|---|
| ArchiveFiles.LocalFilesSurvive | internal/sync/fetch.go:408-520 | with fresh writer names, in every interleaving of syncs, uploads, retention passes, sweeps and kills, a row marked local has its file in new/ with the archived bytes |
| ArchiveFiles.StepKeepsFiles | internal/sync/fetch.go:372-386 | every single step keeps the file invariant |
| ArchiveFiles.RenameKeepsFilesIff | internal/maildir/writer.go:84-93 | a commit keeps that promise exactly when no local row with other bytes sits at the target name |
| ArchiveQueue.QueueLaw | internal/db/repo/s3uploadqueue.go:28-125 | for every mirrored email exactly one of queue row and etag, in every run; no row is claimed more than five times, across restarts |
| ArchiveQueue.StepKeepsQueue | internal/s3store/uploader.go:205-242 | every step keeps the status machine: pending and uploading below five attempts, failed at five, claims in step with the retry count |
| ArchiveMail.MessagesStayUnique | internal/sync/fetch.go:220-252 | with one sync per account, no two rows of an account share a non-blank Message-ID |
| ArchiveMirror.MirrorSurvives | internal/retention/runner.go:219-309 | with any number of overlapping syncs and passes: a row marked s3 with a Message-ID has its etag and its object unless Stage C began for it, as long as no pass deletes an object whose key another email has by then |
| ArchiveMirror.ExpireKeepsIff | internal/retention/runner.go:287-300 | deleting the listed object keeps the mirror exactly when no other uploaded email with a Message-ID has that key and no worker has just stored one under it |
| ArchiveMirror.StaleExpireLoses | internal/retention/runner.go:287-300 | otherwise an uploaded email is without its object, at once or when that worker records its etag |
| ArchiveMirror.SerialHasNoStaleExpire | internal/retention/runner.go:280-309 | one sync per account and one pass at a time: no pass ever deletes such an object |
| ArchiveMirror.KeysNeverShared | internal/s3store/keys.go:36-47 | with one sync per account, an email with a Message-ID never shares its S3 key with another, so Stage C on one spares the others |
| ArchiveMirror.StoredNotUploaded | internal/db/repo/s3uploadqueue.go:88-102 | a worker about to mark an email done holds the queue row of an email not uploaded yet |
| ArchiveHistory.NothingArchivedIsLost | internal/sync/fetch.go:372-386 | with fresh writer names, and no object deleted while another email has its key: a message with a Message-ID that was archived at any point of a run is, after any continuation, still archived under its account, folder and UID and readable byte for byte from new/ or S3, unless Stage A deleted it where there is no mirror or Stage C began for it |
| ArchiveHistory.RowStays | internal/db/repo/emails.go:346-366 | under no assumption at all, a row keeps its message, account, folder and UID until Stage A deletes it directly or Stage C begins for it |
| ArchiveHistory.HabitsSuffice | internal/scheduler/scheduler.go:394-412 | fresh writer names, one sync per account and one retention pass at a time are enough for that |
| ArchiveOverlap.OverlappingPassesLoseMail | cmd/marchi/cmd_retention.go:78-81 | with two passes at a time, one deletes the object of a message that was archived, mirrored and evicted again meanwhile, and with it the only copy |
| ArchiveLimits.SqlBeforeRenameLosesMail | internal/sync/fetch.go:372-386 | the abandoned order (SQL before rename), a kill and a sweep leave a committed row past the watermark without content |
| ArchiveLimits.ArchiveWhole | internal/sync/fetch.go:408-520 | one undisturbed ArchiveOne files the bytes under the next name, inserts the row, enqueues it and advances last_uid |
| ArchiveLimits.SameNamesLoseMail | internal/maildir/writer.go:105-114 | two writers giving out the same names make a local row lose its file |
| ArchiveLimits.OverlappingSyncsDuplicate | internal/db/repo/emails.go:124-134 | two overlapping syncs of an account insert the same Message-ID twice |
| ArchiveLimits.BlankTwinsShareKey | internal/sync/fetch.go:212-221 | a message without a Message-ID archived twice has two queue rows under one S3 key |
| ArchiveLimits.ExpireKeepsOthersIff | internal/retention/runner.go:280-309 | Stage C takes another email's object exactly when the two share the key |
| ImapSync.WatermarkNeverPassesMail | internal/sync/fetch.go:141-285 | after any history of runs, kills, sweeps, unreported commits, uploads, retention and syncs of every other folder and account, each message at or below the durable last_uid was stored (alone under its UID), skipped, or a duplicate |
| ImapSync.NextKeeps | internal/db/repo/folders.go:29-97 | every event keeps the watermark invariant, including a UIDVALIDITY reset, the last_uid guard and steps of other syncs |
| ImapSync.FetchRangeCovers | internal/sync/fetch.go:136-160 | the fetched range misses nothing at or above its start and repeats only older mail |
| ImapSync.BackgroundFrame | internal/sync/account.go:174-205 | sweeps, uploads, retention and the syncs of other folders and accounts leave the folder's watermark and running syncs alone, and add no row to it |
| ImapDrain.FaultFreeRunHandlesAllIff | internal/sync/fetch.go:141-285 | a run without faults leaves nothing unhandled exactly when UNIQUE(account_id, folder_id, uid) rejects none of the waiting messages |
| ImapDrain.DrainHandlesAllIff | internal/sync/fetch.go:162-280 | the same for the message loop over any fetched list |
| ImapDrain.HandleStores | internal/sync/fetch.go:252-280 | a new message becomes one row under its UID and is done |
| ImapDrain.HandlePassesOver | internal/sync/fetch.go:188-250 | a skipped or duplicate message is done without a row |
| ImapDrain.HandleRejected | internal/db/migrations/000001_init.up.sql:48-48 | a taken UID ends the run and changes no row and no watermark |
| ImapDrain.CleanEpochRecovers | internal/db/repo/emails.go:368-377 | within one UIDVALIDITY and below the move UIDs, one fault-free run after any history, other syncs included, handles everything |
| ImapDrain.NewValidityBlocksFolder | internal/db/repo/folders.go:29-47 | after a new UIDVALIDITY, whatever the new mailbox: when a new message has the UID of an old row, no history of runs, faults and arrivals handles it or anything above it, and the watermark stays below it, while the row and the message stay, no rule skips it and no row has its Message-ID |
| ImapDrain.BlockedMailStays | internal/db/migrations/000001_init.up.sql:48-48 | the same for any message whose UID is taken |
| ImapDrain.RunsHandleNothing | internal/sync/fetch.go:161-285 | when it is the lowest unhandled message, any number of fault-free runs leaves rows, outcomes and mailbox as they were |
| ImapDrain.QuietRunSucceedsIff | internal/sync/fetch.go:136-160 | when FETCH repeats the highest old message, the run succeeds exactly when that message is skipped, a duplicate, or without a row |
| ImapArchive.EventIsRun | internal/sync/fetch.go:109-285 | every event of an IMAP history is a list of permitted archive steps |
| ImapArchive.HistoryIsRun | internal/sync/fetch.go:109-285 | so is every history |
| ImapArchive.ImapHistoriesLoseNothing | internal/sync/fetch.go:372-386 | under the first three assumptions, a message with a Message-ID archived at any point of an IMAP history is still archived and readable after any further history, unless Stage A deleted it without a mirror or Stage C began for it |
| ImapFetch.FolderRun.constructor | internal/sync/fetch.go:131-160 | a run starts at the upserted watermark with the range FETCH returns, and with the tables, directories and mirror setting as they are |
| ImapFetch.FolderRun.Stage | internal/maildir/writer.go:56-74 | staging puts the bytes under the next name, or fails and leaves what a failed write leaves; it is one archive step |
| ImapFetch.FolderRun.Commit | internal/maildir/writer.go:84-103 | the file moves to new/ unless it was swept or the rename fails; then nothing stays in tmp/ |
| ImapFetch.FolderRun.Sweep | internal/maildir/sweep.go:19-37 | a sweep empties tmp/ under a running sync and does nothing else |
| ImapFetch.FolderRun.Persist | internal/sync/fetch.go:461-496 | row, queue row and watermark together or not at all; success is reported exactly when nothing failed and the UID was free |
| ImapFetch.FolderRun.SkipOne | internal/sync/fetch.go:351-358 | a skipped or duplicate message is recorded as done and the watermark advances past it |
| ImapFetch.FolderRun.ArchiveOne | internal/sync/fetch.go:408-520 | success files the bytes under the next name and inserts exactly one row: these bytes under this UID, created now, local, not uploaded; with mirroring exactly one pending queue row for it, keyed by account, content and the mail's own day or else today; a failure inserts nothing, or the same when the commit went unreported |
| ImapFetch.FolderRun.HandleMessage | internal/sync/fetch.go:163-280 | one message: skipped exactly when a rule says so, else a duplicate exactly when its Message-ID is known, else archived, unless it fails; only an archived one adds a row; each outcome is a step of the watermark system; without faults only a rejected message fails |
| ImapFetch.FolderRun.FetchNewMessages | internal/sync/fetch.go:161-285 | stops at the first failure; success means every message is done; every added row and queue row is one of the messages, created now, one queue row for each row; `skipped` counts the rule hits and all counters add up; without faults success is exactly "nothing rejected" |
| ImapFetch.SyncFolder | internal/sync/fetch.go:109-285 | a whole run from any reachable state keeps the watermark law whatever fails, and adds rows only for what FETCH returned |
| Uploads.Uploader.ClaimBatch | internal/db/repo/s3uploadqueue.go:44-83 | claims at most `limit` due pending rows, the oldest first and each once, all of them if fewer, and touches no other row |
| Uploads.Uploader.MarkDone | internal/db/repo/s3uploadqueue.go:88-102 | etag and queue row change together, or not at all |
| Uploads.Uploader.MarkFailed | internal/db/repo/s3uploadqueue.go:109-125 | back to pending, or failed for good at the fifth attempt; when it fails itself, the row stays as it was |
| Uploads.Uploader.Upload | internal/s3store/uploader.go:222-242 | success stores the file's content under the key, records the etag and removes the queue row; it succeeds exactly when nothing failed and the file was there |
| Uploads.Uploader.Process | internal/s3store/uploader.go:205-220 | success or exactly one counted attempt; queue row or etag, exactly one, still holds afterwards |
| Retention.Runner.Pass | internal/retention/runner.go:106-140 | whatever fails, every row meets exactly the fate its account's effective policy gives it, through permitted archive steps |
| Retention.Runner.TreatAccount | internal/retention/runner.go:125-137 | one account: Stage A with or without a mirror, then Stage C, other accounts' rows untouched |
| Retention.Runner.EvictToS3Only | internal/retention/runner.go:219-241 | exactly the due, uploaded, local rows become S3-only, except those whose transaction failed; counted as moved or as errors, each once |
| Retention.Runner.DeleteDirectNoBackup | internal/retention/runner.go:246-272 | exactly the due local rows go, except those whose transaction failed; counted as deleted or as errors, each once |
| Retention.Runner.DeleteFromS3 | internal/retention/runner.go:280-309 | exactly the due S3-only rows go, except those whose object or row could not be deleted; counted as deleted or as errors, each once |
| Retention.Runner.EvictOne | internal/retention/runner.go:226-239 | row first, then file; a failed or unreported transaction leaves the file |
| Retention.Runner.DeleteOne | internal/retention/runner.go:253-271 | row and its queue rows first, then file |
| Retention.Runner.ExpireOne | internal/retention/runner.go:287-308 | object first, then row; a failed object deletion leaves the row, and the object unless it was deleted all the same |
| Retention.SettleTwice | internal/retention/runner.go:106-140 | a fault-free pass repeated at the same clock and settings changes nothing |
| Retention.FateMovesForward | internal/db/repo/emails.go:346-366 | rows only move local to S3 to gone, and only an uploaded row becomes S3-only |
| Retention.TouchedIff | internal/db/repo/emails.go:240-280 | a row is touched exactly when it was created (in Stage C: became S3-only) at or before the cutoff of the threshold that applies: the account's own, or where that is not set the global one; where neither is set, never |
| Retention.OlderIsTouchedToo | internal/db/repo/emails.go:240-280 | if a row is touched, so is every older one in the same state |
| Retention.FateIs | internal/retention/runner.go:219-309 | what becomes of a row, whatever fails: evicted with path and timestamp as stated, deleted, or left as it is |
| Retention.SettleIs | internal/retention/runner.go:120-137 | a pass gives each row the fate under its own account's settings, and leaves rows of unlisted accounts alone |
| GmailSync.CursorNeverPassesMail | internal/sync/gmailapi_sync.go:175-296 | with arrivals between any two calls, failed runs and expired cursors, everything in scope that arrived up to the stored history id is handled |
| GmailArchive.CursorLosesNothing | internal/sync/gmailapi_sync.go:175-296 | and for each such message, from a first run on an empty archive: it was skipped by a rule, or its own row or one with its Message-ID is there and readable, unless retention deleted it |
| GmailArchive.HistoryIsBoth | internal/sync/gmailapi_sync.go:175-296 | each such history is a history of the cursor and a run of the archive at once |
| GmailSync.UnhandledIsListed | internal/sync/gmailapi_sync.go:352-421 | whatever is unhandled is on the next run's list, by history walk or full listing |
| GmailSync.RunReachesPresentIff | internal/sync/gmailapi_sync.go:175-296 | at any point of a run without faults, over any number of pages and with arrivals and deletions in between: the list is exactly what arrived since the cursor, and the run moves the cursor on exactly when no message it still has to fetch was deleted; otherwise the cursor stays |
| GmailSync.DeletedMailHoldsCursor | internal/sync/gmailapi_sync.go:191-200 | a deleted message at or beyond the cursor holds the cursor up through every history, until the cursor expires |
| GmailSync.ExpiredCursorRecovers | internal/sync/gmailapi_sync.go:352-395 | when the cursor has expired, the profile and a full listing of any number of pages bring the run to handle everything in scope, and the cursor to the moment before the listing, if nothing listed is deleted meanwhile |
| GmailSync.SnapshotPagesWouldLoseMail | internal/sync/gmailapi_sync.go:397-421 | if history pages were a snapshot with current ids, an arrival in between would be passed over |
| GmailSync.ListHistoryMessageIDs | internal/sync/gmailapi_sync.go:397-421 | every id of every page and no other, each page's ids in the place the earlier pages leave for them, and the last history id that a page carries, or the start; nothing when a page fails |
| GmailSync.ListingIsWalk | internal/sync/gmailapi_sync.go:397-421 | when the pages report the arrivals between successive cuts, the loop is in step with the history walk of the cursor system after every page |
| GmailSync.ListingEndsWalk | internal/sync/gmailapi_sync.go:352-365 | and the run goes on to handle exactly the returned list, all that arrived from the cursor to the last cut, towards the returned history id |
| GmailSync.Account.ProcessBatch | internal/sync/gmailapi_sync.go:175-296 | the cursor is written only after a clean batch; a failure leaves it as it was |
| GraphSync.LinksAndCountsHold | internal/sync/msgraph_sync.go:171-206 | no delta link passes unhandled mail, no report is counted twice, counted reports lie before their folder's link, and every rule counter is exact |
| GraphArchive.LinksLoseNothing | internal/sync/msgraph_sync.go:232-336 | every message reported before a stored delta link was skipped by a rule, or its own row or one with its Message-ID is there and readable, unless retention deleted it |
| GraphArchive.HistoryIsBoth | internal/sync/msgraph_sync.go:232-336 | each such history is a history of the links and a run of the archive at once |
| Ledger.KnownIff | internal/sync/msgraph_sync.go:281-300 | the loop can pass over a message as known exactly when a row of its account has its Message-ID |
| Ledger.UnknownCanCommit | internal/sync/msgraph_sync.go:302-312 | and any other message can be archived, if its UID and its name are free |
| GraphSync.CountedTallies | internal/db/repo/rules.go:86-104 | recording a batch of matches adds exactly that batch to the counters |
| GraphSync.FolderPassRun.SyncOneFolder | internal/sync/msgraph_sync.go:233-342 | the link moves to the end of the page chain exactly when every message of it was handled and the write committed; the matches noted are exactly the messages passed over that are still there and that a rule matches, with that rule, each once |
| GraphSync.RecordingRaises | internal/sync/msgraph_sync.go:189-206 | recording the run raises each rule's counter by what earlier folders noted and by the number of messages it matched in this one |
| GraphSync.FolderPassRun.HandlePage | internal/sync/msgraph_sync.go:238-336 | a page is done exactly when every report that is not a deletion can be handled |
| GraphSync.FolderPassRun.HandleOne | internal/sync/msgraph_sync.go:238-336 | deletion stubs are passed over; a failing message ends the pass with the link untouched |
| MailImport.Importer.ImportOne | cmd/marchi/cmd_import.go:135-169 | a message is archived, a duplicate or failed; only an archived one uses up its UID, and adds its row, created now, and with mirroring its queue row |
| MailImport.Importer.Import | cmd/marchi/cmd_import.go:131-172 | with free UIDs and no fault everything with a Message-ID ends up present; with the first UID taken nothing is archived; the added rows are messages of the walk under their own names, created now |
| MailImport.ImportTwice | cmd/marchi/cmd_import.go:56-60 | a second import archives exactly the messages without a Message-ID |
| FolderMove.NextManualMoveUid | internal/db/repo/emails.go:383-393 | the highest move UID of the folder plus one in 32 bits, or the base |
| FolderMove.NextUidUnusedIff | internal/db/repo/emails.go:380-393 | that UID is unused exactly until it wraps onto a row with UID 0 |
| FolderMove.UidsNeverCollide | internal/db/repo/emails.go:368-377 | under any interleaving of syncing, moving and deleting, no insert and no move is ever refused and no two rows of a folder share a UID |
| FolderMove.OfferedHappens | internal/db/repo/emails.go:368-377 | each of them takes effect, on its own row alone |
| FolderMove.MoveKeepsFilesIff | internal/httpapi/emails.go:420-449 | exactly when a move, or its failure at any point, leaves every local row with its file |
| FolderMove.Mailboxes.MoveEmail | internal/httpapi/emails.go:420-449 | the file first, then the row, and the file back again when that fails; success puts the same file name into the target directory and the row under folder, UID and that path |
| SingleWriter.WriterLaw | internal/db/writer/writer.go:60-109 | transactions are serial and in hand-over order, each request runs at most once; nil from Do means committed, ErrClosed means never run, and a waiting caller is being served or has its answer |
| SingleWriter.OneOutcome | internal/db/writer/writer.go:92-109 | a request that committed did not also abort |
| SingleWriter.FailureRollsBack | internal/db/writer/writer.go:92-109 | a request whose BEGIN or whose function fails is never committed, in any continuation |
| SingleWriter.CommittedByCommit | internal/db/writer/writer.go:104-108 | nothing commits but by a commit that took effect |
| SingleWriter.SendNeverBlocks | internal/db/writer/writer.go:84-87 | the goroutine can always deliver its answer, also when the caller has given up |
| SingleWriter.CloseIsFinal | internal/db/writer/writer.go:111-120 | after Close returned every accepted request has ended and has its answer, nobody is stuck, and nothing runs any more |
| SingleWriter.ContextErrorThoughCommitted | internal/db/writer/writer.go:72-77 | Do may report the context's error although its transaction committed |
| SingleWriter.AcceptedAfterClosing | internal/db/writer/writer.go:80-90 | a request can be accepted after the channel was closed |
| SingleWriter.ClosesApartNeverPanic | internal/db/writer/writer.go:111-120 | any number of Close calls that do not overlap between check and close never close the channel twice |
| SingleWriter.OverlappingClosesPanic | internal/db/writer/writer.go:111-117 | from the start, two that do overlap there panic |
| Mbox.RoundTrip | internal/importer/mbox.go:33-83 | importing an export gives one message per entry, in order, whatever the contents |
| Mbox.ByteForByteIff | internal/httpapi/export.go:276-309 | a message comes back byte for byte exactly when no line ends in CR LF and the last line is terminated |
| Mbox.EscapedReadsBack | internal/importer/mbox.go:85-110 | no escaped line reads as a separator, and unescaping gives the line back, one trailing CR dropped |
| Mbox.FromPatternIs | internal/importer/mbox.go:85-110 | the lines that are escaped are those of any number of ">" followed by "From " |
| Mbox.WriteMboxEntry | internal/httpapi/export.go:282-309 | the scanning loop writes envelope, escaped lines and the blank line |
| Mbox.WalkMbox | internal/importer/mbox.go:33-83 | calls back for the messages of the file in order, and not again after its first failure |
| LruCache.ServeIsRecencyPrefix | internal/s3store/cache.go:71-139 | after any requests the cache holds exactly the longest most-recent-first prefix that fits the budget |
| LruCache.RecencyIs | internal/s3store/cache.go:71-121 | most recent first means: every key ever asked for, each before those whose last use is earlier |
| LruCache.LargerBudgetKeepsHits | internal/s3store/cache.go:130-139 | a larger budget never turns a hit into a miss |
| LruCache.FitIsLongest | internal/s3store/cache.go:94-121 | what eviction keeps fits the budget, and no longer prefix does |
| LruCache.TornWriteHarmlessIff | internal/s3store/cache.go:99-102 | a failed cache write does harm exactly when its key is listed and the content it leaves is wrong |
| LruCache.Cache.Evict | internal/s3store/cache.go:130-139 | the eviction loop keeps the longest fitting prefix, curBytes its weight, and the files of what it keeps |
| LruCache.Cache.Put | internal/s3store/cache.go:99-121 | lists the key first and evicts; a failed write leaves the bookkeeping alone |
| LruCache.Cache.Get | internal/s3store/cache.go:71-92 | a hit moves the key to the front; a vanished file drops it |
| LruCache.Cache.Remove | internal/s3store/cache.go:141-150 | map, list and byte count drop the key together |
| LruCache.Cache.Load | internal/s3store/cache.go:165-188 | returns what a direct download of the unchanging object gives, and on a miss caches it |
| MasterKey.OneDekForever | internal/security/masterkey/masterkey.go:162-255 | in any history of unlocks and password changes, each dying at any write, every success works with one and the same DEK |
| MasterKey.HealthyOpensIff | internal/security/masterkey/masterkey.go:102-155 | a healthy store opens with its password and no other, and opening changes nothing |
| MasterKey.ChangeKeepsDek | internal/security/masterkey/masterkey.go:217-257 | a password change keeps the DEK and retires the old password; a wrong one changes nothing |
| MasterKey.InterruptedChangeOpensIff | internal/security/masterkey/masterkey.go:206-257 | a change that dies can be opened again, by any password, exactly when it died before the first rename or after the last |
| MasterKey.RewrapNeverTruncates | internal/security/masterkey/masterkey.go:231-257 | a change leaves each of the three files with its old or its new content, wherever it dies |
| MasterKey.InterruptedFirstRunOpensIff | internal/security/masterkey/masterkey.go:102-199 | a store whose first run died can be opened again, by any password, exactly when it died before leaving anything, or between verifier and DEK with nothing truncated, or when it was finished |
| MasterKey.ReplyIs | internal/security/masterkey/masterkey.go:102-199 | which error a store that does not open reports: too short, incorrect, corrupted, unwrapping failed, or a failed write, and exactly when |
| MasterKey.ChangeReplyIs | internal/security/masterkey/masterkey.go:217-230 | a too short new password is refused and a failure to open is passed on, with nothing rewritten |
| MasterKey.DeadStays | internal/security/masterkey/masterkey.go:139-171 | a store that opens with no password stays that way, untouched |
| MasterKey.UnlockKeeps | internal/security/masterkey/masterkey.go:102-155 | every reachable store is fresh, verified without a DEK, healthy or dead |
| MasterKey.KeyStore.WriteFile | internal/security/masterkey/masterkey.go:263-272 | a write that succeeds leaves the new content; a rename that fails leaves the old one, a plain write that fails the old one or a truncated file; no other file changes |
| MasterKey.KeyStore.UnlockKey | internal/security/masterkey/masterkey.go:102-155 | checks the length, then bootstraps or verifies |
| MasterKey.KeyStore.Open | internal/security/masterkey/masterkey.go:162-199 | unwraps the DEK or creates it on first use |
| MasterKey.KeyStore.Change | internal/security/masterkey/masterkey.go:217-257 | the three renames in their order, stopping at the first failure |
| Rules.ValidateIff | internal/rules/rules.go:54-115 | a tree passes validation exactly when it writes down a condition with non-empty groups nested at most three deep and every leaf value understood |
| Rules.EvaluateMeans | internal/rules/rules.go:122-192 | evaluating such a tree gives its and/or meaning, in which no leaf can fail to parse |
| Rules.DomainIs | internal/rules/rules.go:215-218 | the domain of an address is what follows its first "@", compared without regard to case; an address without one has none |
| Rules.UnreadableIsFalse | internal/rules/rules.go:144-213 | a leaf of an unknown kind, or whose value does not compile or parse, matches nothing |
| Rules.RebuiltIsLiveIff | internal/rules/dryrun.go:24-65 | the dry-run candidate is the live one exactly when every address survives printing and parsing and the date is a whole second |
| Rules.DryRunAgrees | internal/sync/fetch.go:332-349 | a dry run of any tree then answers what the live evaluation answered |
| RuleOrder.WinnerIsLeast | internal/rules/rules.go:228-241 | the first match over the active rules is the matching one with the lowest priority and among those the lowest id, and there is none exactly when none matches |
| RuleOrder.ListingExists | internal/db/repo/rules.go:150-168 | every table has such an ordered listing |
| RuleOrder.ReorderedWinner | internal/httpapi/rules_ui.go:344-353 | after reordering by a duplicate-free list of all rules, the winner is the first of that list that is active and matches |
| RuleOrder.RulesTable.Reorder | internal/httpapi/rules_ui.go:344-353 | each listed rule gets its last position for its priority, all others stay as they are, unknown ids are passed over, and a failing update leaves exactly the earlier ones in place |
| TailFile.AgreeIff | internal/logging/reader.go:54-91 | for the program's chunk size or any other, the backward reading gives the last n lines for every n exactly when the file has no blank line at its end, or is nothing but newlines, or fits into one read, or has one blank line at its end and every chunk boundary right after a newline |
| TailFile.ChunkedIsTail | internal/logging/reader.go:68-91 | wherever chunk boundaries fall, the result is the last n lines |
| TailFile.TailIs | internal/logging/reader.go:82-91 | the last n lines of a file of given lines are the last n of those, or all when there are no more |
| TailFile.CutsReadRight | internal/logging/reader.go:68-91 | one blank line at the end does no harm when the chunk boundaries split no line |
| TailFile.Loses | internal/logging/reader.go:68-84 | every other file is read wrong for some n |
| TailFile.LongLineIsCut | internal/logging/reader.go:38-91 | with 64 KiB reads, a line of 64 KiB and a blank line after it come back cut |
| TailFile.Tail | internal/logging/reader.go:54-91 | the loop ends and returns that |
| CronRefresh.ScheduleIsExact | internal/scheduler/scheduler.go:215-268 | account syncs in cron are exactly the wanted accounts with a valid expression, each once, under its wanted expression |
| CronRefresh.Scheduler.Refresh | internal/scheduler/scheduler.go:218-268 | whatever the iteration order: exactly the wanted accounts, unchanged ones keep their entry, other jobs are left alone, and a second refresh changes nothing |
| CronRefresh.Scheduler.Want | internal/scheduler/scheduler.go:242-260 | one account is kept, replaced, added, or dropped on an invalid expression |
| CronRefresh.WantedIff | internal/scheduler/scheduler.go:227-237 | an account is wanted exactly when it is active |
| CronRefresh.WantedUnder | internal/scheduler/scheduler.go:227-237 | under its own schedule, or the default one when that is empty |

## Left out

- ArchiveQueue.QueueLaw: states safety only; a row left `uploading` by a kill is never claimed again, so no upload is promised to happen.
- ArchiveMirror.MirrorSurvives: says nothing about emails without a Message-ID, which retries can archive twice under one key (`ArchiveLimits.BlankTwinsShareKey`).
- ArchiveHistory.NothingArchivedIsLost: without a Message-ID the row stays (`RowStays`) and so does a local file; that its S3 object stays is not promised, for the same reason.
- LruCache.Cache.Load: operations are atomic; the file reads and writes outside the mutex are not interleaved.
- MasterKey.OneDekForever: one operation at a time; two processes on an empty directory are not modelled.
- Retention.Runner.Pass: cutoffs are given per number of days and timestamps compared as numbers; SQLite compares text, and how the driver prints s3_only_since is not part of this model. A failed listing counts as failed transactions.
- SingleWriter.WriterLaw: `Do` called inside a transaction function, which would wait for itself, is not modelled.
- TailFile.Tail: a file that changes while it is read.
- User deletion and account deletion: they remove the object before the row, outside the lifecycle modelled here.
- Power loss that reorders directory updates: a kill keeps every file operation already done.
- IMAP, Gmail, Graph, S3 and SMTP wire code, MIME parsing and the search index: foreign calls, seen through what they return.
- The loop over an account's folders in SyncAccount, and the uploader's dispatch loop with its worker pool: they start the runs and jobs modelled here one after another or side by side.
- IMAP and Gmail rule statistics: a failed run may count a message again, so exact counting is stated for Graph only.
- A message that really carries a placeholder id of the form the program gives to messages without one.
- Attachments rows, attachment uploads, progress events, notifications, backoff delays, HTTP handlers, CLI plumbing, configuration, sessions and backup.
- mbox lines over 64 MB and read or write errors of the underlying stream.
- Retrying of a Gmail message that `messages.get` no longer knows: nothing is retried within a run, as in the code.
