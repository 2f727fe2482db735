# tlsrpt-digest: a verified model

tlsrpt-digest fetches SMTP TLS report mails over IMAP, keeps them and their reports in a store
directory, and sends alerts and summaries to Slack. This project models, in Dafny, the parts whose
correctness depends on the order of steps and on what a crash leaves behind, and proves what they
are for. `dafny verify dfyconfig.toml` checks everything.

## Modules

| file | models |
|---|---|
| Types, Sequences, Reports, Messages | report, mail and index values; the indexed upsert of reports, first-wins index entries, files saved per message |
| Disk | the store directory, its atomic file operations, when the reset protocol allows each, the abstract store they implement, the inductive invariants |
| ResetRuns | what holds along every run of allowed operations |
| FileStore | the store's methods and the recover, fetch and maintenance commands as imperative code over that disk, with a crash possible before every operation; each method is proved to issue only allowed operations |
| SummaryGuard | writers and summaries interleaved step by step |
| Boot | the store lock, the shared guard and the order in which a command takes them |
| FetchRun, FetchReplay | fetch steps 6 to 13 under crashes and failed flushes, and crash equivalence |
| EmailGc, EmailPaths, Reprocess | deleting old emails, the file names, rebuilding index and reports from files |
| Mime | the recursive attachment reader against a flat reading of the part tree |
| Retry, SlackBuffer, Alerts | the retry loop, the snapshot buffer, the message layout and failure-detail totals |
| ImapSession | the client's session against a server on which others may act |

## How the reset protocol is proved

A run is the list of atomic operations that reached the disk, whatever commands issued them. `Disk`
says when the protocol allows an operation (`Allowed`) and gives an abstract store (`Abs`) that has
no staging, no manifest and no crash. Every allowed operation keeps the invariant and is one step of
the abstract store; the lemmas of `ResetRuns` follow for whole runs. `FileStore` carries a ghost
trace of the operations it issued. Every command is proved to extend it by allowed operations only,
however it ends; when manifest removals take effect, also to make root files and declare recoveries only
where no manifest has to go first (`Disciplined`, with `ManifestsRemoved`); and to change the recovery only
while it holds the summary guard exclusively (`Do`). That is what the run lemmas start from and what
SummaryGuard asks of a writer, so both speak about the code's own runs (`FileStore.Lifetime`).
`FileStore.CrashesConverge` is the convergence of repeated crashed resets.

### Fault model

- A crash may fall between any two atomic operations. Rename and atomic write are atomic. RemoveAll
  is a series of single removals in any order.
- An operation whose error the code returns ends the command, so on disk it equals a crash there.
  Removals that the code tolerates may fail without ending it: staging removals (`stagingSticks`) and
  manifest removals (`manifestSticks`).
- `Lifetime`, `CrashesConverge`, `RunNeverStranded`, `BlocksExactlyWhilePending` and SummaryGuard assume
  that manifest removals take effect; staging removals may fail there. Without it `ResetRuns.StrandedIsReachable` shows what can happen, and
  `ResetForRecovery` states exactly when it does harm: see below.
- Servers issue a non-zero UIDVALIDITY (nz-number in section 9 of RFC 3501). `ResetForRecovery` is
  called as recover calls it: with the sentinel's curr, or with 0 when no recovery is recorded.
- gc and reprocess appear in reset runs as arbitrary edits after their recovery check; their own
  logic is in EmailGc and Reprocess.

## Properties that hold only under a condition

Each has the exact condition, proved in both directions.

- **A manifest that cannot be removed.** `Open` only logs when it cannot remove a manifest of a reset
  that has committed, and goes on to make root files. If that manifest is still in phase 1 (a crash in
  the commit window), `recover --mode discard-old --yes` later calls `ResetForRecovery(0)`, which resets
  the store though no recovery is recorded. A finished run then preserves the store if and only if its
  live content was empty (last clause of `FileStore.ResetForRecovery`).
- **Fetch crash equivalence when UID STORE is split.** If the server flags messages one at a time, a crash in
  between makes the next run resend only the rest, last wins, and the stored reports may differ from those
  of one uninterrupted run. They never do if and only if no two messages carry one report ID with
  different content (`FetchReplay.ResendKeepsReportsIff`). If UID STORE is all or nothing there is no condition.
- **Failure-detail totals.** The report decoder accepts negative counts. Sessions shown plus "Other" equal the
  original sum if and only if the entries past the third and past the tenth do not sum below zero
  (`Alerts.ShowAlert`).
- **A second reprocess changes nothing** if and only if no unindexed file in a month directory that does not
  parse stands beside a dated file of the same email (`Reprocess.SecondRunIff`), as 1/x/1.eml beside
  1/202605/1.eml (`Reprocess.TwinsExist`).
- **Backoff.** No sleep is negative if and only if no reachable shift wraps to a negative int64
  (`Retry.SleepsNonNegativeIff`); below a base of 2^33 ns none does, at 2^33 ns one can.
- **File names.** LoadEmails accepts names that buildEmailPath would not give; re-indexed from such a file, gc
  looks elsewhere. The names agree if and only if the name is canonical (`EmailPaths.RebuiltIffCanonical`);
  1/202605/1.eml is not (`EmailPaths.NotCanonical`).

## Where the code and its documentation differ

The model follows the code.

- `docs/dev/adr/0003_reset_phase_design.md:137-138`: for a stale manifest, and for phase 4 or no recovery,
  the table lets the read-write open clean up before `discard-old --yes`. The code opens with OpenRecoverReset,
  which cleans nothing. A stale manifest is removed by ResetForRecovery itself; with no recovery and a
  phase-4 manifest the command prints that no recovery is required, exits 1 and leaves the leftovers
  (`FileStore.RunRecover`, through `SteadyRecover`).
- `docs/dev/developer_guide/process_locking.md:188`: ApplyRecovery is said to refuse when a manifest is present;
  the code refuses only for phase 1 (`FileStore.ApplyRecovery`).
- `internal/store/emails.go:306-308`: directories that a crash after the index write leaves empty are not visited
  again by later gc runs; EmailGc.GcHeals promises files and index, not directories.

## Model

| member | source | states |
|---|---|---|
| Disk.StepKeepsInv | internal/store/recovery.go:294-320 | Inductive step of the disk invariant: no rename ever meets a file that is already staged, a write-ahead manifest that outlived its recovery names the committed epoch, a recovery leads from the recorded epoch to another one |
| Disk.StepRefines | internal/store/recovery.go:457-599 | Each atomic file operation the protocol allows is one step of an abstract store in which a reset is a single indivisible change |
| Disk.PendingEndsByCommit | internal/store/recovery.go:583-599 | A pending reset ends with the sentinel write of its commit and in no other way |
| ResetRuns.RunKeepsInv | internal/store/recovery.go:457-599 | The invariant holds at every moment of every run, so at every crash point |
| ResetRuns.RunRefines | internal/store/recovery.go:457-599 | Every operation of every run, crashes included, refines the abstract store: staging files, manifests and crashes are invisible in it |
| ResetRuns.UidValidityMovesAtomically | internal/store/recovery.go:424-452 | In every run uid_validity leaves a value v only in the one sentinel write that clears a recovery from v to the new value |
| ResetRuns.RecoveryFreezesStore | internal/store/recovery.go:561-581 | While a recovery is recorded the live content stays the same, although renames move the files and crashes fall anywhere |
| ResetRuns.KeepOldPreservesData | internal/store/recovery.go:424-452 | Between the declaration of a recovery and a keep-old commit, tlsrpt.json and emails/ in the root do not change, and no write-ahead manifest stands at the commit |
| ResetRuns.ContentChangesOnlyByWriterOrCommit | internal/store/recovery.go:490-495 | Live reports or emails change only by a save of a writer that found no recovery, or by the commit of a pending reset |
| ResetRuns.PendingResetCommits | internal/store/recovery.go:583-599 | If a reset was pending at some moment and no longer is, its commit lies in between and discarded exactly the content live at that moment |
| ResetRuns.StagedDataWasDiscarded | internal/store/recovery.go:104-117 | In every run from the empty directory: reports found in staging outside a pending reset are those a commit discarded, so wiping staging loses nothing live |
| ResetRuns.StagedEmailWasDiscarded | internal/store/recovery.go:104-117 | The same for every email found in staging outside a pending reset |
| ResetRuns.MismatchedManifestWasCommitted | internal/store/recovery.go:143-237 | In every run from the empty directory: a phase-1 manifest that is not that of the recorded recovery is the manifest of a reset that has committed |
| ResetRuns.EmailsBelongToAnEpoch | cmd/tlsrpt-digest/fetch.go:178-208 | Every stored email lies under a UIDVALIDITY the sentinel had recorded at some moment up to then |
| ResetRuns.RunNeverStranded | internal/store/recovery.go:143-237 | In every run whose manifest removals take effect before root files are made (ManifestsRemoved, which FileStore.Lifetime gives of the commands): a phase-1 manifest without a recovery never stands beside tlsrpt.json or emails/, and a manifest beside a recovery belongs to it |
| ResetRuns.StrandedIsReachable | internal/store/recovery.go:143-237 | Counterexample for the logged removal failure: an allowed run after which a fresh report stands beside a committed phase-1 manifest |
| FileStore.BlocksExactlyWhilePending | internal/store/recovery.go:143-237 | On every disk such a run from the empty directory reaches, the read-write open refuses if and only if a reset is uncommitted |
| FileStore.FileStore.Do | internal/store/recovery.go:245-256 | One atomic operation or a crash before it; a write that changes recovery_required is issued only while the guard is held exclusively |
| FileStore.FileStore.RemoveStaging | internal/store/recovery.go:104-117 | RemoveAll as single removals in any order, stoppable anywhere: only staging changes, and the protocol allows it exactly because no reset is pending |
| FileStore.FileStore.CleanupCompletedReset | internal/store/recovery.go:143-237 | Fails with ErrPendingReset exactly when the manifest has no sentinel or names the recorded recovery; otherwise touches only staging and manifest and tolerates failed removals |
| FileStore.FileStore.Open | internal/store/store.go:166-244 | Per mode: what is created (an absent data file becomes one with no reports and no index, an absent emails/ an empty directory), when it refuses (both directions), and that no open, crashed or not, changes the abstract store |
| FileStore.FileStore.SaveUidValidity | internal/store/recovery.go:340-353 | From every sentinel state the whole new disk, read-only refusal exactly in read-only mode; after what fetch has checked it keeps invariant and discipline |
| FileStore.FileStore.SaveRecoveryRequired | internal/store/recovery.go:368-387 | From every sentinel state and for every pair the whole new disk, in one guarded write; after what fetch has checked it keeps invariant, discipline and live content |
| FileStore.FileStore.ApplyRecovery | internal/store/recovery.go:424-452 | keep-old: one write that carries out the abstract KeepOld, refused exactly while a phase-1 manifest stands, and a refusal or crash changes nothing |
| FileStore.FileStore.RemoveStaleCommittedManifest | internal/store/recovery.go:124-132 | Removes staging before the manifest; until the manifest is gone a rerun starts over |
| FileStore.FileStore.InitResetManifest | internal/store/recovery.go:92-118 | The error of each wrong call (both directions), stale staging gone before the write-ahead manifest appears, and nothing else changed |
| FileStore.FileStore.AdvanceResetPhases | internal/store/recovery.go:561-581 | From any layout a crash leaves it either dies with the old data still live or commits; a rename fails only outside a pending reset |
| FileStore.FileStore.StageDataFile | internal/store/recovery.go:294-304 | The rename on the disk, an absent file no error; the abstract store does not notice |
| FileStore.FileStore.StageEmailsDir | internal/store/recovery.go:307-317 | The rename on the disk; it cannot fail inside a pending reset, because its target is then never a directory with files |
| FileStore.FileStore.CommitReset | internal/store/recovery.go:583-599 | The three disks a crash in the commit window can leave |
| FileStore.FileStore.ExecuteResetFromManifest | internal/store/recovery.go:535-556 | A finished run leaves an empty store at curr; failed staging removal is no error, failed manifest removal is |
| FileStore.FileStore.ResumeOrCleanupCommitted | internal/store/recovery.go:514-530 | A phase-4 manifest is cleaned up and a recovery declared since is then reset afresh |
| FileStore.FileStore.ResetForRecovery | internal/store/recovery.go:457-507 | As recover calls it: every stop leaves the old store or the committed empty one; a finished reset leaves an empty store; called with 0 on a phase-1 manifest the store survives if and only if its live content was empty |
| FileStore.FileStore.RunRecover | cmd/tlsrpt-digest/recover.go:26-149 | What every mode does from every disk when undisturbed (exit code and whole disk), and when crashed: the abstract store is unchanged, kept or discarded, never anything else |
| FileStore.FileStore.RunFetch | cmd/tlsrpt-digest/fetch.go:73-208 | Fails closed on a recovery, declares one exactly on a changed UIDVALIDITY without touching content, and otherwise leaves the content with the new emails, index entries and reports; each new message has an entry of its own date, and its file is where that entry leads |
| FileStore.FileStore.RunMaintenance | cmd/tlsrpt-digest/gc.go:36-80 | gc and reprocess change nothing when a recovery is recorded, and never touch recovery or uid_validity |
| FileStore.FileStore.Lifetime | internal/store/recovery.go:143-237 | Any sequence of fetch, gc, reprocess and recover commands, each crashing anywhere, keeps the invariants, and its trace meets what the run lemmas and SummaryGuard ask of writers: allowed operations only, and no root file or recovery while a manifest has to go first |
| FileStore.FileStore.CrashesConverge | docs/dev/adr/0003_reset_phase_design.md:118-118 | Any number of confirmed discard-old runs crashed anywhere, then one undisturbed and the next read-write open: no reports, no index, no emails, the sentinel at the recorded curr without a recovery, no manifest, no staging |
| SummaryGuard.ActionKeepsInv | internal/store/recovery.go:245-256 | Every interleaved step of writers and summaries keeps: the guard is exclusive or shared, and a summary that found no recovery still finds none |
| SummaryGuard.RecoveryConstantUnderGuard | internal/store/recovery.go:629-653 | recovery_required is constant from acquiring the shared guard to closing it, under every interleaving |
| SummaryGuard.NoResetStepUnderSummary | cmd/tlsrpt-digest/summary.go:28-77 | After a check that found no recovery, only a writer's own save changes tlsrpt.json until the guard closes, although renames take no guard; writers do what FileStore.Do and FileStore.Lifetime prove of the commands |
| SummaryGuard.SummaryAggregatesLiveReports | cmd/tlsrpt-digest/summary.go:28-77 | What a summary aggregates is the live data file of that moment |
| SummaryGuard.SummaryGoesThrough | cmd/tlsrpt-digest/summary.go:28-77 | Without a recovery and with no writer in the guard, a summary can open, check, aggregate and close in turn, and what it aggregates is the live data file |
| SummaryGuard.SummaryRefuses | cmd/tlsrpt-digest/summary.go:28-77 | With a recovery recorded the check finds it and the summary cannot aggregate |
| SummaryGuard.WritersExclude | internal/storelock/storelock.go:35-48 | Between one writer's lock and its exit every write is its own |
| SummaryGuard.UnguardedSummaryMisses | internal/store/recovery.go:245-256 | Why the guard is needed: for every data file there is a run in which an unguarded check passes and tlsrpt.json then reads empty while that file is live in staging |
| Boot.Acquire | internal/storelock/storelock.go:35-48 | Succeeds exactly when the lock file opens and nobody holds the lock, reports ErrLockHeld exactly on a held lock, and a failure leaves it alone |
| Boot.FlockHandle.Close | internal/storelock/storelock.go:54-68 | Idempotent: a closed handle cannot release a lock taken since by somebody else |
| Boot.BootContext.Bootstrap | cmd/tlsrpt-digest/boot.go:150-243 | Succeeds exactly when what it needs opens and, for a writer, the lock is free; which lock each command then holds (both directions), and that a failure at any step leaves none behind |
| Boot.BootContext.Close | cmd/tlsrpt-digest/boot.go:41-55 | Gives back exactly the locks held, and only those |
| Boot.LockIsExclusive | cmd/tlsrpt-digest/boot.go:284-298 | A second writer cannot start while the first holds the lock, whatever stale handles are closed in between |
| FetchRun.Tool.BuildFetchStates | cmd/tlsrpt-digest/fetch.go:211-226 | One state per message with its flag and whether its file was there before the run |
| FetchRun.Tool.FetchDownloadAndSave | cmd/tlsrpt-digest/fetch.go:228-265 | Stopped anywhere, the files of a prefix of the messages have been saved; finished, all of them, and each raw mail in memory is that of its file |
| FetchRun.Tool.FetchCollectReports | cmd/tlsrpt-digest/fetch.go:267-300 | A report is collected, and a note buffered, exactly when some message that was not both SEEN and stored before carries the one or is owed the other; read from the stored files, in order |
| FetchRun.Tool.ProcessAttachments | cmd/tlsrpt-digest/fetch.go:303-324 | In the attachments' own terms, both ways: every report found, a warning for every malformed attachment, an alert for every failing policy of an unseen message, and nothing else |
| FetchRun.Tool.Flush | internal/notify/handler.go:102-118 | The buffer is dropped either way; only a success has delivered all of it |
| FetchRun.Tool.FetchMarkSeen | cmd/tlsrpt-digest/fetch.go:402-419 | Marks the messages that were unseen, all of them when it finishes on a writable mailbox, and keeps every acknowledgement |
| FetchRun.Tool.Fetch | cmd/tlsrpt-digest/fetch.go:73-171 | At-least-once over whole runs (AtLeastOnce, spelled out in MarkedIsReported); finished, whatever was not both SEEN and stored before has its reports saved and its notes delivered, every message is marked, and each new one has an entry of its own date that leads to its file; however it ends, nothing else is saved, delivered, marked or stored, and no stored file changes |
| FetchRun.Tool.MarkedIsReported | cmd/tlsrpt-digest/fetch.go:303-324 | What a \Seen flag of this tool means: the file is stored and indexed; an unreadable message and each malformed attachment have had their warning; each report has been saved, its ID is in the store, and each failing policy of it has had its alert |
| FetchRun.NotesAreDue | cmd/tlsrpt-digest/fetch.go:267-324 | Which notes a message is owed, in its own fields and in both directions |
| Messages.EntriesLeadToFiles | cmd/tlsrpt-digest/fetch.go:347-359 | A message that was not indexed gets an entry with its own date, and the path gc rebuilds from that entry is where its file is |
| FetchRun.NotesAreDistinct | cmd/tlsrpt-digest/fetch.go:303-324 | Every alert and warning about a message is told apart by its place, so none hides behind another in the set of delivered ones |
| FetchReplay.FetchUntilDone | cmd/tlsrpt-digest/fetch.go:69-72 | Crash equivalence: while messages go on arriving, any number of failed runs and then one that completes leave the files, index and reports of a single uninterrupted run over all messages: every message's file, an entry of its own date for each new one, of each report ID the last attachment of the last message, and every message marked on a writable mailbox |
| FetchReplay.RunMovesOn | cmd/tlsrpt-digest/fetch.go:73-171 | One more run over the messages arrived so far, crashed or finished, never goes back in files, index, reports or marks; a finished one has done all of them |
| FetchReplay.ResendKeepsReportsIff | cmd/tlsrpt-digest/fetch.go:267-300 | If the server flags messages one at a time, the stored reports survive every partial MarkSeen if and only if no two messages carry the same report ID with different content |
| FetchReplay.DisagreementSurfaces | cmd/tlsrpt-digest/fetch.go:267-300 | For any two messages that disagree, the flags after which a rerun stores something else |
| Reports.SaveReports | internal/store/reports.go:56-81 | The last input of each ID is stored, other reports stay in place, nothing else comes in; and the loop with its position map computes the upsert of every input list |
| Reports.UpsertRefinesMap | internal/store/reports.go:56-81 | Read as a map from report ID, the upsert is a fold of last-wins map updates |
| Reports.UpsertKeepsIdsAndOrder | internal/store/reports.go:56-81 | IDs stay unique and existing reports keep their positions |
| Reports.UpsertUnchangedIff | internal/store/reports.go:56-81 | A save changes nothing if and only if every input's last version is what is stored |
| Reports.UpsertIdempotent | internal/store/reports.go:56-81 | Saving the same inputs again changes nothing |
| Reports.LastAttachmentCounts | cmd/tlsrpt-digest/fetch.go:303-324 | Of several attachments with one report ID the last one is what is looked up |
| Reports.SaveEmailMetas | internal/store/emails.go:71-101 | Rejects the whole batch if and only if an entry has a zero date; otherwise appends the entries with new keys |
| Reports.AddMetasFirstWins | internal/store/emails.go:71-101 | The old index stays a prefix, the keys are the union, nothing else is added |
| Reports.AddMetasIdempotent | internal/store/emails.go:71-101 | Saving the same entries again changes nothing |
| EmailGc.EmailStore.CountEmailsBefore | internal/store/emails.go:314-331 | The number of index positions dated before the cutoff by year, month and rest of the month, which is what a fault-free run collects; 0 for the zero cutoff |
| EmailGc.EmailStore.FilterInPlace | internal/store/emails.go:249-295 | The in-place filter on the shared array: survivors in front in order, collected files gone, refused files listed; stopped anywhere, the files of a prefix are gone |
| EmailGc.EmailStore.DeleteEmailsBefore | internal/store/emails.go:249-311 | Stopped anywhere or with any set of failing removals: no indexed file that remains loses its entry, and the index is the old or the final one; finished: exact files, index, count and failure list; finished without faults, in dates: entries and files of earlier months are gone, those of later months stay, and the cutoff's month is split at the cutoff |
| EmailGc.EmailStore.CleanupEmptyDirs | internal/store/emails.go:334-385 | A month directory that goes holds no file and an epoch directory no month, every file keeps its directories, directories that cannot be listed or removed are tolerated, and when finished no other touched directory is left empty |
| EmailGc.EmailStore.GcHeals | internal/store/emails.go:249-311 | After any number of crashed or failing runs, one that can remove the files reaches the files and index of a single uninterrupted run |
| EmailGc.CountMatchesDelete | internal/store/emails.go:314-331 | The dry-run count is the fault-free deleted count |
| EmailGc.FilterSplits | internal/store/emails.go:264-295 | Partition: survivors and collected together are all entries |
| EmailGc.SurvivingKeepsOrder | internal/store/emails.go:264-295 | Stability: each survivor lands at the number of survivors before it |
| EmailGc.FilterMembers | internal/store/emails.go:264-295 | Which entries each part holds, both directions |
| EmailGc.GoesByDate | internal/store/emails.go:268-290 | By year and month which entries and paths are collected |
| Types.Chronological | internal/store/emails.go:269-269 | Before is the order of years, then months, then the rest of the month, never both ways and never of itself |
| EmailGc.RefusedAre | internal/store/emails.go:264-311 | The failure list names exactly the due files that could not be removed |
| EmailGc.PartialRunHeals | internal/store/emails.go:249-311 | One failed run leaves what a later fault-free run collects unchanged in total |
| EmailPaths.PathRoundTrip | internal/store/emails.go:30-34 | Parsing a built path gives back uid, uidvalidity and month for every uint32 and year 0-9999, and rebuilding from the month-start fallback gives the same path |
| EmailPaths.PathsAreInjective | internal/store/emails.go:30-34 | Equal file names mean equal epoch, month and uid |
| EmailPaths.RebuiltIffCanonical | internal/store/emails.go:140-175 | A parsed path is rebuilt to itself if and only if it is canonical: no leading zero in the epoch, ten digits of uid |
| EmailPaths.NotCanonical | internal/store/emails.go:140-175 | A name LoadEmails accepts that buildEmailPath never gives |
| EmailPaths.BuiltName | internal/store/emails.go:30-34 | A name in full: epoch 1, May 2026, uid 1 is 1/202605/0000000001.eml |
| EmailPaths.MonthTextBack | internal/store/emails.go:235-246 | A month directory that parses is the one printed for its year and month |
| EmailPaths.PrintParsedIff | internal/store/emails.go:140-175 | A decimal epoch prints back to its text if and only if it had no leading zero |
| Reprocess.LoadEmails | internal/store/emails.go:104-205 | Each well-named message is loaded under the date of its last index entry or else the start of its month, nothing is loaded that is not a message in the walk, in walk order, and every file is loaded or counted as a failure |
| Reprocess.Run | cmd/tlsrpt-digest/reprocess.go:23-82 | Reports come from messages in the walk alone and those of every well-named one are there, no index entry is lost, and each well-named message has one; the effect is the one SecondRunIff speaks about |
| Reprocess.OrphanFoundAgain | cmd/tlsrpt-digest/reprocess.go:86-100 | A stored file without an index entry, the only one of its email, is indexed again, and every entry of its key has the file's own path, so gc deletes it at its true location |
| Reprocess.SecondIndex | cmd/tlsrpt-digest/reprocess.go:86-100 | A second run never changes the index |
| Reprocess.SecondRunChangesNothing | cmd/tlsrpt-digest/reprocess.go:23-82 | Without twins a second run changes neither index nor reports, whatever the files contain |
| Reprocess.SecondRunIff | cmd/tlsrpt-digest/reprocess.go:23-82 | A second run changes nothing for all file contents if and only if there are no twins: no unindexed file in an unparsable month directory beside a dated file of the same email |
| Reprocess.TwinsChangeSecondRun | cmd/tlsrpt-digest/reprocess.go:23-82 | For any twins, file contents with which the second run adds a report |
| Reprocess.TwinsExist | internal/store/emails.go:140-175 | Twins: 1/x/1.eml beside 1/202605/1.eml with an empty index |
| Mime.Extractor.DecodeContent | internal/mailparse/mailparse.go:185-220 | Stops with the size error exactly when the accumulated budget is exceeded; bytes of a body that is then dropped still count |
| Mime.Extractor.ExtractParts | internal/mailparse/mailparse.go:75-99 | One multipart: succeeds exactly when shallow enough, clean and within what is left of the budget, and then adds exactly its flat reading |
| Mime.Extractor.ExtractAttachments | internal/mailparse/mailparse.go:39-73 | In the leaves' own fields, both ways and in document order: the attachments are those of the leaves with a media type, a supported encoding and a readable body that are marked as attachment, or unmarked and named, each with media type, decoded content and file name; success if and only if content type, nesting (at most 11), endings and budget hold; each error has its cause; total returned <= accumulated <= maxBytes |
| Mime.ReturnedAreCounted | internal/mailparse/mailparse.go:185-220 | Returned bytes never exceed counted bytes |
| Mime.AttachmentPositions | internal/mailparse/mailparse.go:147-183 | Which leaves give an attachment and what each gives, in their own fields |
| Mime.BytesOfOne | internal/mailparse/mailparse.go:185-220 | Which leaves count against the budget, readable or not |
| Mime.LeavesInOrder | internal/mailparse/mailparse.go:75-99 | The leaves of a multipart are those of its parts, part by part |
| Mime.LevelsMean | internal/mailparse/mailparse.go:75-78 | A multipart is one level above its deepest part |
| Mime.CleanMeans | internal/mailparse/mailparse.go:83-99 | Clean means that every multipart in it was read to its end |
| Retry.PostWithRetry | internal/notify/retry.go:47-116 | In status codes: Sent exactly on a last reply of 2xx, ClientError exactly on its other codes below 500 except 429, Exhausted exactly on a failed request, 429 or 5xx, and every earlier reply is one of those three; each is followed by the wait it asked for, capped at 14 s, or by the backoff; it gives up only when attempts or the 14 s are used up; whether or not the context ends, at most RetryCount+1 posts and between 0 and 14 s of sleep; and the log is the session's, or a prefix of it when the context ends |
| Retry.RetryBound | internal/notify/retry.go:73-116 | For every server: at most RetryCount+1 posts, at most 14 s of sleep, no sleep without a later attempt, and the result is the verdict on the last reply while all earlier replies asked for a retry |
| Retry.ClassifyMeans | internal/notify/retry.go:128-164 | The verdict on a reply, in status codes and Retry-After seconds |
| Retry.LogMeans | internal/notify/retry.go:73-110 | What follows each retried reply: the wait it asked for, or the backoff of its attempt number |
| Retry.GivingUpMeans | internal/notify/retry.go:73-116 | A session gives up only after RetryCount retries, or when the next wait would exceed 14 s in all |
| Retry.BackoffIsCapped | internal/notify/retry.go:202-211 | Below 2^33 ns the int64 shift is exact: base times 2^n capped at 14 s |
| Retry.SleepsNonNegativeIff | internal/notify/retry.go:202-211 | All sleeps of all sessions are non-negative if and only if no reachable backoff has wrapped negative |
| Retry.LimitIsSharp | internal/notify/retry.go:199-211 | At a base of exactly 2^33 ns the shift by 30 wraps to the smallest int64 |
| ImapSession.Client.SelectMailbox | internal/imap/client.go:311-318 | lastSelectReadOnly follows every successful selection, so it still implies that no read-write selection is open |
| ImapSession.Client.MarkSeen | internal/imap/client.go:285-307 | \Seen of each named message is set and nothing else of any message changes, or some of them when it fails; it succeeds on a server that stays up and grants the selection, and removes nothing |
| ImapSession.Client.DeleteOlderThan | internal/imap/client.go:333-378 | Without other clients a success removes exactly the messages dated before the cutoff day and leaves the others as they were; it succeeds on a server that stays up and grants the selection; a failure removes no others |
| ImapSession.Client.Close | internal/imap/client.go:126-147 | Closing removes nothing, because CLOSE is sent only after a read-only selection |
| ImapSession.Client.WholeSession | internal/imap/client.go:126-396 | No collateral expunge over any calls, failures and foreign changes: every message this session removed had its UID in a DeleteOlderThan search |
| Alerts.LogAlert | internal/notify/helpers.go:23-66 | Totals over the whole list whatever the input totals, and the first ten of some descending permutation of the entries |
| Alerts.BuildFailureDetailsText | internal/notify/format.go:378-427 | The first three entries; an other-line exactly when more are counted, with the count beyond three and the sessions not shown, never negative |
| Alerts.ShowAlert | internal/notify/format.go:378-427 | Through sort, cap and display entries are conserved, and sessions if and only if the cut tails do not sum below zero |
| Alerts.ShownAreLargest | internal/notify/helpers.go:37-66 | No entry left out exceeds one that is shown |
| Alerts.CountsConserve | internal/notify/helpers.go:37-66 | Non-negative counts always conserve the session total |
| Alerts.NegativeCountBreaksTotals | internal/notify/helpers.go:37-66 | Eleven entries, ten of one session and one of -1, for which the text shows three sessions and seven others though there are nine |
| Alerts.FormatAlerts | internal/notify/format.go:290-364 | The chunk loop produces the layout that AlertBudget and AlertConservation speak about |
| Alerts.AlertBudget | internal/notify/format.go:290-364 | For every alert list at most 100 attachments of at most 10 fields, the run ID in the last one alone and last |
| Alerts.AlertConservation | internal/notify/format.go:290-364 | Shown alerts are the first, each once and in order; the overflow field is there exactly when some are not shown, and counts those and their sessions; shown and overflow sessions are all sessions |
| Alerts.AlertFields | internal/notify/format.go:327-356 | All fields of a message alert by alert: the summary, the report ID exactly if there is one, the details exactly if there are any, then the next alert, and after the last one the ending with counts of alerts, organizations and sessions not shown |
| Alerts.MessageSize | internal/notify/format.go:301-327 | Up to 300 alerts are all shown, of more the first 299, three to an attachment |
| SlackBuffer.SlackHandler.Handle | internal/notify/handler.go:71-78 | A record goes to the end of the buffer and no snapshot changes |
| SlackBuffer.SlackHandler.TakeSnapshot | internal/notify/handler.go:89-97 | Takes everything buffered; snapshots in order plus buffer stay the records handled |
| SlackBuffer.SlackHandler.Flush | internal/notify/handler.go:102-118 | Sends the buffer of its start; what others handle meanwhile stays for later flushes |
| SlackBuffer.RecordIsSomewhere | internal/notify/handler.go:89-118 | Every handled record is in a snapshot or still buffered |
| SlackBuffer.RecordIsInOneFlush | internal/notify/handler.go:89-118 | And in one snapshot only |

## Left out

- JSON, TOML, gzip, base64, quoted-printable and time formatting: files and mails are typed values, and a decoder's outcome is part of the value.
- Manifest versions and phases other than 1 and 4, and unreadable sentinels or manifests: rejected at one place each.
- fsync, permissions, symbolic links, temporary files of atomic writes, free space.
- Command lines, configuration, secrets, webhook and URL checks, log texts, Slack wording, TruncateText, truncateMessage.
- Dry-run paths of fetch and recover, the size-mismatch warnings, the no-op guard of a missing root directory.
- ClearRecoveryRequired: no command calls it. GenerateSummary and the day windows: they only read.
- DeleteReportsBefore and CountReportsBefore: the same filter as for emails without files; it would only add easy members.
- RFC 2047 decoding of file names, and the record attributes between LogAlert and extractAlert.
- int64 overflow in byte budgets and session sums; the retry arithmetic does model int64.
- FileStore.FileStore.SaveUidValidity: keeps the invariant only after what fetch has checked before the call (no recovery, same or no recorded value); the write itself is modelled from every state.
- FileStore.FileStore.SaveRecoveryRequired: keeps the invariant only after what fetch has checked before the call (no recovery, a recorded value other than the new one); the write itself is modelled from every state.
- FileStore.FileStore.RunMaintenance: the edits of gc and reprocess are arbitrary here; that the store lock keeps other writers out is in SummaryGuard and Boot.
- FileStore.FileStore.RunFetch: alerts and flags are not part of this store-level view; they are in FetchRun.
- FileStore.FileStore.Lifetime: assumes that manifest removals take effect; the condition without it is in FileStore.FileStore.ResetForRecovery.
- EmailGc.EmailStore.GcHeals: promises files and index but not that empty directories are gone, because the code does not revisit them; for the same reason EmailGc.EmailStore.DeleteEmailsBefore excepts directories that cannot be listed or removed.
- Reprocess.OrphanFoundAgain: is about a file that is the only one of its email; of several, the first walked gives the entry.
- FetchReplay.FetchUntilDone: assumes messages that start unseen, bodies that never change, and no other client changing flags; messages arrive at the end of the inbox between runs and none leaves it.
- ImapSession.Client.DeleteOlderThan: with other clients at work it promises only which messages this session may remove; the exact mailbox is stated for a server on which nobody else acts, and success for one that stays up.
- ImapSession.Client.WholeSession: contexts that end appear as skipped calls, and reads as bare commands without their results.
- SummaryGuard.WritersExclude: processes are numbers, and the locks are those the kernel keeps; a lock file that is removed and made again is outside the model.
- Mime.Extractor.ExtractAttachments: multipart boundaries and readers are abstract; a part tree says which bodies and multiparts end with a read error.
- SlackBuffer.SlackHandler.Flush: the mutex is modelled by the atomicity of Handle and TakeSnapshot, and other goroutines run only between them.
