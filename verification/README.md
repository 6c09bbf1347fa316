# dnd-notes: a verified model

dnd-notes is a note keeper for campaigns, run as one deployment per tenant behind a control plane.
This project models its logic in Dafny and proves what that logic promises. It covers five areas.

- **SQL text.** The scanner that splits migration scripts into statements (`sql_text.dfy`) and the
  compiler of named and positional parameters (`sql_parameters.dfy`). Block comments do not nest and a
  backslash has no meaning in quotes, as in the code.
- **Notes and their references.** The parser of `![[id|label|qualifier]]` (`note_references.dfy`), what
  the reference index of a note should be (`note_index.dfy`), in which order it is read
  (`note_order.dfy`) and what readers make of it (`note_reading.dfy`), and the note transactions that keep it
  (`note_store.dfy`). A reference's label is called `caption` here.
- **Fleet operations.** One rollout step by step (`fleet_rollout.dfy`), the fleet lock under concurrent
  starts (`fleet_lock.dfy`), and all writers of a tenant's state (`tenant_states.dfy`).
- **Backups.** When the scheduler runs (`backup_schedule.dfy`), how blobs are named and matched
  (`blob_names.dfy`), and the tick with its retention sweep (`backup_retention.dfy`).
- **Smaller cores.** The activator's request handler (`activator.dfy`), uptime accounting
  (`uptime.dfy`), tenant lock keys (`lock_keys.dfy`), database, role and label names
  (`identifiers.dfy`), the reservation of subdomains (`subdomains.dfy`), owner sign-in
  (`owner_accounts.dfy`) and membership consolidation (`memberships.dfy`). `text.dfy`,
  `utf16.dfy`, `decimals.dfy` and `outcomes.dfy` hold what several modules share.

Code that changes things step by step is a class or a method here, proved against a function or a
step relation; the lemmas are about that function or relation. Protocols between concurrent parties are
step relations over a shared state, and the lemmas hold for every run.

## What is assumed

- A failed statement may have had its effect or not, unless the text says otherwise. Within a
  transaction of the note store or the account store a throw restores what was there.
- `randomUUID` gives an id that is no note and that no note of the campaign mentions. The transactions
  of the note store, and those of the account store, run one after another.
- The foreign keys of `note_references` cascade on both columns
  (`apps/api/migrations/0001_baseline.sql:101-112`).
- The subdomain column of tenants is unique
  (`apps/control-plane/migrations/0001_baseline.sql:130-132`).
- A blob name is not used again after its blob was deleted: it carries its capture time, and deleted
  blobs are older than the retention. A backup that completes is stored after its tick began, and the
  sweep starts within the retention of that moment.
- Strings are sequences of Unicode scalar values: lone surrogates do not occur. Where JavaScript counts or
  hashes UTF-16 code units, as in reference positions and tenant lock keys, so does the model (`utf16.dfy`).
- SHA-256 gives 64 lower-case hexadecimal digits; Unicode lower-casing is any function, idempotent
  after trimming where owner emails are concerned.
- A call to a service inside Kubernetes, Keycloak or Azure succeeds, fails, or fails after taking effect.

## Where the code and its comments differ

The model follows the code.

- `nextScheduledTime` says "on or after"; a run at the very instant is put off by a day
  (`apps/control-plane/src/backup-scheduler.ts:100-109`).
- A start whose unlock fails is said to lose the lock with its session; the session goes back to the
  pool alive and keeps it (`apps/control-plane/src/fleet-rollout-orchestrator.ts:476-485`,
  `FleetLock.CatchDecides`).
- The guard of a provisioning run is said to keep concurrent runs from racing on the final write; a
  run that marks nothing still does (`apps/control-plane/src/provisioning.ts:319-325`).
- The idle scaler says that only its own query puts tenants to sleep; the operator's state change does
  too, behind its own gate (`apps/activator/src/idle-scaler.ts:187-189`).
- The uptime sweep sorts the rows of its window by time but picks the row before the window by id. Ids and
  times can disagree when two transactions contend, and the sweep may then start in the wrong state
  (`apps/control-plane/src/tenant-registry-postgres.ts:1385-1432`, `Uptime.WindowTellsExactly`).
- Blob names are said never to hold `_`; a tenant id with an underscore gives such a name, and its
  catalog rows are then never flagged (`apps/control-plane/src/tenant-registry-postgres.ts:1720-1729`,
  `BackupRetention.UnderscoredIdNeverFlagged`).

## Model

| member | source | states |
|---|---|---|
| SqlText.SplitSqlStatements | apps/api/src/note-store-database.ts:167-304 | the scanning loop yields the trimmed, non-blank texts between the top-level semicolons of the specification |
| SqlText.PiecesRejoin | apps/api/src/note-store-database.ts:167-304 | no character is lost, and every piece but the last, read on its own, ends outside all quotes and comments without a cut |
| SqlText.PiecesUnique | apps/api/src/note-store-database.ts:167-304 | no other list of pieces has both properties |
| SqlText.CutExactly | apps/api/src/note-store-database.ts:167-304 | a semicolon separates p from q if and only if p on its own ends in normal mode and holds no top-level semicolon |
| SqlText.NextLocal | apps/api/src/note-store-database.ts:162-304 | what follows a semicolon or white space never changes how the text before it is read, lookahead included |
| SqlText.TagExactly | apps/api/src/note-store-database.ts:162-165 | a dollar quote opens with a tag of k + 1 characters if and only if two dollar signs stand k apart with nothing, or a name, between them; and with none if there are no such two |
| SqlText.SplitOfJoin | apps/api/src/note-store-database.ts:167-304 | splitting undoes joining: exactly the trimmed pieces come back |
| SqlText.SplitAgain | apps/api/src/note-store-database.ts:167-304 | for every input, also with unterminated quotes or comments, each statement splits into itself alone |
| SqlText.LexemeRuns | apps/api/src/note-store-database.ts:162-304 | a comment, quoted string, quoted name or dollar quote, spelt out without the scanner, is passed over whole; block comments do not nest, quotes are doubled |
| SqlText.SplitOfScript | apps/api/src/note-store-database.ts:162-304 | a script printed from well-formed lexemes, statement by statement, splits back into those statements |
| SqlParameters.CompileNamedParameters | apps/api/src/note-store-database.ts:56-70 | the replacing loop gives the rendered tokens and the values in first-occurrence order |
| SqlParameters.TokensExactly | apps/api/src/note-store-database.ts:56-70 | the names replaced and the characters kept are the one way to spell the statement with every name as long as it can be and no at sign before a name left alone |
| SqlParameters.NamesExactly | apps/api/src/note-store-database.ts:56-70 | the indexed names are the distinct names that occur, each once |
| SqlParameters.FirstOccurrenceOrder | apps/api/src/note-store-database.ts:56-70 | indexes are given out in the order of first occurrence |
| SqlParameters.PlaceholdersMeanNames | apps/api/src/note-store-database.ts:56-70 | for every statement, placeholder k carries the value of the name it replaced, and k is within the value list |
| SqlParameters.CompiledMeansTheSame | apps/api/src/note-store-database.ts:56-70 | reading the compiled text back, placeholder by placeholder, gives the statement with its names replaced by their values if and only if the statement has no dollar sign of its own directly before a digit |
| SqlParameters.CompilePositionalParameters | apps/api/src/note-store-database.ts:72-80 | the n-th question mark becomes placeholder n and the values pass through |
| SqlParameters.PositionalMeansTheSame | apps/api/src/note-store-database.ts:72-80 | reading the compiled text back gives the statement with its question marks replaced by their values if and only if no dollar sign and no question mark stands directly before a digit |
| NoteReferences.ParseInlineNoteReferences | apps/api/src/note-references.ts:19-63 | the cursor loop computes the recursive parse, with all positions, those of errors too, in UTF-16 code units |
| NoteReferences.IndexOfUnits | apps/api/src/note-references.ts:24-35 | the scan finds over UTF-16 code units what it finds here, at the offset of the position it finds here |
| NoteReferences.ParseExactly | apps/api/src/note-references.ts:19-63 | a body is accepted with given references if and only if they are, in its UTF-16 code units, disjoint spans in order, closed at their first mark, holding their fields, with every opening mark starting or inside one |
| NoteReferences.FieldsExactly | apps/api/src/note-references.ts:37-49 | a content holds given fields if and only if it is on one line and is one to three texts joined by bars whose trimmed forms are those fields, none blank |
| Text.TrimExactly | apps/api/src/note-references.ts:43 | trimming gives the one text without white space at its ends that is left of the string when white space is taken off both ends |
| NoteReferences.ParseOfPrint | apps/api/src/note-references.ts:8-63 | printing references between texts without an opening mark and parsing gives them back with their exact UTF-16 positions |
| NoteReferences.PrintableExactly | apps/api/src/note-references.ts:8-63 | a link survives printing and parsing if and only if its fields are trimmed, non-blank, on one line, without bars, and close no earlier |
| NoteStore.Database.BuildPendingReferences | apps/api/src/note-store.ts:385-454 | both loops, strict or lenient, give the specified list or the first error |
| NoteIndex.StrictIsLenient | apps/api/src/note-store.ts:385-454 | a strict build that succeeds writes what the full rebuild would |
| NoteIndex.BuildTargets | apps/api/src/note-store.ts:366-454 | the rebuild points to exactly the mentioned ids that are notes of the same campaign |
| NoteIndex.BuildOnce | apps/api/src/note-store.ts:403-453 | the rebuild links each target once and then has inline references of the body, positions increasing |
| NoteIndex.BuildWithout | apps/api/src/note-store.ts:385-454 | rebuilding after notes are gone gives the former list less the references to them, in order |
| NoteIndex.DeleteKeepsIndex | apps/api/migrations/0001_baseline.sql:101-112 | the cascading foreign keys remove exactly the rows the rebuild would no longer write |
| NoteStore.Database.ReplaceNoteReferences | apps/api/src/note-store.ts:456-506 | replaces the rows of one note by the build, in order, or throws before touching them |
| NoteStore.Database.SyncNoteReferences | apps/api/src/note-store.ts:508-532 | rewrites every note in any order of rows; never throws |
| NoteStore.Database.CreateNote | apps/api/src/note-store.ts:622-658 | the new tables and the composed note, or the old tables and the error |
| NoteStore.Database.UpdateNote | apps/api/src/note-store.ts:660-714 | likewise; omitted linked ids are kept and validated again; a missing note is null |
| NoteStore.Database.DeleteNote | apps/api/src/note-store.ts:833-836 | removes the note and every reference from or to it, and says whether it was there |
| NoteStore.Database.ResetNotes | apps/api/src/note-store.ts:567-620 | all notes of the campaign replaced, references built once all are inserted, and the notes returned, each composed with its references in the order of the query; any error restores everything |
| NoteStore.StepKeepsIndex | apps/api/src/note-store.ts:567-714 | every transaction, thrown or not, leaves each note with exactly the reference rows a full rebuild would write |
| NoteStore.WriteTouchesOne | apps/api/src/note-store.ts:622-714 | a create or update that goes through changes its own note and its own reference rows only |
| NoteStore.ResetExactly | apps/api/src/note-store.ts:567-620 | a reset that goes through leaves the campaign exactly its inputs, stamped newest first, and other campaigns their notes and references |
| NoteStore.SyncIndexes | apps/api/src/note-store.ts:508-532 | the startup sync establishes that from any tables that respect their foreign keys |
| NoteStore.RunKeepsIndex | apps/api/src/note-store.ts:508-836 | after any run of transactions a further sync changes nothing but row ids |
| NoteStore.AcceptedExactly | apps/api/src/note-store.ts:366-454 | a strict write is accepted if and only if the body parses and every mentioned id is a note of the campaign |
| NoteStore.UpdateMovesForward | apps/api/src/note-store.ts:234-238 | an update is stamped later than the version it replaces whatever the clock says, and changes no other note |
| NoteStore.UpdateExactly | apps/api/src/note-store.ts:660-714 | an update that goes through sets the text, the linked ids if any are given, and a later time, and nothing else in the notes; of a missing note it changes nothing |
| NoteStore.DeleteExactly | apps/api/src/note-store.ts:833-836 | a deletion always goes through and takes exactly the note and the references from and to it |
| NoteStore.ThrowsExactly | apps/api/src/note-store.ts:366-714 | a transaction throws if and only if the campaign is unknown or a text is refused, and then the error of the first refused text; deletions and the sync never do |
| NoteStore.FailedExactly | apps/api/src/note-store.ts:366-454 | a strict write fails with exactly the error of its body, or else of the first id it refers to, linked before inline, that is no note or one of another campaign |
| NoteStore.StepKeepsNumbers | apps/api/src/note-store.ts:456-506 | no transaction makes two reference rows share an id |
| NoteReading.ComposeNote | apps/api/src/note-store-notes.ts:125-174 | the loops give the still-linked stored ids first, then the other targets |
| NoteReading.LinkedIdsExactly | apps/api/src/note-store-notes.ts:125-156 | the linked ids of a composed note are the targets of its references, each once |
| NoteReading.LinkedIdsOrder | apps/api/src/note-store-notes.ts:125-156 | first the stored ids that a linked reference confirms, in their order, then the other targets in the order of the references |
| NoteReading.GroupReferencesBySource | apps/api/src/note-store-notes.ts:176-191 | every source maps to its references in the order of the rows |
| NoteReading.SelectedRows | apps/api/src/note-store-notes.ts:280-299 | however the database orders the references of a campaign, those of each note are all among them |
| NoteOrder.AnswersExactly | apps/api/src/note-store-notes.ts:301-319 | the query for the references of a note answers the stored ones with the linked first, in any order, and then the inline ones in theirs, and nothing else |
| NoteStore.Database.GetBacklinks | apps/api/src/note-store.ts:823-830 | the backlinks of a note are exactly the notes of its campaign whose body or stored ids mention it, newest first |
| BackupSchedule.NextScheduledTime | apps/control-plane/src/backup-scheduler.ts:70-112 | the first instant strictly after now at the slot of the expression, at most a day away; or the first error in the source order |
| BackupSchedule.SlotExactly | apps/control-plane/src/backup-scheduler.ts:70-112 | the slot of an expression, and each way to be refused, by its fields alone |
| BackupSchedule.ParseIntExactly | apps/control-plane/src/backup-scheduler.ts:114-134 | a number is read exactly from an optional sign, all digits after it and any rest |
| BackupSchedule.FieldsExactly | apps/control-plane/src/backup-scheduler.ts:70-76 | the fields are read back from any text made of words and white space between them; a blank one has one empty field |
| BackupSchedule.NextTick | apps/control-plane/src/backup-scheduler.ts:159-181 | a tick that started on its slot and ends within the day is followed by the next slot exactly one day later |
| BlobNames.BuiltExactly | apps/control-plane/src/tenant-backup-azure-blob.ts:294-307 | a name is the sanitised id, the time with its colons and dots dashed, and the part of the path after its last slash |
| BlobNames.SanitisedExactly | apps/control-plane/src/tenant-backup-azure-blob.ts:300 | an id is sanitised run by run: safe characters stay in lower case, and each run of others becomes one dash |
| BlobNames.BuiltSegments | apps/control-plane/src/tenant-backup-azure-blob.ts:294-307 | a built name has two segments, and its prefix is the sanitised tenant id the scheduler records |
| BlobNames.ExtractExactly | apps/control-plane/src/tenant-backup-azure-blob.ts:309-317 | a name is read back from its location if and only if none of its segments is empty |
| BlobNames.ExtractBuilt | apps/control-plane/src/tenant-backup-azure-blob.ts:294-317 | every built name is read back unless the tenant id is empty |
| BlobNames.MatchExactly | apps/control-plane/src/tenant-registry-postgres.ts:1717-1751 | for any base, stored name and name the LIKE pattern finds the stored location if and only if the segments of the name are the last ones of it and not all |
| BlobNames.MatchIsSame | apps/control-plane/src/tenant-registry-postgres.ts:1717-1751 | so among two-segment names it finds the location of that very blob and no other |
| BackupRetention.Scheduler.BackupOneTenant | apps/control-plane/src/backup-scheduler.ts:242-331 | the four statements in turn: true if and only if all succeed, and then blob and row are there; otherwise what the failed one left |
| BackupRetention.BackupExactly | apps/control-plane/src/backup-scheduler.ts:242-331 | what a backup leaves of row, name and blob, by the answers of its four statements alone |
| BackupRetention.SucceededExactly | apps/control-plane/src/backup-scheduler.ts:206-226 | the sweep is told exactly the prefixes of the tenants whose four statements were all answered |
| BackupRetention.Scheduler.ListBlobsOlderThan | apps/control-plane/src/tenant-backup-azure-blob.ts:209-225 | lists exactly the blobs older than the cutoff, each once |
| BackupRetention.Scheduler.RunRetentionSweep | apps/control-plane/src/backup-scheduler.ts:344-441 | both loops against the specified sweep, for any failures and any stop |
| BackupRetention.Scheduler.Tick | apps/control-plane/src/backup-scheduler.ts:183-234 | the whole tick: eligible tenants, recorded prefixes, and the sweep only when all backups were reached |
| BackupRetention.EligibleExactly | apps/control-plane/src/backup-scheduler.ts:200-205 | exactly the ready and the sleeping tenants with storage are backed up |
| BackupRetention.DeletedExactly | apps/control-plane/src/backup-scheduler.ts:400-431 | a deletion takes the blob unless it failed without effect, and flags exactly the rows naming it if it succeeded, the update did and the name is accepted |
| BackupRetention.SweepExactly | apps/control-plane/src/backup-scheduler.ts:344-441 | for any failures and any stop, a blob goes exactly when it was listed, reached, not kept and the call took effect, and a row is flagged exactly when it was before, or its blob was listed, reached, not kept, deleted and recorded under a name the update accepts |
| BackupRetention.SweepKeepsPrefix | apps/control-plane/src/backup-scheduler.ts:333-441 | a prefix that holds a blob still holds one after a sweep, wherever it stops and whatever fails |
| BackupRetention.CompleteSweep | apps/control-plane/src/backup-scheduler.ts:344-441 | a sweep without failures keeps exactly the recent blobs and the newest old one of each prefix not backed up |
| BackupRetention.CompleteSweepHolds | apps/control-plane/src/backup-scheduler.ts:344-441 | after a sweep without failures a prefix holds a blob if and only if it was not backed up or has one as recent as the cutoff |
| BackupRetention.CompleteTickHolds | apps/control-plane/src/backup-scheduler.ts:183-441 | the same of a whole tick without failures |
| BackupRetention.LateTickLosesLast | apps/control-plane/src/backup-scheduler.ts:183-441 | a tick that backs a tenant up as it starts keeps the last copy if and only if its sweep starts within the retention |
| BackupRetention.MarkedExactly | apps/control-plane/src/tenant-registry-postgres.ts:1735-1751 | the update flags exactly the rows of that blob, and is refused if and only if the name has a metacharacter |
| BlobNames.BuiltMetacharacters | apps/control-plane/src/tenant-backup-azure-blob.ts:294-307 | a built name has a metacharacter if and only if the tenant id has an underscore, or the capture time or the file name brings one |
| BackupRetention.UnmarkableStays | apps/control-plane/src/tenant-registry-postgres.ts:1735-1751 | over any run a row whose blob name has a metacharacter stays unflagged |
| BackupRetention.UnderscoredIdNeverFlagged | apps/control-plane/src/tenant-registry-postgres.ts:1720-1751 | so does every row of a tenant whose id has an underscore |
| BackupRetention.TickKeeps | apps/control-plane/src/backup-scheduler.ts:183-441 | no tick takes the last blob of a prefix, or lets a flagged row have its blob still there |
| BackupRetention.LastCopyNeverLost | apps/control-plane/src/backup-scheduler.ts:183-441 | the same over any sequence of ticks and manual backups |
| BackupRetention.DashedKeepsTime | apps/control-plane/src/tenant-backup-azure-blob.ts:301-303 | dashing keeps timestamps of one format apart, so names carry their capture time |
| FleetRollout.SnapshotTenants | apps/control-plane/src/fleet-rollout-orchestrator.ts:388-406 | takes exactly the ready tenants, and the sleeping ones unless they are skipped, in the order of the list, and leaves the others in theirs |
| FleetRollout.SnapshotSplits | apps/control-plane/src/fleet-rollout-orchestrator.ts:388-440 | every tenant is on one side of the snapshot, once |
| FleetRollout.Rollout.Write | apps/control-plane/src/fleet-rollout-orchestrator.ts:188-232 | a row update moves the rollout from one shape to the next, or fails with or without having done so |
| FleetRollout.Rollout.MarkRemainingTenantsSkipped | apps/control-plane/src/fleet-rollout-orchestrator.ts:268-291 | skips the untouched tenants from the current one on; if it throws, a prefix of them |
| FleetRollout.Rollout.ProvisionOne | apps/control-plane/src/fleet-rollout-orchestrator.ts:188-228 | one tenant from started to succeeded or failed, with the outcome of a failure recorded |
| FleetRollout.Rollout.RunRollout | apps/control-plane/src/fleet-rollout-orchestrator.ts:146-266 | at every step succeeded tenants, then at most one started or failed, then untouched or skipped ones; provisions begin in order and at most one after an abort is stored; without database failures aborted, failed and completed mean what they say |
| FleetRollout.Rollout.InsertRows | apps/control-plane/src/fleet-rollout-orchestrator.ts:408-440 | the rows of the snapshot in order, or those up to the insert that failed |
| FleetRollout.StartAndRun | apps/control-plane/src/fleet-rollout-orchestrator.ts:352-489 | the same from the tenants table on; a start that fails leaves nothing, or a running rollout with part of its rows that is never worked on |
| FleetRollout.CountsExactly | apps/control-plane/src/fleet-rollout-orchestrator.ts:533-567 | the four counts make up the snapshot and are those of the shape; completed and aborted leave nothing pending |
| FleetRollout.TimesExactly | apps/control-plane/src/fleet-rollout-orchestrator.ts:188-291 | at every moment of a rollout a row has its end exactly when it is no longer pending, and its beginning exactly when its provision was begun |
| FleetLock.AtMostOneOwner | apps/control-plane/src/fleet-rollout-orchestrator.ts:352-489 | over all interleavings of starts, failures and lost sessions, at most one call with a live session prepares or runs a rollout, and each client is released once, when its call is over |
| FleetLock.LoserKeepsLock | apps/control-plane/src/fleet-rollout-orchestrator.ts:365-375 | a call changes only its own session; a refused start changes no lock |
| FleetLock.TryExactly | apps/control-plane/src/fleet-rollout-orchestrator.ts:365-375 | an attempt gets the lock if and only if no other session holds it |
| FleetLock.HeldExactly | apps/control-plane/src/fleet-rollout-orchestrator.ts:365-488 | what a session holds grows exactly with an attempt on a free lock that takes effect, and shrinks exactly with an unlock of something held that does |
| FleetLock.GoesOnExactly | apps/control-plane/src/fleet-rollout-orchestrator.ts:352-489 | a call cleans up after exactly the failures between its attempt on the lock and its last unlock, and otherwise goes on as described; whatever needs a lost session fails |
| FleetLock.MayGoOn | apps/control-plane/src/fleet-rollout-orchestrator.ts:146-250 | where a prepared and a running call may go |
| FleetLock.FreeWhenOver | apps/control-plane/src/fleet-rollout-orchestrator.ts:352-489 | once all calls are over the lock is free for everyone if and only if nothing is owed on a live session |
| FleetLock.OwedExactly | apps/control-plane/src/fleet-rollout-orchestrator.ts:251-488 | what a session owes grows exactly when a call that got the lock ends on an unlock without effect, and shrinks exactly when a start that got nothing unlocks at its end all the same |
| FleetLock.LastUnlockDecides | apps/control-plane/src/fleet-rollout-orchestrator.ts:251-488 | after the last unlock of a call a start on another live session is refused if and only if the session of the call holds the lock still |
| FleetLock.FinallyDecides | apps/control-plane/src/fleet-rollout-orchestrator.ts:251-265 | for the finally block of a rollout, on a session that owes nothing else: refused if and only if that unlock had no effect |
| FleetLock.CatchDecides | apps/control-plane/src/fleet-rollout-orchestrator.ts:473-488 | the same for the catch block of a start that got the lock |
| FleetLock.LostSessionAdmitsTwo | apps/control-plane/src/fleet-rollout-orchestrator.ts:454-472 | the orchestrator does not notice a lost session, and a second one may then run |
| TenantStates.ProvisionsExclude | apps/control-plane/src/provisioning.ts:301-690 | over all interleavings of marking runs, deprovisions that find no run in flight, the activator and the idle scaler, at most one run is in flight although the lock is free in phase 2, and none is admitted beside it |
| TenantStates.RejectedExactly | apps/control-plane/src/provisioning.ts:326-371 | a run is turned away if and only if the tenant is upgrading, or provisioning with a subdomain, or another version is asked for in a state other than ready, deprovisioned and failed, or its own version in ready, maintenance or restoring |
| TenantStates.PhaseOneExactly | apps/control-plane/src/provisioning.ts:314-446 | what an admitted run that meets no failure makes of the row up to phase 2, by state, subdomain and versions |
| TenantStates.FailedStatement | apps/control-plane/src/provisioning.ts:373-690 | what each failed statement of a run leads to, and that it leaves the row alone or as its success would |
| TenantStates.RecoveringToFailed | apps/control-plane/src/provisioning.ts:609-634 | the catch block of phase 1, undisturbed, leaves failed, with a write exactly if it was not failed already |
| TenantStates.EnabledExactly | apps/control-plane/src/provisioning.ts:307-314 | a waiting writer gets the lock exactly while nobody has it; any writer may fail |
| TenantStates.EventsExactly | apps/control-plane/src/tenant-registry-postgres.ts:766-788 | what the creation of a tenant, activity and the change of the desired state leave |
| TenantStates.FlightEnds | apps/control-plane/src/provisioning.ts:609-690 | the last successful statement of a run leaves the tenant ready or failed |
| TenantStates.ExclusionExactly | apps/control-plane/src/provisioning.ts:314-415 | a run that the guards admit keeps every other one out of phase 2 if and only if it marks the state, which the row and the request decide beforehand; beside one that marks nothing exactly the requests admitted before it are admitted still |
| TenantStates.UnmarkedRunOverwrites | apps/control-plane/src/provisioning.ts:628-690 | beside any run that marked nothing, each of the two runs overwrites the verdict of the other |
| TenantStates.LandingExactly | apps/control-plane/src/provisioning.ts:609-690 | a statement that takes a run out of flight leaves ready or failed if and only if it wrote one, or the run gave up before its mark and one stood already; otherwise the row is as the run left it |
| TenantStates.Landing | apps/control-plane/src/tenant-registry-postgres.ts:516-556 | over whole runs: a run in flight at one moment and not at a later one landed at a step between them, with a verdict exactly as above; a mark left without one stays, with no run in flight or admitted, for as long as no operator or restore writes |
| TenantStates.DeprovisionStandsExactly | apps/control-plane/src/provisioning.ts:692-764 | in every reachable state a deprovisioned tenant stays so, until a waiting run gets the lock or an operator change passes its gate, if and only if no run past the lock, no operator change past its gate and no restore past its read is left |
| TenantStates.DeprovisionUndisturbed | apps/control-plane/src/provisioning.ts:697-757 | among marking runs, activator, idle scaler and deprovisions that do not find the tenant upgrading or provisioning, a completed deprovision is overwritten by no run begun before it |
| TenantStates.DeprovisionOverwritten | apps/control-plane/src/provisioning.ts:628-764 | the other case: a deprovision that completes in phase 2 of any run is overwritten with ready, or with failed |
| TenantStates.RestorePutsBack | apps/control-plane/src/app.ts:1918-1974 | a restore that runs puts the state it read back over any other |
| TenantStates.RestoreExactly | apps/control-plane/src/app.ts:1918-1974 | an undisturbed restore runs exactly for a ready tenant or one in maintenance with storage, and puts back what it found wherever it fails |
| TenantStates.PatchExactly | apps/control-plane/src/app.ts:1483-1502 | the operator change goes through unless it would put to sleep a tenant the activator has not seen |
| TenantStates.ScalersExactly | apps/activator/src/idle-scaler.ts:54-230 | of the tenants found idle exactly the ready ones that were seen and are not being torn down are put to sleep, and exactly the sleeping ones not being torn down are woken |
| TenantStates.GuardedUpdates | apps/activator/src/idle-scaler.ts:54-230 | each query selects exactly those, and its update leaves alone what has changed since |
| TenantStates.FailedTeardown | apps/control-plane/src/provisioning.ts:692-764 | a teardown that fails anywhere ends there, with what it did so far |
| TenantStates.SleepingIsSeen | apps/control-plane/src/app.ts:1483-1502 | in every reachable state of all writers a sleeping tenant was seen by the activator |
| TenantStates.StepSeen | apps/activator/src/idle-scaler.ts:54-70 | no statement of any writer breaks that, nor takes back seen_by_activator |
| TenantStates.ScalersMoveOnlySleepers | apps/activator/src/tenant-activity.ts:118-162 | activator and idle scaler move only ready to sleeping and sleeping to ready, the activator only while no teardown is desired |
| Activator.RequestHandler.EnsureWake | apps/activator/src/request-handler.ts:82-123 | one wake per namespace is created or shared |
| Activator.RequestHandler.EndWake | apps/activator/src/request-handler.ts:98-119 | a wake removes its own entry and settles exactly the requests still racing against it |
| Activator.RequestHandler.ReplicasAnswered | apps/activator/src/request-handler.ts:204-250 | from the replica count to the race, the proxy or the error |
| Activator.RequestHandler.RaceEnded | apps/activator/src/request-handler.ts:252-285 | from the end of the race to the proxy, the interstitial, the warming answer or the error |
| Activator.OneWakePerNamespace | apps/activator/src/request-handler.ts:74-123 | on any interleaving at most one wake per namespace is in flight |
| Activator.ProxiedExactly | apps/activator/src/request-handler.ts:204-285 | a request goes to the proxy if and only if the tenant has a replica or its wake was ready in time |
| Activator.ToldToComeBackExactly | apps/activator/src/request-handler.ts:252-285 | it is told to come back, as a page or as data, if and only if its wake was not ready in time and the answer could be written |
| Activator.FailsExactly | apps/activator/src/request-handler.ts:204-286 | it fails if and only if the replica count, the call to sleep, that answer or the proxy does |
| Activator.OutcomeExactly | apps/activator/src/request-handler.ts:82-123 | a race is decided by the grace timer or by the end of the wake it waits for, as ready exactly if the wait said so |
| Activator.OutcomeStands | apps/activator/src/request-handler.ts:82-123 | a race once decided stays decided until the request goes on |
| Activator.RaceExactly | apps/activator/src/request-handler.ts:204-250 | a request races exactly when the tenant has no replica, and then against the wake of its namespace |
| Activator.WakesExactly | apps/activator/src/request-handler.ts:74-123 | when the wake of a namespace begins and ends |
| Activator.GaugeCountsHeld | apps/activator/src/request-handler.ts:219-277 | the gauge is the number of requests in the race at every moment |
| Activator.WarmingNeverProxied | apps/activator/src/request-handler.ts:125-286 | whoever is told to come back was never proxied, and a request still racing has a live wake |
| Uptime.SweepWindow | apps/control-plane/src/tenant-registry-postgres.ts:1509-1555 | ready and sleeping totals are the milliseconds at which that is the state; the last sleep is the span that ended last |
| Uptime.SumFits | apps/control-plane/src/tenant-registry-postgres.ts:1509-1555 | ready and sleeping time together never exceed the window |
| Uptime.LastSleepWasSlept | apps/control-plane/src/tenant-registry-postgres.ts:1530-1540 | the tenant slept through the whole span reported |
| Uptime.LatestIsLast | apps/control-plane/src/tenant-registry-postgres.ts:1385-1432 | once the rows are sorted by time and id, the last one before the window is the latest of the log |
| Uptime.InOrderExactly | apps/control-plane/src/tenant-registry-postgres.ts:1391-1399 | the rows are ordered by the whole time, those of one time by id, and none is lost |
| Uptime.StartsExactly | apps/control-plane/src/tenant-registry-postgres.ts:1500-1508 | the starting state is where the row with the greatest id before the window went, else where its first row came from, else the present one |
| Uptime.WindowTellsExactly | apps/control-plane/src/tenant-registry-postgres.ts:1385-1432 | whatever the order of the ids, the queried rows and the starting state tell at every instant of the window what the whole log tells if and only if the row with the greatest id before the window went where the latest one did, or a row stands at the very start |
| Uptime.ReportUptime | apps/control-plane/src/tenant-registry-postgres.ts:1491-1579 | for every log the percentage is the share of the milliseconds at which the sorted rows of the window have the tenant ready, and of those at which the whole log has it ready when the sweep starts right; no clamp changes it |
| Uptime.EmptyLog | apps/control-plane/src/tenant-registry-postgres.ts:1557-1561 | the default for a tenant without transitions is what the sweep would give |
| LockKeys.HashTenantLockKey | apps/control-plane/src/tenant-registry-postgres.ts:332-342 | the loop computes the FNV-1a hash of section 2 of draft-eastlake-fnv over UTF-16 code units |
| LockKeys.TurnInjective | apps/control-plane/src/tenant-registry-postgres.ts:336-339 | a turn stays below 2^64 and is injective in the state and in the character |
| LockKeys.HalvesRecombine | apps/control-plane/src/tenant-registry-postgres.ts:344-350 | the two signed halves are 32-bit and make up the hash again |
| LockKeys.KeysAgreeWithHash | apps/control-plane/src/tenant-registry-postgres.ts:344-350 | tenants share keys if and only if their hashes agree |
| LockKeys.OneUnitApart | apps/control-plane/src/tenant-registry-postgres.ts:332-350 | ids of one length that differ in exactly one code unit never share a key |
| LockKeys.FleetKey | apps/control-plane/src/fleet-rollout-orchestrator.ts:52-57 | a tenant shares the reserved fleet key if and only if its hash is 1 |
| Identifiers.NamesFit | apps/control-plane/src/provisioning.ts:1670-1739 | database and role names are at most 63 characters of a-z, 0-9 and underscore, cut with a digest or not |
| Identifiers.RunnerAccepts | apps/control-plane/src/tenant-backup-runner.ts:411-434 | the backup runner accepts every database name provisioning builds, unchanged |
| Identifiers.ResolveExactly | apps/control-plane/src/tenant-backup-runner.ts:411-434 | the runner reads a reference if and only if, trimmed, it is tenant_ and at least one more of a-z, 0-9 and underscore, at most 63 characters in all |
| Identifiers.SubdomainExactly | apps/control-plane/src/tenant-subdomain.ts:1-13 | a subdomain is valid if and only if it has 1 to 48 characters of a-z, 0-9 and dashes, with no dash at its ends |
| Identifiers.DistinctDatabases | apps/control-plane/src/provisioning.ts:1670-1731 | distinct subdomains of one length up to 35 give distinct databases whatever the tenant ids |
| Identifiers.GeneratedDatabasesDistinct | apps/control-plane/src/provisioning.ts:770-772 | so distinct generated subdomains give distinct databases |
| Identifiers.SharedExactly | apps/control-plane/src/provisioning.ts:1670-1680 | two different valid subdomains of up to 35 characters let some two tenants share a database if and only if one ends with the other after a dash and at most 18 characters without a double dash |
| Identifiers.LabelIsValid | apps/control-plane/src/provisioning.ts:1682-1703 | every label value is a valid Kubernetes label value |
| Identifiers.LabelExactly | apps/control-plane/src/provisioning.ts:1682-1703 | what a label is made of: the squeezed value between its first and last letter or digit, or a digest when nothing is left or a digest after its first 54 characters when too much is |
| Identifiers.SqueezedExactly | apps/control-plane/src/provisioning.ts:1670-1703 | a text is squeezed run by run: what is kept stays, and each run of others becomes one filler |
| Subdomains.Registry.ReserveTenantSubdomain | apps/control-plane/src/tenant-registry-postgres.ts:672-750 | whatever reservations complete in between: a tenant keeps the subdomain it has, a reserved one belongs to no other tenant, none is taken back, and each error says what was found; the attempts are exhausted only when others have all the candidates |
| Subdomains.DatabasesApart | apps/control-plane/src/provisioning.ts:415-446 | two tenants with generated subdomains reserved this way never share a database |
| OwnerAccounts.OwnerAccountDomain.FindOrCreateOwner | apps/api/src/note-store-owner-accounts.ts:260-353 | the sign-in, with the account of the inner transaction surviving a later failure |
| OwnerAccounts.OwnerAccountDomain.CreateOwnerAccount | apps/api/src/note-store-owner-accounts.ts:188-237 | creation, or nothing when the folded email is taken |
| OwnerAccounts.AlwaysUnique | apps/api/src/note-store-owner-accounts.ts:188-353 | over any serial run no two accounts share id, folded email or subject, without help from the unique indexes, and the site admins are those of the configured emails |
| OwnerAccounts.BoundForEver | apps/api/src/note-store-owner-accounts.ts:260-291 | a subject once bound resolves to the same account for ever, whatever email it comes with |
| OwnerAccounts.ResolvedEmail | apps/api/src/note-store-owner-accounts.ts:239-258 | the email kept or taken belongs to no other account |
| OwnerAccounts.ConflictExactly | apps/api/src/note-store-owner-accounts.ts:293-303 | a sign-in conflicts if and only if its subject is unbound and its email is bound to another; it then changes nothing |
| OwnerAccounts.BoundExactly | apps/api/src/note-store-owner-accounts.ts:260-291 | a bound identity signs in to its account, which takes the name given and, unless another account has it, the email given |
| OwnerAccounts.LinkedExactly | apps/api/src/note-store-owner-accounts.ts:293-325 | a new identity is bound to the account that has its email and no identity yet |
| OwnerAccounts.NewExactly | apps/api/src/note-store-owner-accounts.ts:326-353 | and to a new account when no account has its email |
| OwnerAccounts.CreateExactly | apps/api/src/note-store-owner-accounts.ts:188-237 | an account is created if and only if its folded email is free |
| OwnerAccounts.FailedSignInResumes | apps/api/src/note-store-owner-accounts.ts:326-351 | a sign-in that fails late leaves at most an unbound account, which the next one binds |
| Memberships.MembershipDomain.PreviewConsolidation | apps/api/src/note-store-memberships.ts:481-544 | the guards in their order, then the counts |
| Memberships.MembershipDomain.Consolidate | apps/api/src/note-store-memberships.ts:546-578 | applies a ready preview to the notes and nothing else |
| Memberships.MembershipDomain.ClaimGuest | apps/api/src/note-store-memberships.ts:426-479 | each answer exactly when it is due; a user never gets a second membership of a campaign |
| Memberships.AffectedCounts | apps/api/src/note-store-memberships.ts:226-254 | affected is authored plus edited less both, and zero only when nothing is attributed |
| Memberships.CountsExactly | apps/api/src/note-store-memberships.ts:226-254 | the counts are the numbers of notes of the campaign created by the member, edited last by it, both, and either |
| Memberships.PreviewExactly | apps/api/src/note-store-memberships.ts:481-544 | when each answer of a preview is due, by the memberships alone |
| Memberships.ReassignedExactly | apps/api/src/note-store-memberships.ts:256-273 | column by column the target gets what the source had, and nothing else changes |
| Memberships.TargetGetsBoth | apps/api/src/note-store-memberships.ts:256-273 | the target then has exactly the union, the source nothing, other memberships and campaigns what they had |
| Memberships.SecondPreviewIsZero | apps/api/src/note-store-memberships.ts:481-578 | a second preview is all zero and applying again changes nothing |

## Left out

- SqlParameters.CompiledMeansTheSame: reads a placeholder wherever it stands; that the server does not look for placeholders inside quotes, comments and dollar quotes is not modelled.
- BackupRetention.Scheduler.RunRetentionSweep: one sweep at a time; backups made while it runs are events before or after it.
- BackupRetention.Scheduler.BackupOneTenant: the status of a backup run, its size and checksum, and the audit log.
- Uptime.ReportUptime: one tenant at a time; the wake counts of the same report are plain aggregates.
- FleetRollout.Rollout.RunRollout: the rollout row is never deleted, and `markOrphanRunningRolloutsFailed` of another process does not interfere.
- FleetRollout.Rollout.Write: reasons, error texts and the times themselves; only whether a time is set is kept.
- FleetLock.AtMostOneOwner: says who owns the lock; that at most one row has status running does not follow under crashes.
- TenantStates.ProvisionsExclude: tenants are not deleted and their ids not used again; the session that holds the tenant lock is not lost before its unlock, and an attempt on the lock that fails has not taken it.
- Activator.OneWakePerNamespace: scaling a deployment may fail but does not throw before its first await.
- BlobNames.ExtractExactly: percent-encoding and the removal of `.` and `..` segments by the URL parser are not modelled; built names of generated tenant ids hold neither.
- NoteStore.Database.GetBacklinks: the columns of a note that references never read.
- NoteStore.Database.CreateNote: which campaign is meant when none is named.
- Transition rows as a chain: the idle scaler's insert does not depend on its update.
- Session summaries, share links, guest tokens, note totals and labels: they would add easy members.
- HTTP routing, validation schemas, rate limits, proxying, token checks, stream handling of the Kubernetes client, `pg_dump` and `pg_restore`, file paths: plumbing over libraries.
- The portals, the editor and the interstitial page.
