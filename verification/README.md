# A model of AlphaWave's stateful core

AlphaWave is a personal task manager with a Telegram bot, a web API, a daily briefing, optional OpenAI
suggestions and a SQLite database that it backs up and restores. This project models the parts of it that
change state step by step, and proves what they keep over all runs, crashes and interleavings.

* **Files that survive.** `FileSystem` is one directory of a POSIX file system at the level of inodes: contents are
  volatile until `fsync` of the file, entries until `fsync` of the directory, and a crash may leave each name with
  any entry it had since, and any unsynchronised inode with anything at all. `Disks.Disk` is a disk with its system
  calls, each of which may fail; `history` keeps every state it has been in, so that a claim about `history` is a
  claim about a crash or an exception after any call, and `faults` counts the calls that failed, so that a claim
  about a run without any is a claim that the program does its work. `Publication` says what it means that a file
  is replaced as a whole. `Replacement` is the rollback of a runtime, `BackupFiles`, `BackupFormat`, `Restore`,
  `Retention` and `Creation` are the backups, and `BackupGuarantees` is what the backups are worth. gzip is a pair
  of functions of which one undoes the other, SHA-256, JSON and SQLite's checks are functions of bytes.
* **Integrations.** `Upsert` has any number of callers of the optimistic insert, interleaved between their round
  trips to the database, each with a session that may have loaded the row long before. `OpenAi` is the state machine
  of a user's OpenAI settings, with its whole history. `ModelCatalog` is the cache of the models, with requests that
  overlap.
* **Briefings.** `Grouping` fills the groups in place and refines a rule for each group; `Numbering` writes the
  lines, saves the snapshots and resolves the numbers in replies; `Schedule` is when briefings are sent.
* **Confirmations.** `Confirmations` is their life cycle with both ways to expire; `BulkJob` is a job over them,
  with anything else happening between its commits.
* **Smaller formats.** `Ownership` is the migration of rows without an owner, in SQL and in the ORM. `EnvFile`
  and `Password` are two text formats with their readers, `Dates` the arithmetic of deadlines and reminders.

Every program that changes state is a method with the source's loop or the source's order of steps, proved
against a function or a predicate on states; the properties are lemmas about these. `Text`, `Decimal`, `Order` and
`Wrappers` are helpers. `dafny verify dfyconfig.toml` checks everything.

## What turned out not to hold

Each item has its exact condition, and a lemma at an input that fails.

* Recording a validation keeps an accepted backup accepted exactly if its sidecar was read and the new one is not
  longer than 1 MiB (`Restore.RecordValidation`). A system error while the sidecar is read is taken for an empty
  sidecar, and the good one is then overwritten for ever (`BackupFormat.UnreadRecordingLoses`); a new sidecar that is
  too long is read as empty from then on (`BackupFormat.LongRecordingLoses`). For the same reason a restore can
  refuse an acceptable backup (`Restore.PrepareRestoreCandidate`), and a pruning can keep an old one
  (`Retention.PruneBackups`).
* Pruning twice with the same cutoff is the same as once only if no two backups have the same key and all sidecars
  could be read (`Retention.PruningAgain`, `BackupWitnesses.PruningTwiceCanDiffer`).
* A run can prune the backup it has just made: exactly if another one is taken for the newest, it is automatic, its
  sidecar can be read and it is older than the cutoff (`Creation.OwnPruningIff`,
  `BackupWitnesses.OwnBackupCanBePruned`).
* Enabling OpenAI does not mean that it is validated, when the model changes in the same call
  (`OpenAi.SafeAfterEnabling`, `OpenAi.EnabledNeedNotBeReady`).
* Validating a backup raises, instead of reporting, exactly for corrupt compressed data: the error of zlib is none of
  those that are caught (`BackupFormat.RaisesIffCorrupt`).
* The upsert can raise for a provider that the clean-up deletes (`Upsert.DisallowedCanRaise`), and for no other
  (`Upsert.NeverRaises`).
* The last update of an integration does not win as a whole: the ORM writes the columns that differ from what the
  session had loaded. Each field has the value of the last commit that wrote it; the row is what the last committer
  stored exactly if the fields that it left out were still as it had loaded them (`Upsert.LastWriterWinsIff`,
  `Upsert.FieldsCanMix`).
* Requests for the models that overlap can replace the cached entry by an older one, exactly if a fetch ends after one
  that began later; then a third one can fetch within the debounce (`ModelCatalog.EntryOnlyGetsYoungerIff`,
  `ModelCatalog.OverlapsCanOvertake`).
* A number in a briefing means the right task exactly if no visible task has a blank id
  (`Numbering.NumbersResolveIff`, `Numbering.BlankIdHasNoNumber`).
* A forced automatic briefing would be recorded a second time (`Schedule.RunIsOncePerDayIff`,
  `Schedule.ForcedIsSentTwice`); no caller forces one.
* `latest_pending` can miss a live confirmation when lifetimes differ (`Confirmations.LatestIsRightIff`,
  `Confirmations.LatestCanMiss`); the list and the look-up by id take a blank user differently
  (`Confirmations.ListedIffGot`, `Confirmations.BlankUserGetsOthers`).
* The two ownership migrations differ exactly on blank events that name, with a blank id, a task of another owner
  (`Ownership.SqlIsOrmIff`, `Ownership.MigrationsCanDiffer`).
* A value written to a `.env` file is not what is read if it has a line break, if a later line defines the key, or if
  the value starts or ends with a quote or white space (`EnvFile.WrittenIsReadIff`, `EnvFile.LineBreakIsLost`,
  `EnvFile.LaterLineIsRead`, `EnvFile.QuotesAreLost`).

## Model

| member | source | states |
|---|---|---|
| Disks.Disk.FsyncFile | scripts/admin/systemd_ownership.py:212-220 | after a successful call the file's inode is stable and nothing else differs; a failed one promises nothing about it |
| Disks.Disk.FsyncDirectory | scripts/admin/systemd_ownership.py:223-232 | after a successful call every name has its present entry as its only fate; a failed one changes no entry |
| Replacement.ApplyMetadata | scripts/admin/systemd_ownership.py:111-126 | the file has the recorded owner and mode when it returns, with the same data; other names are as they were |
| Replacement.PrepareSqliteReplacement | scripts/admin/systemd_ownership.py:235-256 | when it returns, the candidate has its old data with the recorded owner, and a crash cannot take that back |
| Replacement.AtomicReplace | scripts/admin/systemd_ownership.py:259-275 | every state on the way leaves the target old or new; unchanged when it raises before the rename, new on disk when it returns; done if no call fails |
| Replacement.Rollback | scripts/admin/rollback_transaction.py:37-55 | a source that is not valid, or metadata that cannot be read, leave everything alone; else in every state of the run the target is as it was, or all of the validated source with the recorded owner; `Done` puts that on disk, `Unchanged` differs in the temporary file at most; if no call fails, it is `Done` exactly if the source and the metadata are valid and the temporary name was free, and that name is free afterwards |
| Replacement.ReplacementSurvivesCrash | scripts/admin/rollback_transaction.py:37-55 | a crash after any call leaves the target as the complete old file or the complete new one, which passed the integrity check, and every other file as it could have been before |
| Replacement.KeptSurvivesCrash | scripts/admin/rollback_transaction.py:26-32 | the same for every run that keeps its target, as capturing the metadata does |
| Replacement.CapturedIsRestored | scripts/admin/rollback_transaction.py:22-55 | what a rollback restores from captured metadata is the owner and mode that the database had |
| Replacement.UnlinkKeeps | scripts/admin/rollback_transaction.py:54-55 | the removal of the temporary file in `finally` breaks none of these promises |
| Replacement.CaptureMetadata | scripts/admin/rollback_transaction.py:22-34 | in every state of the run the output is as it was, or all of the rendered owners of the database and its directory, readable by its owner alone; it disturbs no other file; if no call fails, it is written whenever there is a database |
| Publication.Publish | backend/app/services/backups.py:80-81 | `os.replace` of a synchronised file: the target is old or new in every state and after every crash |
| BackupFiles.WriteMetadata | backend/app/services/backups.py:376-386 | the sidecar is replaced as a whole or not at all, in every state on the way; replaced, and the temporary name free again, if no call fails |
| BackupFormat.VerdictIsAcceptance | backend/app/services/backups.py:228-284 | the chain of early returns passes exactly the backups that meet every requirement on gzip, size, SQLite, schema and sidecar |
| BackupFormat.VerdictTells | backend/app/services/backups.py:251-278 | each part of the verdict on a database says whether its own requirement is met, and the reason is the first that is not |
| BackupFormat.EarlyVerdictTells | backend/app/services/backups.py:240-254 | which files are said to be missing, empty, no gzip or no database |
| BackupFormat.SchemaIs | backend/app/services/backups.py:519-532 | the tables and columns that a database must have |
| BackupFormat.NewSidecarTells | backend/app/services/backups.py:441-453 | the sidecar of a new backup has its source and time, vouches for its bytes, and has no validation yet |
| BackupFormat.RecordedRecords | backend/app/services/backups.py:154-171 | recording adds the validation to a sidecar, fills in what was missing, and changes nothing else that it said |
| BackupFormat.NewBackupIsAccepted | backend/app/services/backups.py:441-453 | the metadata made for a backup of a restorable snapshot makes it accepted exactly if the sidecar is at most 1 MiB |
| BackupFormat.AcceptedAfterRecording | backend/app/services/backups.py:154-171 | when a backup is accepted after a validation was recorded: exactly what the old sidecar had to vouch for |
| BackupFormat.RecordingKeepsAcceptance | backend/app/services/backups.py:287-290 | recording a validation over a sidecar that was read keeps an accepted backup accepted if and only if the new one is at most 1 MiB |
| BackupFormat.UnreadRecordingLoses | backend/app/services/backups.py:363-373 | recording one while the sidecar could not be read loses the backup, whatever it was worth |
| BackupFormat.LongRecordingLoses | backend/app/services/backups.py:368-369 | an accepted backup that recording loses because the new sidecar is too long: its source fills the old one up to the limit |
| BackupFormat.UnreadDoesNotPass | backend/app/services/backups.py:477-480 | a backup whose sidecar could not be read does not pass validation |
| BackupFiles.ReadSidecar | backend/app/services/backups.py:363-373 | the sidecar, an exception, or a system error that is taken for an empty sidecar; what the sidecar says if no call fails |
| Restore.DecompressBackup | backend/app/services/backups.py:456-465 | the chunked loop writes exactly the decompressed bytes, synchronised, or fails; the target never holds more than the limit; it fails only if a call does |
| BackupFormat.RaisesIffCorrupt | backend/app/services/backups.py:279-280 | the verdict is an exception if and only if the file starts like gzip and its compressed data are corrupt |
| Restore.ExamineBackup | backend/app/services/backups.py:244-283 | the verdict on the temporary file is the one that the backup's bytes deserve, the one of an empty sidecar if that could not be read, an internal error, or an exception if the compressed data are corrupt; without a failing call, the verdict that the files deserve |
| Restore.ValidateBackup | backend/app/services/backups.py:228-284 | what passes is acceptable; the verdict is what the files deserve, unless the sidecar could not be read or there was an internal error; corrupt compressed data never get another one; nothing but the temporary file is touched; without a failing call, the verdict is what the files deserve |
| Restore.RecordValidation | backend/app/services/backups.py:154-290 | a failed call keeps the acceptance of the backup; a successful one stores all that the old sidecar said, with the validation, and what is acceptable and what pruning may take stay the same exactly if the sidecar was read and the new one is at most 1 MiB; if no call fails, it succeeds for every backup whose sidecar can be decoded |
| Restore.PrepareRestoreCandidate | backend/app/services/backups.py:293-310 | a restored target holds what the backup decompresses to, in a synchronised file (its directory is not synchronised, so the name of a new target may be lost in a crash), and the backup is acceptable; a refused backup is not, unless its sidecar could not be read; the target never passes the size limit; if no call fails, it restores exactly the acceptable backups, and leaves the target alone otherwise |
| Retention.CounterIsNumeric | backend/app/services/backups.py:146-151 | the counter of a backup's name is ordered as a number, its stamp as a text |
| Retention.KeyLeTotal | backend/app/services/backups.py:146-151 | any two sort keys can be compared |
| Retention.KeyLeTransitive | backend/app/services/backups.py:146-151 | the order of sort keys is transitive |
| Retention.KeyLeAntisymmetric | backend/app/services/backups.py:146-151 | two keys that are not after each other are equal |
| Retention.FindNewest | backend/app/services/backups.py:116-125 | the head of the sorted listing is a listed backup whose key no other one exceeds |
| Retention.PruneBackups | backend/app/services/backups.py:191-202 | removes exactly the backups that are automatic, older than the cutoff and not the newest, with their sidecars, but for those whose sidecars could not be read; on the way and after a crash nothing else is gone or changed; if no call fails, it raises exactly if a sidecar that it reads cannot be decoded, and leaves none unread |
| Retention.KeptBackupsKeepTheirSidecars | backend/app/services/backups.py:195-202 | a backup that is kept keeps its file and its sidecar |
| Retention.NewestStaysNewest | backend/app/services/backups.py:194-197 | the newest backup stays and stays the newest |
| Retention.PruningAgain | backend/app/services/backups.py:191-202 | a second pruning removes exactly what the first one could not tell, and the old automatic backup that was spared as the newest, if another one with the same key is taken for it |
| Retention.PruningIsIdempotent | backend/app/services/backups.py:191-202 | with distinct keys a second pruning at the same cutoff removes exactly what the first one could not tell, so nothing if all sidecars were read |
| BackupWitnesses.PruningTwiceCanDiffer | backend/app/services/backups.py:146-151 | ids that end in `-1` and `-01` have the same key; which of the two is taken for the newest decides whether the other one is pruned |
| Creation.ChooseName | backend/app/services/backups.py:61-66 | the collision loop ends, with the first name of its sequence that no file has |
| Creation.CandidatesDiffer | backend/app/services/backups.py:62-66 | no name is tried twice |
| Creation.CompressSnapshot | backend/app/services/backups.py:432-438 | the loop reads chunk by chunk and lets out the compressed stream piece by piece; in the end the file is the compressed snapshot, synchronised, and nothing else is touched; it fails only if a call does |
| Creation.PrepareCompressed | backend/app/services/backups.py:70-73 | before anything is published only the two temporary files are touched; when it returns, the one is a synchronised file with the compressed form of the other, whose integrity is checked; if no call fails, it returns exactly for a snapshot that passes the check |
| Creation.PublishBackup | backend/app/services/backups.py:80-87 | rename, sidecar and directory: every state leaves the planned files or none; after a failing sidecar the backup is gone again, unless removing it failed too; after a failing directory both files are in place; both files are stored if no call fails |
| Creation.MakeBackup | backend/app/services/backups.py:69-87 | when it returns, backup and sidecar are stored; every state before follows the plan; if no call fails, they are exactly for a snapshot that passes the check |
| Creation.PruneAfter | backend/app/services/backups.py:88-90 | the new backup survives the pruning of its own run unless the run took longer than the retention; what it pruned is gone |
| Creation.OwnPruningIff | backend/app/services/backups.py:191-202 | the run's own backup is prunable if and only if another one is taken for the newest, it is automatic, its sidecar is at most 1 MiB, and it is older than the cutoff |
| BackupWitnesses.OwnBackupCanBePruned | backend/app/services/backups.py:88 | a directory in which it is |
| Creation.CreateBackup | backend/app/services/backups.py:61-97 | the name was free; in every state all other files are as before, as planned, or pruned; a created backup is stored whole with its sidecar; if no call fails, it creates one exactly if the snapshot passes the check, the sidecars that pruning reads can be decoded and it does not prune its own, and no temporary file is left |
| BackupGuarantees.CrashLeavesWholeBackup | backend/app/services/backups.py:69-97 | after a crash or exception at any point the new backup is missing or whole, and accepted exactly if the sidecar beside it vouches for a restorable snapshot; never without a sidecar |
| BackupGuarantees.CrashLeavesAcceptedPair | backend/app/services/backups.py:80-87 | if the sidecar's name was free as well, accepted exactly if both files are there |
| BackupGuarantees.OtherFilesStay | backend/app/services/backups.py:61-97 | no other file is overwritten or damaged at any point; only pruning removes any |
| BackupGuarantees.CreatedBackupIsSafe | backend/app/services/backups.py:87-97 | a backup that was reported as created survives every crash, byte for byte, with its sidecar |
| BackupGuarantees.RestoreCreatedBackup | backend/app/services/backups.py:293-310 | restoring it writes exactly the bytes of the snapshot, and is refused only if its sidecar cannot be read; if no call fails, it is restored |
| Upsert.RunKeepsInvariant | backend/app/services/integrations.py:64-110 | the invariant of all interleavings: one row per key, what each caller knows, the log of commits, each field as the last commit that wrote it left it |
| Upsert.AtMostOneRow | backend/app/services/integrations.py:64-110 | at most one row per user and provider in every reachable state |
| Upsert.NeverRaises | backend/app/services/integrations.py:92-108 | a caller for an allowed provider never raises, and commits at most twice, whatever the others do |
| Upsert.CallersProgress | backend/app/services/integrations.py:64-110 | no caller is ever stuck, and no one else's step sets it back |
| Upsert.SixStepsSuffice | backend/app/services/integrations.py:64-110 | after six round trips of its own a caller has returned the row of its key |
| Upsert.ReturnsWhatIsStored | backend/app/services/integrations.py:109-110 | the row that a caller returns is the one of its key as it is stored then |
| Upsert.AloneStores | backend/app/services/integrations.py:64-110 | a caller that nobody interrupts stores and returns exactly what it was given, and changes no other row |
| Upsert.LastWriteStays | backend/app/services/integrations.py:87-107 | at any moment a field has the value that the last commit to write it gave it: a write is lost to a later write of the same field alone |
| Upsert.UnwrittenStays | backend/app/services/integrations.py:87-90 | a field that no commit has written is as it was |
| Upsert.LastWriterWinsIff | backend/app/services/integrations.py:87-110 | the row is all of what the last committer stored if and only if each field that it did not write, as its session had loaded that value, still had it |
| Upsert.FieldsCanMix | backend/app/services/integrations.py:74-92 | two updates that look before either commits, and leave a row that neither stored |
| Upsert.NormalizeKeepsInvariant | backend/app/services/llm.py:160-168 | the clean-up of providers never deletes the row of an allowed one |
| Upsert.DisallowedCanRaise | backend/app/services/integrations.py:100-102 | for a provider that is not allowed, a run in which the second look finds nothing and raises |
| OpenAi.SaveLoad | backend/app/services/llm.py:503-540 | a stored configuration is read back as it was |
| OpenAi.LoadIsNormal | backend/app/services/llm.py:503-531 | whatever the row holds, reading gives a valid model, and ready only with a validated model |
| OpenAi.RunTellsHistory | backend/app/services/llm.py:280-395 | in every run from any row, the stored status, validated model and model say what the last save, revocation, model change, error or validation was |
| OpenAi.RunTellsSettings | backend/app/services/llm.py:280-496 | in every run the flag, the key, the model, the three dates, the catalogue and the encryption key are what the last call to set each of them gave |
| OpenAi.LatestIs | backend/app/services/llm.py:280-496 | what the last call to set a value means: it sets it and no later one does |
| OpenAi.AcceptedIff | backend/app/services/llm.py:280-390 | exactly which calls are accepted |
| OpenAi.RefusedChangesNothing | backend/app/services/llm.py:308-342 | a call that is not accepted changes nothing |
| OpenAi.SafeMeansValidated | backend/app/services/llm.py:245-253 | `safe_to_use` implies that the last of these was a successful validation of exactly the current model |
| OpenAi.ReadyIffValidated | backend/app/services/llm.py:472-496 | the status is ready if and only if that is so, if and only if `validated_model` is set, and then it is the model |
| OpenAi.LastLoudIsLast | backend/app/services/llm.py:472-496 | the last mark of a history has only quiet operations after it |
| OpenAi.SafeToUseIff | backend/app/services/llm.py:220-253 | which of the tests behind `safe_to_use` matter |
| OpenAi.SafeAfterEnabling | backend/app/services/llm.py:308-342 | after a successful enabling, OpenAI can be used if and only if the model stayed and is supported |
| OpenAi.EnabledNeedNotBeReady | backend/app/services/llm.py:316-340 | a successful call that leaves OpenAI enabled and not validated |
| OpenAi.Account.SaveCredentials | backend/app/services/llm.py:280-305 | the new state is that of the state machine |
| OpenAi.Account.UpdateSettings | backend/app/services/llm.py:308-342 | the new state is that of the state machine; nothing changes when it raises |
| OpenAi.Account.RevokeCredentials | backend/app/services/llm.py:345-378 | the new state is that of the state machine |
| OpenAi.Account.RecordObservation | backend/app/services/llm.py:472-496 | stamps whatever model is stored when it runs |
| OpenAi.Account.ValidateLlm | backend/app/services/llm.py:381-395 | the new state is that of the state machine; nothing changes when there is nothing to check |
| ModelCatalog.ModelCache.ListModels | backend/app/services/openai_models.py:91-208 | serves the cache, fetches, or falls back to the stale entry exactly as the cache's specification says; other users' entries stay |
| ModelCatalog.ModelCache.Invalidate | backend/app/services/openai_models.py:72-74 | the user's entry is gone and no other |
| ModelCatalog.SortedIsSorted | backend/app/services/openai_models.py:164-176 | the sorting of the fetched models puts them in the order of recommendation and then of the id |
| ModelCatalog.RecommendedIsHead | backend/app/services/openai_models.py:221-235 | the recommended model is the head of the cached list for any selection, and none if it is empty |
| ModelCatalog.CurrentIsListedOnce | backend/app/services/openai_models.py:221-232 | the current model is listed exactly once if and only if OpenAI did not list it twice, and only it is marked current |
| ModelCatalog.ChoicesTell | backend/app/services/openai_models.py:270-303 | what is said of each choice: current, validated, supported or unavailable |
| ModelCatalog.FilteredParts | backend/app/services/openai_models.py:164-174 | every model is kept as often as it is listed, in its place |
| ModelCatalog.FetchedAreSupported | backend/app/services/openai_models.py:162-179 | a fetch puts exactly the supported models into the cache, sorted, with the time of the request |
| ModelCatalog.ViewTells | backend/app/services/openai_models.py:102-208 | which answer has which status, when it is cached or stale, and how old it is |
| ModelCatalog.FetchesAreSpaced | backend/app/services/openai_models.py:123-140 | if no fetch overtakes a later one, a fetch that begins after another has ended is at least five seconds later, thirty minutes if it is not forced, whatever the clock does |
| ModelCatalog.EntryOnlyGetsYoungerIff | backend/app/services/openai_models.py:102-179 | between invalidations and for requests that overlap in any way, an entry is never replaced by an older one if and only if fetches end in the order of their times |
| ModelCatalog.SeparateNeverOvertake | backend/app/services/openai_models.py:102-179 | requests that do not overlap do not overtake each other, whatever the clock does |
| ModelCatalog.OverlapsCanOvertake | backend/app/services/openai_models.py:177-179 | two overlapping fetches of which the slow one leaves its older entry, and a third one within the debounce |
| ModelCatalog.FetchLeavesEntry | backend/app/services/openai_models.py:177-179 | after a fetch there is an entry, and if none overtakes, it is no older than that fetch |
| ModelCatalog.FailedFetchServesStale | backend/app/services/openai_models.py:188-202 | a failed fetch leaves the cache as it was and serves it as stale |
| ModelCatalog.EntriesAreSorted | backend/app/services/openai_models.py:164-179 | every entry that a run leaves is sorted |
| Grouping.EligibleTasks | backend/app/services/briefing.py:356-364 | keeps, in order, the tasks that are active, not done and not snoozed |
| Grouping.Place | backend/app/services/briefing.py:121-169 | one round changes exactly the group the task belongs to, if that is not full |
| Grouping.Group | backend/app/services/briefing.py:117-181 | every group the loop fills is the first `limit`, in order, of the tasks that its rule admits; the confirmations are all of the pending ones |
| Grouping.ShownIff | backend/app/services/briefing.py:121-169 | a task is in a group if and only if it belongs there and fewer than the limit before it do |
| Grouping.NoTaskInTwoGroups | backend/app/services/briefing.py:121-169 | no task is in two groups, nor twice in one |
| Grouping.InProgressOnlyWhenStale | backend/app/services/briefing.py:142-150 | a task in progress is shown as a mention, as unclassified or as stale, and nowhere else |
| Grouping.RoutedNowhereIff | backend/app/services/briefing.py:125-169 | exactly which tasks belong nowhere, whatever the limits |
| Grouping.StaleIff | backend/app/services/briefing.py:562-579 | a task is stale if and only if it is in progress and the first known of its four times is more than the number of days ago, and such tasks are wanted today |
| Grouping.StaleItemsAreIdle | backend/app/services/briefing.py:582-585 | every stale item is in progress and says for how many whole days it has been idle, no fewer than are allowed |
| Grouping.DueIff | backend/app/services/briefing.py:569-572 | a perpetual task is shown if and only if its next check-in has come and such tasks are wanted today |
| Grouping.PerpetualItemsAreDue | backend/app/services/briefing.py:588-592 | every perpetual item is due and says how many whole days ago it was asked about, if ever |
| Grouping.ItemsTellTheirTask | backend/app/services/briefing.py:367-376 | every item says what its task says, and why it is shown |
| Grouping.ConfirmationsAreShown | backend/app/services/briefing.py:171-181 | the pending confirmations are all shown, in their order, until when they can be given |
| Numbering.FormatPayload | backend/app/services/briefing.py:379-410 | the nested loops write the specified lines and collect the ids of the numbered items |
| Numbering.NumbersRunOn | backend/app/services/briefing.py:382-406 | numbers run from 1 without gaps across the groups, each beside the title of its item; confirmations take none |
| Numbering.BodyAsksRightly | backend/app/services/briefing.py:394-396 | the question below an unclassified task names that task's number and proposal |
| Numbering.SaveSnapshots | backend/app/services/briefing.py:463-483 | the loops collect the non-blank ids of each snapshot's groups in order |
| Numbering.TaskSnapshot | backend/app/services/briefing.py:463-472 | the "tasks" snapshot is the ids of the numbered items, in their order, without blank ones |
| Numbering.PerpetualSnapshot | backend/app/services/briefing.py:471-472 | the "perpetuals" snapshot is the ids of the perpetual group |
| Numbering.NumbersResolveIff | backend/app/services/telegram_processor.py:873-884 | every printed number resolves to the item it was printed with if and only if no visible item has a blank id |
| Numbering.BlankIdHasNoNumber | backend/app/services/briefing.py:463-470 | a briefing of one task with a blank id, whose number means no task |
| Numbering.NoTaskHasTwoNumbers | backend/app/services/briefing.py:379-410 | with distinct ids no task has two numbers |
| Numbering.ReplyMeansTask | backend/app/services/telegram_processor.py:873-884 | from the tasks to the reply: a number printed with a title resolves to a task of that title, which belongs to a group |
| Numbering.Brief | backend/app/services/briefing.py:105-184 | grouping, text and both snapshots of one briefing together |
| Schedule.Briefings.SendBriefing | backend/app/services/briefing.py:187-248 | the rows and messages after each way a call can go, including a process that ends half-way |
| Schedule.Briefings.MaybeSendDue | backend/app/services/briefing.py:251-292 | the rows and messages after a tick |
| Schedule.StepKeepsOncePerDay | backend/app/services/briefing.py:201-248 | a step keeps at most one automatic briefing and one late cutoff per user and day, if and only if it does not force a second one |
| Schedule.RunIsOncePerDayIff | backend/app/services/briefing.py:201-292 | the same for whole runs |
| Schedule.ForcedIsSentTwice | backend/app/services/briefing.py:201 | an automatic briefing that is forced after another is recorded twice |
| Schedule.CallersKeepOncePerDay | backend/app/services/briefing.py:486-513 | and with the callers there are, it holds in every run |
| Schedule.TickSendsIff | backend/app/services/briefing.py:262-292 | a tick sends if and only if the day has no recorded automatic briefing, everything is enabled and the time is in the window |
| Schedule.SendsUnlessSent | backend/app/services/briefing.py:187-248 | a call sends unless it is automatic, not forced and the day has had its own; what became of the message is in the row, for every outcome |
| Schedule.LateTickIsRecorded | backend/app/services/briefing.py:271-284 | a tick past the cutoff sends nothing and records that once, exactly on a day that would have had a briefing |
| Schedule.UnsettledNeverBlock | backend/app/services/briefing.py:486-498 | failed and pending rows, wherever they are, have no influence on what a tick adds |
| Schedule.DueTickSettles | backend/app/services/briefing.py:262-292 | one delivered tick in the window settles the day for good: no later tick of the day does anything |
| Schedule.MessagesOfADay | backend/app/services/briefing.py:219-248 | a user gets at most one automatic message more than there are unsettled rows, and no fewer than are recorded |
| Confirmations.Store.CreateConfirmation | backend/app/services/confirmations.py:13-43 | adds one pending row, unless the id is taken |
| Confirmations.CreatedIsPending | backend/app/services/confirmations.py:26-39 | a new confirmation is pending, its user's, and ends when its lifetime does |
| Confirmations.Store.ExpireDue | backend/app/services/confirmations.py:110-124 | marks exactly the pending rows that are due |
| Confirmations.Store.ListPending | backend/app/services/confirmations.py:46-56 | sweeps, then lists |
| Confirmations.SelectedAreThose | backend/app/services/confirmations.py:48-56 | exactly the pending rows that match are listed, the newest first |
| Confirmations.SelectedMatch | backend/app/services/confirmations.py:48-65 | which rows match: the chat, the source, the action and the user, as far as they are given |
| Confirmations.Store.LatestPending | backend/app/services/confirmations.py:59-74 | the head of the unswept selection, or, if that is due, none, and it is marked |
| Confirmations.Store.GetPending | backend/app/services/confirmations.py:77-88 | the live row of this id and owner; a due one is marked |
| Confirmations.Store.Settle | backend/app/services/confirmations.py:91-107 | one row gets its final status and time, and no other changes |
| Confirmations.Store.ResolvePending | backend/app/services/confirmations.py:77-107 | a guard and what it guards: the live row of this id and owner is resolved, and no other |
| Confirmations.RunKeepsInv | backend/app/services/confirmations.py:46-124 | in every run of guarded operations and jobs: no action succeeds twice, people and jobs resolve in time, the clock only what is due |
| Confirmations.ResolvedStays | backend/app/services/confirmations.py:77-107 | a confirmation that is not pending never changes again |
| Confirmations.StepBrings | backend/app/services/confirmations.py:77-124 | what one event does to a pending row: confirmed, cancelled and failed each by a call of that kind that the guard lets through, expired only when it is due |
| Confirmations.HowItEnded | backend/app/services/confirmations.py:77-124 | in every run a row that was resolved was so by one event, of the kind that its status says, at its time |
| Confirmations.EndsAs | backend/app/services/confirmations.py:91-107 | in every run an event that confirms, cancels or fails a pending row decides how it ends |
| Confirmations.SucceedsIff | backend/app/services/background_jobs.py:138-152 | a call succeeds, and an action is executed, exactly if the guard lets it through and the action does not raise |
| Confirmations.ListedIffGot | backend/app/services/confirmations.py:46-88 | at any instant a row is in a user's list if and only if the look-up by id finds it, and it is the same row; with the exception of a blank user |
| Confirmations.SweepsAreUnseen | backend/app/services/confirmations.py:77-124 | eager and lazy expiry are equivalent: sweeping anywhere in any run changes nothing that is executed, no row but for the mark of a due one, and no answer but that to a question for the latest one |
| Confirmations.BlankUserGetsOthers | backend/app/services/confirmations.py:53-54 | a confirmation that a blank user finds by its id and not in the list |
| Confirmations.LatestIsRightIff | backend/app/services/confirmations.py:59-74 | in whatever order the database gives rows of the same second, the latest pending one is a newest of the list, and none only if the list is empty, if and only if the newest unswept row is live or none is |
| Confirmations.AnswerIsRightIff | backend/app/services/confirmations.py:59-74 | the same for the answer of the store |
| Confirmations.LatestWithEqualLifetimes | backend/app/services/confirmations.py:59-74 | with equal lifetimes it always is |
| Confirmations.LatestCanMiss | backend/app/services/confirmations.py:67-73 | with mixed ones it can miss a live confirmation |
| Confirmations.Store.ProcessConfirmation | backend/app/services/background_jobs.py:138-152 | guard, action and clean-up of one id |
| BulkJob.BackgroundJob.Process | backend/app/services/background_jobs.py:53-87 | every commit has one result per processed id in order with counters that add up; the last one has the final status; results tell which actions succeeded, whatever others did in between |
| BulkJob.StatusTells | backend/app/services/background_jobs.py:76-87 | completed if and only if all succeeded, failed if and only if there were some and none did; an empty job is completed |
| BulkJob.NoneLeftPending | backend/app/services/background_jobs.py:63-74 | at the end none of the owner's ids is pending, whatever happened in between |
| BulkJob.TurnTouchesOwn | backend/app/services/background_jobs.py:138-152 | whatever others do in between, no turn of the job touches another user's row, nor any row if the job has no owner |
| BulkJob.OthersUntouched | backend/app/services/background_jobs.py:138-152 | so, if nobody else acts, other users' rows are untouched at the end |
| BulkJob.TurnExecutes | backend/app/services/background_jobs.py:63-74 | a turn adds its id to the executed ones if its result is confirmed, and else nothing, after what others added |
| BulkJob.ResultsAreExecuted | backend/app/services/background_jobs.py:63-74 | whatever others do in between, the confirmed results are, in their order, among the actions that succeeded since the job began, and all of them if nobody else executed any |
| BulkJob.NoIdSucceedsTwice | backend/app/services/background_jobs.py:63-74 | whatever others do in between, repeated ids, and ids that any job executed before, do not succeed again, and every confirmed one is among the executed |
| Ownership.BackfillRows | backend/app/services/ownership.py:20-23 | the loop over the blank rows of a table fills each of them and changes no other |
| Ownership.Database.EnsureSchema | backend/app/core/db.py:88-163 | the updates in their order fill every blank owner and change no other, and give the specified tables; the runs of briefings are filled only if there is one user |
| Ownership.Database.BackfillCoreUserIds | backend/app/services/ownership.py:18-29 | the loops over rows fill every blank owner and change no other, and give the specified tables |
| Ownership.BothOnlyFill | backend/app/services/ownership.py:18-29 | both fill every blank owner in every table and change no other |
| Ownership.SecondChangesNothing | backend/app/core/db.py:88-163 | a second migration, by either of them and for whatever owner, changes nothing |
| Ownership.EventsFollowTasks | backend/app/core/db.py:130-138 | a blank event gets the owner its task has in the end |
| Ownership.SqlIsOrmIff | backend/app/services/ownership.py:24-27 | the two migrations agree on every database if and only if no blank event names, with a blank id, a task of another owner |
| Ownership.MigrationsCanDiffer | backend/app/services/ownership.py:26 | a task with a blank id on which they differ |
| Ownership.EventsFirstLeaveBlankIff | backend/app/core/db.py:102-138 | with events filled before tasks, an event stays blank exactly if its task's owner was the empty text |
| EnvFile.File.ReadEnv | scripts/lib/onboarding.py:292-302 | the loop gives each key the value of the last line that defines it |
| EnvFile.DefinesIff | scripts/lib/onboarding.py:296-299 | a line is a definition if and only if it is not blank, no comment, and has an equals sign |
| EnvFile.DefinesWhat | scripts/lib/onboarding.py:300-301 | the key is before the first equals sign and the value after it |
| EnvFile.File.WriteEnvValue | scripts/lib/onboarding.py:305-316 | the first line that starts with the key is replaced, or one is added; no other line changes |
| EnvFile.SplitJoined | scripts/lib/onboarding.py:316 | lines that are joined and split again are the same lines |
| EnvFile.WriteThenRead | scripts/lib/onboarding.py:292-316 | what is written is the first line for the key, or the last one, or several if the value has line breaks; if it is one, every other key has its old value, and the key its new one, cleaned, unless a later line defines it |
| EnvFile.CleanedIff | scripts/lib/onboarding.py:301 | a value survives reading if and only if it neither starts nor ends with white space or a quote |
| EnvFile.WrittenIsReadIff | scripts/lib/onboarding.py:292-316 | what is read is what was written, if and only if it has no line break, no later line says otherwise and the value survives reading |
| EnvFile.LineBreakIsLost | scripts/lib/onboarding.py:296 | a value with a line separator is read up to that separator |
| EnvFile.LaterLineIsRead | scripts/lib/onboarding.py:309-313 | of two definitions, writing replaces the first and reading gives the second |
| EnvFile.QuotesAreLost | scripts/lib/onboarding.py:301 | a quoted value is read without its quotes |
| Password.VerifyHashed | backend/app/services/auth.py:180-198 | a password is accepted against a hash if and only if the derived keys are equal, for every salt and setting; never an exception |
| Password.EncodedIsInjective | backend/app/services/auth.py:180-184 | different iteration counts, salts or digests are never printed alike |
| Password.HexRoundTrip | backend/app/services/auth.py:184-194 | hexadecimal printing is undone by reading, and has no separator |
| Password.PlaceholderRefuses | backend/app/services/auth.py:23 | the bootstrap placeholder verifies for no password |
| Dates.NextWeekdayIsFirst | backend/app/services/deadlines.py:130-136 | the first such weekday after today, one to seven days ahead, strictly later than now |
| Dates.DueIsAtItsTime | backend/app/services/deadlines.py:146-160 | a deadline is at the hour and minute that were named, if there are such, and else at noon |
| Dates.NextWeekIsNextWeek | backend/app/services/deadlines.py:139-143 | that weekday of the week that starts on the next Monday |
| Dates.NextWeekIsWeekLaterIff | backend/app/services/deadlines.py:130-143 | a week after the plain weekday if and only if that one is still to come this week, and the same day otherwise |
| Dates.RelativeBounds | backend/app/services/reminder_parser.py:58-63 | less than a minute early in spite of truncation; strictly in the future if and only if the amount is not zero |
| Dates.AbsoluteIff | backend/app/services/reminder_parser.py:68-77 | accepted if and only if the time exists and, for today, is to come; then it is strictly in the future on the right day |

## Left out

- Disks.Disk.Rename: one directory only; the repository's replacements stay inside one, and refuse others.
- Replacement.Rollback: symbolic links, the fork that probes access under another user, and the text of the metadata; reading and printing that is a pair of functions of which one undoes the other.
- Creation.CreateBackup: the checks of the configuration before it, the clean-up of `-wal`, `-shm` and `-journal` files, and what SQLite's online copy does; it yields some bytes or fails.
- Restore.ValidateBackup: symbolic links and resolved paths; a backup is a regular file in the directory.
- Retention.PruneBackups: listing the directory and asking for the times of files do not fail.
- Retention.FindNewest: which of several backups with the same key is the head is not determined.
- Retention.CounterIsNumeric: digits outside ASCII in a backup's name.
- Upsert.NeverRaises: a commit fails on the unique constraint, or because the row is gone; a database that is locked, which also raises, is not modelled.
- Upsert.RunKeepsInvariant: a caller is one call with a session of its own; what else that session does, before or after, is any value that it holds of the row at the start.
- BackupFormat.LongRecordingLoses: that plain text makes JSON longer by its length, and that recording adds to it, are assumptions on the printing of JSON.
- OpenAi.RunTellsHistory: each operation is one step; the texts of errors, and what is sent to OpenAI, are not modelled.
- ModelCatalog.ModelCache.ListModels: one request by itself; how requests overlap is in the lemmas about flights. The display names and dates of a model; which ids are supported is any predicate.
- Grouping.Group: the query and its order; the tasks are given in their order. Whether a snooze has passed, which scopes a weekend allows and how a title is classified are any functions.
- Numbering.FormatPayload: the wording of the lines; a line is a value, and joining the lines is not modelled.
- Numbering.ReplyMeansTask: that the latest snapshot is the one of this briefing, and that the task still exists.
- Schedule.RunIsOncePerDayIff: calls that overlap while a message is being sent.
- Confirmations.RunKeepsInv: a guard and what it guards are one step; an action touches no confirmation but its own.
- Confirmations.Store.LatestPending: of rows that were created in the same second it takes a certain one, where the database may give any; `LatestIsRightIff` holds for all.
- BulkJob.BackgroundJob.Process: a job whose row is deleted while it runs, a job that is processed again, and the messages of its results.
- Ownership.Database.EnsureSchema: the other column additions and indexes.
- EnvFile.File.ReadEnv: the decoding and encoding of bytes.
- Password.VerifyHashed: PBKDF2 itself, and digits outside ASCII.
- Dates.NextWeekdayIsFirst: time zones and daylight saving, and the patterns that find the words.
- The web interface, the HTTP routes and their version checks, settings, secrets, the Telegram and Trello clients, the reminder worker and the lock files.
