# DitakNet, modelled in Dafny

DitakNet monitors a network and looks after its own database. This project models the parts that
protect that database, that decide which release is offered and handed over, and that turn check
results into alerts, and proves what those parts keep over every run. `dafny verify dfyconfig.toml`
checks all of it.

| module | what it models |
|---|---|
| `Disk`, `Restore` | an offline restore as a sequence of file-system steps with a power failure possible between any two |
| `RuntimeLock` | the lock on the data directory and all interleavings of servers, restores and crashes |
| `Database` | the compatibility gate, the recovery backup and the migration ledger on a connection that loses uncommitted work |
| `Backup` | the archive format: what is created, what is accepted, what acceptance binds |
| `Versions`, `VersionTexts` | the three readers and comparers of versions, against section 11 of SemVer 2.0.0, and which texts they read |
| `UpdateMetadata`, `UpdateDocuments` | the schema-2 manifest: normal form, canonical payload, signatures, and the releases it can state |
| `Updates`, `UpdateAnswers`, `UpdateDeadlines` | one update check and its saved trust state, what it takes from each source, when it asks, over all runs of checks |
| `Preflight` | compatibility of an offer, its binding to a backup, and the stored receipt |
| `ServiceStates`, `Alerts`, `Scheduling` | retries, threshold states and alerts, alone and composed |
| `AgentAlerts` | metric thresholds and missing heartbeats on the table of agent alerts |
| `Lockout` | the login lockout of one account |
| `Heartbeat` | the bars of check counts on a device page |
| `Digests`, `Numbers`, `Options` | shared vocabulary |

Objects that the program updates in place are classes whose methods are proved against functions of
the old state; the results over whole runs are lemmas about those functions.

## What is assumed

- **Power failure.** A file keeps everything up to its last sync; pages written since may be torn, and
  a WAL may come back as any of the frame sequences it may have. Every directory entry that was not
  synced may come back as any target it had since the last sync, independently of every other entry:
  no ordering of unsynced directory operations is assumed. A rename is atomic.
- **SQLite.** A database file is its pages with the committed WAL frames laid over them. A truncating
  checkpoint syncs the WAL, copies frame after frame, syncs the file and then cuts the WAL. Integrity
  checks, and the pages that the bytes of a file are, are parameters. A schema statement outside a
  transaction commits at once; a row change opens a transaction. A page is written back to the main file
  only under the WAL that holds it. Opening a database may create an empty WAL; closing the last
  connection checkpoints and unlinks it, or leaves it where the checkpoint fails.
- **Cryptography.** SHA-256 digests and Ed25519 signatures are free constructors: equal digests mean
  equal data, and a signature verifies only over the payload and under the key it was made with. A
  migration's id is likewise its statement.
- **Time** is integer ticks read from a clock; each statement says where readings must not go back.
  Network answers, faults, file contents and clock readings are parameters of the operations.
- **Concurrency.** The runtime lock and the backup lock serialise restores, starts and backups, and
  `RuntimeLock` covers their interleavings. Checks of one service follow each other. Submissions of
  agents may overlap, because the program waits for the database between looking for an open alert and
  creating one: the class `Monitor` is one operation after another, and `UniqueDecides` covers every
  interleaving.

## What turned out not to hold as it reads

- A restore when the database file is missing but a WAL lies beside the name: the WAL is only
  unlinked, not synced away, so a crash may pair it with the restored file, until the directory sync
  after the rename. Every crash before that sync leaves nothing or the staged content exactly when that WAL
  changes nothing (`Restore.StaleWalDecides`); `Restore.Machine.TraceRecovers` covers such a start too.
- Content the stopped server had committed but never synced can be lost to a crash in the first part of
  the restore, as it could before it. Only once the checkpoint has synced the WAL does a crash leave the
  content the server saw, and the snapshot holds that content
  (`Restore.Machine.TraceRecovers`, `Restore.StoppedDatabaseDecides`).
- A server whose close fails releases the lock with the connection still open; a restore may then
  replace the file under it (`RuntimeLock.AbandonedOutdated`).
- With maintenance mode or a removal in the run an incident can stay active on a service that is no
  longer CRITICAL (`Scheduling.ActiveMeansCriticalKept`), and then two critical alerts can lack a recovery
  between them: exactly when a check issues one over an active incident
  (`Scheduling.RecoveredBetweenDecides`).
- Two overlapping submissions for one agent can leave two open alerts of one type
  (`AgentAlerts.UniqueDecides`, `AgentAlerts.OverlapDuplicates`). A lock per agent and type would prevent
  it (`AgentAlerts.ExclusiveIsUnique`).
- A 304 answer re-saves the stored payload's mark without a replay test; it cannot lower a mark exactly
  when the payload is not older than it (`Updates.NotModifiedNeedsSound`). The invariant that makes
  this always so is kept by every check.
- While the replay record cannot be read every schema-2 manifest that is fetched is refused. A 304 that
  re-saves a payload with a mark replaces the record by that one mark, and protection goes on without the
  other channel's (`Updates.UnreadableMarks`).
- An offer served again by a 304, during a backoff or after a failed refresh keeps the flag it was saved
  with: after an upgrade to the version on offer, that version is still offered
  (`Updates.ServedFlagIsStored`, `Updates.UpgradeLeavesOffer`). While one version runs every status is
  right (`Updates.StatusesAreRight`).
- The comment in `_save_failure` says the delay is capped at 24 hours; it stops growing at 76800
  seconds (`Updates.BackoffGrowsToPlateau`).
- `compare_versions` calls a version with an uppercase pre-release identifier equal to its lower-case
  twin, which the strict readers tell apart (`Versions.UppercaseDisagrees`); and an offer that is good in
  every other way is handed over exactly when its target has no uppercase letter, because the image
  reference is lowered and the target is not (`Preflight.UppercaseDecides`).
- A start under a version the gate cannot read makes the gate forget every release before it
  (`Database.UnreadableVersionForgets`, `Database.DevelopmentIsUnreadable`).
- A new backup fails its own validation exactly when a limit is exceeded or a log file changed while it
  was being packed (`Backup.CreatedIsAccepted`).
- The bars do not cover the last (3600·hours mod buckets) seconds of their window; the dashboard's 26
  bars for 24 hours leave out 2 seconds (`Heartbeat.UncountedIsTail`). The field named an average is
  the response time of a single row (`Heartbeat.SampleMeaning`).
- Fields of a receipt that are null are not compared with the backup (`Preflight.ReadyMeansBound`).

## Model

| member | source | states |
|---|---|---|
| Restore.BeforeIsSafe | ditaknet/core/restore.py:158-218 | while the live name holds the old file and its WAL is beside it, every crash leaves exactly the old content and no receipt |
| Restore.ImageOfLive | ditaknet/core/restore.py:106-127 | whatever pages a crash tears and whichever WAL content survives, SQLite reads the old content |
| Restore.LooseIsSafe | ditaknet/core/restore.py:180-201 | until the WAL is settled, a crash leaves nothing but what a crash before the run could have left: unsynced commits may be lost, nothing else |
| Restore.CachedMayBeRecovered | ditaknet/core/restore.py:180-201 | the content the running system reads is one of those |
| Restore.OpenWal | ditaknet/core/restore.py:106-127 | opening the live database may create an empty WAL without changing what a crash leaves |
| Restore.UnlinkWal | ditaknet/core/restore.py:120-123 | unlinking the WAL changes nothing that a crash leaves, once it is empty or its frames are durable in the file |
| Restore.SyncWal | ditaknet/core/restore.py:106-116 | with the WAL and its entry synced, every crash from then on leaves exactly the cached content |
| Restore.ReplacingIsSafe | ditaknet/core/restore.py:211-219 | from the rename on, every crash leaves the old or the staged content, never a mixture of the two databases; the snapshot of the old one survives; a surviving receipt implies the staged content and names its hash; only if there was no database may the staged file come to lie under the WAL that lay there |
| Restore.ImageOfReplacing | ditaknet/core/restore.py:211-219 | once the directory is synced after the rename, exactly the staged content is recovered |
| Restore.CopyOne | ditaknet/core/restore.py:106-127 | a crash after any number of copied frames, with any of those pages torn, still reads as the old content |
| Restore.CopiedMayTear | ditaknet/core/restore.py:106-116 | until the next sync a copied page may come back as anything |
| Restore.FinishCopy | ditaknet/core/restore.py:106-116 | when all frames are copied and the file synced, the main file alone is the cached content |
| Restore.CutWal | ditaknet/core/restore.py:106-116 | cutting the WAL then is safe in either of its crash states |
| Restore.SettleLive | ditaknet/core/restore.py:124-126 | after the file and directory syncs the live file is self-contained and no sidecar can come back |
| Restore.BeginSnapshot | ditaknet/core/restore.py:190-197 | writing the snapshot under a temporary name never endangers the live database |
| Restore.EndSnapshot | ditaknet/core/restore.py:190-201 | after the fsyncs a whole copy of the old content is durable under the snapshot's name |
| Restore.StageFile | ditaknet/core/restore.py:204-212 | the staged file is complete and synced before anything live is touched |
| Restore.Replace | ditaknet/core/restore.py:214-219 | each step from the second unlink to the directory sync is crash-safe, and afterwards the old file cannot come back under the live name |
| Restore.OpenReplaced | ditaknet/core/restore.py:220 | validating the replaced file may create and drop an empty WAL beside it without harm |
| Restore.WriteReceiptFile | ditaknet/core/restore.py:130-155 | a half-written receipt never appears under a receipt name |
| Restore.PublishReceipt | ditaknet/core/restore.py:130-155 | when the receipt is published, every crash leaves the staged database, the whole receipt and the snapshot |
| Restore.Machine.OpenLive | ditaknet/core/restore.py:109-110 | opening for a checkpoint or a validation keeps every disk in the trace safe |
| Restore.Machine.SettleWal | ditaknet/core/restore.py:106-116 | the WAL and its entry are synced before anything is copied; from then on every crash leaves the cached content |
| Restore.Machine.CopyFrames | ditaknet/core/restore.py:106-116 | a checkpoint's work may stop after any frame; what a crash leaves is settled before the main file is touched, and snapshots are left alone |
| Restore.Machine.Checkpoint | ditaknet/core/restore.py:112-116 | success leaves an empty WAL and the cached content in the main file |
| Restore.Machine.CloseLive | ditaknet/core/restore.py:117-118 | closing the last connection checkpoints what is left and drops the sidecars, always if the WAL is empty; if the checkpoint fails they stay |
| Restore.Machine.SnapshotLive | ditaknet/core/restore.py:185-201 | from whatever a stopped server left: success, which is exactly a free name and no failed operation, means the cached content is durable under the snapshot's name; an existing name is never overwritten; failure anywhere leaves the live database recoverable as before |
| Restore.Machine.CheckpointLive | ditaknet/core/restore.py:106-127 | success, which is exactly no failed operation, establishes what the replacement needs |
| Restore.Machine.ReplaceLive | ditaknet/core/restore.py:214-219 | unlinks, rename and directory sync make the staged file durably the live one, with no step unsafe |
| Restore.Machine.StageAndReplace | ditaknet/core/restore.py:203-220 | success, which is exactly no failed operation, means the staged database is durably the live one and no receipt exists yet |
| Restore.Machine.WriteReceipt | ditaknet/core/restore.py:130-155 | success, which is exactly no failed operation, means every crash leaves the restored database together with its receipt |
| Restore.Machine.RestoreOffline | ditaknet/core/restore.py:158-243 | from whatever a stopped server left, or no database beside whatever WAL: it succeeds exactly with a free lock, the exact confirmation, an accepted archive whose own digest is the approved one, a free snapshot name, a database within the limit and no failed operation; where an approval is missing or the name taken nothing is touched; every disk in the trace of any run is safe; a returned receipt is durable and names the archive, the staged hash and the snapshot |
| Restore.OneDigestOneDatabase | ditaknet/core/restore.py:158-243 | two successful restores approved for one digest end in the same database after any crash |
| Restore.Machine.TraceRecovers | ditaknet/core/restore.py:158-243 | a crash at any point of any run recovers a content a crash before the run could have left, or exactly the staged one; once the WAL is settled exactly the cached or the staged one; where an old content is gone, its snapshot is on disk; a receipt on disk implies the staged content; with no database at first, nothing, the staged one, or that one under the WAL left there |
| Restore.StaleWalDecides | ditaknet/core/restore.py:184-219 | with no live database, every crash after the rename leaves nothing or exactly the staged content if and only if no surviving WAL changes what the staged file reads as |
| Restore.StoppedDatabaseDecides | ditaknet/core/restore.py:184-201 | a crash can change what the stopped database reads as if and only if some WAL content that may survive reads differently |
| RuntimeLock.Lock.Release | ditaknet/core/process_lock.py:28-35 | releasing frees the lock if this handle holds it; releasing again never frees somebody else's |
| RuntimeLock.AcquireRuntimeLock | ditaknet/core/process_lock.py:66-93 | refused exactly when some handle holds the lock, and then nothing changes; otherwise the caller's handle holds it |
| RuntimeLock.OwnedAlways | ditaknet/main.py:96-108 | in every interleaving a process works under the lock exactly when it holds it, and a server's open connection reads the current file |
| RuntimeLock.SingleOwner | ditaknet/main.py:96-108 | two working processes are the same process, and an open database is the current file: a connection to an outdated one was abandoned by a close that failed |
| RuntimeLock.AbandonedOutdated | ditaknet/main.py:103-108 | an abandoned connection reads an outdated file if and only if the database was replaced since its close failed |
| RuntimeLock.AbandonedOutlives | ditaknet/main.py:103-108 | a run in which a restore replaces the file under such a connection |
| RuntimeLock.StaysOpen | ditaknet/main.py:96-108 | a server that has opened the database has it open until it closes it, fails to, or dies |
| RuntimeLock.NeverReplacedWhileOpen | ditaknet/core/restore.py:180-219 | between a server's open and any later replacement of the file lies that server's close, failed close or death |
| RuntimeLock.OthersRefused | ditaknet/core/process_lock.py:66-93 | while an owner is active nobody else starts a server or a restore |
| RuntimeLock.StartsOrIsRefused | ditaknet/core/process_lock.py:66-93 | a start by an idle process takes the lock or is refused, never both, and a refusal changes nothing |
| RuntimeLock.CrashFreesLock | ditaknet/core/process_lock.py:28-35 | a death frees what the process held at once, and nothing that another holds |
| RuntimeLock.FactoryReset | ditaknet/main.py:96-108 | a run in which a server closes its database, replaces the file and opens the new one under one lock |
| RuntimeLock.RestoreAfterServer | ditaknet/core/restore.py:180-219 | a run in which a restore takes the lock a server has let go, and leaves it free |
| Database.PassMeaning | ditaknet/database.py:780-804 | a migration pass ends with exactly the old plus the listed ids and columns, from any state in which the ledger is truthful |
| Database.PassIgnoresOrder | ditaknet/database.py:780-804 | two lists with the same migrations in any order and number end in the same tables |
| Database.NothingPending | ditaknet/database.py:780-804 | a pass whose migrations are all in the ledger executes nothing |
| Database.HistorySound | ditaknet/database.py:737-804 | over every history of starts and crashes the ledger and the stored fingerprint stay truthful |
| Database.SkippedBackupMeansNoMigration | ditaknet/database.py:688-698 | in every such history a start on an existing database that skips the recovery backup leaves ledger and existing tables as they were, however it ends |
| Database.MigrationsFollowBackup | ditaknet/database.py:688-712 | from any database no release with a ledger has touched, in every history: a start that enters a migration into the ledger of an existing database is one that makes a recovery backup |
| Database.BackupDecides | ditaknet/database.py:688-712 | after a completed start of one release, a completed start of another makes a recovery backup if and only if the database is an existing one and the version text or the migrations, as multisets, differ |
| Database.UpgradesAreBackedUp | ditaknet/database.py:688-712 | over every history, refused, failed and crashed starts included: between two completed starts on an existing database whose versions or migrations differ lies a recovery backup |
| Database.Connection.CreateTables | ditaknet/database.py:759-760 | creating the missing tables keeps every column, id and marker, wherever it is interrupted |
| Database.Connection.RunMigrations | ditaknet/database.py:780-804 | the loop with its commits and crash points refines one pass; every state a crash can leave has a truthful ledger and the old markers |
| Database.Connection.WriteMarkers | ditaknet/database.py:715-731 | the markers change inside the open transaction, after all migrations are in the ledger |
| Database.Connection.Start | ditaknet/database.py:737-777 | a start ends refused, failed or started; refused exactly by the gate and then without any change; markers change only together with every table and every migration; the backup is made exactly under its condition wherever anything is written; without it nothing is migrated; without failures a start the gate lets through succeeds |
| Database.MigratedHasAll | ditaknet/database.py:780-804 | a pass that completes has every listed id in the ledger |
| Database.OneStartCompletes | ditaknet/database.py:737-804 | after one completed start every migration of the release is in place, whatever crashes and other lists came before, and its next pass changes nothing |
| Database.MigrationsPersist | ditaknet/database.py:737-804 | no later start of any release loses an id or a column |
| Database.DowngradeMeaning | ditaknet/database.py:676-685 | the gate's version test is SemVer precedence between two readable versions |
| Database.OlderReleaseIsDowngrade | ditaknet/database.py:676-685 | a release after another is a downgrade if and only if its three numbers are smaller |
| Database.GateMeaning | ditaknet/database.py:662-685 | refused exactly for garbage markers, a revision or reader beyond this release's, missing ones counting as 1, or a downgrade |
| Database.WriterNeverGoesBack | ditaknet/database.py:662-685 | after a successful start the recorded writer never precedes that release, while the starts that write markers have readable versions |
| Database.StartedVersionsNonDecreasing | ditaknet/database.py:662-685 | two successful starts never go back in precedence, if every start between them that wrote markers had a readable version |
| Database.GateAfterStart | ditaknet/database.py:662-685 | after a start of a release the gate refuses another one exactly for its schema or as a downgrade from that very version |
| Database.UnreadableVersionForgets | ditaknet/database.py:676-685 | a release with an unreadable version passes any writer, and after it no version is refused as a downgrade |
| Database.DevelopmentIsUnreadable | ditaknet/database.py:618-628 | a version text the application can carry and the gate cannot read |
| Backup.ReadMemberBounded | ditaknet/core/backup.py:149-162 | returns the whole member or nothing, nothing exactly when the declared or the real size exceeds the limit, however short the reads; never holds more than one byte beyond the limit |
| Backup.DigestMember | ditaknet/core/backup.py:173-183 | the digest is that of all the bytes, or none is given exactly past the limit |
| Backup.CopyMemberBounded | ditaknet/core/restore.py:66-79 | the staged file is the member byte for byte, or staging fails exactly past the limit |
| Backup.ValidateZipStructure | ditaknet/core/backup.py:186-214 | the early-exit loops accept exactly the archives with few, distinct, safe, bounded members of bounded total |
| Backup.ValidateBackup | ditaknet/core/backup.py:595-666 | accepts exactly the archives meeting all conditions, and reports what the archive's own manifest says |
| Backup.AcceptedMeaning | ditaknet/core/backup.py:595-666 | acceptance in numbers and members: size and member limits, paths that do not climb, sizes per name, the compression ratio, a known manifest or none, checksums that hold and name every data member in version 2, and a database SQLite accepts |
| Backup.ChecksumsBindMembers | ditaknet/core/backup.py:615-645 | two accepted v2 archives with equal checksum tables hold the same data members with the same bytes |
| Backup.AcceptedCanBeStaged | ditaknet/core/restore.py:66-88 | an accepted archive stages its database or is refused as oversized, and never refused when it records the database's digest, as v2 must |
| Backup.BuiltNames | ditaknet/core/backup.py:449-486 | the checksum table of a new archive names exactly its data members |
| Backup.BuiltDigests | ditaknet/core/backup.py:449-486 | every recorded digest matches its member if and only if no log changed between hashing and packing |
| Backup.CreatedIsAccepted | ditaknet/core/backup.py:423-494 | a new archive validates if and only if it is within the limits, SQLite accepts the snapshot, and the logs were stable |
| Backup.KeptContextMeaning | ditaknet/core/backup.py:334-374 | of an operation context every given field under one of the nine known names is kept, and nothing else |
| Backup.RoundTrip | ditaknet/core/backup.py:423-497 | restoring an accepted new archive stages the snapshot itself, and validation reports origin, context and digest as given |
| Backup.BackupDirectory.CreateFullBackup | ditaknet/core/backup.py:411-497 | never overwrites a name; a failed validation leaves nothing behind; success leaves exactly the new, accepted archive |
| Versions.CompareIsPrecedence | ditaknet/core/update_metadata.py:138-153 | the strict keys order versions exactly as section 11 of SemVer 2.0.0 does, and equal keys are equal versions |
| Versions.PrecedesTransitive | ditaknet/database.py:618-636 | with the above: precedence is a strict total order |
| VersionTexts.DecimalMeaning | ditaknet/core/updates.py:117 | a number's decimal text is numeric and read as that number |
| VersionTexts.NumericIsDecimal | ditaknet/core/update_metadata.py:131-133 | every numeric text is the decimal text of the number it is read as |
| VersionTexts.ReleaseOrder | ditaknet/core/updates.py:135-150 | printed releases are ordered by their three numbers by compare_versions, is_newer_version, the gate's key and precedence alike |
| VersionTexts.TextOrder | ditaknet/core/updates.py:153-160 | texts of versions without uppercase letters are compared as the standard orders the versions, and equal exactly when they are the same |
| VersionTexts.StrictMeaning | ditaknet/core/update_metadata.py:138-153 | the strict grammar accepts exactly the texts of proper versions, each as its own version |
| VersionTexts.GateMeaning | ditaknet/database.py:618-636 | the gate reads exactly those texts between whitespace and after at most one "v" |
| VersionTexts.PermissiveMeaning | ditaknet/core/updates.py:89-117 | the permissive grammar accepts exactly two or three numbers with leading zeros and, after a hyphen, any identifiers, and reads them so |
| VersionTexts.DressedIsRead | ditaknet/core/updates.py:77-86 | whitespace, the word "version", a "v" in any case and build metadata are taken off before |
| VersionTexts.LowerMeaning | ditaknet/core/updates.py:120-132 | lowering replaces each capital by its small letter and nothing else |
| Versions.LexMeaning | ditaknet/core/update_metadata.py:138-153 | comparing key tuples element by element is the first-difference order of the standard |
| Versions.CompareIdentMeaning | ditaknet/core/updates.py:120-132 | numeric identifiers compare as numbers, below all others; the others in ASCII order |
| Versions.LooseOfStrict | ditaknet/core/updates.py:77-117 | the permissive parser reads every text the strict gate reads, as the same version |
| Versions.CompareVersionsOnStrict | ditaknet/core/updates.py:135-150 | on strict texts compare_versions is the strict order after lowering the identifiers |
| Versions.LowercaseAgrees | ditaknet/core/updates.py:120-150 | without uppercase letters all comparers agree with the standard |
| Versions.LowerIsIdentity | ditaknet/core/updates.py:120-132 | lowering changes a version if and only if it has an uppercase identifier letter |
| Versions.ParseLowered | ditaknet/database.py:618-636 | the lower-case twin of a strict text is strict |
| Versions.UppercaseDisagrees | ditaknet/core/updates.py:135-150 | every version with an uppercase letter is called equal to its twin although the strict order tells them apart |
| UpdateMetadata.NormalizeSignatures | ditaknet/core/update_metadata.py:229-259 | the loop with its set of seen ids computes the normal form or refuses |
| UpdateMetadata.SignaturesMeaning | ditaknet/core/update_metadata.py:229-259 | the normal form has the same entries, each valid, each id once, in order of id, and is its own normal form |
| UpdateMetadata.PutMeaning | ditaknet/core/update_metadata.py:489-491 | putting an entry keeps the list ordered and replaces at most the entry of the same id |
| UpdateMetadata.RangeMeaning | ditaknet/core/update_metadata.py:361-387 | every version in an accepted range is at most the target and, without permission, in the target's major line, though only the minimum is checked for that |
| UpdateMetadata.NormaliseTwice | ditaknet/core/update_metadata.py:262-448 | validation is idempotent: a normalised manifest is accepted and normalises to itself |
| UpdateDocuments.NormalMeaning | ditaknet/core/update_metadata.py:262-448 | a manifest is accepted with the document of a proper release as normal form if and only if it spells that release: exact fields, prefixes, digests, range, channel and distinct signatures, in any letter case and order where that does not matter |
| UpdateDocuments.NormalIsDocument | ditaknet/core/update_metadata.py:262-448 | every normal form is the document of a proper release: hexadecimal digests, a range that fits, no pre-release on stable |
| UpdateDocuments.DocumentIsNormal | ditaknet/core/update_metadata.py:262-448 | the document of every proper release is accepted as it is |
| UpdateMetadata.PayloadIgnoresSignatures | ditaknet/core/update_metadata.py:451-463 | adding, rotating or removing acceptable signatures leaves the canonical payload the same, and a payload is its own payload |
| UpdateMetadata.SignedEntries | ditaknet/core/update_metadata.py:472-492 | signing an acceptable manifest succeeds and keeps every entry with another id |
| UpdateMetadata.SigningKeepsOthers | ditaknet/core/update_metadata.py:472-540 | signing succeeds exactly on acceptable manifests and ids; the id then verifies exactly when the ring holds the public half; no other id's verdict changes under any ring |
| UpdateMetadata.VerifiedKeyIds | ditaknet/core/update_metadata.py:504-540 | the result lists exactly the verifying ids, each once and in order; it fails exactly without an acceptable signed manifest or a ring for its channel |
| Updates.UpdateChecker.Save | ditaknet/core/updates.py:811-851 | payload and mark change together or not at all; entity tag and backoff only after them |
| Updates.UpdateChecker.CheckForUpdates | ditaknet/core/updates.py:1155-1355 | one check, with every early return and failure path, refines the transition whose runs the lemmas below are about |
| Updates.UpdateChecker.Refresh | ditaknet/core/updates.py:1255-1330 | the releases fallback is tried only after the feed failed and only when no trust is required |
| Updates.StoreAfterCheck | ditaknet/core/updates.py:1155-1355 | the ways a check can change the store at all |
| Updates.VerifiedV2 | ditaknet/core/updates.py:553-582 | a schema-2 document is accepted exactly if it normalises, names the selected channel and, when signatures are required, some key id of that channel's ring verifies; its hash is that of its canonical payload |
| Updates.CheckAdvances | ditaknet/core/updates.py:811-900 | a check keeps the payload/mark invariant, loses or lowers no mark, and never changes a mark's hash at the same sequence |
| Updates.MarksNeverGoBack | ditaknet/core/updates.py:811-900 | the same over every run of checks under changing settings, channels, faults and restarts |
| Updates.SequenceMeansOneHash | ditaknet/core/updates.py:881-900 | two trusted payloads saved at any two times for one channel and sequence have one hash |
| Updates.NotModifiedNeedsSound | ditaknet/core/updates.py:1255-1303 | a 304 keeps marks from going back if and only if the saved payload is newer than its mark or is what the mark names |
| Updates.FreshManifestIsTaken | ditaknet/core/updates.py:1255-1303 | a fetched schema-2 manifest is taken exactly if it normalises, names the channel, verifies under the channel's ring and is neither behind nor beside its mark; then it is saved, its mark is set and it is offered when newer |
| Updates.UnreadableMarks | ditaknet/core/updates.py:811-900 | with an unreadable replay record a fetched schema-2 manifest is never taken and the record stays; a 304 that re-saves a payload with a mark replaces the record by that one mark |
| UpdateDeadlines.UnforcedDecides | ditaknet/core/updates.py:1183-1215 | an unforced check answers from the store exactly during a backoff with a payload under the policy, else from the cache exactly before it expires and under the policy, and else is the forced check |
| UpdateDeadlines.AfterDeadlines | ditaknet/core/updates.py:1183-1215 | with no cache or an expired one, and no backoff or one that is over, an unforced check equals the forced one |
| UpdateDeadlines.ServedForAMinute | ditaknet/core/updates.py:1201-1215 | for 60 seconds after an answered check, under the same policy, every unforced check repeats it and touches nothing |
| UpdateDeadlines.NextInRun | ditaknet/core/updates.py:1201-1215 | in a run the next check of the process within the minute repeats the status; the first after a restart is never answered from the cache |
| UpdateDeadlines.DeadlinesAreNear | ditaknet/core/updates.py:903-936 | in every run the cache expires within 60 seconds of the last check and the backoff within 76800 seconds and its jitter |
| UpdateDeadlines.StandingReleaseIsOffered | ditaknet/core/updates.py:1155-1355 | a manifest that was acceptable at some point of a run and stays alone on the feed is taken by any later unforced check that fetches it after both deadlines, and offered exactly when newer |
| UpdateDeadlines.ReleaseIsOfferedInTime | ditaknet/core/updates.py:1155-1355 | both deadlines come: the same for any check 60 seconds and 76800 seconds and the largest jitter after every earlier one |
| UpdateAnswers.ManifestFromFeed | ditaknet/core/updates.py:553-582 | when a fetched schema-2 manifest is taken, against a channel's mark or the saved payload that stands in for it, and every field of what is saved |
| UpdateAnswers.LegacyFromFeed | ditaknet/core/updates.py:586-605 | when a legacy document is taken, by form, channel, configured key and sequence, and every field of what is saved |
| UpdateAnswers.UnchangedFromFeed | ditaknet/core/updates.py:1273-1285 | a 304 takes the saved payload exactly if it is under the policy in force |
| UpdateAnswers.ReleaseFound | ditaknet/core/updates.py:720-737 | which releases of the fallback are taken, and that they are never trusted |
| UpdateAnswers.OverrideFound | ditaknet/core/updates.py:1217-1250 | when the environment's version is taken instead of any feed, and what is saved then |
| UpdateAnswers.SavedMeaning | ditaknet/core/updates.py:811-851 | what saving changes, field by field, wherever it is cut short; only a payload that counts moves a mark |
| UpdateAnswers.FailureMeaning | ditaknet/core/updates.py:903-919 | a failure counts, delays by the stated seconds and the jitter, and changes nothing else |
| UpdateAnswers.NetworkOrder | ditaknet/core/updates.py:1255-1330 | the feed is asked first; releases only if nothing of it was saved and no trust is required |
| UpdateAnswers.AnswerMeaning | ditaknet/core/updates.py:1255-1355 | a forced check reports what it took, else the saved payload under the policy, else nothing |
| UpdateAnswers.DisabledMeaning | ditaknet/core/updates.py:1163-1170 | with checks off nothing is offered and nothing changes |
| Updates.ResignedIsNoReplay | ditaknet/core/updates.py:881-900 | adding or rotating a signature keeps the hash, so that the re-signed manifest of the same sequence is not refused as a replay |
| Updates.OffersAreTrusted | ditaknet/core/updates.py:1163-1215 | when signatures are required, every status that offers an update is trusted under the policy in force |
| Updates.FetchedTrustIsSigned | ditaknet/core/updates.py:553-605 | a trusted schema-2 manifest has an entry made over its own payload with the private half of a key that the channel's ring holds under that id; a trusted legacy document carries the configured key's code |
| Updates.FailureKeepsTrust | ditaknet/core/updates.py:903-919 | a check that reports an error and did not fail after its commit changed neither payload, marks nor entity tag |
| Updates.ServedFlagIsStored | ditaknet/core/updates.py:1163-1340 | during a backoff, after a 304 and after a failed refresh the status is wrong for the running version if and only if the stored flag is |
| Updates.FlagsStayRight | ditaknet/core/updates.py:1155-1355 | a check keeps stored, cached and reported flags right for the version that runs it |
| Updates.StatusesAreRight | ditaknet/core/updates.py:1155-1355 | while one version runs, every status of every run is right |
| Updates.UpgradeLeavesOffer | ditaknet/core/updates.py:1163-1340 | after an upgrade to the version on offer, what is served from the store still offers it |
| Updates.OffersTheRunningVersion | ditaknet/core/updates.py:1183-1195 | a store that offers the version now running |
| Updates.BackoffGrowsToPlateau | ditaknet/core/updates.py:903-911 | the delay doubles to a plateau of 76800 seconds at the ninth failure; the cap of a day never applies |
| Preflight.CompatibleMeaning | ditaknet/core/update_preflight.py:50-131 | no reason is found if and only if the offer is strictly newer, in range, in its major line unless allowed, backed up and reversible |
| Preflight.VersionReasonsMeaning | ditaknet/core/update_preflight.py:50-90 | each reason about versions is given exactly when it applies |
| Preflight.ContractReasonsMeaning | ditaknet/core/update_preflight.py:92-116 | each reason about the contract is given exactly when it applies |
| Preflight.RequireBound | ditaknet/core/update_preflight.py:134-168 | accepts exactly a v2 pre-update backup of the given digest that agrees on every field that is given |
| Preflight.IdentityNamesTarget | ditaknet/core/update_preflight.py:171-210 | an accepted identity is the official repository with the target as its tag and a pinned digest |
| Preflight.IdentityMeaning | ditaknet/core/update_preflight.py:171-210 | an offer has an identity for a target if and only if it is trusted, fresh, of schema 2 and newer, names that target, and its trimmed, lowered reference and digest are the official ones |
| Preflight.UppercaseDecides | ditaknet/core/update_preflight.py:192-204 | an offer of a strict version that passes every other test is identified if and only if its target has no uppercase letter |
| Preflight.UppercaseBetaIsStuck | ditaknet/core/update_preflight.py:192-204 | such an offer, of a version the manifest format accepts, that no handoff accepts |
| Preflight.GetLastPreflight | ditaknet/core/update_preflight.py:393-439 | reading back marks a receipt invalid exactly when it claims to be ready and its backup no longer stands |
| Preflight.ReadyMeansBound | ditaknet/core/update_preflight.py:393-439 | ready and unexpired if and only if the named file validates now, has the recorded digest and carries the same versions, image, digest, policy, channel and sequence |
| Preflight.ReadBackMeaning | ditaknet/core/update_preflight.py:393-439 | every other outcome of reading back: nothing, expired, another status, or invalid |
| Preflight.StoredReceiptReadsBack | ditaknet/core/update_preflight.py:301-390 | a stored receipt reads back as ready exactly until two hours have passed, while its file is untouched |
| Preflight.Handoff.PrepareUpdate | ditaknet/core/update_preflight.py:283-390 | succeeds exactly for a confirmed, compatible, identified target with a fresh accepted backup; otherwise the stored receipt is unchanged; what is stored names the offer's versions, image, digest, channel, sequence and policy and the new archive, whose manifest says the same, and reads back as ready for two hours |
| ServiceStates.StateEngine.SetState | ditaknet/core/state_engine.py:90-98 | sets one service's state with the count that fits it, and touches no other |
| ServiceStates.StateEngine.ProcessResult | ditaknet/core/state_engine.py:100-149 | one result is one step of the abstract machine; no other service changes |
| ServiceStates.ObserveMeaning | ditaknet/core/state_engine.py:100-149 | one result from any state: count, state, and a transition exactly when the state changes, with its kind and fields |
| ServiceStates.HistoryMeaning | ditaknet/core/state_engine.py:100-173 | after any history the count is the trailing failure run, and the state follows from it and from whether there was a success |
| ServiceStates.TransitionsChain | ditaknet/core/state_engine.py:100-149 | transitions change the state and link up from UNKNOWN to the current one |
| ServiceStates.HardTransitionsAreLongRuns | ditaknet/core/state_engine.py:100-173 | hard transitions number exactly the maximal failure runs of at least the critical length |
| ServiceStates.ForcedUnknownKeepsCount | ditaknet/core/state_engine.py:90-98 | when the next failure after a forced state is critical; UNKNOWN alone keeps the old count |
| Alerts.AlertEngine.ProcessStateChange | ditaknet/core/alert_engine.py:56-151 | one reported transition changes last alert, incident and issued alerts of that service together or not at all |
| Alerts.AlertedMeaning | ditaknet/core/alert_engine.py:56-151 | one report by its own fields: nothing under maintenance, a critical alert for a hard change outside the cooldown, a recovery alert for a recovery from CRITICAL or with an incident, and nothing otherwise |
| Scheduling.ExecuteWithRetries | ditaknet/core/scheduler.py:371-438 | the last attempt is the first settling one or the limit; its answer is returned, counted and marked, after exactly the stated sleeps |
| Scheduling.LastAttemptMeaning | ditaknet/core/scheduler.py:371-431 | which attempt is the last, by raised errors, failures and the retryable flag; a raised error is a failed, retryable answer |
| Scheduling.DelayMeaning | ditaknet/core/scheduler.py:433-438 | the pauses double from the backoff up to 5 seconds |
| Scheduling.Scheduler.RunCheck | ditaknet/core/scheduler.py:275-369 | retries, state engine and alert engine compose to one step of the pipeline for this service and none for any other; the stored status is never better than the state |
| Scheduling.MaxAttempts | ditaknet/core/scheduler.py:452-466 | at least one attempt is made whatever is stored |
| Scheduling.MaxAttemptsMeaning | ditaknet/core/scheduler.py:452-466 | the stored limit, else the retry count and one, at least 1, else the default |
| Scheduling.SynchronisedIsConsistent | ditaknet/core/state_engine.py:90-98 | a state set at start-up has the failures it implies |
| Scheduling.CooldownAlways | ditaknet/core/alert_engine.py:83-151 | in every run, with maintenance and removals, critical alerts of a service are at least the cooldown apart |
| Scheduling.PipelineSound | ditaknet/core/scheduler.py:302-344 | in ordinary runs an active incident means CRITICAL, and every two critical alerts have a recovery between them |
| Scheduling.SoundStep | ditaknet/core/scheduler.py:302-344 | one ordinary check keeps that invariant |
| Scheduling.StepIssues | ditaknet/core/scheduler.py:302-344 | in any state of any service, what any event does to its alerts: a critical alert exactly when an unmaintained failure takes it into CRITICAL outside the cooldown, a recovery alert exactly when an unmaintained success takes it out of CRITICAL or out of WARNING with an incident, and otherwise nothing |
| Scheduling.MaintenanceIsSilent | ditaknet/core/alert_engine.py:83-88 | a check under maintenance leaves last alert, incident and issued alerts as they were, while the state advances as without |
| Scheduling.IssuedHaveCauses | ditaknet/core/alert_engine.py:83-151 | over every run each issued alert was recorded by a check without maintenance, at that check's time, critical for a failure and recovery for a success |
| Scheduling.MaintenanceReportsDoNotCount | ditaknet/core/alert_engine.py:83-88 | over every run, the alerts are those the engine gives for the unmaintained reports alone |
| Scheduling.ActiveMeansCriticalKept | ditaknet/core/scheduler.py:214-229 | one step keeps "active means CRITICAL" if and only if it does not silently take a service with an incident out of CRITICAL |
| Scheduling.ActiveIsUnrecovered | ditaknet/core/alert_engine.py:83-151 | over every run, with maintenance and removals, an incident is active exactly while a critical alert waits for its recovery |
| Scheduling.RecoveredBetweenKept | ditaknet/core/alert_engine.py:83-151 | a step keeps "a recovery between every two critical alerts" if and only if it does not issue a critical alert over an active incident |
| Scheduling.RecoveredBetweenDecides | ditaknet/core/scheduler.py:302-344 | the same over every run: it holds at the end if and only if no check of the run did so |
| Scheduling.MaintenanceHidesRecovery | ditaknet/core/alert_engine.py:83-102 | a run with maintenance in which it fails |
| Scheduling.RemovalHidesRecovery | ditaknet/core/scheduler.py:214-229 | a run with a removal in which it fails |
| AgentAlerts.OpenMeaning | ditaknet/database.py:2604-2612 | the lookup finds nothing exactly when every row of the key is resolved |
| AgentAlerts.OneActionNext | ditaknet/core/metrics_engine.py:65-91 | a pending operation has exactly one thing to do next |
| AgentAlerts.ResolveMeaning | ditaknet/database.py:2615-2625 | resolving a row closes its key, leaves every other key open as it was, and keeps alerts unique |
| AgentAlerts.CreateMeaning | ditaknet/database.py:2549-2579 | creating a row for a key that is not open opens that key only and keeps alerts unique |
| AgentAlerts.UniqueStep | ditaknet/core/metrics_engine.py:65-91 | an action of an operation keeps alerts unique if and only if it does not insert over a row another operation inserted since its look |
| AgentAlerts.UniqueDecides | ditaknet/core/metrics_engine.py:65-91 | over every interleaving of looks, resolutions and inserts: alerts stay unique if and only if no operation ever does that |
| AgentAlerts.ExclusiveIsUnique | ditaknet/core/metrics_engine.py:65-91 | if no other operation inserts a row of the same key between any operation's look and its insert, alerts are unique throughout |
| AgentAlerts.OverlapDuplicates | ditaknet/core/metrics_engine.py:65-91 | the interleaving of two submissions that leaves two open rows |
| AgentAlerts.UninterruptedSettles | ditaknet/core/metrics_engine.py:65-91 | without interruption the actions of one operation settle the alert of its key |
| AgentAlerts.Monitor.GetActive | ditaknet/database.py:2604-2612 | finds the newest unresolved row of a key if there is one |
| AgentAlerts.Monitor.ProcessMetrics | ditaknet/core/metrics_engine.py:49-97 | a submission is one step of the abstract machine, keeps at most one unresolved row per key, and only appends rows |
| AgentAlerts.Monitor.RecordHeartbeat | ditaknet/core/metrics_engine.py:100-106 | a heartbeat brings the agent online and touches no alert |
| AgentAlerts.Monitor.CheckMissingHeartbeats | ditaknet/core/metrics_engine.py:109-148 | the two loops are one sweep of the abstract machine; the count is the number of stale agents |
| AgentAlerts.LastSampleDecides | ditaknet/core/metrics_engine.py:36-97 | after every run an agent's metric alert is open exactly when its last sample is not ok, with that severity |
| AgentAlerts.LastSampleLevels | ditaknet/core/metrics_engine.py:36-97 | by values: critical from the critical threshold on, a warning from the warning one on, each metric against its own |
| AgentAlerts.OfflineAlertedAlways | ditaknet/core/metrics_engine.py:109-148 | in every run an agent taken offline has its heartbeat alert open |
| AgentAlerts.SweepSettles | ditaknet/core/metrics_engine.py:109-148 | after a sweep the heartbeat alert is open exactly for the offline agents, and no stale agent is online |
| AgentAlerts.SweepMeaning | ditaknet/core/metrics_engine.py:109-148 | what a sweep does to every agent and every alert, by heartbeat time and timeout |
| AgentAlerts.ContactMeaning | ditaknet/core/metrics_engine.py:49-106 | submissions and heartbeats bring their agent online and touch nothing else |
| Lockout.User.Authenticate | ditaknet/security.py:195-220 | a comparison happens exactly for an active, unlocked account; success clears the count and every other result is refused |
| Lockout.User.RecordFailedLogin | ditaknet/database.py:1306-1326 | a failure counts, and locks from the fifth on |
| Lockout.ComparisonsWithinAllowance | ditaknet/security.py:169-220 | a window never holds more comparisons than the account's remaining failures plus one per lock time |
| Lockout.RateBound | ditaknet/security.py:208-220 | any window of W holds at most 5 + W / 15 minutes comparisons, from any state, in any run without a success |
| Lockout.RateBoundIsTight | ditaknet/security.py:208-220 | a fresh account reaches that bound in every window |
| Lockout.SuccessStartsAfresh | ditaknet/security.py:208-220 | after a success the account is as a fresh one |
| Lockout.CountOutlivesLock | ditaknet/database.py:1306-1326 | once four failures stand, every later failing comparison locks at once |
| Heartbeat.SlotIsQuotient | ditaknet/core/device_monitoring.py:131-137 | the slot a row goes to is the one whose interval holds it, so slots are disjoint |
| Heartbeat.BuildHeartbeatBars | ditaknet/core/device_monitoring.py:102-160 | the loops over the slot list leave in every slot exactly the counts, sample and status of its rows |
| Heartbeat.BarMeaning | ditaknet/core/device_monitoring.py:147-159 | ok, warning and critical add up to the checks, and the status is the worst one present |
| Heartbeat.LevelMeaning | ditaknet/core/device_monitoring.py:34-42 | which status texts belong to which level, in any letter case |
| Heartbeat.BarCounts | ditaknet/core/device_monitoring.py:102-160 | the k-th bar by time and text: its span, how many of the span's rows say ok, say warning and say anything else, and the status |
| Heartbeat.SampleMeaning | ditaknet/core/device_monitoring.py:141-145 | the sample is the newest row of the slot, and its response time is what is shown whenever it has one |
| Heartbeat.ChecksConserved | ditaknet/core/device_monitoring.py:131-160 | all bars together count each row of the covered span once |
| Heartbeat.SlotsEnd | ditaknet/core/device_monitoring.py:109-113 | the slots end exactly (3600·hours mod buckets) seconds before the window does, or after it |
| Heartbeat.UncountedIsTail | ditaknet/core/device_monitoring.py:131-137 | a row of the window is counted if and only if it is not in that tail |

## Left out

- CooldownAlways: states the bound for a non-negative cooldown; with a negative one the code has no cooldown at all.
- MarksNeverGoBack: starts from a store whose saved payload agrees with its channel's mark; an old payload without any mark can be overwritten by the other channel's save.
- RateBound: about password comparisons for an existing row of the users table; the fallback to the configured administrator has no lockout.
- HTTP, TLS, redirects and response size limits of the update fetch: a fetch is one of three answers.
- Notifiers, message texts, maintenance tasks, audit log entries and the log of state changes.
- `prune_automatic_backups`, listing and deleting backups, and plain SQLite files as backups.
- A database failure while the environment's override is saved is raised by the code; the model reports an error status.
- The environment's image tag as part of the version override; banner, snooze and dismissal; timestamps in the update state.
- Stored replay marks under unknown channel names or with malformed hashes: while they stand the code refuses every schema-2 manifest, as it does for a mark below 1, which is modelled.
- The contents of the `-shm` file, the sidecars of the snapshot and of the staged file, which stay empty, the shrinking of a file by VACUUM, and temporary directories as directories.
- Clean-up of temporary files after a failed restore.
- Trimming and lowering of the approved digest before a restore, and a race between two processes for one backup name.
- The limit of twenty log files in a backup, and non-ASCII digits and letters in version texts.
- URLs, release notes and localised texts of a manifest: each is a value with a verdict, copied as it is; JSON numbers are integers.
- A database file that is missing at the start of a restore but whose removal was never synced.
- NaN as a metric value, and agents' status changes while submissions overlap.
- Floating-point rounding in the slot arithmetic of the bars, and rows whose time text orders differently from their time.
- Containers older than the runtime lock, and files changed by others in the middle of an operation.
