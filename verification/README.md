# OpsComposer verification

A Dafny model of OpsComposer's hard core and proofs of what that core promises. OpsComposer
uses PostgreSQL as queue, lease manager and lock manager; runs of Ansible operations and
interactive Web Shell sessions compete for hosts through one lock table. The model takes the
tables as maps, each unit of work as one step that commits or rolls back whole, and proves
properties of every sequence of such steps.

`dafny verify dfyconfig.toml` checks everything.

## How it is laid out

| part | modules |
|---|---|
| run queue, worker leases, host locks, Web Shell | `Rows`, `Protocol`, `Store`, `Consistency`, `Exclusion`, `LeaseExclusion`, `Takeover`, `Lasting`, `Renewal`, `LateSchedules`, `Lifecycle`, `Outcomes`, `Sessions`, `Worker` |
| migrations | `Ordering`, `Migrations`, `MigrationRunner` |
| key rotation | `Crypto`, `Rotation` |
| playbook projects | `Paths`, `Project`, `Recheck`, `RawSpelling`, `Archive`, `Imports`, `FullProject`, `Parameters` |
| replay and paging | `Replay`, `AuditExport` |
| text and arithmetic | `Like`, `RateLimit`, `Totp` |

Where the program changes state step by step, a class or a method with loops does the same and
is proved equal to a function on values (`Store.Perform` ties every transaction on `Store.Tables`
to a step of `Protocol`, `Rotator.Process` to `ProcessBatch`, and so on). The theorems are about
those functions, and what each of them does is stated once more of its inputs and outputs alone
(`Outcomes` for the transactions, the lemmas named `...Exact` and `...Iff` elsewhere).

## What the proofs rest on

- Tables. One lock row per host (primary key), one target per run and host, and lock rows that
  go with their Web Shell session (`ON DELETE CASCADE`, db/migrations/web_shell.py lines 46-53);
  identifiers are fresh, as UUIDs are.
- Interleaving. A claim takes an arbitrary candidate, which stands for a candidate query that
  saw older rows; whether its hosts can be locked is decided by the rows at the upsert. So the
  collision and its rollback are real. A statement that waits for a row lock is taken at the
  moment it proceeds.
- Clocks. Each step reads an arbitrary time, in no order, unless a lemma says otherwise; `clock`
  is the largest reading so far and "live" means unexpired at `clock`.
- Callers. `mark_running` is called for a run the worker claimed, `finish` with a terminal status
  and `finish_target` with a final one, as worker.py does.
- Libraries. AES-GCM, JSON, UTF-8, SHA-256 and Unicode case folding appear as functions with the
  laws stated in `Crypto.Lawful`, `Project.LawfulCodec`, `Recheck.LawfulText` and `Paths.Lawful`;
  where digests are compared, `Recheck.ToldApart` asks that SHA-256 not collide on the orders of one
  project's files.

## What the proofs found

- The worker heartbeat renews without looking at its locks (repositories/runs.py lines 255-280).
  Exclusion therefore needs an assumption on workers. In every reachable state it lasts, over all
  continuations with safe renewals, exactly when each live run holds the lock row of each of its
  hosts (`Lasting.ReachableLastsIff`), so a worker may renew exactly when its active runs still hold
  theirs (`Lasting.HeartbeatLastsIff`, `Lasting.ClaimLastsIff`). That nobody else is on its hosts is
  enough for the next state only (`Renewal`): a host that was taken over and given back looks free,
  and `LateSchedules.FreedHostIsLost` loses it afterwards. `LateSchedules.LateHeartbeatSharesHost`
  loses exclusion at once.
- The shell heartbeat extends the session's lease even when its lock row is gone, and tells the
  caller (repositories/web_shell.py lines 224-248). Exclusion by what callers were told needs no
  assumption on shells. Exclusion by recorded leases does: `LateSchedules.LateShellSharesHost`
  breaks it, and it lasts after a heartbeat exactly when the lock row still names the session
  (`Lasting.ShellHeartbeatLastsIff`).
- The envelope of an empty plaintext encrypts and does not decrypt: the length test asks for 29
  bytes (services/crypto.py line 124).
- A credential is re-encrypted under the primary key whatever the target version is
  (services/encryption.py line 196); the label is right because of the guard at line 226.
- The event stream reads the run's status after the page and may close without the final event
  (api/runs.py lines 351-367).
- A project is sorted by raw paths before they become canonical, and the manifest's name is
  compared with the raw path only, so a project saved under paths such as "./b.yml" need not
  normalise to itself, and the worker then refuses to run it (services/playbook_project.py lines 83,
  102; worker.py lines 439-444). `Recheck.AcceptedIff` is the exact condition. The manifest also
  counts toward the size limit on import (services/playbook_project.py lines 411-412), so a project of
  exactly the allowed size exports and does not import (`FullProject.FullProjectNotImported`).
- The audit export ends when the row a page ended on has been purged (repositories/audit.py lines
  96-103). It loses nothing by that: purges go oldest first, so what was still to be sent is gone
  too, and `AuditExport.ExportSurvivesPurges` proves the export complete.

## Model

| member | source | states |
|---|---|---|
| Store.Tables.SelectCandidate | backend/src/ops_composer/repositories/runs.py:285-299 | returns the oldest queued run none of whose hosts is under an unexpired lock, and nothing exactly when no queued run is eligible |
| Store.Tables.ClaimSelectedRun | backend/src/ops_composer/repositories/runs.py:293-329 | marking, upserting and comparing row counts reports a collision exactly when some host of the run is under an unexpired lock by now, and otherwise locks every host for this run and worker |
| Store.Tables.RecoverStale | backend/src/ops_composer/repositories/runs.py:331-353 | the recovery statement; its answer is the number of PREPARING and RUNNING runs claimed by a worker whose lease has run out |
| Store.Tables.RequestCancel | backend/src/ops_composer/repositories/runs.py:232-253 | answers a row exactly for a run that is not terminal; a queued run is closed with its pending targets, an active one only gets the request time |
| Store.Tables.Finish | backend/src/ops_composer/repositories/runs.py:373-436 | all four statements take effect whoever calls; the answer says whether the worker owned the run |
| Store.Tables.Activate | backend/src/ops_composer/repositories/web_shell.py:167-214 | activates exactly a pending, unexpired, authorised session of that login, and has the lock exactly when one unexpired lock row of the session was updated |
| Store.Tables.ShellHeartbeat | backend/src/ops_composer/repositories/web_shell.py:216-248 | the session lease moves for the owner of an active authorised session; the answer is true exactly when a lock row of that session and owner moved too |
| Store.Claim | backend/src/ops_composer/services/runs.py:1086-1126 | with no other commit in between, claims the oldest eligible run, or none exactly when none is eligible, and never collides |
| Store.FinishRun | backend/src/ops_composer/services/runs.py:1262-1274 | a worker that does not own the run leaves every table as it was |
| Store.ClaimCandidate | backend/src/ops_composer/services/runs.py:1089-1126 | the claim transaction with any candidate commits exactly when the claim does not collide, and otherwise leaves every table as it was, its own renewal included |
| Store.CreateShell | backend/src/ops_composer/services/web_shell.py:61-123 | succeeds exactly within capacity, for an admissible and unlocked host; a refused request undoes its own cleanup too |
| Store.ClaimShell | backend/src/ops_composer/services/web_shell.py:156-232 | returns a launch exactly when the ticket, the login, the single lock row and the credential and host keys all check out, and otherwise changes nothing |
| Store.Perform | backend/src/ops_composer/uow/unit.py:120-134 | every transaction of the queue and the shells, run statement by statement on the tables with its rollbacks, is one step of the protocol, reports what that step reports, and from a guarded state leads to a guarded one with no host shared |
| Consistency.StepConsistent | backend/src/ops_composer/repositories/runs.py:232-474 | every transaction keeps: each run-held lock names an active run with a target on that host, claimed by the lock's owner, and expires with that worker's lease; each shell-held lock names a session on that host and its owner; each active run's claimer has a lease row; terminal runs have a finish time and no open target |
| Consistency.RunConsistent | backend/src/ops_composer/repositories/runs.py:232-474 | the same in every state reachable by any sequence of transactions, for arbitrary clock readings and however late the renewals |
| Consistency.HeartbeatConsistent | backend/src/ops_composer/repositories/runs.py:255-280 | renewing moves lease and locks together, so they stay equal |
| Consistency.ClaimConsistent | backend/src/ops_composer/services/runs.py:1086-1094 | the claim transaction, including both heartbeats around the upsert, keeps the table invariant |
| Consistency.RecoverConsistent | backend/src/ops_composer/repositories/runs.py:331-353 | recovery leaves no lock without its run and no active run without its lease |
| Consistency.FinishConsistent | backend/src/ops_composer/repositories/runs.py:373-436 | an owned finish keeps the table invariant |
| Consistency.ClaimShellConsistent | backend/src/ops_composer/repositories/web_shell.py:167-214 | activation keeps lock and session owners equal |
| Consistency.OnlyShellLock | backend/src/ops_composer/db/migrations/web_shell.py:43-53 | a session holds no lock row but that of its own host |
| Exclusion.StepGuarded | backend/src/ops_composer/services/runs.py:1063-1126 | every transaction keeps the invariant that each live run holds all its lock rows and each session told that it holds its host does, with lock, lease and report expiring together; only worker renewals carry an assumption |
| Exclusion.HeartbeatGuarded | backend/src/ops_composer/repositories/runs.py:255-280 | a renewal by a worker whose active runs still hold their locks keeps the invariant |
| Exclusion.ClaimSelectedGuarded | backend/src/ops_composer/repositories/runs.py:303-328 | the upsert takes no row a live holder relies on |
| Exclusion.RecoverGuarded | backend/src/ops_composer/repositories/runs.py:331-353 | recovery takes no lock from a live holder |
| Exclusion.CreateShellGuarded | backend/src/ops_composer/services/web_shell.py:66-123 | cleanup and takeover by a new session keep the shells' half of the invariant: no live session loses its lock row |
| Exclusion.ClaimShellGuarded | backend/src/ops_composer/services/web_shell.py:160-178 | activation keeps the shells' half of the invariant |
| Exclusion.ShellHeartbeatGuarded | backend/src/ops_composer/repositories/web_shell.py:216-248 | a shell heartbeat keeps the shells' half of the invariant with no assumption on when it comes |
| Exclusion.ShellKeepsRunLocks | backend/src/ops_composer/services/web_shell.py:54-371 | no shell transaction touches a run, a target, a worker lease or an unexpired run-held lock |
| Exclusion.StepShellsGuarded | backend/src/ops_composer/repositories/runs.py:232-474 | every transaction, with no assumption on renewals, keeps: tables consistent, each session told that it holds its host does, shell-held locks expire as last told |
| Exclusion.RunShellsGuarded | backend/src/ops_composer/repositories/runs.py:232-474 | the same in every state any legal schedule can reach |
| Exclusion.ClaimShellHolds | backend/src/ops_composer/repositories/web_shell.py:196-214 | a claim that returns a launch owns its host's lock row, which expires with the session's lease, whatever takeovers came before |
| Exclusion.AcknowledgedHolds | backend/src/ops_composer/services/web_shell.py:265-273 | a heartbeat that gives no reason to close owns its host's lock row, which expires with the session's lease |
| Exclusion.RunGuarded | backend/src/ops_composer/services/runs.py:1063-1126 | the invariant over whole runs of the system |
| Exclusion.GuardedIsExclusive | backend/src/ops_composer/repositories/web_shell.py:123-150 | under the invariant no two live executions share a host |
| Exclusion.HostExclusion | backend/src/ops_composer/repositories/runs.py:255-353 | from an empty database, for every sequence of transactions and arbitrary clock readings, no two live executions, runs or shells, share a host, provided no worker renews after losing a lock row of an active run |
| Exclusion.TimelyIsSafe | backend/src/ops_composer/services/runs.py:1063-1067 | a worker that renews before its lease runs out, or runs nothing, still holds all its lock rows |
| Exclusion.TimelyHostExclusion | backend/src/ops_composer/services/runs.py:1063-1126 | the same exclusion under that schedule |
| LeaseExclusion.ReportedOwnership | backend/src/ops_composer/services/web_shell.py:114-123 | in every reachable state, with no assumption on time, whenever a request, claim or heartbeat reports a lease to its caller the host's lock row names that session and owner and expires exactly with the session's lease |
| LeaseExclusion.ReportHolds | backend/src/ops_composer/services/web_shell.py:256-273 | the same of one transaction on consistent tables |
| LeaseExclusion.LeaseBackedIff | backend/src/ops_composer/repositories/web_shell.py:224-248 | the heartbeat moves the session lease in either case; the moved lease is backed by the lock row exactly when the caller is told so |
| LeaseExclusion.LeaseHostExclusion | backend/src/ops_composer/repositories/web_shell.py:216-248 | if workers and shells renew only while their own lease is unexpired, no reachable state has two executions with live recorded leases on one host |
| Renewal.HeartbeatExclusiveIff | backend/src/ops_composer/repositories/runs.py:255-280 | one step only: a heartbeat at any clock reading, from a guarded state, leads to an exclusive state if and only if its new lease is over already by the latest reading, or no host of the worker's active runs is under someone else's unexpired lock and no two of those runs share a host |
| Renewal.ClaimExclusiveIff | backend/src/ops_composer/services/runs.py:1086-1094 | one step only: a claim, which renews first, leads to an exclusive state if and only if it is refused, or its lease is over already, or no host of the worker's runs, the claimed one included, is under someone else's unexpired lock or shared among them |
| Renewal.ShellHeartbeatExclusiveIff | backend/src/ops_composer/repositories/web_shell.py:224-248 | one step only: from a guarded state whose recorded leases are exclusive, a shell heartbeat that moves the recorded lease keeps them exclusive if and only if the new lease is over already, or the session's host is under nobody else's unexpired lock and no other session there has a live lease |
| Renewal.RenewedExclusiveIff | backend/src/ops_composer/repositories/runs.py:273-280 | any step that renews some holders and leaves the others alone keeps exclusion if and only if the renewed ones are apart |
| Takeover.TakeHost | backend/src/ops_composer/repositories/runs.py:282-329 | a host under no unexpired lock can be taken at once: from any consistent state there is a legal, safe and timely continuation after which a fresh run is live on it and every live run and session is as before |
| Lasting.UnheldIsShared | backend/src/ops_composer/repositories/runs.py:303-312 | a live execution that does not hold the lock row of one of its hosts shares that host now or after such a continuation |
| Lasting.LastsIff | backend/src/ops_composer/repositories/runs.py:255-353 | every legal continuation with safe renewals keeps exclusion if and only if every live run holds the lock row of each of its hosts |
| Lasting.LeasesLastIff | backend/src/ops_composer/repositories/web_shell.py:216-248 | every legal continuation with timely workers and shells keeps exclusion by recorded leases if and only if, besides, every live recorded lease was reported to its caller |
| Lasting.BackedIffReported | backend/src/ops_composer/repositories/web_shell.py:224-248 | a live recorded lease was reported exactly when the host's unexpired lock row names the session |
| Lasting.ReachableLastsIff | backend/src/ops_composer/repositories/runs.py:255-353 | both equivalences in every state any legal schedule can reach, with no assumption on the renewals before it |
| Lasting.HeartbeatLastsIff | backend/src/ops_composer/services/runs.py:1063-1067 | after a heartbeat from a guarded state exclusion lasts if and only if the new lease is over already or every active run of the worker still holds all its lock rows |
| Lasting.ClaimLastsIff | backend/src/ops_composer/services/runs.py:1086-1094 | the same for a claim, which may also be refused |
| Lasting.ShellHeartbeatLastsIff | backend/src/ops_composer/services/web_shell.py:256-273 | after a shell heartbeat that moves the recorded lease, exclusion by recorded leases lasts if and only if the other sessions' live leases are backed by their lock rows and the new lease is over already or the host's lock row still names the session |
| LateSchedules.LateHeartbeatSharesHost | backend/src/ops_composer/repositories/runs.py:258-280 | a concrete five-transaction schedule after which two live runs are on one host: the worker heartbeat is unconditional |
| LateSchedules.LateShellSharesHost | backend/src/ops_composer/repositories/web_shell.py:224-248 | a concrete schedule, with every worker timely, after which a run and a shell with live recorded leases are on one host |
| LateSchedules.FreedHostIsLost | backend/src/ops_composer/repositories/web_shell.py:269-289 | a concrete schedule in which a late heartbeat finds its host taken over and given back: exclusion holds after it and does not last |
| Lifecycle.CandidateExists | backend/src/ops_composer/repositories/runs.py:287-292 | the candidate query returns a row exactly when some queued run is eligible |
| Lifecycle.UndisturbedClaimSucceeds | backend/src/ops_composer/services/runs.py:1090-1094 | with no commit between query and upsert the claim succeeds and the worker holds every host of the run until its lease expires |
| Lifecycle.ClaimCollidesIff | backend/src/ops_composer/repositories/runs.py:322-328 | a claim of a queued run rolls back if and only if a target host is under an unexpired lock, or under a lock of the worker's own, once its locks are renewed |
| Lifecycle.RefusedIff | backend/src/ops_composer/repositories/runs.py:285-328 | a claim transaction rolls back if and only if its candidate is not queued or one of its hosts is under such a lock |
| Lifecycle.RecoveryComplete | backend/src/ops_composer/repositories/runs.py:331-353 | row by row: a run becomes INTERRUPTED exactly if it is PREPARING or RUNNING and its claimer's lease has run out, exactly its unfinished targets with it, every other run and target keeps its row, exactly the unexpired leases and locks remain, and so every active run left has an unexpired lease |
| Lifecycle.InterruptedIff | backend/src/ops_composer/repositories/runs.py:335-340 | the runs counted are exactly those abandoned by a stale worker |
| Lifecycle.ReachableRecovery | backend/src/ops_composer/repositories/runs.py:282-353 | the same from every reachable state |
| Lifecycle.StepForward | backend/src/ops_composer/repositories/runs.py:232-474 | one transaction only moves run rows forward |
| Lifecycle.LifecycleForward | backend/src/ops_composer/repositories/runs.py:355-474 | between any two moments of any run of the system: status only moves forward, a claim is made at most once and never undone, terminal status and finish time never change, a terminal run has no open target |
| Lifecycle.CanceledBeforeClaimNeverRuns | backend/src/ops_composer/repositories/runs.py:232-253 | a run canceled while queued stays canceled, is never claimed and has no open target, whatever follows |
| Lifecycle.FinishCommitsIff | backend/src/ops_composer/services/runs.py:1262-1274 | finishing changes the tables if and only if the run is PREPARING or RUNNING and claimed by this worker; then only that run's status and finish time, its open targets, its locks and the worker's note of it change, the targets to the status its result calls for |
| Lifecycle.CleanupLeavesLive | backend/src/ops_composer/repositories/web_shell.py:76-99 | cleanup and the live count partition the session rows |
| Lifecycle.ShellCapacity | backend/src/ops_composer/services/web_shell.py:66-81 | the number of session rows never exceeds the configured maximum over any run, for arbitrary clock readings |
| Outcomes.CreateRunOutcome | backend/src/ops_composer/repositories/runs.py:142-201 | a new run is QUEUED and unclaimed with one PENDING target per host, and no other row changes |
| Outcomes.CancelOutcome | backend/src/ops_composer/repositories/runs.py:232-253 | answers exactly for a QUEUED, PREPARING or RUNNING run and stamps the request; only a queued run is closed, with exactly its PENDING targets; nothing else changes |
| Outcomes.HeartbeatOutcome | backend/src/ops_composer/repositories/runs.py:255-280 | one lease row is rewritten, and of the locks only the expiry of those the worker has for runs |
| Outcomes.CandidateIff | backend/src/ops_composer/repositories/runs.py:287-292 | the candidate is a queued run with no target on a host under an unexpired lock, and no such run is older, or as old with a smaller identifier |
| Outcomes.MarkRunningOutcome | backend/src/ops_composer/repositories/runs.py:355-371 | exactly a PREPARING run and exactly its PENDING targets move to RUNNING |
| Outcomes.FinishTargetOutcome | backend/src/ops_composer/repositories/runs.py:438-474 | the given status is written to that target and to no other |
| Outcomes.CleanupOutcome | backend/src/ops_composer/repositories/web_shell.py:76-85 | exactly the pending sessions past their ticket and the others past their lease go, with exactly their lock rows |
| Outcomes.CreateShellOutcome | backend/src/ops_composer/services/web_shell.py:66-123 | a session is granted exactly when the host and credential checks pass, fewer than the allowed number are current and the host is under no unexpired lock that survives the cleanup; and what the tables then hold |
| Outcomes.ClaimShellOutcome | backend/src/ops_composer/services/web_shell.py:161-219 | a session is launched exactly for its own user and login, pending, within its ticket, with a valid login and usable credential and keys, while the host's unexpired lock row names it; and what the tables then hold |
| Outcomes.ShellHeartbeatOutcome | backend/src/ops_composer/repositories/web_shell.py:216-248 | the lease moves exactly for the owner of an ACTIVE session with a valid login, the lock with it exactly if it still names the session, and exactly then no reason to close is given |
| Outcomes.CloseShellOutcome | backend/src/ops_composer/services/web_shell.py:284-301 | by its own user only, a pending session is deleted and an active one marked |
| Outcomes.FinishShellOutcome | backend/src/ops_composer/services/web_shell.py:328-331 | the owner's session is deleted with its lock row, anybody else's call changes nothing |
| Sessions.StepSessions | backend/src/ops_composer/services/web_shell.py:54-371 | every transaction leaves a session with its host, user, login and ticket, moves its state only forward and never replaces its owner; a session appears only by its own request |
| Sessions.SessionHasMaker | backend/src/ops_composer/services/web_shell.py:96-114 | every session of a reachable state was made by some request of the run and is there ever since |
| Sessions.MakerKept | backend/src/ops_composer/services/web_shell.py:96-114 | a session keeps the host, user, login and ticket of the request that made it |
| Sessions.ClaimedByMaker | backend/src/ops_composer/services/web_shell.py:161-178 | over every run, a claim that reports a lease comes from the user and login of the request that made the session, within its ticket |
| Sessions.MakerClaims | backend/src/ops_composer/services/web_shell.py:161-178 | conversely, while the session is pending, its ticket lasts and the host's lock row names it, a claim by that user and login reports a lease |
| Sessions.CloseIsSeen | backend/src/ops_composer/services/web_shell.py:272-282 | once a close is requested no later heartbeat is acknowledged or moves the lease, and nobody can claim the session |
| Worker.Conclude | backend/src/ops_composer/worker.py:714-749 | every target ends settled, the counts are those of the settled statuses and add up to the targets, and the run is CANCELED, TIMED_OUT, SUCCEEDED, PARTIAL or FAILED exactly as cancellation, the runner and the counts say |
| Worker.GoodCountBounds | backend/src/ops_composer/worker.py:721-724 | the success count is the number of targets exactly when all did well and zero exactly when none did |
| Worker.SettledNotOpen | backend/src/ops_composer/worker.py:717-720 | a settled target is neither PENDING nor RUNNING, so the status `finish_target` writes is final |
| Worker.ObservedLast | backend/src/ops_composer/worker.py:631-648 | the status of a host is what the last runner event about it tells, RUNNING if there is none |
| Worker.SettledExact | backend/src/ops_composer/worker.py:717-722 | a canceled run cancels every target; otherwise what an event told stands, and a host without one succeeded exactly when the runner returned zero |
| Migrations.OrderedMigrationsCorrect | backend/src/ops_composer/db/migration_engine.py:55-84 | fails with the duplicate error exactly on repeated identifiers, with the missing-dependency error exactly on unknown ones, with the cycle error exactly when the dependency graph is cyclic, and otherwise returns a permutation with every dependency before its dependents |
| Migrations.OrderIndependent | backend/src/ops_composer/db/migration_engine.py:82-84 | the result does not depend on the order of the input |
| Migrations.Visit | backend/src/ops_composer/db/migration_engine.py:69-80 | the search terminates and leaves the set of identifiers being visited as it found it |
| Migrations.VisitLays | backend/src/ops_composer/db/migration_engine.py:69-80 | a visit that returns leaves exactly the visited migrations in the list, once each, dependencies first |
| Migrations.VisitFailsOnCycle | backend/src/ops_composer/db/migration_engine.py:72-73 | a visit that raises has found a real cycle |
| Migrations.OrderedIsAcyclic | backend/src/ops_composer/db/migration_engine.py:69-80 | a list with dependencies first rules out every cycle |
| Migrations.ByIdSize | backend/src/ops_composer/db/migration_engine.py:56-58 | the length test detects exactly the repeated identifiers |
| MigrationRunner.Visitor.Enter | backend/src/ops_composer/db/migration_engine.py:69-80 | the nested visit over a list and two sets that it updates |
| MigrationRunner.OrderMigrations | backend/src/ops_composer/db/migration_engine.py:55-84 | the loops over the dictionary and the visitor compute the specified order or error |
| MigrationRunner.Runner.ValidateHistory | backend/src/ops_composer/db/migration_engine.py:114-126 | raises for a missing table exactly then, for an unknown identifier exactly when one is applied, for a checksum only where one differs, and passes exactly when every applied identifier is known with its own checksum |
| MigrationRunner.Runner.ValidateCurrent | backend/src/ops_composer/db/migration_engine.py:128-141 | passes exactly when every migration is recorded with its own checksum and nothing else is recorded |
| MigrationRunner.Runner.Up | backend/src/ops_composer/db/migration_engine.py:164-188 | on a valid history whose missing statements all work, applies exactly the missing migrations in order and records them; on any failure the tracking table is as before |
| MigrationRunner.UpAppliesMissing | backend/src/ops_composer/db/migration_engine.py:175-187 | what is applied is exactly what the history lacks, once each, every migration after all its dependencies |
| MigrationRunner.UpMakesCurrent | backend/src/ops_composer/db/migration_engine.py:128-188 | after `up` the old records are kept, validation of the current schema passes and a second `up` applies nothing |
| Crypto.EncryptDecrypt | backend/src/ops_composer/services/crypto.py:103-132 | encrypting and decrypting under one version and context is the identity exactly on nonempty plaintexts |
| Crypto.ContextIdentifies | backend/src/ops_composer/services/crypto.py:86-90 | two records have the same envelope context exactly when they are the same record: kind, identifier and, for credentials, revision |
| Crypto.ContextMissingIff | backend/src/ops_composer/services/crypto.py:86-90 | a context cannot be built exactly for a credential without a revision, and for another record with an empty identifier or a NUL in it |
| Crypto.DecimalReadsBack | backend/src/ops_composer/services/crypto.py:207-209 | the revision in a context is written in decimal without leading zeros |
| Crypto.MeaningExact | backend/src/ops_composer/services/encryption.py:185-208 | reading a record is opening its whole envelope under its context and the key of its recorded version, for credentials followed by parsing, and fails exactly when one of these does |
| Crypto.ReencryptKeepsMeaningIff | backend/src/ops_composer/services/encryption.py:185-214 | re-encryption keeps a record's meaning under its own context and recorded version if and only if, for credentials, the target version labels the primary key |
| Crypto.ReencryptKeepsPlaintext | backend/src/ops_composer/services/encryption.py:185-214 | decrypting the new envelope under the same context and the new version gives byte for byte what decrypting the old one gave, or for a credential the same fields |
| Crypto.ReencryptSucceedsIff | backend/src/ops_composer/services/encryption.py:185-214 | at the primary version exactly the readable records can be re-encrypted |
| Rotation.BatchKeepsMeaning | backend/src/ops_composer/services/encryption.py:216-252 | one batch keeps the identity and the meaning of every record of all four kinds, and a failed one changes no envelope |
| Rotation.RotationKeepsMeaning | backend/src/ops_composer/services/encryption.py:216-305 | across any sequence of successful and failed batches of any jobs, under keyrings whose primary changes and whose keys come and go, every record decrypts, under its own context and recorded version, to what it held at first |
| Rotation.RotationKeepsPlaintexts | backend/src/ops_composer/services/encryption.py:216-305 | in terms of decryption alone: after any sequence of batches every record decrypts under its context and recorded version to the bytes, or fields, it decrypted to at first |
| Rotation.MeaningUnderMoreKeys | backend/src/ops_composer/services/crypto.py:123-132 | what a record means under its recorded version does not depend on the primary, nor on keys added later |
| Rotation.BatchKeepsIssuedMeaning | backend/src/ops_composer/services/encryption.py:216-252 | one batch under any issued keyring keeps every meaning under all keys ever issued |
| Rotation.RotationTerminates | backend/src/ops_composer/services/encryption.py:226-252 | with no other writer and every outdated record readable, a job succeeds after exactly max(1, sum of ceil(n/100)) batches and not before; processed and remaining always add up to the first total; SUCCEEDED holds exactly when nothing is off the target version |
| Rotation.RequestedJobTerminates | backend/src/ops_composer/services/encryption.py:145-167 | the same for the job a request creates |
| Rotation.RotationFailsIff | backend/src/ops_composer/services/encryption.py:273-290 | given the batches it needs, a job ends FAILED exactly when some outdated record cannot be read and SUCCEEDED exactly when all can |
| Rotation.JobTakenIff | backend/src/ops_composer/repositories/encryption.py:167-191 | a job is taken exactly when it is PENDING, or RUNNING under an expired lease; one for another version than the primary fails and changes no envelope; the remaining count is right and SUCCEEDED exactly at zero |
| Rotation.BatchShrinks | backend/src/ops_composer/repositories/encryption.py:258-333 | a batch that succeeds removes exactly its records from the outdated ones and leaves the rest readable exactly when all were |
| Rotation.Rotator.LoadTable | backend/src/ops_composer/repositories/encryption.py:196-206 | one batch query: the outdated keys in index order, at most a hundred |
| Rotation.Rotator.LoadBatch | backend/src/ops_composer/repositories/encryption.py:193-256 | the first kind with outdated records and its batch |
| Rotation.Rotator.ReencryptBatch | backend/src/ops_composer/services/encryption.py:231-234 | all or nothing: one record that cannot be read leaves the table unwritten |
| Rotation.Rotator.Process | backend/src/ops_composer/services/encryption.py:216-290 | claims, rotates and accounts for one batch, or records the failure with the envelopes untouched |
| Like.EscapeExactIff | backend/src/ops_composer/db/query.py:29-35 | the three successive replacements equal one per-character escape of every value if and only if the escape character is not itself a wildcard |
| Like.ContainsExact | backend/src/ops_composer/db/query.py:29-35 | the pattern of the escaped value between two percent signs matches a subject exactly when the value occurs in it literally |
| Like.ContainsExactIgnoringCase | backend/src/ops_composer/db/query.py:92-96 | the same for the case-insensitive match, up to case |
| RateLimit.WindowContains | backend/src/ops_composer/auth/service.py:71-75 | the window of a moment contains it |
| RateLimit.WindowAligned | backend/src/ops_composer/auth/service.py:71-75 | a window is the window of each of its moments |
| RateLimit.WindowLimit | backend/src/ops_composer/auth/service.py:318-351 | with a clock that does not go back, the number of a client's attempts that pass in an aligned window is the smaller of the limit and the attempts made, whatever is purged or cleared in between |
| RateLimit.AttemptPassesIff | backend/src/ops_composer/auth/service.py:324-338 | an attempt passes exactly when fewer than `limit` attempts of its client came before it in its window, so the first `limit` pass and no others |
| RateLimit.IntervalLimit | backend/src/ops_composer/auth/service.py:353-362 | at most twice the limit pass in any half-open interval of one window's length |
| RateLimit.Limits.ConsumeLogin | backend/src/ops_composer/auth/repository.py:744-771 | the upsert of the counter and the comparison with the limit |
| RateLimit.Limits.PurgeExpired | backend/src/ops_composer/auth/repository.py:796-800 | removes exactly the counters whose window has ended |
| Totp.CodeIsDynamicTruncation | backend/src/ops_composer/auth/security.py:84-88 | the four-byte slice is always in range and its masked value is the dynamic truncation of section 5.3 of RFC 4226 |
| Totp.CodeReadsBack | backend/src/ops_composer/auth/security.py:84-88 | the code is six digits that read as the truncated value modulo a million, so the format test turns no genuine code away |
| Totp.MatchStep | backend/src/ops_composer/auth/security.py:91-106 | the three-way search in its order of preference |
| Totp.MatchFindsIff | backend/src/ops_composer/auth/security.py:98-106 | a step is found exactly when the code is six digits and fits a step within one of the clock and above the last accepted |
| Totp.StepsAcceptedOnce | backend/src/ops_composer/auth/repository.py:644-655 | for any interleaving of verifications that read an out-of-date row, accepted steps strictly increase, each within one step of the clock of the verification that got it accepted and with the code that one showed (section 5.2 of RFC 6238); an unconfirmed factor accepts nothing |
| Totp.FreshCodeAcceptedIff | backend/src/ops_composer/auth/service.py:482-491 | a verification that read the current row succeeds exactly for a confirmed factor and the code of a step within one of the clock that is later than the last accepted, preferring the current step, then the one before |
| Totp.FactorRow.VerifyCode | backend/src/ops_composer/auth/service.py:474-491 | search with the step read earlier, then the guarded update |
| Replay.EventTable.AppendEvent | backend/src/ops_composer/repositories/runs.py:476-504 | allocates the next number and keeps the numbering dense |
| Replay.EventsAfter | backend/src/ops_composer/repositories/runs.py:506-515 | the smallest numbers above the cursor, in order, at most a page |
| Replay.DensePage | backend/src/ops_composer/repositories/runs.py:506-515 | on a dense table a page has no gap |
| Replay.Send | backend/src/ops_composer/api/runs.py:354-360 | one page is sent whole and in order and the cursor ends on its last number |
| Replay.Generate | backend/src/ops_composer/api/runs.py:345-368 | the cursor loop over any interleaving of appends, pages and status reads |
| Replay.ReplayContiguous | backend/src/ops_composer/api/runs.py:338-368 | over any interleaving and any number of connections, each broken anywhere, also in the middle of a page, and resumed from the last identifier that reached the client, what the client holds is a contiguous run just after the first cursor, each event with its body in the table, and nothing received is lost |
| Replay.ResumesAfterReceived | backend/src/ops_composer/api/runs.py:338-343 | a connection resumes just after the last event that reached the client, wherever the server's cursor had got to |
| Replay.ConnectInOrder | backend/src/ops_composer/api/runs.py:338-368 | one connection, broken anywhere, extends what the client holds without gap or repeat |
| Replay.ReplayFromStart | backend/src/ops_composer/api/runs.py:338-368 | the same from the empty table of a new run |
| Replay.CloseCompleteIff | backend/src/ops_composer/api/runs.py:351-367 | a stream that closes by itself has delivered everything if and only if nothing was appended between its last page and its last look at the status |
| Replay.StreamEndsIff | backend/src/ops_composer/api/runs.py:349-367 | the loop ends exactly when the client is gone, or the run is over and the page was empty |
| Replay.FinalEventCanBeMissed | backend/src/ops_composer/api/runs.py:365-367 | a concrete interleaving in which the stream closes without the final event |
| AuditExport.PageContinues | backend/src/ops_composer/repositories/audit.py:96-113 | after the first k matching events a page holds exactly the next ones |
| AuditExport.Export | backend/src/ops_composer/api/audit.py:183-201 | over a fixed log every matching event once, newest first, after exactly floor(n / limit) + 1 page reads |
| AuditExport.EmittedDescending | backend/src/ops_composer/api/audit.py:183-201 | whatever is appended or purged between pages, the output is strictly descending, so nothing is sent twice |
| AuditExport.StableEventEmitted | backend/src/ops_composer/api/audit.py:183-201 | while rows go oldest first, every matching event present at every page read is sent by the time the export ends, also when the cursor's row is purged |
| AuditExport.ExportSurvivesPurges | backend/src/ops_composer/repositories/audit.py:127-147 | with any appends and any purges before and between the pages, an export that ends has sent every matching event present at all its pages, in strictly descending order |
| AuditExport.ApplyFollows | backend/src/ops_composer/repositories/audit.py:127-147 | an append or a purge batch keeps the log ordered with unique identifiers, and what a purge deletes is older than what it leaves |
| AuditExport.OverdueExact | backend/src/ops_composer/repositories/audit.py:135-146 | the rows at the old end that a purge may take are exactly those before the cutoff |
| AuditExport.PurgeTakes | backend/src/ops_composer/repositories/audit.py:135-146 | a batch takes only rows from before the cutoff, at most the batch size, and fewer only when none is left |
| AuditExport.MissingCursorEndsExport | backend/src/ops_composer/repositories/audit.py:96-103 | if the cursor's row has been purged the next page is empty and the export ends |
| Paths.JoinSplit | backend/src/ops_composer/services/playbook_project.py:75-76 | joining the segments of a path gives it back |
| Paths.SplitJoin | backend/src/ops_composer/services/playbook_project.py:75-89 | splitting a joined path gives its segments back |
| Paths.CanonicalUnchanged | backend/src/ops_composer/services/playbook_project.py:67-89 | a path with no empty and no "." segment is its own normal form |
| Paths.NormalizeAgain | backend/src/ops_composer/services/playbook_project.py:67-89 | a normal form is canonical and is accepted again unchanged exactly unless it has become the manifest's name |
| Paths.AcceptedIsProper | backend/src/ops_composer/services/playbook_project.py:67-89 | an accepted path is relative, within the length and depth limits, without backslash or control character, and none of its segments is empty, ".", "..", padded or reserved; its segments are those of the raw path without the empty and "." ones |
| Paths.RefusedPathIff | backend/src/ops_composer/services/playbook_project.py:67-88 | a raw path is refused exactly for one of the listed reasons |
| Paths.KeepConcat | backend/src/ops_composer/services/playbook_project.py:75-76 | empty and "." segments are dropped one by one and nothing else is |
| Paths.FoldExact | backend/src/ops_composer/services/playbook_project.py:81-81 | folding goes character by character |
| Paths.EndsWithIff | backend/src/ops_composer/services/playbook_project.py:85-85 | the suffix test |
| Paths.SuffixFolds | backend/src/ops_composer/services/playbook_project.py:136-141 | paths that fold alike have suffixes that fold alike, so the entrypoint test does not depend on the spelling |
| Paths.SuffixExact | backend/src/ops_composer/services/playbook_project.py:137-137 | the suffix of a name is its last dot and what follows, if there is something on either side |
| Project.ContentStable | backend/src/ops_composer/services/playbook_project.py:108-108 | line-end normalisation is idempotent |
| Project.LineEndsExact | backend/src/ops_composer/services/playbook_project.py:108-108 | each "\r\n", "\r" or "\n" becomes one "\n" and every other character stays |
| Project.NormalizeProject | backend/src/ops_composer/services/playbook_project.py:92-146 | the loop with its early exits computes the specified files, digest, size and entrypoint |
| Project.NormalizedFiles | backend/src/ops_composer/services/playbook_project.py:98-146 | what a normalised project says of its files: distinct folded paths, sizes adding up within the limit, the digest of the path and content digests, one file each |
| Project.FileBecomes | backend/src/ops_composer/services/playbook_project.py:103-135 | a file is accepted exactly when its path is and its text encodes to 1 byte to 1 MiB without a zero byte; it then has that path, the normalised text and the digest and size of its bytes |
| Project.EntrypointIff | backend/src/ops_composer/services/playbook_project.py:136-145 | an entrypoint is accepted exactly when its path is, its suffix is a YAML one and it folds like the path of a file, which it then names |
| Project.NormalizeIff | backend/src/ops_composer/services/playbook_project.py:92-146 | exactly which dictionaries normalise, and to which project |
| Project.ProjectPathsProper | backend/src/ops_composer/services/playbook_project.py:92-146 | every path of a project, and its entrypoint, stays inside the project |
| Project.RenormalizeIff | backend/src/ops_composer/services/playbook_project.py:92-146 | normalising a project's own files, in any order, gives the project back if and only if raw and canonical spellings sort alike and no path has become the manifest's name |
| Project.CanonicalFixpoint | backend/src/ops_composer/worker.py:436-444 | with canonical raw paths normalisation is a fixpoint, so the worker's digest re-check accepts the saved project |
| Recheck.AcceptedIff | backend/src/ops_composer/worker.py:439-444 | the worker's digest re-check accepts a saved project, its files in any order, if and only if raw and canonical spellings sort alike and no path has become the manifest's name |
| Recheck.SameDigestSameFiles | backend/src/ops_composer/worker.py:439-444 | two projects with one digest have the same files in order and text, unless the digest collides on their digest inputs or texts, so nothing else passes the re-check for a saved project |
| Recheck.SamePaths | backend/src/ops_composer/services/playbook_project.py:124-127 | the zero bytes separate: equal digest inputs have equal paths and equal file digests in the same order |
| RawSpelling.DottedProjectRefused | backend/src/ops_composer/worker.py:439-444 | under every codec whose digest tells apart the orders of its files, a concrete project with a "./" path saves, does not normalise to itself, and is refused by the worker's re-check |
| Archive.ReadMember | backend/src/ops_composer/services/playbook_project.py:406-416 | chunked reading refuses a member exactly when its whole size breaks a limit |
| Archive.ImportZip | backend/src/ops_composer/services/playbook_project.py:369-440 | the import loop with its refusals computes the specified project |
| Imports.MembersConcat | backend/src/ops_composer/services/playbook_project.py:380-380 | directory entries are passed over and nothing else is |
| Imports.ImportIff | backend/src/ops_composer/services/playbook_project.py:369-440 | an import succeeds exactly when upload size and member count are allowed, every member is unencrypted, a plain file, not executable, within the size limits, text and under an acceptable path, no two paths fold alike, the total fits, and an entrypoint is given or in the manifest, the given one winning; the project is what the text members normalise to |
| Imports.ImportedPathsProper | backend/src/ops_composer/services/playbook_project.py:397-401 | no path of an imported project leaves it |
| Archive.ExportedMembers | backend/src/ops_composer/services/playbook_project.py:443-460 | an export is the manifest followed by the files in order, all regular entries |
| Archive.GatherExported | backend/src/ops_composer/services/playbook_project.py:384-434 | importing the first k files of an export succeeds exactly while none is the manifest's name and manifest plus files fit the project limit |
| Archive.ExportImportIff | backend/src/ops_composer/services/playbook_project.py:369-460 | importing an export gives the project back, files, order, entrypoint, size and digest, if and only if it normalises to itself and its size plus that of the manifest is within the project limit |
| FullProject.FullProjectNotImported | backend/src/ops_composer/services/playbook_project.py:409-415 | ten files of one mebibyte make a project that normalises to itself at exactly the allowed size, is exported, and is refused on import because the manifest counts |
| Parameters.ValidateParameters | backend/src/ops_composer/services/playbook_project.py:314-366 | the loop over the properties computes the specified split or rejects |
| Parameters.TakeAllPlaces | backend/src/ops_composer/services/playbook_project.py:328-365 | a split exists exactly when every property is satisfied; then each effective value is in the half its sensitivity calls for, and nothing else is in either |
| Parameters.ValidateExact | backend/src/ops_composer/services/playbook_project.py:314-366 | parameters are valid exactly when supplied names are declared, supplied values and needed defaults accepted and nothing required missing; a supplied value is then kept as it is whatever the default, a missing one has its default or nothing, each in the half its sensitivity calls for |
| Parameters.AcceptsIff | backend/src/ops_composer/services/playbook_project.py:292-363 | what a definition accepts, by the kind of value |
| Parameters.StoredIgnoresSecrets | backend/src/ops_composer/services/runs.py:586-605 | two valid inputs that differ only in sensitive values store the same parameter fields |
| Parameters.RetryReproduces | backend/src/ops_composer/services/runs.py:864-882 | validating the public half together with the secrets gives the same split, so a retry runs with its source's variables |
| Parameters.RetryFromStored | backend/src/ops_composer/services/runs.py:864-882 | the stored public values with the secrets named in the stored fields give the source's split |

## Left out

- SQL text, connection handling and asyncio scheduling: only row effects and atomicity are modelled.
- Ansible Runner, SSH, PTY, ssh-agent, runtime directories and WebSocket pumping: foreign I/O.
- Bytes of AES-GCM, SHA-256, HMAC, base32, JSON, YAML and ZIP: abstracted as functions with laws; a ZIP is its list of entries.
- CHECK constraints such as lock expiry after acquisition and positive lease lengths: not modelled, so the model allows more states than the database does.
- Candidate selection under `SKIP LOCKED`: a candidate that another transaction holds is one of the arbitrary candidates of a claim step; `Store.Claim` covers the case without other transactions.
- Idempotent replay of a run request by key and fingerprint: would only add easy members.
- Exception messages and which of several failing checks is reported first: failures are one outcome unless a row above says otherwise.
- Key rotation next to other writers: `Rotation.RotationTerminates` is for a job alone, while `Rotation.RotationKeepsMeaning` covers any sequence of batches of any jobs and keyrings. Rows skipped because another transaction holds them are not modelled.
- The per-version grouping of `usage`: only the number of records off the target version is used by the service, so that number is what is modelled.
- The single active rotation job, the last-owner rule and the keyring file: easy members or database constraints.
- Immutability of a finished target row: `finish_target` has no ownership guard, so only "a terminal run has no open target" holds and is proved.
- validate_parameter_schema: a normalised schema, each property once, is taken as given.
- The request fingerprint of a run: it covers the supplied secrets through an HMAC and is not among the fields `Parameters.StoredIgnoresSecrets` compares.
- Audit purges that skip rows locked by someone else: nothing else in the program locks audit rows, and an advisory lock keeps purges apart.
- Recovery codes, challenges, sessions and permissions: not modelled.
- Window arithmetic before 1970: `RateLimit.WindowStart` floors, where Python's `int` truncates.
- Keep-alive comments and the polling interval of the event stream: no effect on what is delivered.
- redact_secrets, output truncation and log sanitising: not modelled.
