# QQ Guardian: verified models

QQ Guardian moderates chat groups. This project models the parts of it that carry a protocol, a parser or exact
arithmetic, and proves what they promise. Every module stands beside one part of the program:

| module | part of the program |
|---|---|
| `ShadowMigrationState`, `ShadowMigration` | the journaled replacement of configuration and database, with a failure possible at every step of migration and of recovery |
| `NamedLocks` | the first-in-first-out named lock |
| `LockOrder` | every task that takes locks, and why none of them waits for ever |
| `LockGuards` | that provider calls made under one lock never overlap |
| `LockRefinement` | that the tasks' queues are the queues of the lock table |
| `AdmissionState`, `Admission`, `AdmissionProofs`, `AdmissionRuns`, `AdmissionCauses`, `AdmissionExpiry`, `AdmissionDecisions`, `AdmissionChallenges`, `AdmissionAnswers` | join requests, operators, captcha answers, captcha expiry and hourly maintenance, interleaved at every `await` |
| `AdmissionTables` | the tables under admission, changed in place, and the reconciliation of a user's captcha sessions |
| `CaptchaRouting` | which open captcha session a private message answers |
| `Iteration`, `BitSerial`, `Crc32` | the table-driven CRC-32 |
| `ZipFormat`, `ZipChecksum`, `ZipReader`, `ZipSoundness` | the reader of update archives |
| `ZipWriter`, `ZipRoundTrip` | the packer of release archives, and reading what it wrote |
| `UpdateApply` | replacing the plugin's files, and rolling back |
| `Text`, `SemVer`, `SemVerOrder` | release tags and which release is newer |
| `Decimal`, `OneBotId` | 64-bit identifiers as decimal strings, and the database's checks on them |
| `CurfewWindow`, `Curfew` | curfew windows and the scheduler that mutes and unmutes |
| `Ingress`, `EventDispatch` | the WebSocket client's bounded queues, generations and pending calls |
| `LoginRateLimit` | the login limiter |
| `Statistics` | the counter rows and the cache of rows known to exist |
| `UserAdmin` | the guard over the last usable super administrator |

How things are modelled:

- What the environment does is an input. Files, tables and timers are values; a provider call is acknowledged or fails;
  every atomic write, rename, unlink or statement takes its fate from a schedule (`faults`), and in the migration it
  may also find the process dead.
- An asynchronous function is cut at its awaits. One method (or one case of `Admission.Next`) is one JavaScript turn,
  and any other turn may come between two turns of one task.
- Ghost fields record what happened: every disk a migration passed through, every call the curfew scheduler sent, every
  change to the handled frames and the calls of a client, every request a limiter counted. The class invariants speak
  about these records and no method takes anything back from them while they are kept, so they hold of every run.
- Validation, conversion, hashing, deflation and inflation are function parameters. Two artifacts are equal when their
  hash and size would be.

Five places where the code does less than its comments or its names suggest are stated as results:

- A completed migration can keep the write-ahead log of the former database. Recovery compares main files only
  (`src/migration/shadow.ts:254-260`), so a former main file that already equals the candidate counts as the candidate.
  `FormerSidecarsGoneIff` says exactly when this cannot happen, and `KeptSidecarExample` is a run where it does. Such a
  disk is a rare one: candidates leave write-ahead mode before they are described (`src/migration/shadow.ts:447`), and
  the main file of a database in that mode has another header, so the former main file must be in rollback mode, with
  a log that was left beside it all the same.
- For the same reason, and on such a disk, recovery need not terminate: where the log beside that former main file does
  not validate, an interruption right behind the configuration's replacement is refused at every start.
  `RecoveryTerminatesIff` says exactly when, and `StuckRecoveryExample` is such an interruption.
- `updateStatus` is unconditional (`src/database/repositories/approval.ts:63-77`), so a request that expires while its
  provider call is in flight is still approved or rejected. `ExpiredIsDecidedIff` says that a call in flight is exactly
  what it takes, `ExpiredStays` that without one the request stays expired, and `ExpiredCanStillBeApproved` is a run.
- A group that is taken out of the configuration while it is muted is not visited any more, so its mute stays until the
  scheduler stops (`src/modules/curfew/index.ts:132`); `LiftedIffListed` gives the exact condition, and
  `RemovedGroupExample` is such a run.
- A login window admits its limit, but a stretch of time as long as a window can admit twice the limit, and a shorter
  one all but one of that; `IntervalAdmits` proves both bounds and `BoundsAreReached` that they are reached.

## Model

| member | source | states |
|---|---|---|
| ShadowMigrationState.UndoneIsSource | src/migration/shadow.ts:277-301 | putting the backup back over anything an activation or its interruption can leave live restores the source generation: same configuration, same credentials, same database content or none, no foreign sidecar |
| ShadowMigrationState.RecoveryTerminatesIff | src/migration/shadow.ts:254-275 | every interruption of an activation or of its recovery can be recovered from once failures stop, if and only if the former main file is not already the candidate's under a log that does not validate |
| ShadowMigrationState.RefusedIsAmbiguous | src/migration/shadow.ts:262-275 | whatever an interruption left, an undisturbed recovery is refused only over such a former database |
| ShadowMigrationState.StuckRecoveryExample | src/migration/shadow.ts:313-339 | an interruption from which every undisturbed recovery is refused |
| ShadowMigrationState.RecoveredIsSettled | src/migration/shadow.ts:313-339 | for every interrupted activation an undisturbed recovery ends in exactly one of the two generations, the candidate's if and only if the live files already match it |
| ShadowMigrationState.RecoveryIsIdempotent | src/migration/shadow.ts:313-339 | recovering a recovered disk changes nothing, keeps the invariant, and leaves no undecided journal |
| ShadowMigrationState.FormerSidecarsGoneIff | src/migration/shadow.ts:254-275 | no interruption lets recovery complete a migration with a sidecar of the former database in place, if and only if the former main file differs from the candidate's, or had no index and no log with which it validates |
| ShadowMigrationState.KeptSidecarExample | src/migration/shadow.ts:520-531 | a run in which a completed migration keeps the former write-ahead log |
| ShadowMigration.HistoryAt | src/migration/shadow.ts:460-574 | at every recorded step the phase invariant holds, and the step touched live files only under an armed journal, overwrote no archived journal and swapped no active one |
| ShadowMigration.Installation.Commit | src/migration/files.ts:96-116 | an atomic change happens completely or not at all, and is recorded as an allowed step |
| ShadowMigration.Installation.ArchiveJournal | src/migration/shadow.ts:211-222 | the active journal leaves for the archive under its own id and reason, or nothing happens |
| ShadowMigration.Installation.WriteJournal | src/migration/files.ts:206-209 | the active journal is replaced by another phase of the same migration, or nothing happens |
| ShadowMigration.Installation.ActiveMatchesCandidate | src/migration/shadow.ts:254-260 | a positive answer means the live files are the candidate's; a file that cannot be read does not match |
| ShadowMigration.Installation.RemoveSqliteSidecars | src/migration/files.ts:193-198 | only sidecars disappear, both of them when the step returns |
| ShadowMigration.Installation.ReplaceConfig | src/migration/files.ts:164-191 | the live configuration becomes the artifact's content or stays, nothing else changes |
| ShadowMigration.Installation.ReplaceDatabase | src/migration/files.ts:164-191 | the live main file becomes the artifact's content or stays, nothing else changes |
| ShadowMigration.Installation.RestoreFromBackup | src/migration/shadow.ts:277-301 | when it returns, live is the source put back; however it is interrupted the phase invariant still holds |
| ShadowMigration.Installation.CompleteActivation | src/migration/shadow.ts:262-275 | proving an active candidate once more ends with the journal completed or still pending; undisturbed it is refused exactly where the candidate fails validation, and then changes nothing |
| ShadowMigration.Installation.CommitToCandidate | src/migration/shadow.ts:303-339 | the writes that commit to a live candidate end completed or still pending, and undisturbed they complete |
| ShadowMigration.Installation.Undo | src/migration/shadow.ts:277-301 | the source is put back and the journal archived, or the journal stays |
| ShadowMigration.Installation.RestoreSource | src/migration/shadow.ts:313-339 | when it returns the source generation is live and the journal archived, otherwise the activation is still undecided with both generations intact |
| ShadowMigration.Installation.RecoverIncompleteJournal | src/migration/shadow.ts:313-339 | all or nothing for every schedule of failures: untouched where nothing is pending, live files untouched before activation, and after that settled in one generation or still pending; returning means settled, and an undisturbed recovery returns if and only if an active candidate, where there is one, validates |
| ShadowMigration.Installation.RecoverAcrossRestarts | src/migration/shadow.ts:313-339 | any number of crashed or failed recoveries leaves the activation settled or decidable; one undisturbed recovery decides it exactly where an active candidate validates, so always for a former database that is not ambiguous |
| ShadowMigration.Installation.CreateBackups | src/migration/shadow.ts:402-412 | the backup holds the live generation, its database what the log says where there is one, and the recorded source is that generation; undisturbed it succeeds exactly if there is a configuration |
| ShadowMigration.Installation.StageCandidate | src/migration/shadow.ts:486-498 | a candidate is staged from the backup alone and is valid where it is staged; live files stay as they are; undisturbed it succeeds exactly if both conversions exist and are accepted |
| ShadowMigration.Installation.BackUp | src/migration/shadow.ts:465-471 | the journal reaches backup_verified only with the backup recorded and intact |
| ShadowMigration.Installation.Stage | src/migration/shadow.ts:473-518 | the journal reaches staged_validated, before any live file is touched |
| ShadowMigration.Installation.ReportStaged | src/migration/shadow.ts:502-518 | the report and the phase behind it leave the live files as they are |
| ShadowMigration.Installation.ReplaceLiveFiles | src/migration/shadow.ts:523-534 | configuration first, then sidecars, then database; when it returns the candidate is live and stands alone |
| ShadowMigration.Installation.InstallDatabase | src/migration/shadow.ts:527-534 | the candidate database never stands beside a sidecar of the former one; undisturbed, it is installed |
| ShadowMigration.Installation.ConfirmActivation | src/migration/shadow.ts:536-542 | completion is written only over live candidate files, wherever the process dies, and a failure never leaves it written |
| ShadowMigration.Installation.Activate | src/migration/shadow.ts:520-542 | activation completes with the candidate live, or its journal says at every point that it is not complete |
| ShadowMigration.Installation.Attempt | src/migration/shadow.ts:465-543 | the whole attempt ends with the candidate live and no sidecar, or dies or throws; a journal that says completed then stands beside the live, validated conversion of the source |
| ShadowMigration.Installation.HandleFailure | src/migration/shadow.ts:544-573 | after a failure before activation nothing has changed; after one during activation the source is restored or still pending, and restored if nothing else fails |
| ShadowMigration.Installation.RestoreAfterFailure | src/migration/shadow.ts:547-567 | a failed restoration leaves the journal asking for recovery |
| ShadowMigration.Installation.Begin | src/migration/shadow.ts:460-463 | a migration begins only where no journal is active, under an id no archive holds |
| ShadowMigration.Installation.PerformMigration | src/migration/shadow.ts:460-574 | success means the validated conversion of the source live under a completed journal without sidecars, and nothing else changed; undisturbed it succeeds if and only if there is a configuration and both conversions are accepted; every failure or crash, at whatever point, leaves that, or the former generation, or a journal that is not complete |
| ShadowMigration.Installation.Resume | src/migration/shadow.ts:313-339 | one recovery after a migration, whatever became of it: what is decided stays, and returning means decided |
| ShadowMigration.Installation.MigrateThenRecover | src/migration/shadow.ts:277-574 | a whole migration and all starts after it, each under any schedule of failures and crashes: a recovery that returns leaves the candidate pair under a completed journal or the source pair with the journal archived, never a mix; without failures it returns unless the former database is ambiguous; a migration that nothing disturbs leaves the conversion exactly where there is one, whatever the starts after it do |
| ShadowMigration.Installation.Start | src/migration/shadow.ts:606-656 | a start changes nothing unless it migrates, and never returns beside a completed journal that does not fit the live files; undisturbed it migrates exactly where that is due and possible, and otherwise returns exactly over current files or none |
| ShadowMigration.Installation.RunGuardianShadowMigration | src/migration/shadow.ts:580-660 | a start that returns has first decided any interrupted activation, and leaves no undecided journal; undisturbed it migrates exactly if what recovery leaves is due for migration and can be converted |
| ShadowMigration.Installation.ReadLiveFiles | src/migration/shadow.ts:605-655 | what the live files say: a migration is due, or nothing is and the files are current, or they are refused |
| ShadowMigration.OlderInstallationMigrates | src/migration/shadow.ts:580-660 | every installation of an older schema whose conversions are accepted is migrated by its first undisturbed start, the database as its log has it, credentials untouched and no sidecar left |
| NamedLocks.StartsInCallOrder | src/core/locks.ts:17-34 | a function runs only after every earlier call under its name has released |
| NamedLocks.MutualExclusion | src/core/locks.ts:17-34 | at most one function runs under a name |
| NamedLocks.HeadCanProceed | src/core/locks.ts:26-33 | the first of a queue runs or can resume and all others wait, so no release is lost, even when a function threw |
| NamedLocks.QueueAfterRelease | src/core/locks.ts:30-33 | a release takes the head off its queue and moves the rest up unchanged |
| NamedLocks.ChainedAfterCall | src/core/locks.ts:17-26 | awaiting the last unreleased call of a name keeps every call linked to its exact predecessor |
| NamedLocks.LockTable.WithLock | src/core/locks.ts:17-26 | a call runs at once exactly when nobody holds or awaits its name, otherwise it queues last; the map then holds it as the tail |
| NamedLocks.LockTable.Resume | src/core/locks.ts:26-29 | only the call whose predecessor has released starts running |
| NamedLocks.LockTable.Settle | src/core/locks.ts:30-33 | a function that returns or throws releases, and the map entry disappears exactly when it was the last |
| NamedLocks.LockTable.TryWithLock | src/core/locks.ts:41-47 | succeeds exactly when nobody holds or awaits the name, and then runs at once |
| LockRefinement.NamesAreDistinct | src/core/locks.ts:51-69 | different locks have different names |
| LockRefinement.Enter | src/core/locks.ts:17-26 | the turn in which a task of the lock order calls for a lock is one call at the table, whose queues stay the tasks' queues |
| LockRefinement.Continue | src/core/locks.ts:26-29 | the turn in which it goes on with the lock resumes exactly its own call |
| LockRefinement.Leave | src/core/locks.ts:30-33 | the turn in which it gives the lock back settles exactly its own call |
| LockRefinement.Try | src/core/locks.ts:41-47 | the turn in which it tries for a lock is one attempt at the table, with the same outcome |
| LockRefinement.AwaitRefines | src/core/locks.ts:17-47 | a turn that awaits anything else touches no lock of the table |
| LockRefinement.TakeTurn | src/core/locks.ts:17-47 | whichever turn a task takes, the table can take it too, with the queues equal afterwards |
| LockRefinement.RunAtTable | src/core/locks.ts:17-47 | every run of the tasks, under any schedule, is a run of one lock table whose queues are the tasks' queues; where no task can go on, the table holds no unreleased call of theirs |
| LockOrder.TurnKeepsInv | src/core/locks.ts:17-47 | every turn of a disciplined task keeps queues, holders and discipline consistent |
| LockOrder.HolderCanProceed | src/core/locks.ts:51-69 | behind every waiter stands, in the end, the holder of a lock who can take a turn |
| LockOrder.NoDeadlock | src/core/locks.ts:51-69 | while a task is unfinished, some task can take a turn |
| LockOrder.AllTasksFinish | src/core/locks.ts:51-69 | every schedule of disciplined tasks is bounded, and where it stops all tasks are finished and all locks free |
| LockOrder.JoinIsNeutral | src/application/member-join.ts:71-72 | the admission pipeline takes punishment locks only above its own member-join lock |
| LockOrder.IssueIsNeutral | src/modules/captcha/index.ts:84-143 | issuing a challenge takes the user's captcha lock inside the request's, and gives both back |
| LockOrder.MessageIsNeutral | src/modules/captcha/index.ts:188-228 | a private message gives the user's lock back before it takes the request's, and a decision takes the approval lock inside that |
| LockOrder.ExpiryIsDisciplined | src/modules/captcha/index.ts:589-609 | an expiry that finds its lock busy skips its whole section |
| LockOrder.ProgramsAreDisciplined | src/modules/approval/index.ts:94-237 | every activity of Guardian respects the lock order |
| LockOrder.GuardianNeverDeadlocks | src/modules/punishment/index.ts:27-132 | any number of activities under any schedule finishes or has a task that can go on |
| LockGuards.ProgramsAreGuarded | src/core/locks.ts:51-69 | every activity that guards its calls makes all of them with its lock held |
| LockGuards.JoinRequestIsGuarded | src/modules/approval/index.ts:72-162 | behind its first call a join request makes its calls under the lock of its flag |
| LockGuards.DecisionsAreGuarded | src/modules/approval/index.ts:207-237 | a captcha decision makes its calls under the lock of the request's flag |
| LockGuards.CallsNeverOverlap | src/core/locks.ts:17-34 | under every schedule two activities that guard their calls by the same lock never have a call out at the same time |
| AdmissionProofs.StepKeepsInv | src/modules/approval/index.ts:72-305 | every turn of every task, and of time, keeps the admission invariant and only moves rows forward |
| AdmissionProofs.ConcludeKeepsInv | src/database/repositories/approval.ts:63-77 | the unconditional status update after an acknowledgement keeps the invariant even when the request expired meanwhile |
| AdmissionProofs.RouteKeepsInv | src/modules/approval/index.ts:94-162 | routing a request creates at most one record per flag and counts it once |
| AdmissionProofs.OperateKeepsInv | src/modules/approval/index.ts:165-205 | an operator's turn decides only a pending, unexpired request |
| AdmissionProofs.ChooseKeepsInv | src/modules/captcha/index.ts:89-141 | issuing under the user's lock keeps at most one open session per request |
| AdmissionProofs.AnswerKeepsInv | src/modules/captcha/index.ts:274-321 | an answer never drives a session past its attempts |
| AdmissionProofs.BeginExpiryKeepsInv | src/modules/captcha/index.ts:573-609 | an expiry action keeps the number of occupied slots within four |
| AdmissionProofs.ReturnKeepsInv | src/modules/captcha/index.ts:459-508 | a captcha decision that is over closes its session, whatever became of the call |
| AdmissionRuns.OneDecisionPerRequest | src/modules/approval/index.ts:72-305 | over all interleavings a flag has at most one record and a record at most one acknowledged decision; approved and rejected are final and captcha is never entered again |
| AdmissionRuns.StatusIsAcknowledgement | src/database/repositories/approval.ts:63-98 | whenever no call is in flight, a record is approved or rejected exactly as its provider acknowledged |
| AdmissionRuns.LedgerOverRuns | src/modules/approval/index.ts:261-284 | at every point between turns each counter, per group and global, is the number of records it counts |
| AdmissionRuns.CaptchaBounds | src/modules/captcha/index.ts:84-141 | in every run each user has at most five active sessions with distinct codes, each request at most one open session, no session too many attempts, and at most four expiry slots are taken |
| AdmissionRuns.ReconciliationPartitions | src/modules/captcha/index.ts:328-400 | whatever rows it meets, reconciliation keeps at most five distinct newest sessions and closes every other answerable one, returning its request to the operators |
| AdmissionRuns.NotKeptIsOutranked | src/modules/captcha/index.ts:372-380 | a session is retired only behind five newer kept ones or one with its code |
| AdmissionRuns.ReconciliationRows | src/modules/captcha/index.ts:328-400 | every row after a reconciliation: requests out of time have expired, those of retired sessions are back with the operators, the user's sessions are closed where nothing awaits them or they were retired, and no other row has changed |
| AdmissionRuns.ActiveIsAnswerable | src/modules/captcha/index.ts:328-371 | a session counts as active exactly while it is open and neither it nor the request that awaits it is out of time |
| AdmissionRuns.RunsFromEmpty | src/modules/captcha/index.ts:84-141 | every run from an empty database keeps the invariant and the bounds on each user's captcha sessions |
| AdmissionAnswers.AnswersOfEveryRun | src/modules/captcha/index.ts:274-321 | in every run, whatever happens in between, each answer judged in time costs its session exactly one attempt and nothing else does; only the last of them can be right or use up the last attempt, since that one closes the session; they start exactly one decision, as right as that one is, if the request still awaited it, and none otherwise |
| AdmissionAnswers.FirstDecisiveAnswerDecides | src/modules/captcha/index.ts:274-321 | a schedule that serves in order any number of answers that wait for a session, to the end: the first right one within its attempts approves the request, and if there is none the one that uses up the last attempt rejects it, with the acknowledgement recorded; if the provider fails the request goes to the operators; the session is closed, each answer has cost one attempt and nothing else has changed |
| AdmissionAnswers.WrongAnswerCosts | src/modules/captcha/index.ts:288-320 | a wrong answer before the last attempt costs one attempt, changes nothing else and gives the lock back |
| AdmissionCauses.StepNeedsCause | src/modules/approval/index.ts:72-305 | no turn starts a decision unless a rule routed a new request so, an operator decided a pending unexpired one, an answer settled its session, or the session's time was over |
| AdmissionCauses.CauseStartsDecision | src/modules/captcha/index.ts:274-321 | every turn that is so entitled starts the decision |
| AdmissionCauses.DecisionsHaveCauses | src/modules/approval/index.ts:72-305 | over all interleavings a request becomes approved or rejected only behind an entitled turn of the run |
| AdmissionDecisions.DecisionCalls | src/modules/approval/index.ts:207-237 | whatever its verdict, a captcha decision about a request that awaits it finds the approval lock free and calls the provider with that verdict |
| AdmissionDecisions.CallEnds | src/modules/approval/index.ts:207-305 | every call that is out can be answered: acknowledged, it leaves the request decided, the acknowledgement recorded and counted; failed, it leaves an undecided request with the operators |
| AdmissionDecisions.DecisionEnds | src/modules/captcha/index.ts:459-508 | from every state every captcha decision can be carried through, which closes its session, gives back its locks and slot, and decides or returns its request |
| AdmissionDecisions.DecisiveAnswerEnds | src/modules/captcha/index.ts:274-321 | the right answer in time ends with the request approved, the last wrong one with it rejected, and either with it at the operators if the provider fails; session closed, one attempt spent |
| AdmissionDecisions.LateAnswerEnds | src/modules/captcha/index.ts:279-286 | an answer that comes too late ends with the request rejected, or at the operators, and the session closed |
| AdmissionDecisions.StaleAnswerEnds | src/modules/captcha/index.ts:459-464 | an answer that would decide a request that no longer awaits it closes the session and leaves the request alone |
| AdmissionDecisions.ExpiryEnds | src/modules/captcha/index.ts:573-609 | an expiry ends with the request rejected, or at the operators, the session closed and its slot free again |
| AdmissionDecisions.CauseDecides | src/modules/approval/index.ts:72-305 | every entitled turn starts a decision that some run carries out: the request ends approved, or rejected, with the provider's acknowledgement |
| AdmissionChallenges.ChallengeEnds | src/modules/captcha/index.ts:84-185 | a request that awaits its challenge gets one open session with no attempt spent, where its user has room; if the message cannot be delivered, the session is closed and the request goes to the operators |
| AdmissionChallenges.NoRoomEnds | src/modules/captcha/index.ts:97-117 | where its user already has five, the request goes to the operators without a session |
| AdmissionChallenges.RoutedToCaptchaEnds | src/modules/approval/index.ts:94-162 | a new request that its rule sends to a captcha is recorded as awaiting one and gets its challenge |
| AdmissionChallenges.RoutedDirectlyEnds | src/modules/approval/index.ts:94-162 | any other new request is recorded once and ends decided as its rule says if the provider acknowledges, and otherwise with the operators |
| AdmissionChallenges.OperatorEnds | src/modules/approval/index.ts:165-205 | an operator's decision of a pending request in time is carried out, an expired one is marked so, and any other is left alone |
| AdmissionExpiry.ExpiredIsDecidedIff | src/database/repositories/approval.ts:63-77 | an expired request is still approved, or rejected, in some run if and only if a provider call to do that is in flight |
| AdmissionExpiry.ExpiredStays | src/database/repositories/approval.ts:63-98 | an expired request about which no call is in flight stays expired in every run |
| AdmissionExpiry.ExpiredCanStillBeApproved | src/database/repositories/approval.ts:63-98 | every request with a rule to approve it has a run in which maintenance expires it while its call is in flight and the acknowledgement approves it all the same |
| AdmissionTables.Tables.FindByFlag | src/database/repositories/approval.ts:18-25 | finds the newest request of a flag, and nothing exactly when there is none |
| AdmissionTables.Tables.Create | src/database/repositories/approval.ts:36-61 | adds the request behind all others, and makes its flag and no other known |
| AdmissionTables.Tables.UpdateStatus | src/database/repositories/approval.ts:63-77 | sets the status of one row whatever it was, and touches no other |
| AdmissionTables.Tables.ExpirePendingIfExpired | src/database/repositories/approval.ts:79-88 | expires a row exactly when it is pending and due, and says whether it did |
| AdmissionTables.Tables.ExpireOldPending | src/database/repositories/approval.ts:90-98 | expires every undecided row that is due and counts the rows that changed |
| AdmissionTables.Tables.MarkActionFailure | src/modules/approval/index.ts:297-305 | an undecided row goes back to the operators, a decided or expired one stays |
| AdmissionTables.Tables.MarkApprovalPending | src/modules/captcha/index.ts:521-529 | only a row that awaits its captcha goes back to the operators |
| AdmissionTables.Tables.Divide | src/modules/captcha/index.ts:372-380 | the loop over candidates splits them into the kept and the retired ones, each newest first, and every candidate is in exactly one |
| AdmissionTables.Tables.Retire | src/modules/captcha/index.ts:382-393 | each retired session is closed and each of their requests returned, and nothing else changes |
| AdmissionTables.Tables.ReconcileActiveSessions | src/modules/captcha/index.ts:328-400 | the transaction reconciles the user's rows and reports what it kept and retired, or changes nothing |
| CaptchaRouting.AnswersWhatIsNamed | src/modules/captcha/index.ts:412-446 | among several sessions a message answers exactly the one whose code it names, with exactly the text behind the code, and none if it names none |
| CaptchaRouting.SoleSessionAnswers | src/modules/captcha/index.ts:414-445 | a single session is answered by its right answer whatever that looks like, by a message that names it, and by any message that does not begin like a selector, and by nothing else |
| CaptchaRouting.RightAnswersAreRight | src/modules/captcha/index.ts:412-446 | a message that names a session and gives its right answer counts as that session's right answer |
| CaptchaRouting.RepliesReachTheirSession | src/modules/captcha/index.ts:566-570 | replying in the form the challenge asks for, with the right answer, always reaches the session it is meant for |
| CaptchaRouting.FindIsExact | src/modules/captcha/index.ts:434-440 | with distinct codes the search finds a session exactly when it is the one with the supplied code |
| CaptchaRouting.CodeExamples | src/modules/captcha/index.ts:412-446 | codes are ten upper-case digits of base sixteen |
| CaptchaRouting.SelectorExamples | src/modules/captcha/index.ts:412-446 | selectors take them in either case, behind a number sign, and nothing shorter or else |
| CaptchaRouting.CaseExamples | src/modules/captcha/index.ts:434-440 | codes are compared without regard to case |
| AdmissionState.SelectIsTallied | src/modules/captcha/index.ts:372-380 | the codes and the number a reconciliation keeps count of are those of the sessions it keeps |
| Iteration.FoldIsInjective | src/modules/update/archive.ts:171-175 | steps that lose nothing lose nothing together |
| BitSerial.CombinedShiftsTakeBits | src/modules/update/archive.ts:171-185 | combining a value with a register first and shifting afterwards feeds the value in bit by bit |
| Crc32.ShiftOfXor | src/modules/update/archive.ts:177-185 | the shift step is linear over exclusive or |
| Crc32.TakeByteIsEightShifts | src/modules/update/archive.ts:177-185 | taking a byte in bit by bit is combining it with the register and shifting eight times |
| Crc32.EightShiftsByParts | src/modules/update/archive.ts:173 | eight shifts are the table entry of the low byte combined with the rest moved down |
| Crc32.CreateCrc32Table | src/modules/update/archive.ts:177-185 | entry k holds k shifted eight times |
| Crc32.FillEntry | src/modules/update/archive.ts:180-183 | the inner loop computes one entry of the table |
| Crc32.NextRegister | src/modules/update/archive.ts:173 | the table step takes in one byte bit by bit |
| Crc32.ComputeCrc32 | src/modules/update/archive.ts:171-175 | for every byte sequence the table-driven checksum is the bit-at-a-time reflected CRC with polynomial 0xedb88320 |
| Crc32.SingleByteErrorsAreDetected | src/modules/update/archive.ts:171-175 | messages of one length that differ in exactly one byte never share a checksum |
| Crc32.CheckValue | src/modules/update/archive.ts:171-185 | the digits from one to nine have the published check value 0xcbf43926, so polynomial, bit order and complements are the standard ones |
| ZipReader.FindEndRecord | src/modules/update/archive.ts:147-155 | finds the last end record whose comment reaches the end, and fails exactly when there is none |
| ZipReader.ReadDirectory | src/modules/update/archive.ts:52-96 | succeeds exactly on directories of eight acceptable, distinctly named records that end at the end record and declare at most the limit |
| ZipReader.ReadLocal | src/modules/update/archive.ts:101-134 | succeeds exactly when the local record agrees with its entry, lies below the directory and unpacks to the declared length and checksum |
| ZipReader.ReadLocals | src/modules/update/archive.ts:98-136 | succeeds exactly when every local record does, with exactly their files |
| ZipReader.NeighboursDecide | src/modules/update/archive.ts:138-143 | comparing neighbours after sorting by start decides whether any two ranges overlap |
| ZipReader.CheckOverlap | src/modules/update/archive.ts:138-143 | true exactly when all ranges are pairwise apart |
| ZipReader.ParseNapCatUpdateArchive | src/modules/update/archive.ts:33-145 | succeeds exactly on the archives the format accepts, with exactly the files they hold |
| ZipSoundness.AcceptedFiles | src/modules/update/archive.ts:52-136 | an accepted archive holds exactly the eight release files, each with its declared length and checksum, together within 100 MiB |
| ZipSoundness.DirectoryIsTiled | src/modules/update/archive.ts:57-96 | every byte between the directory's offset and the end record belongs to exactly one central record |
| ZipSoundness.LocalBytesAreOwn | src/modules/update/archive.ts:118-143 | no byte serves two local records, and none of theirs lies in the directory |
| ZipSoundness.EndOnBytes | src/modules/update/archive.ts:147-155 | an end record is its four signature bytes and a comment that reaches the end of the archive |
| ZipSoundness.LayoutOnBytes | src/modules/update/archive.ts:38-50 | one disk, eight entries on it, and a directory that ends at the end record |
| ZipSoundness.CentralOnBytes | src/modules/update/archive.ts:57-88 | a central record is acceptable exactly if its signature, maker, flags, compression, disk and file type are these bytes, its name is expected, its sizes are within 100 MiB and it is whole |
| ZipSoundness.LocalOnBytes | src/modules/update/archive.ts:101-119 | a local record is acceptable exactly if it repeats flags, compression, checksum and sizes of its central record byte for byte, has its name and ends below the directory |
| ZipSoundness.PlaceOnBytes | src/modules/update/archive.ts:112-119 | a local record's data lies behind its header, its name and its extra field |
| ZipSoundness.EntryOnBytes | src/modules/update/archive.ts:57-92 | an entry is what stands at these places of its central record |
| ZipSoundness.NamesOnBytes | src/modules/update/archive.ts:163-169 | an ASCII name is read exactly from its own bytes, behind a byte order mark or not |
| ZipSoundness.NumbersOnBytes | src/modules/update/archive.ts:38-74 | numbers are read little-endian |
| ZipWriter.Put | scripts/lib/deterministic-zip.mjs:95-125 | writing a number at its literal offset extends the header by that field, all fields before it standing |
| ZipWriter.WriteCentralHeader | scripts/lib/deterministic-zip.mjs:108-125 | seventeen writes at literal offsets leave exactly the header's fields, none overlapping and none missing; it throws exactly where a number does not fit |
| ZipWriter.PackEntry | scripts/lib/deterministic-zip.mjs:87-131 | one file is packed, deflated exactly when that is shorter, into its two records, and packing throws exactly where a number does not fit its field |
| ZipWriter.WriteDeterministicZip | scripts/lib/deterministic-zip.mjs:81-145 | the packer writes all local records, the directory with their offsets, and the end record, and throws exactly where a number does not fit its field |
| ZipRoundTrip.CentralRoundTrip | scripts/lib/deterministic-zip.mjs:108-125 | the reader takes a packed central record exactly when its file is within the limit, and reads the entry the packer meant |
| ZipRoundTrip.LocalRoundTrip | scripts/lib/deterministic-zip.mjs:95-106 | the reader takes a packed local record and unpacks the packed file from it |
| ZipRoundTrip.RoundTrip | scripts/lib/deterministic-zip.mjs:81-145 | reading what the packer wrote gives back exactly the packed files, in any order and compressed or not, if and only if archive and files are within the limit |
| ZipRoundTrip.StoredReleaseComesBack | scripts/lib/deterministic-zip.mjs:81-145 | with deflation that never helps, every set of contents of the eight files comes back from its stored archive within the limit |
| ZipRoundTrip.SmallArchivesFit | scripts/lib/deterministic-zip.mjs:95-143 | the packer throws on no release whose archive has a 32-bit size |
| ZipRoundTrip.WrittenIsRelease | scripts/lib/deterministic-zip.mjs:95-143 | the packer writes no file of 4 GiB or more: whatever set of the eight files it packs without throwing has 32-bit sizes |
| ZipRoundTrip.ParsingIsFunctional | src/modules/update/archive.ts:33-145 | an archive has one outcome |
| UpdateApply.Plugin.ReplaceFile | src/modules/update/apply.ts:122-132 | the destination holds the new contents under the given mode, or stays as it was |
| UpdateApply.Plugin.FindTargets | src/modules/update/apply.ts:36-52 | targets are the eight files in order, each a regular file with its own mode |
| UpdateApply.Plugin.BackUp | src/modules/update/apply.ts:54-75 | a completed backup holds every target's contents; no target changes |
| UpdateApply.Plugin.ReplaceTargets | src/modules/update/apply.ts:77-82 | exactly the targets before the first failure are new |
| UpdateApply.Plugin.RollBack | src/modules/update/apply.ts:84-91 | undoing in reverse leaves exactly the named targets new and every other as it was |
| UpdateApply.Plugin.Install | src/modules/update/apply.ts:77-102 | behind a complete backup, the targets left new are all, none, or exactly the named ones, and not all of them then |
| UpdateApply.Plugin.ApplyUpdate | src/modules/update/apply.ts:25-102 | for every pattern of failures either all targets are new under their old modes, or the call throws and the targets still new are exactly those it names; nothing else changes |
| SemVer.MatchesAreRenderedTags | src/modules/update/index.ts:27 | the tag expression matches exactly the rendered tags, with or without the letter in front, each in one way |
| SemVer.NormalizationIsIdempotent | src/modules/update/index.ts:50-64 | a normal form is its own normal form and denotes the same tag |
| SemVer.TagExample | src/modules/update/index.ts:27 | a tag with prerelease and build, as it is written |
| SemVerOrder.ParseReadsTag | src/modules/update/index.ts:530-543 | taking a normalized version apart finds the numbers and identifiers of its tag |
| SemVerOrder.NewerIsBelow | src/modules/update/index.ts:561-569 | comparing identifiers by length and text is comparing them as section 11 of Semantic Versioning 2.0.0 says |
| SemVerOrder.IdentifiersNewer | src/modules/update/index.ts:555-571 | the loop decides exactly the precedence of two identifier lists |
| SemVerOrder.VersionNewer | src/modules/update/index.ts:547-571 | the comparison decides exactly section 11 precedence |
| SemVerOrder.IsNewerVersion | src/modules/update/index.ts:530-572 | true exactly when both versions are accepted and the current one precedes the latest |
| SemVerOrder.ExactlyOneIsNewer | src/modules/update/index.ts:530-572 | of two accepted versions exactly one is newer, unless they are the same up to build metadata |
| SemVerOrder.NewerIsTransitive | src/modules/update/index.ts:530-572 | being newer is transitive |
| SemVerOrder.NewerReadsNormalForms | src/modules/update/index.ts:50-64 | neither the spelling of a tag nor its build metadata matters |
| SemVerOrder.SectionElevenExamples | src/modules/update/index.ts:545-572 | the chain of examples that section 11 of Semantic Versioning 2.0.0 gives |
| Decimal.ShorterIsSmaller | src/types/onebot.ts:25-28 | without leading zeros, comparing length and then characters is comparing the numbers, and a number has one numeral |
| Decimal.NumeralIsExact | src/types/onebot.ts:43-48 | printing a number gives a numeral without leading zeros that denotes it |
| Decimal.StrippedIsNumeral | src/types/onebot.ts:53 | stripping leading zeros gives the number's one numeral |
| OneBotId.WithinIsBounded | src/types/onebot.ts:25-28 | the text comparison decides exactly whether the number is at most 2^64 - 1 |
| OneBotId.IdentifiersAreExact | src/types/onebot.ts:35-56 | for every input, normalization succeeds exactly on unsigned numbers from 1 (or 0 where allowed) to 2^64 - 1 and returns that number's numeral |
| OneBotId.MessageIdentifiersAreExact | src/types/onebot.ts:78-101 | for every input, a message handle is accepted exactly when it is not zero and from -2^63 to 2^64 - 1, and keeps its value |
| OneBotId.NormalFormIsUnique | src/types/onebot.ts:35-60 | two inputs share a normal form exactly when they denote one number, and normalizing twice is normalizing once |
| OneBotId.ChecksAgree | src/database/migrations/005_onebot_identifiers.ts:82-91 | on every text the program, the column check and the search for invalid rows agree |
| CurfewWindow.SpellingsAreMinutes | src/modules/curfew/index.ts:52-56 | every minute of the day has exactly one accepted spelling |
| CurfewWindow.WindowIsAhead | src/modules/curfew/index.ts:63-67 | a minute is inside a window, wrapping or not, exactly when fewer minutes lead to it than to the end |
| CurfewWindow.WindowsComplement | src/modules/curfew/index.ts:63-67 | a window and its reverse split the day, and equal ends mean no curfew |
| CurfewWindow.SpellingExamples | src/modules/curfew/index.ts:52-56 | hours come first, and 24:00, 12:60 and 7:05 are refused |
| CurfewWindow.WindowExamples | src/modules/curfew/index.ts:63-67 | a window over midnight and one within a day |
| Curfew.PlannedIfUnderCurfew | src/modules/curfew/index.ts:137-151 | a tick wants a group muted exactly if its curfew is on, both ends are readable times and the minute lies between them, over midnight or not |
| Curfew.CallsFollowPlans | src/modules/curfew/index.ts:137-162 | any call a sweep sends mutes its group exactly if that has a curfew and the minute is inside its window, and otherwise unmutes it |
| Curfew.SweepKeeps | src/modules/curfew/index.ts:132-167 | a sweep keeps records and acknowledgements in agreement, changes no mute, and calls only groups that had a curfew and only to change what is recorded |
| Curfew.UnmanagedIsOnlyLifted | src/modules/curfew/index.ts:152-162 | a group without curfew is called only to lift a mute of ours |
| Curfew.SweepOnTrack | src/modules/curfew/index.ts:132-167 | a sweep visits the groups in turn: each is recorded as desired after exactly the calls it needed, and no other group is touched |
| Curfew.AnswerOnTrack | src/modules/curfew/index.ts:88-121 | an answer makes the group it is about a visited one: as desired if acknowledged, unchanged and marked as failed if not |
| Curfew.CompletedTickSettles | src/modules/curfew/index.ts:123-168 | in every run, when no tick lives, each group of the latest tick whose call did not fail is muted exactly if it has a curfew and the minute is inside its window, after exactly the acknowledged calls that took, and no unlisted group was touched |
| Curfew.MutedIfUnderCurfew | src/modules/curfew/index.ts:123-168 | in every run, after a completed tick each configured group whose call did not fail is recorded as muted if and only if it was under curfew at the tick's minute |
| Curfew.LiftedIffListed | src/modules/curfew/index.ts:132-162 | a muted group without curfew is unmuted by a tick if and only if the configuration still lists it and its call succeeds |
| Curfew.RemovedGroupExample | src/modules/curfew/index.ts:132-168 | a run in which a group is muted, taken out of the configuration, and still muted when the next tick is over |
| Curfew.OneUnmuteAtMost | src/modules/curfew/index.ts:152-162 | in every run, since a group left the managed set at most one call was acknowledged for it, and that one lifted a mute of ours |
| Curfew.OneUnmuteOnLeaving | src/modules/curfew/index.ts:123-168 | in every run, once a tick without failed calls has completed, a group that left the managed set has had exactly one acknowledged unmute since if it was muted then, and none otherwise |
| Curfew.Scheduler.TakeAnswer | src/modules/curfew/index.ts:88-95 | an acknowledged call is recorded and counted, a failed one marks its group as failed and changes nothing else |
| Curfew.Scheduler.Visit | src/modules/curfew/index.ts:132-167 | the loop body between two awaits does what a sweep does, and what the tick then awaits is the answer to the one call it sent |
| Curfew.Scheduler.Advance | src/modules/curfew/index.ts:123-168 | a stale tick ends without effect, a current one sweeps on |
| Curfew.Scheduler.BanAnswered | src/modules/curfew/index.ts:88-121 | an acknowledged call is recorded even after shutdown began, a failed one is not; announcements follow only known transitions |
| Curfew.Scheduler.ScheduleTick | src/modules/curfew/index.ts:170-183 | a second tick never starts beside a live one |
| Curfew.Scheduler.StartLifting | src/modules/curfew/index.ts:205-217 | shutdown sends one unmute to each group recorded as muted and to no other |
| Curfew.Scheduler.LiftAnswered | src/modules/curfew/index.ts:212-233 | an acknowledged unmute is recorded, a failed or late one is remembered as not lifted |
| Curfew.Scheduler.FinishStop | src/modules/curfew/index.ts:267-283 | when stopping is over no tick lives and no mute of ours is left except where its unmute failed |
| Curfew.Scheduler.BeginStop | src/modules/curfew/index.ts:256-283 | stopping retires the running generation first and waits for its tick |
| Curfew.Scheduler.Stop | src/modules/curfew/index.ts:256-287 | stopping invalidates every initialization under way, keeps all records and mutes, and sends exactly one unmute per mute of ours, at once or behind the live tick |
| Curfew.Scheduler.Init | src/modules/curfew/index.ts:236-238 | starting first stops whatever runs, just as stopping does, and waits for that |
| Curfew.Scheduler.ResumeInit | src/modules/curfew/index.ts:238-249 | an initialization goes on only if no later start or stop overtook it; then a first tick sweeps at once, and otherwise nothing changes |
| Ingress.RunKeeps | src/platform/snowluma/client.ts:437-568 | over any stretch of a recorded run frames keep taking effect in order, each within its generation and none twice; a settled call stays as it was settled, and a pending one is pending or settled |
| Ingress.RunsInOrder | src/platform/snowluma/client.ts:372-568 | in every run of a client its frames took effect in the order they were accepted in, and every call ever sent is pending or was settled once |
| Ingress.EndsAsAnswered | src/platform/snowluma/client.ts:491-514 | in every recorded run a call is resolved exactly if a successful reply to it took effect while it was pending, and refused exactly if a failed one did |
| Ingress.CallsEndAsAnswered | src/platform/snowluma/client.ts:372-568 | so of a client: a resolved or refused call has a handled reply that says so, and none was handled while a call was pending that timed out, was not sent or lost its connection |
| Ingress.Client.Note | src/platform/snowluma/client.ts:437-568 | every change of what has happened is an allowed step and is added to the record, which is never shortened |
| Ingress.Client.QueueIncomingMessage | src/platform/snowluma/client.ts:396-435 | a frame is accepted exactly when it is current and fits the limits, counting the active frame; then it waits last or takes effect, and a refused one changes nothing unless it is oversized |
| Ingress.Client.Drain | src/platform/snowluma/client.ts:437-463 | the one drain ends when the queue is empty, and otherwise the head of the queue becomes active and, unless its text is still to come, takes effect exactly once |
| Ingress.Client.HandleMessage | src/platform/snowluma/client.ts:465-515 | a frame takes effect only if its connection is still the current one |
| Ingress.Client.TextRead | src/platform/snowluma/client.ts:465-477 | a frame whose text arrives takes effect exactly once if its connection is still the current one, and otherwise changes neither calls nor events |
| Ingress.Client.FrameDone | src/platform/snowluma/client.ts:451-463 | the drain goes on with the next frame and nothing else, and never twice at once |
| Ingress.Client.Deliver | src/platform/snowluma/client.ts:491-514 | a reply settles the pending call it answers, as resolved if it succeeded and as refused if not, and nothing else; an event goes to the dispatcher |
| Ingress.Client.TakeEffect | src/platform/snowluma/client.ts:465-515 | a frame takes effect together with what it does to calls and events, and is recorded with it |
| Ingress.Client.Call | src/platform/snowluma/client.ts:372-394 | a call is pending or settled at once, and only on a ready connection |
| Ingress.Client.TimeOut | src/platform/snowluma/client.ts:381-384 | a timed-out call is settled and no longer pending |
| Ingress.Client.RejectPending | src/platform/snowluma/client.ts:562-568 | every pending call is settled, none stays |
| Ingress.Client.ResetConnectionQueues | src/platform/snowluma/client.ts:550-556 | a new generation starts with an empty queue |
| Ingress.Client.CloseForOversizedFrame | src/platform/snowluma/client.ts:524-540 | an oversized frame ends the current connection for queued frames and calls alike, and changes nothing for any other |
| Ingress.Client.OpenSocket | src/platform/snowluma/client.ts:251-277 | a new connection settles the old one's calls and drops its frames |
| Ingress.Client.SocketClosed | src/platform/snowluma/client.ts:283-294 | losing the current connection settles its calls, losing an old one changes nothing |
| Ingress.Client.Close | src/platform/snowluma/client.ts:570-591 | closing settles every call and drops every frame |
| EventDispatch.Dispatcher.Enqueue | src/platform/snowluma/transport.ts:108-121 | an event is taken in exactly when there is a handler, room and activity; one handler call runs at a time |
| EventDispatch.Dispatcher.HandlerDone | src/platform/snowluma/transport.ts:146-162 | events reach the handler in the order they were taken in, each once |
| LoginRateLimit.Limiter.Consume | src/database/repositories/rate-limit.ts:24-58 | the answer is that of a limiter that never prunes, for every key and every run with a monotone clock |
| LoginRateLimit.Limiter.PruneExpired | src/database/repositories/rate-limit.ts:60-67 | pruning removes exactly the rows whose window is over, at most once a minute unless forced |
| LoginRateLimit.WindowAdmits | src/database/repositories/rate-limit.ts:37-57 | one window counts its requests one by one and admits at most what room its limit leaves |
| LoginRateLimit.IntervalAdmits | src/database/repositories/rate-limit.ts:37-57 | any stretch of time as long as a window admits at most twice the limit, and any shorter one at most one less |
| LoginRateLimit.BoundsAreReached | src/database/repositories/rate-limit.ts:37-57 | for every limit and window there are requests that reach both bounds |
| LoginRateLimit.LimitHolds | src/database/repositories/rate-limit.ts:24-67 | all three bounds hold of what a limiter has counted, after any run |
| Statistics.BumpKeepsBalance | src/database/repositories/statistics.ts:85-94 | a bump adds exactly one to its group and one to the total, so each global counter stays the sum of the groups' |
| Statistics.Repository.EnsureSnapshot | src/database/repositories/statistics.ts:32-52 | afterwards the row exists, whether the cache or the database said so |
| Statistics.Repository.WriteIncrement | src/database/repositories/statistics.ts:54-69 | the update always finds its row, so no count is lost |
| Statistics.Repository.Finish | src/database/repositories/statistics.ts:71-83 | keys are cached only after the commit, and a rollback leaves no cached key without its row |
| Statistics.Repository.Bump | src/database/repositories/statistics.ts:85-94 | both counters are added to or neither, and the cache never claims a missing row |
| Statistics.Repository.Increment | src/database/repositories/statistics.ts:96-102 | one counter is added to or nothing happens |
| Statistics.Repository.Serve | src/database/repositories/statistics.ts:32-94 | over any run of bumps with failures, day changes and other databases, the rows are exactly what the committed bumps make of them, and balanced rows stay balanced |
| Statistics.Repository.Reopen | src/database/index.ts:28-53 | a cache from before another database was opened claims nothing about it |
| UserAdmin.UsableStayUsable | src/database/repositories/user.ts:46-51 | time alone never takes a usable super administrator away |
| UserAdmin.UsableOnFields | src/database/repositories/user.ts:46-51 | who counts as usable, on the fields: a super administrator with a name that is not blank, a password hash, and no lock beyond now |
| UserAdmin.LockedIsNoReplacement | src/database/repositories/user.ts:172-276 | the one free super administrator beside a locked one can be neither demoted nor deleted, and can be deleted once the lock has run out |
| UserAdmin.RecoveryWaitsForLock | src/database/repositories/user.ts:124-170 | recovery acts while the only super administrator is locked, and not when the lock is over |
| UserAdmin.Repository.CreateByAdministrator | src/database/repositories/user.ts:80-95 | a new account takes nothing from anybody, and appears with its audit entry or not at all |
| UserAdmin.Repository.CreateBootstrapAdmin | src/database/repositories/user.ts:102-117 | only an empty installation gets its first administrator |
| UserAdmin.Repository.RecoverSuperAdmin | src/database/repositories/user.ts:124-170 | recovery acts exactly where no super administrator can sign in, sets its account and no other, and leaves it without an active earlier session |
| UserAdmin.Repository.UpdateByAdministrator | src/database/repositories/user.ts:172-232 | refused exactly where it would take the last super administrator who can sign in away, that is who has a name, a password and no lock beyond now; otherwise the account has exactly the changed fields, and a change that happens revokes its earlier sessions and no other |
| UserAdmin.Repository.DeleteByAdministrator | src/database/repositories/user.ts:234-276 | refused exactly for the last super administrator who can sign in and for oneself; otherwise account and sessions are gone |
| UserAdmin.Repository.Administer | src/database/repositories/user.ts:80-276 | no sequence of administrator operations, at whatever times and with whatever database failures, takes the usable super administrators from at least one to none |

## Left out

- The migration lock file and its stale takeover (`src/migration/files.ts:211-264`): one migration process at a time is assumed.
- ShadowMigration.Installation.Commit: the temporary file behind an atomic write or replacement is not modelled; a write is one step that happens or does not, and a leftover temporary file is not part of the disk.
- ShadowMigration.Installation.RecoverIncompleteJournal: nobody else is assumed to edit the live files or the backup while a journal is active, and an undecided journal is assumed to be of this version's conversion and validation.
- ShadowMigration.Installation.StageCandidate: conversion is a partial function of the backup; that it preserves rows, and that every source migrates, is not claimed (`src/database/validation.ts:139-150` may refuse what a later migration merges).
- AdmissionProofs.StepKeepsInv: the interleaved tasks are a state machine over values whose steps are turns; the updates in place that the turns consist of are the methods of `AdmissionTables.Tables`, one statement or transaction each, and rows are not aliased.
- AdmissionTables.Tables.UpdateStatus: operator, reason, captcha and processing time of a row are not modelled, here and in the other updates.
- LockOrder.GuardianNeverDeadlocks: activities are sequences of lock operations and awaits; each provider call is assumed to settle, and branches that skip a lock are covered by the shorter sequences.
- AdmissionRuns.LedgerOverRuns: no database failure and no deletion of rows in a run; counters of captchas, punishments and risks are not part of this ledger.
- AdmissionRuns.CaptchaBounds: the clock is monotone; sessions created in one millisecond are ordered by creation, where the program orders them by id; the bookkeeping of which session is expiring and the time limit a sweep waits for are not modelled.
- AdmissionRuns.ReconciliationPartitions: a private message reads the clock in the turn that reconciles, where the program reads it before it awaits the user's lock (`src/modules/captcha/index.ts:190-194`).
- CaptchaRouting.SoleSessionAnswers: digests of answers are compared as the trimmed texts under a lower-casing that is a parameter; SHA-256 is taken to be injective.
- The wording of challenges and notices, audit entries and logging.
- Inflation, deflation and hashes: parameters. ZipRoundTrip.RoundTrip assumes that inflating what was deflated gives it back; ZipReader.ParseNapCatUpdateArchive says of a deflated entry only that its length and checksum are as declared.
- ZipReader.ReadRecord: a name with a byte above 127 counts as undecodable, whether it decodes or not; it is refused either way, since no expected name has one. A leading byte order mark is dropped and the rest accepted, as the program's decoder does. The texts of the errors are not distinguished.
- ZipWriter.WriteDeterministicZip: the packer's check of path safety appears as its precondition, with ASCII names and permission bits; reading the sources from disk and the tar writer are not modelled.
- UpdateApply.Plugin.FindTargets: the mode of a file is its permission bits; the other bits, which the program masks off (`src/modules/update/apply.ts:51`), so that neither an updated nor a restored file has them, are not modelled.
- UpdateApply.Plugin.ApplyUpdate: manifests are a yes or no, the manifest file of the backup is one step, and a leftover temporary file is not part of the tree.
- Downloading, attestation and release metadata (`src/modules/update/index.ts:98-528`): not part of this model.
- OneBotId.ChecksAgree: texts with an embedded NUL, at which SQLite's text functions stop, are not modelled.
- OneBotId.IdentifiersAreExact: numbers that are not integers are one case; conversion back to numbers (`src/types/onebot.ts:62-69`) would only add easy members.
- SemVerOrder.IsNewerVersion: inputs that are not strings are refused by the program and are not values here.
- CurfewWindow.WindowIsAhead: the conversion of an instant to minutes of a day in a time zone is an input of the tick.
- Curfew.Scheduler.LiftAnswered: a call that fails is taken to have had no effect; an answer behind the shutdown deadline counts as a failure.
- Ingress.Client.OpenSocket: retries, delays and reconnection timers, diagnostics and redaction of credentials are not modelled; every connection attempt is assumed to get a socket of its own.
- Ingress.Client.Deliver: whether a reply reports success (`src/platform/snowluma/client.ts:501`) is one flag of its content.
- LoginRateLimit.Limiter.Consume: a clock that runs backwards, and limits that change between calls for one key, fall outside the bounds (not outside the refinement).
- Statistics.Repository.Finish: a rollback is assumed to succeed, as a closed transaction has no other effect.
- UserAdmin.Repository.UpdateByAdministrator: a name counts as blank when it consists of spaces only, where the program and the database trim differently; login failures may lock any account and are not administrator changes.
- Retention and pruning of old rows, risk rules, punishments' content, AI calls, intelligence feeds, the web interface, routing and packaging: plumbing or flat checks.
