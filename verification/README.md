# PAM-olive in Dafny

PAM-olive brokers privileged access: it keeps the passwords and keys of target systems in a vault, rotates them, decides
who may open a session or read a secret, records what happened, and relays terminal sessions. This project models the
parts of it that are state machines and proves what every run of them keeps.

| file | modules | what it models |
|---|---|---|
| `Rotation.dfy`, `RotationService.dfy` | `Rotation`, `RotationService` | rotation of a credential between vault and target, with crashes and late remote effects |
| `Policies.dfy`, `Approvals.dfy` | `Policies`, `Approvals`, `Authorization` | access policies, approval quorums, the choice of an authorizing policy |
| `Sessions.dfy`, `Broker.dfy` | `Sessions`, `Leases`, `Broker` | tickets, sessions, secret leases, and the machine that runs them together with requests and decisions |
| `Audit.dfy`, `Redaction.dfy` | `Audit`, `Redaction` | the hash-chained audit log, its verifier, redaction of metadata |
| `Migration.dfy` | `KeyringRouting`, `Migration` | the two whole-database migrations of secrets and signatures |
| `DirectorySync.dfy`, `FallbackMemberships.dfy`, `DirectoryService.dfy` | `DirectorySync`, `FallbackMemberships`, `DirectoryService` | group memberships managed from directories and login fallbacks beside those placed by hand |
| `RateLimit.dfy` | `RateLimit` | the keyring's sliding-window limiter |
| `CommandInspection.dfy` | `CommandInspection` | chunked input to an SSH target, its inspection and byte accounting |
| `Mfa.dfy` | `OneTimeCode`, `Mfa` | one-time codes, the replay guard, recovery codes |
| `ControlClaims.dfy` | `SignedRequests`, `ControlClaims` | signed control requests and their claim table |
| `Common.dfy` | `Common` | options and counting |

## How it is built

A database transaction is one step. Each operation is a function on a value that holds the tables, and, where the
source updates rows or objects in place, a class whose method performs the update and is proved equal to that function.
Whole runs are sequences of steps in any order. For the larger machines one lemma says how a step may change the tables
(`Rotation.StepChanges`, `Broker.StepChangesSessions`), and the invariants are proved from that alone.

What the program takes from its surroundings is a parameter: clock readings, random secrets, the answers of remote
systems, regular-expression search, network matching, case folding, password checks. Cryptography is ideal: a backend
decrypts what it encrypted and recognizes what it signed, and what is proved about hashes names the collision it would
take to fail. Times are whole seconds, except in the limiter and the claim table, where fractions matter and times are
real numbers.

## What holds only under a condition

Where a natural property fails for some inputs, the model keeps the code's behaviour and states when the property holds.

- A recorded event is hashed before it is stored, and verified as the database returns it. A log built by recording
  verifies exactly if every row is hashed alike when read (`Audit.RecordedLogsVerifyIff`); an address that its column
  rewrites breaks this (`Audit.RewrittenAddressIsRefused`).
- Two verified logs with one head agree only where both hold version 2 events: any event can be replaced by a legacy one
  that only the number of legacy events reveals (`Audit.LegacyContentIsFree`).
- A migrated audit log verifies exactly when it holds no event of an unknown hash version and its completion event reads
  back; the migrations accept such events, the verifier does not (`Migration.MigratedLogVerifiesIff`).
- A rotation job is finished in every run only as long as its worker lives: after a crash between the two transactions
  its credential is never rotated again (`Rotation.RunningJobFinishesIffWorker`, `Rotation.OrphanBlocksCredential`).
- Memberships equal "placed by hand or managed" at every point of a run exactly while each new row is for a membership
  placed by hand or new with it and the fallback neither takes nor gives one (`DirectorySync.AccountedIffClear`); two
  mappings that share a group break this in `DirectorySync.SharedGroupMarksSecondRow` and leave a member behind in
  `DirectorySync.SharedGroupLeavesMemberBehind`.
- A fallback row stands for an actual membership at every point of a run exactly if no external reconciliation takes
  that membership away (`FallbackMemberships.BackedIffSpared`); two logins that do are
  `FallbackMemberships.LoginLosesFallbackMembership`.
- The limiter reads its clock before it takes its lock. With readings out of order by up to `skew` its bound holds for
  stretches of `window - skew`; over the whole window it holds exactly for a limit of one, an empty window or readings
  in order (`RateLimit.BoundSurvivesIff`).
- A call fails on an empty queue exactly if the limit is below one (`RateLimit.EmptyQueueIffLimitBelowOne`).
- An empty deny pattern ends the pattern list: it is found everywhere and counts as no match.
- A chunk with text after its last line break is also inspected for the line it leaves unfinished, which is then
  forgotten. `CommandInspection.DroppedIffForbiddenLine` gives the exact condition for dropping any chunk,
  `CommandInspection.PendingStaysTailIff` the one for the buffer, `CommandInspection.DroppedIffKeptBack` the one for any
  chunk of any session, and two examples show a chunk dropped for a line it only begins and a forbidden line that gets
  through.
- Confirming a device that is already confirmed can lower its counter; `Mfa.ConfirmKeepsCountersIff` says exactly for
  which tokens it does not.
- In the first two steps of the epoch the zero timestamp is taken for a missing one; `OneTimeCode.MatchIsLatestIff` lists
  the tokens this affects.
- A signed request that is still valid can be claimed twice exactly if its second claim comes more than sixty seconds
  after the first (`ControlClaims.SecondClaimIff`), which needs a reading past the whole second of its age check
  (`ControlClaims.SecondClaimNeedsDelay`).
- A valid ticket opens its session but need not yield a lease: the gateway asks for it without a verification time
  (`Broker.OpenedSessionWithoutLease`), and is granted one exactly if some policy without a second factor authorizes it
  (`Authorization.WithoutVerificationOnlyPoliciesWithoutMfa`).

## Model

| member | source | states |
|---|---|---|
| `Rotation.EveryRunIsSound` | pamolive/operations/services.py:90-331 | from an initial vault, every interleaving of planning dates, queueing, preparing, remote calls (returning, raising, taking effect late), committing, failing and crashing keeps jobs, workers, calls, secrets, versions and failure counts consistent |
| `Rotation.LiveSecretIsNeverLost` | pamolive/operations/services.py:168-301 | at every point of every run the secret the target accepts is the vault's or the stored candidate of a running or failed job of that credential; with no such job the two agree |
| `Rotation.JobsAndCallsAreSingle` | pamolive/operations/services.py:90-105 | in every run a credential has at most one open job, a job makes at most one remote call, and no call happens before its candidate is stored |
| `Rotation.WorkersFindTheirJobRunning` | pamolive/operations/services.py:243-247 | the second transaction always finds its job running, so its error branch is never taken |
| `Rotation.VersionsCountSuccesses` | pamolive/operations/services.py:246-275 | the key version is its start value plus the successful jobs, the failure count is the number of failures since the last success, and each success goes from its recorded version to the next |
| `Rotation.RunningJobFinishesIffWorker` | pamolive/operations/services.py:168-301 | in every run, a running job can still be finished by some continuation exactly if its worker has not crashed |
| `Rotation.OrphanBlocksCredential` | pamolive/operations/services.py:90-97 | after a crash between the two transactions, whatever runs, the credential gets no new job, no remote call, no new secret, version or failure count |
| `Rotation.StepChanges` | pamolive/operations/services.py:90-331 | every step changes no row, plans one date, adds one pending job where none was open, or moves one open job on together with its credential |
| `Rotation.FinishedJobsFrozen` | pamolive/operations/services.py:122-123 | a finished job is never changed again |
| `Rotation.StructureKept` | pamolive/operations/services.py:168-301 | every step keeps: only the newest job of a credential is open, each worker's job is running with its candidate stored, calls are one per job |
| `Rotation.LiveSecretsKept` | pamolive/operations/services.py:210-301 | every step keeps each target's secret known, including after a call has returned and before it is committed |
| `Rotation.FailuresKept` | pamolive/operations/services.py:139-146 | every change of the tables keeps the failure count equal to the failures since the last success read off the job table |
| `Rotation.VersionsKept` | pamolive/operations/services.py:249-275 | every change of the tables keeps versions equal to start plus successes, and open jobs stamped with the current version |
| `Rotation.FailureSetsRetry` | pamolive/operations/services.py:139-146 | the step that fails a job, in any reachable state, counts it and plans the retry between 2 and 24 hours later by the length of the failure streak |
| `Rotation.RetryDelaysGrow` | pamolive/operations/services.py:139-146 | in any run, of two failures of a credential without a success of it in between, the rotation planned at the second is at least as far from it as at the first, both between 2 and 24 hours |
| `Rotation.RetryHoursTable` | pamolive/operations/services.py:142 | the delays by number of failures: 2, 4, 8, 16, then 24 hours |
| `Rotation.PreparedCandidates` | pamolive/operations/services.py:70-86 | a candidate reaches the remote call exactly if the backend is found, the vault decrypts, a generator exists or the secret is a password, and the candidate is non-empty, at most 65536 bytes, comparable and different from the current secret |
| `Rotation.ActiveJob` | pamolive/operations/services.py:92-97 | finds an open job of the credential if and only if there is one |
| `RotationService.RotationTables.QueueRotation` | pamolive/operations/services.py:90-116 | returns an open job of the credential, creates one exactly if there was none, and otherwise leaves the tables alone |
| `RotationService.RotationTables.FinishWithoutRotation` | pamolive/operations/services.py:119-165 | both tables become those of the specified failure or block; a finished job is left as it is |
| `RotationService.RotationTables.BeginExecution` | pamolive/operations/services.py:168-224 | the call is made exactly for a due pending job with a usable candidate, which is stored by then and differs from the secret handed along |
| `RotationService.RotationTables.CommitRotation` | pamolive/operations/services.py:243-301 | succeeds exactly for a running job and installs its candidate; otherwise nothing changes |
| `RotationService.RotationTables.ScheduleIfDue` | pamolive/operations/services.py:313-330 | one turn of the scheduler on the row as read before the loop: fills in a missing due date and queues if due |
| `RotationService.RotationTables.ScheduleDueRotations` | pamolive/operations/services.py:304-331 | the tables after the loop over the selected rows, all read before it, and exactly the new jobs are returned, in order, for any selection |
| `RotationService.SchedulerTurnIsSteps` | pamolive/operations/services.py:313-330 | a turn of the scheduler is at most two steps of the rotation system, whatever happened since its row was read |
| `RotationService.SchedulePlansDates` | pamolive/operations/services.py:313-322 | the scheduler fills in missing due dates of the selected rows and changes nothing else about credentials |
| `RotationService.ScheduleAddsWarrantedJobs` | pamolive/operations/services.py:323-330 | every new job is for a selected, due credential that had no open job, one per credential; old jobs stay |
| `RotationService.ScheduleReachesEveryDue` | pamolive/operations/services.py:312-330 | every due credential of the selection ends with an open job |
| `RotationService.ScheduledIff` | pamolive/operations/services.py:304-331 | with the rows the query selects, a credential has an open job after the call exactly if it had one, or is due and automatic with fewer than `limit` automatic rows before it in due-date order |
| `Policies.PoliciesAllowing` | pamolive/policies/services.py:88-94 | lists, in table order and without repetition, exactly the policies that apply to the user, allow the action and are current |
| `Policies.CredentialAllowsAction` | pamolive/policies/services.py:104-115 | true exactly if some policy permits the action on the credential |
| `Policies.ActionsForTarget` | pamolive/policies/services.py:140-152 | yields exactly the actions some contributing policy offers on the target |
| `Policies.PermittedActionsAreOffered` | pamolive/policies/services.py:104-152 | an action permitted on a credential is among the actions offered on its target |
| `Policies.AddingPoliciesKeepsActions` | pamolive/policies/services.py:104-152 | a policy inserted anywhere in the table takes no permitted or offered action away |
| `Policies.ClockWindowIsCircular` | pamolive/policies/services.py:54-63 | with both ends given, a daily window is an arc of the clock face: membership is a comparison of differences modulo one day, across midnight too |
| `Approvals.ActiveApproval` | pamolive/vault/leases.py:27-39 | finds the most recently decided approval whose window is open, or none exists |
| `Approvals.RequestTable.CreateRequest` | pamolive/api/views.py:754-759 | a request under a policy without approval is approved at once, any other is pending |
| `Approvals.RequestTable.DecideAccessRequest` | pamolive/approvals/services.py:24-73 | refuses, in order, decided requests, one's own, users not entitled and second votes, changing nothing; otherwise records the vote and closes the request on a rejection or on the quorum |
| `Authorization.FirstGrant` | pamolive/vault/leases.py:51-72 | the first policy of the table that authorizes, with its approval; none before it authorizes |
| `Authorization.AuthorizingPolicyFor` | pamolive/vault/leases.py:42-72 | the search grants if and only if some policy meets every condition on group, schedule, network, target, credential, approval and second factor at once |
| `Authorization.GrantsArePermittedAndOffered` | pamolive/vault/leases.py:42-72 | whatever is granted is permitted on the credential and offered on the target |
| `Authorization.AddingPoliciesKeepsGrants` | pamolive/vault/leases.py:51-72 | a policy that comes last in the table neither refuses nor changes an existing grant |
| `Authorization.InsertedPolicyKeepsAuthorization` | pamolive/vault/leases.py:51-72 | a policy inserted anywhere in the table never turns an authorization into a refusal |
| `Authorization.WithoutVerificationOnlyPoliciesWithoutMfa` | pamolive/api/gateway.py:85-92 | a call that passes no verification time is granted exactly what some policy without a second factor grants |
| `Sessions.SessionTable.IssueTicket` | pamolive/sessions/services.py:82-106 | reserves a place exactly if running and reserved sessions of the key are below the limit |
| `Sessions.SessionTable.StartWebSession` | pamolive/sessions/services.py:135-155 | opens a session exactly if running and reserved sessions of the key are below the limit |
| `Sessions.SessionTable.ConsumeTicket` | pamolive/sessions/services.py:172-213 | refuses in the order of the source's checks without effect, or opens the session and spends the ticket |
| `Sessions.SessionTable.CloseSession` | pamolive/sessions/services.py:225-244 | ends a session once; a terminal one stays as it is |
| `Sessions.SessionTable.RequestTermination` | pamolive/sessions/services.py:255-285 | a session not yet opened is closed and its ticket revoked, a running one is marked, a terminal one kept; the gateway is told exactly about running ones |
| `Sessions.OneSessionSteps` | pamolive/sessions/services.py:172-285 | opening, ending and terminating keep a row coherent: end time exactly when terminal, never both consumed and revoked, opened before both expiries |
| `Sessions.PlacesExpire` | pamolive/sessions/services.py:23-45 | as time passes, sessions that hold a place only become fewer |
| `Sessions.ReservedPlaceIsFree` | pamolive/sessions/services.py:195-206 | a session that still holds its reserved place leaves room for itself among the running ones |
| `Leases.LeaseTable.IssueLease` | pamolive/vault/leases.py:75-125 | a lease is issued exactly for an acceptable request that some policy authorizes, with that grant |
| `Leases.LeaseTable.ConsumeLease` | pamolive/vault/leases.py:129-164 | the secret is yielded exactly for a usable lease that matches the expected user and purpose and decrypts; the use is counted, and otherwise nothing changes |
| `Leases.LeaseTable.RevokeLease` | pamolive/vault/leases.py:167-173 | sets the revocation time once |
| `Broker.EveryGrantHasItsQuorum` | pamolive/vault/leases.py:27-72 | in every run, every session row and every lease row has its grant in the log, and under a policy that requires approval that grant is preceded by approvals from at least max(1, quorum) distinct entitled users other than the beneficiary, for the same target and policy, with the window counted from the completing approval still open |
| `Broker.OpenedSessionWithoutLease` | pamolive/api/gateway.py:85-92 | where the only policy requires a second factor, a run in which the ticket is issued and opens its session ends with the lease refused, because the gateway passes no verification time |
| `Broker.OpenedSessionWithoutLeaseExample` | pamolive/api/gateway.py:85-92 | such a policy, caller and credential exist |
| `Broker.DecisionSound` | pamolive/approvals/services.py:24-73 | a recorded decision keeps the request's votes backed by entitled approvals in the log, none by the requester |
| `Broker.AuthorizationBacked` | pamolive/vault/leases.py:42-72 | an authorization found in a sound state is backed by a completed quorum in its log |
| `Broker.QuotaCountsReservations` | pamolive/sessions/services.py:23-106 | on a clock that never goes back, running and reserved sessions per user, target and policy never exceed the limit |
| `Broker.LiveTicketIsNeverRefusedForQuota` | pamolive/sessions/services.py:184-206 | hence a ticket that passes its own checks is never refused by the second count |
| `Broker.RunningSessionsWithinLimit` | pamolive/sessions/services.py:135-213 | whatever the clock readings, running sessions never exceed the limit |
| `Broker.StepChangesSessions` | pamolive/sessions/services.py:82-285 | a step adds one session for which there was room, or changes one that takes no new place and starts only if there is room |
| `Broker.QuotaKept` | pamolive/sessions/services.py:23-106 | such a change keeps the quota of running and reserved sessions |
| `Broker.RunningKept` | pamolive/sessions/services.py:135-213 | such a change keeps the limit on running sessions |
| `Broker.TicketsOpenOnceLeasesAreBounded` | pamolive/sessions/services.py:172-213 | in every run each ticket opens its session at most once and before both expiries, rows stay coherent, and each lease is used as often as its row says, at most its maximum and before its expiry |
| `Broker.EndedSessionsStayEnded` | pamolive/sessions/services.py:225-285 | a closed or failed session never changes again, however the run goes on |
| `Broker.RevokedLeasesYieldNothing` | pamolive/vault/leases.py:129-173 | once revoked, a lease never yields its secret again |
| `Audit.VerifyAuditChain` | pamolive/audit/services.py:117-166 | the loop raises exactly if the keyring does not answer about some version 2 event; otherwise it reports a log valid if and only if every event is numbered, linked, hashed and signed in its place and the head is the last event's, counts all and legacy events and lists the issues in order |
| `Audit.WalkEvents` | pamolive/audit/services.py:118-155 | the loop finds the issues of every event in order, the legacy events and the end of the chain, or the keyring raises |
| `Audit.NoIssuesIffInPlace` | pamolive/audit/services.py:123-155 | the running checks find nothing exactly when every event is in its place |
| `Audit.CheckEvent` | pamolive/audit/services.py:125-153 | the checks of one event against what the loop carries along, or the keyring raises |
| `Audit.VerifiedLogsAgree` | pamolive/audit/services.py:33-67 | two verified logs with the same head have the same length, and agree on every canonical payload from any point after which all events are version 2, unless at one such position the two payloads collide under the hash |
| `Audit.KeyOrderIsIrrelevant` | pamolive/audit/services.py:60-67 | two metadata objects enter the hash alike exactly if they have the same keys with values that do, in whatever order the keys were written |
| `Audit.LengthIsHead` | pamolive/audit/services.py:117-166 | a verified log has as many events as its head's sequence number |
| `Audit.LegacyContentIsFree` | pamolive/audit/services.py:125-130 | replacing any event by a legacy one with the same links keeps the log verified; only the number of legacy events tells |
| `Audit.RecordedIntactIff` | pamolive/audit/services.py:75-107 | recording appends one version 2 event; the log then verifies exactly if it did before and the new row, as the database returns it, is hashed alike |
| `Audit.RecordedLogsVerify` | pamolive/audit/services.py:75-107 | a log built by recording verifies if the columns keep every recorded entry, and only then unless a payload collides with that of its own row |
| `Audit.RecordedLogsVerifyIff` | pamolive/audit/services.py:75-107 | its head is its last event and counts them, none of them is legacy, and it verifies exactly if every recorded row is hashed alike when read |
| `Audit.KeptIffSamePayload` | pamolive/audit/services.py:33-57 | a row gives the payload that was hashed exactly if its address and metadata columns keep what enters the payload |
| `Audit.RewrittenAddressIsRefused` | pamolive/audit/models.py:30 | an address that its column rewrites leaves a log that does not verify, unless the two payloads collide |
| `Audit.AuditTables.RecordEvent` | pamolive/audit/services.py:75-107 | appends the signed event as its columns return it and moves the head, or leaves both tables alone if no signature can be had |
| `Redaction.RedactionHidesExactlyTheSensitive` | pamolive/audit/services.py:169-181 | two values redact to the same exactly when they differ only beneath sensitive keys |
| `Redaction.RedactionIsIdempotent` | pamolive/audit/services.py:169-181 | redacting twice is redacting once |
| `Redaction.UntouchedIffClean` | pamolive/audit/services.py:169-181 | a value is unchanged exactly when beneath every sensitive key there is only the marker |
| `Redaction.EntryByEntry` | pamolive/audit/services.py:170-178 | each entry keeps its position and key; its value is the marker exactly for sensitive keys |
| `Redaction.RedactEntries` | pamolive/audit/services.py:170-178 | keys and their order are preserved |
| `Redaction.RedactItems` | pamolive/audit/services.py:179-180 | list lengths are preserved |
| `KeyringRouting.ActiveCiphertextsRoute` | keyring/backends.py:191-200 | what the active backend encrypts reads back through the routing, with or without the old local backend |
| `KeyringRouting.LegacyCiphertextsRoute` | keyring/backends.py:194-200 | what the old local backend encrypted reads back while it is kept |
| `Migration.MigrationTables.Run` | pamolive/vault/management/commands/migrate_secrets_to_keyring.py:43-136 | either command aborts or runs dry without changing anything, and aborts only for a database that is not ready, where the keyring's answer about each signature counts, or a backend that fails; an applied run rewrites rows and signatures as specified and reports exact counts |
| `Migration.MigrateField` | pamolive/vault/management/commands/migrate_secrets_to_keyring.py:59-73 | one field: readable, and rewritten under the active key with the same plaintext, or kept |
| `Migration.MigrateRow` | pamolive/vault/management/commands/migrate_keyring_backend.py:45-61 | one row, field by field, with the counts of secrets and rewritten fields |
| `Migration.MigrateRows` | pamolive/vault/management/commands/migrate_secrets_to_keyring.py:53-75 | all rows, with the totals |
| `Migration.ResignEvent` | pamolive/vault/management/commands/migrate_secrets_to_keyring.py:83-119 | one event: accepted exactly if its number, link, hash and signature pass and the keyring answers, and only its signature may change |
| `Migration.ResignEvents` | pamolive/vault/management/commands/migrate_keyring_backend.py:63-97 | all events and the head, with the number signed again |
| `Migration.PlaintextsSurvive` | pamolive/vault/management/commands/migrate_secrets_to_keyring.py:53-75 | after an applied run every non-empty field is under the active key with its old plaintext, and after the backend command without needing the old backend; empty fields are untouched |
| `Migration.MigratedLogVerifiesIff` | pamolive/vault/management/commands/migrate_secrets_to_keyring.py:83-130 | the migrated log, completion event included, verifies exactly when no event had an unknown version and the completion event reads back as hashed |
| `Migration.KeptCompletionReadsBack` | pamolive/vault/management/commands/migrate_secrets_to_keyring.py:124-130 | it does if its column keeps the reported counts, since it has no address |
| `Migration.UnknownVersionIsMigratedAndRefused` | pamolive/vault/management/commands/migrate_secrets_to_keyring.py:83-130 | for any such event there is a log that either command accepts and migrates, and that the verifier then refuses |
| `Migration.MarkingIsIdeal` | keyring/backends.py:172-208 | the assumptions on backends are met by one that marks what it encrypts and signs |
| `Migration.OldBackendIsNotNeeded` | pamolive/vault/management/commands/migrate_keyring_backend.py:63-104 | after the backend command the log verifies without the old local backend, under the same condition |
| `Migration.NothingLeftToMigrate` | pamolive/vault/management/commands/migrate_secrets_to_keyring.py:65-117 | after the secrets command no field is left to encrypt and no event to sign |
| `Migration.SecondRunOnlyRecords` | pamolive/vault/management/commands/migrate_secrets_to_keyring.py:43-136 | applied again, it leaves every row and signature as it is and only records its completion |
| `Migration.SecretsMigrationPreparesBackendMigration` | pamolive/vault/management/commands/migrate_keyring_backend.py:35-97 | an applied secrets command leaves a database the backend command accepts exactly if its completion event reads back as hashed |
| `Migration.AcceptedChainIntact` | pamolive/vault/management/commands/migrate_secrets_to_keyring.py:85-122 | a chain a command accepts, with recognized signatures, verifies exactly if every version is known |
| `DirectorySync.EarlierMembershipsSurvive` | pamolive/connectors/sync.py:56-125 | over any interleaving of both reconcile functions every managed row stands for an actual membership, and a membership that every row about it would preserve, such as one older than all rows, is never removed |
| `DirectorySync.ReconcileKeeps` | pamolive/connectors/sync.py:56-90 | one reconciliation keeps both and changes the user's group count by exactly added minus removed, nobody else's |
| `DirectorySync.DefaultKeeps` | pamolive/connectors/sync.py:93-125 | the fallback reconciliation keeps both |
| `DirectorySync.RowsEqualMatches` | pamolive/connectors/sync.py:56-90 | afterwards the identity's rows are exactly its matched mappings, and no other identity's rows changed |
| `DirectorySync.RepeatedReconcileIsNoOp` | pamolive/connectors/sync.py:56-90 | the same matches again change nothing and report (0, 0), in whatever order the rows come |
| `DirectorySync.ReconcileRaisesIff` | pamolive/connectors/sync.py:64-75 | a reconciliation raises exactly if a match without a row occurs twice |
| `DirectorySync.AccountedIffClear` | pamolive/connectors/sync.py:56-125 | over any run of both reconcile functions, members are at every point those placed by hand and those holding a row exactly if every step is clear: each new row is for a membership placed by hand or new with it, and the fallback neither takes a membership nor gives one |
| `DirectorySync.ReconcileAccountedIff` | pamolive/connectors/sync.py:56-90 | one external reconciliation keeps that account exactly if every new match is clear when the call begins |
| `DirectorySync.AddOneAccountedIff` | pamolive/connectors/sync.py:64-75 | one new row keeps it exactly if its membership was placed by hand or was missing |
| `DirectorySync.RemoveOneAccounted` | pamolive/connectors/sync.py:77-89 | removing a row always keeps it |
| `DirectorySync.FallbackAccountedIff` | pamolive/connectors/sync.py:93-125 | the fallback keeps it exactly if it neither takes a membership away nor gives a new one |
| `DirectorySync.MembersAreManualOrManaged` | pamolive/connectors/sync.py:56-90 | with one mapping per group, after any run of external reconciliations a user is a member exactly if placed by hand or holding a row, and a row preserves exactly what was placed by hand |
| `DirectorySync.SharedGroupMarksSecondRow` | pamolive/connectors/sync.py:64-75 | with two new matches for one group the second row is marked as preserving |
| `DirectorySync.SharedGroupLeavesMemberBehind` | pamolive/connectors/sync.py:77-89 | so when both matches end the user stays a member without any row |
| `FallbackMemberships.FallbackRowOutlivesMembership` | pamolive/connectors/sync.py:77-89 | from a state where a fallback row has its membership, an external reconciliation without that match takes the membership away and leaves the fallback row |
| `FallbackMemberships.LoginLosesFallbackMembership` | pamolive/connectors/oidc.py:152-153 | from a user without rows who is no member, a login with a match and the fallback for one group and a second login with the fallback alone end with the fallback row and without the membership |
| `FallbackMemberships.BackedIffSpared` | pamolive/connectors/sync.py:56-125 | over any run of both reconcile functions, every fallback row stands for an actual membership at every point exactly if every step spares these memberships |
| `FallbackMemberships.ReconcileDefaultsIff` | pamolive/connectors/sync.py:56-90 | one external reconciliation keeps fallback rows backed exactly if no membership it takes has one |
| `FallbackMemberships.ReconcileMembers` | pamolive/connectors/sync.py:56-90 | the memberships after a reconciliation are those before it and those of new matches, without exactly those whose last row to go is unmatched and does not preserve, with no match for the group and no row of another identity |
| `FallbackMemberships.RemoveOneDefaultsIff` | pamolive/connectors/sync.py:77-89 | removing one row keeps fallback rows backed exactly if the row stays, preserves, is not the last about its membership, or no fallback row is about it |
| `FallbackMemberships.AddOneKeepsDefaults` | pamolive/connectors/sync.py:64-75 | a new external row keeps fallback rows backed |
| `FallbackMemberships.FallbackKeepsDefaults` | pamolive/connectors/sync.py:93-125 | so does the fallback reconciliation |
| `DirectoryService.DirectoryTables.ReconcileExternalMemberships` | pamolive/connectors/sync.py:56-90 | both loops together give the specified tables and counts, or nothing where a row would be created twice |
| `DirectoryService.DirectoryTables.AddMatched` | pamolive/connectors/sync.py:64-75 | the first loop adds a row and, where missing, the membership for each new match |
| `DirectoryService.DirectoryTables.RemoveUnmatched` | pamolive/connectors/sync.py:77-89 | the second loop removes rows no longer matched, and memberships nothing else manages or preserves |
| `DirectoryService.DirectoryTables.ReconcileOidcDefault` | pamolive/connectors/sync.py:93-125 | replaces the fallback row and undoes the old membership unless preserved or managed elsewhere |
| `DirectoryService.DirectoryTables.CreateIdentity` | pamolive/connectors/sync.py:26-53 | creates user and identity and takes name and address exactly if neither was taken |
| `DirectoryService.DirectoryTables.SynchronizeOne` | pamolive/connectors/sync.py:134-169 | one directory user is created, updated or skipped, ends with exactly the rows of its matches, and touches nobody else's; the turn raises exactly if a match without a row occurs twice or a user to be created has a taken name or address |
| `DirectoryService.DirectoryTables.ApplyDirectoryUsers` | pamolive/connectors/sync.py:129-177 | all or nothing: it aborts exactly if some turn raises on what the turns before it left; otherwise created, updated and skipped add up to the users processed, memberships move by added minus removed, and with distinct subjects every user ends synchronized |
| `DirectoryService.DirectoryTables.SynchronizeAll` | pamolive/connectors/sync.py:134-169 | the loop itself, up to the first turn that raises |
| `DirectoryService.AbortsIffSomeUserRaises` | pamolive/connectors/sync.py:129-177 | if subjects, names and addresses all differ, the call aborts exactly if some user's turn would raise on the tables as they are before the call |
| `DirectoryService.OtherTurnsDoNotMatter` | pamolive/connectors/sync.py:134-169 | the turn of one user does not change what decides about another with a different subject, name and address |
| `DirectoryService.MappingFor` | pamolive/connectors/sync.py:130-139 | a directory group selects the last enabled mapping of the source with the same normalized name, and none exactly if there is none |
| `DirectoryService.ReconciledIsSynchronized` | pamolive/connectors/sync.py:140-169 | reconciling an identity found or just created leaves its directory user synchronized |
| `DirectoryService.OthersStaySynchronized` | pamolive/connectors/sync.py:134-169 | handling one directory user leaves those with other subjects synchronized |
| `RateLimit.SlidingWindowRateLimiter.AcquireFor` | keyring/rate_limit.py:17-29 | the loop prunes, decides and appends as specified for one operation and leaves every other operation's queue alone; a missing default limit raises first |
| `RateLimit.QueueDecidesLikeFullHistory` | keyring/rate_limit.py:17-29 | with readings in order the pruned queue admits a call exactly if fewer than the limit of all calls ever accepted lie within the window |
| `RateLimit.NoWindowExceedsLimit` | keyring/rate_limit.py:17-29 | with readings out of order by at most `skew`, no half-open stretch of `window - skew`, open at either end, holds more accepted calls than the limit |
| `RateLimit.DisorderCanExceedLimit` | keyring/rate_limit.py:19-28 | for every limit above one and every positive `skew` there is a run that holds one call too many within a whole window |
| `RateLimit.LimitOneIsImmune` | keyring/rate_limit.py:19-28 | with a limit of one no whole window holds more than one accepted call, whatever the order of readings |
| `RateLimit.BoundSurvivesIff` | keyring/rate_limit.py:17-29 | the whole-window bound holds for all runs with readings within `skew` of their order exactly for a limit of one, an empty window or readings in order |
| `RateLimit.RetryAfterIsExact` | keyring/rate_limit.py:25-27 | a refused call is admitted after k whole seconds, if nothing else is accepted, exactly if k is at least the reported delay |
| `RateLimit.LimitBelowOneAlwaysRaises` | keyring/rate_limit.py:25-26 | with a limit below one nothing is ever accepted and every call fails on the empty queue |
| `RateLimit.EmptyQueueIffLimitBelowOne` | keyring/rate_limit.py:25-26 | on any run a call fails on the empty queue exactly if the limit is below one |
| `RateLimit.QueueIsEndOfHistory` | keyring/rate_limit.py:22-28 | the queue is always the end of the accepted history, within the limit, and what left it is a whole window before some reading |
| `RateLimit.QueueIsSorted` | keyring/rate_limit.py:22-28 | with readings in order the queue is sorted |
| `CommandInspection.WellCutRunsFollowTheStream` | pamolive/gateway/ssh.py:50-114 | over any session whose chunks break only at their end and whose unfinished lines fit the buffer, the target receives exactly the chunks that complete no forbidden line of the whole concatenated stream, wherever the cuts are |
| `CommandInspection.DroppedIffForbiddenLine` | pamolive/gateway/ssh.py:63-105 | while the buffer holds the stream's unfinished line, any chunk is dropped if and only if a non-blank line it completes in the whole stream matches a deny pattern, or it has a break and the line it leaves unfinished would match |
| `CommandInspection.SessionsDeliver` | pamolive/gateway/ssh.py:50-114 | every session, however cut, sends the target exactly the chunks that are not kept back, told by the chunks alone |
| `CommandInspection.DroppedIffKeptBack` | pamolive/gateway/ssh.py:63-105 | at any point of any session a chunk is dropped exactly if it has a break and, behind the last 4000 characters since the last chunk with one, a line of it, finished or not, is forbidden |
| `CommandInspection.BufferIsUnbrokenEnd` | pamolive/gateway/ssh.py:63-69 | at any point of any session the buffer holds the last 4000 characters since the last chunk with a break |
| `CommandInspection.PendingStaysTailIff` | pamolive/gateway/ssh.py:63-69 | the buffer stays the stream's unfinished line exactly if the chunk ends in its break, or has none and the line fits 4000 characters |
| `CommandInspection.UnfinishedLineDropsChunk` | pamolive/gateway/ssh.py:65-89 | a chunk of an allowed line and the beginning of a line that matches is dropped although it completes no forbidden line |
| `CommandInspection.SplitLineGetsThrough` | pamolive/gateway/ssh.py:66-114 | a forbidden line begun after a break and finished in the next chunk is forwarded whole if neither part matches alone |
| `CommandInspection.UnfinishedLineExample` | pamolive/gateway/ssh.py:65-89 | such a chunk: the lines `a` and `b` with `b` denied |
| `CommandInspection.SplitLineExample` | pamolive/gateway/ssh.py:66-114 | such a pair of chunks: the line `bc` cut after `b`, with `bc` denied |
| `CommandInspection.BytesInAreBytesWritten` | pamolive/gateway/recording.py:35-41 | in every session the counted input bytes are the bytes written to the target |
| `CommandInspection.ReportsAreTruthful` | pamolive/gateway/ssh.py:89-111 | a chunk is reported as denied exactly if it is dropped, with an inspected command and a deny pattern found in it, and only that command is recorded; an alert is truthful too and only for a forwarded chunk |
| `CommandInspection.OnlyPatternsBeforeAnEmptyOneMatch` | pamolive/gateway/ssh.py:31-38 | a command matches exactly if a pattern before the first empty one is found in it |
| `CommandInspection.MatchesIffSomePatternFound` | pamolive/gateway/ssh.py:31-38 | without empty patterns a command matches exactly if some pattern is found in it; malformed patterns are passed over |
| `CommandInspection.FindMatching` | pamolive/gateway/ssh.py:31-38 | the search loop returns the first pattern found |
| `CommandInspection.InspectCommands` | pamolive/gateway/ssh.py:74-88 | the single interleaved pass finds the first denied command and, if there is none, the first alerted one, each with its first pattern |
| `CommandInspection.InputBridge.Receive` | pamolive/gateway/ssh.py:62-114 | one chunk: buffer, bytes, target input and reported events all become as specified |
| `CommandInspection.InputBridge.ForwardInput` | pamolive/gateway/ssh.py:50-114 | the message loop handles the input chunks up to the disconnection, in order |
| `CommandInspection.CommandIsLine` | pamolive/gateway/ssh.py:65 | every command split out of a candidate is a line of it, finished or not, stripped |
| `CommandInspection.LineIsCommand` | pamolive/gateway/ssh.py:65 | every line of a candidate that is not blank, the unfinished one included, is among its commands |
| `CommandInspection.HitFrom` | pamolive/gateway/ssh.py:74-88 | finds nothing exactly if no command matches |
| `CommandInspection.HitIsFirst` | pamolive/gateway/ssh.py:74-88 | what is found is the first matching command with its first pattern |
| `OneTimeCode.TruncatedClearsTopBit` | pamolive/vault/services.py:52-53 | the truncated value is that of section 5.3 of RFC 4226, which clears the top bit of the first byte |
| `OneTimeCode.CodeIsValue` | pamolive/vault/services.py:52-54 | a code reads back as the truncated value modulo a million, so codes are equal exactly if these values are |
| `OneTimeCode.Code` | pamolive/vault/services.py:54 | a code is always six decimal digits |
| `OneTimeCode.DecimalParses` | pamolive/vault/services.py:54 | zero-filled decimals parse back to their value |
| `OneTimeCode.MatchingCounter` | pamolive/vault/services.py:61-69 | the loop over the window gives the specified match, refusal or error |
| `OneTimeCode.MatchIsLatest` | pamolive/vault/services.py:61-69 | once the window is past counter zero, a token of digits gives the latest counter of the window with that code, or none has it |
| `OneTimeCode.MatchIsLatestIff` | pamolive/vault/services.py:50-69 | exactly which tokens are treated so at the start of the epoch |
| `OneTimeCode.MatchIsLatestFit` | pamolive/vault/services.py:61-69 | whatever the clock, a token of digits gives the latest counter of the window whose tried code it is, or none has it |
| `OneTimeCode.MatchIsWithinWindow` | pamolive/vault/services.py:65-69 | a match lies within the window and its tried code is the token, whatever the clock |
| `Mfa.AcceptedCountersIncrease` | pamolive/mfa/services.py:62-106 | between two enrolments, if only unconfirmed devices are confirmed, accepted counters strictly increase over any run, lie within one step of the clock, and after the first minute the token is the device's code for that counter (section 5.2 of RFC 6238) |
| `Mfa.CountersKept` | pamolive/api/views.py:672-676 | every step, confirmation guarded as in the view, keeps the stored counter the last accepted one |
| `Mfa.ConfirmKeepsCountersIff` | pamolive/mfa/services.py:62-81 | a confirmation keeps the counters increasing exactly if no counter is stored, the token fits no counter of the window, or it fits one above the stored counter |
| `Mfa.RepeatedConfirmationCanLowerCounter` | pamolive/mfa/services.py:62-81 | confirming a confirmed device with the previous code takes its counter back |
| `Mfa.VerificationSpendsOneFactor` | pamolive/mfa/services.py:146-147 | a successful verification either advances the counter, next to the clock, or marks exactly one unused recovery code, never both; anything else changes nothing |
| `Mfa.TotpAdvancesOrKeeps` | pamolive/mfa/services.py:85-106 | an accepted one-time code advances the counter of a confirmed device; otherwise nothing changes |
| `Mfa.ConsumeSpendsOrKeeps` | pamolive/mfa/services.py:129-143 | an accepted recovery code marks exactly one unused row of a confirmed device; otherwise nothing changes |
| `Mfa.RecoveryIsConserved` | pamolive/mfa/services.py:114-143 | over any run, codes issued are codes spent by verifications plus codes unused |
| `Mfa.ShownCodeNormalizes` | pamolive/mfa/services.py:109-124 | a code as shown normalizes to the code that was hashed |
| `Mfa.IssuedCodeIsAccepted` | pamolive/mfa/services.py:114-143 | every code just issued is accepted as shown |
| `Mfa.FindRow` | pamolive/mfa/services.py:133-142 | the first unused row the code satisfies, or no unused row is satisfied |
| `Mfa.MfaTables.BeginEnrolment` | pamolive/mfa/services.py:43-58 | a fresh unconfirmed device without counter; recovery rows stay |
| `Mfa.MfaTables.ConfirmDevice` | pamolive/mfa/services.py:62-81 | confirms and stores the matched counter, or changes nothing |
| `Mfa.MfaTables.VerifyUserTotp` | pamolive/mfa/services.py:85-106 | accepts only a counter above the stored one, on a confirmed device |
| `Mfa.MfaTables.ReplaceRecoveryCodes` | pamolive/mfa/services.py:114-125 | the rows are exactly the new, unused ones |
| `Mfa.MfaTables.ConsumeRecoveryCode` | pamolive/mfa/services.py:129-143 | the loop marks the first satisfied row, or changes nothing |
| `Mfa.MfaTables.VerifyUserMfa` | pamolive/mfa/services.py:146-147 | the one-time code first, the recovery code only if that fails |
| `SignedRequests.SignedStringIsInjective` | pamolive/gateway/crypto.py:50-64 | requests with one-line headers are signed alike only if timestamp, id, upper-cased method, path and body agree |
| `SignedRequests.VersionsNeverMix` | pamolive/gateway/crypto.py:51-63 | no version 1 request with a one-line timestamp is signed like a version 2 request |
| `SignedRequests.ValidRequestWasSigned` | pamolive/gateway/crypto.py:67-94 | with an unforgeable digest a valid request is one that was signed, up to the spelling of its method |
| `ControlClaims.NoRequestClaimedTwice` | pamolive/gateway/asgi.py:69-77 | on a whole-second clock that never goes back no signed request is claimed twice in any run |
| `ControlClaims.SecondClaimNeedsDelay` | pamolive/gateway/asgi.py:265-283 | whatever the clock's resolution, and with its two readings taken apart, a request is claimed again only if that claim's reading is past the whole second of its age check |
| `ControlClaims.ClaimDecidesLikeFullHistory` | pamolive/gateway/asgi.py:69-77 | the pruned table admits a request exactly if it is authentic and its id was not claimed within sixty seconds anywhere in the history |
| `ControlClaims.ClaimsAreSpaced` | pamolive/gateway/asgi.py:69-77 | every claim was authentic, and claims of one id are more than sixty seconds apart |
| `ControlClaims.SecondClaimIff` | pamolive/gateway/asgi.py:265-283 | a repeated valid request is claimed again exactly if its claim comes more than sixty seconds after the first, however the readings were taken |
| `ControlClaims.ValidWithinSixtyOne` | pamolive/gateway/asgi.py:265-283 | if each age check and claim fall in one second, a valid request comes less than sixty-one seconds after its first claim |
| `ControlClaims.FractionsAllowSecondClaim` | pamolive/gateway/asgi.py:274-283 | for every request there are two such moments, so the whole-second clock is needed |
| `ControlClaims.ControlEndpoint.ClaimRequestId` | pamolive/gateway/asgi.py:69-77 | claims exactly an id not in the pruned table |
| `ControlClaims.ControlEndpoint.Control` | pamolive/gateway/asgi.py:238-293 | authenticates first and claims second, whether or not the session is known; a version 1 request, where still accepted, is only authenticated; only an honoured request for a known session cancels it |
| `ControlClaims.RunKeepsTable` | pamolive/gateway/asgi.py:69-77 | in every run the table holds only claims that happened, and all recent ones |

## Left out

- Django views, forms, templates, JavaScript and translations, except the creation rule for requests and the guard on confirmation.
- Cryptography itself (Fernet, HMAC, SHA-256, AES, HKDF, password hashing): ideal or uninterpreted functions with stated assumptions.
- Clients of LDAP, OIDC, SIEM, Vault Transit, Guacamole, Redis and SSH; of a rotation backend only its answers and effects are modelled.
- TLS bundles, settings, runtime secret checks, licence files, permission profiles and risk scoring.
- Regular expressions, network ranges, Unicode case folding, upper-casing and character classes: parameters.
- Edits by administrators during a run of the broker (limits, quorums, approver lists of a policy): policies are fixed per run; groups and networks may change at every step.
- Audit events written by the modelled services, and texts that are only stored (reasons, justifications, messages).
- The Redis branch of the claim table.
- Lone surrogates in text, non-dictionary JSON in gateway messages, and terminal resizing.
- The order of rows where a query names none: table order, or any order where the proof allows it.
- Sessions.SessionTable.IssueTicket: starts after the authorization and the checks on the request, which are `Broker.NextTicket`'s guards.
- Sessions.SessionTable.StartWebSession: starts after the protocol check and the authorization, which are `Broker.NextWeb`'s guards.
- Broker.EveryGrantHasItsQuorum: one clock reading per transaction; the source reads the clock again for some columns.
- RotationService.RotationTables.ScheduleDueRotations: takes the rows its query selected as a parameter; `RotationService.Selects` says which they are.
- Policies.ClockWindowIsCircular: whole seconds of a local day, without changes of the clock for daylight saving.
- Audit.VerifiedLogsAgree: says nothing about the content of legacy events, of which the verifier checks only number and link.
- Audit.RecordedLogsVerify: of what the database may rewrite, only the address and the metadata columns are modelled; times and texts read back as written.
- SignedRequests.SignedStringIsInjective: bytes are written as characters, so the encoding of headers is taken as injective.
- Mfa.AcceptedCountersIncrease: one authenticator device per user, as enrolment maintains it.
- RateLimit.RetryAfterIsExact: real arithmetic, without the rounding of floating-point clocks.
