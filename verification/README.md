# HomePASS access control: a verified model

HomePASS is a Home Assistant integration that decides who may operate which Door. This project models
its stateful and algorithmic core in Dafny and proves what those parts are for: taps that cannot be
replayed, commands that are always accounted for, crash-safe journals, stores whose memory never
drifts from disk, limits that cannot be talked around, and encodings that can be read back.

`dafny verify dfyconfig.toml` checks everything.

## How the model is built

One file per component, in the form its source has:

- Objects that change in place are classes whose methods follow the original statement by statement
  (sessions, repositories, storage manager, rate limiter, audit log, lifecycle manager, slot
  allocator). Each is proved against functions on values, and the properties are proved of those
  functions.
- Code interleaved at `await` points (NFC access, lifecycle) is in addition a state machine over its
  steps: calls in flight are data, and theorems range over every interleaving. The class methods are
  proved to be runs of the machine.
- Frozen records and pure helpers are datatypes, functions and lemmas.

| file | what it models |
|---|---|
| `sessions.dfy` | bounded, expiring, single-use tokens |
| `sun.dfy` | verification of one NTAG 424 DNA message |
| `nfc_repository.dfy`, `nfc_repository_effects.dfy` | tags, passkeys, invitations and person-to-Door grants, and what each mutation does to each record |
| `nfc_protocol.dfy`, `nfc_access.dfy` | the tap protocol from tag to Door command, as a machine and as the services that run it |
| `lifecycle.dfy` | the restart-safe step executor and its journal |
| `credential_migration.dfy` | schema 13 to 14 and the validator's credential checks |
| `notification_preferences.dfy`, `storage_manager.dfy` | settings recovery and the transactional store |
| `rate_limiter.dfy`, `reveal.dfy` | Reveal limits, audit log and the Reveal sequence |
| `schedule.dfy`, `provider_schedule.dfy` | weekly rules on the cyclic week, and their provider encodings |
| `crc32.dfy`, `stored_zip.dfy` | the provisioner's checksum and archive writer |
| `zwave_slots.dfy` | User Code slot reservation |
| `results.dfy`, `json.dfy` | shared datatypes |

## Assumptions

- Session tokens are fresh: no token is issued twice. NFC safety needs nothing of the clock; order and
  retention of tokens, the limiter and the audit log assume that it never runs back, and the
  lifecycle journal that it moves on between commits.
- A store write happens completely or not at all. Whether a read, a write, a Door, the vault or the
  policy service fails is an argument of each operation.
- AES, CMAC and WebAuthn verification are arbitrary functions.
- Datetimes are whole microseconds and the limiter's monotonic clock is a real number. Time-zone conversion is an
  arbitrary function of the instant, and a fixed offset in the Bluetooth encoding.
- Records are parsed and typed; text that does not parse is refused before the code modelled here.
  UUIDs are numbers whose order is that of their text.

## What the proofs brought out

- `retry_after` reads the clock and its deque only after the refusal has been audited, and indexes the
  deque from the limit. It raises exactly when the deque then holds fewer than half the limit of
  times, and is the least wait exactly when it holds the limit, or the time read instead lets the
  window pass within a second (`RetryAfterIsExactIff`). The deque falls below the limit exactly when
  the last request to look at it was a reset, or a check or denial after its limit had passed
  (`BelowLimitIff`). No reset is needed: reveals at 0.0, 0.1 and 0.2 seconds, a refusal at 59.99 and
  a reveal at 60.25 during its audit write make the refused request raise (`OvertakenRefusalRaises`).
- COMPLETED is absorbing for execute, resume, retry, complete and cancel, and changes exactly through
  `record_failure` and `checkpoint` (`CompletedChangesIff`). CANCELLED changes through those and
  `complete` (`CancelledChangesIff`, `CompleteOverridesCancel`).
- A committed lifecycle step can run again when executors overlap. It does so exactly when another
  call committed progress since the executor's own last commit (`RestartsACommittedStepIff`); two
  executes of a new operation reach such a state (`OverlapReachesStale`, `StaleExecutorRepeats`). The
  repeated step's result is never committed, since the journal has moved on.
- A claimed tag counter is forgotten by exactly three operations, and after a confirmed rewrite the
  counter just used is accepted again (`ConfirmAllowsReplay`).
- The Nuki encodings return the authorization they were given exactly under stated conditions: a web
  payload needs whole milliseconds and a recurrence the mask can show, a keypad payload bounds strictly
  inside its sentinel dates (`NukiRoundTripIff`, `KeypadRoundTripIff`).
- The duplicate-rule test in `_validate_rules` is implied by the overlap test (`DuplicatesOverlap`), and
  comparing sorted neighbours is enough (`NeighboursSuffice`).

## Model

Paths are relative to the repository root.

| member | source | states |
|---|---|---|
| `Sessions.NeverOverfull` | custom_components/homepass/nfc/sessions.py:41-49 | at every point of every history the store holds at most `max_items` tokens, whatever the clock does |
| `Sessions.ExpiredAreDropped` | custom_components/homepass/nfc/sessions.py:64-67 | no use of the store leaves an entry that has expired by then |
| `Sessions.AnswersAreIssuedValues` | custom_components/homepass/nfc/sessions.py:51-67 | what peek or consume returns is the value issued under that token, less than `ttl` ago, and not consumed since |
| `Sessions.ConsumedAtMostOnce` | custom_components/homepass/nfc/sessions.py:59-62 | no token is consumed successfully twice |
| `Sessions.EvictionIsFifo` | custom_components/homepass/nfc/sessions.py:44-46 | while an earlier token is in the store, so is every later one not consumed |
| `Sessions.OwedTokensAreHonoured` | custom_components/homepass/nfc/sessions.py:41-67 | an unconsumed, unexpired token with fewer than `max_items` issues after its own yields its value |
| `Sessions.ExpiringTokenStore.Issue` | custom_components/homepass/nfc/sessions.py:41-49 | expires, evicts the oldest when full, stores the value, and extends the store's history by that issue |
| `Sessions.ExpiringTokenStore.Peek` | custom_components/homepass/nfc/sessions.py:51-57 | expires, then answers with the value of a live token and keeps it |
| `Sessions.ExpiringTokenStore.Consume` | custom_components/homepass/nfc/sessions.py:59-62 | answers as peek would and leaves a live store without the token |
| `Sessions.ExpiringTokenStore.Expire` | custom_components/homepass/nfc/sessions.py:64-67 | the loop leaves exactly the entries that expire later than now |
| `Sun.VerifyAcceptsGenuine` | custom_components/homepass/nfc/sun.py:36-74 | with AES-128 keys a message is accepted with a counter if and only if it decrypts to one of the four profile bytes, the tag's UID and that counter, lowest byte first, and its MAC is every second byte of the one under the session key |
| `Sun.RefusedUnread` | custom_components/homepass/nfc/sun.py:45-53 | keys, hexadecimal text and lengths are refused in that order, each for exactly its reason |
| `Sun.TagMessageAccepted` | custom_components/homepass/nfc/sun.py:36-74 | what a tag encrypts and signs for a counter is accepted at that counter |
| `Sun.OneMacPerCiphertext` | custom_components/homepass/nfc/sun.py:62-74 | an accepted message with its MAC altered is refused |
| `Sun.VerifiedCounterFits` | custom_components/homepass/nfc/sun.py:62-74 | an accepted message is the expected tag's and its counter is a 24-bit number |
| `Sun.LittleEndianUnique` | custom_components/homepass/nfc/sun.py:62-74 | three counter bytes decode to a 24-bit number that encodes to the same bytes |
| `Sun.LittleEndianInverse` | custom_components/homepass/nfc/sun.py:62-74 | every 24-bit number is decoded from its own encoding |
| `NfcRepository.GrantsAreASetOfPairs` | custom_components/homepass/nfc/repository.py:374-427 | over every run of mutations and failed writes the keyed grants are a set of (person, Door) pairs, keys match records, and `has_access_grant` is membership |
| `NfcRepository.CreationIsKept` | custom_components/homepass/nfc/repository.py:396-406 | a pair that stays through a run keeps the time it was first granted |
| `NfcRepository.RetainedPairKeepsCreation` | custom_components/homepass/nfc/repository.py:390-409 | one mutation keeps the creation time of a retained pair and leaves other people's records untouched by a replacement |
| `NfcRepository.ReplaceRefusedIff` | custom_components/homepass/nfc/repository.py:385-406 | a replacement is refused exactly when a key is damaged or the clock is behind the creation of a grant it would keep |
| `NfcRepository.ReplaceNeverRefused` | custom_components/homepass/nfc/models.py:216-224 | with a clock that never runs back no replacement in any run is refused |
| `NfcRepository.ClaimAcceptedIff` | custom_components/homepass/nfc/repository.py:221-248 | a counter is accepted exactly when the tag is registered, enabled, and the counter is new and in range, and it is then what the tag remembers |
| `NfcRepository.CounterNeverDrops` | custom_components/homepass/nfc/repository.py:177-306 | no mutation but confirm, delete and upsert onto an existing tag lowers a remembered counter |
| `NfcRepository.ConfirmAllowsReplay` | custom_components/homepass/nfc/repository.py:279-306 | a confirmed rewrite makes the counter just claimed claimable again |
| `NfcRepository.PasskeysOnlyWeaken` | custom_components/homepass/nfc/repository.py:526-546 | over every run a passkey keeps its owner and key, its signature counter never falls, and once disabled it stays disabled |
| `NfcRepository.InviteEnrolsOnce` | custom_components/homepass/nfc/repository.py:325-350 | one invitation enrols at most one passkey in any run that does not create it again |
| `NfcRepository.PersonRevoked` | custom_components/homepass/nfc/repository.py:444-482 | after disabling a person no grant, invitation or enabled passkey of theirs is left |
| `NfcRepository.DoorRevoked` | custom_components/homepass/nfc/repository.py:484-524 | after disabling a Door no grant, live test tag or claimable tag of it is left |
| `NfcRepository.TestTagsStaySingle` | custom_components/homepass/nfc/repository.py:80-92 | over every run no Door has two test tags |
| `NfcRepository.AuditKeepsTheLatest` | custom_components/homepass/nfc/repository.py:548-574 | over every run the audit list is the last 500 attempts whose write succeeded, in order |
| `NfcRepositoryEffects.ClaimMovesTheBound` | custom_components/homepass/nfc/repository.py:221-248 | after an accepted claim exactly the higher counters in range are accepted, and the others refused as replayed |
| `NfcRepositoryEffects.ReplayedIffClaimed` | custom_components/homepass/nfc/repository.py:221-248 | over any run without a reset of the tag a counter in range is refused as replayed exactly when it or a higher one was remembered at the start or accepted since, and accepted otherwise |
| `NfcRepositoryEffects.ClaimRefusedBecause` | custom_components/homepass/nfc/repository.py:221-232 | each refusal of a claim has exactly its reason, in the order of the checks |
| `NfcRepositoryEffects.TagRegistered` | custom_components/homepass/nfc/repository.py:73-78 | a tag is what was last registered under its id, and no other mutation makes one |
| `NfcRepositoryEffects.TagLeaves` | custom_components/homepass/nfc/repository.py:206-219 | a tag leaves the store exactly by a deletion naming its own Door |
| `NfcRepositoryEffects.TagKept` | custom_components/homepass/nfc/repository.py:177-306 | no mutation but a registration changes more of a tag than its switch, administrator key, protection and counter |
| `NfcRepositoryEffects.TagSwitched` | custom_components/homepass/nfc/repository.py:177-204 | a tag is switched exactly by name and Door, and off with its Door |
| `NfcRepositoryEffects.TagKeyed` | custom_components/homepass/nfc/repository.py:250-277 | its administrator key is the last one attached for its Door |
| `NfcRepositoryEffects.TagProtected` | custom_components/homepass/nfc/repository.py:279-306 | it is write-protected from the first confirmation on that found an administrator key |
| `NfcRepositoryEffects.TagCounted` | custom_components/homepass/nfc/repository.py:221-306 | its counter is the last one claimed by an enabled tag within range and order, or none after a confirmation |
| `NfcRepositoryEffects.TagRefusedBecause` | custom_components/homepass/nfc/repository.py:177-306 | an administrative change of a tag is refused exactly for an unknown tag, another Door, or a missing administrator key |
| `NfcRepositoryEffects.TestTagStepExact` | custom_components/homepass/nfc/repository.py:80-135 | which token opens a Door in test mode after each mutation: the new one until it expires, and none once replaced or revoked |
| `NfcRepositoryEffects.EnrolmentAcceptedIff` | custom_components/homepass/nfc/repository.py:325-338 | enrolment takes exactly an unused, unexpired invitation of the same person and a new credential id |
| `NfcRepositoryEffects.InviteStepExact` | custom_components/homepass/nfc/repository.py:308-350 | when an invitation can be used after each mutation: from its creation until use, expiry or revocation of its person |
| `NfcRepositoryEffects.InviteLeaves` | custom_components/homepass/nfc/repository.py:444-482 | an invitation is removed exactly with the revocation of its person |
| `NfcRepositoryEffects.InviteKept` | custom_components/homepass/nfc/repository.py:340-348 | an invitation changes only by being marked used at the time of its enrolment |
| `NfcRepositoryEffects.PasskeyEnrolled` | custom_components/homepass/nfc/repository.py:337-350 | a passkey enters the store exactly by its enrolment, as given, and stays |
| `NfcRepositoryEffects.PasskeyKept` | custom_components/homepass/nfc/repository.py:444-546 | a stored passkey changes exactly by its owner's revocation and by a signature counter that does not move backwards |
| `NfcRepositoryEffects.SignCountRefusedBecause` | custom_components/homepass/nfc/repository.py:526-535 | a signature counter is refused exactly for an unknown passkey or one that moves backwards |
| `NfcRepositoryEffects.GrantStepExact` | custom_components/homepass/nfc/repository.py:374-409 | a replacement dates kept pairs by their first grant and new ones by now and updates them all; every other record that stays is untouched |
| `NfcRepository.NfcAccessRepository.ReplaceAccessGrantsForPerson` | custom_components/homepass/nfc/repository.py:374-414 | the pop and write loops compute the specified replacement, sorted by Door, and change nothing when refused or unsaved |
| `NfcRepository.NfcAccessRepository.ClaimCounter` | custom_components/homepass/nfc/repository.py:221-248 | makes the counter claimed the one remembered and changes nothing else of the tag, or leaves the store as it was |
| `NfcRepository.NfcAccessRepository.DisableCredentialsForPerson` | custom_components/homepass/nfc/repository.py:444-482 | the three loops compute the specified revocation, return how many records they changed, and write once or, when that is none, not at all |
| `NfcRepository.NfcAccessRepository.DisableTagsForAccessPoint` | custom_components/homepass/nfc/repository.py:484-524 | the three loops compute the specified revocation of a Door, return how many records they changed, and write once or, when that is none, not at all |
| `NfcRepository.NfcAccessRepository.SetTagEnabled` | custom_components/homepass/nfc/repository.py:177-204 | switches exactly the named tag of that Door and keeps its counter, or changes nothing |
| `NfcRepository.NfcAccessRepository.ConfirmTagWriteProtected` | custom_components/homepass/nfc/repository.py:279-306 | forgets the counter of a tag that has an administrator key, or changes nothing |
| `NfcRepository.NfcAccessRepository.ReplaceTestTag` | custom_components/homepass/nfc/repository.py:80-92 | drops the Door's other test tags and stores the new one in one write |
| `NfcRepository.NfcAccessRepository.CompleteEnrollment` | custom_components/homepass/nfc/repository.py:325-350 | spends the invitation and adds the passkey in one write, or changes nothing |
| `NfcRepository.NfcAccessRepository.GetCredential` | custom_components/homepass/nfc/repository.py:364-372 | returns exactly the enabled passkeys |
| `NfcRepository.NfcAccessRepository.UpdateSignCount` | custom_components/homepass/nfc/repository.py:526-546 | records a counter that did not move backwards, or changes nothing |
| `NfcRepository.NfcAccessRepository.HasAccessGrant` | custom_components/homepass/nfc/repository.py:416-427 | true exactly for a granted pair |
| `NfcRepository.NfcAccessRepository.TestTagHashIsActive` | custom_components/homepass/nfc/repository.py:117-124 | true exactly for a live test tag of that Door |
| `NfcRepository.NfcAccessRepository.AppendAudit` | custom_components/homepass/nfc/repository.py:548-573 | appends one attempt and keeps the last 500, or changes nothing |
| `NfcProtocol.DispatchIsAccountedFor` | custom_components/homepass/nfc/access.py:74-201 | in every interleaving a dispatched command rests on a tap session issued under 30 seconds before this call consumed it, with its Door and operation, a passkey that answered a ceremony of that tap, and checks in the same call, in order: a stored grant of that person for that Door or an unexpired test tag of the Door, the policy and the capability |
| `NfcProtocol.OneDispatchPerTap` | custom_components/homepass/nfc/access.py:131-133 | two commands never rest on the same tap session |
| `NfcProtocol.DispatchMatchesAnnouncement` | custom_components/homepass/nfc/access.py:215-233 | in every run the command sent is the one announced at its tap: close for a roller Door whose state read open or unlocked, open for one that read closed or locked and for a lock whose entry opens, unlock for any other Door |
| `NfcProtocol.AnnouncedAction` | custom_components/homepass/nfc/access.py:215-233 | the action announced and the operation bound, by profile, door state and lock state |
| `NfcProtocol.TapIsIssuedIff` | custom_components/homepass/nfc/access.py:215-233 | every Door that is no roller Door gets its operation and session, and a roller Door does exactly unless both its states say nothing |
| `NfcProtocol.SessionsStayBounded` | custom_components/homepass/nfc/sessions.py:41-49 | in every run at most 1024 tap sessions and 1024 ceremonies are kept |
| `NfcProtocol.RestartEndsTaps` | custom_components/homepass/nfc/sessions.py:36-39 | in every run a command sent after a restart rests on a tap made after it |
| `NfcProtocol.RevocationStopsOperations` | custom_components/homepass/nfc/repository.py:444-524 | in every run a command sent after a person or Door was revoked, and before access was restored, passed its grant check before the revocation |
| `NfcProtocol.CountersIncrease` | custom_components/homepass/nfc/access.py:93-105 | without a reset between them, the counters a tag has accepted strictly increase |
| `NfcProtocol.OneDispatchPerCounter` | custom_components/homepass/nfc/access.py:93-105 | without resets, each (tag, counter) leads to at most one dispatched command |
| `NfcProtocol.IssuedTapWasVerified` | custom_components/homepass/nfc/access.py:74-106 | a session of a registered tag names the Door of an enabled tag whose message verified with that counter |
| `NfcProtocol.StepEnters` | custom_components/homepass/nfc/webauthn_service.py:162-191 | every phase of a call is entered only by its own step, from its own predecessor, with the checks of that step passed in the state it found |
| `NfcProtocol.CeremonyWasBegun` | custom_components/homepass/nfc/webauthn_service.py:162-171 | a live ceremony was begun under two minutes ago while its tap session was live |
| `NfcAccess.NfcRuntime.BeginTap` | custom_components/homepass/nfc/access.py:74-106 | a session is issued exactly when tag, capability, keys, message, counter and the Door's reading are all right, and binds that tag's Door and counter and the operation of that reading |
| `NfcAccess.NfcRuntime.BeginTestTap` | custom_components/homepass/nfc/access.py:108-125 | a test session is issued exactly for a live test tag of a capable Door with a usable reading, and binds its Door and that operation |
| `NfcAccess.NfcRuntime.BeginAuthentication` | custom_components/homepass/nfc/views.py:239-246 | begins a ceremony exactly when the tap session is live, and does not consume it |
| `NfcAccess.NfcRuntime.FinishAuthentication` | custom_components/homepass/nfc/webauthn_service.py:173-191 | returns the ceremony's tap and the passkey's owner exactly when the passkey is enabled, its answer verifies and its counter is recorded; the ceremony is spent in every case |
| `NfcAccess.NfcRuntime.Operate` | custom_components/homepass/nfc/access.py:131-213 | a command is sent exactly when session, grant or test tag, policy, capability and target allow, once, as bound at the tap; the session is gone in every case and the matching attempt is appended to the audit list if its write succeeds |
| `NfcAccess.AttemptTells` | custom_components/homepass/nfc/access.py:131-213 | an attempt is recorded as allowed exactly when its command was sent and executed, as denied exactly when grant or policy refused, as failed for a Door that could not or did not, and not at all when the target cannot be read |
| `NfcAccess.CommandWasDispatched` | custom_components/homepass/nfc/access.py:186-197 | every command the services sent is a dispatch of the run, so the run theorems hold of it |
| `Lifecycle.OnlyCommitsChangeTheJournal` | custom_components/homepass/repositories/lifecycle_operation.py:58-74 | a commit is made over the journal exactly as the call last saw it, and nothing else changes the journal |
| `Lifecycle.RunsAreSound` | custom_components/homepass/lifecycle.py:82-136 | in every run without checkpoint the committed steps are 0, 1, 2, ... once each, retry_count is the number of consecutive failures, and WAITING_RETRY has 1 to max_retries of them |
| `Lifecycle.StepMovesByAtMostOne` | custom_components/homepass/lifecycle.py:211-233 | an event moves current_step by 0 or 1, by 1 exactly when it commits that step |
| `Lifecycle.FailedAfterMaxRetries` | custom_components/homepass/lifecycle.py:98-126 | an ordinary failure leaves FAILED exactly from the (max_retries + 1)-th in a row |
| `Lifecycle.SignalledFailure` | custom_components/homepass/lifecycle.py:96-117 | a step that signals its failure waits for retry exactly when it may be retried and the failures in a row are at most max_retries, and is FAILED otherwise; its changes are merged into the payload and its step is not passed |
| `Lifecycle.RecordedFailure` | custom_components/homepass/lifecycle.py:189-209 | record_failure decides and counts likewise and replaces the payload |
| `Lifecycle.CheckpointReplaces` | custom_components/homepass/lifecycle.py:170-187 | a checkpoint replaces exactly the fields it is given |
| `Lifecycle.StatusCommits` | custom_components/homepass/lifecycle.py:82-168 | the commits of execute, complete and cancel that follow no step change only the status, each to its own |
| `Lifecycle.CompletedIsAbsorbing` | custom_components/homepass/lifecycle.py:145-168 | no interleaving of execute, resume, retry, complete and cancel changes a completed record |
| `Lifecycle.CompletedChangesIff` | custom_components/homepass/lifecycle.py:170-209 | a completed record changes exactly by a commit of record_failure or checkpoint, and leaves COMPLETED exactly by record_failure or a checkpoint to another status |
| `Lifecycle.RecordFailureReopens` | custom_components/homepass/lifecycle.py:189-209 | record_failure on a completed operation puts it back to WAITING_RETRY or FAILED |
| `Lifecycle.CancelledOnlyCompletes` | custom_components/homepass/lifecycle.py:158-168 | of the managed calls only complete changes a cancelled record, and only to COMPLETED |
| `Lifecycle.CancelledChangesIff` | custom_components/homepass/lifecycle.py:158-209 | a cancelled record changes exactly by a commit of complete, record_failure or checkpoint |
| `Lifecycle.CompleteOverridesCancel` | custom_components/homepass/lifecycle.py:158-162 | complete does override a cancellation |
| `LifecycleResume.ResumeEqualsUninterrupted` | custom_components/homepass/lifecycle.py:82-143 | with payload-only steps, any run with crashes, failures, retries and races that ends COMPLETED has the payload and current_step of the uninterrupted run |
| `LifecycleResume.UninterruptedCompletes` | custom_components/homepass/lifecycle.py:82-136 | the uninterrupted run completes with every step's update applied in order |
| `LifecycleResume.RunIsFaithful` | custom_components/homepass/lifecycle.py:90-134 | in every interleaving the journal holds exactly the payload of its committed steps, COMPLETED means all of them, and no step starts before all earlier ones are committed |
| `LifecycleResume.RestartsACommittedStepIff` | custom_components/homepass/lifecycle.py:90-99 | after an executor's commit and any events of other calls, the step it starts next is committed already if and only if one of them committed progress |
| `LifecycleResume.StaleExecutorRepeats` | custom_components/homepass/lifecycle.py:90-134 | from every state with a current and a stale executor at one step, the step runs, is committed and is started again |
| `LifecycleResume.OverlapReachesStale` | custom_components/homepass/lifecycle.py:82-90 | two executes of a new operation reach such a state |
| `LifecycleResume.SerialRunsNeverRepeat` | custom_components/homepass/lifecycle.py:90-99 | while executors do not overlap, through crashes and failures, every step started is the journal's current one |
| `LifecycleManagers.LifecycleOperationManager.Execute` | custom_components/homepass/lifecycle.py:82-136 | the loop is a run of the machine and ends with a terminal record untouched, a failure recorded, or every step committed |
| `LifecycleManagers.LifecycleOperationManager.RunStep` | custom_components/homepass/lifecycle.py:91-135 | one turn of the loop commits the update of its step or its failure, with status, payload and count, as a run of the machine |
| `LifecycleManagers.LifecycleOperationManager.Close` | custom_components/homepass/lifecycle.py:158-162 | complete is a run of the machine and leaves a completed record alone |
| `LifecycleManagers.LifecycleOperationManager.RecordFailure` | custom_components/homepass/lifecycle.py:189-209 | record_failure is a run of the machine that replaces the payload, counts the failure, and waits for retry exactly when it may be retried and was retried fewer than max_retries times |
| `LifecycleManagers.LifecycleOperationManager.Retry` | custom_components/homepass/lifecycle.py:145-156 | retry is a run of the machine from the recorded step |
| `LifecycleManagers.LifecycleOperationManager.Cancel` | custom_components/homepass/lifecycle.py:164-168 | cancel is a run of the machine and leaves terminal records alone |
| `CredentialMigration.MigrateCredentials` | custom_components/homepass/storage.py:1268-1361 | the loops give a record to exactly the people with one unmistakable credential, dated by their metadata |
| `CredentialMigration.MigrationPassesValidation` | custom_components/homepass/storage.py:442-491 | for every set of people, grants and metadata, also of removed people, the migrated records pass all credential checks of the validator |
| `CredentialMigration.MigrationIsMaximal` | custom_components/homepass/storage.py:1306-1350 | if the validator would accept a record for a person with two-sided relationships, the migration gives them that credential |
| `CredentialMigration.AuthorityIff` | custom_components/homepass/storage.py:459-491 | one unmistakable credential is what the validator demands plus metadata and grants on the same Doors |
| `NotificationPreferences.RoundTrip` | custom_components/homepass/models/notification_preferences.py:95-185 | what is written reads back as itself, strictly and through the migration |
| `NotificationPreferences.MigrateExtendsFromDict` | custom_components/homepass/models/notification_preferences.py:129-176 | whatever the strict reader accepts the migration reads the same |
| `NotificationPreferences.MigrateReadsExactly` | custom_components/homepass/models/notification_preferences.py:129-176 | the migration reads exactly the objects of the four known fields, each missing or typed, with a known version, allowed devices and only events of that version, and keeps every part of them |
| `NotificationPreferences.FromDictReadsExactly` | custom_components/homepass/models/notification_preferences.py:95-127 | the strict reader accepts only what is written for valid preferences |
| `NotificationPreferences.DevicesAllowedIff` | custom_components/homepass/models/notification_preferences.py:55-64 | device selections are valid exactly with at most 128 device ids and none twice |
| `NotificationPreferences.DeviceIdIff` | custom_components/homepass/models/notification_preferences.py:13-13 | a device id is the prefix and 1 to 128 letters, digits, underscores or hyphens |
| `NotificationPreferences.LegacyChoicesSurvive` | custom_components/homepass/models/notification_preferences.py:157-175 | the legacy unlock choice becomes the choice of each kind of unlocking and every other choice is kept or defaulted |
| `StorageManager.ValidationIsIdempotent` | custom_components/homepass/storage.py:569-589 | what validation returns it returns again unchanged, also through the migration entry |
| `StorageManager.RecoveryLosesNothing` | custom_components/homepass/storage.py:569-589 | preferences never invalidate a payload, nothing else changes, and the first unreadable ones go to the backup, which is never replaced |
| `StorageManager.ReadablePreferencesKept` | custom_components/homepass/storage.py:569-589 | readable preferences come back as they were read, in the form the strict reader takes; unreadable ones as the defaults; absent ones stay absent |
| `StorageManager.MigratesIff` | custom_components/homepass/storage.py:1551-1594 | a payload migrates exactly when it is of the current schema and validates, or of an older one that can be upgraded to a payload that does |
| `StorageManager.MemoryAgreesWithDisk` | custom_components/homepass/storage.py:1635-1686 | after any loads, saves, transactions and restarts with failures anywhere, loaded data is valid and equals the migration of the file or the empty payload |
| `StorageManager.FailuresChangeNothing` | custom_components/homepass/storage.py:1641-1680 | an operation that fails writes nothing and at most loads what was there |
| `StorageManager.RestartRecovers` | custom_components/homepass/storage.py:1682-1686 | after any run a restart and a load give back what was in memory |
| `StorageManager.TransactionsPublish` | custom_components/homepass/storage.py:1650-1680 | a transaction commits exactly when it is not nested, the store loads, its mutator returns a payload that validates and the write succeeds, and then disk and memory are both that; each other outcome has its own error |
| `StorageManager.SavesPublish` | custom_components/homepass/storage.py:1641-1648 | a save commits exactly when its payload migrates, the store loads and the write succeeds, and then disk and memory are both the migrated payload |
| `StorageManager.LoadFailsIff` | custom_components/homepass/storage.py:1682-1686 | a load fails exactly when nothing is loaded and the file cannot be read or does not migrate |
| `StorageManager.BackupIsWriteOnce` | custom_components/homepass/storage.py:575-580 | once made the backup stays the same over any run, with restarts and failures, whose callers pass it on and whose migrations leave it |
| `StorageManager.HomePassStorageManager.AsyncTransaction` | custom_components/homepass/storage.py:1650-1680 | does what the machine's transaction does and resets the nesting guard on every way out |
| `StorageManager.HomePassStorageManager.AsyncSave` | custom_components/homepass/storage.py:1641-1648 | does what the machine's save does: validated first, loaded, then written and published |
| `StorageManager.HomePassStorageManager.AsyncLoad` | custom_components/homepass/storage.py:1635-1639 | does what the machine's load does: reads and migrates the file only when nothing is loaded |
| `RateLimiter.DequesDecideAsHistory` | custom_components/homepass/reveal.py:319-337 | the pruned deques decide exactly as counting over the full history |
| `RateLimiter.RefusedIff` | custom_components/homepass/reveal.py:319-344 | a request is refused for its credential exactly after three permitted reveals or denied requests of it in the last 60 seconds with no reset since, and for its administrator exactly after ten permitted reveals in the last 600 |
| `RateLimiter.CheckIsConsistent` | custom_components/homepass/reveal.py:319-337 | one check gives that decision, prunes and records in its two windows, leaves every other window, and keeps all deques those of the history |
| `RateLimiter.PermittedAttemptsAreSpaced` | custom_components/homepass/reveal.py:310-337 | four permitted reveals of one credential span 60 seconds and eleven by one administrator 600, with no reset between them |
| `RateLimiter.RetryAfterIsExactIff` | custom_components/homepass/reveal.py:358-376 | at any clock reading after any history it raises exactly below half the limit, and gives the least wait exactly when the deque holds the limit or the time it reads lets the window pass within a second |
| `RateLimiter.BelowLimitIff` | custom_components/homepass/reveal.py:319-356 | a deque once at its limit is below it exactly when the last event to look at it was a reset, or a check or denial after the limit had passed |
| `RateLimiter.RefusalAnsweredExactly` | custom_components/homepass/reveal.py:433-448 | the answer to a refusal is the least wait, at any later clock reading, unless such an event came in between |
| `RateLimiter.OvertakenRefusalRaises` | custom_components/homepass/reveal.py:433-448 | without any reset, a reveal let through while a refusal is being audited makes the refused request raise, for all such times |
| `RateLimiter.PruneDeque` | custom_components/homepass/reveal.py:378-382 | the popping loop leaves the times later than the cutoff |
| `RateLimiter.RevealRateLimiter.CheckAndRecord` | custom_components/homepass/reveal.py:319-337 | refuses as the full history does, prunes both windows, records a permitted attempt in both and leaves every other window |
| `RateLimiter.RevealRateLimiter.ResetCredential` | custom_components/homepass/reveal.py:346-356 | empties one credential's window and leaves every other window |
| `RateLimiter.RevealRateLimiter.RecordDenied` | custom_components/homepass/reveal.py:339-344 | prunes one credential's window, records one time in it and leaves every other window |
| `RateLimiter.RevealRateLimiter.RetryAfterSeconds` | custom_components/homepass/reveal.py:358-376 | at the clock reading of the call, raises or gives the least wait exactly as the deque then stands |
| `RevealAudit.AppendRetains` | custom_components/homepass/reveal.py:253-280 | the log after any appends in order of time is the last 10,000 events within 365 days of the newest, in order |
| `RevealAudit.RetainedMeans` | custom_components/homepass/reveal.py:253-280 | the log is exactly the last 10,000 of the events at most 365 days older than the newest |
| `RevealAudit.AppendedMeans` | custom_components/homepass/reveal.py:253-280 | whatever the clock does an append keeps the new event and all events up to 365 days older, in order of time, but for the oldest beyond 10,000 |
| `RevealAudit.AppendedIsBounded` | custom_components/homepass/reveal.py:253-280 | never more than 10,000 events whatever their times |
| `RevealAudit.RevealAuditRepository.Append` | custom_components/homepass/reveal.py:253-280 | an event is durable exactly when load and write succeed, and otherwise nothing changes |
| `Reveal.CredentialRevealService.Reveal` | custom_components/homepass/reveal.py:416-554 | a secret is returned exactly when limiter, person, credential, vault and audit write allow it, and then the log has grown by exactly this request's REVEALED event; a refused request, audited while other requests run, is answered exactly as the deque then stands |
| `Reveal.CredentialRevealService.Fulfil` | custom_components/homepass/reveal.py:449-554 | a permitted request leaves exactly one event of its own: REVEALED if and only if a secret is returned, CREDENTIAL_MISSING if person, credential or vault entry is missing, VAULT_UNAVAILABLE if the vault is down, FAILED otherwise, each with its answer; none is answered if the event cannot be written |
| `Reveal.CredentialRevealService.Refuse` | custom_components/homepass/reveal.py:433-448 | the audit write with any calls of other requests during its await, then the waiting time, which is the least wait if none of them lowered the window |
| `Schedules.ValidateRulesIffDisjoint` | custom_components/homepass/models/schedule.py:162-182 | a rule sequence is accepted exactly when no minute of the cyclic week is covered twice |
| `Schedules.ScheduleMadeIff` | custom_components/homepass/models/schedule.py:229-261 | a schedule is made exactly from rules disjoint on the week, in any order, a validity range that is not empty and times in order, and holds them sorted |
| `Schedules.NeighboursSuffice` | custom_components/homepass/models/schedule.py:174-182 | sorted segments whose neighbours do not overlap are all disjoint |
| `Schedules.DuplicatesOverlap` | custom_components/homepass/models/schedule.py:174-177 | a duplicate rule is always also an overlap |
| `Schedules.SegmentsMeanCovers` | custom_components/homepass/models/schedule.py:162-171 | a rule's segments contain each minute it covers exactly once and no other |
| `Schedules.MatchesIffCovers` | custom_components/homepass/models/schedule_evaluation.py:53-61 | weekday-and-time comparison holds exactly at the minutes the rule covers |
| `Schedules.EvaluationMeans` | custom_components/homepass/models/schedule_evaluation.py:27-50 | a schedule is active exactly when enabled, within validity, and without rules or with one covering the minute of the week; each reason against is given exactly when it is the first that applies |
| `Schedules.ValidityPasses` | custom_components/homepass/models/schedule_evaluation.py:36-41 | over time an enabled schedule is first not yet valid, then in its range, then expired, and never goes back |
| `Schedules.AtMostOneRuleMatches` | custom_components/homepass/models/schedule_evaluation.py:43-50 | at most one rule of a schedule matches any instant |
| `Schedules.SupplyOrderIrrelevant` | custom_components/homepass/models/schedule.py:229-239 | permuting the supplied rules changes neither the outcome nor the record |
| `Schedules.ActiveTimeIsConserved` | custom_components/homepass/models/schedule_evaluation.py:27-50 | of any seven consecutive days within validity, on a clock that runs evenly, exactly the sum of the rule lengths in minutes is active, at most 10080 |
| `ProviderSchedules.TranslateSucceedsIff` | custom_components/homepass/providers/schedule.py:13-34 | translation succeeds exactly for schedules whose rules share one daytime window |
| `ProviderSchedules.TranslateRefusedBecause` | custom_components/homepass/providers/schedule.py:13-34 | a schedule is refused exactly for several windows or else for an overnight one |
| `ProviderSchedules.AuthorizationMadeIff` | custom_components/homepass/providers/base.py:57-81 | an authorization is made exactly with a range that is not empty, ISO weekdays, minutes of a day, and a whole window on some day or none |
| `ProviderSchedules.TranslationPreservesMeaning` | custom_components/homepass/providers/schedule.py:13-34 | a translated schedule, enabled or not, admits exactly the instants at which it evaluates active when enabled |
| `ProviderSchedules.NukiRoundTripIff` | custom_components/homepass/providers/nuki.py:306-391 | a web payload reads back as the same authorization exactly when dates are whole milliseconds and the recurrence is expressible |
| `ProviderSchedules.NukiPayloadMeans` | custom_components/homepass/providers/nuki.py:306-330 | the payload holds the dates cut to the millisecond, the window, and a bit for each weekday with Monday as 64 |
| `ProviderSchedules.NukiReadingMeans` | custom_components/homepass/providers/nuki.py:363-391 | any payload is read with weekdays and window together, exactly when both times are there and differ |
| `ProviderSchedules.MaskRecoversSet` | custom_components/homepass/providers/nuki.py:25-25 | the weekdays read from a mask are the weekdays written |
| `ProviderSchedules.KeypadRoundTripIff` | custom_components/homepass/providers/nuki_bluetooth.py:504-562 | a keypad payload reads back as the same authorization exactly under its recurrence and sentinel conditions |
| `ProviderSchedules.KeypadPayloadMeans` | custom_components/homepass/providers/nuki_bluetooth.py:504-529 | the payload is limited unless the authorization is unrestricted, with sentinel dates, a flag for each weekday, and hours below 24 and minutes below 60 |
| `ProviderSchedules.TranslatedSchedulesSurvive` | custom_components/homepass/providers/nuki_bluetooth.py:594-623 | every translated schedule with dates in range survives both encodings |
| `Crc32.ComputeCrc32` | custom_components/homepass/frontend/homepass-nfc-provisioner.js:300-309 | the byte and bit loops compute the CRC register specification |
| `Crc32.CheckValue` | custom_components/homepass/frontend/homepass-nfc-provisioner.js:300-309 | the checksum of the digits 1 to 9 is the published check value 0xCBF43926 |
| `Crc32.BurstErrorsDetected` | custom_components/homepass/frontend/homepass-nfc-provisioner.js:300-309 | equal-length inputs differing only within four consecutive bytes have different checksums |
| `Crc32.SingleByteChangeDetected` | custom_components/homepass/frontend/homepass-nfc-provisioner.js:300-309 | changing one byte changes the checksum |
| `LinearRegisters.Register.FeedLinear` | custom_components/homepass/frontend/homepass-nfc-provisioner.js:300-309 | the register is linear: the difference of two runs is the run of the difference |
| `StoredZip.StoredZip` | custom_components/homepass/frontend/homepass-nfc-provisioner.js:311-353 | the writes at computed offsets produce exactly the specified archive |
| `StoredZip.FieldsAsWritten` | custom_components/homepass/frontend/homepass-nfc-provisioner.js:311-312 | fields lie lowest byte first, and the records begin with their published signatures |
| `StoredZip.StoredZipRoundTrip` | custom_components/homepass/frontend/homepass-nfc-provisioner.js:311-353 | a reader starting at the end record (APPNOTE sections 4.3.7, 4.3.12 and 4.3.16), which checks version, flags, method and sizes of both headers, recovers name, contents and checksum, and the records fill the file |
| `StoredZip.AlteredContentsDetected` | custom_components/homepass/frontend/homepass-nfc-provisioner.js:311-353 | contents altered within four bytes still parse but no longer match the stored checksum |
| `ZwaveSlots.FirstFreeUserCodeSlot` | custom_components/homepass/drivers/zwave_lock.py:625-672 | the least slot that is not reserved, a user id or a PIN slot, failing exactly when there is none or the lock reports none |
| `ZwaveSlots.FreeMeans` | custom_components/homepass/drivers/zwave_lock.py:640-672 | a free slot is within the lock's limits of users and of PIN slots, and neither reserved nor a user's number nor the slot of a PIN |
| `ZwaveSlots.SuccessiveSlots` | custom_components/homepass/drivers/zwave_lock.py:592-672 | reservations in a row on an unchanged lock get strictly increasing free slots until every free slot is out |
| `ZwaveSlots.ZWaveLockDriver.ReserveUserCodeSlot` | custom_components/homepass/drivers/zwave_lock.py:592-623 | reserves the least free slot, never one already outstanding |
| `ZwaveSlots.ZWaveLockDriver.SetPin` | custom_components/homepass/drivers/zwave_lock.py:256-267 | programming a reserved slot ends exactly that reservation |

## Left out

- NfcAccess.NfcRuntime.Operate: the class methods run uninterrupted; interleaving is covered by the machine in NfcProtocol, of which each method is a run.
- LifecycleManagers.LifecycleOperationManager.Execute: likewise runs uninterrupted; races and crashes are covered by the machine in Lifecycle.
- LifecycleResume.SerialRunsNeverRepeat: runs without overlap; for overlapping executors LifecycleResume.RestartsACommittedStepIff says when a committed step runs again.
- Reveal.CredentialRevealService.Reveal: other requests act on the limiter during the audit write; their own audit events belong to their own calls.
- Schedules.ActiveTimeIsConserved: seven days without daylight-saving changes, as the evaluator's own note excludes them.
- ZwaveSlots.ZWaveLockDriver.SetPin: which path is taken and what is reserved, not the lock's answer.
- Migrations from schema 1 to 10: they install an enrolment record the current check refuses. Upgrades from other old schemas are a parameter of the storage model.
- The repair of orphaned slot ownership in schema 14, and AccessMetadataRepository as a whole.
- The validator's other domain checks, which are one arbitrary predicate of the storage model.
- AuthorizationService, the credential vault and the Door command dispatcher: their answers are arguments.
- Passkey registration ceremonies; only what they commit (complete_enrollment) is modelled.
- AES, CMAC, WebAuthn verification and the Nuki transports.
- IANA time zones and daylight saving.
- JSON type checks, text normalisation, and the registries of activities and notifications; the event registry is a parameter.
- Z-Wave and Nuki polling, replacement and removal, battery and status aggregation, discovery, naming.
- Actions, websocket and HTTP views, config flow, panels and the rest of the front end: plumbing and rendering.
