# Greenwich Fire Responder: verified model

A Dafny 4.11 model of the parts of the backend whose correctness spans several functions, with proofs.

**Notification outbox.** A shared table of pending notifications that several workers claim, try, put off, send or give
up. `NotifyOutbox` holds one row's transitions, `NotifyOutboxStore` the store over the mutable table, `NotifyOutcome`
the transactions that record an outcome together with its audit row (and the device revocation), `NotifyPreferences`
and `NotifyAttempt` the decision what to do with a claimed entry, `NotifyWorker` one worker's step, `AlertNotify` the
fan-out. `NotifyProtocol` makes every store call one step; its runs are arbitrary interleavings of arbitrary callers.
`NotifyFencing`, `NotifySchedule` and `NotifyAudit` prove lease exclusivity, fencing, when an entry may be taken next and
how it ends, conservation between outbox and audit log and contiguous attempt numbers over those runs; `NotifyCalls`
shows that whatever a method leaves behind is the state before it or one step. `NotifyBackoff` is the worker's delay
between attempts, in 64-bit arithmetic.

**Device registrations.** `DeviceRegistry` is what the two stores share; `NotifyDevices` is the in-memory store,
`NotifyDeviceStore` the table-backed one, and `DeviceRefinement` drives both in lockstep.

**Account lifecycle.** `Identity` has the transition matrix, `IdentityTables` every operation as a function on five
tables, `IdentityStore` the transactions on mutable tables, `IdentityRuns` and `IdentityFrames` what one operation may
change, `IdentityProgress` what each achieves and exactly when, `IdentitySafety` and `IdentityTokens` what holds over
whole runs, and `IdentityExceptions` what does not and exactly which steps break it.

**Algorithms.** `AuthRateLimit` (bounded fixed-window limiter), `AddressCandidate` (tokenizer and two tries),
`AudioAnalysis` (streaming PCM measurer), `PasswordPolicy` and `Base64` (PHC printing and parsing). `Patterns` has the
regular expressions the identifiers and hashes are checked against.

## Conventions

A database call may find the server unreachable or lose the answer after taking effect; the methods' contracts allow
exactly that besides the specified outcome. Identity sequences run on when the row they numbered is rolled back.
Clocks, random tokens and salts, ids picked by a sequence, rows locked by other transactions and the answers of
ORDER BY queries are arguments; a claim token must not have been issued before. What a URL parser makes of the text
after "https://", Argon2id, Unicode classes, time zones and the normalizers of emails, names and scopes are parameters.
A caller of the outcome recorder owes it an audit row about the same entry with the matching outcome
(`NotifyAudit.Disciplined`), and a number planned from the claimed entry (`NotifyAudit.Planned`); `NotifyWorker` shows
that the worker does. Notification runs start from empty outbox and audit tables with any registrations; account runs
start from any tables that satisfy the invariant, the empty ones among them, and include the administrator that
`backend/cmd/bootstrap-admin/run.go` inserts directly as active.

## Where code and documentation differ

- `backend/internal/identitystore/invitations.go:68-70` says only an invited account owns a pending invitation and
  that this is guarded. It is neither: suspended, disabled and password-change-required accounts can own one
  (`IdentityExceptions.SuspendedOwnsPending`). A step keeps it true if and only if it neither suspends or disables the
  owner of one nor is an administrative reset that `IdentityTokens.AdminResetExactly` lets succeed
  (`IdentityExceptions.OnlyInvitedPendingExactly`). What always holds, and is enough for the matrix, is that an expired
  account has no unexpired one, provided the clock does not go back (`IdentitySafety.ClockMustNotGoBack`).
- `backend/internal/notifydevicestore/notifydevicestore.go:303-305` promises the in-memory semantics exactly. An
  endpoint whose scheme is not in lower case passes `url.Parse` but not the column CHECK
  (`DeviceRefinement.UpperCaseSchemeDiverges`); a zero clock, ids below 1 and a user without an account are refused only
  by the table, and so is a listing for a user below 1 (`DeviceRefinement.LookupsDivergeAtZero`). The exact conditions
  are `RegisterRefines`, `ReplaceRefines`, `RevokeRefines`, `GetRefines` and `ListRefines` there, and `RunRefines` for
  whole sequences of calls. Even then the table keeps times to the microsecond and prints keys without padding.
- `backend/internal/identity/identity.go:119-121` has every active account pass through password-change-required; the
  bootstrapped administrator is active at once. Of the accounts created in a run exactly those created with an invitation
  pass through it before they are first active (`IdentitySafety.FirstActivation`).
- `backend/cmd/bootstrap-admin/run.go:77-79` only ever bootstraps the first administrator. The count and the insert are
  two statements: with a count that is out of date a second one is inserted (`IdentitySafety.StaleCountBootstraps`),
  with one that is up to date never (`IdentitySafety.BootstrapExactly`, `IdentitySafety.BootstrapWorksOnce`). It inserts
  one that is not the first if and only if there was no account when it counted, one came into being before it inserted,
  and its own input is valid and its email unused (`IdentitySafety.LaterBootstrapExactly`).
- `backend/internal/notifyworker/notifyworker.go:604-625` promises base, twice the base, four times the base and so on,
  capped, and guards against overflow. The guard bounds the shift, not the product: a base of 2^44 + 1 nanoseconds wraps
  around at the twenty-first attempt (`NotifyBackoff.LongBaseWrapsAround`). The schedule is met if and only if the product
  fits or wraps to something the cap or the hint hides (`NotifyBackoff.DelayExactly`), so always with a base below two
  hours (`NotifyBackoff.ShortBasesNeverOverflow`).

## Model

| member | source | states |
|---|---|---|
| `NotifyOutbox.SetKeepsRowInv` | database/migrations/000010_notification_relay_foundation.sql:203-224 | a transition of a row whose condition holds never violates a CHECK constraint; a pending row always keeps an attempt in hand, and a row that has ended is never due again |
| `NotifyOutbox.SetKeepsIdentity` | backend/internal/notifyoutboxstore/notifyoutboxstore.go:505-537 | no transition touches a row's event, device, user, ceiling or expiry, and exactly failed attempts and dead letters count one attempt |
| `NotifyOutbox.PerformedKeepsInv` | backend/internal/notifyoutboxstore/notifyoutboxstore.go:431-907 | every transition keeps the table invariant: ids, row invariant, one row per event and device |
| `NotifyOutbox.EnqueuedKeepsInv` | backend/internal/notifyoutboxstore/notifyoutboxstore.go:353-388 | so does enqueueing, for every input and owner table |
| `NotifyOutbox.EnqueuedEffect` | backend/internal/notifyoutboxstore/notifyoutboxstore.go:353-388 | enqueueing leaves every existing row as it is; a successful answer is the table's row for that event and device |
| `NotifyOutbox.RowForIsUnique` | database/migrations/000010_notification_relay_foundation.sql:225-225 | there is only one row an (event, device) lookup can find |
| `NotifyOutbox.LeaseExcludes` | backend/internal/notifyoutboxstore/notifyoutboxstore.go:551-705 | a transition of a claimed row presents its token, or is a claim no earlier than the lease end |
| `NotifyOutbox.SuccessEndsClaim` | backend/internal/notifyoutboxstore/notifyoutboxstore.go:431-907 | a successful transition clears the token, and a successful claim replaces it |
| `NotifyOutboxStore.LeastDueExists` | backend/internal/notifyoutboxstore/notifyoutboxstore.go:640-666 | whenever an unlocked row is due there is one that is due first, so the subselect has an answer |
| `NotifyOutboxStore.Postgres.Update` | backend/internal/notifyoutboxstore/notifyoutboxstore.go:288-298 | one conditional UPDATE: exact effect, entry or not-found or conflict, or unavailable with the effect or without |
| `NotifyOutboxStore.Postgres.Enqueue` | backend/internal/notifyoutboxstore/notifyoutboxstore.go:353-388 | input, unmatched event, existing row, wrong owner and fresh row each get exactly their effect and answer; an existing row is returned unchanged |
| `NotifyOutboxStore.Postgres.MarkSent` | backend/internal/notifyoutboxstore/notifyoutboxstore.go:431-450 | a claimed pending row becomes sent only for the holder of its token |
| `NotifyOutboxStore.Postgres.RecordFailedAttempt` | backend/internal/notifyoutboxstore/notifyoutboxstore.go:505-537 | one more attempt is counted; expiry before exhaustion before retry decides the next state, and a retry is due at the given time |
| `NotifyOutboxStore.Postgres.MarkExpired` | backend/internal/notifyoutboxstore/notifyoutboxstore.go:551-570 | only an unclaimed pending row past its expiry expires |
| `NotifyOutboxStore.Postgres.Cancel` | backend/internal/notifyoutboxstore/notifyoutboxstore.go:592-611 | only an unclaimed pending row is canceled |
| `NotifyOutboxStore.Postgres.ReleaseClaim` | backend/internal/notifyoutboxstore/notifyoutboxstore.go:721-740 | the holder gives the claim up and the row is due at once |
| `NotifyOutboxStore.Postgres.RescheduleClaim` | backend/internal/notifyoutboxstore/notifyoutboxstore.go:767-786 | the holder puts the row off, never past its expiry |
| `NotifyOutboxStore.Postgres.MarkExpiredClaimed` | backend/internal/notifyoutboxstore/notifyoutboxstore.go:811-830 | the holder expires a row past its expiry |
| `NotifyOutboxStore.Postgres.CancelClaimed` | backend/internal/notifyoutboxstore/notifyoutboxstore.go:842-861 | the holder cancels |
| `NotifyOutboxStore.Postgres.DeadLetterClaimed` | backend/internal/notifyoutboxstore/notifyoutboxstore.go:887-907 | the holder dead-letters and an attempt is counted |
| `NotifyOutboxStore.Postgres.ClaimSpecific` | backend/internal/notifyoutboxstore/notifyoutboxstore.go:685-705 | a due pending row gets the fresh token and a lease; the token is recorded with the entry returned |
| `NotifyOutboxStore.Postgres.ClaimNextDue` | backend/internal/notifyoutboxstore/notifyoutboxstore.go:640-666 | no unlocked pending row is due before the claimed one; no row is reported only if none of them is due yet |
| `NotifyOutboxStore.Postgres.Get` | backend/internal/notifyoutboxstore/notifyoutboxstore.go:392-409 | the row of that id as it is |
| `NotifyDeliveryStore.Postgres.Record` | backend/internal/notifydeliverystore/notifydeliverystore.go:170-188 | a row is appended exactly when it is valid and its outbox, event and device ids belong together |
| `NotifyOutcome.FailedAttemptHasOutcome` | backend/internal/notifyoutcome/notifyoutcome.go:96-107 | the state a failed attempt leaves always maps to an outcome, so the unexpected-state error is unreachable |
| `NotifyOutcome.Store.RecordSent` | backend/internal/notifyoutcome/notifyoutcome.go:116-142 | transition and audit row, both or neither |
| `NotifyOutcome.Store.RecordCanceled` | backend/internal/notifyoutcome/notifyoutcome.go:150-176 | transition and audit row, both or neither |
| `NotifyOutcome.Store.RecordFailedAttempt` | backend/internal/notifyoutcome/notifyoutcome.go:188-220 | transition and audit row with the outcome of the state reached, both or neither |
| `NotifyOutcome.Store.RecordDeadLetter` | backend/internal/notifyoutcome/notifyoutcome.go:228-254 | transition and audit row, both or neither |
| `NotifyOutcome.Store.RecordUnauthorized` | backend/internal/notifyoutcome/notifyoutcome.go:281-312 | dead letter, audit row and device revocation, all or none; an inner refusal restores all three tables |
| `NotifyOutcome.RecordedFrame` | backend/internal/notifyoutcome/notifyoutcome.go:116-254 | a refused recording changes no table |
| `NotifyOutcome.UnauthorizedIsWhole` | backend/internal/notifyoutcome/notifyoutcome.go:281-312 | the exact condition under which an unauthorized outcome is recorded, what all three tables then hold, and that an already revoked device keeps its first revocation |
| `NotifyProtocol.StepOnRow` | backend/internal/notifyoutboxstore/notifyoutboxstore.go:353-907 | in one step of anyone an existing row stays or undergoes the one transition attempted on it |
| `NotifyProtocol.StepOnNewRow` | backend/internal/notifyoutboxstore/notifyoutboxstore.go:353-388 | only enqueueing adds a row, and it is unclaimed and pending with no attempt |
| `NotifyProtocol.StepKeepsClaims` | database/migrations/000011_notification_outbox_claim_fencing.sql:34-40 | a claimed row equals, field by field, the entry its claim returned |
| `NotifyProtocol.StepKeepsInv` | backend/internal/notifyoutboxstore/notifyoutboxstore.go:353-907 | every step of every caller keeps the invariant of outbox, claims and devices |
| `NotifyProtocol.RunInv` | backend/internal/notifyoutboxstore/notifyoutboxstore.go:353-907 | the invariant holds in every state of every run |
| `NotifyProtocol.ReachableRows` | database/migrations/000010_notification_relay_foundation.sql:198-224 | in every reachable state: pending implies attempts left, exactly pending rows have a due time, claimed implies pending, count within the ceiling |
| `NotifyCalls.OutboxCall` | backend/internal/notifyoutboxstore/notifyoutboxstore.go:353-907 | whatever a call of the outbox store leaves behind, lost answers included, is the state before it or one step; success means the step |
| `NotifyCalls.EnqueueCall` | backend/internal/notifyoutboxstore/notifyoutboxstore.go:353-388 | the same for enqueueing |
| `NotifyCalls.RecordCall` | backend/internal/notifyoutcome/notifyoutcome.go:116-254 | the same for the recorder's transactions |
| `NotifyCalls.UnauthorizedCall` | backend/internal/notifyoutcome/notifyoutcome.go:281-312 | the same for the unauthorized outcome |
| `NotifyCalls.DeviceCalls` | backend/internal/notifydevicestore/notifydevicestore.go:240-502 | the same for the table-backed registration store, which refuses more but changes nothing else |
| `NotifyFencing.RowsPersist` | backend/internal/notifyoutboxstore/notifyoutboxstore.go:353-907 | over any run a row keeps its identity, never loses an attempt, and once terminal never changes again |
| `NotifyFencing.StepRespectsLease` | backend/internal/notifyoutboxstore/notifyoutboxstore.go:551-705 | a step without the token and not a claim at or after the lease end leaves a leased row untouched |
| `NotifyFencing.LeaseIsExclusive` | backend/internal/notifyoutboxstore/notifyoutboxstore.go:612-705 | from a claim to its lease end the row stays exactly as claimed unless the token is presented, in every interleaving |
| `NotifyFencing.ChangeKills` | backend/internal/notifyoutboxstore/notifyoutboxstore.go:431-907 | once a claimed row changes in any way no row carries its token any more |
| `NotifyFencing.DeadTokenIsRefused` | backend/internal/notifyoutboxstore/notifyoutboxstore.go:288-298 | a call with a dead token is a conflict for an existing row and changes no table |
| `NotifyFencing.DeadForever` | backend/internal/notifyoutboxstore/notifyoutboxstore.go:141-145 | a dead token stays dead through every run, tokens being fresh |
| `NotifyFencing.FencedForever` | backend/internal/notifyoutboxstore/notifyoutboxstore.go:431-907 | after any change of the claimed row every later call with the old token, on any row, changes nothing |
| `NotifyFencing.NeverDuplicated` | backend/internal/notifyoutboxstore/notifyoutboxstore.go:353-388 | once a pair has its row it keeps exactly that row, and enqueueing the pair again changes nothing |
| `NotifySchedule.AnswersAsStored` | backend/internal/notifyoutboxstore/notifyoutboxstore.go:288-298 | a call that goes through answers with the row the table then holds; a refused one changes nothing and names its reason |
| `NotifySchedule.DueExactly` | backend/internal/notifyoutboxstore/notifyoutboxstore.go:505-786 | over every run, from the step that set an entry's due time (its first time, a retry's next time, a deferral, a release, a lease end) until some step changes the entry, a claim before that time leaves the tables as they are and a well-formed claim with a new token from then on takes it |
| `NotifySchedule.DueLater` | backend/internal/notifyoutboxstore/notifyoutboxstore.go:612-786 | a lease ends after it began, and a deferral is for later but never past the expiry |
| `NotifySchedule.HolderExactly` | backend/internal/notifyoutboxstore/notifyoutboxstore.go:431-907 | until some step changes a claimed entry, every well-formed call with the claim's token goes through, but for expiring it early and putting it off past its expiry |
| `NotifySchedule.UnclaimedExactly` | backend/internal/notifyoutboxstore/notifyoutboxstore.go:539-611 | an entry nobody has claimed since it was enqueued or put back can be canceled, and expired exactly from its expiry on |
| `NotifySchedule.EndedExactly` | backend/internal/notifyoutboxstore/notifyoutboxstore.go:431-907 | over every run an entry is sent, expired, canceled or dead-lettered if and only if some step of the run that ends entries so went through on it |
| `NotifySchedule.ExpiryIsLate` | backend/internal/notifyoutboxstore/notifyoutboxstore.go:539-570 | no step expires an entry before its expiry |
| `NotifySchedule.EntriesAreRightful` | backend/internal/notifyoutboxstore/notifyoutboxstore.go:353-388 | over every run each entry is for a matched event and a device owned by the entry's user |
| `NotifySchedule.EnqueueExactly` | backend/internal/notifyoutboxstore/notifyoutboxstore.go:353-388 | enqueueing goes through exactly for well-formed input and a matched event, and for a pair without a row only for the device's owner; the new row is pending, unclaimed, untried and due at the first time |
| `NotifyAudit.RecordedBalances` | backend/internal/notifyoutcome/notifyoutcome.go:96-312 | a recorded transition and its audit row keep the books of one entry balanced if and only if the row says what was done |
| `NotifyAudit.UnrecordedBalances` | backend/internal/notifyoutboxstore/notifyoutboxstore.go:551-830 | the transitions without an audit row keep them balanced too |
| `NotifyAudit.StepKeepsAudited` | backend/internal/notifyoutcome/notifyoutcome.go:116-312 | every step that records its outcome keeps all books balanced |
| `NotifyAudit.PlannedIsNext` | backend/internal/notifyattempt/notifyattempt.go:128-136 | the number planned from the claimed entry is one more than the rows recorded so far |
| `NotifyAudit.StepKeepsNumbered` | backend/internal/notifyattempt/notifyattempt.go:128-136 | every such step keeps each entry's attempts numbered without gap or repeat |
| `NotifyAudit.BooksAlwaysBalance` | backend/internal/notifyoutcome/notifyoutcome.go:96-312 | conservation over every run: as many rows as attempts counted, all failures, but for an entry whose end was recorded, whose last row carries the outcome it ended with and is one more exactly if that is sent or canceled |
| `NotifyAudit.EndingIsEndedBy` | backend/internal/notifyoutcome/notifyoutcome.go:96-312 | an entry has ended with a recorded outcome if and only if a recording transaction of the run went through on it with that outcome |
| `NotifyAudit.ExtraRowExactly` | backend/internal/notifyoutcome/notifyoutcome.go:116-176 | over every run there is one row more than attempts counted if and only if a recording of sent or of canceled went through on the entry, else equally many |
| `NotifyAudit.LastRowExactly` | backend/internal/notifyoutcome/notifyoutcome.go:96-312 | over every run the last row carries an outcome other than failed if and only if a recording with that outcome went through on the entry |
| `NotifyAudit.CanceledExactly` | backend/internal/notifyoutcome/notifyoutcome.go:144-176 | a canceled entry has the extra row if and only if RecordCanceled canceled it |
| `NotifyAudit.ExpiredExactly` | backend/internal/notifyoutcome/notifyoutcome.go:178-220 | an expired entry ends in an expired row if and only if RecordFailedAttempt went through on it at or after its expiry |
| `NotifyAudit.NumbersAlwaysContiguous` | backend/internal/notifyattempt/notifyattempt.go:128-136 | over every run an entry's audit rows are numbered 1, 2, 3, ..., whatever other workers do |
| `NotifyAudit.AttemptsBounded` | database/migrations/000010_notification_relay_foundation.sql:203-224 | over every run an entry never has more audit rows than allowed attempts, and a sent or canceled row carries the count plus one |
| `NotifyAudit.HonestyIsNeeded` | backend/internal/notifyoutcome/notifyoutcome.go:110-312 | a recording that goes through keeps the books balanced if and only if the audit row is about that entry and says what was done; the recorder checks neither |
| `NotifyAudit.LogIsSound` | backend/internal/notifydeliverystore/notifydeliverystore.go:170-188 | over every run, disciplined or not, the audit log only grows, and each of its rows is valid and about an entry of the outbox, event and device included |
| `NotifyAudit.RecordingExactly` | backend/internal/notifyoutcome/notifyoutcome.go:116-254 | a recording goes through exactly when its transition does and its row is well formed and about an entry; a failed attempt's own outcome does not matter |
| `NotifyPreferences.EvaluateIsFirstClosed` | backend/internal/notifypreferences/notifypreferences.go:292-393 | the evaluation is the first closed gate in the fixed order, and eligible only when all nine are open |
| `NotifyPreferences.QuietHoursWrap` | backend/internal/notifypreferences/notifypreferences.go:230-274 | quiet hours wrap around midnight: inside exactly when less far past the start than the end is |
| `NotifyPreferences.QuietHoursUnset` | backend/internal/notifypreferences/notifypreferences.go:230-274 | no quiet hours, no quiet; half-set ones or an unknown zone leave the question without an answer, exactly then |
| `NotifyPreferences.InvalidInputIsInput` | backend/internal/notifypreferences/notifypreferences.go:174-200 | the input error is answered exactly for a missing clock, user or device, an unknown channel, both or neither id, a malformed one, or a confidence outside nought to one |
| `NotifyPreferences.RevokedIsNeverEligible` | backend/internal/notifypreferences/notifypreferences.go:319-329 | a revoked or missing registration is never eligible |
| `NotifyAttempt.PlanExactly` | backend/internal/notifyattempt/notifyattempt.go:158-251 | when a plan exists, which number it takes, and that it sends exactly what is eligible |
| `NotifyAttempt.NeverSendsToRevoked` | backend/internal/notifyattempt/notifyattempt.go:225-251 | no plan sends to a revoked device |
| `NotifyWorker.WorkerIsDisciplined` | backend/internal/notifyworker/notifyworker.go:315-602 | the worker's next step presents its token, records honestly and with the planned number, whatever it read on the way |
| `NotifyWorker.UnauthorizedSilencesDevice` | backend/internal/notifyoutcome/notifyoutcome.go:281-312 | after an unauthorized outcome no plan in any later state of the run sends to that device |
| `NotifyWorker.SendsExactlyEligible` | backend/internal/notifyworker/notifyworker.go:315-602 | the worker takes a step that follows a send exactly when it was answered and the evaluation said eligible, and then the one for the relay's answer, about this entry and by this claim; it cancels exactly on a refusal other than quiet hours |
| `NotifyWorker.DefersExactly` | backend/internal/notifyworker/notifyworker.go:330-436 | an entry whose device may not be sent to, or whose user has quiet hours, is put off to the recheck time or its expiry, whichever is first; one past planning is expired; without an answer nothing is done |
| `NotifyWorker.UnauthorizedSilencesWorkers` | backend/internal/notifyoutcome/notifyoutcome.go:281-312 | after an unauthorized outcome no step of any worker, in any later state of the run, follows a send to that device |
| `NotifyBackoff.DelayExactly` | backend/internal/notifyworker/notifyworker.go:604-631 | the delay is the doubling schedule up to its ceiling, or a longer hint, if and only if the product fits into 64 bits, or wraps around to something out of range or not below the ceiling, or a hint hides it |
| `NotifyBackoff.WrapsExactly` | backend/internal/notifyworker/notifyworker.go:612-623 | a product is kept as the one number in the 64-bit range that differs from it by a multiple of 2^64 |
| `NotifyBackoff.ShortBasesNeverOverflow` | backend/internal/notifyworker/notifyworker.go:617-625 | with a base below 2^43 nanoseconds no attempt ever overflows |
| `NotifyBackoff.ScheduleGrows` | backend/internal/notifyworker/notifyworker.go:604-631 | later attempts wait no less, and none longer than the ceiling |
| `NotifyBackoff.ScheduleStarts` | backend/internal/notifyworker/notifyworker.go:604-631 | the first attempts wait the base, twice and four times the base |
| `NotifyBackoff.LongBaseWrapsAround` | backend/internal/notifyworker/notifyworker.go:617-625 | a base of 2^44 + 1 nanoseconds wraps around at the twenty-first attempt to about a millisecond |
| `AlertNotify.OneMore` | backend/internal/alertnotify/alertnotify.go:176-179 | enqueueing for one more listed device keeps every earlier row and delivers that device's row, or an input error exactly when the event is not acceptable; the owner check never refuses it |
| `AlertNotify.Service.EnqueueMatchedEvent` | backend/internal/alertnotify/alertnotify.go:162-181 | one result per active test device in order: its row if the event is acceptable, an input error and no new row if not, unavailable at any time; old rows untouched, new rows only for active test devices that had none, outer errors in their order |
| `AlertNotify.RowStays` | backend/internal/alertnotify/alertnotify.go:150-181 | over any run, a device that got its row in a fan-out has exactly that row in every later state |
| `AlertNotify.EnqueueAgain` | backend/internal/alertnotify/alertnotify.go:150-181 | a later enqueue for such a device changes nothing, in every interleaving |
| `AlertNotify.FanOutAgain` | backend/internal/alertnotify/alertnotify.go:150-181 | a fan-out repeated in any later state of a run adds rows only for devices that got none the first time, answers with the same rows for the others, and leaves the table as it is if all got theirs |
| `DeviceRegistry.ApplyKeepsInv` | backend/internal/notifydevices/notifydevices.go:249-387 | register, replace and revoke keep one active registration per endpoint and forward, unshared supersession links |
| `DeviceRegistry.HolderIsUnique` | backend/internal/notifydevices/notifydevices.go:229-236 | the scan finds the same registration in whatever order it searches |
| `DeviceRegistry.ApplyPersists` | backend/internal/notifydevices/notifydevices.go:249-387 | no operation changes an owner, a creation time or a revoked registration |
| `DeviceRegistry.RunInv` | backend/internal/notifydevices/notifydevices.go:249-387 | the invariant holds in every state of every run |
| `DeviceRegistry.RevokedForGood` | backend/internal/notifydevices/notifydevices.go:366-387 | once revoked a registration stays exactly as it was for the rest of the run |
| `DeviceRegistry.ChainsEnd` | backend/internal/notifydevices/notifydevices.go:342-357 | every supersession chain ends, within one user, and only its end can be active |
| `DeviceRegistry.RegisterExactly` | backend/internal/notifydevices/notifydevices.go:249-285 | registering goes through unless someone else holds the endpoint, and then exactly that registration is bound as asked, an old one keeping its birth and test mode |
| `DeviceRegistry.ReplaceExactly` | backend/internal/notifydevices/notifydevices.go:306-357 | exactly when replacing goes through, updates in place or supersedes, and what each registration then is |
| `DeviceRegistry.RevokeExactly` | backend/internal/notifydevices/notifydevices.go:366-387 | revoking goes through on the user's own registration, and only the first revocation leaves a trace |
| `NotifyDevices.ComplaintIsFirst` | backend/internal/notifydevices/notifydevices.go:101-109 | the complaint is the first check that fails, in order |
| `NotifyDevices.EndpointsExactly` | backend/internal/notifydevices/notifydevices.go:114-126 | which endpoints are taken, character by character, up to what the URL parser makes of the rest |
| `NotifyDevices.KeySpellings` | backend/internal/notifydevices/notifydevices.go:130-151 | a key spelled with or without padding decodes to the same bytes |
| `NotifyDevices.Store.ActiveByEndpoint` | backend/internal/notifydevices/notifydevices.go:229-236 | the unordered scan answers with the holder of the endpoint |
| `NotifyDevices.Store.Register` | backend/internal/notifydevices/notifydevices.go:249-285 | the first complaint in order and no change, or the registry's outcome with exactly one row rewritten |
| `NotifyDevices.Store.Replace` | backend/internal/notifydevices/notifydevices.go:306-357 | the first complaint, or update in place, refusal, or supersession; all other rows stay |
| `NotifyDevices.Store.Revoke` | backend/internal/notifydevices/notifydevices.go:366-387 | not found, forbidden, idempotent success, or the revocation time set |
| `NotifyDevices.Store.Get` | backend/internal/notifydevices/notifydevices.go:394-399 | the registration of that id, active or not |
| `NotifyDevices.Store.ListActive` | backend/internal/notifydevices/notifydevices.go:404-415 | every active registration of the user exactly once |
| `NotifyDeviceStore.EncodedKeyDecodes` | backend/internal/notifydevicestore/notifydevicestore.go:181-186 | re-encoded key bytes decode to themselves |
| `NotifyDeviceStore.ScanNeverCorrupt` | backend/internal/notifydevicestore/notifydevicestore.go:642-681 | the corruption error is unreachable, and the row read back is the device the memory store would hold |
| `NotifyDeviceStore.OrderIsTotal` | backend/internal/notifydevicestore/notifydevicestore.go:559-628 | the listing order is total: two sorted answers with the same rows are equal |
| `NotifyDeviceStore.Postgres.Register` | backend/internal/notifydevicestore/notifydevicestore.go:240-290 | the single upsert has the registry's outcome, or the table's own refusals, or is unavailable |
| `NotifyDeviceStore.Postgres.Replace` | backend/internal/notifydevicestore/notifydevicestore.go:337-435 | the transaction has the registry's outcome or leaves the table as it was |
| `NotifyDeviceStore.Postgres.Revoke` | backend/internal/notifydevicestore/notifydevicestore.go:462-502 | idempotent; not found, forbidden or the first revocation time |
| `NotifyDeviceStore.Postgres.Get` | backend/internal/notifydevicestore/notifydevicestore.go:511-533 | the stored row re-encoded, or none |
| `NotifyDeviceStore.Postgres.ListActive` | backend/internal/notifydevicestore/notifydevicestore.go:559-589 | the user's active registrations, each re-encoded, none older than the one behind it |
| `NotifyDeviceStore.Postgres.ListActiveTestMode` | backend/internal/notifydevicestore/notifydevicestore.go:601-628 | the same across all users for active test devices |
| `DeviceRefinement.RegisterRefines` | backend/internal/notifydevicestore/notifydevicestore.go:240-290 | both stores answer Register alike and stay alike up to ids, if and only if the stated condition on clock, scheme, holder and user holds |
| `DeviceRefinement.UpperCaseSchemeDiverges` | database/migrations/000010_notification_relay_foundation.sql:56-59 | a concrete endpoint, HTTPS://a, that the memory store takes and the table refuses |
| `DeviceRefinement.ReplaceRefines` | backend/internal/notifydevicestore/notifydevicestore.go:337-435 | the same for Replace, with its exact condition |
| `DeviceRefinement.RevokeRefines` | backend/internal/notifydevicestore/notifydevicestore.go:462-502 | the same for Revoke, with its exact condition |
| `DeviceRefinement.ReadsRefine` | backend/internal/notifydevicestore/notifydevicestore.go:511-589 | corresponding lookups find the same registration and the active lists hold the same ones |
| `DeviceRefinement.GetRefines` | backend/internal/notifydevicestore/notifydevicestore.go:511-534 | both stores answer Get alike, absent or the same registration with the same owner, endpoint, decoded keys and times, if and only if the id is positive |
| `DeviceRefinement.ListRefines` | backend/internal/notifydevicestore/notifydevicestore.go:560-589 | both stores answer ListActive alike, the same registrations and equally many, if and only if the user is positive |
| `DeviceRefinement.LookupsDivergeAtZero` | backend/internal/notifydevicestore/notifydevicestore.go:515-517 | id 0 and user 0 are merely not found in memory and refused by the table |
| `DeviceRefinement.GetIsLookup` | backend/internal/notifydevicestore/notifydevicestore.go:511-534 | what a run's lookup answers is what Get reads from the rows of either store |
| `DeviceRefinement.ListIsListing` | backend/internal/notifydevicestore/notifydevicestore.go:560-589 | what a run's listing answers is what ListActive reads from the rows of either store, each registration once |
| `DeviceRefinement.RunRefines` | backend/internal/notifydevicestore/notifydevicestore.go:240-589 | over any sequence of Register, Replace, Revoke, Get and ListActive calls from related stores, all answers are alike if and only if every call was compatible, and then the stores are still related |
| `DeviceRefinement.RegisterBoth` | backend/internal/notifydevicestore/notifydevicestore.go:240-290 | the two stores driven in lockstep agree exactly under that condition and stay related |
| `DeviceRefinement.ReplaceBoth` | backend/internal/notifydevicestore/notifydevicestore.go:337-435 | likewise for Replace |
| `DeviceRefinement.RevokeBoth` | backend/internal/notifydevicestore/notifydevicestore.go:462-502 | likewise for Revoke |
| `DeviceRefinement.GetBoth` | backend/internal/notifydevicestore/notifydevicestore.go:511-534 | the two stores asked in lockstep agree exactly when the id is positive |
| `DeviceRefinement.ListActiveBoth` | backend/internal/notifydevicestore/notifydevicestore.go:560-589 | the two stores asked in lockstep agree exactly when the user is positive |
| `IdentityRuns.StepOnUser` | backend/internal/identitystore/lifecycle.go:15-200 | the only ways any operation can change an account, with the condition of each |
| `IdentityRuns.MatrixExactly` | backend/internal/identity/identity.go:126-173 | every operation moves a status along the matrix if and only if it is not the redemption of an unexpired invitation of an expired account |
| `IdentityFrames.StepInvitations` | backend/internal/identitystore/invitations.go:22-181 | the only ways an operation can change the invitations |
| `IdentityFrames.StepResets` | backend/internal/identitystore/passwordresets.go:24-146 | the only ways an operation can change the resets |
| `IdentityFrames.StepSessions` | backend/internal/identitystore/sessions.go:17-201 | no operation changes a session's owner, digest or ceiling, or revives a revoked one; only a login adds one; digests stay unique |
| `IdentityFrames.RevokeAllEffect` | backend/internal/identitystore/lifecycle.go:31-38 | a bulk revocation ends all of an account's sessions, and the ones counted are exactly the ones it changes |
| `IdentityFrames.BulkRevocation` | backend/internal/identitystore/lifecycle.go:31-83 | which operations revoke all of an account's sessions, and that they do so exactly when they succeed |
| `IdentityFrames.StepCredentials` | backend/internal/identitystore/mfa.go:47-88 | credentials are only ever added, by an enrolment that was not refused |
| `IdentitySafety.StepKeepsPasswords` | database/migrations/000008_identity_foundation.sql:47-50 | no operation leaves an active account without a password hash |
| `IdentitySafety.StepKeepsExpiredLapsed` | backend/internal/identitystore/lifecycle.go:110-131 | an expired account never has an invitation that could still be redeemed, as long as the clock does not go back |
| `IdentitySafety.StepKeepsTokens` | database/migrations/000008_identity_foundation.sql:78-100 | at most one pending row per user and table, and used-up rows never change |
| `IdentitySafety.StepKeepsEmails` | database/migrations/000008_identity_foundation.sql:13-19 | an email never belongs to two accounts |
| `IdentitySafety.StepKeepsInv` | backend/internal/identitystore/lifecycle.go:15-200 | all of these together survive every operation |
| `IdentitySafety.StatusFollowsMatrix` | backend/internal/identity/identity.go:126-173 | every status change in every run under a nondecreasing clock is in the transition matrix |
| `IdentitySafety.ClockMustNotGoBack` | backend/internal/identitystore/invitations.go:68-73 | a concrete run whose clock goes back and in which an expired account is redeemed |
| `IdentityExceptions.SuspendedOwnsPending` | backend/internal/identitystore/invitations.go:68-73 | a suspended account can own a pending invitation and be redeemed, contrary to the comment there |
| `IdentityExceptions.OnlyInvitedPendingExactly` | backend/internal/identitystore/invitations.go:68-73 | a step keeps it that only invited accounts own pending invitations, if and only if it neither suspends or disables the owner of one nor is a successful administrative reset |
| `IdentityExceptions.OnlyInvitedPendingThroughout` | backend/internal/identitystore/invitations.go:68-73 | it holds throughout a run if and only if no step of the run is one of those |
| `IdentityExceptions.AdministratorsEnrolledExactly` | backend/internal/identitystore/lifecycle.go:89-200 | a step keeps every active administrator enrolled in a second factor, if and only if it neither bootstraps, promotes nor restores one without |
| `IdentityExceptions.PromotionSkipsEnrolment` | backend/internal/identitystore/lifecycle.go:171-200 | a concrete promotion that breaks it |
| `IdentityExceptions.AdministratorsEnrolledThroughout` | backend/internal/identitystore/lifecycle.go:89-200 | it holds throughout a run if and only if no step of the run is one of those |
| `IdentityExceptions.SessionsBehindActiveExactly` | backend/internal/identitystore/invitations.go:22-78 | a step keeps an active owner behind every unrevoked session, if and only if it does not redeem an invitation of a logged-in account |
| `IdentityExceptions.SessionsBehindActiveThroughout` | backend/internal/identitystore/invitations.go:22-78 | it holds throughout a run if and only if no step of the run is one of those |
| `IdentityExceptions.RedeemingLeavesSession` | backend/internal/identitystore/invitations.go:22-78 | a concrete run from one active account to such a redemption |
| `IdentitySafety.NewUsers` | backend/internal/identitystore/users.go:49-85 | an account comes to be in two ways only: invited without a password, or bootstrapped as active with one |
| `IdentitySafety.ActiveWasRequired` | backend/internal/identity/identity.go:119-121 | no account created with an invitation is ever active, or has a password, without having been in password-change-required |
| `IdentitySafety.FirstActivation` | backend/internal/identity/identity.go:119-121 | the first time an account of a run is active it has been in password-change-required if and only if an invitation created it; the bootstrapped ones are active at once |
| `IdentitySafety.BootstrapExactly` | backend/cmd/bootstrap-admin/run.go:147-207 | given an up-to-date count, the bootstrap succeeds exactly on an empty table with valid input |
| `IdentitySafety.BootstrapWorksOnce` | backend/cmd/bootstrap-admin/run.go:77-79 | after one bootstrap every later one with an up-to-date count is refused and changes nothing, over any run |
| `IdentitySafety.LaterBootstrapExactly` | backend/cmd/bootstrap-admin/run.go:171-205 | a bootstrap that counts in one state of a run and inserts in a later one creates an account that is not the first, if and only if there was none when it counted, some step in between created one, and its input is valid and its email unused |
| `IdentitySafety.StaleCountBootstraps` | backend/cmd/bootstrap-admin/run.go:171-205 | with a count that is out of date a second administrator is inserted |
| `IdentitySafety.ActivationGate` | backend/internal/identitystore/users.go:199-222 | password-change-required becomes active only with a password and, for an administrator, a credential |
| `IdentityProgress.ActivatesExactly` | backend/internal/identitystore/users.go:199-222 | the other half of the gate: an enrolment, EstablishPassword or CompletePasswordReset that goes through on an account in password-change-required leaves it active if and only if its role needs no second factor or it now holds one |
| `IdentityProgress.EstablishExactly` | backend/internal/identitystore/users.go:159-189 | exactly when it goes through; the answer is the status the table then holds |
| `IdentityProgress.EnrollExactly` | backend/internal/identitystore/mfa.go:47-88 | exactly when it goes through; the account is active from then on, and that is the answer |
| `IdentityProgress.CompletionAchieves` | backend/internal/identitystore/passwordresets.go:86-146 | password set, the account activated if nothing is missing, all its sessions ended, nothing else touched |
| `IdentityProgress.MatrixByTarget` | backend/internal/identity/identity.go:126-173 | the transition matrix read by where a transition leads |
| `IdentityProgress.SuspendAndDisableExactly` | backend/internal/identitystore/lifecycle.go:43-83 | suspending goes through on any account not suspended, disabling on any not disabled, and both end all its sessions |
| `IdentityProgress.RestoreExactly` | backend/internal/identitystore/lifecycle.go:89-136 | active if and only if there is a password, whatever the role; invited if and only if there is none and an unexpired invitation is pending; else expired |
| `IdentityProgress.ChangeRoleExactly` | backend/internal/identitystore/lifecycle.go:171-200 | exactly when it goes through; the answer is the role and scope the account had before |
| `IdentityProgress.CreateExactly` | backend/internal/identitystore/users.go:49-85 | creating goes through exactly on valid input, an unused email, a known creator and a new digest |
| `IdentityProgress.ResendExactly` | backend/internal/identitystore/invitations.go:86-126 | resending goes through exactly for an invited or expired account, a known issuer and a new digest |
| `IdentityProgress.InvitationWorksUntil` | backend/internal/identitystore/invitations.go:22-78 | over any run an issued invitation redeems exactly before its expiry, until it is tried or another is issued to the account |
| `IdentityProgress.RedeemAnswers` | backend/internal/identitystore/invitations.go:22-78 | what each answer of a redemption means for invitation and account, a lapsed one marked so |
| `IdentityProgress.RequestExactly` | backend/internal/identitystore/passwordresets.go:24-77 | a reset is issued exactly to an active or password-change-required account with a new digest and a known issuer; any other email gets the same answer with nothing issued |
| `IdentityProgress.ResetWorksUntil` | backend/internal/identitystore/passwordresets.go:86-146 | over any run an issued reset completes exactly before its expiry and for an account that may reset, until it is tried or another is issued |
| `IdentityTokens.AtMostOnePending` | backend/internal/identitystore/invitations.go:86-181 | at most one pending invitation and one pending reset per user in every reachable state |
| `IdentityTokens.RedeemExactly` | backend/internal/identitystore/invitations.go:22-78 | a redemption succeeds exactly on a pending, unexpired invitation and uses it up |
| `IdentityTokens.ResetExactly` | backend/internal/identitystore/passwordresets.go:86-146 | the exact condition under which a reset completes, and that it uses the token up |
| `IdentityTokens.AdminResetExactly` | backend/internal/identitystore/invitations.go:136-181 | the exact condition, checkable before the call, under which an administrative reset succeeds |
| `IdentityTokens.RefusedResetChangesNothing` | backend/internal/identitystore/passwordresets.go:100-134 | a reset refused for any reason but expiry leaves every table, its token included, as it was |
| `IdentityTokens.InvitationWorksOnce` | backend/internal/identitystore/invitations.go:22-78 | after a redemption every later one of that token in the run is refused and changes nothing |
| `IdentityTokens.ResetWorksOnce` | backend/internal/identitystore/passwordresets.go:86-146 | the same for reset tokens |
| `IdentityTokens.ReissueKillsEarlier` | backend/internal/identitystore/invitations.go:86-181 | after a resend or an administrative reset every earlier invitation of the account fails forever |
| `IdentityTokens.KilledForGood` | backend/internal/identitystore/lifecycle.go:31-83 | every session an account had when it was suspended, disabled, reset or logged out everywhere fails to resolve ever after |
| `IdentityTokens.NeverPastCeiling` | backend/internal/identitystore/sessions.go:156-174 | no session resolves at or past the expiry it was created with, whatever was done to it |
| `IdentityProgress.ResolvesExactly` | backend/internal/identitystore/sessions.go:63-124 | over any run a login's digest resolves to its session if and only if it was not revoked, it was last seen less than the idle timeout ago, its ceiling is not reached and its owner is active at that moment |
| `IdentityProgress.TimesExactly` | backend/internal/identitystore/sessions.go:126-174 | over any run a session was last seen at its login or its last successful touch, and second-factor verified at its last successful mark |
| `IdentityProgress.CreateSessionExactly` | backend/internal/identitystore/sessions.go:17-40 | exactly when a login goes through, and the session it creates |
| `IdentityProgress.RevokeSessionExactly` | backend/internal/identitystore/sessions.go:179-189 | ending a session leaves all others alone and an ended one its first reason |
| `IdentityProgress.RevokeAllForUserExactly` | backend/internal/identitystore/sessions.go:193-201 | every unrevoked session of the account, and their number |
| `IdentityProgress.BootstrapAchieves` | backend/cmd/bootstrap-admin/run.go:127-136 | exactly when it goes through, and that it inserts an active system administrator with the given hash |
| `IdentityStore.Postgres.CreateUserAndInvite` | backend/internal/identitystore/users.go:49-85 | account and invitation, both or neither, with every refusal in its place |
| `IdentityStore.Postgres.EstablishPassword` | backend/internal/identitystore/users.go:159-189 | hash and, if eligible, activation, in one transaction |
| `IdentityStore.Postgres.Activate` | backend/internal/identitystore/users.go:199-222 | activation only from password-change-required, behind the MFA gate, aborting on the password CHECK |
| `IdentityStore.Postgres.RedeemInvitation` | backend/internal/identitystore/invitations.go:22-78 | redeemed, lapsed, already expired and invalid tokens each get exactly their effect and answer |
| `IdentityStore.Postgres.ResendInvitation` | backend/internal/identitystore/invitations.go:86-126 | the pending invitation superseded, a new one issued, an expired account invited again, or nothing |
| `IdentityStore.Postgres.AdminReset` | backend/internal/identitystore/invitations.go:136-181 | invitation reissued, password cleared, sessions revoked, all or nothing |
| `IdentityStore.Postgres.Suspend` | backend/internal/identitystore/lifecycle.go:43-45 | status and sessions together, or nothing |
| `IdentityStore.Postgres.Disable` | backend/internal/identitystore/lifecycle.go:49-51 | status and sessions together, or nothing |
| `IdentityStore.Postgres.Restore` | backend/internal/identitystore/lifecycle.go:89-136 | active, invited or expired, decided by password and standing invitation |
| `IdentityStore.Postgres.ChangeRole` | backend/internal/identitystore/lifecycle.go:171-200 | role and scope replaced and the prior ones returned |
| `IdentityStore.Postgres.RevokeAllSessions` | backend/internal/identitystore/lifecycle.go:31-38 | exactly the account's unrevoked sessions get the time and reason, and their number is returned |
| `IdentityStore.Postgres.RequestPasswordReset` | backend/internal/identitystore/passwordresets.go:24-77 | a new reset for an account that may reset, silence for any other |
| `IdentityStore.Postgres.CompletePasswordReset` | backend/internal/identitystore/passwordresets.go:86-146 | token, password, activation and sessions together, or nothing but the lapse of an expired token |
| `IdentityStore.Postgres.EnrollMFACredential` | backend/internal/identitystore/mfa.go:47-88 | credential and activation together, aborting on the password CHECK |
| `IdentityStore.Postgres.CreateSession` | backend/internal/identitystore/sessions.go:17-40 | a session only for an active account and a fresh digest |
| `IdentityStore.Postgres.ResolveSession` | backend/internal/identitystore/sessions.go:63-124 | answers with the session and its account exactly when the session is usable and its owner active at that moment |
| `IdentityStore.Postgres.MarkSessionMFAVerified` | backend/internal/identitystore/sessions.go:138-154 | only an unrevoked, unexpired session is marked |
| `IdentityStore.Postgres.TouchSession` | backend/internal/identitystore/sessions.go:159-174 | only an unrevoked session is touched, and only its last-seen time |
| `IdentityStore.Postgres.RevokeSession` | backend/internal/identitystore/sessions.go:179-189 | idempotent revocation of one session |
| `IdentityStore.Postgres.RevokeAllSessionsForUser` | backend/internal/identitystore/sessions.go:193-201 | all unrevoked sessions of the account, and their number |
| `IdentityStore.Postgres.Revoke` | backend/internal/identitystore/lifecycle.go:141-149 | the administrator's revocation of all sessions and their number, without touching the account |
| `IdentityStore.Postgres.CountUsers` | backend/cmd/bootstrap-admin/run.go:112-118 | the number of accounts |
| `IdentityStore.Postgres.Bootstrap` | backend/cmd/bootstrap-admin/run.go:127-136 | the first administrator inserted as active, or refused: invalid input, a count other than zero, an email already taken |
| `AuthRateLimit.MemoryLimiter.EvictIfFull` | backend/internal/authratelimit/authratelimit.go:134-144 | at the bound exactly the least recently touched key is dropped from map and list |
| `AuthRateLimit.MemoryLimiter.Allow` | backend/internal/authratelimit/authratelimit.go:103-127 | one call has exactly the step's effect on map, list and counters, and its verdict |
| `AuthRateLimit.AlwaysConsistent` | backend/internal/authratelimit/authratelimit.go:103-144 | map and list hold the same keys without duplicates, never more than 50,000, with counters in range |
| `AuthRateLimit.NeverTooMany` | backend/internal/authratelimit/authratelimit.go:134-144 | never more than 50,000 keys are tracked, in every run |
| `AuthRateLimit.SlidingWindowBound` | backend/internal/authratelimit/authratelimit.go:103-127 | under a nondecreasing clock any interval no longer than the window holds at most twice MaxAttempts allowed calls of a key never evicted |
| `AuthRateLimit.SlidingWindowBoundIsTight` | backend/internal/authratelimit/authratelimit.go:103-127 | for every policy a run without evictions and under a nondecreasing clock that reaches that bound |
| `AuthRateLimit.DenialNeedsFullRound` | backend/internal/authratelimit/authratelimit.go:103-127 | under a nondecreasing clock a call is denied only after MaxAttempts allowed calls of its key within the last window |
| `AuthRateLimit.DeniedCallsKeepWindow` | backend/internal/authratelimit/authratelimit.go:103-127 | denied calls never move the window |
| `AuthRateLimit.NoLockout` | backend/internal/authratelimit/authratelimit.go:103-127 | a call at or after the window's end is allowed however many were denied before |
| `AuthRateLimit.AlwaysInTouchOrder` | backend/internal/authratelimit/authratelimit.go:115-123 | the list is in order of last touch, at every point of every run |
| `AuthRateLimit.EvictionNeedsManyOthers` | backend/internal/authratelimit/authratelimit.go:134-144 | a key is evicted only after at least 50,000 distinct other keys were touched since its last touch |
| `AddressCandidate.Tokenize` | backend/internal/addresscandidate/extract.go:186-207 | the tokens are exactly the maximal runs of token characters, in order |
| `AddressCandidate.TokenizationUnique` | backend/internal/addresscandidate/extract.go:186-207 | a text has only one such tokenization |
| `AddressCandidate.Trie.Insert` | backend/internal/addresscandidate/extract.go:64-76 | the trie holds the dictionary as before plus the name at the path of its tokens, sharing prefixes |
| `AddressCandidate.Extractor.New` | backend/internal/addresscandidate/extract.go:49-62 | both tries hold exactly their dictionaries |
| `AddressCandidate.Extractor.Search` | backend/internal/addresscandidate/extract.go:96-121 | one descent finds the greatest matching end of its set and merges equal ends |
| `AddressCandidate.BothTries` | backend/internal/addresscandidate/extract.go:93-122 | the two descents find the longest match of the naive specification and all entries reaching it |
| `AddressCandidate.LongestEndIsLongest` | backend/internal/addresscandidate/extract.go:93-122 | the specified end is an end and no later one is |
| `AddressCandidate.Extractor.Extract` | backend/internal/addresscandidate/extract.go:81-134 | extraction through the tries equals the naive specification, and unsafe text yields nothing |
| `AddressCandidate.ExtractionSpans` | backend/internal/addresscandidate/extract.go:129-131 | spans are strictly increasing and disjoint, and evidence is the text of its span |
| `AddressCandidate.ExtractionExact` | backend/internal/addresscandidate/extract.go:81-134 | every candidate is the unique longest match of a supported number, and every such number is emitted unless inside an earlier span |
| `AddressCandidate.CandidatesRead` | backend/internal/addresscandidate/extract.go:129-131 | every candidate reads the text: a token at its start is its house number, and the one dictionary entry spelled by the words up to its end, behind the number for a street and from it for an access road, has its name and kind |
| `AddressCandidate.HousesExactly` | backend/internal/addresscandidate/extract.go:136-146 | a house number is one decimal digit, or a house number with a digit behind it |
| `AddressCandidate.JoinsExactly` | backend/internal/addresscandidate/extract.go:170-184 | which characters may join two words of a name |
| `AddressCandidate.GapsJoin` | backend/internal/addresscandidate/extract.go:170-184 | several of them may stand together, but not none |
| `AddressCandidate.BarriersExactly` | backend/internal/addresscandidate/extract.go:148-165 | a number is supported exactly when no sign, slash or dash stands right before it and no other number without a barrier between |
| `AudioAnalysis.PcmStats.Write` | backend/internal/audioanalysis/pcm.go:34-55 | a chunk is refused as a whole or measured byte by byte, keeping the statistics of what was accepted |
| `AudioAnalysis.PcmStats.Result` | backend/internal/audioanalysis/pcm.go:57-67 | the report is a function of the accepted bytes and of whether any chunk was refused |
| `AudioAnalysis.MeasureAppend` | backend/internal/audioanalysis/pcm.go:40-52 | a byte waits for its partner or completes one sample |
| `AudioAnalysis.AcceptAllMeaning` | backend/internal/audioanalysis/pcm.go:34-39 | whether some chunk was refused depends only on the total length, and without refusal all bytes were accepted |
| `AudioAnalysis.ChunkIndependent` | backend/internal/audioanalysis/pcm.go:34-67 | any split of the bytes gives the same outcome as one call |
| `AudioAnalysis.OutcomeByLength` | backend/internal/audioanalysis/pcm.go:57-67 | too long, odd or empty, or a report: exactly by the total length |
| `AudioAnalysis.MeasureMeaning` | backend/internal/audioanalysis/pcm.go:45-51 | the sample count, and the peak as the largest amplitude, at most 1 |
| `AudioAnalysis.SampleReads` | backend/internal/audioanalysis/pcm.go:42-44 | two bytes are a little-endian two's-complement number |
| `AudioAnalysis.SquaresExactly` | backend/internal/audioanalysis/pcm.go:45-51 | the squares are those of the samples, each two bytes of the stream, over 32768 squared |
| `AudioAnalysis.ByteLimitExactly` | backend/internal/audioanalysis/pcm.go:30-33 | the limit is the longest whole-sample stream that does not last longer than allowed |
| `AudioAnalysis.EnergyBound` | backend/internal/audioanalysis/pcm.go:45-51 | the squares sum to at most samples times the peak squared |
| `AudioAnalysis.ReportBounds` | backend/internal/audioanalysis/pcm.go:64-66 | the root of the mean square is at most the peak, so the minimum taken changes nothing over reals; peak at most 1; milliseconds rounded to within half a millisecond |
| `Base64.RoundTrip` | backend/internal/passwordpolicy/passwordpolicy.go:139-143 | decoding undoes unpadded encoding in both alphabets (sections 3.2 and 4 of RFC 4648) |
| `Base64.QuantumIsBits` | backend/internal/passwordpolicy/passwordpolicy.go:139-143 | three bytes are the four six-bit digits of their 24 bits (section 4 of RFC 4648) |
| `Base64.DigitsAreListed` | backend/internal/passwordpolicy/passwordpolicy.go:139-143 | the digits are the letters and characters of the two alphabets in their order |
| `Base64.LineBreaksAreSkipped` | backend/internal/notifydevices/notifydevices.go:130-135 | a line break anywhere in the text changes nothing, as in Go's decoder |
| `Base64.PaddedRoundTrip` | backend/internal/notifydevices/notifydevices.go:130-135 | decoding undoes padded encoding |
| `Base64.PaddedIsNotRaw` | backend/internal/notifydevices/notifydevices.go:130-135 | what carries padding is not taken for unpadded text |
| `PasswordPolicy.DecodeUndoesEncode` | backend/internal/passwordpolicy/passwordpolicy.go:139-186 | parsing returns the work factors, salt and key that were printed, for all nonempty salts and keys, and the column pattern accepts the text |
| `PasswordPolicy.ReprintIsStable` | backend/internal/passwordpolicy/passwordpolicy.go:139-186 | printing what was parsed and parsing it again changes nothing |
| `PasswordPolicy.DecodesExactlyNonempty` | backend/internal/passwordpolicy/passwordpolicy.go:173-175 | exactly the nonempty salts and keys survive printing and parsing |
| `PasswordPolicy.DecodeUndoesHash` | backend/internal/passwordpolicy/passwordpolicy.go:130-186 | what Hash produced parses to what it used |
| `PasswordPolicy.VerifyHashed` | backend/internal/passwordpolicy/passwordpolicy.go:193-200 | Verify answers exactly whether both passwords derive the same key, so it accepts what Hash produced |
| `PasswordPolicy.NeedsRehashExactly` | backend/internal/passwordpolicy/passwordpolicy.go:207-216 | a fresh hash needs rehashing exactly when a work factor or the key length has been raised |
| `Patterns.EventIdsMatch` | backend/internal/notifyoutboxstore/notifyoutboxstore.go:154-154 | the check of an event id accepts exactly what its regular expression matches |
| `Patterns.TokensMatch` | backend/internal/notifyoutboxstore/notifyoutboxstore.go:164-164 | the same for claim tokens, which are spelled as UUIDs |
| `Patterns.ErrorCodesMatch` | backend/internal/notifydelivery/notifydelivery.go:96-96 | the same for error codes |
| `Patterns.ListIdsMatch` | backend/internal/notifypreferences/notifypreferences.go:133-133 | the same for the ids of tone sets and keyword lists |
| `Patterns.PlatformsMatch` | backend/internal/notifydevices/notifydevices.go:78-78 | the same for platforms, or none |
| `Patterns.HashesMatch` | backend/internal/passwordpolicy/passwordpolicy.go:121-125 | scanning each run as far as it goes accepts exactly the texts that the hash pattern, which is also the column's, matches in any way at all |
| `PasswordPolicy.LeftAloneExactly` | backend/internal/passwordpolicy/passwordpolicy.go:207-216 | a text is left alone exactly when it parses and no factor or key length is below the current one |
| `PasswordPolicy.EncodeReads` | backend/internal/passwordpolicy/passwordpolicy.go:139-148 | the printed text, field by field |
| `PasswordPolicy.OtherVersionsAreRefused` | backend/internal/passwordpolicy/passwordpolicy.go:152-186 | a well-formed text parses if and only if its version is 19 |

## Left out

- NotifyWorker.SendsExactlyEligible: the relay's answer is an argument; the polling loop and the relay itself are not modelled.
- NotifyWorker.WorkerIsDisciplined: speaks of the step a worker chooses, not of when it takes it; timeouts and context cancellation are not modelled.
- NotifyOutboxStore.Postgres.ClaimNextDue: among rows due at the same time any may be chosen, as in SQL; fairness between workers is not modelled.
- NotifyDevices.Store.Register: lengths count characters where Go counts bytes, and the URL after "https://" is judged by a parameter; the same holds for the table store.
- NotifyDeviceStore.Postgres.Register: `updated_at` is whatever the trigger writes; a time is stored as the microsecond it lies in. NotifyOutbox and IdentityTables take the times they are given as whole microseconds.
- NotifyOutcome.Store.RecordSent: the audit row's id and `created_at`, assigned by the database, are not modelled.
- NotifyPreferences.EvaluateIsFirstClosed: confidences are reals, so NaN and infinities are not modelled; membership loops are sequence membership.
- NotifyAudit.BooksAlwaysBalance: holds for runs in which the outbox methods that change an attempt's outcome are only called through the recorder, as the worker does.
- IdentityStore.Postgres.Bootstrap: the confirmation flag, the loopback check, the terminal prompts and the password policy of the command are not modelled; the hash is an argument. The source wraps every insert error alike, the model gives each the class the store would.
- IdentityStore.Postgres.Restore: relies on the partial unique index, stated as a precondition that every operation keeps; so do RequestPasswordReset (unique emails) and ResolveSession (unique digests).
- IdentityStore.Postgres.CreateUserAndInvite: the column checks on the email's grammar and lengths repeat the normalizer's and are not modelled; nor is the credential label.
- IdentityStore.Postgres.ResolveSession: the account view leaves out the last login and the creation time.
- IdentityTokens.KilledForGood: says nothing about sessions created after the revocation.
- AuthRateLimit.SlidingWindowBound: for a key that was never evicted and a clock that does not go back, as the window is kept per tracked key; eviction itself is bounded separately. The lock and `Len` are not modelled.
- AddressCandidate.Extractor.Extract: offsets count characters, not bytes; UTF-8 validity is part of the unsafe-text parameter; loading the embedded dictionary is not modelled.
- AudioAnalysis.ReportBounds: arithmetic is over reals, the root mean square is given by its square, rounding is not modelled; the fingerprint is the sequence of bytes hashed; the limit is computed exactly instead of through floating-point seconds.
- PasswordPolicy.VerifyHashed: Argon2id is a parameter and timing is not modelled; the random salt is an argument.
- Listing of sessions, credentials and users, login bookkeeping, the identity audit log, consent history and preference storage would only add reads and appends.
- HTTP handlers, configuration, the other command-line tools, FFmpeg and transcription processes, the record_alert_detection cooldown and the web application are outside this model.
- Integer widths are modelled in PasswordPolicy, Base64, AudioAnalysis and NotifyBackoff; database ids and counters are unbounded.
