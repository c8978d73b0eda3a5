# Verified model of inventree-mcp's stateful cores

This project models, in Dafny, the parts of inventree-mcp whose correctness depends on more than one function: the
journalled self-update, the batch executor and its confirmation stores, the OAuth session machinery, and five compact
algorithms (the filtered scan-history walk, the stock-delta redactor, the resistor band encoder, the resolution of
`X-Forwarded-For`, and the porcelain version output). Check everything with `dafny verify dfyconfig.toml`.

Where the program updates state in place the model does too: classes with the program's fields, or loops with
invariants, each proved against a specification function. Whole-run properties are lemmas about those functions.

- **Self-update** (`JournalModel`, `UpdateDirectory`, `SelfUpdate`, `Install`, `UpdateRuns`). The directory is a map from
  names to files. Each operation of `UpdateDirectory.Directory` is one system call; a set of operation numbers says which
  of them fail, and `states` remembers every state the directory has been in, so a crash is a choice among these states.
  `Logical` reads the installed pair (the executable, and the one before it) out of any directory: an uncommitted journal
  stands for its backups, everything else for what is visible. Every step keeps this pair except the one that publishes
  the committed journal. `RecoveredFiles` says what a recovery makes of any directory, file by file. `Survive` then plays any list of runs, each with its own failures and perhaps a crash.
- **Batch execution** (`BatchExecute`). The goroutines of `Execute` as a state machine: one slot per item, any slot that
  can move may move next, cancellation and the passing of time may come between any two steps.
- **Confirmation stores** (`TokenTable`, `BatchStore`, `AddressPlanStore`, `StoreRefinement`). `TokenTable` says what
  issuing and consuming mean; the generic two-pass store and the hand-fused one-pass store are both proved to compute
  exactly that, whatever order they walk their map in, and are run in lockstep.
- **OAuth** (`CodeStores`, `ReplayStores`, `OAuthTypes`, `OAuthService`, `SetupChain`, `SetupRuns`, `RateLimiter`). Envelopes are ideal
  sealed values that open under the associated data they were sealed with. Every reading of the clock is a parameter of
  its own, so properties that need two readings to agree say so. `SetupRuns` interleaves requests: a submission arrives and
  is answered in two steps, with any steps of other requests between them.
- **Algorithms** (`ScanHistory`, `StockDeltas`, `ResistorBands`, `SourceAddress`, `Porcelain`, with `Text` for splitting).

## What the model found

These are properties that one might expect and that the code does not have, each with the exact condition and an input.

- *A recovery that leaves its journal.* When flushing the directory fails right after the rollback's committed journal
  has been renamed into place, recovery reports success although the journal, and the backup it lists, are still there.
  `SelfUpdate.RecoverInterruptedUpdate`: after a reported success the journal is left if and only if an update was under
  way and that one operation fails, whose number `RecoveryFlush` computes from the journal. `JournalOutlivesRecovery` lets
  only this operation fail, on any directory with an update under way (`InterruptedIsRecoverable` is one, with
  operation 19). The pair is the right one either way, and the next recovery cleans up.
- *Temporary files no journal lists.* `JournalModel.TempIsLeftExactly`: recovery leaves a temporary file if and only if it
  was there and the journal does not list it. `UpdateRuns.StagingFileOutlivesRecovery`: a run that dies right after
  creating its staging file, in any directory without temporary files, leaves one that recovery keeps.
- *More that is not there.* `ScanHistory.FalseAlarmExactly`: in a walk that no byte or time cutoff ends, `hasMore` is set
  although everything has been returned if and only if the page budget does not cover upstream, what matches fits the
  limit, and no match past the offset lies beyond those pages. `PageBudgetFalseAlarm` is such a walk, over rows of which none
  match. (The comment above the walk names only the byte and time budgets as conservative.) Conversely, "no more"
  can be believed by every caller the program has (`ToolCanBelieveNoMore`), since the page depth they pass is positive;
  the function itself, called for no pages, can hide a match (`NoMoreMeansAll`, `NoPagesHideAMatch`).
- *A confirmation token lost before its time.* Both confirmation stores read the clock before they take their lock, so a
  request that read it later may enter first and drop entries that a slower request still finds unexpired.
  `TokenTable.PromiseIsKeptExactlyWhenReadInTime`: an unexpired, unused token is honoured if and only if every operation
  since its grant has read the clock before its expiry; `LateReadingLosesAPromise` is a run that loses one. Single use
  needs nothing of the clock.
- *Replay of a client assertion.* `Use` checks the expiry with a clock reading taken before the lock and purges with one
  taken after it. `ReplayStores.ReplayAcceptedExactlyWhenStraddling`: a second presentation is accepted if and only if the
  assertion expires between these two readings, its entry has been purged and there is room; `StraddlingReplay` is such a run.
- *Identity records in lists.* Redaction looks for identity records directly under keys.
  `StockDeltas.IdentityIsLeftExactly`: an object that is left is an identity record if and only if it is the root or an
  element of a list and had an identity key to keep; `ListedIdentityIsKept` is an example.
- *The zero instant.* A limiter window started at the zero `time.Time` looks like an absent entry, so every call at that
  instant is allowed (`RateLimiter.BoundedExactlyOffZero`, `ZeroInstantIsUnlimited`), and a token whose issue time or
  session end is the zero instant is refused (`OAuthService.UsableExactlyInLifetime`, `TokenOfZeroInstantIsRefused`). Both
  need an injected clock: the default one never reads the zero instant.

## Model

| member | source | states |
|---|---|---|
| JournalModel.TempIsHarmless | internal/selfupdate/install.go:223-332 | a temporary file that no journal lists changes neither the visible pair, nor the journal, nor the pair the directory stands for |
| JournalModel.LogicalPair | internal/selfupdate/install.go:570-640 | an uncommitted journal stands for the contents of its backups at the modes it records, and any other directory for what is visible |
| JournalModel.UpdatedPair | internal/selfupdate/install.go:361-381 | an update gives the new image the old mode and makes the old executable the previous one |
| JournalModel.RecordedModesAreAccepted | internal/selfupdate/install.go:213-220 | whatever mode the check of a target accepts, a rollback accepts when it reads it back |
| JournalModel.ModesAtWork | internal/selfupdate/ownership_unix.go:40-45 | modes that both checks accept and modes that both refuse |
| JournalModel.VersionsAreOrdered | internal/selfupdate/selfupdate.go:178-215 | versions are strictly ordered, the major number before the minor and that before the patch |
| JournalModel.JournalStartsUpdate | internal/selfupdate/install.go:344-360 | once everything is staged, writing the journal keeps the pair (the backups hold it from here on), and the modes it records are ones recovery accepts |
| JournalModel.InProgressPut | internal/selfupdate/install.go:615-639 | under an uncommitted journal, overwriting either visible file does not change the pair the directory stands for |
| JournalModel.InProgressMove | internal/selfupdate/install.go:361-378 | under an uncommitted journal, renaming a staged file into view does not change the pair the directory stands for |
| JournalModel.CommitSettles | internal/selfupdate/install.go:382-384 | publishing the committed journal makes the visible pair the one the directory stands for, with no update under way |
| JournalModel.UndisturbedWithout | internal/selfupdate/install.go:228-332 | removing any of the files created since the update began disturbs nothing that was there before |
| JournalModel.NothingElseChanged | internal/selfupdate/install.go:576-657 | a directory that differs from an earlier one only in the visible files and in files that are gone is the earlier one without these, showing its pair |
| JournalModel.TempIsLeftExactly | internal/selfupdate/install.go:576-590 | recovery leaves a temporary file if and only if it was there and the journal does not list it |
| JournalModel.RecoveryIsIdempotent | internal/selfupdate/install.go:525-574 | a recovered directory is settled, has no journal, and a second recovery changes nothing |
| UpdateDirectory.Directory.CreateTemp | internal/selfupdate/install.go:223-227 | a new private, empty file under an unused name of its role, or no change |
| UpdateDirectory.Directory.Write | internal/selfupdate/install.go:237-239 | the content is written whole, and a torn file is among the states a crash can leave |
| UpdateDirectory.Directory.Rename | internal/selfupdate/install.go:361-363 | the target becomes the source and the source is gone, in one step, or nothing changes |
| UpdateDirectory.Directory.Remove | internal/selfupdate/install.go:587-589 | the file is gone, or nothing changes |
| SelfUpdate.CloneToTemp | internal/selfupdate/install.go:398-443 | on success a new file with the source's content and the given mode; in every state on the way at most one temporary file more than before |
| SelfUpdate.PublishTransaction | internal/selfupdate/install.go:485-516 | every state on the way has the old journal or the whole new one; a refusal has left the old one, a missing flush the new one |
| SelfUpdate.CleanupCommitted | internal/selfupdate/install.go:576-603 | every state on the way shows the same settled pair; success means that the journal and all files it lists are gone and nothing else has changed |
| SelfUpdate.Restore | internal/selfupdate/install.go:610-617 | the target is either untouched or has the backup's content with the given mode, in every state on the way |
| SelfUpdate.RestoreExecutable | internal/selfupdate/install.go:606-617 | brings back the executable of the pair, keeping the journal and the pair in every state, and succeeds unless an operation fails or the mode is refused |
| SelfUpdate.RestorePrevious | internal/selfupdate/install.go:618-639 | brings back the earlier previous executable, or its absence, keeping the journal and the pair in every state |
| SelfUpdate.RollbackTransaction | internal/selfupdate/install.go:605-657 | every state on the way stands for the pair before the update; when it does not get stuck, that pair is visible and settled |
| SelfUpdate.RecoverInterruptedUpdate | internal/selfupdate/install.go:525-574 | every state on the way stands for the same pair; a reported success leaves exactly that pair and everything else as it was, with neither the journal nor any file it listed, except exactly when an update was under way and the operation that flushes its committed journal fails; on every directory the protocol itself can leave it succeeds if no operation fails, or none before that one |
| SelfUpdate.JournalOutlivesRecovery | internal/selfupdate/install.go:645-650 | if flushing the committed journal is the only operation that fails, recovery of any update under way reports success and leaves journal and backup, and the next recovery removes them |
| SelfUpdate.InterruptedIsRecoverable | internal/selfupdate/install.go:344-360 | a directory in which an update died after writing its journal, where that flush is operation 19 |
| Install.ValidateTarget | internal/selfupdate/install.go:168-193 | a target is accepted only with a plain mode that is executable and not writable by group or others |
| Install.StagePrevious | internal/selfupdate/install.go:300-323 | an existing previous executable is copied and its validated mode recorded; nothing else changes |
| Install.StageUpdate | internal/selfupdate/install.go:213-342 | on success everything an update needs is staged beside the untouched pair; in every state on the way the pair is untouched |
| Install.WriteTransaction | internal/selfupdate/install.go:354-360 | the journal is created only if there is none; the staged files are kept exactly when a journal is there afterwards |
| Install.SwapExecutable | internal/selfupdate/install.go:361-369 | every state on the way still stands for the old pair; on success the candidate is in place and has named the target version there |
| Install.PublishPrevious | internal/selfupdate/install.go:370-381 | every state on the way still stands for the old pair; on success the previous executable is the old one at the original mode |
| Install.CommitUpdate | internal/selfupdate/install.go:382-390 | every state on the way stands for the old pair under the uncommitted journal or shows the new one settled; which of the two at the end is told by the result |
| Install.InstallVerified | internal/selfupdate/install.go:200-396 | all or nothing: every state on the way stands for the old pair, with an executable that is whole old or whole new, or shows the new pair settled; success means (new at the original mode, old) with no journal that could undo it; an error means that the directory still stands for the old pair; and if no operation fails, an updatable directory is updated, a success has changed nothing but the pair, and an error has changed nothing at all |
| UpdateRuns.Run | internal/selfupdate/selfupdate.go:172-250 | rejected exactly when an older version was asked for or the check of the executable fails; after undoing an update it asks for a rerun and nothing else; otherwise an older release is never installed, the current version is reported as such exactly when it is the one found, and a reported update shows the new image at the old mode with the old executable as previous; without failures each of these answers is given when it is due |
| UpdateRuns.RecoverThenInstall | internal/selfupdate/selfupdate.go:197-250 | the part under the update lock: recovery decides whether there is anything to select, and every other result than an update keeps the pair |
| UpdateRuns.ReachedThroughStep | internal/selfupdate/selfupdate.go:197-243 | being the starting pair after whole updates, with a whole executable, safe modes and a journal recovery accepts, is kept by every step of every run |
| UpdateRuns.Survive | internal/selfupdate/install.go:344-657 | over every schedule of runs, failures and crashes: all states have a whole executable and stand for the starting pair after whole updates; in the end exactly one update has taken effect per reported success, none per other report, at most one per crash; and a recovery in which nothing fails shows that pair without a journal |
| UpdateRuns.NextRunRecovers | internal/selfupdate/selfupdate.go:186-203 | in any state a schedule can reach, the check of the executable does not stand in the way of recovery: the next run in which nothing fails and that finds no release recovers |
| UpdateRuns.StagingFileOutlivesRecovery | internal/selfupdate/install.go:223-233 | from any directory without temporary files and journal, a crashed run can leave a staging file that no journal lists and that a recovery in which nothing fails keeps |
| BatchExecute.InvStep | internal/batch/execute.go:121-186 | every action keeps the invariant over slots, results, counters, elapsed time and tickets |
| BatchExecute.ResultsAreFinal | internal/batch/execute.go:142-151 | once a result has been written no later action writes its place, and it stays as it is |
| BatchExecute.WrittenOnce | internal/batch/execute.go:142-151 | under every interleaving each place is written at most once, and exactly once in a finished run |
| BatchExecute.SafeAtEveryStep | internal/batch/execute.go:124-186 | at every moment at most max(1, concurrency) closures run; for an item begun after cancellation no call has been made or is under way; counting calls under way, an item is mutated at most once, and only after a preflight that neither failed nor skipped |
| BatchExecute.NoCallAfterCancellation | internal/batch/execute.go:137-149 | once the context is cancelled, an item whose closure has not begun is never touched in any continuation, and ends as not attempted |
| BatchExecute.ResultsDependOnItemsOnly | internal/batch/execute.go:136-153 | each place of a finished run holds what its own item gives alone, or the not-attempted result if the context was cancelled when its closure began |
| BatchExecute.ResultsTellCalls | internal/batch/execute.go:165-186 | every result of a finished run tells which calls were made: failed or skipped is one look, ambiguous ends in a failed mutation, unverified in a failed verification, applied in a good one, not attempted is no call, each with its own advice, and "No write was attempted" is never said of a mutated item |
| BatchExecute.UncancelledIsSequential | internal/batch/execute.go:135-162 | without cancellation the results are the items run one by one, in order, under every interleaving |
| BatchExecute.EveryNumberReportedOnce | internal/batch/execute.go:154-156 | a finished run has reported each number from 1 to the number of items exactly once |
| BatchExecute.UpstreamIsBounded | internal/batch/execute.go:150-162 | the upstream time is at most the number of workers times the orchestration time |
| BatchExecute.UpstreamIsSumOfItems | internal/batch/execute.go:150-152 | the upstream time is the sum, over the items, of the time from the moment each began to the moment it was done |
| BatchExecute.NeverStuck | internal/batch/execute.go:133-160 | until a run is finished some closure can move or be dispatched, and each such step brings the end nearer |
| BatchStore.Store.constructor | internal/batch/store.go:93-116 | an empty table, with every limit that is not positive replaced by its default |
| BatchStore.Store.DeleteExpired | internal/batch/store.go:195-201 | exactly the live entries stay |
| BatchStore.Store.Issue | internal/batch/store.go:122-161 | table and answer are those of the specification; a missing digest or token changes nothing |
| BatchStore.Store.Consume | internal/batch/store.go:168-193 | table and answer are those of the specification; a failed attempt keeps every live entry |
| AddressPlanStore.Store.Issue | internal/tools/address_tools.go:174-201 | the fused pass computes the same specification as the two passes of the generic store |
| AddressPlanStore.Store.Consume | internal/tools/address_tools.go:203-222 | the fused store's consumption computes the same specification |
| StoreRefinement.IssueInLockstep | internal/tools/address_tools.go:174-201 | from equal tables both stores grant or refuse alike and end with equal tables, for every order of iteration |
| StoreRefinement.ConsumeInLockstep | internal/tools/address_tools.go:203-222 | from equal tables both stores accept or refuse alike and end with equal tables |
| TokenTable.AfterIsGood | internal/batch/store.go:122-161 | over any run the total and each principal's count stay within their limits, with at most one entry per principal and key |
| TokenTable.ReissueIsGranted | internal/batch/store.go:137-152 | asking again for a key that has a live token is never refused for capacity |
| TokenTable.RefusalLosesNothing | internal/batch/store.go:137-152 | a refused request drops only what had expired |
| TokenTable.IssueIsGrantedExactly | internal/batch/store.go:131-161 | after any run on any clock, a request is granted if and only if, of the grants that the history shows standing and that it does not supersede, there are fewer than the limit in all and for its principal; the token then stands for exactly its claim |
| TokenTable.EntriesAreOutstanding | internal/batch/store.go:122-193 | on any clock the table is, token by token, exactly the grants that the history shows as neither consumed nor superseded and past whose expiry no operation has read the clock since |
| TokenTable.ConsumeSucceedsExactlyWhenValid | internal/batch/store.go:168-193 | after any run on any clock, consuming succeeds if and only if the history has a grant of this token to exactly this claim, unexpired at this reading, since neither consumed nor superseded, and no operation since the grant has read the clock at or past its expiry |
| TokenTable.PromiseIsKeptExactlyWhenReadInTime | internal/batch/store.go:131-180 | a token that is unexpired, unconsumed and not superseded is honoured if and only if every operation since its grant has read the clock before its expiry; so it is whenever no reading lies after the present one |
| TokenTable.LateReadingLosesAPromise | internal/batch/store.go:173-179 | a run in which an unexpired, unused token is refused, since another request read the clock late and entered the lock first |
| TokenTable.ConsumedAtMostOnce | internal/batch/store.go:168-193 | over any run on any clock with fresh tokens, a token is consumed at most once |
| RateLimiter.RequestRateLimiter.constructor | internal/oauth/authorization_server.go:516-527 | an empty limiter, with defaults for a limit or window that is not positive |
| RateLimiter.RequestRateLimiter.Allow | internal/oauth/authorization_server.go:529-551 | entries and answer are those of the specification, for every order of eviction |
| RateLimiter.WindowsAreSpaced | internal/oauth/authorization_server.go:536-549 | every allowed call of a key is counted in a window that was open, and windows of a key start at least a window apart |
| RateLimiter.WindowsAreLimited | internal/oauth/authorization_server.go:545-550 | no window of a run allows more calls than the limit, and the entry counts them |
| RateLimiter.AllowedInOpenWindow | internal/oauth/authorization_server.go:541-550 | after any run, a call of a key with an open window is allowed if and only if fewer than the limit have been allowed in it |
| RateLimiter.AllowedToOpenWindow | internal/oauth/authorization_server.go:541-550 | a call of a key without an open window is allowed if and only if fewer than 1024 keys have one, and opens a window at its own instant |
| RateLimiter.AtMostTwiceTheLimit | internal/oauth/authorization_server.go:529-551 | any half-open interval no longer than the window has at most twice the limit of allowed calls of a key, over a whole run |
| RateLimiter.OpenWindowSurvives | internal/oauth/authorization_server.go:536-540 | no call, by whatever key, evicts or resets a window that is open |
| RateLimiter.AtMostMaxKeys | internal/oauth/authorization_server.go:541-544 | at most 1024 keys are held |
| RateLimiter.BoundedExactlyOffZero | internal/oauth/authorization_server.go:541-550 | the bound on a burst holds if and only if its instant is not the zero one |
| CodeStores.CodeStore.Store | internal/oauth/code_store.go:32-50 | table and answer are those of the specification, with each refusal in its order |
| CodeStores.CodeStore.Consume | internal/oauth/code_store.go:52-62 | table and answer are those of the specification |
| CodeStores.ConsumedAtMostAsStored | internal/oauth/code_store.go:32-71 | on any clock an identifier is consumed at most as often as it was stored, once less while it is in the table |
| CodeStores.ConsumeSucceedsExactly | internal/oauth/code_store.go:52-71 | after any run on any clock, a consume succeeds if and only if the history holds the identifier unexpired at both of its readings |
| CodeStores.StoreAnswersExactly | internal/oauth/code_store.go:32-50 | a store gives the first of its four refusals that the history has a reason for, and otherwise succeeds |
| Expiries.TableIsHistory | internal/oauth/code_store.go:32-71 | an entry of an expiring table is exactly what a history of additions, removals and purges holds |
| Expiries.LiveEntriesAreCounted | internal/oauth/code_store.go:42-44 | as many entries are live as the history has unexpired holdings |
| CodeStores.NeverOverfull | internal/oauth/code_store.go:42-44 | the table never outgrows its bound |
| ReplayStores.AssertionReplayStore.Use | internal/oauth/private_key_jwt.go:46-63 | entries and answer are those of the specification, with the two clock readings apart |
| ReplayStores.AcceptedIsRemembered | internal/oauth/private_key_jwt.go:52-61 | an accepted assertion is remembered until its expiry, although entries are purged and bounded |
| ReplayStores.AcceptedExactly | internal/oauth/private_key_jwt.go:46-63 | after any run on any clock, an assertion is accepted if and only if it has an identifier, is unexpired at its first reading, is not remembered, and there is room among what is remembered |
| ReplayStores.ReplayAcceptedExactlyWhenStraddling | internal/oauth/private_key_jwt.go:46-63 | a second presentation is accepted if and only if it expires between its two clock readings, its entry is purged and there is room |
| ReplayStores.AcceptedAtMostOnce | internal/oauth/private_key_jwt.go:46-63 | over any run in which the readings do not straddle the expiry, an assertion is accepted at most once |
| OAuthService.UsableExactlyInLifetime | internal/oauth/types.go:71-94 | an issued token is valid exactly from its issue to its expiry, given a subject, a credential and no zero instant, and never outlives its session |
| OAuthService.IssueAuthorizationCode | internal/oauth/service.go:58-111 | table and answer are those of the specification: a code only for a complete request whose identifier could be stored |
| OAuthService.ExchangeAuthorizationCode | internal/oauth/service.go:113-141 | table and answer are those of the specification: validation before consumption |
| OAuthService.ExchangeGivesPair | internal/oauth/service.go:113-141 | an exchange gives two tokens for exactly the user, client, scopes and credential of the code, each of its own kind, with its own expiry and the session end |
| OAuthService.IssueGivesCode | internal/oauth/service.go:58-111 | a code is issued exactly for a complete request with a sealable credential that could be stored, and carries the request field by field |
| OAuthService.WrongAttemptSpendsNothing | internal/oauth/types.go:113-136 | another redirect URI, or a verifier that does not fit the challenge, is denied and leaves the store as it was (section 4.6 of RFC 7636) |
| OAuthService.RefreshKeepsRoot | internal/oauth/service.go:143-170 | a refreshed pair still has, field by field, the user, client, scopes, credential and source of the code it descends from, and its session end, which no token outlives (section 6 of RFC 6749) |
| OAuthService.RefreshGivesPair | internal/oauth/service.go:143-170 | a refresh gives two tokens with everything of the old one but their times, and its session end |
| OAuthService.RefreshSucceedsExactly | internal/oauth/service.go:143-170 | in any run, a refresh succeeds if and only if the token is a refresh token issued for this issuer, audience and client, inside its lifetime, off the zero instant, with a credential that is still good |
| OAuthService.EverythingIsExplained | internal/oauth/service.go:58-267 | over any run every issued token descends from one exchange whose subject, client, scopes, credential, source and session end it carries, and every code from one request |
| OAuthService.SessionsEnd | internal/oauth/service.go:220-267 | no token of a run is usable once a session's length has passed since its exchange, however often it was refreshed |
| OAuthService.SpentAtMostAsIssued | internal/oauth/service.go:113-131 | over any run on any clock a code is exchanged at most as often as its identifier was issued (section 4.1.2 of RFC 6749) |
| OAuthService.ExchangeSucceedsExactlyWhenRedeemable | internal/oauth/service.go:113-141 | after any run on any clock, an exchange succeeds if and only if the code was issued, is presented by its client with its redirect URI and a verifier of its challenge, is unexpired at every reading of the exchange, has not been spent, and no operation since has purged the store at a reading at or past its expiry |
| OAuthService.HeldExactly | internal/oauth/code_store.go:32-71 | on any clock the store holds a code exactly while it is issued, not spent, and no operation since has purged the store at a reading at or past its expiry |
| OAuthService.ForwardClockReadsInTime | internal/oauth/code_store.go:32-71 | on a clock that does not go back nothing is purged before its expiry |
| OAuthService.TokenOfZeroInstantIsRefused | internal/oauth/types.go:78-80 | a token issued at the zero instant is refused inside its lifetime |
| SetupChain.AtMostOneLive | internal/oauth/authorization_server.go:188-312 | a chain of setup pages has at most one live identifier, and none once it has a code |
| SetupChain.SpendingQuiets | internal/oauth/authorization_server.go:218-221 | spending an identifier leaves its chain without a live one and without a code, and the identifier has named no dedicated token yet |
| SetupChain.RenderIsOk | internal/oauth/authorization_server.go:282-312 | giving a quiet chain a new identifier keeps all of this, with the chain's expiry unchanged and the fallback offered only after a failure |
| SetupRuns.Serve | internal/oauth/authorization_server.go:157-312 | over any interleaving of begun authorizations, arriving submissions and their answers: no setup identifier is accepted twice, no dedicated-token name repeats, no authorization gets two codes, the supplied token is sealed only after an earlier answer of the same authorization asked for a dedicated one and there was none, all its pages have one expiry, and each accepted submission is answered at most once |
| SetupRuns.ProperStep | internal/oauth/authorization_server.go:218-256 | one more step, whoever takes it, keeps single use, unrepeated names, one code per authorization and the earned fallback |
| SetupRuns.OthersStayPending | internal/oauth/authorization_server.go:218-261 | between spending its identifier and its answer, nothing another request does disturbs a submission: its authorization stays without a live identifier and without a code |
| SetupRuns.Step | internal/oauth/authorization_server.go:157-262 | each step of a request takes one critical section; accepting, answering and beginning keep all waiting submissions apart and pending |
| SetupRuns.PagesShareExpiry | internal/oauth/authorization_server.go:282-298 | all pages shown for one authorization have the same expiry, however often it is rendered |
| SetupChain.AuthorizationServer.BeginAuthorization | internal/oauth/authorization_server.go:157-186 | a new chain with one expiry, a code lifetime from now, and a first page without the fallback; an inadmissible request changes nothing |
| SetupChain.AuthorizationServer.FirstPageCarriesRequest | internal/oauth/authorization_server.go:184-185 | the first page carries the request's client, redirect URI, resource, state, challenge and scopes, offers no fallback, and expires a code lifetime from now |
| SetupChain.AuthorizationServer.RenderSetup | internal/oauth/authorization_server.go:282-312 | the page is shown under a fresh identifier, stored with the expiry of its chain, exactly when it can be stored and sealed, and is otherwise the page given |
| SetupChain.AuthorizationServer.CompleteAuthorization | internal/oauth/authorization_server.go:188-262 | accepted exactly when page, protection token and identifier are good, the identifier being spent first; a code is reached exactly with a good credential and a dedicated token or the earned fallback; a chain gets at most one code; the names of dedicated tokens grow, and the failure is recorded, exactly by submissions that ask for one; the clock is read anew after spending |
| SetupChain.CompletedCode | internal/oauth/authorization_server.go:241-261 | the code of a completed setup is sealed for this server and client, for the user the broker named, with the page's scopes, redirect URI and challenge, and with the supplied credential exactly where the fallback was used |
| SetupChain.CompletedCodeGivesTokens | internal/oauth/authorization_server.go:253-368 | end to end: while the store holds the code of a completed setup, its client exchanges it with the right redirect URI and verifier for two tokens of that user and those scopes |
| SetupChain.AuthorizationServer.AnswerGood | internal/oauth/authorization_server.go:241-261 | with a good credential, the earned fallback gives a code with it, and otherwise a dedicated token is asked for |
| SetupChain.AuthorizationServer.AcceptSubmission | internal/oauth/authorization_server.go:189-221 | accepted exactly when page, protection token and identifier are good; the identifier is then spent, its authorization quiet, and it has named no dedicated token; other authorizations are untouched |
| SetupChain.AuthorizationServer.AnswerSubmission | internal/oauth/authorization_server.go:226-261 | what an accepted submission leads to: the page again, a code, or neither, each on its exact condition |
| SetupChain.AuthorizationServer.AskForDedicated | internal/oauth/authorization_server.go:245-261 | asking for a dedicated token uses its name, and without one the failure is recorded and only a page with the fallback can be shown |
| ScanHistory.WalkScanHistory | internal/tools/barcode_tools.go:611-676 | records, `hasMore` and cutoff are those of the page-by-page specification, for every choice of cancellations, time-outs and failing fetches |
| ScanHistory.ReadPage | internal/tools/barcode_tools.go:642-657 | one page either runs past the limit or leaves the counters exact for all rows so far |
| ScanHistory.KeptIsWindow | internal/tools/barcode_tools.go:644-656 | the rows kept while scanning are the window of all matches so far |
| ScanHistory.FilterMeans | internal/tools/barcode_tools.go:712-736 | the endpoint and the bounds are asked for only where they are given; the lower bound is inclusive and the upper one exclusive; a row without a readable instant meets no bound |
| ScanHistory.IntervalsSplit | internal/tools/barcode_tools.go:720-734 | neighbouring intervals share no row and together miss none |
| ScanHistory.MatchingMeans | internal/tools/barcode_tools.go:642-656 | filtering goes row by row and keeps the order |
| ScanHistory.WindowMeans | internal/tools/barcode_tools.go:647-656 | a window is the rows from the offset on, up to the limit |
| ScanHistory.WalkIsSound | internal/tools/barcode_tools.go:604-676 | whatever cutoff fires, the records are a prefix of the window asked for; no more to come means that they are everything past the offset (for at least one page); the limit cutoff means that a further match exists |
| ScanHistory.WalkStopsAtFirstReason | internal/tools/barcode_tools.go:621-673 | a walk goes on over pages of a hundred rows until the first reason to stop, tried in the order of the code, and that reason decides what is returned |
| ScanHistory.NoMoreMeansAll | internal/tools/barcode_tools.go:622-673 | for every page budget: "no more" can be believed if and only if at least one page may be read or nothing matches past the offset |
| ScanHistory.ToolCanBelieveNoMore | internal/tools/barcode_tools.go:54-59 | with the page depth the tool passes, "no more" means that everything past the offset has been returned |
| ScanHistory.UncutFrom | internal/tools/barcode_tools.go:622-673 | a walk that no byte or time cutoff ends returns what its page budget alone determines |
| ScanHistory.FalseAlarmExactly | internal/tools/barcode_tools.go:604-673 | in such a walk `hasMore` is a false alarm if and only if the page budget does not cover upstream, the matches fit the limit, and none past the offset lies beyond it |
| ScanHistory.PageBudgetFalseAlarm | internal/tools/barcode_tools.go:671-673 | one page of a history of 101 rows of which none match announces more |
| ScanHistory.QuietWalk | internal/tools/barcode_tools.go:611-676 | when no budget fires, exactly the window is returned and `hasMore` says exactly whether a match follows it |
| ScanHistory.WindowsTile | internal/tools/barcode_tools.go:611-676 | the windows at offsets 0, limit, twice the limit and so on concatenate to the whole filtered history |
| StockDeltas.LooksLikeIdentityRecord | internal/inventree/stock_tracking.go:125-132 | true exactly when some key is an identity field in lower case, for every order of iteration |
| StockDeltas.RedactFields | internal/inventree/stock_tracking.go:106-118 | the loop over the map computes the redaction, for every order of iteration |
| StockDeltas.RedactValue | internal/inventree/stock_tracking.go:134-147 | the recursive walk computes the redaction of objects, lists and scalars |
| StockDeltas.RedactionKeepsTheRest | internal/inventree/stock_tracking.go:106-147 | a path leads somewhere after redaction if and only if it did before and passed no dropped field; list lengths and scalars at its end are unchanged |
| StockDeltas.CleanIsFixed | internal/inventree/stock_tracking.go:106-147 | redaction changes a value if and only if it holds something to drop at some depth |
| StockDeltas.DroppedMeans | internal/inventree/stock_tracking.go:106-132 | a field is dropped if and only if it is `created_by`, ends in `_detail`, or holds an object with a key that reads `email` or `username` in lower case |
| StockDeltas.RedactionIsIdempotent | internal/inventree/stock_tracking.go:106-147 | redacting twice is redacting once |
| StockDeltas.NothingSensitiveUnderAnyKey | internal/inventree/stock_tracking.go:106-117 | after redaction no path has a `_detail` or `created_by` key, or an identity record under a key |
| StockDeltas.IdentityIsLeftExactly | internal/inventree/stock_tracking.go:120-132 | an object that is left is an identity record if and only if it is the root or in a list and had an identity key to keep |
| StockDeltas.Bound | internal/inventree/stock_tracking.go:149-176 | accepts if and only if the nesting fits the depth that is left and the keys fit the count that is left, for every order of iteration, and then has counted exactly the keys |
| StockDeltas.SanitizeStockTrackingDeltas | internal/inventree/stock_tracking.go:83-104 | an absent payload gives the empty object and one that is no object an error; otherwise the redaction is returned if and only if it is nested at most 4 deep, has at most 64 keys in all and encodes to at most 8192 bytes |
| StockDeltas.NestingIsPathLength | internal/inventree/stock_tracking.go:149-152 | the nesting bound holds if and only if every path is shorter than it |
| StockDeltas.AcceptedMeans | internal/inventree/stock_tracking.go:149-176 | accepted are exactly the payloads whose paths have fewer than 4 steps and that hold at most 64 fields |
| StockDeltas.TotalOfUnion | internal/inventree/stock_tracking.go:153-162 | the number of fields adds up over objects put together |
| StockDeltas.TotalOfOne | internal/inventree/stock_tracking.go:153-162 | one field counts one and what its value holds |
| StockDeltas.TotalOfLists | internal/inventree/stock_tracking.go:163-168 | the number of fields adds up over lists, which count nothing themselves |
| StockDeltas.RedactionKeepsAccepted | internal/inventree/stock_tracking.go:91-95 | redaction never turns an accepted payload into a rejected one |
| ResistorBands.RepresentationIsUnique | internal/render/resistor.go:339-369 | for up to 8 significant figures a resistance has at most one pair of digits and exponent within the tolerance |
| ResistorBands.RepresentationIsNear | internal/render/resistor.go:346-362 | a representation has an exponent from -2 to 9 and the right number of digits, and its value lies within a billionth of the resistance, or of an ohm |
| ResistorBands.RoundIsNearest | internal/render/resistor.go:349-350 | rounding goes to the nearest whole number, halves away from zero |
| ResistorBands.TolerancesAreDrawn | internal/render/colors.go:75-87 | every supported tolerance is drawn in the colour that stands for it |
| ResistorBands.EncodeResistorBands | internal/render/resistor.go:344-372 | succeeds if and only if a representation exists, and then returns digits 0 to 9, the first not zero, that reconstruct the value within the tolerance |
| ResistorBands.OnlyGridIsExact | internal/render/resistor.go:339-343 | without tolerance exactly the values n·10^e of the grid are representable |
| ResistorBands.GridIsRepresented | internal/render/resistor.go:350-362 | every value of the grid is representable, with the tolerance or without |
| ResistorBands.FillDigits | internal/render/resistor.go:363-368 | the array filled from the right holds the decimal digits |
| ResistorBands.DigitsRead | internal/render/resistor.go:363-368 | the digits of a number in range are 0 to 9, have its value and begin with a digit other than zero |
| ResistorBands.DigitsWritten | internal/render/resistor.go:363-368 | digits are the digits of their value |
| ResistorBands.ToleranceColorByLabel | internal/render/colors.go:89-96 | finds a colour if and only if the label is in the table, and then its entry |
| ResistorBands.RenderedBands | internal/render/resistor.go:117-165 | bands are produced if and only if the band count, the value and the label are supported, the value is representable and the parameters of the drawing are supported, and they are those of an encoding of the value |
| ResistorBands.BandsAreReadBack | internal/render/resistor.go:160-165 | digits and exponent can be read back from the bands, so different ones have different bands |
| ResistorBands.ToleranceIsReadBack | internal/render/colors.go:75-87 | in the table labels and colours determine each other |
| SourceAddress.IsTrusted | internal/server/source_ip.go:79-87 | true exactly when some prefix contains the unmapped address |
| SourceAddress.Resolve | internal/server/source_ip.go:39-77 | the nested right-to-left scan returns the answer defined on the flat list of comma-separated hops |
| SourceAddress.DecidingIsRightmost | internal/server/source_ip.go:51-75 | the deciding hop is the rightmost one that is malformed or not trusted, and there is none exactly when all pass |
| SourceAddress.FirstFromTheRight | internal/server/source_ip.go:51-76 | read from the right, past hops that are trusted: an untrusted hop is the answer, a malformed one gives the peer, and the leftmost hop is the answer if all pass |
| SourceAddress.PeerIsAnswer | internal/server/source_ip.go:44-52 | an untrusted peer, or one without a header, is the answer itself |
| SourceAddress.ContainsMeans | internal/server/source_ip.go:79-87 | a prefix contains exactly the addresses of its family that begin with its bits and have no zone |
| SourceAddress.MappedIsTrustedAlike | internal/server/source_ip.go:61-62 | an IPv4 address written as an IPv6 one is trusted exactly as the IPv4 address is |
| SourceAddress.LeftHopsAreIgnored | internal/server/source_ip.go:51-75 | whatever hops stand left of the deciding one, well formed or not, the answer is the same |
| SourceAddress.TextOnTheLeftIsIgnored | internal/server/source_ip.go:51-75 | the same for header text: earlier values, and text put in front with a comma, change nothing |
| SourceAddress.ForwardedIsOutside | internal/server/source_ip.go:39-77 | a forwarded answer comes through a trusted peer and is not a trusted address unless it is the leftmost hop |
| Porcelain.ParsePorcelain | internal/buildinfo/porcelain.go:57-83 | the loop that fills a map gives the first malformed line, or else the last value of each key, then the marker check, then the check for missing fields |
| Porcelain.AcceptedOutput | internal/buildinfo/porcelain.go:57-83 | an output is accepted if and only if every line that is not empty has a ": ", the marker is 1, and version, commit and date have values; the record then holds the last value of each key |
| Porcelain.RefusedOutput | internal/buildinfo/porcelain.go:63-80 | it is refused for the first malformed line, else for its marker, else for a missing value |
| Porcelain.CutMeans | internal/buildinfo/porcelain.go:63 | a line is parted at its first ": " |
| Porcelain.PrintedLines | internal/buildinfo/porcelain.go:35-50 | the lines that are printed, in their order, the last two only with a value |
| Porcelain.PrintThenParse | internal/buildinfo/porcelain.go:35-83 | printing a complete record of one-line values and parsing it gives it back, with any number of trailing newlines and even if values hold ": " |
| Porcelain.ParseThenPrint | internal/buildinfo/porcelain.go:35-83 | whatever the parser returns is complete, has one-line values and survives being printed and parsed again |
| Porcelain.ForeignTextChangesNothing | internal/buildinfo/porcelain.go:54-66 | a line with an unknown key, put anywhere in the output, never changes the result, error or not |
| Porcelain.TrimChangesNothing | internal/buildinfo/porcelain.go:59-62 | trimming trailing newlines makes no difference, since empty lines are skipped |
| Text.SplitJoin | internal/buildinfo/porcelain.go:59 | splitting joined pieces that hold no separator gives them back |
| Text.SplitAt | internal/server/source_ip.go:53-72 | splitting around a separator splits both sides on their own |

## Left out

- Real files: a rename is visible at once and survives a crash of the process; directory entries lost with the power are not modelled. `Lstat` is taken to answer truthfully.
- Owners, link counts, trusted ancestors, the direct-install marker, adoption, the update lock and the platform check: the runs modelled are those in which they pass. Of the check of the executable the mode is modelled.
- Changes to the directory by other programs during a run, and with them the checks that the target is still the same file.
- Downloading, checking and unpacking a release, and running a program to ask its version: `Situation.release` and `Request.reports` are arbitrary.
- All names in a journal are names in one directory, and a journal is either readable or not: the checks on its JSON, its size and paths that leave the directory appear as an unreadable journal.
- Versions are triples; canonical forms and pre-releases are not modelled.
- BatchExecute.UncancelledIsSequential: `Execute` is a state machine over values, not a loop, because its closures run at the same time; the wait group is the `Finished` condition, progress is always reported, and the durations and the counter are unbounded integers.
- `JSONDigest` and the digests of plans are strings given to the stores; a failing digest or token generator is `None`. Principals are strings.
- TokenTable.ConsumedAtMostOnce: tokens are fresh, which their random generation gives; nothing is asked of the clock.
- RateLimiter.AtMostTwiceTheLimit: runs have a clock that does not go back; the per-client and per-address keys that callers build are not modelled.
- OAuthService.UsableExactlyInLifetime: encryption, encoding and key rotation are replaced by ideal envelopes, and sealing a code or a token does not fail, the S256 challenge by any function, and validation of the upstream credential by a boolean.
- OAuthService.SpentAtMostAsIssued: at most once follows for identifiers that are issued once, which their random generation gives; `ExchangeSucceedsExactlyWhenRedeemable` asks for the same.
- SetupChain.AuthorizationServer.RenderSetup: the new identifier is taken to be one that the server has not used before, which its random generation gives; the page itself, cookies, metadata, rate limits and the choice of message are booleans or left out.
- SetupRuns.Serve: each locked operation of a store is one step, as its lock makes it; what a request does outside these has no shared state in the model. The time a dedicated token is created is the time of the answer.
- Missing (nil) limiters and replay stores, which allow everything and refuse everything.
- Client metadata, JSON web keys, signatures of client assertions, HTTP routes and error bodies.
- ScanHistory.WalkScanHistory: the upstream sequence is fixed during a walk, text lengths are counted in characters, and the instants of timestamps are an arbitrary partial function; the single-page path of the tool is not modelled.
- StockDeltas.SanitizeStockTrackingDeltas: decoding is not modelled and the length of an encoding is an arbitrary function, as are value types that JSON does not produce and which of several errors is reported, which depends on the order of iteration. Lower case is modelled for the characters that can become letters of an identity field.
- ResistorBands.EncodeResistorBands: floating-point numbers are reals and the tolerance is the code's or none; up to 8 significant figures, of which the callers use 2 or 3.
- ResistorBands.RenderedBands: the checks on power rating, size, aspect, type and body colour are one boolean; everything that is drawn, and which of several errors is reported.
- SourceAddress.Resolve: addresses are given by their bits; the library's address parser, and the trimming of spaces before it, are an arbitrary partial function on the text of a hop; reading the configured prefixes is not modelled.
- Porcelain.PrintThenParse: the text of error messages.
- InvenTree client methods, tool handlers, prompts, telemetry, image rendering and configuration: thin, or presentation.
