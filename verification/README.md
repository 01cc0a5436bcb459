# Sylva server core: models and proofs

A Dafny 4.11 project about the parts of the Sylva server whose correctness depends on
more than one function: the hash-chained audit log, the account transactions that write
into it, incremental resource sync, the login throttle, two-factor codes, recovery codes
and the two byte encodings that get signed. `dafny verify dfyconfig.toml` checks it all.

## How the model is built

SQL statements are atomic steps on in-memory tables, and a transaction is a sequence of
steps ending in a commit or a rollback. Each protocol has a state, a `Step` function that
leaves the state alone when a statement has to wait, an `Exec` over a list of steps, and
theorems about every state reachable that way, so every interleaving is covered. Beside
the state machine stands a class whose fields are the tables and whose methods run the
statements in place; each method's postcondition is the step (or the sequence of steps)
it stands for, or the whole new contents of the table.

| file | about |
|---|---|
| `Prelude`, `Words` | options, bytes, digests, sequence vocabulary; big-endian words |
| `AuditChain`, `AuditLog`, `AuditPaging`, `AuditStore` | the chain, the appenders, the paged reader, the database object |
| `Accounts`, `AccountSafety`, `AccountLiveness` | account handlers as transactions, what they keep, and the one way in which they deadlock |
| `AccountRuns`, `AccountDatabase` | what a handler's statements come to among other open transactions, and the handlers themselves |
| `Resources`, `ResourceSync`, `ResourceCatchUp`, `ResourceRepository` | the versioned table and its feed, client replicas, catching up, the repository object |
| `RateLimiter`, `LimiterChecks`, `LoginThrottle` | the token bucket, when a check of it leaves a trace, and the two critical sections of the handlers around it |
| `Totp`, `TotpCredentials` | window matching, and the credentials with single-use steps |
| `RecoveryCode`, `RecoveryRotation` | the printed code, and its rotation |
| `TextEncoding`, `Declaration`, `DeclarationTwins`, `Discovery` | hex, decimal, join and sort, the two signed payloads, and which declarations share their text |

Cryptography is never axiomatised. The hash, the MAC and the JSON serializer are function
parameters, every theorem holds for all of them, and where a proof would need a hash to
be injective the theorem computes the colliding pair instead.

## What turned out not to hold

* Sync (`migrations/0007_platform.sql:15-17`) speaks of a single ordered timeline. A
  number is allocated before its row becomes visible, and nothing orders the two.
  `ResourceSync.SafeIffNeverLate` says sync is safe exactly when no row in scope becomes
  visible behind the cursor, `SecondNumberFirst` is a run in which one does, and
  `MissedStaysMissed` shows that the row is then never delivered by calling again.
  Statements that do not overlap, or commits in allocation order, are enough.
* The comment at `crates/auth/src/user_totp.rs:157-159` says that no other credential
  could match the same six digits. Two can: `TotpCredentials.OneCodeCanSucceedTwice` has
  one code accepted once for each of two authenticators. `SameCodeAgain` says exactly when
  an accepted code is accepted again, by another authenticator or by the same one once its
  window has moved on. What does hold is single use per credential and time step.
* The limiter reads its clock before it takes its lock, so calls may come out of the order
  of their readings, and then a mere check can change a later answer
  (`RateLimiter.OutOfOrderCheckIsVisible`). `LimiterChecks.CheckIsInvisibleIff` says which
  checks leave no trace: those at or before the bucket's clock, and all of them when the
  capacity is below one token or nothing is earned.
* Account handlers can deadlock: an `UPDATE` of an address holds its row while it waits for
  the unique index. `AccountLiveness.DeadlockIffAddressSwap` says that this happens exactly
  when some transactions have each locked their row and ask for an address that another of
  them still has, and `TwoUsersCanSwap` is how. No other locks can close a circle.
* The signed text of an app declaration does not always determine the declaration.
  `DeclarationTwins.SignedTextIsUniqueIff` says exactly when it does: no field spells out a
  key of the format where the next field could begin (`ScalarTwinIff`), and there is exactly
  one resource type, not empty, that does not split at a comma into two names in order
  (`TypesTextIsUniqueIff`). Registration checks neither.
* The length fields of the discovery payload are 32-bit casts. The round trip holds
  exactly when nonce and name are shorter than 2^32 bytes.

## Model

| member | source | states |
|---|---|---|
| AuditChain.TamperEvidence | crates/audit/src/lib.rs:80-85 | two logs that both verify and end in the same hash are the same rows, whatever their lengths, or a collision of the hash is computed from them |
| AuditChain.EqualHashesCollide | crates/audit/src/lib.rs:27-31 | different record lists with equal chain hash yield two concrete colliding inputs; the genesis literal is told from every chained input by its length |
| AuditChain.EditedRecordIsCaught | crates/audit/src/lib.rs:231-257 | changing one record of a verifying chain breaks verification exactly when the edit is not itself a collision |
| AuditChain.VerifiesRowByRow | crates/audit/src/lib.rs:80-85 | checking the whole chain and checking every row against its predecessor decide the same thing |
| AuditLog.StorageRoundTrip | crates/audit/src/lib.rs:75-78 | a timestamp survives storage unchanged exactly when it has been truncated, and truncation is idempotent |
| AuditLog.NewEventVerifies | crates/audit/src/lib.rs:231-257 | the stored row recomputes to its own hash after the microsecond round trip |
| AuditLog.NewEventColumns | crates/audit/src/lib.rs:237-266 | column by column: the clock to the microsecond, the actor or nothing, the caller's app, type and data, and the hash of previous hash and canonical bytes |
| AuditLog.CommittedLogIsAlwaysValid | crates/audit/src/lib.rs:215-280 | every interleaving of appends, commits and rollbacks leaves a committed log that is strictly increasing in seqno, in commit order, linked from genesis and verifying |
| AuditLog.CommittedRowRecomputes | crates/audit/src/lib.rs:234-257 | in every reachable committed log each row links to the one before or to genesis, and its hash recomputes from the stored columns |
| AuditLog.LogOnlyGrows | crates/audit/src/lib.rs:243-277 | committed rows are never rewritten or reordered |
| AuditLog.StepFrame | crates/audit/src/lib.rs:215-280 | a statement touches no other transaction and, unless it commits, no committed row |
| AuditLog.TailHashIsHead | crates/audit/src/lib.rs:222-236 | the newest row by seqno is the last one, so the tail read gives the head of the chain |
| AuditStore.AppendEffect | crates/audit/src/lib.rs:215-280 | a whole append waits without effect or adds one pending row under the next number, linked to the newest visible row, with the clock to the microsecond and the caller's columns |
| AuditStore.RollbackBurnsNumber | crates/audit/src/lib.rs:215-222 | append followed by rollback leaves everything as it was except the sequence |
| AuditStore.ContiguousIffNothingBurnt | crates/audit/src/lib.rs:203-222 | committed numbers are 1, 2, 3 and so on up to the last one drawn exactly when no rollback gave one up |
| AuditStore.AuditDatabase.Append | crates/audit/src/lib.rs:215-280 | the method is the four statements; it waits without effect while another holds the lock, fails when no number is left, and otherwise adds a row whose every column is stated: number, microseconds, actor, app, type, data, link to the newest visible row or to genesis, and hash |
| AuditStore.AuditDatabase.Lock | crates/audit/src/lib.rs:215-229 | the advisory lock is taken, or the caller waits |
| AuditStore.AuditDatabase.InsertEvent | crates/audit/src/lib.rs:257-280 | one row is added to the transaction's own pending rows, every column stated |
| AuditStore.AuditDatabase.CommitTransaction | crates/audit/src/lib.rs:203-214 | pending rows become the end of the log and the lock is released |
| AuditStore.AuditDatabase.RollbackTransaction | crates/audit/src/lib.rs:203-214 | pending rows vanish, drawn numbers do not return |
| AuditStore.AuditDatabase.List | crates/audit/src/lib.rs:125-155 | the newest rows that pass every filter below the cursor, newest first, 50 by default and 200 at most, short of that only when there are no more |
| AuditStore.AuditDatabase.CountFiltered | crates/audit/src/lib.rs:160-178 | counts exactly the rows the filter lists |
| AuditPaging.PageIsPrefix | crates/audit/src/lib.rs:125-155 | ORDER BY seqno DESC LIMIT n is the first n rows of the descending listing |
| AuditPaging.PageSize | crates/audit/src/lib.rs:119-129 | 50 when nothing is asked for, otherwise what is asked for within 1 to 200 |
| AuditPaging.WalkIsStableSnapshot | crates/audit/src/lib.rs:122-155 | page k of a keyset walk is rows k*limit to (k+1)*limit of what was committed at the first call, however many appenders run in between, and is empty exactly when those are used up |
| AuditPaging.ListingIsComplete | crates/audit/src/lib.rs:125-178 | that listing is every matching row once, strictly descending, as many as count_filtered says |
| AccountSafety.LogReproducesUsers | crates/platform/src/account.rs:86-118 | in every reachable state folding the committed events in seqno order gives exactly the committed user rows |
| AccountSafety.VerifierMatchesWrap | crates/platform/src/account.rs:373-405 | password hash and master-key wrap always come from the same, latest, committed request; key pairs are those of bootstrap |
| AccountSafety.AbortLeavesNothing | crates/platform/src/account.rs:328-341 | a failed handler leaves no trace but the numbers it has drawn |
| AccountSafety.NobodyIsReplaced | crates/platform/src/account.rs:80-85 | no committed account is ever created over another one |
| AccountSafety.SecretsComeFromOneRequest | crates/identity/src/enrollment.rs:122-141 | a fold of committed requests never mixes the verifier of one with the wrap of another |
| AccountSafety.ReachableInv | crates/platform/src/account.rs:284-299 | rows written under a lock are still what the request would write, in every interleaving |
| AccountLiveness.CommittedEmailsAreUnique | crates/platform/src/account.rs:328-341 | committed addresses stay unique under concurrent bootstraps and changes |
| AccountLiveness.DeadlockIffAddressSwap | crates/identity/src/lib.rs:404-421 | transactions wait for each other exactly when some have each locked their row and ask for an address that another of them still has |
| AccountLiveness.SomebodyCanMove | crates/platform/src/account.rs:328-350 | some open account transaction can always run its next statement, unless there is such a swap of addresses or another service holds the audit lock |
| AccountLiveness.TwoUsersCanSwap | migrations/0001_identity.sql:24-34 | two users asking for each other's addresses reach such a swap in four steps |
| AccountLiveness.StandsIffWaits | crates/platform/src/account.rs:328-350 | a statement cannot run exactly when it waits for a row, an index entry or the audit lock of another account transaction |
| AccountRuns.AppendedIsFourRuns | crates/audit/src/lib.rs:215-280 | the append call of a handler is four steps of its transaction |
| AccountDatabase.Database.ClaimRow | crates/identity/src/lib.rs:371-421 | waits for the row, aborts when there is none, or leaves it written and locked |
| AccountDatabase.Database.PassIndex | migrations/0001_identity.sql:24-34 | with the row locked: a live holder of the address aborts, an undecided one makes it wait, otherwise the entry is taken |
| AccountDatabase.Database.StorePasswordHash | crates/auth/src/lib.rs:202-217 | writes the verifier, or nothing when there is no row |
| AccountDatabase.Database.StoreKeyMaterial | crates/identity/src/enrollment.rs:93-141 | creates the key row, or rotates only its wrap columns |
| AccountDatabase.Database.Commit | crates/platform/src/account.rs:346-349 | rows and event are published together |
| AccountDatabase.Database.UpdateDisplayName | crates/platform/src/account.rs:268-301 | refuses a blank name without effect; otherwise changes that name alone and records it, or waits for a row or the audit lock with nothing published |
| AccountDatabase.Database.UpdateEmail | crates/platform/src/account.rs:303-352 | refuses exactly when the stored hash does not verify the password, the address is blank or another user has it; otherwise exactly the new address and one event saying so; with nobody else about it never waits |
| AccountDatabase.Database.ChangePassword | crates/platform/src/account.rs:354-409 | refuses exactly when the stored hash does not verify the password or the new one is empty; otherwise verifier and wrap change together, key pairs and profile stay, one event is recorded; a waiting handler has published nothing |
| AccountDatabase.ChangeThenUpdate | crates/auth/src/lib.rs:70-83 | after a change of password to p, the address can be changed with p and with no other password, for a hash that tells passwords apart |
| AccountDatabase.Database.BootstrapOwner | crates/platform/src/account.rs:39-124 | creates the owner with verifier, keys and event, or refuses without effect when incomplete or when a committed user exists |
| Resources.ClampChangesLimit | crates/platform/src/lib.rs:413-420 | 0 means 500, more than 2000 means 2000, and anything in between is taken as asked |
| Resources.FeedIsExact | crates/platform/src/resources.rs:225-247 | the feed is every row of the owner, the app and the type asked for past the cursor, tombstones included, once each, oldest change first |
| Resources.FeedContinues | crates/platform/src/resources.rs:225-247 | reading on from the last number of a batch is reading on where the batch stopped |
| ResourceSync.StepKeepsInv | crates/platform/src/resources.rs:133-175 | unique numbers, growing per row; unique keys; replica rows no newer than the cursor allows; table equal to its history, at every step |
| ResourceSync.SyncEffect | crates/platform/src/lib.rs:386-411 | a call adds to the replica exactly the rows numbered between the two cursors |
| ResourceSync.StepIsSafeIffNotLate | crates/platform/src/resources.rs:225-247 | one step loses safety exactly when it publishes behind the cursor |
| ResourceSync.SafeIffNeverLate | crates/platform/src/resources.rs:225-247 | over every run: every row up to the cursor is in the replica unchanged after every step exactly when no row becomes visible behind the cursor |
| ResourceSync.InOrderIsNeverLate | migrations/0007_platform.sql:15-18 | publication in allocation order suffices |
| ResourceSync.EmptyBatchMeansConverged | proto/platform/v1/platform.proto:113-117 | under that order, a call that returns nothing means the replica is the server's table narrowed to owner, app and type |
| ResourceSync.ReplicaIsOwn | crates/platform/src/resources.rs:225-247 | over every run a client holds rows of its own owner, app and type only |
| ResourceSync.OwnersShareNothing | crates/platform/src/resources.rs:3-6 | clients of different owners never hold the same row |
| ResourceSync.SecondNumberFirst | migrations/0007_platform.sql:15-18 | a run in which two numbers become visible in the other order loses a row |
| ResourceSync.MissedStaysMissed | crates/platform/src/lib.rs:386-411 | such a row is not delivered by any number of further calls |
| ResourceCatchUp.CatchUpTakesExactly | crates/platform/src/lib.rs:386-420 | with n rows past the cursor the loop takes n / limit rounded up calls and one empty one, for every requested limit |
| ResourceCatchUp.CursorStrictlyIncreases | crates/platform/src/lib.rs:386-411 | a call that returns rows moves the cursor up, an empty one changes nothing |
| ResourceCatchUp.CursorPastTheColumn | crates/platform/src/lib.rs:399-400 | an unsigned cursor beyond the column's range yields nothing |
| ResourceCatchUp.AnyBatchSizes | crates/platform/src/resources.rs:225-247 | however calls are cut, what they applied plus the rest of the feed is the whole feed |
| ResourceCatchUp.SyncManyIsRun | crates/platform/src/lib.rs:386-411 | the catch-up calls are steps of the sync protocol with the writers quiet |
| ResourceCatchUp.CompactionPreservesMeaning | crates/platform/src/resources.rs:92-175 | reading only latest versions gives the replica that replaying every version past the cursor would |
| ResourceRepository.AtomicInsert | crates/platform/src/resources.rs:92-112 | an insert adds its row, or meets a taken key and only uses up a number |
| ResourceRepository.AtomicChange | crates/platform/src/resources.rs:133-175 | a new version of a row never meets the unique constraint |
| ResourceRepository.AtomicRunsConverge | crates/platform/src/resources.rs:83-175 | with statements that do not overlap sync is always safe and converges |
| ResourceRepository.Repository.Create | crates/platform/src/resources.rs:92-112 | which of the three refusals applies, exactly, and what each leaves behind |
| ResourceRepository.Repository.GetOwned | crates/platform/src/resources.rs:115-130 | the row exactly when it exists, is the caller's and is not deleted |
| ResourceRepository.Repository.UpdateOwned | crates/platform/src/resources.rs:133-160 | None without effect for another's, missing or deleted row; otherwise exactly the six columns the statement sets, under the next number |
| ResourceRepository.Repository.SoftDeleteOwned | crates/platform/src/resources.rs:163-175 | false without effect for another's, missing or deleted row; otherwise exactly the deletion time, the update time and the next number are set |
| ResourceRepository.Repository.ListChanges | crates/platform/src/resources.rs:225-247 | a batch is ascending, of that owner, app and type, past the cursor and within the limit, and leaves out nothing below its last number, nor anything at all when short |
| ResourceRepository.Repository.CreateResource | crates/platform/src/lib.rs:246-298 | when a resource is created and which status answers each refused request |
| RateLimiter.LazyRefinesSimple | crates/auth/src/ratelimit.rs:74-109 | the lazily created, lazily refilled map answers like a total function of the key's failures that starts full |
| RateLimiter.ChecksAreInvisible | crates/auth/src/ratelimit.rs:74-78 | with an ordered clock, adding or deleting checks changes no later answer for any key |
| RateLimiter.OutOfOrderCheckIsVisible | crates/auth/src/ratelimit.rs:61-72 | an instance: out of order a check does change a later answer |
| LimiterChecks.CheckIsInvisibleIff | crates/auth/src/ratelimit.rs:74-109 | exactly when a check changes no later answer of any continuation, in or out of order |
| RateLimiter.UnblocksAfterWaiting | crates/auth/src/ratelimit.rs:92-109 | without new failures a key is let in exactly once the missing part of a token has been earned |
| RateLimiter.EarnedIsProportional | crates/auth/src/ratelimit.rs:100-105 | waiting earns time times rate |
| LimiterChecks.FreshKeyDrains | crates/auth/src/ratelimit.rs:80-84 | n failures leave a fresh key open exactly while capacity exceeds n by a whole token |
| LimiterChecks.BurstIsCapacity | crates/auth/src/ratelimit.rs:92-109 | however long a key has been left alone, no more than the capacity can be spent at once |
| LimiterChecks.SpentKeyWaits | crates/auth/src/ratelimit.rs:92-109 | a spent key is let in again exactly when one token has been earned |
| RateLimiter.Limiter.Refilled | crates/auth/src/ratelimit.rs:92-109 | creates, refills up to capacity, never moves the clock back |
| RateLimiter.Limiter.AllowedAt | crates/auth/src/ratelimit.rs:74-78 | one whole token, without spending it |
| RateLimiter.Limiter.RecordFailureAt | crates/auth/src/ratelimit.rs:80-84 | takes one token, stopping at zero |
| LoginThrottle.RateBound | crates/auth/src/ratelimit.rs:74-109 | with at most k attempts of a key in flight, at most k * (capacity + refill * window) admitted attempts fail in a window, despite charges lost at zero and timestamps out of order |
| LoginThrottle.RateBoundByTimestamps | crates/platform/src/account.rs:126-167 | the same bound for the handlers' own clock readings |
| LoginThrottle.FailuresPerWindow | crates/platform/src/account.rs:126-167 | the same for any choice of failures of a key in a window |
| LoginThrottle.Admission | crates/auth/src/ratelimit.rs:74-78 | an attempt is let in exactly when a whole token is there, counting what has been earned |
| LoginThrottle.FailureCharges | crates/auth/src/ratelimit.rs:80-84 | a failure takes one token from its own key, or what is left of one |
| Totp.Truncate | crates/auth/src/totp.rs:85-99 | the big-endian word of the four bytes that the last nibble selects, without its top bit |
| Totp.Hotp | crates/auth/src/totp.rs:85-99 | the low six decimal digits of the truncated MAC of that counter |
| Totp.FormatCodeRoundTrip | crates/auth/src/totp.rs:102-105 | six digits that spell the value |
| Totp.StepAt | crates/auth/src/totp.rs:62 | whole half minutes since the epoch, and 0 before it |
| Totp.TrimDropsOuterWhitespace | crates/auth/src/totp.rs:58 | trimming drops all white space at both ends and nothing else |
| Totp.WhitespaceIs | crates/auth/src/totp.rs:58 | the 25 white space characters that trimming drops |
| Totp.FirstStep | crates/auth/src/totp.rs:57-74 | the least counter of the clamped window that matches, or none does |
| Totp.MatchedStep | crates/auth/src/totp.rs:57-74 | trims, refuses what is not six digits, then the first matching counter |
| Totp.GeneratedCodeIsAccepted | crates/auth/src/totp.rs:79-82 | a generated code is accepted at every time whose step differs by at most one |
| Totp.AcceptedIffValueInWindow | crates/auth/src/totp.rs:57-74 | acceptance means exactly that some counter in the window truncates to the number spelled |
| TotpCredentials.StepsAreSingleUse | crates/auth/src/user_totp.rs:130-164 | over every interleaving the accepted steps of a credential strictly increase, each within one of its request's step |
| TotpCredentials.AcceptancesAreOwn | crates/auth/src/user_totp.rs:137-142 | over every interleaving an accepted request is by the user, and by the secret, of the credential it consumed |
| TotpCredentials.AcceptanceRate | crates/auth/src/user_totp.rs:130-164 | requests in [t0,t1] yield at most t1/30 - t0/30 + 3 acceptances per credential |
| TotpCredentials.AcceptancesPerPeriod | crates/auth/src/user_totp.rs:130-164 | the same for any choice of acceptances of a credential in a period |
| TotpCredentials.RepeatedCodeNeedsCoincidence | crates/auth/src/user_totp.rs:126-129 | a code accepted twice was accepted for different credential-step pairs |
| TotpCredentials.SameCodeAgain | crates/auth/src/user_totp.rs:144-160 | exactly when a code accepted at t1 is accepted again at t2 with nothing in between |
| TotpCredentials.SameCodeAtOnce | crates/auth/src/user_totp.rs:144-160 | with no time elapsed, some row always matches the code again |
| TotpCredentials.OneCodeCanSucceedTwice | crates/auth/src/user_totp.rs:157-160 | a reachable state in which it was |
| TotpCredentials.CredentialStore.StartEnrollment | crates/auth/src/user_totp.rs:37-59 | the new row is the user's only unverified one; verified rows and other users' rows are untouched |
| TotpCredentials.CredentialStore.Confirm | crates/auth/src/user_totp.rs:65-82 | verifies only the user's own unverified row |
| TotpCredentials.CredentialStore.Rename | crates/auth/src/user_totp.rs:194-210 | renames only the user's own verified row |
| TotpCredentials.CredentialStore.Delete | crates/auth/src/user_totp.rs:227-238 | removes only the user's own row |
| TotpCredentials.CredentialStore.ConsumeMatching | crates/auth/src/user_totp.rs:144-164 | stops at the first matching row and consumes the step if it is newer, otherwise fails without trying another |
| TotpCredentials.CredentialStore.VerifyAndConsume | crates/auth/src/user_totp.rs:130-164 | only a verified authenticator of that user is accepted, with a step newer than its last, and only its last step changes; it succeeds when every one that matches is fresh and one does |
| RecoveryCode.UnpackPack | crates/auth/src/recovery_code.rs:35-60 | 5-bit packing loses nothing |
| RecoveryCode.PackUnpack | crates/auth/src/recovery_code.rs:35-60 | and every run of whole groups is reached |
| RecoveryCode.CodeIsBaseThirtyTwo | crates/auth/src/recovery_code.rs:35-60 | each eight symbols are five of the bytes, as one big-endian number, in base 32 |
| RecoveryCode.GroupedAt | crates/auth/src/recovery_code.rs:49-58 | every fifth character is a hyphen and the others are the symbols in order |
| RecoveryCode.EncodeChunk | crates/auth/src/recovery_code.rs:35-60 | eight symbols of one five-byte chunk, written in place |
| RecoveryCode.EncodeGrouped | crates/auth/src/recovery_code.rs:35-60 | the printed code: 32 symbols with a dash between groups of four |
| RecoveryCode.Canonicalize | crates/auth/src/recovery_code.rs:78-89 | the loop computes the canonical form |
| RecoveryCode.CanonicalOneChar | crates/auth/src/recovery_code.rs:80-88 | which characters vanish, which become 1 or 0, and that all others become their upper case |
| RecoveryCode.CanonicalAppend | crates/auth/src/recovery_code.rs:78-89 | canonicalisation distributes over concatenation |
| RecoveryCode.CanonicalIdempotent | crates/auth/src/recovery_code.rs:78-89 | and is idempotent |
| RecoveryCode.SpellingsDecode | crates/auth/src/recovery_code.rs:62-89 | the 20 bytes are read back from the canonical form of exactly the spellings of the printed code |
| RecoveryCode.PrintedCodesAreDistinct | crates/auth/src/recovery_code.rs:35-60 | printed codes of different bytes are never spellings of one another |
| RecoveryCode.HashAcceptsSpellings | crates/auth/src/recovery_code.rs:66-70 | a text has the hash of a code exactly when it spells it, or the two canonical texts are a collision of the hash |
| RecoveryRotation.OneActiveRow | migrations/0002_auth.sql:42-44 | at most one row is ever active, exactly one from the first commit on |
| RecoveryRotation.RotationIsLinear | crates/auth/src/recovery_code.rs:160-199 | commits are one bootstrap and then rotations, each presenting the code its predecessor installed; no row is replaced twice |
| RecoveryRotation.SomebodyCanRotate | crates/auth/src/recovery_code.rs:160-199 | rotations and bootstraps never deadlock: some statement of an open transaction can always run |
| RecoveryRotation.PhasesAdvance | crates/auth/src/recovery_code.rs:160-199 | statements run in the handler's order, one stage at a time |
| RecoveryRotation.NothingFoundIsTrue | crates/auth/src/recovery_code.rs:160-199 | a rotation answers None only when no active row has the hash presented |
| RecoveryRotation.RecheckWaitsForHolder | crates/auth/src/recovery_code.rs:160-199 | a claim waits only for a transaction that has claimed the same row, and is refused only when the row has been replaced |
| RecoveryRotation.RotationAlone | crates/auth/src/recovery_code.rs:160-199 | a rotation with nobody else about, statement by statement |
| RecoveryRotation.RecoveryCodes.BootstrapCode | crates/auth/src/recovery_code.rs:106-122 | installs the first code, or fails without effect when one is active |
| RecoveryRotation.RecoveryCodes.Verify | crates/auth/src/recovery_code.rs:141-153 | answers the last installed row exactly for the spellings of its code, or for a collision of the hash |
| RecoveryRotation.RecoveryCodes.RotateCode | crates/auth/src/recovery_code.rs:160-199 | a spelling of the current code is necessary, but for a collision, and sufficient; the old row is marked, one new row added |
| TextEncoding.HexRoundTrip | crates/platform/src/registry.rs:76-82 | hex is invertible |
| TextEncoding.HexAt | crates/platform/src/registry.rs:76-82 | two lowercase digits a byte, the high one first |
| TextEncoding.HexEncode | crates/server/src/discovery.rs:116-124 | the table-driven loop computes it |
| TextEncoding.DecimalRoundTrip | crates/platform/src/registry.rs:90-105 | signed decimal is invertible |
| TextEncoding.DecimalIsPlain | crates/platform/src/registry.rs:90-105 | only digits behind an optional minus, none to spare in front |
| TextEncoding.DigitsArePositional | crates/auth/src/totp.rs:102-105 | reading digits: one more digit is ten times what is before it and itself |
| TextEncoding.JoinInjective | crates/platform/src/registry.rs:90-105 | separator-free lists with the same joined text are equal, or are the empty list and the list of one empty string |
| TextEncoding.SortDecidesPermutation | crates/platform/src/registry.rs:88-89 | sorted lists are equal exactly for permutations |
| TextEncoding.SortedIsUnique | crates/platform/src/registry.rs:88-89 | a multiset of strings has one sorted listing, whatever algorithm made it |
| TextEncoding.StringLeIs | crates/platform/src/registry.rs:88-89 | a prefix comes first, otherwise the first difference decides |
| Declaration.FormatHex | crates/platform/src/registry.rs:76-82 | the formatting loop computes the same hex |
| Declaration.CanonicalDeclarationText | crates/platform/src/registry.rs:87-106 | the formatted text, character for character, is the seven lines |
| Declaration.SignedTextDecidesDeclaration | crates/platform/src/registry.rs:84-106 | equal signed text exactly for equal scalar fields and resource types equal up to order |
| Declaration.SignedTextDecidesFields | crates/platform/src/registry.rs:84-106 | against a declaration without line breaks no other one, however crafted, has the same text with another scalar field |
| Declaration.TypesTextDecidesTypes | crates/platform/src/registry.rs:88-89 | the types text is the list up to order, except that no type reads like one empty name |
| DeclarationTwins.SignedTextIsUniqueIff | crates/platform/src/registry.rs:84-106 | exactly when a signed text stands for one declaration up to the order of its types |
| DeclarationTwins.ScalarTwinIff | crates/platform/src/registry.rs:90-105 | exactly when another declaration with another scalar field has the same text |
| DeclarationTwins.TypesTextIsUniqueIff | crates/platform/src/registry.rs:88-104 | exactly when the joined types give the list back up to order |
| DeclarationTwins.CommaMergesTypes | crates/platform/src/registry.rs:88-104 | every list of other than one type has the text of a single type |
| DeclarationTwins.NameKeyInName | crates/platform/src/registry.rs:90-105 | a name that spells out its key has a twin with another identifier |
| DeclarationTwins.Readings | crates/platform/src/registry.rs:90-105 | two readings of one text agree, or the first spells out a key or block |
| Discovery.FieldRoundTrip | crates/server/src/discovery.rs:111-114 | a framed field is read back exactly when it is shorter than 2^32 bytes |
| Discovery.PayloadRoundTrip | crates/server/src/discovery.rs:100-109 | a parser recovers every signed value and where the payload ends |
| Discovery.ParseIsExact | crates/server/src/discovery.rs:95-109 | what the parser accepts is the encoding of what it answers, followed by what it leaves |
| Discovery.PayloadsDoNotOverlap | crates/server/src/discovery.rs:95-109 | no signed payload is another one or its beginning |
| Discovery.RoundTripIffLengthsFit | crates/server/src/discovery.rs:111-114 | the length condition is exact |
| Discovery.ByteVector.PushField | crates/server/src/discovery.rs:111-114 | appends one framed field |
| Discovery.CanonicalBytes | crates/server/src/discovery.rs:100-109 | the six fields in order, byte for byte, each behind its length |
| Discovery.Handle | crates/server/src/discovery.rs:70-93 | refuses exactly the nonces over 256 bytes, otherwise signs a payload that parses back |

## Left out

- AccountDatabase: a handler method runs its statements without a break and stops where one has to wait; what others do in between is the state machine of `Accounts`, about which the other account theorems speak. The authenticated user is an existing one.
- AccountDatabase.Database.BootstrapOwner: the first-owner gate counts committed users outside the transaction, so two bootstraps may both pass it, and `Accounts` lets a bootstrap begin at any time. Device and session rows and the throttle in front of the handler are not modelled.
- AccountLiveness: foreign-key row locks and the writes of other services to the user tables are not modelled, so waits that go through them are not either.
- TotpCredentials.CredentialStore.VerifyAndConsume: does not say which order the database lists the rows in, because the query has none.
- ResourceSync: hard deletes emit no tombstone, so convergence is not claimed across them; rows are never removed in the model. The resource tables have one client per run; a server step does not depend on the client, so every client is covered.
- ResourceRepository: the app lookup and the insert's foreign key are two separate reads given as parameters; authentication, uuid parsing and the wire form of ids and times are reduced to parameters.
- Accounts: the password re-check and the actor's name are read before the transaction and enter as request fields; `lower` is an arbitrary function.
- Declaration: text is a sequence of characters, and UTF-8, which is injective, is not modelled; the library sort is a specified insertion sort, and by uniqueness any sort gives the same list. Signature verification only sees the text.
- RateLimiter: tokens are exact reals, without `f64` rounding; a poisoned mutex is not modelled.
- Totp: the shifts and masks of truncation are written as arithmetic; HMAC is any function to 20 bytes.
- TotpCredentials: opening a sealed secret never fails, and a deleted row's id is never drawn again.
- AuditLog: event data is a flat map of strings, canonical bytes are any function of the record, and leap seconds are excluded. AuditPaging leaves out offset paging, and the filter's text search is any predicate.
- `list_owned` and offset paging: ordered by a timestamp that is not unique, so there is no total order to prove against.
- Network and gRPC wiring, configuration, process management, key generation, sessions, invitations, devices and avatars: plumbing or plain table access.
