# Identra verification

Identra is an authentication service: its handlers are state machines over SQLite tables, expiring
Redis keys and an in-memory key ring. This project models those state machines and proves what the
service relies on over whole runs, including runs in which store calls fail, transactions roll back
and requests interleave. SHA-256, Argon2 and RS256 are arbitrary functions; the clock, random values,
provider answers and failures are inputs, and every theorem is for all of them.

Each component comes in two forms. The specification is a function on values (tables, keys, ring), one
per statement, script or call. The code that changes state is a class whose methods run step by step as
the service does and are proved equal to that function. The theorems are about the functions. For each
main operation one says exactly when it succeeds, what it then changes and why it is refused otherwise, in
terms of the tables, keys and calls it meets; the others are about whole runs.

| file | component |
|---|---|
| `Directory.dfy`, `OAuthLinking.dfy`, `OAuthService.dfy`, `OAuthAnswers.dfy`, `OAuthFailures.dfy`, `OAuthStranding.dfy` | users and external identities; OAuth login and linking as a protocol of single store calls; the service methods; how a request that runs alone ends; what failures leave behind; identities bound to deleted users |
| `Revocations.dfy`, `Sessions.dfy`, `OverlappingSessions.dfy` | the expiring revocation store; refresh-token rotation; refreshes and revocations that overlap |
| `RateLimiter.dfy`, `RateLimitRuns.dfy`, `RateLimitTightness.dfy`, `LoginHandlers.dfy`, `LoginAnswers.dfy` | fixed-window counters; any number of handlers sharing them; the bound is attained; the handlers that use them; whom they log in |
| `Scopes.dfy`, `ServiceAccounts.dfy`, `ServiceAccountRuns.dfy`, `ServiceAccountAnswers.dfy`, `OverlappingManagement.dfy` | scope lists; the transactions; the RPCs, bootstrap, and runs of them; which RPCs succeed; RPCs that overlap |
| `KeyRing.dfy` | the signing keys and the mirror fields |
| `Migrations.dfy` | schema migration over failures and restarts |
| `AuditPaging.dfy` | the audit log and the paging over it |
| `OAuthState.dfy` | the in-memory OAuth state store |
| `Base64.dfy`, `PasswordHash.dfy` | printing and parsing of password hashes |
| `GoText.dfy`, `Prelude.dfy` | the library string operations the service uses; shared types |

## Where the code and its promise part

The code is modelled as it is. Where it falls short of what one would expect, a lemma gives a concrete
case and another gives the exact condition.

- A used refresh token can be refreshed or revoked once more if it is validated before its expiry but its
  revocation is looked up only after it: by then the revocation key is gone (`Sessions.ReuseCondition`,
  `Sessions.SlowLookupReusesToken`). The same happens, with every lookup in time, when two requests look the
  token up before either revokes it (`OverlappingSessions.OverlappingRefreshesSpendTwice`). No token is spent
  twice if and only if no request spends its token after another one overtook it or after a late lookup
  (`OverlappingSessions.SpentOnceExactly`).
- A login can succeed and end with its user deleted and its identity bound to that deleted user. No later login
  or link of the identity succeeds (`OAuthStranding.StrandedIdentityIsLost`). It happens in three ways: a first
  login conflicts and takes back the row that a second one has merged onto (`OAuthStranding.OverlappingSignupsStrand`);
  the row is taken back just before the second one binds to it (`OAuthStranding.MergeOntoDeletedRow`); or an
  administrator deletes the user between the two calls (`OAuthStranding.DeletionDuringLoginStrands`). Only the
  second way takes a failing call. Exactly when, in every interleaving: `OAuthStranding.StrandedExactly`.
- A failed login leaves the tables as they were if and only if it did not get as far as inserting a user row
  (`OAuthFailures.FailureRestoresTables`, `OAuthFailures.InsertedExactly`); such a row stays, soft-deleted,
  and with it the email (`OAuthFailures.FailedSignupLeavesItsRow`), which is reserved for ever if and only if the
  clean-up went through: otherwise the row is live and an update of it can set the email free
  (`OAuthFailures.ReservedForEverExactly`).
- `Disable` reads the row back after its update. When that read fails the account is disabled, the
  caller gets an error and no audit row is written (`ServiceAccountRuns.DisableExplainedExactly`).
- When two disables overlap, the last two managers can disable each other
  (`OverlappingManagement.OverlappingDisablesLockOut`). Somebody can always manage service accounts if and
  only if no disable reaches the last one who can (`OverlappingManagement.ManagedExactly`), and it is enough
  that every disabling actor is still active when its own update runs.
- A limiter window under one second is cut to `EXPIRE 0`, which deletes the counter at once, so the limit is
  never reached (`RateLimitTightness.LimitsExactly`, `RateLimiter.LimitIsReachedExactly`). The limiters the
  service builds have constant windows of 15 minutes and one hour (internal/app/cache.go:42-72,
  internal/identra/config.go:16 and 23, internal/identra/service_accounts.go:23), so only another caller of
  `NewRedisRateLimiter` can reach this. A limiter error lets a request through; the bounds grow by one for
  each such request that finds the counter of its key full (`failedOpen`).
- A counter lives for the whole seconds of its window only. The bound for an interval of these is 2K - 1 attempts
  (`RateLimitRuns.AttemptsPerWindow`); for an interval of the configured window, which may have a fraction of a
  second more, it is 3K - 1 (`RateLimitRuns.AttemptsPerConfiguredWindow`).
- `AddKeyPassive` under the ID of the ACTIVE key would replace that entry and leave the mirror fields
  pointing at a key the ring does not sign with. IDs are truncated hashes, so the ring theorems name the
  exact condition instead of assuming fresh IDs (`KeyRing.StepIsConsistentExactly`).

## Model

| member | source | states |
|---|---|---|
| OAuthLinking.TablesStayConsistent | internal/store/sqlite/schema.sql:1-25 | in every interleaving of logins, links and other user writes each (provider, provider_user_id) has at most one binding, every binding points at a user row, and emails are distinct over live and deleted rows |
| OAuthLinking.BindingNeverMoves | internal/identra/service_oauth.go:191-222 | once an identity is bound, at every later point of every run it is bound to that user and to no other |
| OAuthLinking.SuccessNamesTheBoundUser | internal/identra/service_oauth.go:259-345 | a request that reports success names exactly the user its identity is bound to |
| OAuthLinking.SuccessesAgree | internal/identra/service_oauth.go:259-345 | any two successes for one identity, at any two points of a run, name the same user |
| OAuthLinking.InsertedRowsSettle | internal/identra/service_oauth.go:304-332 | when a request is over, the user row it inserted is bound to its identity or soft-deleted, or both, for ever, unless the compensating delete failed |
| OAuthLinking.DeletedRowsAreFrozen | internal/store/sqlite/queries.sql:24-41 | no statement changes a soft-deleted row, and no other row ever gets its email |
| OAuthLinking.RequestsFinish | internal/identra/service_oauth.go:259-345 | whatever runs in between, a request is over after at most five store calls of its own |
| OAuthAnswers.ReturningLoginExactly | internal/identra/service_oauth.go:267-275 | the login of a bound identity answers its owner, with the provider's email, if and only if the owner is live, no other row has that email and no call it needs fails; that email is the one change, and any other end is an error that changes nothing |
| OAuthAnswers.MergingLoginExactly | internal/identra/service_oauth.go:277-303 | a new identity with the email of a live user is bound to that user, who is answered, unless a call fails; then nothing is changed |
| OAuthAnswers.SignupExactly | internal/identra/service_oauth.go:304-332 | for a new identity whose email no live user has: the row and its binding are stored together if and only if no call fails, no deleted row has the email and the drawn IDs are new; the exact tables and code of every other end |
| OAuthAnswers.UnnamedLoginIsRefused | internal/identra/service_oauth.go:259-265 | a login without provider or provider user ID, or with a new identity and a blank email, is refused without change |
| OAuthAnswers.SuccessIsStored | internal/identra/service_oauth.go:259-345 | after a success the identity is bound to the answered user, whose row is live and as answered |
| OAuthAnswers.LoginIsIdempotent | internal/identra/service_oauth.go:259-345 | after a success the same login, with calls that do not fail, answers the same user and writes nothing |
| OAuthAnswers.NewLinkExactly | internal/identra/service_oauth.go:191-222 | linking a new identity to a live user binds it unless a call fails; then nothing is changed |
| OAuthAnswers.OldLinkExactly | internal/identra/service_oauth.go:191-196 | linking a bound identity succeeds for its owner, conflicts for anybody else, and writes nothing |
| OAuthAnswers.LinkWithoutUserIsRefused | internal/identra/service_oauth.go:186-189 | a link for a missing or deleted user, or without a provider user ID, is refused without change |
| OAuthFailures.InsertedExactly | internal/identra/service_oauth.go:259-345 | a request that runs alone inserts a user row if and only if it is a login with an identity and an email that are both new (deleted rows included) and its first three store calls go through |
| OAuthFailures.FailureRestoresTables | internal/identra/service_oauth.go:304-332 | a request that runs alone and fails leaves the tables exactly as they were if and only if it did not insert a row, stated on its inputs |
| OAuthFailures.InsertedRunFailsExactly | internal/identra/service_oauth.go:318-331 | from there it fails if and only if the insert of its identity does, and its clean-up fails if and only if the delete call does |
| OAuthFailures.FailureIsInvisible | internal/identra/service_oauth.go:304-332 | a failed request changes no binding, and leaves the live users as they were if and only if it inserted no row or its fifth call, the delete, went through |
| OAuthFailures.FailedSignupReservesItsEmail | internal/store/sqlite/store.go:31-58 | a failed request takes a free email if and only if it inserted a row, and then the next insert with that email fails |
| OAuthFailures.EmailStaysReserved | internal/store/sqlite/queries.sql:24-41 | if its clean-up went through as well, no insert with that email succeeds at any later point of any run |
| OAuthFailures.ReservedForEverExactly | internal/identra/service_oauth.go:318-331 | the email of a failed signup stays taken through every later run if and only if the compensating delete went through |
| OAuthFailures.FailedSignupLeavesItsRow | internal/identra/service_oauth.go:318-331 | for every table and every login with a new identity and email such a failing run exists, its clean-up going through |
| OAuthStranding.CallStrandsExactly | internal/identra/service_oauth.go:191-332 | a store call leaves an identity bound to a deleted user if and only if it is a clean-up that takes away a live row with a binding, or an insert of an identity that goes through for a user deleted by then |
| OAuthStranding.EventStrandsExactly | internal/identra/user_management.go:88-93 | of all other events only a delete by another handler that takes away a live row with a binding does |
| OAuthStranding.StrandedExactly | internal/identra/service_oauth.go:191-332 | in every interleaving a user ends as a deleted user with a binding if and only if some event of the run is one of these |
| OAuthStranding.OverlappingSignupsStrand | internal/identra/service_oauth.go:277-332 | from every state two overlapping first logins of one new identity can end with one successful and its user deleted by the other, without any failing call |
| OAuthStranding.MergeOntoDeletedRow | internal/identra/service_oauth.go:281-332 | from every state they can also end with one that fails to bind its row and takes it back, and the other bound to that deleted row and successful |
| OAuthStranding.DeletionDuringLoginStrands | internal/identra/service_oauth.go:278-303 | a user deleted between being found by email and being bound is stranded by one login that succeeds, without any failing call |
| OAuthStranding.StrandedIdentityIsLost | internal/identra/service_oauth.go:267-275 | once an identity is bound to a deleted user no login or link of it that begins later succeeds, in any run |
| OAuthLinking.ApplyKeeps | internal/identra/service_oauth.go:259-345 | one event of any kind keeps the table constraints and, for every request under way, the link between what it holds and what is stored |
| OAuthLinking.RunKeeps | internal/identra/service_oauth.go:259-345 | the same over whole runs, and no run undoes an identity, a user row or a deletion |
| OAuthService.Stores.EnsureOAuthUser | internal/identra/service_oauth.go:259-345 | the method ends in the tables and with the answer of the protocol run without interference |
| OAuthService.Stores.UpdateEmailIfNeeded | internal/identra/service_oauth.go:347-357 | the stored and returned email become the provider's when that differs and is not empty; the rest of the protocol from there |
| OAuthService.Stores.MergeByEmail | internal/identra/service_oauth.go:281-303 | binding to the user with the same email, with the re-fetch after a conflict, is the protocol from that state |
| OAuthService.Stores.SignUp | internal/identra/service_oauth.go:304-332 | creating user and identity, with the compensating delete, is the protocol from that state |
| OAuthService.Stores.BindNewUser | internal/identra/service_oauth.go:313-332 | the same from the point where the user row exists |
| OAuthService.Stores.LinkOAuthAccount | internal/identra/service_oauth.go:191-222 | the store part of linking ends in the tables and with the answer of the protocol run without interference |
| OAuthService.Stores.MergeOrSignUp | internal/identra/service_oauth.go:277-336 | the branch on the user with the same email is the protocol from that state |
| OAuthService.Stores.LinkToUser | internal/identra/service_oauth.go:191-222 | the lookup of a link and the branches on it are the protocol from that state |
| OAuthService.Stores.BindToUser | internal/identra/service_oauth.go:197-219 | the insert of a link and the re-fetch after a conflict are the protocol from that state |
| OAuthService.Stores.CreateUser | internal/store/sqlite/store.go:31-58 | inserts a row unless its ID or email is taken, deleted rows included, and keeps every constraint |
| OAuthService.Stores.Update | internal/store/sqlite/store.go:76-94 | rewrites a live row unless another row has the email; anything else is an error that changes nothing |
| OAuthService.Stores.Delete | internal/store/sqlite/store.go:96-110 | marks a live row as deleted and reports a missing or deleted one as not found |
| OAuthService.Stores.CreateIdentity | internal/store/sqlite/store.go:152-178 | inserts a binding under the ID it is given, or a drawn one, unless the identity is bound already; the owner must be a user row |
| OAuthService.Stores.GetByProviderID | internal/store/sqlite/store.go:180-189 | finds the one binding of an identity |
| Directory.LookupIsExact | internal/store/sqlite/store.go:180-189 | the lookup answers with a user exactly when the identity is bound to that user |
| Directory.CreateUserKeeps | internal/store/sqlite/schema.sql:1-10 | an insert keeps email and identity uniqueness and the foreign key, and undoes nothing |
| Directory.CreateIdentityKeeps | internal/store/sqlite/schema.sql:14-25 | so does the insert of an identity |
| Revocations.RevocationStore.Revoke | internal/cache/redis_refresh_token_revocation_store.go:34-43 | sets a key with the remaining life as TTL, and nothing for a token without ID or past its expiry |
| Revocations.RevocationStore.IsRevoked | internal/cache/redis_refresh_token_revocation_store.go:45-54 | reports a token while its key has not expired; a token without ID never |
| Revocations.ExpiringAgreesWithForever | internal/cache/redis_refresh_token_revocation_store.go:34-54 | for every history and instant, "unexpired and not reported" is "unexpired and never revoked" |
| Revocations.ForgetsAfterExpiry | internal/cache/redis_refresh_token_revocation_store.go:34-43 | past the expiry a revoked token is not reported any more |
| Sessions.SessionService.RefreshSession | internal/identra/service_tokens.go:15-49 | the handler as it runs, checks before writes, has the keys and answer of the specification; the pair is handed out only after the old token is revoked |
| Sessions.SessionService.RevokeSession | internal/identra/service_tokens.go:51-72 | the same for revocation |
| Sessions.RefreshSucceedsExactly | internal/identra/service_tokens.go:15-49 | a pair is handed out if and only if the token is signed, of type refresh, unexpired when validated and not reported, the store answers, the user is live, a pair can be signed and the revocation succeeds; the keys and the code of every other end |
| Sessions.RevokeSucceedsExactly | internal/identra/service_tokens.go:51-72 | the same for revocation |
| Sessions.SpentTokenIsRefused | internal/identra/service_tokens.go:74-88 | a token refreshed or revoked with success is refused by both RPCs until it expires |
| Sessions.UnretiredTokenIsAcceptedExactly | internal/identra/service_tokens.go:24-48 | in every reachable state a token no revocation took effect for is accepted if and only if it is validated in time and nothing fails |
| Sessions.TokensAreSpentOnce | internal/identra/service_tokens.go:24-48 | over every run of non-overlapping RPCs in which tokens that are validated in time are looked up in time, a refresh token is refreshed or revoked with success at most once, whichever revocation writes fail, before or after taking effect |
| Sessions.OneUsableTokenPerLogin | internal/identra/service_tokens.go:24-48 | in such a run a login and all refreshes descending from it never leave two usable refresh tokens |
| Sessions.ReportsNeverForgetTooEarly | internal/cache/redis_refresh_token_revocation_store.go:34-54 | over every run, late lookups included, a token is usable exactly when it is unexpired and no revocation of it took effect, so a spent token is not usable |
| Sessions.NoRefreshAfterDeletion | internal/identra/service_tokens.go:31-37 | after a user is deleted no refresh for that user ever succeeds, on any clock and with any failures |
| Sessions.ReuseCondition | internal/identra/service_tokens.go:24-69 | in every reachable state, reuses before it included, a retired token is refreshed, or revoked, again if and only if it was validated in time and looked up after its key expired, with no other failure on the way |
| Sessions.SlowLookupReusesToken | internal/identra/service_tokens.go:24-46 | a run in which this happens and one login ends with two usable tokens |
| OverlappingSessions.SpentAlreadyExactly | internal/identra/service_tokens.go:24-48 | with one store call a step, a request past its lookup holds a token that has been spent if and only if another request spent it since that lookup, or the lookup itself came after the token's expiry although the token was spent by then |
| OverlappingSessions.SpentOnceExactly | internal/identra/service_tokens.go:24-69 | in every interleaving of refreshes, revocations and logins, with any failures, no token is spent twice if and only if no request spends its token in one of these two situations |
| OverlappingSessions.ExclusiveLookupsSuffice | internal/identra/service_tokens.go:24-48 | if lookups are in time and nobody passes the lookup of a token while another request is past it, each token is spent at most once and each login has at most one usable token |
| OverlappingSessions.WholeRpcIsARun | internal/identra/service_tokens.go:15-72 | a refresh or revocation that nobody interrupts is the run of its single calls, with the same keys, and its token is spent if and only if it succeeds |
| OverlappingSessions.OverlappingRefreshesSpendTwice | internal/identra/service_tokens.go:24-48 | the run in which two refreshes look up one token in time, both revoke it with success, and its login has two usable tokens |
| RateLimiter.Limiter.IsAllowed | internal/cache/redis_rate_limiter.go:62-78 | allows a key while its live counter is below the limit |
| RateLimiter.Limiter.Record | internal/cache/redis_rate_limiter.go:80-93 | counts one; the deadline is set on the first increment only |
| RateLimiter.Limiter.Reset | internal/cache/redis_rate_limiter.go:95-97 | forgets the counter of that key and of no other |
| RateLimiter.Limiter.RateLimitAllowed | internal/identra/service_rate_limit.go:44-55 | asks every key in turn; the first error or refusal decides |
| RateLimiter.Limiter.RecordRateLimit | internal/identra/service_rate_limit.go:57-64 | counts the keys in turn and stops at the first write that reports failure |
| RateLimiter.PassingMeansAllBelow | internal/identra/service_rate_limit.go:44-55 | a request passes without error if and only if no check fails and every key is below its limit |
| RateLimiter.RefusedExactly | internal/identra/service_rate_limit.go:44-55 | a request is refused if and only if some key is full and every check before it is answered and below its limit |
| RateLimiter.RecordsEveryKey | internal/identra/service_rate_limit.go:57-64 | with writes that go through every key of a request goes up by one at its instant |
| RateLimiter.RateLimitKeys | internal/identra/service_rate_limit.go:10-20 | the email key comes first, and the client key follows if and only if a client is named |
| RateLimiter.ClientKeysAreNeverEmailKeys | internal/identra/service_rate_limit.go:10-20 | no email key is a client key, so a success clears no client counter and no request counts twice under one key |
| RateLimiter.RecordCountsOne | internal/cache/redis_rate_limiter.go:80-93 | the counted key goes up by one and every other counter stays as it is at every instant |
| RateLimiter.LimitIsReachedExactly | internal/cache/redis_rate_limiter.go:91-93 | as many attempts as the limit allows bring a fresh counter to the limit if and only if the window is at least a second |
| RateLimitRuns.NeverCounted | internal/cache/redis_rate_limiter.go:80-93 | with no whole second in the window no run ever leaves a counter on a key that had none |
| RateLimitRuns.CounterNeverExceedsCeiling | internal/identra/service_rate_limit.go:44-64 | if at most n handlers are ever past the check of a key, counter plus pending never exceeds max + n - 1 plus the requests on that key that a limiter error let through in the current window with the counter full, in every interleaving of single checks and writes |
| RateLimitRuns.AttemptsPerWindow | internal/cache/redis_rate_limiter.go:80-93 | on a key that is never reset, any half-open interval as long as the whole seconds of the window holds at most 2K - 1 attempts, K being the highest such ceiling of any window |
| RateLimitRuns.AttemptsPerConfiguredWindow | internal/cache/redis_rate_limiter.go:80-93 | an interval as long as the configured window, fraction of a second included, holds at most 3K - 1 |
| RateLimitRuns.TwiceCeilingNeverFits | internal/cache/redis_rate_limiter.go:80-93 | because windows open on a first increment only, the last of 2K attempts in a row is at least one window after the first |
| RateLimitTightness.BoundIsAttained | internal/cache/redis_rate_limiter.go:80-93 | for every limit, every n > 0 and every window of at least a second some run with at most n requests past the check and no limiter error puts exactly 2 (max + n - 1) - 1 attempts into one window |
| RateLimitTightness.LimitsExactly | internal/cache/redis_rate_limiter.go:80-93 | some run brings the counter of a key to the limit if and only if the window is at least a second |
| LoginHandlers.LoginService.LoginWithPassword | internal/identra/service_password.go:59-121 | on the trimmed email and its keys: a wrong password counts under every key, a right one clears the email key only, records the login and answers with a pair for the user; every other outcome leaves counters and users alone |
| LoginHandlers.LoginService.PasswordAttempt | internal/identra/service_password.go:65-121 | the same from the keys on, in source order |
| LoginHandlers.LoginService.Finish | internal/identra/service_password.go:107-120 | a right secret clears the email key unless that write is lost, records the login, and fails only if the pair can not be signed |
| LoginHandlers.LoginService.RecordLogin | internal/identra/service_user.go:9-15 | the login time is written with the whole row; a failing write is ignored |
| LoginHandlers.LoginService.LoginWithEmailCode | internal/identra/service_email_code.go:121-181 | the same for codes; the code is consumed exactly when it is right, in time, not refused by the limiter and the call takes effect, whether or not its answer arrives; only then a user is found or created and the login recorded |
| LoginHandlers.LoginService.CodeAttempt | internal/identra/service_email_code.go:127-181 | the same from the keys on, in source order |
| LoginHandlers.LoginService.FindOrCreate | internal/identra/service_email_code.go:155-165 | the user with the email, or a new row if there is none; any other error is passed on without a write |
| LoginHandlers.LoginService.Consume | internal/cache/redis_email_code_store.go:42-56 | a right, unexpired code is deleted, a wrong guess leaves it; the script may run and its answer be lost |
| LoginHandlers.LoginService.RequestEmailLoginCode | internal/identra/service_email_code.go:18-65 | every request the limiter lets through is counted before a code is drawn and stored, unless the limiter failed; a generator that fails, or a write that is not acknowledged, is an error |
| LoginHandlers.LoginService.SendCode | internal/identra/service_email_code.go:31-64 | the same from the keys on, in source order |
| LoginHandlers.CodesAreSpent | internal/cache/redis_email_code_store.go:50-56 | a code that was consumed can not be consumed again |
| LoginAnswers.PasswordLoginExactly | internal/identra/service_password.go:63-121 | for every verification function: a user is logged in if and only if it is the live one with the email, its stored hash verifies, the limiter does not refuse, the row can be read and a pair can be signed; the attempt is counted if and only if the verification says no, and counters and rows otherwise are as stated |
| LoginAnswers.PasswordLoginFailsFor | internal/identra/service_password.go:65-104 | the code of every failure: blank input, limiter, unreadable row, nobody with the email, no password, wrong password |
| LoginAnswers.OwnPasswordLogsIn | internal/identra/service_password.go:93-105 | a user whose stored hash was printed for a password is logged in by exactly the passwords that derive the same key, its own among them |
| LoginAnswers.AttemptsAreCounted | internal/identra/service_password.go:98-111 | a counted attempt raises each of its keys by one, a cleared email key is at 0 and every other counter stays |
| LoginAnswers.CodeLoginExactly | internal/identra/service_email_code.go:121-181 | a user is logged in if and only if the code is the stored one and in time, its consumption is acknowledged, the limiter does not refuse, the user is the live one with the email or can be created, and a pair can be signed; code, counters and rows after every end |
| LoginAnswers.CodeLoginFailsFor | internal/identra/service_email_code.go:121-181 | the code of every failure |
| LoginAnswers.CodeIsSentExactly | internal/identra/service_email_code.go:18-65 | a code is stored and mailed if and only if the email is not blank, the limiter does not refuse and generator, store and mailer work; counted if and only if every check is answered and below its limit |
| LoginAnswers.RightCodeExactly | internal/cache/redis_email_code_store.go:38-56 | over every history of stored and tried codes, with writes lost or unacknowledged: a code is right if and only if it is the last one stored for the email, its ten minutes are not over and no earlier try used it up |
| LoginHandlers.HandlerIsARun | internal/identra/service_password.go:69-111 | a handler on its own, whatever time passes between its limiter calls, is a run of the shared limiter with the same counters, so the interleaved bounds apply to it |
| Scopes.NormalizeScopes | internal/serviceaccount/bootstrap.go:214-232 | filling a set, copying it out in any order and sorting gives the specified list or the first error |
| Scopes.CollectMeaning | internal/serviceaccount/bootstrap.go:214-232 | it succeeds exactly when every trimmed value matches the pattern; the list is strictly ascending with the trimmed values as its members |
| Scopes.CheckServiceScope | internal/identra/service_accounts.go:178-188 | the loop grants exactly when some scope of the list grants |
| Scopes.WildcardMeaning | internal/identra/service_accounts.go:183-185 | a trailing wildcard grants exactly the permissions that continue its prefix |
| Scopes.NormalisingKeepsGrants | internal/serviceaccount/bootstrap.go:214-232 | the normalised list grants a permission if and only if some trimmed input scope does |
| Scopes.GrantingIsMonotone | internal/identra/service_accounts.go:178-188 | a list with more scopes grants at least as much |
| Scopes.ShorterWildcardGrantsMore | internal/identra/service_accounts.go:183-185 | a shorter wildcard grants everything a longer one does |
| ServiceAccounts.ServiceAccountStore.Create | internal/store/sqlite/service_accounts.go:30-43 | account and credential are inserted together, or everything is rolled back, at whichever statement it fails |
| ServiceAccounts.ServiceAccountStore.RotateCredential | internal/store/sqlite/service_accounts.go:143-168 | all credentials of an active account are revoked and one is added, or nothing changes |
| ServiceAccounts.ServiceAccountStore.Disable | internal/store/sqlite/service_accounts.go:126-141 | marks an active account; a failing read-back is an error after the mark is durable |
| ServiceAccounts.ServiceAccountStore.Bootstrap | internal/store/sqlite/service_accounts.go:170-221 | the steps with their rollbacks have the outcome of the specified transaction |
| ServiceAccounts.ServiceAccountStore.Authenticate | internal/store/sqlite/service_accounts.go:45-68 | accepts exactly an active account with an unrevoked, unexpired credential of that hash |
| ServiceAccounts.AuthenticatesExactly | internal/store/sqlite/service_accounts.go:45-68 | in valid tables an account has one unrevoked credential, and authentication succeeds if and only if the account is active and the hash is that credential's |
| ServiceAccounts.CreateKeeps | internal/store/sqlite/service_accounts.go:223-238 | a creation, failed or not, keeps names and hashes distinct and one unrevoked credential an account |
| ServiceAccounts.RotateKeeps | internal/store/sqlite/service_accounts.go:143-168 | so does a rotation, and the new credential is the current one |
| ServiceAccounts.DisableKeeps | internal/store/sqlite/service_accounts.go:126-141 | so does a disable, which is never undone |
| ServiceAccounts.BootstrapKeeps | internal/store/sqlite/service_accounts.go:170-221 | so does a bootstrap |
| ServiceAccounts.BootstrapIsAllOrNothing | internal/store/sqlite/service_accounts.go:170-221 | account, credential, marker and audit row appear together or nothing changes; an existing name or, unforced, the marker stops it |
| ServiceAccountRuns.ManagementService.AuthorizeServiceAccount | internal/identra/service_accounts.go:157-176 | the actor is authorised against its current row |
| ServiceAccountRuns.ManagementService.CreateServiceAccount | internal/identra/service_accounts.go:68-92 | the handler has the tables and answer of the specified RPC, audit row included, with the codes it reads from the error text and lengths in bytes |
| ServiceAccountRuns.ManagementService.DisableServiceAccount | internal/identra/service_accounts.go:110-132 | the same for disabling; the actor can not name itself |
| ServiceAccountRuns.ManagementService.RotateServiceAccountSecret | internal/identra/service_accounts.go:134-155 | the same for rotation |
| ServiceAccountRuns.ManagementService.RecordManagementAudit | internal/identra/audit.go:60-77 | appends one row, or is lost without changing the answer |
| ServiceAccountAnswers.CreateSucceedsExactly | internal/identra/service_accounts.go:68-92 | a creation succeeds if and only if the caller is an active manager, name and scopes are acceptable, name, IDs and secret are free and the transaction gets through; then the account has the trimmed name, exactly the trimmed scopes and one credential, and an error changes nothing |
| ServiceAccountAnswers.CreateIsRefusedFor | internal/identra/service_accounts.go:68-85 | the code of every refused creation, the caller's first |
| ServiceAccountAnswers.NewAccountAuthenticates | internal/store/sqlite/service_accounts.go:45-68 | a new account authenticates with its own secret and no other |
| ServiceAccountAnswers.RotateSucceedsExactly | internal/identra/service_accounts.go:134-155 | a rotation succeeds if and only if the caller is an active manager, the account is active, the new credential is free and the transaction gets through; then the new credential is the one current one and nobody else's changed |
| ServiceAccountAnswers.RotateIsRefusedFor | internal/identra/service_accounts.go:134-150 | the code of every refused rotation |
| ServiceAccountAnswers.RotatedAccountAuthenticates | internal/store/sqlite/service_accounts.go:143-168 | from a rotation on the account authenticates with the new secret and no other |
| ServiceAccountAnswers.DisableSucceedsExactly | internal/identra/service_accounts.go:110-132 | a disable takes effect if and only if an active manager names another active account and the update goes through, and succeeds if and only if the read after it does too; nothing else changes but the log |
| ServiceAccountAnswers.DisableIsRefusedFor | internal/identra/service_accounts.go:110-130 | the code of every refused disable |
| ServiceAccountAnswers.BootstrapExactly | internal/store/sqlite/service_accounts.go:170-221 | a bootstrap creates its account if and only if name, IDs and secret are free, it is forced or not yet completed and no statement fails; it answers with an existing account if and only if asked to and the name is taken |
| ServiceAccountRuns.RunKeeps | internal/store/sqlite/service_accounts.go:143-238 | every run of creations, rotations, disables and bootstraps, with any rollbacks, keeps the tables valid and undoes nothing |
| ServiceAccountRuns.OneCredentialAuthenticates | internal/store/sqlite/service_accounts.go:45-68 | in every reachable state every account has exactly one unrevoked credential, and authenticates exactly with its hash while not disabled |
| ServiceAccountRuns.RotatedOutHashIsDead | internal/store/sqlite/schema.sql:41-49 | the hash of a credential that stopped being current authenticates nobody at any later point of any run |
| ServiceAccountRuns.CredentialSurvives | internal/store/sqlite/service_accounts.go:143-168 | a credential stays current through every run without a rotation of its own account, restarts included |
| ServiceAccountRuns.SomebodyCanAlwaysManage | internal/identra/service_accounts.go:110-188 | with RPCs that do not overlap, once an active account can manage service accounts one always can, and it has an unrevoked credential |
| ServiceAccountRuns.DisablerRemains | internal/identra/service_accounts.go:110-132 | a disable that changes anything was ordered by a manager that is active and a manager afterwards, and takes out nobody but its target |
| OverlappingManagement.WholeDisableIsARun | internal/identra/service_accounts.go:110-132 | but for its audit row a disable RPC is the run of its authorisation and its update |
| OverlappingManagement.DisableLeavesAManagerExactly | internal/store/sqlite/service_accounts.go:126-141 | an update that reaches an active account leaves a manager if and only if there is one besides its target |
| OverlappingManagement.ManagedExactly | internal/identra/service_accounts.go:110-188 | in every interleaving of authorisations and transactions a manager exists at all times if and only if no update reaches the last one |
| OverlappingManagement.SomebodyCanAlwaysManageInterleaved | internal/identra/service_accounts.go:110-188 | so a manager always exists if every disabling actor is still active when its own update runs |
| OverlappingManagement.OverlappingDisablesLockOut | internal/identra/service_accounts.go:110-132 | the run in which the last two managers are both authorised, disable each other and leave no manager |
| ServiceAccountRuns.UnforcedBootstrapHappensOnce | internal/store/sqlite/service_accounts.go:188-202 | over any run unforced bootstraps create at most one account, none once the marker is set, and the marker stays |
| ServiceAccountRuns.RestartsChangeNothing | internal/app/identra.go:81-102 | server starts whose account name exists leave every table as it is, however many there are |
| ServiceAccountRuns.AuditLogReplays | internal/identra/audit.go:60-77 | if no audit row is lost and no disable fails after its update, replaying the log gives exactly the account IDs, the disabled ones and the number of credential rows of each |
| ServiceAccountRuns.DisableExplainedExactly | internal/store/sqlite/service_accounts.go:133-141 | a disable stays explained by the log if and only if the read after its update did not fail; otherwise it is disabled, answered with an error and unaudited |
| KeyRing.KeyManager.InitializeFromPEM | internal/security/jwks.go:76-138 | demotes the ACTIVE entry in place and makes the parsed key ACTIVE and mirrored; a parse error changes nothing |
| KeyRing.KeyManager.GenerateKeyPair | internal/security/jwks.go:142-180 | the same for a generated key |
| KeyRing.KeyManager.DemoteActive | internal/security/jwks.go:117-122 | the loop over the entries, in any order, demotes what was ACTIVE and nothing else |
| KeyRing.KeyManager.AddKeyPassive | internal/security/jwks.go:262-287 | stores a PASSIVE entry and leaves the mirror alone |
| KeyRing.KeyManager.PromoteKey | internal/security/jwks.go:291-320 | a PASSIVE key becomes the only ACTIVE one and the mirror; any other key is refused without change |
| KeyRing.KeyManager.DemoteKey | internal/security/jwks.go:324-347 | the ACTIVE key becomes PASSIVE and the mirror empty |
| KeyRing.KeyManager.RetireKey | internal/security/jwks.go:351-366 | removes a key that is not ACTIVE |
| KeyRing.KeyManager.ListSigningKeys | internal/security/jwks.go:223-258 | the list is strictly ascending by ID and holds exactly the keys of the ring |
| KeyRing.ConsistencyMeaning | internal/security/jwks.go:76-180 | entries in step with the mirror means: at most one is ACTIVE, and the mirror is empty exactly when none is |
| KeyRing.ErrorsChangeNothing | internal/security/jwks.go:262-366 | an operation that returns an error changes no entry and no mirror field |
| KeyRing.InstalledKeySigns | internal/security/jwks.go:76-180 | after a successful install the new key is the one ACTIVE key and the mirror is its own, and every other entry is kept with its keys; it fails if and only if there is no pair |
| KeyRing.PromotedKeySigns | internal/security/jwks.go:291-320 | the same for promotion, which succeeds if and only if the key is PASSIVE |
| KeyRing.DemotedKeyNoLongerSigns | internal/security/jwks.go:324-347 | a demoted key is kept as PASSIVE, no key is ACTIVE and the mirror is empty; only the ACTIVE key can be demoted |
| KeyRing.RetiredKeyIsGone | internal/security/jwks.go:351-366 | a retired key is gone and nothing else has changed; any key but an ACTIVE one can be retired |
| KeyRing.AddedKeyWaits | internal/security/jwks.go:262-287 | an added key is PASSIVE and nothing else has changed |
| KeyRing.ChosenKeyKeepsSigning | internal/security/jwks.go:76-366 | an installed or promoted key signs, alone, through every collision-free run in which no other key is chosen and it is not demoted |
| KeyRing.StepIsConsistentExactly | internal/security/jwks.go:76-366 | an operation keeps entries and mirror in step if and only if it does not add a PASSIVE key under the ID of the ACTIVE one |
| KeyRing.RingStaysConsistent | internal/security/jwks.go:76-366 | so they agree in every state of every run without such a collision |
| KeyRing.ListedUntilRetired | internal/security/jwks.go:223-258 | a listed key stays listed with the same public key until retiring it succeeds |
| KeyRing.SnapshotTokensVerify | internal/app/tokens.go:39-47 | a token signed with a snapshot of the mirror finds exactly one listed key of its ID, with the signer's public key, until that key is retired |
| KeyRing.SigningKeyCannotBeRetired | internal/security/jwks.go:360-362 | retiring the key that signs is refused and changes nothing |
| Migrations.Database.ApplyMigrations | internal/store/sqlite/database.go:67-125 | the loop of transactions ends in the schema, version and error of the specified start |
| Migrations.Database.Migrate | internal/store/sqlite/database.go:104-118 | script and version become durable together or not at all |
| Migrations.VersionIsThePrefix | internal/store/sqlite/database.go:87-94 | the version is the number before the first underscore of the name, and a name without one is invalid |
| Migrations.OpenSucceedsExactly | internal/store/sqlite/database.go:67-125 | a start succeeds if and only if the schema is not newer, nothing it needs fails and the files are numbered 1 to the supported version; then the schema is the supported one, and a newer schema is rejected untouched |
| Migrations.FailedStartKeepsEarlierFiles | internal/store/sqlite/database.go:82-125 | a start stops with the error of the first file with a bad name, a wrong number or a needed transaction that fails, and the schema then holds exactly the migrations before that file, or the old ones if these are more |
| Migrations.SchemaAlwaysMatchesVersion | internal/store/sqlite/database.go:67-125 | over any number of starts, builds and failures the schema is migrations 1..user_version in order, each once, and user_version never decreases |
| AuditPaging.AuditStore.Record | internal/store/sqlite/audit.go:22-35 | appends the event or reports an error without change |
| AuditPaging.AuditStore.List | internal/store/sqlite/audit.go:37-64 | the part of the newest-first listing that offset and limit select |
| AuditPaging.ListingIsSortedTable | internal/store/sqlite/audit.go:37-42 | the listing holds each row once in strictly descending order, ties broken by ID |
| AuditPaging.AuditService.ListAuditEvents | internal/identra/audit.go:25-58 | the handler answers as specified after authorisation; no slice is ever out of range |
| AuditPaging.RefusedExactly | internal/identra/audit.go:30-46 | an authorised request is refused as invalid if and only if its size is over 200 or its token is neither blank nor a number from 0 up, and fails otherwise only with the store; a page never exceeds its size, 50 by default |
| AuditPaging.DecimalToken | internal/identra/audit.go:37-53 | a printed page token parses back to its offset |
| AuditPaging.EveryInitialEventIsSeen | internal/identra/audit.go:37-54 | a client that follows the tokens sees every event that existed when it started, whatever newer events arrive in between |
| AuditPaging.PagesAreTheWholeLog | internal/identra/audit.go:37-54 | with no inserts the pages are the whole log, each event once and in order, in max(1, ceil(n / size)) requests |
| AuditPaging.TokensLeadToTheEnd | internal/identra/audit.go:51-54 | with no inserts, following the tokens from the first page reaches the last one |
| OAuthState.StateStore.Add | internal/oauth/state_store.go:43-54 | sweeps, then stores the value with its deadline |
| OAuthState.StateStore.Consume | internal/oauth/state_store.go:57-73 | sweeps, then removes and returns a value that is not past its deadline |
| OAuthState.StateStore.CleanupLocked | internal/oauth/state_store.go:75-82 | the loop terminates and deletes exactly the expired values, in any order |
| OAuthState.ConsumeAnswersHistory | internal/oauth/state_store.go:57-73 | Consume returns the latest Add's data if and only if it is not past its deadline and was not consumed since |
| OAuthState.ConsumedOnce | internal/oauth/state_store.go:66-66 | after a Consume nothing is outstanding until the next Add of the state |
| OAuthState.SweepIsInvisible | internal/oauth/state_store.go:75-82 | an extra sweep at any instant changes no answer of any later history of Adds and Consumes |
| Base64.DecodeOfEncode | internal/security/password.go:45-51 | encoded bytes decode to themselves and the text never holds a separator |
| PasswordHash.PrintedHashParsesBack | internal/security/password.go:44-78 | version, parameters, salt and digest are recovered from every printed hash |
| PasswordHash.VerifiesExactlyItsKey | internal/security/password.go:55-96 | a password verifies against a printed hash if and only if it derives the same key; every password verifies against its own hash |
| PasswordHash.DefaultsInRange | internal/security/password.go:14-28 | the parameters in use are covered by these theorems |

## Left out

- Sessions.TokensAreSpentOnce: holds for RPCs that do not overlap and for lookups made before the token expires, because check and write are separate calls; OverlappingSessions.SpentOnceExactly is exact for RPCs that overlap, and ReuseCondition for late lookups.
- Sessions.OneUsableTokenPerLogin: under the same two hypotheses; OverlappingSessions.ExclusiveLookupsSuffice has it for RPCs that overlap but take turns after the lookup.
- ServiceAccountRuns.SomebodyCanAlwaysManage: for RPCs that do not overlap; for those that do, OverlappingManagement.ManagedExactly has the exact condition.
- ServiceAccountRuns.AuditLogReplays: rebuilds credential counts, not which credential is current, because audit rows do not name credentials.
- OAuthLinking.RunKeeps: a database write takes effect exactly when it reports success; for Redis writes the model also has writes that take effect and report failure. No query removes an identity row, and recordLogin at the end of an OAuth login is among the arbitrary user-row updates.
- LoginHandlers.LoginService.LoginWithPassword: signing the token pair is reduced to whether it fails, and lower-casing is an arbitrary function.
- Registration, password reset and user management: their writes are among those that interleave with OAuth requests.
- LoginHandlers.HandlerIsARun: is about a handler nobody interrupts; the interleavings are those of the shared limiter's single calls.
- PasswordHash.VerifyPassword: Argon2's own panics on zero time or threads are not part of this model.
- The parsing of client-address headers: the client name is an input.
- Services built without a limiter, a revocation store, a mailer or an audit store: they skip the calls modelled here.
- created_at and updated_at columns, audit metadata and the JSON form of scopes: no decision reads them.
- One clock for the service and Redis, and the millisecond rounding of Redis TTLs: deadlines are exact instants.
- Validation of bootstrap requests with a given client ID and secret, and the case-insensitive comparison of client IDs at server start: the record is an arbitrary input and a mismatch only stops the server.
- Token printing and signing, and the type checks on access and service tokens: only the refresh-token check decides a modelled property.
- ListUsers paging: its order has no tie-break, so pages are not determined.
- ListServiceAccounts and ExchangeServiceToken: the first only reads, the second is authentication and the limiter again.
- The Redis OAuth state store: one atomic get-and-delete per call, with no sweep to reason about.
- PEM parsing, key generation, key-file writes, and a key map that is nil instead of empty: the pair is an input and both maps behave alike.
- SQL and Redis execution: each statement or script is one atomic step, and a migration's script is an opaque schema change.
