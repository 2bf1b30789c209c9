# Verified model of the authentication, captcha, notification and permission cores

This project models, in Dafny 4.11, the parts of the system that keep real state, and proves what holds
over every run of them. `dafny verify dfyconfig.toml` checks all of it.

| files | what they model |
|---|---|
| `Lockout`, `LockoutInterleaving`, `LoginHandler` | failed-login window, lock and captcha threshold of the login handler |
| `Sessions`, `SessionInterleaving`, `ResetInterleaving`, `SessionHandlers` | refresh-token rotation, reuse detection, logout, password reset and change |
| `TokenVersions`, `TokenVersionInterleaving`, `AccessClaims`, `AccessInterleaving`, `TokenVersionService` | the Redis cache over a user's token version, and access tokens against the stored row |
| `CaptchaTypes`, `CaptchaAllocation`, `CaptchaChallenges`, `CaptchaInterleaving`, `CaptchaHandlers` | the captcha pool, the pop and reserve loop, the life of a challenge |
| `Notifications`, `NotificationHandlers` | notification rows, the job queue, the worker and the cron |
| `Abilities` | the ability cache, the guard, and the permission table they must agree with |
| `Password`, `Slicing` | the password generator with its in-place shuffle; page arithmetic and the batch loops of the mail queue |

Code that changes state step by step is a class whose methods carry the statements of the source in their
order, each specified by a function on values; the theorems over whole runs are about those functions.
What comes from outside is a parameter: clock readings, random draws and fresh ids, the verdicts on
passwords, signatures and captcha answers, and whether a Redis call, a queue add or a database read takes
effect. Times are integer milliseconds. A single database statement or Redis call is atomic, the queue
ignores an add whose job id exists, and ids and token ids never repeat.

Two kinds of theorem are kept apart. *Atomic* ones treat one handler run as one step: the failure bounds
of the lockout, rotation chains and session conservation, one-time reset tokens, the captcha lifecycle.
*Statement level* ones interleave handlers at every database or Redis call: the soundness of the lockout
columns, the finality of revocation and of spending a reset token, the version cache, access claims,
captcha allocation and verification, delivery. For the lockout, the refresh, the reset, the captcha
verification, the version cache and the notification worker a lemma shows that an undisturbed run of the
statements is the atomic step.

Several guarantees of the atomic handlers have gaps at statement level, since nothing makes the handlers
transactions. For each the table names the theorem that says when it holds and the one that says when, or
from where, it fails; those marked "iff" are one theorem with both halves.

| guarantee | holds at statement level | fails |
|---|---|---|
| the cache rests coherent | iff no step crosses a write-back or abandons a stale cache: `TokenVersionInterleaving.RunIsSafeIff` | from every crossing: `TokenVersionInterleaving.CrossingGoesStale` |
| tokens of the stored version are current, with no bump due | iff no row write is lost, its update having read older values: `AccessClaims.RunIsConsistentIff`; serialised updates and unlocks lose none: `AccessClaims.SerialisedRunsAreOrderly` | `AccessClaims.OverlappingUpdatesKeepAStaleToken`, `AccessClaims.OverlappingUnlockLeavesABlockedToken` |
| the same, with a bump due | iff they were read after the row write: `AccessClaims.CurrentBeforeTheBumpIff` | `AccessClaims.StaleBeforeTheBump` |
| a refresh row is issued from once | from every state iff the row is closed and fewer than two refreshes have accepted it: `SessionInterleaving.CanIssueTwiceIff` | in every other state, same theorem |
| a reset token is spent once | from every state iff the token is closed and fewer than two resets use it: `ResetInterleaving.CanBeSpentTwiceIff` | in every other state, same theorem |
| bulk revocation leaves no session | but those of handlers in flight, later logins and their successors: `SessionInterleaving.LiveRowsAfterRevocation` | from every state with a handler in flight: `SessionInterleaving.InFlightSurvivesRevocation` |
| the bounds on counted failures | when no login begins and no unlock happens during a login: `LockoutInterleaving.SoloFailuresAreBounded` | `LockoutInterleaving.OverlappingFailuresCountOnce`, `LockoutInterleaving.StaleFailureUndoesUnlock` |
| the captcha lifecycle | from rest, in every run iff the challenge is closed or expired: `CaptchaInterleaving.CanBreakIff`; and in every run without overlap on it: `CaptchaInterleaving.LifecyclesHoldWithoutOverlap` | from rest for every other challenge, same theorem |

Where the code and its documentation differ the model follows the code: `README.md:305` of the repository
speaks of a rolling 15-minute window and of an alert to an admin, while the handler uses a fixed window
opened by its first failure and mails the user. The handler compares window starts by object identity;
the model compares values, which decides the same, as a fresh start is only taken when the stored one is
more than a window old or absent.

## Model

| member | source | states |
|---|---|---|
| `Lockout.RowTellsHistory` | apps/auth-service/src/modules/auth/application/handlers/login.handler.ts:137-175 | After any run of atomic logins, edits and unlocks from a clean account, the three lockout columns are a function of the times of the counted failures since the last success or unlock: attempts counts those of the current window, the window starts at its first one, the lock is set at the fifth |
| `Lockout.RowStep` | apps/auth-service/src/modules/auth/application/handlers/login.handler.ts:137-175 | One event keeps the row in step with the failure times, whether it clears, counts or does neither |
| `Lockout.CaptchaFromTheThirdFailure` | apps/auth-service/src/modules/auth/application/handlers/login.handler.ts:162-168 | A rejected login asks for a captcha exactly from the third failure of the window on |
| `Lockout.LockedOutExactly` | apps/auth-service/src/modules/auth/application/handlers/login.handler.ts:49-95 | In every run, on the account's own columns and the failures on record, what any attempt is answered: not verified, blocked, locked (exactly during the half hour after the fifth failure of a window, with its end), success (exactly for the right password otherwise) or invalid credentials; whoever is turned away leaves the account as it was |
| `Lockout.FailuresAreAmortised` | apps/auth-service/src/modules/auth/application/handlers/login.handler.ts:13-16 | In any run, F counted failures with no success or unlock in between span at least (F - 5)(W + 1) / 4 ms, W being the window of 15 minutes |
| `Lockout.EarlierWindowsAreCharged` | apps/auth-service/src/modules/auth/application/handlers/login.handler.ts:137-175 | The invariant behind it: a window holds at most five failures, and each failure before the current window has paid (W + 1) / 4 of elapsed time, the lock paying for the fifth |
| `Lockout.AmortisedBoundIsTight` | apps/auth-service/src/modules/auth/application/handlers/login.handler.ts:13-16 | For every number of windows some run attains the bound with equality |
| `Lockout.AdmissibleTimesOccur` | apps/auth-service/src/modules/auth/application/handlers/login.handler.ts:137-175 | Conversely to RowTellsHistory, every sequence of times that respects window and lock is what some run shows |
| `Lockout.NoNineWithinAWindow` | apps/auth-service/src/modules/auth/application/handlers/login.handler.ts:137-175 | Nine failures never fall within W ms: two windows at most are met, and a locked one excludes the next |
| `Lockout.AtMostEightPerWindow` | apps/auth-service/src/modules/auth/application/handlers/login.handler.ts:59-70 | Any closed interval of W ms holds at most eight counted failures of a run |
| `Lockout.EightDoOccur` | apps/auth-service/src/modules/auth/application/handlers/login.handler.ts:137-175 | Eight counted failures do occur, within one millisecond |
| `LockoutInterleaving.FailureIsSound` | apps/auth-service/src/modules/auth/application/handlers/login.handler.ts:137-149 | A failure decided on any unlocked sound copy of the row writes sound columns; on a copy with an expired lock it writes attempt 1 of a new window |
| `LockoutInterleaving.LockColumnsStaySound` | apps/auth-service/src/modules/auth/application/handlers/login.handler.ts:89-149 | Statement level, any number of handlers on stale copies: 0 <= attempts <= 5, attempts = 0 iff no window, attempts = 5 iff a lock is set, and a lock reaches at least 30 minutes past its window start |
| `LockoutInterleaving.ExpiredLockStartsOver` | apps/auth-service/src/modules/auth/application/handlers/login.handler.ts:59-70 | Statement level: a handler let through on an expired lock that then rejects writes attempts = 1, a window that opens now, no lock |
| `LockoutInterleaving.LetThroughIff` | apps/auth-service/src/modules/auth/application/handlers/login.handler.ts:49-70 | Statement level: a handler is let through exactly when the row it fetched is verified, not blocked and not locked by the clock |
| `LockoutInterleaving.SoloFailuresAreBounded` | apps/auth-service/src/modules/auth/application/handlers/login.handler.ts:39-175 | Statement level: in every run from a clean idle row in which no login begins and no unlock happens while a login is under way, the wrong passwords since the last clearing respect window and lock, are amortised, and number at most eight within W ms; between logins the row says which they were |
| `LockoutInterleaving.StaleFailureUndoesUnlock` | apps/backend/src/modules/users/application/handlers/user-unlock.handler.ts:20-25 | The condition on unlocks is real: from every state in which a login is let through, an unlock followed by its rejection leaves the count of its old copy |
| `LockoutInterleaving.OverlappingFailuresCountOnce` | apps/auth-service/src/modules/auth/application/handlers/login.handler.ts:39-80 | So is the condition on logins: from every idle state of an account that may try, any number of overlapping wrong passwords can be rejected at one instant and leave the row as a single failure does |
| `LockoutInterleaving.AloneIsLogin` | apps/auth-service/src/modules/auth/application/handlers/login.handler.ts:39-135 | The steps of an undisturbed handler do to the row what the atomic login does, so the atomic theorems are about one of the interleavings |
| `LoginHandlers.LoginHandler.RejectInvalidCredentials` | apps/auth-service/src/modules/auth/application/handlers/login.handler.ts:137-169 | Writes exactly the three lockout columns a failure calls for and answers with the captcha verdict on the new count |
| `LoginHandlers.LoginHandler.Execute` | apps/auth-service/src/modules/auth/application/handlers/login.handler.ts:39-135 | One login over the tables: each outcome exactly when its guard on the row's own columns is the first to decide, tokens exactly on success and with the claims of the row, one unrevoked refresh row with its token and expiry per success, users and sessions unchanged when turned away, lockout columns as the atomic login, rehash on success, every other user untouched |
| `Sessions.ChainsAreLines` | apps/auth-service/src/modules/auth/application/handlers/refresh-tokens.handler.ts:29-88 | In every run of atomic handlers each refresh row has at most one successor, and of each chain rooted at a login at most one row is unrevoked, the newest |
| `Sessions.ReuseRevokesEverything` | apps/auth-service/src/modules/auth/application/handlers/refresh-tokens.handler.ts:35-41 | Presenting any row of a chain but its newest, with a JWT that verifies, yields no tokens, revokes every row of that user and no other row |
| `Sessions.LiveRowIsAccepted` | apps/auth-service/src/modules/auth/application/handlers/refresh-tokens.handler.ts:43-93 | Conversely an unrevoked, unexpired row of a user who may log in is accepted, replaced by exactly one new row that descends from it, and nothing else changes |
| `Sessions.RefreshIssuesIff` | apps/auth-service/src/modules/auth/application/handlers/refresh-tokens.handler.ts:22-62 | In every run, on rows, users and clock alone: a refresh issues if and only if its JWT verifies, an unrevoked and unexpired row holds its token, and its user exists, is verified and not blocked; each refusal is given exactly when its own guard is the first to fail |
| `Sessions.RefreshTouchesOnly` | apps/auth-service/src/modules/auth/application/handlers/refresh-tokens.handler.ts:22-94 | A refusal other than a detected reuse leaves the tables as they were; a detected reuse revokes exactly the rows of the user; an issue rotates exactly one row of the token |
| `Sessions.LogoutRevokesIff` | apps/auth-service/src/modules/auth/application/handlers/logout.handler.ts:18-28 | A logout succeeds if and only if its JWT verifies and an unrevoked row holds the token; a verified one leaves no such row and every other row as it was, an unverified one changes nothing |
| `Sessions.LoggedOutIsFinal` | apps/auth-service/src/modules/auth/application/handlers/logout.handler.ts:18-28 | No run issues from a token on record after it was logged out with a JWT that verified |
| `Sessions.ResetSucceedsIff` | apps/auth-service/src/modules/auth/application/handlers/reset-password.handler.ts:22-41 | A reset is accepted if and only if the new password has at least 12 characters and its token is on record, unused and unexpired; then the token is used and exactly the rows of its user are revoked; each refusal has its own guard and changes nothing |
| `Sessions.LoginIsRefreshable` | apps/auth-service/src/modules/auth/application/handlers/refresh-tokens.handler.ts:43-46 | The token of a login is accepted until the expiry it was given and refused as expired after it |
| `Sessions.EventBalances` | apps/auth-service/src/modules/auth/infrastructure/repositories/drizzle/refresh-token-repository.drizzle.ts:36-67 | Each event changes the number of unrevoked rows of each user as its kind says; rotation leaves it unchanged |
| `Sessions.SessionsAreConserved` | apps/auth-service/src/modules/auth/infrastructure/repositories/drizzle/refresh-token-repository.drizzle.ts:36-67 | In every run the unrevoked rows of a user number exactly its logins minus its successful logouts since its last bulk revocation |
| `Sessions.ResetTokensAreOneTime` | apps/auth-service/src/modules/auth/application/handlers/reset-password.handler.ts:28-36 | No run resets a password twice with the same reset token |
| `Sessions.LogoutRevokesOne` | apps/auth-service/src/modules/auth/infrastructure/repositories/drizzle/refresh-token-repository.drizzle.ts:56-63 | Revoking by token takes exactly one session from the count of the token's user when it reports success, none when it does not, and none from any other user |
| `Sessions.LiveWhenRevokingAll` | apps/auth-service/src/modules/auth/infrastructure/repositories/drizzle/refresh-token-repository.drizzle.ts:65-67 | Revoking all of a user leaves that user no session and every other user the same number |
| `Sessions.FindByToken` | apps/auth-service/src/modules/auth/infrastructure/repositories/drizzle/refresh-token-repository.drizzle.ts:47-50 | Finds a row with the token, or none exists |
| `SessionInterleaving.RevocationIsFinal` | apps/auth-service/src/modules/auth/application/handlers/refresh-tokens.handler.ts:29-41 | Statement level: rows are only ever added or revoked, and a revoked row is accepted by no refresh that starts later, in any continuation |
| `SessionInterleaving.BulkRevocationIsFinal` | apps/auth-service/src/modules/auth/application/handlers/change-password.handler.ts:42-44 | Statement level: once a reset, a change or reuse detection has revoked all rows of a user, none of the rows that existed then is accepted by a refresh that starts afterwards |
| `SessionInterleaving.OnlyOverlappingRotations` | apps/auth-service/src/modules/auth/application/handlers/refresh-tokens.handler.ts:64-88 | Statement level: once a refresh has issued from a row, no refresh that starts later is accepted from it, so only overlapping refreshes can both rotate it |
| `SessionInterleaving.AdmittedTogetherForkTheChain` | apps/auth-service/src/modules/auth/application/handlers/refresh-tokens.handler.ts:64-88 | Two refreshes can share a row: from every state in which two refreshes are admitted on one row of a user who may log in, some run lets both issue and leaves two unrevoked rows in its place |
| `SessionInterleaving.OverlappingRefreshesForkTheChain` | apps/auth-service/src/modules/auth/application/handlers/refresh-tokens.handler.ts:22-94 | So every live row can be forked by two new refreshes that overlap |
| `SessionInterleaving.CanIssueTwiceIff` | apps/auth-service/src/modules/auth/application/handlers/refresh-tokens.handler.ts:22-94 | Exactly: from every state, for every row its token finds, some run lets two refreshes issue from it if and only if it is unrevoked and unexpired or two refreshes have accepted it already |
| `SessionInterleaving.ClosedToNewcomers` | apps/auth-service/src/modules/auth/application/handlers/refresh-tokens.handler.ts:35-46 | Once a row is revoked or expired nobody comes to accept it who did not before, in any continuation |
| `SessionInterleaving.LiveRowsAfterRevocation` | apps/auth-service/src/modules/auth/application/handlers/reset-password.handler.ts:34-37 | After a bulk revocation every live row of the user is new, and was inserted by a handler then in flight, by a login that started later, or by a refresh of a row newer than the revocation |
| `SessionInterleaving.InFlightSurvivesRevocation` | apps/auth-service/src/modules/auth/application/handlers/reset-password.handler.ts:34-37 | Whatever is in flight does survive: from every state with a login or an accepted refresh of the user under way some run leaves a live session after the revocation |
| `SessionInterleaving.RefreshAlone` | apps/auth-service/src/modules/auth/application/handlers/refresh-tokens.handler.ts:22-94 | The statements of one undisturbed refresh leave the rows as the atomic refresh does |
| `ResetInterleaving.SpendingIsFinal` | apps/auth-service/src/modules/auth/application/handlers/reset-password.handler.ts:28-36 | Statement level: a spent reset token stays spent, and no reset that starts later uses it, in any continuation |
| `ResetInterleaving.OnlyOverlappingResets` | apps/auth-service/src/modules/auth/application/handlers/reset-password.handler.ts:22-41 | Statement level: once a reset has succeeded, none that starts later uses its token |
| `ResetInterleaving.AdmittedTogetherBothSucceed` | apps/auth-service/src/modules/auth/application/handlers/reset-password.handler.ts:28-37 | Two resets can share a token: whenever two resets have read one token as valid, some run lets both succeed, and the later password stays |
| `ResetInterleaving.OverlappingResetsShareAToken` | apps/auth-service/src/modules/auth/application/handlers/reset-password.handler.ts:22-41 | So every valid token can be spent twice by two new resets that overlap |
| `ResetInterleaving.CanBeSpentTwiceIff` | apps/auth-service/src/modules/auth/application/handlers/reset-password.handler.ts:22-41 | Exactly: from every state, for every token on record, some run lets two resets succeed with it if and only if it is valid now or two resets use it already |
| `ResetInterleaving.ClosedToNewcomers` | apps/auth-service/src/modules/auth/application/handlers/reset-password.handler.ts:28-32 | Once a token is used or expired nobody comes to use it who did not before, in any continuation |
| `ResetInterleaving.ResetAlone` | apps/auth-service/src/modules/auth/application/handlers/reset-password.handler.ts:22-41 | The statements of one undisturbed reset do and answer what the atomic reset does |
| `SessionHandlers.RefreshTokenRepository.Create` | apps/auth-service/src/modules/auth/infrastructure/repositories/drizzle/refresh-token-repository.drizzle.ts:36-45 | Adds one unrevoked row and changes no other |
| `SessionHandlers.RefreshTokenRepository.RevokeById` | apps/auth-service/src/modules/auth/infrastructure/repositories/drizzle/refresh-token-repository.drizzle.ts:52-54 | Revokes one row |
| `SessionHandlers.RefreshTokenRepository.RevokeByToken` | apps/auth-service/src/modules/auth/infrastructure/repositories/drizzle/refresh-token-repository.drizzle.ts:56-63 | The conditional update agrees with its specification, rows and verdict |
| `SessionHandlers.RefreshTokenRepository.RevokeAllForUser` | apps/auth-service/src/modules/auth/infrastructure/repositories/drizzle/refresh-token-repository.drizzle.ts:65-67 | The bulk update agrees with its specification |
| `SessionHandlers.AuthHandlers.RefreshTokens` | apps/auth-service/src/modules/auth/application/handlers/refresh-tokens.handler.ts:22-94 | The guarded sequence of reads, revocations and the insert does to the tables, and answers, what the atomic refresh event does; on the columns it issues exactly when JWT, row and user allow it, and refusals other than reuse write nothing |
| `SessionHandlers.AuthHandlers.Logout` | apps/auth-service/src/modules/auth/application/handlers/logout.handler.ts:18-28 | Succeeds exactly when the JWT verifies and an unrevoked row holds the token, none of which is left; an unverified JWT changes nothing |
| `SessionHandlers.AuthHandlers.ResetPassword` | apps/auth-service/src/modules/auth/application/handlers/reset-password.handler.ts:22-41 | Rejects short passwords, and unknown, used or expired tokens, each with its own reason and no effect; otherwise sets the password, spends the token and revokes all rows of its user |
| `SessionHandlers.AuthHandlers.ChangePassword` | apps/auth-service/src/modules/auth/application/handlers/change-password.handler.ts:20-48 | Each of the four failure reasons exactly when its guard fails first, with no effect; success exactly when the new password is long enough and the current one verifies, and then it is set and all rows of the user are revoked |
| `TokenVersions.BumpIsCoherentIff` | apps/backend/src/modules/users/infrastructure/services/auth-token-version.service.ts:45-57 | A bump leaves the cache absent, garbled or equal to the stored version exactly when one of its Redis calls takes effect or nothing was cached |
| `TokenVersions.BumpLeaves` | apps/backend/src/modules/users/infrastructure/services/auth-token-version.service.ts:45-57 | What a bump leaves cached, by which of its calls took effect: nothing after a fallback, else the new version, else nothing, else what was there; the stored version rises by one |
| `TokenVersions.LookupLeaves` | apps/backend/src/modules/users/infrastructure/services/auth-token-version.service.ts:63-91 | A lookup that reaches a cached version answers it and writes nothing; any other answers the stored version and caches it when the call takes effect |
| `TokenVersions.NeverAhead` | apps/backend/src/modules/users/infrastructure/services/auth-token-version.service.ts:45-91 | Whatever Redis does the cache is never ahead, and the stored version is the first one plus the number of bumps |
| `TokenVersions.EffectiveBumpsKeepLookupsExact` | apps/backend/src/modules/users/infrastructure/services/auth-token-version.service.ts:45-91 | With an effective Redis call in every bump, any sequence of operations keeps the cache coherent and every lookup answers the stored version, whatever reads and restores fail |
| `TokenVersions.IneffectiveBumpGoesStale` | apps/backend/src/modules/users/infrastructure/services/auth-token-version.service.ts:45-77 | Otherwise the old version stays cached and every lookup that reaches Redis answers it |
| `TokenVersionInterleaving.NothingIsAhead` | apps/backend/src/modules/users/infrastructure/services/auth-token-version.service.ts:45-99 | Statement level, any number of lookups and bumps, any failures: neither cache nor write-back under way nor answer exceeds the stored version |
| `TokenVersionInterleaving.CoherentAtRest` | apps/backend/src/modules/users/infrastructure/services/auth-token-version.service.ts:45-99 | Statement level: with no bump left past its increment the cache is coherent, unless a write-back was carried across another bump's increment or a stale cache was given up on |
| `TokenVersionInterleaving.TidyIffSafe` | apps/backend/src/modules/users/infrastructure/services/auth-token-version.service.ts:45-99 | The invariant is exact: a state satisfies it if and only if every orderly continuation that comes to rest is coherent |
| `TokenVersionInterleaving.StepIsSafeIff` | apps/backend/src/modules/users/infrastructure/services/auth-token-version.service.ts:45-99 | A step leaves every continuation safe if and only if it neither increments across a write-back nor gives up on a stale cache |
| `TokenVersionInterleaving.RunIsSafeIff` | apps/backend/src/modules/users/infrastructure/services/auth-token-version.service.ts:45-99 | Over whole runs: every state on the way is safe if and only if no step does either |
| `TokenVersionInterleaving.StaleEnding` | apps/backend/src/modules/users/infrastructure/services/auth-token-version.service.ts:45-99 | From every state with an outdated write-back under way a failure-free orderly run comes to rest with it cached |
| `TokenVersionInterleaving.CrossingGoesStale` | apps/backend/src/modules/users/infrastructure/services/auth-token-version.service.ts:45-91 | From every state with a bump about to increment while another process carries a write-back, three failure-free calls return both, touch nobody else and leave an older version cached |
| `TokenVersionInterleaving.OrderlyStepKeepsTidy` | apps/backend/src/modules/users/infrastructure/services/auth-token-version.service.ts:45-99 | The invariant of one step: write-backs carry the stored version, and a stale cache has someone about to clean it up |
| `TokenVersionInterleaving.CrossedWriteBackStays` | apps/backend/src/modules/users/infrastructure/services/auth-token-version.service.ts:63-91 | The exception is real: with no failure at all, a lookup overtaken by a bump leaves version 1 cached over a stored 2 after everyone has returned |
| `TokenVersionInterleaving.BumpAlone` | apps/backend/src/modules/users/infrastructure/services/auth-token-version.service.ts:45-57 | An undisturbed bump does what the sequential bump does |
| `TokenVersionInterleaving.LookupAlone` | apps/backend/src/modules/users/infrastructure/services/auth-token-version.service.ts:63-91 | An undisturbed lookup does and answers what the sequential lookup does |
| `AccessClaims.UpdatedColumns` | apps/backend/src/modules/users/infrastructure/repositories/drizzle/user-repository.drizzle.ts:220-232 | Column by column a given value is stored and an absent one leaves the column; id and version are never written |
| `AccessClaims.StepIsConsistentIff` | apps/backend/src/modules/users/application/handlers/user-update.handler.ts:19-52 | Any number of updates, unlocks, logins and refreshes at once: one statement keeps claims and row consistent if and only if it is not a write that changes what tokens say yet owes no bump by what its update read before, with no other bump due, while claims of the stored version are held |
| `AccessClaims.RunIsConsistentIff` | apps/backend/src/modules/users/application/handlers/user-update.handler.ts:19-52 | Over whole runs: every state on the way is consistent if and only if no such write is lost |
| `AccessClaims.LostWriteMakesStale` | apps/backend/src/modules/users/application/handlers/user-update.handler.ts:21-29 | Such a write makes every token of the stored version stale, with no bump due |
| `AccessClaims.TokensOfTheStoredVersionAreCurrent` | apps/backend/src/modules/users/application/handlers/user-update.handler.ts:19-52 | In every run that loses no write: whenever no update is between its row write and its bump, every issued token whose version is the stored one carries the stored role, and none exists while the user is blocked |
| `AccessClaims.SerialisedRunsAreOrderly` | apps/backend/src/modules/users/application/handlers/user-update.handler.ts:19-52 | Updates and unlocks that follow one another lose no write, however logins and refreshes interleave with them |
| `AccessClaims.OverlappingUpdatesKeepAStaleToken` | apps/backend/src/modules/users/application/handlers/user-update.handler.ts:21-29 | Overlapping updates do: a run after which nothing is due and a token of the stored version has another role |
| `AccessClaims.OverlappingUnlockLeavesABlockedToken` | apps/backend/src/modules/users/application/handlers/user-unlock.handler.ts:13-29 | So does an unlock inside an update: a run after which nothing is due and a blocked user has a token of the stored version |
| `AccessClaims.CurrentBeforeTheBumpIff` | apps/backend/src/modules/users/application/handlers/user-update.handler.ts:27-32 | From a row write that changes what tokens say until the row is next written: claims of the stored version are current if and only if they were not held before the write, that is, were read after it |
| `AccessClaims.StaleBeforeTheBump` | apps/backend/src/modules/users/application/handlers/user-update.handler.ts:27-32 | It happens: a run that leaves a token of the stored version with another role |
| `AccessClaims.UpdateAlone` | apps/backend/src/modules/users/application/handlers/user-update.handler.ts:19-42 | An undisturbed update raises the version exactly when it changes the role or the blocked flag |
| `AccessClaims.AcceptedTokensAreCurrent` | apps/backend/src/modules/users/infrastructure/strategies/jwt.strategy.ts:42-56 | End to end: with no bump due and a coherent cache, an accepted token carries the stored role and its user is not blocked, whether or not Redis answers |
| `AccessInterleaving.StepKeepsInvariant` | apps/backend/src/modules/users/application/handlers/user-update.handler.ts:19-52 | One machine of any number of updates and unlocks, issuers, token checks and the cache calls of each bump: one orderly step keeps claims, row and cache in agreement |
| `AccessInterleaving.QuietRunRests` | apps/backend/src/modules/users/infrastructure/strategies/jwt.strategy.ts:42-56 | While no row is written, every lookup that starts is bound to answer the stored version, whatever Redis does |
| `AccessInterleaving.TokensAcceptedAtRestAreCurrent` | apps/backend/src/modules/users/infrastructure/strategies/jwt.strategy.ts:42-56 | After any run of that machine that loses no write, crosses no write-back and abandons no stale cache, and comes to rest: every token check that starts then, overlapping any others, accepts only tokens that carry the stored version and role of a user who is not blocked |
| `TokenVersionService.KeyIsInjective` | apps/backend/src/modules/users/infrastructure/services/auth-token-version.service.ts:101-103 | Different users have different Redis keys |
| `TokenVersionService.UserTable.Update` | apps/backend/src/modules/users/infrastructure/repositories/drizzle/user-repository.drizzle.ts:220-232 | One-statement write of the given columns of one row, among role, verified, blocked, password and lockout; an unknown user changes nothing |
| `TokenVersionService.UserTable.IncrementTokenVersion` | apps/backend/src/modules/users/infrastructure/repositories/drizzle/user-repository.drizzle.ts:234-243 | One-statement increment of one row, returning the new version |
| `TokenVersionService.AuthTokenVersionService.ClearCachedVersion` | apps/backend/src/modules/users/infrastructure/services/auth-token-version.service.ts:93-99 | Deletes the entry of one user if the call takes effect; errors are swallowed |
| `TokenVersionService.AuthTokenVersionService.SetVersion` | apps/backend/src/modules/users/infrastructure/services/auth-token-version.service.ts:59-61 | Caches a version for one user if the call takes effect, and for nobody else |
| `TokenVersionService.AuthTokenVersionService.BumpVersion` | apps/backend/src/modules/users/infrastructure/services/auth-token-version.service.ts:45-57 | Does to row and cache entry what the sequential bump does and returns the new version; an unknown user costs only the deleted entry; no other user is affected |
| `TokenVersionService.AuthTokenVersionService.RestoreVersionFromDatabase` | apps/backend/src/modules/users/infrastructure/services/auth-token-version.service.ts:79-91 | Answers the stored version and caches it if the call takes effect |
| `TokenVersionService.AuthTokenVersionService.GetCurrentVersion` | apps/backend/src/modules/users/infrastructure/services/auth-token-version.service.ts:63-77 | Answers and leaves behind what the sequential lookup does; for an unknown user a cached version or not found |
| `TokenVersionService.AuthTokenVersionService.AssertCurrent` | apps/backend/src/modules/users/infrastructure/services/auth-token-version.service.ts:31-43 | Accepts exactly the version the lookup answers, with the verdict and cache state of every other case |
| `TokenVersionService.AuthTokenVersionService.Validate` | apps/backend/src/modules/users/infrastructure/strategies/jwt.strategy.ts:42-56 | Rejects missing claims and a version that is no integer without touching Redis; else accepts exactly the version the lookup answers, with verdict and cache state for an unknown user too |
| `TokenVersionService.UserHandlers.ShouldInvalidateAccessTokens` | apps/backend/src/modules/users/application/handlers/user-update.handler.ts:44-52 | For every user with these previous values: true exactly when the update leaves the row with another role or blocked flag |
| `TokenVersionService.UserHandlers.UpdateUser` | apps/backend/src/modules/users/application/handlers/user-update.handler.ts:19-42 | Writes the row and bumps exactly when role or blocked flag change; row, answer and cache entry in both cases |
| `TokenVersionService.UserHandlers.UnlockUser` | apps/backend/src/modules/users/application/handlers/user-unlock.handler.ts:13-29 | Clears the blocked flag and the three lockout columns of one user, and nothing else |
| `Password.EveryRearrangementIsDrawn` | apps/backend/src/common/generate-password.ts:46-49 | For every sequence and every rearrangement of it there are draws that shuffle one into the other, computed by an inverse function |
| `Password.DrawsAreDetermined` | apps/backend/src/common/generate-password.ts:46-49 | On distinct elements different draws give different results |
| `Password.ShuffleIsABijection` | apps/backend/src/common/generate-password.ts:46-49 | On distinct elements the shuffle is a bijection from draw sequences to rearrangements |
| `Password.DrawsNumberFactorial` | apps/backend/src/common/generate-password.ts:46-49 | There are exactly n! sequences of draws for n positions |
| `Password.ShuffleIsFair` | apps/backend/src/common/generate-password.ts:46-49 | Fairness: of these n! sequences exactly one leads to each rearrangement of n distinct elements, and none to anything else |
| `Password.ShuffleKeepsElements` | apps/backend/src/common/generate-password.ts:46-49 | The shuffle keeps every element with its multiplicity |
| `Password.ElementsFollowPositions` | apps/backend/src/common/generate-password.ts:46-49 | Elements go where their positions go, so fairness of positions carries over to any contents |
| `Password.ShuffleTurn` | apps/backend/src/common/generate-password.ts:46-49 | One turn of the in-place loop leaves the same final result ahead |
| `Password.ShuffleInPlace` | apps/backend/src/common/generate-password.ts:46-49 | The in-place loop computes the recursive shuffle of the array |
| `Password.ShuffledPicksAreStrong` | apps/backend/src/common/generate-password.ts:23-46 | Any rearrangement of the picked characters meets the documented requirement |
| `Password.PickChars` | apps/backend/src/common/generate-password.ts:23-43 | Collects one character of each class and then characters of all classes, as the draws say |
| `Password.Generate` | apps/backend/src/common/generate-password.ts:11-52 | Over given character classes: refuses lengths below 8; else returns the shuffle of the picked characters, of the asked length, with a character of each class |
| `Password.GenerateStrongPassword` | apps/backend/src/common/generate-password.ts:11-52 | The same with the classes of the program |
| `Password.OutputsOverClasses` | apps/backend/src/common/generate-password.ts:11-52 | Over disjoint classes the generator can produce a string if and only if it meets the requirement |
| `Password.OutputsAreTheStrongPasswords` | apps/backend/src/common/generate-password.ts:16-52 | So with the classes of the program: its outputs are exactly the strong passwords |
| `Slicing.PageCountIsLeast` | apps/backend/src/common/Paginated.ts:28-38 | The page count is the least number of pages that covers all rows, 0 for none |
| `Slicing.FirstPagesArePrefix` | apps/backend/src/common/Paginated.ts:40-42 | Pages 1 to k concatenate to the first k * perPage rows |
| `Slicing.PagesLoseAndRepeatNothing` | apps/backend/src/common/Paginated.ts:28-42 | The announced pages concatenate to all rows, none is empty or too long, and later pages are empty |
| `Slicing.ChunkArray` | apps/backend/src/modules/mail/infrastructure/services/mail.service.ts:133-139 | Chunks concatenate to the input, none is empty or too long, and only the last may be shorter |
| `Slicing.ProcessQueue` | apps/backend/src/modules/mail/infrastructure/services/mail.service.ts:108-128 | The nested loops handle every pending mail exactly once and in order; every batch but the last has batchSize mails, and every group but the last of its batch has concurrency mails |
| `CaptchaTypes.KeyIsInjective` | apps/backend/src/modules/captcha/infrastructure/redis/redis-captcha-pool.ts:38-40 | Different template codes or difficulties have different pool keys, even when codes contain the separator |
| `CaptchaAllocation.StepAgrees` | apps/backend/src/modules/captcha/application/handlers/captcha.handlers.ts:151-170 | The invariant of one database or Redis call: every occurrence of an asset, with a process, in a pool or behind a challenge, is at its one place and fits what was asked for |
| `CaptchaAllocation.EveryAssetHasOnePlace` | apps/backend/src/modules/captcha/application/handlers/captcha.handlers.ts:151-170 | The invariant over every interleaving of generators, creators and verifiers |
| `CaptchaAllocation.AllocationIsExclusive` | apps/backend/src/modules/captcha/application/handlers/captcha.handlers.ts:151-170 | Statement level: no asset backs two challenges, each pooled id occurs once across all pools and backs no challenge, and every issued asset has the requested template code and difficulty |
| `CaptchaAllocation.CreatorAlone` | apps/backend/src/modules/captcha/application/handlers/captcha.handlers.ts:151-157 | A creator that nothing interrupts ends holding the oldest-pushed asset that is there, available and unexpired, reserved, exactly the older ones dropped, or with an empty pool and nothing |
| `CaptchaAllocation.HolderIssues` | apps/backend/src/modules/captcha/application/handlers/captcha.handlers.ts:163-170 | It issues exactly the asset it holds, for the code and difficulty it was asked for |
| `CaptchaAllocation.GeneratorAlone` | apps/backend/src/modules/captcha/infrastructure/processors/captcha-generation.processor.ts:52-63 | A generator that nothing interrupts adds one available asset and pushes it onto the pool of its template code and difficulty |
| `CaptchaChallenges.LifecyclesHold` | apps/backend/src/modules/captcha/application/handlers/captcha.handlers.ts:189-231 | In every run of atomic handlers: attemptsCount is the number of attempt rows; pending, passed, failed and expired mean what they should about the attempts and about the asset |
| `CaptchaChallenges.RefusalsExactly` | apps/backend/src/modules/captcha/application/handlers/captcha.handlers.ts:190-203 | Each refusal exactly when its guard is the first to fail; a verification past the expiry marks the challenge as expired and every other refusal changes nothing |
| `CaptchaChallenges.AnswerEffect` | apps/backend/src/modules/captcha/application/handlers/captcha.handlers.ts:207-230 | A counted answer adds one attempt row with its result and one to the count, and closes the challenge and uses its asset exactly when it is right or the last allowed |
| `CaptchaChallenges.CreatedIsAnswerable` | apps/backend/src/modules/captcha/application/handlers/captcha.handlers.ts:193-196 | A new challenge is answerable until the expiry it was given, and gone from then on |
| `CaptchaChallenges.AnswerKeepsLifecycle` | apps/backend/src/modules/captcha/application/handlers/captcha.handlers.ts:207-230 | One counted answer takes a pending lifecycle to a pending, passed or failed one |
| `CaptchaChallenges.OnlyClosedOrExpiredIsRefused` | apps/backend/src/modules/captcha/application/handlers/captcha.handlers.ts:190-203 | In every run only closed or expired challenges are refused: the guards on the attempt count and the asset never fire; the answer tells the verdict and the attempts left |
| `CaptchaChallenges.ClosedIsFinal` | apps/backend/src/modules/captcha/application/handlers/captcha.handlers.ts:192-196 | A closed challenge, its attempts and its asset never change again |
| `CaptchaInterleaving.OwnProgress` | apps/backend/src/modules/captcha/application/handlers/captcha.handlers.ts:189-231 | Statement level: one statement of a verification alone on its challenge advances its progress, and the last one leaves a whole lifecycle |
| `CaptchaInterleaving.LifecyclesHoldWithoutOverlap` | apps/backend/src/modules/captcha/application/handlers/captcha.handlers.ts:189-231 | Statement level: in every run, with any number of verifications at once, in which no two of one challenge overlap, every challenge on which none is under way is as the lifecycle says |
| `CaptchaInterleaving.VerifyAlone` | apps/backend/src/modules/captcha/application/handlers/captcha.handlers.ts:189-231 | The statements of one undisturbed verification do to the tables, and answer, what the atomic verification does |
| `CaptchaInterleaving.OverlappingAnswersAreAllCounted` | apps/backend/src/modules/captcha/application/handlers/captcha.handlers.ts:189-230 | Overlapping answers are all counted: every open challenge can get any number of further attempts from overlapping verifications, and with more than the maximum its lifecycle is broken with nothing under way |
| `CaptchaInterleaving.TwoRightAnswersBreakTheLifecycle` | apps/backend/src/modules/captcha/application/handlers/captcha.handlers.ts:201-221 | From every state in which two right answers to one challenge are past their reads, some run passes both, uses the asset twice and breaks the lifecycle |
| `CaptchaInterleaving.SpentThroughout` | apps/backend/src/modules/captcha/application/handlers/captcha.handlers.ts:190-196 | Statement level, overlaps included: a challenge that is closed or past its expiry, and that nobody under way took for open, changes at most from pending to expired; its attempts and asset stay |
| `CaptchaInterleaving.ClosedIsFinal` | apps/backend/src/modules/captcha/application/handlers/captcha.handlers.ts:192-196 | Statement level, overlaps included: a closed challenge on which no verification is under way keeps its row, its attempts and its asset in every run |
| `CaptchaInterleaving.CanBreakIff` | apps/backend/src/modules/captcha/application/handlers/captcha.handlers.ts:189-231 | Exactly: from coherent tables with nothing under way, some run that ends with every verification done breaks the lifecycle of a challenge if and only if it is pending and unexpired |
| `CaptchaHandlers.Misses` | apps/backend/src/modules/captcha/application/handlers/captcha.handlers.ts:151-157 | The first try, oldest-pushed asset first, at which the asset is reservable; all before it are not |
| `CaptchaHandlers.TriesFollowPushes` | apps/backend/src/modules/captcha/infrastructure/redis/redis-captcha-pool.ts:26-32 | Pools are first in, first out: after a batch is pushed, tries meet the older assets, then the batch in order |
| `CaptchaHandlers.BatchAddsItsRows` | apps/backend/src/modules/captcha/infrastructure/processors/captcha-generation.processor.ts:42-64 | A batch adds exactly its ids, each with its own available row, and changes no other asset |
| `CaptchaHandlers.Captcha.PushAsset` | apps/backend/src/modules/captcha/infrastructure/redis/redis-captcha-pool.ts:26-28 | Pushes on the left of exactly one list |
| `CaptchaHandlers.Captcha.PopAsset` | apps/backend/src/modules/captcha/infrastructure/redis/redis-captcha-pool.ts:30-32 | Pops on the right of exactly one list, or finds it empty |
| `CaptchaHandlers.Captcha.ReserveAsset` | apps/backend/src/modules/captcha/infrastructure/repositories/captcha.repository.drizzle.ts:126-139 | Reserves exactly an available, unexpired asset and says whether it did |
| `CaptchaHandlers.Captcha.TakeAsset` | apps/backend/src/modules/captcha/application/handlers/captcha.handlers.ts:151-157 | The pop and reserve loop, alone at the pool, stops at the first try that can succeed, drops exactly the older assets, reserves exactly that one |
| `CaptchaHandlers.Captcha.CreateChallenge` | apps/backend/src/modules/captcha/application/handlers/captcha.handlers.ts:143-177 | Issues the oldest-pushed asset that is there, available and unexpired at its turn, with the row, expiry and reservation it writes and the pool it leaves; reports an empty pool exactly when none is any good; refuses unknown or inactive templates with no effect; other pools are untouched |
| `CaptchaHandlers.Captcha.IncrementChallengeAttempts` | apps/backend/src/modules/captcha/infrastructure/repositories/captcha.repository.drizzle.ts:171-176 | Adds one to the attempts of one challenge |
| `CaptchaHandlers.Captcha.CompleteChallenge` | apps/backend/src/modules/captcha/infrastructure/repositories/captcha.repository.drizzle.ts:162-169 | Sets the status of one challenge |
| `CaptchaHandlers.Captcha.MarkAssetUsed` | apps/backend/src/modules/captcha/infrastructure/repositories/captcha.repository.drizzle.ts:141-146 | Marks one asset used and counts the use |
| `CaptchaHandlers.Captcha.VerifyChallenge` | apps/backend/src/modules/captcha/application/handlers/captcha.handlers.ts:189-231 | The guarded sequence of statements does to the tables, and answers, what the atomic verification does |
| `CaptchaHandlers.Captcha.GenerateBatch` | apps/backend/src/modules/captcha/infrastructure/processors/captcha-generation.processor.ts:42-64 | A generation job inserts its assets and pushes them, in order, onto the pool of its template code and difficulty and onto no other |
| `Notifications.BackoffSchedule` | apps/backend/src/modules/notification/infrastructure/processors/notification-dispatch.processor.ts:81-88 | The next attempt is computed 1 s, 10 s, 60 s, 60 s ahead, and none after the fifth run |
| `Notifications.BackoffIsStored` | apps/backend/src/modules/notification/infrastructure/repositories/notification.repository.drizzle.ts:139-154 | In every run, once a failed send is marked the row stores that next attempt, the attempts and the status, and keeps showing them until a run is marked again |
| `Notifications.StepKeepsDelivering` | apps/backend/src/modules/notification/infrastructure/processors/notification-dispatch.processor.ts:25-61 | The invariant of one step of creator, cron, worker, queue or deletion; what is settled stays settled |
| `Notifications.DeliveryIsAtMostOnce` | apps/backend/src/modules/notification/infrastructure/processors/notification-dispatch.processor.ts:25-61 | Under any mix of enqueues, runs, retries and deletion: at most one accepted mail, at most five runs, stored attempts equal to the failed runs while open and waiting, sent only with the mail accepted, failed only after five failed runs, and the queue never gives a job up |
| `Notifications.CompletedIsForGood` | apps/backend/src/modules/notification/infrastructure/processors/notification-dispatch.processor.ts:25-61 | A completed job leaves the notification sent, failed or deleted, and no later step changes that |
| `Notifications.OpenWithoutJobIsUntouched` | apps/backend/src/modules/notification/infrastructure/services/notification-dispatch.service.ts:23-31 | An open notification without a job was never tried, so a re-enqueue starts from scratch |
| `Notifications.RunJobIsARun` | apps/backend/src/modules/notification/infrastructure/processors/notification-dispatch.processor.ts:25-61 | An undisturbed run of the worker is one of the interleavings |
| `Notifications.FiveTries` | apps/backend/src/modules/notification/infrastructure/processors/notification-dispatch.processor.ts:25-61 | A new email is sent exactly when one of its first five sends is accepted; else it is failed after the fifth |
| `NotificationHandlers.Dedup` | apps/backend/src/modules/notification/application/handlers/notification-create.handler.ts:29-31 | Keeps each channel once |
| `NotificationHandlers.DedupKeepsOrder` | apps/backend/src/modules/notification/application/handlers/notification-create.handler.ts:29-31 | In the order of first occurrence |
| `NotificationHandlers.Channels` | apps/backend/src/modules/notification/application/handlers/notification-create.handler.ts:29-31 | The requested channels without repetition, or in-app and email when none is requested |
| `NotificationHandlers.OutgoingAre` | apps/backend/src/modules/notification/application/handlers/notification-create.handler.ts:51-64 | The adds that reach the queue are exactly those of new rows that are not in-app and whose add does not fail |
| `NotificationHandlers.FirstInApp` | apps/backend/src/modules/notification/application/handlers/notification-create.handler.ts:67-69 | The row answered with is the in-app one, else the first |
| `NotificationHandlers.CreatedAreSentOrDue` | apps/backend/src/modules/notification/application/handlers/notification-create.handler.ts:33-65 | Whichever adds fail, each new row has its channel, no attempts and no next attempt, is sent if in-app and else pending and selected by the cron at once; no other row changes |
| `NotificationHandlers.DueAreTheDue` | apps/backend/src/modules/notification/infrastructure/repositories/notification.repository.drizzle.ts:93-107 | The selected rows are exactly those with status pending, not deleted, and no next attempt or one not in the future |
| `NotificationHandlers.DueComeInOrder` | apps/backend/src/modules/notification/infrastructure/repositories/notification.repository.drizzle.ts:104-105 | They come in the order of creation |
| `NotificationHandlers.BackoffDelaysSelection` | apps/backend/src/modules/notification/infrastructure/repositories/notification.repository.drizzle.ts:93-107 | After a failed send the row is selected exactly from its next attempt on: 1 s, 10 s, 60 s, 60 s later, and never after the fifth |
| `NotificationHandlers.AddsKeepJobs` | apps/backend/src/modules/notification/infrastructure/services/notification-dispatch.service.ts:23-31 | Whatever is added, and however often: no existing job is disturbed and each new id has one new job |
| `NotificationHandlers.NotificationService.Enqueue` | apps/backend/src/modules/notification/infrastructure/services/notification-dispatch.service.ts:23-31 | An add whose job id exists is ignored, any other makes a waiting job |
| `NotificationHandlers.NotificationService.CreateOne` | apps/backend/src/modules/notification/application/handlers/notification-create.handler.ts:34-65 | One channel: the row of that channel with its initial status, and an add to the queue exactly when it is not in-app and the queue is reached |
| `NotificationHandlers.NotificationService.Create` | apps/backend/src/modules/notification/application/handlers/notification-create.handler.ts:24-71 | Refuses an unknown user with no effect; else inserts one row per distinct channel in order, enqueues exactly the reachable ones that are not in-app, answers with the in-app row or the first |
| `NotificationHandlers.NotificationService.FindPendingForDispatch` | apps/backend/src/modules/notification/infrastructure/repositories/notification.repository.drizzle.ts:93-107 | The due rows by creation, cut at the limit |
| `NotificationHandlers.NotificationService.DispatchPending` | apps/backend/src/modules/notification/infrastructure/services/notification-pending-dispatcher.service.ts:20-34 | The cron adds exactly the due rows among the first hundred, in order, up to the first add that raises |
| `NotificationHandlers.NotificationService.Process` | apps/backend/src/modules/notification/infrastructure/processors/notification-dispatch.processor.ts:25-61 | Missing, deleted and settled rows are skipped; in-app is marked sent, other unsupported channels failed, an accepted email sent with its mail, a failed one as the back-off says; the job completes or waits for its next try |
| `Abilities.HasPermissionIff` | apps/backend/src/modules/users/infrastructure/repositories/drizzle/role-permission-repository.drizzle.ts:86-102 | The counting query says yes exactly when some row has the role, the action and one of the subjects, is active and not soft-deleted |
| `Abilities.SwitchedOffIsDropped` | apps/backend/src/modules/users/infrastructure/repositories/drizzle/role-permission-repository.drizzle.ts:42-51 | A row that is soft-deleted or not active counts, for the lookup and for an ability alike, as one that is not there |
| `Abilities.NothingInForceIsRefused` | apps/backend/src/modules/users/infrastructure/repositories/drizzle/role-permission-repository.drizzle.ts:86-102 | A role whose rows are all soft-deleted or not active is refused everything |
| `Abilities.InForceIsGranted` | apps/backend/src/modules/users/infrastructure/repositories/drizzle/role-permission-repository.drizzle.ts:86-102 | A row in force grants what it names, to its role |
| `Abilities.RulesDecideLikeTheTable` | apps/backend/src/factories/casl-ability.factory.ts:17-27 | An ability built from the rows of a role decides like the counting query |
| `Abilities.CacheRefinesTheTable` | apps/backend/src/modules/users/infrastructure/services/policies.service.ts:35-55 | With a faithful cache, for every role with or without rows, every action and list of subjects, the cached decision is the simple lookup on the same table, whether or not the database can be read on a miss |
| `Abilities.FillingAloneIsExactIff` | apps/backend/src/modules/users/infrastructure/services/policies.service.ts:66-93 | Filling without clearing first decides like the table if and only if every role whose rows are gone was uncached or cached without rules |
| `Abilities.Find` | apps/backend/src/modules/users/infrastructure/repositories/drizzle/role-permission-repository.drizzle.ts:53-56 | The rows in force |
| `Abilities.FindByRole` | apps/backend/src/modules/users/infrastructure/repositories/drizzle/role-permission-repository.drizzle.ts:70-84 | The rows in force of a role |
| `Abilities.PoliciesService.CreateForRolePermissions` | apps/backend/src/factories/casl-ability.factory.ts:17-27 | The loop collects exactly the rules of the rows |
| `Abilities.PoliciesService.GroupByRole` | apps/backend/src/modules/users/infrastructure/services/policies.service.ts:71-79 | The loop groups exactly the rows of each role, and only roles with rows get a group |
| `Abilities.PoliciesService.FillAbilities` | apps/backend/src/modules/users/infrastructure/services/policies.service.ts:66-93 | Sets the roles that have rows and keeps the others; a failing read changes nothing |
| `Abilities.PoliciesService.RefreshAbilityForRole` | apps/backend/src/modules/users/infrastructure/services/policies.service.ts:98-108 | Caches and returns the rules of one role; a failing read changes nothing |
| `Abilities.PoliciesService.RefreshAllAbilities` | apps/backend/src/modules/users/infrastructure/services/policies.service.ts:113-116 | Leaves a cache that is faithful to the table, or an empty one when the read fails |
| `Abilities.PoliciesService.GetAbilityForRole` | apps/backend/src/modules/users/infrastructure/services/policies.service.ts:35-55 | The cached ability, or on a miss one built from the table and cached |
| `Abilities.PoliciesService.CanActivate` | apps/backend/src/guards/policies.guard.ts:20-69 | No policy lets everyone in; with a faithful cache anyone else is let in exactly when some row of the table has their effective role, the action and one of the subjects, is active and not soft-deleted; whoever is not fully identified is the public; the cache stays faithful |

## Left out

- Controllers, modules, DTO mapping, logging, gRPC, cookies and CSRF tokens, and the mails and events that follow a lockout: no state the theorems depend on.
- Argon2, HMAC, JWT signing and expiry, AES-GCM: library code, present only as verdicts and as claim records.
- S3 storage, SMTP, template rendering, SVG drawing: foreign calls.
- Database and queue errors other than those named as parameters, stalled-job recovery, and the queue's own back-off, which is independent of the stored next attempt.
- Soft-deleted users: the user tables hold the users that are not deleted, and a user who vanishes between two statements of an update is not modelled.
- Role type changes with respect to access tokens: no version bump follows them, so only role id and blocked flag are claimed.
- The interleaved version cache is that of one existing user; an unknown user is covered by the service methods only.
- Session counts at statement level: conservation is claimed of atomic handlers only, as a forked rotation adds a session.
- Reservation and insertion of a challenge as separate statements beside verifications: the two are one step in `CaptchaInterleaving` and apart in `CaptchaAllocation`.
- Interleavings of cache refreshes with permission changes: abilities are compared with the table the cache was filled from.
- Timestamps that nothing reads back (sentAt, failedAt, completedAt), error texts, fingerprint and user-agent columns.
- The notification list: its handler passes limit and offset where the repository reads take and skip, so the slicing theorem is not claimed for it.
- Magic links, seeding, migrations, audit log, captcha configuration versions and previews.
- Pages below 1 and batch or chunk sizes below 1: the database refuses the former's negative offsets, and the loops of the latter do not end.
- TokenVersionService.UserTable.Update: leaves out the profile columns (email, names, phone, language, theme and the like), because nothing modelled reads them, and the version column, because no caller writes it this way.
- AccessInterleaving.TokensAcceptedAtRestAreCurrent: assumes the run orderly, because `AccessClaims.RunIsConsistentIff` and `TokenVersionInterleaving.RunIsSafeIff` show that otherwise row or cache can rest stale.
- Notifications.DeliveryIsAtMostOnce: counts mails the mail command accepted, not mails delivered, because SMTP is outside the model; it assumes that the two marking statements succeed.
- CaptchaHandlers.Captcha.TakeAsset: describes the loop with nobody else at the pool; with others present only what `CaptchaAllocation.AllocationIsExclusive` states is claimed.
- Slicing.ProcessQueue: gives the order in which groups are settled and not the order within a group, because its mails are sent in parallel.
