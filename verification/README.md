# service-user: a verified model

service-user is a Go identity service. This project models the parts of it whose promises range over whole runs, or over
every input, and proves them:

* **Login lockout** (`FailureLog`, `RedisAttemptTracker`, `RedisLockout`, `MemoryAttemptTracker`, `MemoryLockout`,
  `MemoryCleaner`, `MemoryRacing`). How many
  failed logins fit into one lockout duration, with any number of logins racing and the memory tracker's cleaner running
  anywhere; for the Redis tracker every command is a step. Each bound comes with the exact settings under which it holds.
* **Rate limit** (`SlidingWindow`, `MemoryRateLimiter`, `RedisRateLimiter`, `LimiterAgreement`). One specification over the
  full log of allowed requests; the binary-search slice and the sorted set with its `EXPIRE` are measured against it.
* **Sessions** (`TokenStore`, `Revocation`, `Sessions`, `SessionRecord`, `SessionSteps`, `AuthService`). Revocation under
  every interleaving of store operations; rotation and device revocation over sequential runs, whatever claims the callers
  set; which tokens are accepted when, by a record of the run alone; each sequential operation as its store operations in a
  row; and the service methods as imperative code proved against those operations.
* **Concurrent infrastructure** (`Executor`, `Parallel`, `Rabbit`). Shutdown, channel accounting and the reconnect and close
  protocol, each as a step relation under an adversarial scheduler.
* **Cache and queries** (`Decimal`, `Resolver`, `Query`, `QueryBuilders`, `Like`, `Paging`). The uid/id cache against the
  table while other clients act; filters compiled to placeholders and arguments; pages as a partition of the rows.
* **Accounts** (`Usernames`, `Accounts`). Name generation and uniqueness over runs of the user operations.

`Wrappers` holds `Option` and `Result`, and `Sets` a few facts about finite sets. Run
`dafny verify dfyconfig.toml` to check everything.

## How the model reads the code

* Time is an integer. The Redis rate limiter counts milliseconds; elsewhere a tick is any fixed unit, and durations are
  whole and positive (`EXPIRE` takes whole seconds; only the rate limiter is modelled with durations that are not whole). A
  Redis key is there while `now < deadline`. The memory tracker is still locked when `now` equals `lockedUntil`, so its
  bound covers one tick more.
* Each Redis command, Lua script and SQL statement is one atomic step on a map, a set or a sequence of rows.
* Thresholds that are not positive act like 1 (`FailureLog.Effective`), because a count is at least 1 when it is compared.
* Tokens are their parsed claims and cannot be forged; password comparison, hashing, generated ids, the clock and answers of
  repositories outside the model are parameters of the methods.
* A `Model`, `State` or `Users` value is the whole state of a component. `Apply` is one step, and `Run`, `Exec` or `After`
  is a run of steps. The classes hold the same state in fields, and their methods are proved against those functions.
  Each `Valid` or `Inv` predicate is shown to be kept by every step.

## What turned out not to hold as stated

* **Redis lockout.** With the commands of a `Track` in one instant, at most `threshold + k - 1` failures fit into a lockout
  duration if and only if the threshold is 1 or the counter outlives the lock (`RedisLockout.InstantBoundIff`). At command
  granularity that is not enough: the counter can run out between a `Track`'s `INCR` and its `EXPIRE`, and its failures are
  forgotten. The bound then holds in every run if and only if the threshold is 1, or the lockout is a single tick, or the
  threshold is 2 and the counter outlives the lock (`RedisLockout.CommandBoundIff`). `RedisLockout.LockoutBound` gives it
  for every run, of any settings with a counter that outlives the lock, in which no counter runs out that way.
* **Redis rate limiter.** `EXPIRE` takes whole seconds, so with a fractional window the key goes too early
  (`LimiterAgreement.RedisAgreesIff`).
* **Memory lockout under racing logins.** A login that stayed past `IsLocked` until the lock was over starts a new count
  under the old `lockedUntil`, and the next `IsLocked` clears that count. So `threshold + k - 1` bounds the failures within
  the lockout duration in every interleaving if and only if the threshold is 1, or logins do not race and the counter
  outlives the lock (`MemoryRacing.RacingBoundIff`).
* **Memory cleaner.** It changes no answer if each failure is tracked after an `IsLocked` that answered false
  (`MemoryCleaner.CleanupInvisible`). Over all runs, asked first or not, it changes none if and only if the threshold is 1
  (`MemoryCleaner.CleanupInvisibleIff`).
* **Device revocation.** It removes one session, so it leaves none of a device's live sessions exactly when it reaches them
  all: each descends from the login whose session the row has, and carries the device in its claim or was not refreshed
  yet (`Sessions.RevokeDeviceKillsIff`). A second login shields the first (`Sessions.SecondLoginShieldsTheFirst`), and a
  session escapes by a refresh exactly when the caller's `Extra` put something else than that device under the claim
  (`Sessions.ReplacedClaimEscapesIff`). A revoked row stays marked for good, though a later login on the device opens a new
  session under it (`SessionRecord.RevokedRowStaysMarked`).
* **Rabbit close.** A connection can still be handed out exactly while `Rabbit.CanHandOut` holds (`Rabbit.HandOutIff`). A
  `Close` that lost the flag changes nothing about that (`Rabbit.LosingCloseSettlesNothing`); only the one that won it does.
* **Search.** The search text is put between two `%` as it is, so it means "contains" exactly when it has no `%`, `_` or
  backslash (`Like.SearchIsContainsIff`).
* **Page count.** The sum in `calcTotalPages` wraps, and the count is right exactly up to `MaxInt64 - limit + 1` rows
  (`Paging.TotalPagesIsCeilingIff`).

Where comments and code differ the code is followed: `generateUsername` appends the last four characters of a UUID, which
need not be digits (`internal/core/service/auth.go:713-715`); the resolver answers for soft-deleted users too, because its
queries do not look at `deleted_at` (`internal/adapter/resolver/user.go:54-56`); `HandleGoogleOAuth` consults neither the
attempt tracker nor the user's status.

## Model

| member | source | states |
|---|---|---|
| RedisAttemptTracker.RedisAttemptTracker.Track | internal/adapter/security/attempt_tracker_redis.go:50-97 | increments and refreshes the user's counter, locks at the threshold, and leaves every other user's keys alone |
| RedisAttemptTracker.RedisAttemptTracker.IsLocked | internal/adapter/security/attempt_tracker_redis.go:100-116 | true exactly while the lock key has not run out |
| RedisAttemptTracker.RedisAttemptTracker.Reset | internal/adapter/security/attempt_tracker_redis.go:119-138 | removes both keys of the user and no others |
| RedisAttemptTracker.CountIsStreak | internal/adapter/security/attempt_tracker_redis.go:56-73 | over every history the counter is the number of latest failures that follow each other within its time to live |
| RedisAttemptTracker.LockedExactly | internal/adapter/security/attempt_tracker_redis.go:82-116 | over every history the account is locked iff some failure ending such a streak of threshold length, not reset since, is younger than the lockout |
| RedisLockout.CommandsMakeTrack | internal/adapter/security/attempt_tracker_redis.go:50-97 | the separate commands of one Track, run in a row, have the effect of Track as one step |
| RedisLockout.StepKeeps | internal/adapter/security/attempt_tracker_redis.go:50-138 | every command of every login keeps the invariant about counters, deadlines, pending locks and failures at or above the threshold |
| RedisLockout.LockoutBound | internal/core/service/auth.go:112-168 | with k logins past IsLocked and a counter that outlives the lock, no interleaving without a lapsed counter has more than threshold + k - 1 failures within a lockout duration |
| RedisLockout.LapseProofBound | internal/core/service/auth.go:112-168 | the same bound in every interleaving, lapsed counters included, for the settings that are proof against them |
| RedisLockout.ShortCounterBreaks | internal/adapter/security/attempt_tracker_redis.go:65-73 | for all other settings with a counter shorter than the lock, a run in which every Track is instant and the bound fails |
| RedisLockout.LapseBreaks | internal/adapter/security/attempt_tracker_redis.go:56-73 | for every threshold from 3 and lockout from 2 ticks, a run in which a counter lapses before its EXPIRE and the bound fails |
| RedisLockout.InstantTracksNeverLapse | internal/adapter/security/attempt_tracker_redis.go:56-73 | no counter lapses when no time passes inside a Track |
| RedisLockout.InstantBoundIff | internal/core/service/auth.go:112-168 | with instant Tracks all interleavings keep the bound iff the threshold is 1 or the counter outlives the lock |
| RedisLockout.CommandBoundIff | internal/core/service/auth.go:112-168 | with commands at any time all interleavings keep the bound iff the settings are lapse-proof |
| RedisLockout.LockedIff | internal/adapter/security/attempt_tracker_redis.go:82-138 | in every interleaving the account is locked exactly while some SET is younger than the lockout and no Reset came after it |
| MemoryAttemptTracker.MemoryAttemptTracker.Track | internal/adapter/security/attempt_tracker_memory.go:48-79 | counts from anew after the time to live, locks at the threshold and keeps every other user's entry |
| MemoryAttemptTracker.MemoryAttemptTracker.IsLocked | internal/adapter/security/attempt_tracker_memory.go:82-107 | locked up to and including lockedUntil; afterwards the lock and the count are cleared |
| MemoryAttemptTracker.MemoryAttemptTracker.Reset | internal/adapter/security/attempt_tracker_memory.go:110-128 | clears the user's state if there is one |
| MemoryAttemptTracker.MemoryAttemptTracker.Cleanup | internal/adapter/security/attempt_tracker_memory.go:146-165 | drops exactly the entries whose lock and counter have both run out |
| MemoryLockout.AnswerIsHistory | internal/adapter/security/attempt_tracker_memory.go:48-107 | after every disciplined run IsLocked answers what the history of failures and resets alone decides |
| MemoryLockout.LockoutBound | internal/core/service/auth.go:112-168 | no disciplined run with safe settings has more than threshold failures within the lockout duration |
| MemoryLockout.ShortCounterBreaks | internal/adapter/security/attempt_tracker_memory.go:63-67 | for all other settings a disciplined run that exceeds it |
| MemoryLockout.LockoutBoundIff | internal/core/service/auth.go:112-168 | all disciplined runs, with the cleaner anywhere, keep the bound iff the threshold is 1 or the counter outlives the lock |
| MemoryCleaner.CleanupInvisible | internal/adapter/security/attempt_tracker_memory.go:146-165 | taking every cleanup out of a disciplined run changes no answer and no history |
| MemoryCleaner.CleanupKeepsLockTime | internal/adapter/security/attempt_tracker_memory.go:146-165 | and both runs are locked at the same moments from then on |
| MemoryCleaner.OneFailureHidesTheCleaner | internal/adapter/security/attempt_tracker_memory.go:72-76 | with threshold 1 every run in order answers as it does without its cleanups, and is locked at the same later moments |
| MemoryCleaner.CleanupShows | internal/adapter/security/attempt_tracker_memory.go:98-104 | for every threshold from 2 and all durations, a run that one cleanup makes answer differently |
| MemoryCleaner.CleanupInvisibleIff | internal/adapter/security/attempt_tracker_memory.go:146-165 | the cleaner changes no answer of any run, asked first or not, iff the threshold is 1 |
| MemoryCleaner.CleanupLeavesIff | internal/adapter/security/attempt_tracker_memory.go:146-165 | a cleanup leaves an entry exactly while its user is locked or the latest entry of the history is a failure within the time to live |
| MemoryRacing.OneBound | internal/core/service/auth.go:112-168 | with threshold 1 and k racing logins, no interleaving has more than k failures within the lockout duration |
| MemoryRacing.OneLoginIsSequential | internal/core/service/auth.go:112-168 | with one login at a time every interleaving is a disciplined sequential run |
| MemoryRacing.LateLoginBreaks | internal/adapter/security/attempt_tracker_memory.go:98-104 | for every threshold from 2, all durations and k from 2, an interleaving in which a late Track under a lock time that ran out exceeds threshold + k - 1 |
| MemoryRacing.ShortCounterBreaks | internal/adapter/security/attempt_tracker_memory.go:63-67 | for a lock that outlives the counter, threshold from 2 and any k, a run that exceeds it |
| MemoryRacing.RacingBoundIff | internal/core/service/auth.go:112-168 | all interleavings of k logins, the cleaner and the clock keep the bound iff the threshold is 1, or k is 1 and the counter outlives the lock |
| SlidingWindow.WindowNeverOverfull | internal/adapter/security/rate_limiter_memory.go:39-72 | no window of the given length, wherever it starts, ever holds more than limit allowed requests |
| SlidingWindow.RefusedIffFull | internal/adapter/security/rate_limiter_memory.go:60-72 | after every run the next answer is no, and the request is not recorded, iff exactly limit allowed requests lie in its window |
| SlidingWindow.AllowedIff | internal/adapter/security/rate_limiter_memory.go:39-72 | a request is allowed iff there were fewer than limit before it, or the limit-th latest of them is at least a window ago |
| SlidingWindow.ResetStartsAnew | internal/adapter/security/rate_limiter_memory.go:75-82 | after a reset every run goes on as from the start |
| MemoryRateLimiter.MemoryRateLimiter.Search | internal/adapter/security/rate_limiter_memory.go:86-98 | the binary search finds where the times after the window start begin |
| MemoryRateLimiter.MemoryRateLimiter.FilterTimestamps | internal/adapter/security/rate_limiter_memory.go:86-98 | keeps exactly the times after the window start |
| MemoryRateLimiter.MemoryRateLimiter.Acquire | internal/adapter/security/rate_limiter_memory.go:39-72 | allows iff fewer than limit kept times lie in the window, appends the request then, and touches no other key |
| MemoryRateLimiter.MemoryRateLimiter.Reset | internal/adapter/security/rate_limiter_memory.go:75-82 | forgets one key |
| MemoryRateLimiter.MemoryRateLimiter.Cleanup | internal/adapter/security/rate_limiter_memory.go:102-126 | trims every key to the window and drops the empty ones |
| MemoryRateLimiter.MemoryRefinesWindow | internal/adapter/security/rate_limiter_memory.go:39-126 | on every run, cleaner included, the slice answers as the count over the full log |
| MemoryRateLimiter.CleanedIffEmpty | internal/adapter/security/rate_limiter_memory.go:102-126 | after every run a cleanup drops the key iff no allowed request is left in the window |
| RedisRateLimiter.RedisRateLimiter.Acquire | internal/adapter/security/rate_limiter_redis.go:49-104 | one run of the script: cut, count, add and EXPIRE, on one key |
| RedisRateLimiter.RedisRateLimiter.Reset | internal/adapter/security/rate_limiter_redis.go:108-123 | forgets one key |
| RedisRateLimiter.RunAgrees | internal/adapter/security/rate_limiter_redis.go:53-104 | with whole-second windows the sorted set holds the part of the log that matters, under a deadline that covers it, after every run |
| LimiterAgreement.ThreeAgree | internal/adapter/security/rate_limiter_redis.go:53-104 | slice, sorted set and full log give the same answers on every run with a whole-second window |
| LimiterAgreement.PartialSecondDiffers | internal/adapter/security/rate_limiter_redis.go:80-87 | for every other window and positive limit, a run on which the sorted set allows one request too many |
| LimiterAgreement.RedisAgreesIff | internal/adapter/security/rate_limiter_redis.go:53-104 | the sorted set agrees on all runs iff the limit is 0 or the window is whole seconds |
| TokenStore.TokenStore.Add | internal/adapter/security/token_whitelist.go:51-66 | stores the session with its time to live and leaves the others |
| TokenStore.TokenStore.Remove | internal/adapter/security/token_whitelist.go:68-82 | removes this session only |
| TokenStore.TokenStore.Exists | internal/adapter/security/token_blacklist.go:117-133 | whether the session is stored and has not run out, which the whitelist allows and the blacklist forbids |
| TokenStore.BuildKeyInjective | internal/adapter/security/token_whitelist.go:46-48 | different sessions have different keys |
| Revocation.StepKeeps | internal/core/service/auth.go:404-482 | every store operation of every racing call keeps the invariant about issued and removed sessions |
| Revocation.RevocationIsPermanent | internal/core/service/auth.go:542-579 | after RevokeToken returned, every whitelist check of the session refuses, in every interleaving and however much time passes |
| SessionSteps.LoginIsItsSteps | internal/core/service/auth.go:171-239 | a sequential login is its store operations in a row: same stores, same fresh session |
| SessionSteps.RefreshIsItsSteps | internal/core/service/auth.go:392-482 | so is a refresh of a whitelisted session: check, Add, Remove |
| SessionSteps.RefusalIsItsSteps | internal/core/service/auth.go:404-411 | a refresh of any other session ends at its check and changes nothing |
| SessionSteps.ValidateIsItsSteps | internal/core/service/auth.go:509-540 | ValidateToken accepts by its whitelist check and, only after that, its blacklist check |
| SessionSteps.RevokeIsItsSteps | internal/core/service/auth.go:542-552 | RevokeToken is its Remove and its Add |
| SessionSteps.RevokeDeviceIsItsStep | internal/core/service/user.go:601-618 | RevokeDevice is one removal, of the session in the row |
| Sessions.StepKeeps | internal/core/service/auth.go:171-239 | logins with any claims, refreshes, revocations and device revocations keep the invariant that ties whitelist, rows and lineages |
| Sessions.NeverTwoSessionsPerLogin | internal/core/service/auth.go:392-482 | no login lineage ever has two whitelisted sessions |
| Sessions.RefreshSwapsOne | internal/core/service/auth.go:430-482 | a successful refresh swaps the presented session for one fresh session of the same login and changes no other |
| Sessions.RefreshTokenWorksOnce | internal/core/service/auth.go:404-411 | a refresh token accepted once is refused at every later time |
| Sessions.LoginIsValid | internal/core/service/auth.go:236-239 | a session just issued is accepted until its time to live ends, whatever the login's claims |
| Sessions.LoginNamesItsDevice | internal/core/service/auth.go:171-205 | a login on a device whose Extra leaves the claim alone opens a lineage whose sessions, over every continuation, carry that device in their claim |
| Sessions.DevicesStayDistinct | internal/core/service/auth.go:658-672 | over every run different fingerprints are different devices |
| SessionRecord.AcceptedIff | internal/core/service/auth.go:509-540 | after every run both tokens of a session are accepted exactly at the times that the record of issues, refreshes and revocations says |
| SessionRecord.BlacklistedIff | internal/core/service/auth.go:549-552 | the blacklist names a session exactly for its time to live after a revocation of its tokens |
| SessionRecord.RevokedForGood | internal/core/service/auth.go:542-579 | a session revoked in a run is refused at every time, by refresh and validation, at the end of every continuation |
| SessionRecord.RevokeKeepsOthers | internal/core/service/auth.go:549-552 | revoking one session changes the whitelist and blacklist entry of no other |
| SessionRecord.RevokeDeviceMarks | internal/adapter/repository/user_device.go:147-157 | revoking a device marks its row, keeps the session id and leaves every other row alone |
| SessionRecord.RevokedRowStaysMarked | internal/adapter/repository/user_device.go:120-130 | no run unmarks a revoked row, logins on the device included |
| Sessions.RevokeDeviceHitsTheLast | internal/core/service/user.go:601-618 | the row names the session last written to it, and exactly that one leaves the whitelist |
| Sessions.ReachedIsLast | internal/core/service/auth.go:433-447 | the row has a whitelisted session iff that descends from the login the row names, and carries the device in its claim or was not refreshed |
| Sessions.RevokeDeviceKillsIff | internal/core/service/user.go:601-618 | no live session of the device is left iff every live one is reached in that sense, over every run, claims replaced or not |
| Sessions.SingleLoginIsKilled | internal/core/service/user.go:601-618 | a device that a single login without an Extra claim concerns is logged out, the claim being a fact proved of the login |
| Sessions.SecondLoginShieldsTheFirst | internal/core/service/auth.go:690-693 | from every reachable state, of two logins on one device the first one's session outlives the revocation and the second's does not |
| Sessions.ReplacedClaimEscapesIff | internal/core/service/auth.go:206-210 | from every reachable state, revoking the device stops the refreshed session of a login iff the call's Extra left the claim alone or named the same device |
| AuthService.AuthService.Authenticate | internal/core/service/auth.go:77-239 | every error in its order; a failure is tracked and a success resets, for this user only; a success opens one session and records it for the device |
| AuthService.AuthService.FinishOAuth | internal/core/service/auth.go:331-366 | opens a session without a device |
| AuthService.AuthService.FindOrCreateDevice | internal/core/service/auth.go:658-672 | one device for each fingerprint |
| AuthService.AuthService.FindOrCreateUserDevice | internal/core/service/auth.go:674-700 | the row of user and device names the new session |
| AuthService.AuthService.UpdateSessionID | internal/adapter/repository/user_device.go:120-130 | changes the session id of an existing row only |
| AuthService.AuthService.RefreshToken | internal/core/service/auth.go:392-482 | every error in its order, and the swap of sessions |
| AuthService.AuthService.ValidateToken | internal/core/service/auth.go:509-540 | accepts an access token iff its session is whitelisted and not blacklisted |
| AuthService.AuthService.RevokeToken | internal/core/service/auth.go:542-579 | takes the session off the whitelist and puts it on the blacklist |
| AuthService.AuthService.RevokeDevice | internal/core/service/user.go:576-618 | takes the row's session off the whitelist and marks the row |
| Executor.WaitGroupCountsTasks | internal/adapter/executor/service.go:55-98 | the wait group never goes negative and counts the accepted tasks that have not finished |
| Executor.CloseWaitsForAll | internal/adapter/executor/service.go:167-175 | once any Close returned, each task has run exactly once to its end, or was or will be refused |
| Executor.ClosedForGood | internal/adapter/executor/service.go:167-175 | a closed executor stays closed |
| Executor.LateCallsAreRefused | internal/adapter/executor/service.go:55-60 | a call made after a Close returned is refused whenever it takes the mutex |
| Executor.RefusedIffClosed | internal/adapter/executor/service.go:55-63 | a call that takes the mutex is refused iff a Close set the flag before; otherwise its task is owed or done |
| Executor.InvalidIffNil | internal/adapter/executor/service.go:52-54 | a call is invalid iff it was made with a nil function |
| Executor.AcceptedCanFinish | internal/adapter/executor/service.go:62-98 | from every reachable state an accepted task has a continuation in which it has run once to its end |
| Executor.CloseCanReturn | internal/adapter/executor/service.go:167-175 | from every reachable state every Close has a continuation in which it returns |
| Parallel.NoSendBlocksOrFollowsClose | internal/adapter/executor/service.go:110-163 | in every schedule a send finds room and an open channel, also after an early return |
| Parallel.EachSendsOnce | internal/adapter/executor/service.go:115-146 | each task sends at most once, and has sent its own outcome when its goroutine ends |
| Parallel.SendCarriesOutcome | internal/adapter/executor/service.go:133-143 | every send carries what that task's Execute gave, or the context's error iff the context was done when the task started |
| Parallel.NilMeansAllNil | internal/adapter/executor/service.go:153-164 | nil only if every task returned nil; after waiting, the first error that was sent |
| Parallel.AllNilReturnsNil | internal/adapter/executor/service.go:102-164 | without a cancel and with every Execute returning nil, DoParallel returns nil |
| Parallel.NoTasks | internal/adapter/executor/service.go:102-105 | without tasks it returns nil |
| Parallel.ErrorHasOrigin | internal/adapter/executor/service.go:133-164 | an error it returns is what some Execute gave, or the context's after a cancel |
| Parallel.CallerCanReturn | internal/adapter/executor/service.go:148-164 | from every reachable state it has a continuation in which it returns |
| Rabbit.TriggerStaysPending | internal/infra/rabbit.go:144-168 | a trigger after the last connect start leaves a token that the monitor can take |
| Rabbit.TokenIffPending | internal/infra/rabbit.go:144-168 | the channel holds a token iff a trigger came after the monitor last took one |
| Rabbit.NoTriggerLeftBehind | internal/infra/rabbit.go:144-168 | a monitor that cannot step has started a connect after every trigger, or has exited |
| Rabbit.Reconnect | internal/infra/rabbit.go:74-125 | from every reachable state a monitor that has not exited can come to an open connection with the lock free |
| Rabbit.GivesUpIff | internal/infra/rabbit.go:81-124 | a connect gives up at exactly the failed dial that makes ReconnectMaxAttempts, and never if that is 0 |
| Rabbit.ExitedIff | internal/infra/rabbit.go:144-160 | the monitor has exited iff it saw the cancel in its select, and a context is cancelled iff its owner or Close did it |
| Rabbit.NoConnectionAfterClose | internal/infra/rabbit.go:171-183 | once the winning Close returned, the monitor has ended, all connections are closed, and every getConnection fails at its check |
| Rabbit.NoLeakedConnection | internal/infra/rabbit.go:106-110 | with the lock free, only the current connection can be open |
| Rabbit.HandOutIff | internal/infra/rabbit.go:171-183 | from every reachable state some continuation hands out an open connection iff the monitor lives, or the open connection can be read or was read |
| Rabbit.GetsWhatItRead | internal/infra/rabbit.go:171-183 | getConnection returns the connection that was current at its read iff that one is open at its check, and an error otherwise |
| Rabbit.BrokenForGood | internal/infra/rabbit.go:177-180 | a connection that broke is never handed out again, even to a call that read it before |
| Rabbit.LosingCloseSettlesNothing | internal/infra/rabbit.go:522-525 | from every reachable state a Close that loses the flag leaves it open or settled, as it was, whether a connection can be handed out |
| Rabbit.OneCloseWins | internal/infra/rabbit.go:522-525 | once the flag is set exactly one Close is past it, and before that none |
| Rabbit.CloseCanReturn | internal/infra/rabbit.go:522-548 | from every reachable state every Close has a continuation in which it returns |
| Decimal.ParseFormat | internal/adapter/resolver/user.go:110-113 | an id written to the cache reads back as itself |
| Resolver.ConvertEncode | internal/adapter/resolver/user.go:110-122 | a cached answer converts back to the value it was made of, for ids and uids |
| Resolver.CacheKeyInjective | internal/adapter/resolver/user.go:114-160 | no two lookups, of the same kind or not, share a cache key |
| Resolver.OtherKeepsCache | internal/adapter/resolver/helper.go:91-99 | creating, changing and deleting users, fills, invalidations and expiry keep every cached entry equal to the table |
| Resolver.CacheAgrees | internal/adapter/resolver/helper.go:46-53 | after every run of those steps a cached answer is the table's |
| Resolver.CachedIff | internal/adapter/resolver/helper.go:91-99 | over every run an answer is cached exactly from a fill on until the next drop of its own key |
| Resolver.CreatedIsFound | internal/adapter/resolver/user.go:51-99 | a user once created is found by uid and by id for good |
| Resolver.Resolver.Fetch | internal/adapter/resolver/user.go:51-99 | the row a key names, or none, with id 0 as the mark for none |
| Resolver.Resolver.ReadCache | internal/adapter/resolver/helper.go:31-44 | each answer is what the cache says at its GET, whatever others do between the GETs, and that cache is right by the final table |
| Resolver.Resolver.Classify | internal/adapter/resolver/helper.go:46-63 | every key ends up among the results, with the table's value, or among the uncached keys |
| Resolver.Resolver.Step | internal/adapter/resolver/helper.go:77-107 | each statement of a fetching goroutine keeps results and cache right |
| Resolver.Resolver.FetchAll | internal/adapter/resolver/helper.go:70-124 | in every order of the goroutines and the receiving loop, all values or an error for a missing row |
| Resolver.Resolver.MapperIDs | internal/adapter/resolver/helper.go:16-124 | the table's map on exactly the requested keys, or an error iff some key has no row; with no other client and no failing SET, all those keys are cached afterwards |
| Resolver.Resolver.UidTargets | internal/adapter/resolver/helper.go:218-230 | the cache keys to delete for the named uids, from the answers of their GETs |
| Resolver.Resolver.IdTargets | internal/adapter/resolver/helper.go:232-245 | the cache keys to delete for the named ids, from the answers of their GETs |
| Resolver.AllTargetsName | internal/adapter/resolver/helper.go:190-245 | the set to delete holds an entry iff it is named or is the other name of a named user whose GET answered |
| Resolver.Resolver.Invalidate | internal/adapter/resolver/helper.go:174-258 | with other clients between its GETs and its DEL or with none, deletes exactly those of the entries it finds and leaves none under a name |
| Query.ValidateOrderBy | internal/adapter/repository/helper.go:13-34 | the column asked for if it is on the list, the default if none was, and otherwise an error that names it |
| Query.PaginationDefaults | internal/adapter/repository/user.go:153-164 | ten rows to a page and the first page unless given otherwise, and a page starts where the one before ends |
| Query.Placeholders | internal/adapter/repository/user_file.go:157-163 | one placeholder for each value, numbered on from the last argument |
| Query.AddIn | internal/adapter/repository/user_file.go:157-165 | the IN list selects the rows whose column has one of the values |
| Query.AddEquals | internal/adapter/repository/user_file.go:215-219 | the comparison selects the rows whose column has the value |
| Query.AddAnyOf | internal/adapter/repository/user.go:170-174 | the array comparison selects the rows whose column is in the list |
| Query.AddSearch | internal/adapter/repository/user.go:185-189 | both ILIKE tests read the same argument |
| Query.AddIsNull | internal/adapter/repository/device.go:242-243 | the test for NULL takes no argument and renumbers nothing |
| Query.Paginate | internal/adapter/repository/user_file.go:257-264 | the last two placeholders bind limit and offset, and count query and page query select the same rows |
| QueryBuilders.UserIds | internal/adapter/repository/user_file.go:169-201 | the subquery finds the ids of exactly the users with the wanted uids |
| QueryBuilders.UserFileList | internal/adapter/repository/user_file.go:135-264 | the statement selects exactly the rows that match the filter; ErrUserNotFound iff uids were wanted and no user has one |
| QueryBuilders.UserList | internal/adapter/repository/user.go:149-229 | the statement selects exactly the users that are not deleted and match the filter fields the builder handles |
| QueryBuilders.SearchFinds | internal/adapter/repository/user.go:185-189 | a search text without special characters selects the rows whose column contains it, up to case |
| QueryBuilders.DeviceList | internal/adapter/repository/device.go:116-186 | the statement selects exactly the devices that match the filter fields the builder handles |
| QueryBuilders.DeviceListByUserID | internal/adapter/repository/device.go:218-303 | the same over the join, for one user and devices that are not revoked |
| Like.PlainIsContains | internal/adapter/repository/user.go:185-189 | a query without special characters is searched for literally |
| Like.FoldIffSameLetters | internal/adapter/repository/user.go:185-189 | folding makes two texts equal iff they differ at most in the case of their letters |
| Like.EscapedIsLiteral | internal/adapter/repository/user.go:185-189 | a text with its special characters escaped, as the builder does not do, would match itself only |
| Like.WitnessNotContained | internal/adapter/repository/user.go:185-189 | any other query finds a text that does not contain it |
| Like.SearchIsContainsIff | internal/adapter/repository/user.go:185-189 | the search means "contains, up to case" for all texts iff the query has no % _ or backslash |
| Paging.TotalPagesIsCeilingIff | internal/adapter/repository/helper.go:45-56 | the result is the least number of pages that hold the total iff the sum does not overflow |
| Paging.NoRowsOnePage | internal/adapter/repository/helper.go:45-56 | nothing to show, or a limit that makes no pages, is one page |
| Paging.EnoughPages | internal/adapter/repository/helper.go:45-56 | n pages have room for the total iff n is at least the page count |
| Paging.PagesPartition | internal/adapter/repository/user.go:153-164 | pages 1 to n give the list once and in order iff n is at least the page count, and no offset up to there overflows |
| Usernames.Squeeze | internal/core/service/auth.go:704-705 | the result has only allowed characters, and a text of such characters is left alone |
| Usernames.SqueezeReplacesRun | internal/core/service/auth.go:704-705 | each longest run of other characters becomes one underscore |
| Usernames.Base | internal/core/service/auth.go:703-708 | the first candidate is a valid username: the squeezed local part, with user_ before it iff that is shorter than 3 |
| Usernames.GenerateUsername | internal/core/service/auth.go:702-721 | ends after at most as many collisions as there are names, with the first candidate that is not taken, which usernameValidator accepts |
| Accounts.Accounts.Create | internal/core/service/user.go:148-194 | succeeds iff the fields are given and email and username are free; otherwise the first failing check's error and no change |
| Accounts.CreateErrors | internal/core/service/user.go:148-194 | each error of Create iff its check fails and the earlier ones pass |
| Accounts.Accounts.CheckFree | internal/core/service/user.go:257-262 | a value is free iff no other user that is not deleted has it |
| Accounts.Accounts.MergeChanges | internal/core/service/user.go:249-300 | the changed record, or the error of the first check that fails |
| Accounts.ChangedStores | internal/core/service/user.go:249-300 | every given field is stored and every other one kept |
| Accounts.UpdateErrors | internal/core/service/user.go:249-300 | each error of Update names a check that fails, and it succeeds iff none does |
| Accounts.Accounts.Update | internal/core/service/user.go:219-306 | stores the given fields in one row that is not deleted, iff the new values are free; ErrUserNotFound iff it is deleted or unknown |
| Accounts.Accounts.Delete | internal/core/service/user.go:319-342 | marks a user that is not deleted and changes nothing else |
| Accounts.Accounts.FindOrSignUp | internal/core/service/auth.go:301-325 | the holder of the email, or a new user with a valid, free username |
| Accounts.ApplyKeeps | internal/core/service/user.go:148-342 | every operation keeps emails and usernames unique among users that are not deleted |
| Accounts.AccountsStayUnique | internal/core/service/user.go:148-342 | so do all runs |
| Accounts.DeletedForGood | internal/core/service/user.go:234-245 | a deleted user's row never changes again |
| Accounts.DeleteFrees | internal/core/service/user.go:319-342 | after a delete another user can be created under the same email and username |

## Left out

- MemoryLockout.LockoutBoundIff: covers runs in which each Track follows an IsLocked that answered false; racing logins are in MemoryRacing.
- RedisLockout.LockoutBound: a lapsed counter is a fact of the run, not of the settings; the exact conditions on the settings are in the two lemmas that end in Iff.
- Sessions.RefreshTokenWorksOnce: sequential runs without store faults, because the whitelist check and the Add are separate steps in the code; so are all lemmas of Sessions.
- Resolver.Resolver.MapperIDs: Redis and database faults are not modelled, apart from a SET that fails.
- QueryBuilders.UserList: the fields Status and Exists of the filter are not in the statement, because the builder ignores them; Ids and DeviceFingerprint of the device filter likewise.
- Like.SearchIsContainsIff: only ASCII letters have case.
- Usernames.GenerateUsername: works on characters; in the code lengths are bytes, which is the same once only allowed characters are left.
- Accounts.AccountsStayUnique: sequential runs; two creations racing between check and insert rely on unique indexes of the database, and the migrations are not part of this model.
- SQL text, ORDER BY direction, JSON and JWT encoding, password hashing, PIN checks and random passwords.
- The gRPC server, handlers, validation messages, interceptors, configuration and start-up.
- Google's OAuth exchange and its PKCE state.
- Event publishing, tracing, logging and metrics.
- Real PostgreSQL and Redis, and their failures, except that a call may fail at any store operation in Revocation.
- GetFailedAttempts, GetLockoutRemaining, RemoveAll, Do, mapperID, and the lists of user devices, pins and profiles: easy, or without a property of their own.
- AMQP message building and the publish paths; the broker is a scheduler choice in Rabbit.
- Rate limits and page limits below zero.
