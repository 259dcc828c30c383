# Concurrent protocols of the social backend, proved in Dafny

The backend keeps its important state in five small protocols over PostgreSQL and Redis. Their
promises are written in docstrings; this project states them as theorems over every run and every
interleaving, and proves them. Each protocol has a *machine* (a step function over a state, runs
being arbitrary sequences of steps by arbitrarily many requests) and, where the source updates
state in place, a *class* whose methods follow the source line by line and are proved to be runs
of the machine.

**Rate limiter.** Bucket levels are exact integers (one call costs `W` units, `W` being the refill
window in milliseconds; one millisecond refills `max_calls` units), so no rounding is lost. Tokens
are conserved while no caller reads the key more than one window after capturing its time, and the
advertised rate holds exactly then: the timestamp is taken once, outside the retry loop, and a
later caller can find the key expired. "In order" below means nondecreasing commit times within
that lag; there every interval obeys the rate, and the lazily refilled, expiring bucket answers
like one refilled every millisecond that never expires. Out of order, intervals obey it, measured
by the span of their times, exactly when nobody is late at all. The WATCH / MULTI / EXEC loop
refines a serial bucket under every interleaving, with at most n(n-1)/2 retries because of other
callers and n(n+1)/2 because the watched key expired, which aborts EXEC in the Redis 7 of
docker-compose.yml:42.

**Refresh tokens.** A family is one chain of tokens of which only the last can be live. A dead
family stays dead. A bulk revocation touches the rows its statement saw at its start, so it ends
the family exactly unless a rotation overtook it; a worked run shows the case. No token goes but
by its own rotation or expiry, its own user's logout or a reuse in its own family. The grace entry
is written after the commit; a retry is answered exactly if that write succeeded less than 60
seconds ago and Redis answers, and then with the same pair; any other retry is taken for a theft.

**Counters.** Seven triggers keep eight counters equal to their counts through every insert,
update and cascading delete, the clamps never bite, drift never grows from a bad start, and the
repair pass is exact, order-independent and idempotent. What a deletion takes along is told table
by table. `posts.views` has two writers; its drift is exactly what the flushes added. Votes whose
read and write are apart may race; a race is harmless exactly if what was voted on, the voter and
the vote that was read still stand (a post until its counts are read), and it never hurts a
counter.

**Idempotency.** Requests with one scope key exclude each other and succeed at most once per
record lifetime exactly when the SET NX call cannot error (an error counts as success) and the
processing lifetime outlasts every run; then a replay is that of the current run. In every
environment a replay is that of a run that succeeded with the same data. The request fingerprint
ignores the order of dictionaries and sets, nested in any way, exactly when colliding keys and
tied elements agree at every depth, is idempotent, and its JSON text is unambiguous; scope keys
are injective.

**Messages and views.** Reconnects that claim with SKIP LOCKED, read receipts, edits and deletions
run as transactions that lock, write and commit or roll back. No edit of a message is claimed
twice, an unread row is left behind exactly if everybody who locked it was rolled back or only
touched it (a foreign-key check, a reaction count, a repair, a reply), deletion is final, clearing
a chat leaves exactly the friend's unread messages and fails exactly if an overlapping request of
the same user hid one of them first. No queued view is ever lost, and each is counted once exactly
when removals do not fail, flushes do not overlap and no update commits without saying so.

Modules: `Prelude`, `Sequences`, `Strings`, `StableSort` (vocabulary); `TokenBucket`,
`IntervalBounds`, `OptimisticRetry`, `RateLimitService`; `RefreshTokens`, `TokenService`;
`Counters`, `CounterInvariant`, `RowLaws`, `SocialRules`, `SocialStore`, `RacingVotes`;
`Idempotency`, `IdempotencyService`, `Canonical`, `CanonicalLaws`, `RequestText`; `MessageFlow`,
`DeliveryLaws`, `ChatViews`, `ChatStore`; `ViewFlush`, `ViewQueue`.

Where the code and its comments differ, the code is modelled: the rate limiter's docstring says
the tokens are refilled by elapsed time, but an older timestamp can be written back; the token
docstring says a retry within 60 seconds returns the same pair, but the entry appears only after
the commit; the reuse message says all sessions were revoked, but a token committed by an
overtaking rotation is not; the idempotency helpers count an error of the SET NX call as success,
so every caller gets in while Redis errs; the second refusal of an edit says "window expired"
although its cause can only be a deletion; the flush's comment calls a failed removal harmless,
but the view is counted again.

## Model

| member | source | states |
|---|---|---|
| `TokenBucket.ReplayIsWellStored` | app/services/rate_limit_service.py:45-63 | stored tokens stay between 0 and max_calls and the key outlives its timestamp by two windows, in every run |
| `TokenBucket.CommitIsWellStored` | app/services/rate_limit_service.py:45-63 | one commit of any caller, however late, writes a row inside the bucket |
| `TokenBucket.ExpiryIsInvisible` | app/services/rate_limit_service.py:37-46 | a caller at most one window late sees the same level whether or not the key has expired |
| `TokenBucket.Conservation` | app/services/rate_limit_service.py:45-63 | while no caller is more than a window late, calls let through, tokens left and refill lost to the cap add up to the starting tokens plus the refill of the positive time increments |
| `TokenBucket.RateBoundIffLagWithinWindow` | app/services/rate_limit_service.py:30-65 | the advertised rate holds in every run if and only if no caller reads the key more than one refill window after capturing its time |
| `TokenBucket.LateCallerBreaksTheBound` | app/services/rate_limit_service.py:30-46 | for every limit, a run in which a caller one millisecond later than that breaks the rate |
| `TokenBucket.BurstBound` | app/services/rate_limit_service.py:30-65 | in order, spending plus tokens left never exceed a full bucket plus the refill of the time between the first and last call |
| `TokenBucket.IntervalBound` | app/services/rate_limit_service.py:12-36 | any interval of length d of a run in order lets through at most max_calls + max_calls * d / window calls, the window being 1000 ms for each second configured |
| `TokenBucket.OneCallPerShareOfTheWindow` | app/services/rate_limit_service.py:30-65 | after max_calls calls at one time on a fresh key, all let through, a call e milliseconds later is let through if and only if max_calls * e is at least 1000 * window (1000, if the window is below one second), and a denied one is quoted the least further wait after which it is |
| `IntervalBounds.IntervalBoundIffNoLag` | app/services/rate_limit_service.py:30-65 | for every limit, whatever the order of the captured times, calls whose times span d milliseconds stay within max_calls + max_calls * d / window in all runs if and only if every caller reads the key in the millisecond in which it captured its time |
| `IntervalBounds.StaleCommitRefillsTwice` | app/services/rate_limit_service.py:30-62 | for every limit, a run of callers one millisecond late that commit out of order and let through two full buckets within one millisecond: an older timestamp written back lets the same refill be collected again and again |
| `IntervalBounds.InOrderBoundIffLagWithinWindow` | app/services/rate_limit_service.py:30-65 | for every limit, among runs that commit in the order of their captured times, it holds if and only if no caller is more than one window late |
| `IntervalBounds.TwoBurstsBreakTheBound` | app/services/rate_limit_service.py:30-46 | for every limit, an ordered run of callers one millisecond later than that: two full buckets in less than one window |
| `TokenBucket.EagerRefillIsLazyRefill` | app/services/rate_limit_service.py:48-50 | adding the refill each millisecond and capping equals one capped multiplication |
| `TokenBucket.LazyEqualsEager` | app/services/rate_limit_service.py:37-64 | in order, the bucket refilled on touch, in an expiring key, answers every call exactly as an ideal bucket that refills every millisecond and never expires |
| `TokenBucket.DeniedCallIsInvisible` | app/services/rate_limit_service.py:56-63 | a denied call leaves a key that no later call can tell from the one before |
| `TokenBucket.GrantedLeavesTheSameKey` | app/services/rate_limit_service.py:45-63 | striking all denied calls out of a run in order leaves an indistinguishable key |
| `TokenBucket.DeniedCallsChangeNothing` | app/services/rate_limit_service.py:45-63 | in order, any number of denied calls changes no later decision |
| `TokenBucket.RetryAfterIsExact` | app/services/rate_limit_service.py:52-65 | in order, after a denial, with any number of earlier polls in between, a call is let through if and only if it comes at or after the quoted wait |
| `TokenBucket.WholeSecondsSuffice` | app/services/rate_limit_service.py:59-65 | the wait rounded up to whole seconds suffices, is at least 1, and never adds a needless second |
| `OptimisticRetry.InterleavingRefinesSerial` | app/services/rate_limit_service.py:39-67 | under every interleaving of n callers the key and every answer equal those of the same calls one at a time in EXEC order, each with its captured time, each exactly once |
| `OptimisticRetry.TimeIsCapturedOnce` | app/services/rate_limit_service.py:30-41 | the captured time of a caller is the clock at its first step, however often it retries |
| `OptimisticRetry.InterleavedRateBound` | app/services/rate_limit_service.py:39-67 | the rate bound therefore holds of interleaved calls none of which is more than a window late |
| `OptimisticRetry.RunIsSerial` | app/services/rate_limit_service.py:39-67 | the invariant of the retry loop: committed answers are serial answers and a watched version that still stands means a fresh read |
| `OptimisticRetry.RunIsPaid` | app/services/rate_limit_service.py:61-67 | every abort, past or due, is paid for by a commit of another caller or by the one expiry that each writing of the key can suffer |
| `OptimisticRetry.RetriesAreBounded` | app/services/rate_limit_service.py:61-67 | n calls suffer at most n(n-1)/2 aborts from each other and n(n+1)/2 from the watched key expiring before EXEC |
| `OptimisticRetry.AllCallsReturn` | app/services/rate_limit_service.py:39-67 | the endless loop ends: however time passes, after 4n + 3n^2 round trips all n calls have returned |
| `RateLimitService.BucketKey.RefillAndTake` | app/services/rate_limit_service.py:45-59 | refill, cap and take in place compute the specified level, answer and wait |
| `RateLimitService.BucketKey.Turn` | app/services/rate_limit_service.py:40-67 | one turn of the loop commits exactly if the key was neither written nor, having been live, expired between WATCH and EXEC, and then as the serial bucket would |
| `RateLimitService.QuietTurnIsThreeRoundTrips` | app/services/rate_limit_service.py:39-67 | a turn with no other transaction on the key is three round trips of the interleaved protocol and commits in the one exactly when in the other |
| `RateLimitService.OverwrittenTurnAborts` | app/services/rate_limit_service.py:61-67 | in the interleaved protocol, EXEC on a key written since WATCH writes nothing and the caller starts over |
| `RateLimitService.BucketKey.Consume` | app/services/rate_limit_service.py:12-67 | the loop retries once per aborted turn and returns the serial answer at its place in the history; the kill-switch denies without touching the key |
| `RateLimitService.BucketKey.Check` | app/services/rate_limit_service.py:70-89 | 429 with the retry seconds exactly for a denied call; if Redis raises, in whichever turn and with EXEC applied or not, the request passes, unless the endpoint is switched off |
| `RefreshTokens.RunKeepsInv` | app/services/token_service.py:98-181 | chains, locks, grace entries and replies stay consistent in every run of interleaved rotations, revocations and crashes |
| `RefreshTokens.FamilyIsOneChain` | app/services/token_service.py:104-158 | in every reachable state the tokens of a family form one chain of one user, each token with at most one successor, and only the last can be unrevoked |
| `RefreshTokens.DeadFamiliesStayDead` | app/services/token_service.py:122-158 | once every token of a family is revoked, no later run revives one or adds another |
| `RefreshTokens.RevocationKillsUnlessOvertaken` | app/services/token_service.py:184-215 | a revocation that saw a whole family ends it if and only if no rotation committed in between or the token it made has been revoked |
| `RefreshTokens.ReuseKnowsTheFamily` | app/services/token_service.py:122-140 | presenting a revoked token outside the grace window starts a revocation that sees its whole family |
| `RefreshTokens.LogoutKnowsEveryFamily` | app/services/token_service.py:203-215 | logout and password change start one that sees every family of the user |
| `RefreshTokens.NobodyElseIsRevoked` | app/services/token_service.py:122-215 | in every run a step that revokes a live token is the rotation or expiry of that very token, or applies a revocation that began when its own user logged out or when a revoked token of its own family was presented |
| `RefreshTokens.UndisturbedReuseKillsTheFamily` | app/services/token_service.py:122-140 | a reuse outside the grace window whose revocation nobody overtakes ends with every token of the family revoked |
| `RefreshTokens.OvertakenRevocationSparesTheNewToken` | app/services/token_service.py:135-158 | a run in which the thief is told that all sessions were revoked while the owner's new token lives |
| `RefreshTokens.SamePairForEveryRetry` | app/services/token_service.py:122-181 | all answers ever given for one presented token carry the same pair |
| `RefreshTokens.GraceReturnsTheSuccessor` | app/services/token_service.py:122-131 | a retry that reads the grace entry gets the original pair, whose token is the unique successor in the family, and leaves both stores unchanged |
| `RefreshTokens.ReplayedIffGraceWritten` | app/services/token_service.py:122-181 | in every run a retry of a revoked token gets the pair of its rotation if and only if Redis answers and the grace entry was written less than 60 seconds ago; a failed, pending or never reached write, an older one and a failed lookup start a family revocation |
| `TokenService.ServeIsARun` | app/services/token_service.py:68-181 | serving one request from start to end is a run of the interleaved steps |
| `TokenService.ServeRotation` | app/services/token_service.py:152-181 | a rotation served alone revokes the old row, inserts its successor in the same family and writes the grace entry if Redis answers |
| `TokenService.ServeReuse` | app/services/token_service.py:122-140 | a reuse served alone revokes the whole family |
| `TokenService.LogoutAlone` | app/services/token_service.py:203-215 | a logout served alone revokes exactly the rows whose user logs out and changes nothing else |
| `TokenService.TokenStore.CreateRefreshToken` | app/services/token_service.py:30-65 | adds exactly one unrevoked row with the configured lifetime |
| `TokenService.TokenStore.Login` | app/services/token_service.py:30-65 | a first login opens a new one-token family and keeps the invariant |
| `TokenService.TokenStore.RevokeFamily` | app/services/token_service.py:184-200 | revokes exactly the rows of the family |
| `TokenService.TokenStore.RevokeAllUserTokens` | app/services/token_service.py:203-215 | revokes every row of the user, leaves every other row and the cache as they were, and is a run of the machine |
| `TokenService.TokenStore.RotateRefreshToken` | app/services/token_service.py:68-181 | in each of the five cases the reply, every row and the grace cache, by the presented row and the cached entry; and it is a run of the machine |
| `Counters.TriggersFollowTheCount` | alembic/versions/e9b7c6a5d4f2_add_counter_triggers.py:22-197 | all seven triggers move each counter of a surviving row by one with the rows it counts, down to zero, and touch no other |
| `RowLaws.PostCounters` | alembic/versions/e9b7c6a5d4f2_add_counter_triggers.py:22-197 | in every reachable state a post's counters are the numbers of its comments, of its likes and of its dislikes |
| `RowLaws.UserCounters` | alembic/versions/e9b7c6a5d4f2_add_counter_triggers.py:22-197 | and a user's the numbers of users they follow and of users who follow them |
| `RowLaws.OtherCounters` | alembic/versions/e9b7c6a5d4f2_add_counter_triggers.py:22-197 | and a comment's, a message's and a share's those of its likes and of its reactions |
| `RowLaws.CountByFields` | app/services/reconciliation_service.py:35-140 | what each of the nine counts of the repair pass counts, by columns |
| `RowLaws.RowsAreUnique` | app/models.py:22-504 | in every reachable state one row per identifier, one vote and one reaction per user and thing, and nobody follows themselves |
| `RowLaws.InsertedExactlyWhen` | app/models.py:22-504 | for each table, exactly which rows the constraints admit: all it refers to is there and nothing has its identifier or pair |
| `RowLaws.DeletionTakesExactly` | app/models.py:22-504 | deleting a user, post, comment, message or share takes exactly what is theirs, on it or about it, by columns; deleting any other row takes that row alone |
| `CounterInvariant.CountersAlwaysAgree` | alembic/versions/e9b7c6a5d4f2_add_counter_triggers.py:22-197 | from agreement, every run of inserts, updates and deletes, in the middle of a cascade too, keeps every counter but posts.views equal to its count |
| `CounterInvariant.NoClampBites` | alembic/versions/e9b7c6a5d4f2_add_counter_triggers.py:25-49 | a counter that a delete lowers is at least one, so GREATEST never changes the result |
| `CounterInvariant.StepShrinksDrift` | alembic/versions/e9b7c6a5d4f2_add_counter_triggers.py:25-49 | from any nonnegative counters one trigger step keeps them nonnegative and brings none further from its count or past it |
| `CounterInvariant.DriftNeverGrows` | alembic/versions/e9b7c6a5d4f2_add_counter_triggers.py:22-197 | over any run the drift of no counter grows or changes sign |
| `CounterInvariant.ViewDriftIsWhatWasFlushed` | app/tasks/post_view_flush_task.py:48-58 | over any run a surviving post exceeds its post_views rows by its initial drift plus all that was flushed to it, exactly unless it began with an undercount |
| `CounterInvariant.FollowTotalsAgree` | app/models.py:22-28 | total following_cnt, total followers_cnt and the number of connections are equal |
| `CounterInvariant.DanglingRowsGo` | app/models.py:158-201 | a row that refers to a missing row is in no set of rows a cascade can leave |
| `CounterInvariant.RepairAllRepairs` | app/services/reconciliation_service.py:31-143 | a pass over any columns makes exactly those columns right and leaves rows and other counters alone |
| `CounterInvariant.ReconciliationIsExact` | app/services/reconciliation_service.py:31-143 | from any counters the pass makes every counter its count, in any order of the statements |
| `CounterInvariant.ReportsAreExact` | app/services/reconciliation_service.py:31-143 | each statement reports exactly the number of rows that were wrong to begin with |
| `CounterInvariant.SecondPassIsIdle` | app/services/reconciliation_service.py:31-143 | a second pass changes nothing and reports all zeros |
| `CounterInvariant.RepairThenRun` | app/services/reconciliation_service.py:11-29 | after a pass from any state, every later run keeps every counter right |
| `SocialRules.VotingTwice` | app/routes/like.py:24-98 | voting the same way twice leaves the rows as they were, less an opposite vote |
| `SocialRules.VotingTwiceOnAComment` | app/routes/like.py:101-156 | the same for votes on comments |
| `SocialRules.ReactingTwice` | app/messaging/msg_reaction.py:61-117 | reacting the same way twice leaves the rows as they were, less a different reaction of the user |
| `SocialRules.ReactingTwiceToAShare` | app/messaging/share_reaction.py:64-120 | the same for reactions on shared posts |
| `RacingVotes.RacesKeepCounters` | app/routes/like.py:47-156 | however votes whose read and write are apart race with each other and with any row change, the counters stay right and nobody has two votes on one thing |
| `RacingVotes.WriteIsHarmlessIff` | app/routes/like.py:47-156 | the part of it that concerns the write: rows and outcome are those of an undisturbed toggle if and only if target, user and the vote read still stand |
| `RacingVotes.WriteLeaves` | app/routes/like.py:47-156 | how every write ends and what it leaves, lost races included, by what was read and what is there |
| `RacingVotes.UndisturbedToggle` | app/routes/like.py:24-156 | with nobody in between, look, write and count are the toggle and its answer |
| `RacingVotes.RaceIsHarmlessIff` | app/routes/like.py:47-156 | a toggle changes the rows and answers as an undisturbed one would at its write if and only if target and user still existed, the vote it had read still stood, and a post is still there when its counts are read; otherwise 409, a stale update, an error or a different change |
| `SocialRules.ReactionCases` | app/messaging/msg_reaction.py:61-117 | on consistent rows a reaction is created, removed or changed, exactly one of them, and the statement is admissible |
| `SocialRules.ShareReactionCases` | app/messaging/share_reaction.py:64-120 | the same for reactions on shared posts |
| `SocialStore.Database.VoteOnPost` | app/routes/like.py:24-98 | creates, removes or switches the vote by what vote was there, answers accordingly, and keeps every counter right |
| `SocialStore.Database.LikeAComment` | app/routes/like.py:101-156 | the same toggle on a comment |
| `SocialStore.Database.React` | app/messaging/msg_reaction.py:61-117 | refused exactly to those who neither sent nor received the message; created, toggled off or changed by the reaction that was there, with the counters right |
| `SocialStore.Database.ReactToSharedPost` | app/messaging/share_reaction.py:64-120 | the same for the two ends of a share |
| `SocialStore.Database.FollowUser` | app/routes/connect.py:25-85 | adds the edge exactly if the target exists, is someone else and is not followed yet |
| `SocialStore.Database.Disconnect` | app/routes/connect.py:89-192 | removes the edge if it is there and nothing else; both user counters stay right |
| `SocialStore.Database.DeleteComment` | app/routes/comment.py:82-106 | only the author's own comment goes, with exactly the votes on it, and the counters stay right |
| `SocialStore.Database.DeleteCascading` | app/models.py:22-504 | deletes row by row what refers to something gone; what is left is exactly what does not go with the root, with every counter right throughout |
| `SocialStore.Database.Reconcile` | app/services/reconciliation_service.py:11-143 | the nine statements in place make every counter its count and return per counter the number of rows they changed |
| `Idempotency.AtMostOnce` | app/services/idempotency_service.py:184-231 | with a sound SET NX and lifetime, no interleaving, whatever gets, closing writes and deletions fail, lets two requests into the function or two runs succeed before the record expires |
| `Idempotency.ExclusiveExactlyWhen` | app/services/idempotency_service.py:119-130 | both properties hold in all runs if and only if the SET NX call cannot error and the processing lifetime outlasts every run |
| `Idempotency.UnsoundBreaksBoth` | app/services/idempotency_service.py:119-130 | otherwise, for every configuration, a run of two requests that breaks both |
| `Idempotency.RepliesAreGenuine` | app/services/idempotency_service.py:184-228 | in every environment, also where Redis errs and lifetimes are too short, a returned or replayed body is that of a run that succeeded with the same request hash |
| `Idempotency.ReplayIsTheCurrentRun` | app/services/idempotency_service.py:184-199 | a lookup that replays gives the encoded result of the one run since the last expiry and changes nothing |
| `Idempotency.RetriesReplay` | app/services/idempotency_service.py:133-152 | until the completed record expires, every later lookup replays the result to the same data and refuses other data |
| `Idempotency.CompletedStays` | app/services/idempotency_service.py:119-159 | no request overwrites or removes a completed record within its lifetime |
| `Idempotency.FailuresFreeTheKey` | app/services/idempotency_service.py:218-231 | a run that raised frees the key at once if the deletion goes through; one that died frees it after the processing lifetime |
| `IdempotencyService.AdmissionIsVerdict` | app/services/idempotency_service.py:184-216 | the wrapper's decision before running the function, in every combination of failing calls |
| `IdempotencyService.ClosingIsOutcome` | app/services/idempotency_service.py:218-231 | what the record is after the function returned or raised, with time passing and the closing call failing or not |
| `IdempotencyService.IdempotencyKey.GetResult` | app/services/idempotency_service.py:108-116 | an error reads as absence |
| `IdempotencyService.IdempotencyKey.SetProcessing` | app/services/idempotency_service.py:119-130 | claims the key exactly if it is free; an error reads as success and changes nothing |
| `IdempotencyService.IdempotencyKey.SetCompleted` | app/services/idempotency_service.py:133-152 | overwrites the record unless the call errors |
| `IdempotencyService.IdempotencyKey.DeleteKey` | app/services/idempotency_service.py:155-159 | removes the record unless the call errors |
| `IdempotencyService.IdempotencyKey.Wrapper` | app/services/idempotency_service.py:184-231 | reply and record for every record found, outcome and combination of failing calls; and one request served alone is the run of the machine |
| `StableSort.SortIsSorted` | app/services/idempotency_service.py:43-53 | the sort orders by key and permutes |
| `StableSort.SortIsStable` | app/services/idempotency_service.py:43-47 | for any key, the elements with that key are the same sequence before and after sorting |
| `StableSort.SortedIsUnique` | app/services/idempotency_service.py:52-53 | where equal keys mean equal elements, sorted order is unique |
| `CanonicalLaws.ScalarsAreToldApart` | app/services/idempotency_service.py:39-41 | None, booleans, integers and strings have different normal forms, from each other and from every list and dictionary |
| `CanonicalLaws.ListsGoElementByElement` | app/services/idempotency_service.py:49-50 | lists and tuples are alike, equal if and only if they are element by element, and fail exactly if an element does |
| `CanonicalLaws.DictsGoNameByName` | app/services/idempotency_service.py:43-47 | dictionaries are equal if and only if each name has the same normal value in both or is in neither, the last of several items with one name counting |
| `CanonicalLaws.NamesOfKeys` | app/services/idempotency_service.py:45-45 | the name of a key is its str: a number and its decimal numeral are one name |
| `CanonicalLaws.UploadIsItsProperties` | app/services/idempotency_service.py:55-56 | an upload is the dictionary of its filename and content type |
| `CanonicalLaws.OthersStandForTheirEncoding` | app/services/idempotency_service.py:58-67 | any other object stands for its encoding, or where that fails for its repr |
| `CanonicalLaws.IntegerSetsAscend` | app/services/idempotency_service.py:52-53 | a set of integers is the ascending list of them, however it is iterated |
| `CanonicalLaws.StringSetsAscend` | app/services/idempotency_service.py:52-53 | and a set of strings likewise, by code points |
| `CanonicalLaws.ScalarSetsSortExactlyWhen` | app/services/idempotency_service.py:52-53 | a set of scalars normalises if and only if it has at most one element, only numbers or only strings |
| `CanonicalLaws.RanksAreEqualIff` | app/services/idempotency_service.py:52-53 | elements tie in the sort if and only if they are equal in Python |
| `CanonicalLaws.BelowMeans` | app/services/idempotency_service.py:46-53 | strings are ordered by prefix and first difference in code points |
| `CanonicalLaws.LessListMeans` | app/services/idempotency_service.py:52-53 | and lists by prefix and first difference of their elements |
| `Canonical.DictFormIsTheMap` | app/services/idempotency_service.py:43-47 | a normalised dictionary lists its keys in strict order, each with the value of the item that came last |
| `Canonical.SameMapSameForm` | app/services/idempotency_service.py:43-47 | two dictionaries have the same normal form if and only if they map every key alike |
| `Canonical.LessIsStrict` | app/services/idempotency_service.py:52-53 | Python's order on set elements is strict, and total where it does not raise |
| `Canonical.LessIsTransitive` | app/services/idempotency_service.py:52-53 | and transitive, lists compared element by element |
| `Canonical.NormalFormIgnoresOrder` | app/services/idempotency_service.py:39-67 | nested values that differ only in dictionary or set order have the same normal form, if colliding keys and tied elements agree |
| `Canonical.DictOrderMattersExactlyWhen` | app/services/idempotency_service.py:43-47 | insertion order is irrelevant if and only if items whose keys coincide under str have the same normal value |
| `Canonical.SetOrderMattersExactlyWhen` | app/services/idempotency_service.py:52-53 | iteration order is irrelevant if and only if elements Python's order cannot tell apart have the same normal form |
| `Canonical.OrderMattersExactlyWhen` | app/services/idempotency_service.py:39-67 | for nested values, all orders of all dictionaries and sets inside have one normal form if and only if at every depth colliding keys and tied elements agree |
| `Canonical.NormalizeIsIdempotent` | app/services/idempotency_service.py:39-67 | normalising a normal form changes nothing |
| `Canonical.ResultIsNormal` | app/services/idempotency_service.py:39-67 | in a normal form every dictionary, at any depth, lists its keys in strict order |
| `RequestText.Unambiguous` | app/services/idempotency_service.py:82-82 | the canonical JSON text determines the normal form |
| `RequestText.EqualTextsExactlyWhen` | app/services/idempotency_service.py:70-83 | two requests, each argument named once and all client data normalisable, have the same text if and only if outside the six ignored names they have the same names with the same normal forms |
| `RequestText.OthersDoNotMatter` | app/services/idempotency_service.py:21-28 | adding, dropping or changing an argument with one of the six ignored names leaves the text alone |
| `RequestText.SameDataSameText` | app/services/idempotency_service.py:70-83 | the same client data in any nested order, with whatever is passed under the six ignored names, has the same text |
| `RequestText.ScopeKeyIsInjective` | app/services/idempotency_service.py:86-89 | scope keys are equal if and only if user, path hash and client key are, whatever the client puts into its key |
| `RequestText.ScopeKeyText` | app/services/idempotency_service.py:86-89 | the text of a scope key, with a user and without |
| `MessageFlow.RunKeepsInv` | app/messaging/load_missed_msgs.py:26-89 | locks, claims, deletions and replies stay consistent in every run of concurrent transactions |
| `MessageFlow.ClaimedOncePerEdit` | app/messaging/load_missed_msgs.py:26-57 | no edit of a row is claimed twice by reconnects, receipts or local delivery, and a row is read exactly if its present edit was claimed |
| `MessageFlow.BatchesAreDisjoint` | app/messaging/load_missed_msgs.py:12-24 | two batches share a row only if it was edited in between and each got a different edit |
| `MessageFlow.LeftBehindIffIdle` | app/messaging/load_missed_msgs.py:26-89 | once all requests have finished, an edit of a row is left unclaimed, unreplaced and undeleted if and only if every transaction that ever locked it was rolled back or only touched it (foreign-key check, reaction count, repair, reply) |
| `MessageFlow.EveryUnreadRowIsClaimed` | app/messaging/load_missed_msgs.py:26-89 | for every row unread and undeleted when a reconnect looked: somebody locked it; once all requests have finished it is left behind if and only if all who did were rolled back or only touched it, and otherwise was claimed exactly once, edited or deleted |
| `MessageFlow.RollbackLeavesRowUnclaimed` | app/messaging/load_missed_msgs.py:40-54 | for every row, a run from the empty state in which one reconnect skips it, the other is rolled back and it is left unread |
| `MessageFlow.TouchLeavesRowUnclaimed` | app/messaging/delete_msg.py:44-52 | for every row and lock, a run from the empty state in which a reconnect skips a row that another transaction merely touches, nobody is rolled back and the row is left unread |
| `MessageFlow.ReadTimeIffRead` | app/messaging/read_receipt.py:28-37 | read_at is set exactly if is_read is, through claims, receipts and edits |
| `MessageFlow.OneDeletionTakesEffect` | app/messaging/delete_msg.py:75-88 | a row is deleted for everyone exactly if one deletion took effect, and then only one |
| `MessageFlow.DeletedIsFinal` | app/messaging/edit_msg.py:99-114 | deletion for everyone is never undone and the text never changes after it |
| `MessageFlow.EditRefusedIffDeleted` | app/messaging/edit_msg.py:76-124 | an edit that passed the time check is refused by the guarded update if and only if the message was deleted for everyone |
| `DeliveryLaws.EverybodyGetsTheirOwn` | app/messaging/load_missed_msgs.py:25-89 | in every run what a reconnect, receipt or local delivery is told it got are exactly the rows that were its to get when it looked: for a reconnect the unread undeleted ones addressed to that user and locked by nobody |
| `DeliveryLaws.OnlyTheSenderDeletes` | app/messaging/delete_msg.py:75-88 | in every run a deletion not rolled back took effect if and only if the row was the caller's own and undeleted when it looked |
| `DeliveryLaws.PartiesAreAsSent` | app/messaging/dm.py:30-39 | in every run sender, receiver and time of a row are those of its insertion for good |
| `DeliveryLaws.TextIsTheLastGiven` | app/messaging/edit_msg.py:99-118 | in every run a message shows the text of the last edit of it that committed, or the text it was sent with |
| `ChatStore.StatementAlone` | app/messaging/read_receipt.py:28-42 | a statement with nobody else about finds all its rows and commits |
| `ChatStore.EditAlone` | app/messaging/edit_msg.py:59-126 | an edit with nobody else about ends as the checks and the guard say |
| `ChatStore.Messages.ClaimMessages` | app/messaging/load_missed_msgs.py:25-57 | claims exactly the unread undeleted messages addressed to the user and changes no other row, as the machine does |
| `ChatStore.Messages.ClaimShares` | app/messaging/load_missed_msgs.py:59-89 | claims exactly the unread undeleted shares addressed to the user and changes no other row |
| `ChatStore.Messages.LoadMissedContent` | app/messaging/load_missed_msgs.py:11-89 | both transactions in order hand out exactly what was unread, undeleted and addressed to the user, and change nothing else |
| `ChatStore.Messages.MarkAsRead` | app/messaging/read_receipt.py:13-42 | marks exactly the unread messages from that sender to that reader, returns their ids and changes no other row |
| `ChatStore.Messages.MarkDelivered` | app/messaging/dm.py:65-78 | the local delivery while Redis is down marks the one row read, if it is unread |
| `ChatStore.Messages.EditMessage` | app/messaging/edit_msg.py:48-126 | not found, expired, unchanged, refused or edited, by the columns of the row; an edit stores the new text and makes it unread, anything else changes nothing |
| `ChatStore.Messages.DeleteForEveryone` | app/messaging/delete_msg.py:59-88 | takes effect exactly on the sender's own undeleted row and changes nothing else |
| `ChatStore.Messages.DeleteForMe` | app/messaging/delete_msg.py:26-54 | hides a known message once; a repeated click changes nothing and says so |
| `ChatStore.Messages.ClearChat` | app/messaging/clear_chat.py:30-57 | hides exactly what is visible and read or the caller's own, and keeps the unique constraint |
| `ChatStore.Messages.ChatHistory` | app/messaging/chat_history.py:33-62 | selects exactly the undeleted messages between the two users that the caller has not hidden |
| `ChatViews.ClearThenView` | app/messaging/chat_history.py:35-61 | after clearing, the caller's history is exactly the friend's unread messages, less what was deleted or hidden before |
| `ChatViews.ClearIsLocal` | app/messaging/clear_chat.py:18-26 | nobody else's history changes, nor the caller's with anyone else |
| `ChatViews.SecondClearIsIdle` | app/messaging/clear_chat.py:30-57 | a second clear inserts nothing |
| `ChatViews.UniqueForever` | app/models.py:101-117 | whatever users clear and hide, however the requests overlap, (user, message) stays unique and nothing comes back |
| `ChatViews.ClearRaisesIff` | app/messaging/clear_chat.py:30-57 | the unique constraint refuses a clear if and only if the same user hid one of its messages between its selection and its insert; otherwise it hides them all |
| `ViewFlush.MemberRoundTrip` | app/services/redis_service.py:191-204 | a queued member is counted for the post viewed, and determines post and user |
| `ViewFlush.NumberedMembers` | app/tasks/post_view_flush_task.py:30-35 | whatever follows the first colon, a member counts for the number before it, with a sign or white space around it |
| `ViewFlush.MalformedMembers` | app/tasks/post_view_flush_task.py:30-38 | a member without a colon, or without a digit or with a foreign character before it, is malformed |
| `ViewFlush.NoViewIsLost` | app/tasks/post_view_flush_task.py:24-68 | whatever fails and overlaps, a post's views and its queued members cover every addition |
| `ViewFlush.CountedOnceExactlyWhen` | app/tasks/post_view_flush_task.py:56-68 | views are counted exactly once in all runs if and only if removals do not fail, flushes do not overlap and no committed update raises |
| `ViewFlush.LostAckRecounts` | app/tasks/post_view_flush_task.py:56-61 | an update that commits while the flush is told otherwise makes the view count twice |
| `ViewFlush.RemovedOnlyAfterCounted` | app/tasks/post_view_flush_task.py:56-68 | a member leaves the queue only after its increment was applied, once per time it entered, whatever fails |
| `ViewFlush.LostRemovalRecounts` | app/tasks/post_view_flush_task.py:63-68 | a failed removal makes the view count twice |
| `ViewFlush.OverlapRecounts` | app/tasks/post_view_flush_task.py:24-68 | two overlapping flushes both count the view |
| `ViewFlush.MalformedStays` | app/tasks/post_view_flush_task.py:30-38 | malformed members are never counted and never removed |
| `ViewFlush.ListingCounts` | app/tasks/post_view_flush_task.py:28-35 | in whatever order Redis lists the set, a post's count is its number of members |
| `ViewQueue.CountMembers` | app/tasks/post_view_flush_task.py:28-38 | the loop's count of each post is its number of well-formed members, and the counts add up to the members to remove |
| `ViewQueue.FlushTask.QueuePostView` | app/services/redis_service.py:191-207 | adds the one member and nothing else |
| `ViewQueue.FlushTask.Flush` | app/tasks/post_view_flush_task.py:23-68 | each post gains the number of queued members for it unless the update failed; only well-formed members go, and only after an acknowledged update and a removal that went through; and it is the run of the protocol |

## Left out

- `posts.views` as a counter that agrees with `post_views`: the flush adds to it without rows there and the repair pass resets it from them.
- HTTP routing, WebSocket transport, Redis publishing, Celery wiring, mail, blobs, logging and tracing: input and output only.
- JWT, bcrypt, SHA-256 and token randomness: tokens stand for their hashes, new tokens are fresh, a request hash is compared only for equality, the path hash is a given 16-character string.
- Floating point: bucket levels are the exact rationals the floats approximate; float values inside a request are not modelled.
- `int(...)` on non-ASCII digits and Unicode white space in queue members, and `strip` of message text (a content carries its stripped form).
- Configured lifetimes are the defaults of app/config.py for refresh tokens (7 days) and parameters elsewhere.
- PostgreSQL locking inside one statement: a statement finds and locks its rows in one step, except for bulk token revocations, which are split into snapshot and application, and chat clearing, which is split into selection and insert.
- RefreshTokens.UndisturbedReuseKillsTheFamily: for a revocation nobody overtakes; `RefreshTokens.RevocationKillsUnlessOvertaken` is the exact condition and `RefreshTokens.OvertakenRevocationSparesTheNewToken` a run in which the family survives.
- SocialStore.Database.DeleteCascading: is the database's ON DELETE CASCADE; what SQLAlchemy does to related objects before its DELETE (`Post.shared_posts`, app/models.py:225, is not declared passive) is not part of this model.
- Clocks: application servers and Redis share one clock that never steps back, so a key is read no earlier than the caller captured its time.
- A transaction that only touches message rows takes its locks in one statement and keeps them to its end.
- Canonical.OrderMattersExactlyWhen: for values that normalise, and in which the encoded form of every foreign object does; elsewhere one order may raise TypeError and another not.
- Answers of racing reactions: their rows have keys of their own, so a reaction removed and made again is another row; their row changes are covered by the counter invariant.
- Account deletion removing message rows, hidden shared posts, reactions and replies in the chat history, notifications, and the chronological order of what is sent (the sort key is a display string).
- Delivery after a claim: messages are marked read before they are sent, so only the claim is provable.
- Calls without an idempotency key: the wrapper passes them through.
- Which arguments an endpoint has, beyond the six ignored names, and the `repr` fallback's text.
- JSON lexing: texts are token sequences, with white space and escapes left out.
- The OTP store, transient-retry helper, feed cache versions and connection presence: short, or built on names the code never binds.
