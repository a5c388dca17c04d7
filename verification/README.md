# Verified model of the admin backend's core

A Dafny model of the parts of this backend that carry state, protocols or
encodings, with proofs of what each of them is for. One file is one module.

| file | models |
|---|---|
| RedisLock, LockSections, LockClient | the Redis lock: one key as a server sees it, any number of interleaved `WithLock` sections, and the lock objects as classes |
| TokenBucket | the token-bucket Lua script, with and without key expiry |
| PermissionTree, PermissionCheck | the recursive permission query, and the permission decision against a declarative relation |
| PermissionReads, QueryPlans, TornReads, SnapshotReads | the queries of one permission check as separate reads, and what they see when other calls run between them |
| MemoryStore, Revocation | the in-process TTL store with `Get` split at its lock boundary, and revocation on it |
| PermissionCache, CacheCoherence, CheckerCoherence, Staleness | the permission cache with checks, handlers, evictions and the clock interleaved: when it is exact, and how stale it can be |
| Transactions, QueryBuilder, Identifiers | the repository layer: flattened transactions, the fluent condition builder, identifier quoting |
| Assignment, Roles | incremental assignment of permissions and roles, and the life of a role on top of it |
| Redaction, BodyCapture | redaction of JSON trees, and what is logged of a body |
| Base64, PasswordHash, HybridCipher | the self-describing password hash and the hybrid ciphertext |
| Cron | the scheduled-task manager, interleaved at its lock boundaries |
| Settings | the settings table |
| Strings, Wrappers | the parts of Go's `strings` package the others rely on, and an option type |

Time is an explicit clock, randomness and failures of the database, the network
and the key derivation are parameters, and code that releases a lock between
two effects is split into two steps that interleave with everything else. Code
that computes a value is a function; code that changes fields is a class or a
method, each proved against the function that specifies it.

Where the code does not do what its callers may expect, the model keeps the
code and says exactly when it does:

- `TokenBucket.ExpiryUnobservableIff`, `WindowBoundIff` and `ScriptRefusesIff`: when
  the capacity is positive but below half the rate, the time to live rounds down to
  zero seconds and the script limits nothing; otherwise the window bound holds, and
  a call is refused exactly when granting it would break the bound.
- `PermissionTree.QueryTerminatesIff`: the recursive query never ends exactly
  when an assigned permission lies on a cycle of parents.
- `PermissionCheck.ReadsBackIff`: a stored permission matches what it grants
  exactly when its method has no colon.
- `CheckerCoherence.SafeScheduleIff`: checks that overlap handlers stay right,
  whatever the tables and whenever their queries run, exactly when no check is
  overtaken: a handler changes the tables between its start and its write, and
  all handlers that cover the user have invalidated by the time of the write.
- `TornReads.GrantsOnlySeenIff`: what a check allows was allowed at some instant,
  whatever the tables, exactly when no call takes away links that the check has
  read before another one changes what it reads after them. One call, or any
  number of changes of permission rows, cannot do it; two calls can: a role is
  taken from the user and then a permission below one of the role's is created.
- `SnapshotReads.AlwaysSnapshotIff` and `OneCallIff`: when a check gives the
  answer of one instant. A single change of one user's roles or of one role
  never tears it; a change of permission rows does exactly when it comes after
  the first read of them.
- `QueryBuilder.DroppableIff`: an unsupported condition can be dropped from a
  chain exactly when no Or is pending or nothing has been said before it.
- `Assignment.ZeroOwnerReplacesIff`: with a zero owner id the lookup of current
  rows filters nothing, so the set is replaced exactly when no requested item is
  held by others only.
- `Roles.FailedUpdateLeavesLinksIff`: a failed role update has kept the links
  exactly when it failed before its assignment committed or had nothing to change.
- `Identifiers.QuoteTwiceIff` and `Redaction.RedactTwiceIff`: when quoting and
  redacting are idempotent.
- `BodyCapture.CaptureHides` and `UnparsedIsVerbatim`: a logged body that parses
  hides what is under sensitive keys; one that does not is not redacted at all.
- `Revocation.LogoutIsFinalIff`: logout is final exactly for tokens with an
  expiry. GenerateToken (pkg/jwtauth/jwtauth.go:112-145) always sets one.
- `Settings.ResponseIsStoredIff` and `CoreIsGoneIff`: when an update answers with
  what it stores, and when a run of calls loses a core setting.
- `Transactions.InnerIsUndoneIff`: an inner transaction is undone exactly when it
  has written nothing.

## Model

| member | source | states |
|---|---|---|
| RedisLock.HeldThroughout | pkg/redis/lock.go:26-40 | a token that is set only once and is the value at the end was the value at every instant in between, whatever expiries, deletes and refreshes happened |
| RedisLock.LeaseMatchesServer | pkg/redis/lock.go:112-180 | in every run from a free key, the lease the replies promise a client is live exactly when its token is the stored value, with the same deadline |
| RedisLock.AtMostOneLease | pkg/redis/lock.go:112-180 | two live leases on a key at one instant are the same token's |
| RedisLock.DeadlineWithinTtl | pkg/redis/lock.go:112-125 | no stored deadline is further away than the longest time to live in use |
| RedisLock.OwnDeadline | pkg/redis/lock.go:166-180 | the holder's deadline is never further away than its own time to live |
| RedisLock.RefreshNeverShortens | pkg/redis/lock.go:34-40 | in every reachable state a refresh by the holder moves the deadline forward to a full time to live, and by anyone else changes nothing |
| RedisLock.QuietKeepsDeadline | pkg/redis/lock.go:26-40 | without acquire or refresh a key that is still held is held by the same token with the same deadline |
| RedisLock.FreeAfterFullTtl | pkg/redis/lock.go:112-125 | after a full time to live without acquire or refresh every TryLock succeeds, whatever happened before |
| LockSections.ReturnedIsFinal | pkg/redis/lock.go:183-195 | a call that has returned keeps its result in the rest of the run |
| LockSections.GivenUpIsFinal | pkg/redis/lock.go:127-152 | a call whose context ends or whose TryLock fails in transport never gets into its section |
| LockSections.StepCannotRegain | pkg/redis/lock.go:26-32 | no step of any client puts a section's token back once it has lost the key |
| LockSections.NilMeansHeld | pkg/redis/lock.go:183-195 | a section that is going to return nil holds the key now, for every continuation of the run |
| LockSections.NilSectionsAreDisjoint | pkg/redis/lock.go:183-195 | in any interleaving of any number of calls, at no instant are two sections open that both return nil |
| LockSections.CellIsRun | pkg/redis/lock.go:183-195 | under any interleaving of sections the key is what the one-key model makes of the commands that reached the server |
| LockSections.NilMeansLeased | pkg/redis/lock.go:183-195 | while a section that will return nil is open, the lease that the replies promised it has not run out |
| LockSections.CounterKept | pkg/redis/lock.go:183-195 | when all sections return nil, the counter minus the completed increments never changes, although each increment is a separate load and store |
| LockSections.NoLostUpdate | pkg/redis/lock.go:183-195 | a counter incremented only in sections that all returned nil equals their number |
| LockSections.ExpiredLeaseOverlaps | pkg/redis/lock.go:183-195 | a concrete run in which a lease expires inside its section: an update is lost, and one of the calls reports it |
| LockClient.Server.SetNotExists | pkg/redis/lock.go:112-125 | SET NX PX on the shared server does what the one-key model does and leaves other keys alone |
| LockClient.Server.UnlockScript | pkg/redis/lock.go:26-32 | the compare-and-delete script answers 1 and frees the key exactly when the caller's token is the live value |
| LockClient.Server.RefreshScript | pkg/redis/lock.go:34-40 | the compare-and-expire script answers 1 and moves the deadline exactly when the caller's token is the live value |
| LockClient.BoundedTries | pkg/redis/lock.go:127-152 | with maxRetries > 0 a Lock call makes at most maxRetries + 1 tries, and it ends within that many rounds |
| LockClient.LockedByOwnToken | pkg/redis/lock.go:127-152 | a Lock call that returns nil leaves its own token on the key with a full time to live |
| LockClient.LockErrors | pkg/redis/lock.go:127-152 | Lock can only fail for want of the key or in transport |
| LockClient.LockEnds | pkg/redis/lock.go:127-152 | Lock ends at the first try that is unanswered, finds the key free, is the last that maxRetries allows, or sees the context end; nil with the key taken exactly when that try is answered and the key free |
| LockClient.Lock.constructor | pkg/redis/lock.go:81-106 | non-positive durations and an empty prefix are replaced by the defaults |
| LockClient.Lock.TryLock | pkg/redis/lock.go:111-125 | one SET with the lock's token; not obtained exactly when the key is live, a lost reply is an error although the key may be taken |
| LockClient.Lock.Acquire | pkg/redis/lock.go:127-152 | the retry loop ends with the key, error and number of tries of the recursive specification |
| LockClient.Lock.Unlock | pkg/redis/lock.go:154-164 | frees the key only for the holder; not held exactly when the token is not the live value |
| LockClient.Lock.Refresh | pkg/redis/lock.go:166-180 | a sub-millisecond time to live is refused untouched; otherwise the deadline is reset only for the holder |
| LockClient.WithLock | pkg/redis/lock.go:182-195 | its result and what it leaves of the key in every case: an error of Lock ends it; an error of fn is returned after the release and goes before the release's own; nil exactly when fn succeeded, the release was answered and the token was the value then, and so at every instant since the acquisition; a panic in fn leaves the key as it is |
| TokenBucket.StepConserves | internal/platform/middleware/sentinel/limiter.go:179-205 | what a call grants plus what it leaves is within the capacity and within what was there plus what flowed in |
| TokenBucket.GrantedWithinFlow | internal/platform/middleware/sentinel/limiter.go:179-205 | a run from a bucket grants at most its tokens plus the inflow up to the last call |
| TokenBucket.WindowBound | internal/platform/middleware/sentinel/limiter.go:179-205 | any window of any run on a lasting bucket grants at most capacity + rate · seconds |
| TokenBucket.WindowBoundWithExpiry | internal/platform/middleware/sentinel/limiter.go:172-206 | the same bound for the script with its key expiry, for every window after every prefix, whenever expiry cannot be observed |
| TokenBucket.NothingLimited | internal/platform/middleware/sentinel/limiter.go:172-206 | with a time to live of zero seconds a burst of any size is granted at one instant |
| TokenBucket.WindowBoundIff | internal/platform/middleware/sentinel/limiter.go:172-206 | the script keeps the window bound over all runs if and only if 2 · capacity >= rate or the capacity is zero |
| TokenBucket.RefusedIff | internal/platform/middleware/sentinel/limiter.go:179-205 | in a run on an absent bucket a call is refused if and only if, with what it asks for, some window that ends with it would get more than the capacity plus the rate times its whole seconds |
| TokenBucket.ScriptRefusesIff | internal/platform/middleware/sentinel/limiter.go:172-206 | so with the expiring keys, whenever expiry cannot be observed: no call within the limit is refused |
| TokenBucket.FullAfterTtl | internal/platform/middleware/sentinel/limiter.go:179-192 | a bucket left alone for the whole time to live is full, like an absent one |
| TokenBucket.SameDecisions | internal/platform/middleware/sentinel/limiter.go:172-206 | with 2 · capacity >= rate every run with expiring keys decides as the run whose keys last |
| TokenBucket.ZeroCapacityDecides | internal/platform/middleware/sentinel/limiter.go:172-206 | with no capacity expiry cannot be observed either |
| TokenBucket.VanishingBurst | internal/platform/middleware/sentinel/limiter.go:179-205 | when the time to live rounds to zero, any number of simultaneous requests is allowed |
| TokenBucket.ExpiryUnobservableIff | internal/platform/middleware/sentinel/limiter.go:172-206 | expiry is unobservable over all runs if and only if 2 · capacity >= rate or the capacity is zero |
| TokenBucket.Store.Script | internal/platform/middleware/sentinel/limiter.go:172-206 | the script over its two keys and their deadlines decides and stores what the specification says |
| PermissionTree.ChainIsDistinct | internal/modules/iam/service/role_service.go:284-296 | on the way up to a root that is on no cycle no id comes twice |
| PermissionTree.NoLongChain | internal/modules/iam/service/role_service.go:284-296 | so no way up to such a root is as long as the table |
| PermissionTree.LevelCount | internal/modules/iam/service/role_service.go:284-296 | the n-th level of the recursion holds a row once if its n-th ancestor is a root, otherwise not |
| PermissionTree.QueryTerminates | internal/modules/iam/service/role_service.go:284-296 | with no root on a cycle the recursion is empty after as many levels as there are rows |
| PermissionTree.QueryTerminatesIff | internal/modules/iam/service/role_service.go:284-296 | the recursion stops if and only if no root lies on a cycle of parents, whatever cycles there are elsewhere |
| PermissionTree.CycleNeverStops | internal/modules/iam/service/role_service.go:284-296 | a cycle through a root keeps producing rows for ever |
| PermissionTree.TreeCount | internal/modules/iam/service/role_service.go:284-296 | a row occurs in the first n levels as often as roots occur among its first n ancestors |
| PermissionTree.RootHitsAreDistinct | internal/modules/iam/service/role_service.go:284-296 | those occurrences are different roots |
| PermissionTree.QueryResult | internal/modules/iam/service/role_service.go:284-296 | the query returns exactly the reflexive descendants of the existing roots, each as often as there are distinct roots at or above it |
| PermissionCheck.UniqueByIdKeeps | internal/modules/iam/service/permission_checker.go:122 | after UniqBy every id of the list occurs exactly once |
| PermissionCheck.AllPermissionsResult | internal/modules/iam/service/permission_checker.go:94-123 | a user gets each row once, the direct ones first, and exactly the rows at or below one assigned to an existing role |
| PermissionCheck.MatchPath | internal/modules/iam/service/permission_checker.go:125-150 | the loop over the map, in any order, finds a match exactly when the exact key is there or some key has the method or a star and a path that is a base, a slash and a star, of which the requested path begins with the base |
| PermissionCheck.SplitKeyIff | internal/modules/iam/service/permission_checker.go:133-137 | an encoded key gives its method and path back if and only if the method has no colon |
| PermissionCheck.ReadsBackIff | internal/modules/iam/service/permission_checker.go:125-150 | a stored permission matches exactly the requests it grants, for all colon-free request methods, if and only if its own method has no colon |
| PermissionCheck.DecisionIsCorrect | internal/modules/iam/service/permission_checker.go:37-57 | with colon-free methods the decision on encoded keys is the declarative relation over roles, permissions and descendants, both ways |
| PermissionCheck.WildcardAllows | internal/modules/iam/service/permission_checker.go:125-150 | a row at or below one of the user's with a path that ends in a slash and a star allows every path that begins as its base does, for its own method, and for every method when it has a star |
| PermissionCheck.ExactAllows | internal/modules/iam/service/permission_checker.go:125-130 | such a row allows the request that it names |
| PermissionCheck.AllowedForm | internal/modules/iam/service/permission_checker.go:125-150 | nothing else is allowed: a row that the user reaches names the request, or has its method or a star and a base, a slash and a star whose base the path begins with |
| PermissionCheck.UnderIff | internal/modules/iam/service/permission_checker.go:143-146 | the suffix and prefix tests decide whether a path is a base and anything after it |
| PermissionCheck.ColonInMethodMisreads | internal/modules/iam/service/permission_checker.go:50-51 | a concrete database on which a method with a colon is permitted as another one |
| PermissionCheck.AssignmentsAreMonotone | internal/modules/iam/service/permission_checker.go:94-123 | more role and permission links never turn an allowed request into a refused one |
| PermissionCheck.OtherUsersDoNotMatter | internal/modules/iam/service/user_role_service.go:77-92 | changing other users' roles leaves a user's permissions as they are |
| PermissionCheck.CollectDirect | internal/modules/iam/service/permission_checker.go:103-110 | the loop over roles collects the specified direct permissions |
| PermissionCheck.DropDuplicates | internal/modules/iam/service/permission_checker.go:122 | the set of seen ids implements keeping first occurrences |
| PermissionCheck.GetUserAllPermissions | internal/modules/iam/service/permission_checker.go:94-123 | the method with its early exits returns the specified list |
| PermissionCheck.FillKeys | internal/modules/iam/service/permission_checker.go:48-53 | the loop fills exactly the keys of permissions with a method and a path |
| MemoryStore.CleanupIsInvisible | pkg/store/memory.go:34-120 | run sequentially, every later lookup answers as a map from which nothing was ever cleaned up |
| MemoryStore.LatestWriteDecides | pkg/store/memory.go:34-107 | run sequentially, a lookup finds what the latest write of the key left: a value for ever, a value until exactly its time to live is over, or nothing |
| MemoryStore.StoreWithinLatest | pkg/store/memory.go:34-100 | in any interleaving every entry of the store is the latest one set for its key |
| MemoryStore.HitsAreLatest | pkg/store/memory.go:34-50 | with Get split at its locks and interleaved with anything, a hit is the latest value set, unexpired and undeleted |
| MemoryStore.PendingSawExpired | pkg/store/memory.go:34-50 | every pending delete belongs to a read phase in the run that saw the key expired |
| MemoryStore.LostToDelayedDelete | pkg/store/memory.go:34-50 | a live entry is lost only at a delayed delete that hits it while it is live |
| MemoryStore.SpuriousMissIsALateDelete | pkg/store/memory.go:34-50 | a miss of a live key implies that some Get saw the key expired and deleted it after it had been set again |
| MemoryStore.LateDeleteLoses | pkg/store/memory.go:34-50 | a concrete run in which that happens to a key that was set for ever |
| MemoryStore.Memory.Get | pkg/store/memory.go:34-50 | answers the lookup and deletes an expired key |
| MemoryStore.Memory.Set | pkg/store/memory.go:59-68 | stores with the default time to live, or for ever, and sweeps |
| MemoryStore.Memory.SetWithTTL | pkg/store/memory.go:71-81 | a non-positive time to live deletes, any other stores a deadline; both sweep |
| MemoryStore.Memory.SetUntil | pkg/store/memory.go:84-86 | a future expiry is stored as a deadline not before it |
| MemoryStore.Memory.Cleanup | pkg/store/memory.go:109-116 | deleting while ranging in any order leaves exactly the unexpired entries |
| PermissionReads.KeysByIds | internal/modules/iam/service/permission_checker.go:115-122 | the computed keys depend on the permission table and on which rows were collected, not on their order or repetition |
| QueryPlans.UndisturbedIsExact | internal/modules/iam/service/permission_checker.go:94-123 | queries at any instants, among changes that are none of the user's, give what one reading gives |
| TornReads.FindInstant | internal/modules/iam/service/permission_checker.go:94-123 | a link read at one instant and rows read later were together, with the user's role, at one instant of the run, if no call makes the link stale |
| TornReads.KeyWasSeen | internal/modules/iam/service/permission_checker.go:94-123 | every permission that a check collects, children included, was the user's at some instant of such a run |
| TornReads.UserThenRows | internal/modules/iam/service/permission_service.go:28-44 | whatever the rest of the run, if a role is taken from the user after the first query and then a permission row is created that a later query sees, there are tables on which the check allows what was never allowed |
| TornReads.UserThenRole | internal/modules/iam/service/role_service.go:225-251 | the same when the role that was taken gains the permission |
| TornReads.RoleThenRows | internal/modules/iam/service/role_service.go:225-251 | the same when a role loses a link that has been read and then a row below it is created |
| TornReads.GrantsOnlySeenIff | internal/modules/iam/service/permission_checker.go:94-123 | over all runs of calls and all plans of the queries: whatever the tables, every allowed request was allowed at some instant, if and only if no two calls come in one of these orders |
| TornReads.OneCallGrantsOnlySeen | internal/modules/iam/service/permission_service.go:85-95 | one call between the queries, of any kind, or any number of changes of permission rows, never makes a check allow what no instant allows |
| SnapshotReads.NotTornIsSnapshot | internal/modules/iam/service/permission_checker.go:94-123 | a check that no call tears computes the keys of one instant of the run |
| SnapshotReads.DeletedBetween | internal/modules/iam/service/permission_service.go:85-95 | one statement that deletes a parent and its child after the first read of permission rows can leave the check with the keys of neither side |
| SnapshotReads.AlwaysSnapshotIff | internal/modules/iam/service/permission_checker.go:94-123 | over all runs of calls and all plans of the queries: whatever the tables, the check gives the keys of one instant, if and only if no permission rows change after the first read of them and no call that may be missed comes before one of another aspect |
| SnapshotReads.OneCallIff | internal/modules/iam/service/permission_checker.go:94-123 | one change of a user's roles or of a role never tears a check, and one of permission rows does exactly from the fifth query on |
| PermissionCache.LoadOrigin | internal/modules/iam/service/permission_checker.go:37-57 | what a check under way can see are the versions of the tables since an instant of the run |
| PermissionCache.EntryOrigin | internal/modules/iam/service/permission_checker.go:37-57 | every cached set was computed by queries within one window of the run, which began at most its age bound ago |
| PermissionCache.SearchedOrigin | internal/modules/iam/service/permission_checker.go:37-57 | so was the set that any check searches |
| PermissionCache.BoundedStaleness | internal/modules/iam/service/permission_checker.go:36-57 | under arbitrary table changes, invalidations and ticks, each answer is that of a check whose separate queries saw versions of the tables within a window that began at most the TTL plus the longest check ago |
| Staleness.SnapshotInWindow | internal/modules/iam/service/permission_checker.go:36-57 | if no call in the window tears the check, the answer is the uncached one at an instant of the window |
| Staleness.AllowedInWindow | internal/modules/iam/service/permission_checker.go:36-57 | if no call leaves the check a stale link, what it allows was allowed at an instant of the window |
| Staleness.AllowedIsRecent | internal/modules/iam/service/permission_checker.go:36-57 | what the cache allows was allowed by the tables at an instant of the window, when at most one call or only changes of permission rows fall into it |
| PermissionCache.SplitCheckAnswer | internal/modules/iam/service/permission_checker.go:42-56 | a check in flight computes its keys from the versions of the tables since its start, by the plan of its queries |
| PermissionCache.CheckIsCached | internal/modules/iam/service/permission_checker.go:37-57 | after a check that missed, the user is answered from its keys until the time to live is over and no longer, or until the entry is taken away |
| CacheCoherence.RightIffNoStaleWrite | internal/modules/iam/service/permission_checker.go:37-57 | with any number of checks, each of separate queries and a later write, among handlers, evictions and ticks, a user always gets the uncached keys if and only if no check writes keys that the tables no longer give while no covering handler is left to remove them |
| CheckerCoherence.CheckerIsSteady | internal/modules/iam/service/permission_checker.go:94-123 | changes that are none of the user's do not matter to the separate queries, whenever they run |
| CacheCoherence.StaleWriteIsOvertaken | internal/modules/iam/service/permission_checker.go:37-57 | such a write is one of an overtaken check: a covering handler changed the tables after its start and all covering handlers have invalidated before its write |
| CacheCoherence.SameOvertaken | internal/modules/iam/service/permission_checker.go:37-57 | being overtaken depends on the schedule alone, not on the tables or on when the queries run |
| CacheCoherence.OvertakenCanBeStale | internal/modules/iam/service/permission_checker.go:37-57 | for every overtaken check in every schedule there are tables on which it writes stale keys; the overtaking handler writes only what its scope lets it write |
| CheckerCoherence.SafeScheduleIff | internal/modules/iam/service/permission_checker.go:37-57 | a schedule gives right answers whatever the tables and whenever the queries run, if and only if no check of the user is overtaken in it |
| CheckerCoherence.OvertakenAllowsRevoked | internal/modules/iam/service/permission_checker.go:37-57 | a concrete schedule with nothing left in flight after which the user is still allowed what a finished and invalidating handler took away |
| CheckerCoherence.CheckerIsLocal | internal/modules/iam/handler/user_role_handler.go:23-27 | role assignment to one user changes no other user's keys, so invalidating that user is enough |
| CheckerCoherence.ExactCoherence | internal/modules/iam/handler/role_handler.go:22-65 | with changes only by invalidating handlers and no check of the user overtaken, a user without a handler in flight gets the uncached answer |
| CheckerCoherence.AtomicCoherence | internal/modules/iam/handler/role_handler.go:22-65 | checks that are one step are never overtaken, so with them coherence is unconditional |
| PermissionCache.PermissionChecker.HasPermission | internal/modules/iam/service/permission_checker.go:36-57 | a hit is searched, a failed query leaves the cache, a miss answers uncached and stores the keys |
| PermissionCache.PermissionChecker.InvalidateUser | internal/modules/iam/cache/permission_cache.go:50-52 | exactly one user's entry goes |
| PermissionCache.PermissionChecker.InvalidateAll | internal/modules/iam/cache/permission_cache.go:55-57 | every entry goes |
| Revocation.RevocationsLast | internal/modules/iam/tokenstore/memory.go:25-41 | over any interleaved run a stored revocation lasts to the token's expiry and is never scheduled for deletion before it |
| Revocation.StaysRevoked | internal/modules/iam/tokenstore/memory.go:25-41 | from the logout on, at every instant the revocation is there or the expiry has come |
| Revocation.AcceptedOnlyAcrossExpiry | internal/platform/middleware/jwt.go:70-88 | after logout a request gets through only if the expiry falls between its two clock readings |
| Revocation.LogoutIsFinal | internal/modules/iam/service/auth_service.go:121-132 | at no instant after its logout does a token with an expiry pass both the parse and the lookup, in any later run |
| Revocation.LogoutIsFinalIff | internal/modules/iam/service/auth_service.go:121-132 | logout is final in every run if and only if the token has an expiry |
| Revocation.OthersUnaffected | internal/modules/iam/tokenstore/memory.go:25-41 | a token nobody logged out is never refused as revoked |
| Revocation.NeverLoggedOutIsOpenIff | internal/platform/middleware/jwt.go:70-88 | a token nobody logged out is open until its expiry and no longer, whatever happens to other tokens |
| Revocation.NoExpiryComesBack | internal/modules/iam/service/auth_service.go:121-132 | a token without an expiry, which GenerateToken does not make, is accepted again after a day |
| Revocation.Gate.Revoke | internal/modules/iam/tokenstore/memory.go:25-32 | an empty id is ignored; a future expiry is stored so that it lasts |
| Revocation.Gate.Logout | internal/modules/iam/service/auth_service.go:121-132 | from then on a lookup finds the token revoked exactly as long as its expiry, or a day, has not passed; no other live entry is touched |
| Revocation.Gate.Handle | internal/platform/middleware/jwt.go:61-124 | each of the eight outcomes exactly when it is the first one due: header, signature and expiry, revocation check and its error, identity, permission; what the store shows is unchanged |
| Transactions.SessionCollectsEffects | pkg/repository/db.go:60-63 | inside a transaction any program tree piles up its writes in order in the one session |
| Transactions.OutermostIsAtomic | pkg/repository/db.go:60-92 | for every tree with swallowed errors and recovered panics, the outermost call commits all writes in order or leaves the database as it was |
| Transactions.CallerSees | pkg/repository/db.go:74-92 | a panic of the body goes on unless its caller recovers it, an error unless it is swallowed, and a failed begin or commit is an error |
| Transactions.StopsAtFirst | pkg/repository/db.go:60-92 | the body stops at its first error, refused write or panic: nothing after it runs, all before it is undone and the caller gets it; a last write that is taken is committed after the others |
| Transactions.PlainStores | pkg/repository/db.go:60-114 | without a session any tree leaves every write outside its transactions, failed or not, and the writes of each of its outermost transactions that succeeds |
| Transactions.WritesStay | pkg/repository/db.go:107-114 | without any transaction every row that is written before the end stays, in order |
| Transactions.ErasureIsComplete | pkg/repository/db.go:60-63 | erasing leaves no transaction anywhere in the tree |
| Transactions.NestingIsErasable | pkg/repository/db.go:60-92 | a transaction means the same with all inner transactions erased |
| Transactions.InnerIsUndoneIff | pkg/repository/db.go:60-63 | for every body and however it ends, an inner call leaves the session as it was if and only if its body wrote no row |
| Transactions.SwallowedInnerIsCommitted | pkg/repository/db.go:60-92 | when the error of an inner call is swallowed, the outermost call commits exactly what the inner one had written |
| Transactions.DB.Transact | pkg/repository/db.go:60-92 | refines that meaning; an own session is always closed and ends committed exactly when the call succeeds, rolled back otherwise |
| Transactions.DB.RunStmt | pkg/repository/db.go:107-114 | a write goes to the context's session, or is committed at once when there is none |
| QueryBuilder.BuildRepresents | pkg/repository/query.go:283-322 | after any calls the node list compiles to what has been said, with the same pending join |
| QueryBuilder.CompiledMeaning | pkg/repository/query.go:56-114 | for every chain with arbitrarily nested groups the compiled condition is the left fold of the calls |
| QueryBuilder.ChainGrows | pkg/repository/query.go:283-322 | a condition is joined to all before it by the And or Or called just before it, a group by its own method's, as if chain and group stood in parentheses |
| QueryBuilder.JoinIsReset | pkg/repository/query.go:283-322 | after a condition or a group the next condition is joined by And again |
| QueryBuilder.EmptyGroup | pkg/repository/query.go:304-313 | a group without conditions changes neither the meaning nor the pending join |
| QueryBuilder.DroppableIff | pkg/repository/query.go:315-322 | dropping a condition with an unsupported operator keeps the meaning of every continuation on every row, if and only if no Or is pending or nothing has been said before it; the repository's own unsupported filters (op=startswith) reach the builder only through applyFilters on a fresh builder, where that holds |
| QueryBuilder.FiltersAreAConjunction | pkg/repository/query.go:324-329 | filters mean the conjunction of the supported ones, in any order |
| QueryBuilder.ToBuilderCond | pkg/repository/query.go:56-74 | the accumulating loop compiles the node list |
| QueryBuilder.NodeToCond | pkg/repository/query.go:76-87 | a leaf or group compiles as specified |
| QueryBuilder.QueryBuilder.Where | pkg/repository/query.go:315-322 | a condition takes the pending join and resets it |
| QueryBuilder.QueryBuilder.AddGroup | pkg/repository/query.go:304-313 | a group runs on a child builder, takes its method's join, and is dropped when empty |
| QueryBuilder.QueryBuilder.ApplyFilters | pkg/repository/query.go:324-329 | appends one condition per filter |
| Identifiers.QuoteRoundTrip | pkg/repository/query.go:118-135 | for every name, lexing the quoted form as dot-separated backquoted identifiers returns its trimmed parts, empty and star parts bare |
| Identifiers.QualifiedName | pkg/repository/query.go:116-135 | a plain column, a column of a table and all columns of a table come out with each name backquoted and the star bare |
| Identifiers.TrimStrips | pkg/repository/query.go:119 | what is trimmed is the white space at both ends, all of it and nothing else |
| Identifiers.QuoteTwiceIff | pkg/repository/query.go:118-135 | quoting twice is quoting once if and only if the name is quoted as a whole or each part is backquote-free or quoted already |
| Identifiers.OrderByKeepsTerms | pkg/repository/query.go:137-157 | the quoted ORDER BY reads back as the same terms in the same order, only the columns quoted |
| Identifiers.OrderByReadsBack | pkg/repository/query.go:137-157 | term by term, the quoted column reads back as the identifiers that the column stands for, and what follows it is as it was |
| Identifiers.QuoteOrderByLoop | pkg/repository/query.go:137-157 | the loop produces the specified text |
| Assignment.AssignedStaysValid | mysql/schema.sql:54-78 | primary and unique key hold after every assignment, failed or not |
| Assignment.SucceedsIff | internal/modules/iam/service/role_service.go:225-251 | for a real owner an assignment fails exactly when a statement that it sends fails or the new ids repeat, and then changes nothing |
| Assignment.ChangesAreSymmetricDifference | internal/modules/iam/service/role_service.go:231-233 | removed and added ids are the two halves of the symmetric difference, each id once |
| Assignment.RowsAfter | internal/modules/iam/service/role_service.go:235-250 | kept rows keep their identity, other owners' rows stay, new rows are the owner's with fresh ids |
| Assignment.AssignmentReplaces | internal/modules/iam/service/user_role_service.go:47-73 | after success the owner holds exactly the requested ids |
| Assignment.ZeroOwnerHolds | pkg/repository/query.go:199-204 | what the zero owner ends up holding, item by item |
| Assignment.ZeroOwnerReplacesIff | pkg/repository/query.go:199-204 | the zero owner gets the requested set if and only if no requested item is held by others only |
| Assignment.LinkTable.Assign | internal/modules/iam/service/role_service.go:225-251 | delete and insert in one transaction, rolled back when the insert fails, give the specified table |
| Roles.RunKeepsInv | internal/modules/iam/service/role_service.go:41-152 | over any run of role calls, failing ones included, every permission link belongs to an existing role and all keys hold, without a foreign key |
| Roles.CreateIsAllOrNothing | internal/modules/iam/service/role_service.go:41-81 | creating succeeds exactly when every statement does, the final read included, and no permission id repeats; the new role then has exactly the wanted permissions and other roles keep theirs, and otherwise nothing has changed |
| Roles.UpdateReplaces | internal/modules/iam/service/role_service.go:84-122 | an update replaces the role's permissions when its assignment commits and leaves them when it does not, whatever it answers, and other roles keep theirs |
| Roles.FailedUpdateLeavesLinksIff | internal/modules/iam/service/role_service.go:100-115 | a failed update leaves the links if and only if it failed before the assignment committed or there was nothing to change |
| Roles.DeleteRemovesLinks | internal/modules/iam/service/role_service.go:136-151 | a deletion succeeds exactly for an existing role when the database takes it; then the role and its links go, no other role and no other link; a failed one changes nothing |
| Roles.RunKeepsGone | internal/modules/iam/service/role_service.go:41-152 | a deleted role's id is never given out again |
| Roles.DeletedRoleGrantsNothing | internal/modules/iam/service/user_role_service.go:77-92 | over any run after a deletion, the user links left behind change nobody's permissions |
| Roles.RoleService.CreateRole | internal/modules/iam/service/role_service.go:41-81 | the transaction with the nested assignment gives the specified state, rolled back when the assignment fails |
| Roles.RoleService.UpdateRole | internal/modules/iam/service/role_service.go:84-122 | refines the specified step, the read after the commit included, with every link still owned by a role |
| Roles.RoleService.DeleteRole | internal/modules/iam/service/role_service.go:136-151 | links and role go together or not at all |
| Redaction.NonInterference | internal/platform/middleware/logger.go:261-297 | two trees of any shape that differ only under sensitive keys are logged alike |
| Redaction.OutputIsBounded | internal/platform/middleware/logger.go:261-297 | depth, fan-out and string values of the redacted tree are bounded, and a sensitive key carries nothing but the mask or the cut marker |
| Redaction.HarmlessIsKept | internal/platform/middleware/logger.go:261-297 | a tree within the limits and without sensitive keys is logged as it is |
| Redaction.OpenIsLogged | internal/platform/middleware/logger.go:261-297 | in any tree, every value that is reached within the limits through no sensitive key is logged at its place: unchanged, a long string cut, an object with its first field names, the mask under sensitive ones and a marker when it is cut |
| Redaction.SensitiveIff | internal/platform/middleware/logger.go:299-307 | a key is sensitive exactly when its lower-case form is a sensitive word with anything before and after it |
| Redaction.RedactTwiceIff | internal/platform/middleware/logger.go:261-297 | over a fixed field order redacting twice is redacting once if and only if no cut marker replaced a field where a second pass would change it |
| Redaction.IsSensitive | internal/platform/middleware/logger.go:299-307 | the scan finds a key exactly when it contains a sensitive word, ignoring case |
| Redaction.RedactValue | internal/platform/middleware/logger.go:261-297 | the recursion with its loops refines the specification |
| Redaction.RedactArray | internal/platform/middleware/logger.go:281-290 | the loop over the first items gives the specified array |
| Redaction.RedactObject | internal/platform/middleware/logger.go:266-280 | filling the output map until the limit gives the specified fields |
| BodyCapture.CaptureIsBounded | internal/platform/middleware/logger.go:208-228 | whatever the body, every emitted string and every emitted field name is within the limit and the suffix, with depth and fan-out bounded; nothing is emitted exactly for white space |
| BodyCapture.CaptureHides | internal/platform/middleware/logger.go:208-228 | two bodies whose trees differ only under sensitive keys are logged alike, whether the encoding is cut or not |
| BodyCapture.HarmlessIsCaptured | internal/platform/middleware/logger.go:208-228 | a body within the limits and without sensitive keys is logged as its tree |
| BodyCapture.OpenIsCaptured | internal/platform/middleware/logger.go:208-228 | a body that parses is logged as a tree with everything in the open at its place when the redacted encoding fits, and otherwise as that encoding up to the limit |
| BodyCapture.UnparsedIsVerbatim | internal/platform/middleware/logger.go:208-217 | bodies that do not parse are logged alike if and only if they are the same or agree up to the limit: nothing in them is redacted |
| BodyCapture.CaptureJsonBody | internal/platform/middleware/logger.go:208-228 | the method with its two encoder calls gives the specified result |
| BodyCapture.ExceedsBudget | internal/platform/middleware/logger.go:309-315 | false exactly when the value can be encoded within the limit |
| Base64.EncodeInAlphabet | pkg/crypter/argon2_hasher.go:51-52 | encoded text has only letters of the alphabet and, when padded, the padding sign |
| Base64.NoSeparators | pkg/crypter/argon2_hasher.go:51-55 | neither a dollar sign nor a colon nor a line break can occur in it |
| Base64.Alphabet | pkg/crypter/argon2_hasher.go:51-52 | the 64 letters are those of RFC 4648, in its order |
| Base64.EncodeSpells | pkg/crypter/argon2_hasher.go:51-52 | each three bytes become four letters that make the same number to base 64, one or two left over two or three with zero low bits and padding, and nothing else |
| Base64.DecodesIff | pkg/crypter/argon2_hasher.go:95-103 | a text without line breaks decodes exactly when it is whole groups of letters, padded at the end or, without padding, not one letter too many |
| Base64.BreaksAreSkipped | pkg/crypter/argon2_hasher.go:95-103 | a line break anywhere in a text does not matter |
| Base64.RoundTrip | pkg/crypter/argon2_hasher.go:95-103 | decoding inverts encoding for every byte string, padded or not |
| PasswordHash.ScanPrinted | pkg/crypter/argon2_hasher.go:82-93 | a printed number followed by a non-digit scans back exactly when it fits the width |
| PasswordHash.SignedIsScanned | pkg/crypter/argon2_hasher.go:82-88 | the version is read with its sign, exactly when it fits the width, and what follows is left |
| PasswordHash.ScanPrintedParams | pkg/crypter/argon2_hasher.go:90-93 | the three cost parameters are read back from their segment |
| PasswordHash.SplitEncoded | pkg/crypter/argon2_hasher.go:54-80 | splitting a hash string finds its six segments |
| PasswordHash.ParamsText | pkg/crypter/argon2_hasher.go:54-55 | the parameters are printed as memory, iterations and parallelism, in this order, under their letters |
| PasswordHash.DocumentedParams | pkg/crypter/argon2_hasher.go:41 | the default parameters are printed as the documentation shows them |
| PasswordHash.DecodeIff | pkg/crypter/argon2_hasher.go:76-106 | exactly the texts of six segments with the algorithm, the version, three parameters and two unpadded encodings are taken |
| PasswordHash.DecodeEncoded | pkg/crypter/argon2_hasher.go:76-106 | decoding any hash string recovers parameters, salt and sum |
| PasswordHash.VerifyHashIff | pkg/crypter/argon2_hasher.go:59-67 | a hasher with any parameters accepts the hash of a password, and accepts another password if and only if it derives the same key |
| PasswordHash.VerifyIff | pkg/crypter/argon2_hasher.go:58-67 | whatever text is stored, a password is accepted if and only if the text is a hash string whose sum the password derives |
| PasswordHash.EncodedInjective | pkg/crypter/argon2_hasher.go:41-56 | equal hash strings have equal parameters, salts and sums |
| HybridCipher.XorTwice | pkg/crypter/ecc_crypter.go:51-54 | exclusive or with the same number twice is the identity |
| HybridCipher.XorBit | pkg/crypter/ecc_crypter.go:51-54 | each bit of the result is set exactly when one of the two numbers has it |
| HybridCipher.XorCyclicTwice | pkg/crypter/ecc_crypter.go:88-92 | so is masking a message of any length twice with the repeated key |
| HybridCipher.XorLoop | pkg/crypter/ecc_crypter.go:51-54 | the loop fills a fresh array with the masked message |
| HybridCipher.XorCyclicMasks | pkg/crypter/ecc_crypter.go:51-54 | every byte of a message is masked, bit by bit, with the byte of the key at its position modulo 32 |
| HybridCipher.WrapLayout | pkg/crypter/ecc_crypter.go:35-62 | a wrapped message is the ephemeral public key and the message masked with the digest of the secret, in base64 |
| HybridCipher.UnwrapIff | pkg/crypter/ecc_crypter.go:65-95 | exactly the texts that decode to at least a public key the private key agrees with are unwrapped, and what follows the key is unmasked |
| HybridCipher.EncryptLayout | pkg/crypter/hybrid_crypter.go:157-174 | an encrypted text is the wrapped AES key, a colon, and nonce and sealed text in base64 |
| HybridCipher.DecryptIff | pkg/crypter/hybrid_crypter.go:177-205 | any text decrypts exactly to what AES opens, nonce first, from the part after the first colon under the key unwrapped from the part before it; without a colon to nothing |
| HybridCipher.FrameRoundTrip | pkg/crypter/aes_crypter.go:21-60 | opening a nonce-prefixed frame gives the sealed text back |
| HybridCipher.WrapRoundTrip | pkg/crypter/ecc_crypter.go:35-95 | what is encrypted to a public key decrypts with its private key, for every message and ephemeral key |
| HybridCipher.HybridRoundTrip | pkg/crypter/hybrid_crypter.go:157-205 | Encrypt succeeds exactly with a valid AES key, and then Decrypt gives every plaintext back |
| Cron.NextKeepsAccount | pkg/cron/cron.go:109-155 | each step keeps: the scheduler holds exactly the jobs of mapped tasks, of removals in flight and of the addition in flight, without overlap |
| Cron.RunKeepsInv | pkg/cron/cron.go:109-218 | so does every interleaving, with distinct entries |
| Cron.BijectionAtRest | pkg/cron/cron.go:109-155 | with no call in flight names and scheduler entries correspond one to one |
| Cron.RemovedIsGone | pkg/cron/cron.go:141-155 | an entry that has left the scheduler never comes back |
| Cron.FinishUnschedules | pkg/cron/cron.go:141-155 | the second phase of a removal takes the job off the scheduler |
| Cron.StalePauseIsHarmless | pkg/cron/cron.go:158-177 | a job added later is paused only by a PauseTask that looked it up itself |
| Cron.PauseStops | pkg/cron/cron.go:158-177 | after a pause no trigger of the task reaches its body and after a resume each does; other tasks' triggers are as before |
| Cron.AddStarts | pkg/cron/cron.go:109-138 | from its addition on a trigger of a task reaches its body |
| Cron.TaskManager.AddTask | pkg/cron/cron.go:109-138 | succeeds exactly for a new name and a parsable expression, and gives it a fresh entry |
| Cron.TaskManager.RemoveTask | pkg/cron/cron.go:141-155 | both phases in a row; a missing name changes nothing |
| Cron.TaskManager.SetDisabled | pkg/cron/cron.go:158-177 | both phases of pause or resume in a row: exactly that job's flag is set or cleared; a missing name changes nothing |
| Cron.TaskManager.GetTaskStatus | pkg/cron/cron.go:180-189 | running exactly when the scheduler holds the task's job and a trigger of it now reaches the task's body; paused exactly when the job is scheduled and a trigger would not |
| Cron.TaskManager.LoadTasks | pkg/cron/cron.go:280-299 | tasks that were there stay; every other name ends with its first enabled, registered and parsable configuration, or absent |
| Cron.FirstForIff | pkg/cron/cron.go:280-299 | the configuration taken for a name is the first of its configurations that is enabled and parses, if the name has a handler, and otherwise none |
| Settings.CreateIsStored | internal/modules/systemsetting/service/system_setting_service.go:52-76 | a creation is taken exactly when no row has the key and the value suits its type; then exactly one row is added, field by field the request's |
| Settings.UpdateIsStored | internal/modules/systemsetting/service/system_setting_service.go:79-105 | an update is taken exactly when the row is there, no other row has a changed key and the value suits its type; then every field that the request fills is the request's and everything else is as it was |
| Settings.UpdateKeepsSound | internal/modules/systemsetting/service/system_setting_service.go:79-105 | an update keeps values valid for their types and keys unique, although empty fields are not written |
| Settings.CreateKeepsSound | internal/modules/systemsetting/service/system_setting_service.go:52-76 | so does a creation |
| Settings.RunKeepsSound | internal/modules/systemsetting/service/system_setting_service.go:52-130 | so does any run of calls with any database failures, without the database's own unique key |
| Settings.ResponseIsStoredIff | pkg/repository/repository.go:46-60 | the response of an update is what is stored if and only if each empty text field was empty before |
| Settings.CoreIsGoneIff | internal/modules/systemsetting/service/system_setting_service.go:79-130 | over any run with any failures a core setting is gone if and only if a successful update renamed it away from the core keys, none renamed it back, and then a delete of it reached the database |
| Settings.UpdateThenDeleteIff | internal/modules/systemsetting/service/system_setting_service.go:79-130 | an update and a delete together remove a core setting if and only if the update succeeds and names a key that is not core |
| Settings.Service.CreateSetting | internal/modules/systemsetting/service/system_setting_service.go:52-76 | duplicate key is reported before an invalid value; the table changes only on success |
| Settings.Service.UpdateSetting | internal/modules/systemsetting/service/system_setting_service.go:79-105 | errors in the code's order, the response shows the copied model, the table the merged row |
| Settings.Service.DeleteOne | internal/modules/systemsetting/service/system_setting_service.go:118-130 | missing and core settings are refused; a delete that fails in the database leaves the row |
| Settings.Service.DeleteBatch | internal/modules/systemsetting/service/system_setting_service.go:108-116 | exactly the non-core settings that some successful delete lists are gone; no error exactly when every delete succeeds, the ids are distinct and each names a non-core setting |

## Left out

- Redis lock: each command takes effect at most once between its call and its return, so retries of the client library, late duplicates and failover are not modelled; a panic inside fn ends a section without an unlock, like an unlock that never arrives.
- LockClient.Lock.Acquire: the timer and the context are a given list of rounds; when the list ends the call is still waiting.
- TokenBucket.Store.Script: the server's clock and the caller's clock are one, and `capacity / rate * 2` is computed without floating-point rounding; the HTTP outcome of a refused call and the per-IP limiter are not part of this model.
- PermissionTree.QueryResult: for a root on a cycle the query has no result (QueryTerminatesIff); MySQL's own recursion limit, which then turns it into an error, is not modelled.
- TornReads and SnapshotReads: a call that commits in several steps, like UpdateRole, counts as several calls; two roles with one id and links to roles that do not exist are excluded, which Roles.RunKeepsInv shows every run to keep.
- CacheCoherence: a handler's change of the tables is one step; a handler that commits several times before it invalidates is not modelled.
- CheckerCoherence.ExactCoherence: changes that no invalidation follows are covered by the staleness bound only: role changes through the user handler, batches that fail part-way, and a role update that fails in the read after its assignment has committed, on which the handler returns without invalidating.
- MemoryStore: the saturation of very long durations.
- Revocation: the Redis token store, and that a refresh token passes as an access token.
- Transactions.OutermostIsAtomic: a commit that returns an error is taken as rolled back; isolation between concurrent transactions is not modelled.
- QueryBuilder.CompiledMeaning: the meaning of one condition on a row is abstract, so how the SQL library writes an empty IN list is not part of this model; neither are limits, ordering and the reflection of buildFiltersFromModel.
- Identifiers: spaces outside ASCII other than U+0085 and U+00A0 are not trimmed.
- Assignment.LinkTable.Assign: reading the current rows and the transaction are one step, so two concurrent assignments are not modelled; a failed insert leaves the id counter where it was.
- Roles: the other columns of a role, which UpdateRole stores before the assignment and keeps when it fails. Batches are left to the single calls.
- Redaction and BodyCapture: a character is one byte, lower-casing, parsing and encoding are function parameters, and the iteration order of a map is fixed; form bodies and bodies of other types are not modelled.
- PasswordHash and HybridCipher: strength of the primitives, key files, and a public key that does not belong to the private key.
- HybridCipher.XorLoop: the rest of the ciphers is composed of function calls and is modelled on values.
- Cron: the scheduler's own clock and running jobs.
- Settings: GetValue and Set, which misread a missing key; column lengths; two calls at the same time.
- Repository reads (findOne, FindPage), cursors and list queries: they would only add easy members.
