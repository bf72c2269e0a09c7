# A verified model of PYBOSSA's task locks, filters, caches and task records

PYBOSSA hands out tasks to many users at once. A user who is given a task holds a lock on it, kept in
Redis; a task that wants n answers must not be given to more users than that, although the run counts the
scheduler reads may come from a lagging database replica. This project models that protocol and the code
around it, and proves what the repository relies on.

**Locks.** `LockTable` is one Redis hash of client -> expiration at one instant; `LockStore` is the set of
Redis keys of the scheduler (task -> users, user -> tasks, active users of a project, project of a task),
where each hash may carry the deadline at which Redis drops it; `LockSystem` is the protocol as a state
machine with a clock, submitted runs, and the steps request, direct request, submit, cancel, sweep and
tick, the last of which drops the hashes past their deadline. A lock has an expiration in two hashes, and
each of them has its own deadline, which every new entry sets anew and a release leaves alone. What the
repository relies on therefore holds under conditions, which are stated exactly: a task is never
over-assigned while submissions leave the grace entry its time, and otherwise can be (`Capacity`); the
listing of a project's locks is exact over a run exactly when its grants and releases are covered
(`Listing`); a user holds one task at a time while grants spare the user's other locks (`Holding`). With
one timeout for all projects and releases that are not late, all three conditions hold (`Records`,
`Attendance`); `LostLocks` holds runs in which they fail. The worker's list shows as available exactly
what can be locked, ties aside (`Availability`), the ranking is a stable sort and the first lockable task
is granted (`Ranking`). `HashTtl` treats one hash with one duration, `Interleaving` one `acquire_lock` as
separate Redis commands of any number of clients. `RedisLock`, `Sched` and `TaskRunApi` are the code in its
own imperative form, command by command and loop by loop, each method proved equal to the operation of the
state machine.

**Filters.** `LikePattern` proves the escaping for `LIKE` against a matcher that follows the like
predicate of ISO/IEC 9075-2, section 8.5; `TaskInfoFilter` the compiled filter on task fields;
`ReserveKey` the round trip of reservation keys through the regular expression that reads them;
`ReserveFilter` the SQL text built from them (read back by a parser) and its meaning in three-valued
logic.

**Caches, pages, records.** `TwoLevelCache` is the two-level cache as a state machine of interleaved
callers; `CacheGroups` the memoized functions with their invalidation groups; `Paging` the page merged
from two queries; `TaskState` the states ongoing and completed; `BulkDelete` the batched deletion.

Conventions. A request carries its own positive timeout, as the query reads it from the project; the form
that sets it allows no less than 30 seconds (pybossa/forms/forms.py:276-290). Times are real numbers
and ids are integers. A step of `LockSystem` reads the clock once. A run count read from a replica
is any number not below the runs older than the grace period (`EXPIRE_LOCK_DELAY`, 5 seconds). Whether the
update mutex was obtained, what the wrapped function of a cache returns and which rows a query yields are
parameters. A hash that does not exist reads as empty. Where an operation is a method, the function it is
proved equal to carries the name of the operation, and the theorems are about that function. What the
operation itself answers and leaves is said once more on the fields and the inputs, in the method's own contract
or in a lemma (`AcquireMeans`, `GrantMeans` and the like), without that function.

Results that differ from what one would expect of the code:

- A new lock of a user sets the time to live of the user's whole hash to its own (pybossa/redis_lock.py:186-205),
  and timeouts are set per project. A user who holds a task for an hour and then takes one of another
  project for a minute has, after that minute, no hash left: the listing misses the first lock
  (`LostLocks.ShorterTimeoutLosesListing`), and the user who asks again is granted a second task of the
  first project (`Holding.TwoTasksAtOnce`). `Listing.AlwaysExactIff` and `Holding.GrantKeepsRecordedIff`
  say exactly which grants do this.
- A release never touches the active users of the project. The project id it unregisters comes from `mget`
  undecoded (pybossa/sched.py:663-667; the clients of pybossa/sentinel/__init__.py do not decode), so the
  key written reads `b'1'` where the others read `1`. The model follows the code as written: `ProjectName`
  keeps the three ways of formatting that key apart.
- A release does not touch the time to live of its hashes either. A lock released in the last five seconds
  of the user's hash outlives it and is missing from the listing, where another user's lock keeps the
  task's hash (`LostLocks.LateCancelLosesListing`); `Listing.ReleaseKeepsIndexIff` gives the exact condition.
  A submission in the last five seconds of the task's hash loses its grace entry, and enough users who ask
  five seconds later are given the task to exceed its answers (`Capacity.SubmissionIsSafeIff`).
- An entry that expires at this very instant still counts in `hlen` but is not listed, so a task can be
  shown as available and not be lockable, or the reverse; `Availability.AgreesIff` says exactly when.
- When the update mutex runs out inside the guarded section the limit of a hash can be exceeded, by one
  per expiry (`Interleaving.ExpiredMutexExceedsLimit`). A call that returned True can lose its entry to
  the stale delete list of another call (`Interleaving.StaleDeleteLosesGrant`).
- A reservation key whose value starts with "user" does not read back
  (`ReserveKey.UserValueDoesNotReadBack`); field names are not quoted in the SQL text
  (`ReserveFilter.FieldReadsBackIff`).
- A page sorted by lock status is right on every offset exactly when the task count of an earlier query
  agrees with the two queries (`Paging.AscendingIsWindowIff`).
- A task created with no answers to collect starts out ongoing (`TaskState.AlwaysConsistentIff`).
- Without force_reset the batched deletion removes runs and results all the same, because the foreign keys
  cascade (`BulkDelete.ForceResetMakesNoDifference`); the mail it sends says that only tasks without
  results are deleted (pybossa/jobs.py:826-829).
- More than 100 x 1000 tasks are not deleted by one job (`BulkDelete.BatchesCoverIff`).

## Model

| member | source | states |
|---|---|---|
| `Capacity.NeverOverAssigned` | pybossa/redis_lock.py:172-238 | Over every run in which each submission comes at least five seconds before its task's hash is dropped and locks are taken for at least five seconds, the users who submitted a non-gold task and the users with an entry in its lock hash are together at most n_answers, even though the run count at each acquire may miss every run of the last five seconds |
| `Capacity.HolderIsNeverRefused` | pybossa/api/task_run.py:142-161 | In every state reached by such a run a user who holds a lock and has not answered passes the over-answered check on the master database |
| `Capacity.StepKeepsInvariant` | pybossa/sched.py:503-510 | Every such step (request, direct request, submit, cancel, sweep, and the passing of time, which drops hashes) keeps the capacity of every task and the grace entry, and its hash, that cover each recent submission |
| `Capacity.SubmissionIsSafeIff` | pybossa/redis_lock.py:226-238 | After a submission no continuation over-assigns the task, submissions being in time from then on, exactly when the task's hash has five seconds left |
| `Capacity.LateSubmissionOverAssigns` | pybossa/redis_lock.py:186-206 | From any other submission there is a continuation, of waiting five seconds and then requests, that gives the task to more users than answers are wanted |
| `LockTable.AcquireKeepsCapacity` | pybossa/redis_lock.py:180-209 | Granting against a stale run count keeps the claimants of a task within its answers |
| `LockTable.AddOverAssignsIff` | pybossa/redis_lock.py:180-209 | One acquire over-assigns exactly when the client is new, every answer is claimed, and the entries leave room beside the counted runs |
| `LockTable.MissedSubmissionOverAssigns` | pybossa/redis_lock.py:226-238 | For any task whose answers are all given: once no entry is left, a run count that misses even one submission lets one user too many acquire the lock |
| `LockTable.GraceEndsWithTheLag` | pybossa/redis_lock.py:226-238 | A grace entry is there exactly as long as its submission may be missed by a replica |
| `LockTable.SubmitKeepsCapacity` | pybossa/sched.py:125-133 | A submission by a holder claims nothing new, and leaves a grace entry that covers it |
| `LockTable.AcquireMeans` | pybossa/redis_lock.py:180-209 | Who is granted: a client with an entry that has not expired, anyone where there is no limit, else a client that got the update mutex while fewer entries than the limit have not expired. Afterwards the hash holds the entries that had not expired, as they were, and for a client granted without one a new entry for the duration |
| `LockStore.ReleaseLockMeans` | pybossa/sched.py:654-670 | After a release both entries expire five seconds from now; the key formatted from the undecoded project gets five seconds of activity unless another task of the user's hash is known to be in the same project; no other entry, deadline or project key changes |
| `LockSystem.GrantMeans` | pybossa/sched.py:628-636 | A granted task has the user in its hash and the user has it in his, each with the entry that is there or a new one, the project is recorded for twice the timeout, and the user is active in it for the timeout; a refusal only sweeps the task's hash |
| `LockSystem.DirectGrantMeans` | pybossa/sched.py:583-636 | A task that is not gold and has its answers on the master database is refused and nothing changes; any other direct request is granted exactly when the user has an entry, or the entries leave room beside those answers |
| `LockSystem.RememberMeans` | pybossa/sched.py:697-723 | Looking up a user's locks records the project of each known task of the user's hash whose key is gone, for twice the default timeout, and changes no other key and no lock |
| `LockSystem.TickMeans` | pybossa/redis_lock.py:186-206 | As time passes exactly the hashes past their deadline are gone, with all their entries |
| `Listing.ListingIsExactOverRuns` | pybossa/redis_lock.py:76-129 | After every run whose grants and releases are covered, walking active users, their tasks and the tasks' projects yields exactly the unexpired entries of the task hashes of that project, with their expirations |
| `Listing.StaysExactIff` | pybossa/redis_lock.py:53-129 | As time passes and hashes are dropped, the listing of every project stays exact, with its active users swept or not, exactly when the two records of each lock are the same and the user's hash, the hash of active users and the user's activity last as long as the lock and the task's hash |
| `Listing.AlwaysExactIff` | pybossa/redis_lock.py:76-129 | Over a whole run from the empty state, with any timeouts, the listing is exact throughout exactly when every grant and every release of the run is covered |
| `Listing.GrantKeepsIndexIff` | pybossa/sched.py:628-636 | Granting a task keeps the index exactly when both hashes take the lock up together, the activity it sets shows no lock that does not hold, and every lock that holds, of any user and project, ends with its records under the deadlines it sets |
| `Attendance.RegularRunsAreExact` | pybossa/redis_lock.py:76-129 | If all locks are taken for one timeout of at least five seconds, and every release comes at least five seconds before the two hashes of the lock, the hash of active users and the user's activity end, the listing is exact throughout |
| `Listing.ReleaseKeepsIndexIff` | pybossa/sched.py:654-670 | A release keeps the listing's index exactly when the user's hash, the hash of active users and the user's activity last as long as the task's hash keeps the grace entry: it writes no deadline, and its activity goes to a key that nothing reads |
| `Listing.EarlyReleaseIsCovered` | pybossa/sched.py:654-670 | A release with at least five seconds left on the lock and on the task's hash is always covered |
| `Listing.UncoveredReleaseIsLost` | pybossa/sched.py:654-670 | After any uncovered release there is an instant of the grace period at which the listing of the project, swept or not, is not exact |
| `LostLocks.LateCancelLosesListing` | pybossa/sched.py:654-670 | A run with one timeout of 60: two users take a task at 0 and 30 and the first cancels at 57; at 61 the cancelled lock holds until 62, but its user's hash is gone and the listing misses it |
| `LostLocks.ShorterTimeoutLosesListing` | pybossa/redis_lock.py:186-189 | A run without any release: a user takes a task for 3600 at 0 and one of another project for 60 at 10; at 80 the first lock holds and the listing misses it |
| `Listing.RunKeepsConsistent` | pybossa/sched.py:503-510 | Over every run, covered or not, users' hashes hold known tasks only, a task -> project key names the right project, and no hash is past its deadline |
| `Records.ReleaseKeepsWholeIff` | pybossa/redis_lock.py:226-238 | With one timeout, a release keeps the two records of every lock together exactly when both its hashes have five seconds left |
| `Records.RecordsMatch` | pybossa/sched.py:503-510 | Over every run with one timeout whose releases are in time, a lock that has not expired is in both hashes with the same expiration, and neither hash is dropped before it |
| `Holding.GrantKeepsRecordedIff` | pybossa/redis_lock.py:186-189 | Granting a task to a user without a long lock in the project keeps each long lock in its user's hash, for as long as it is long, exactly when it spares them: the deadline that a new entry gives the user's hash comes no earlier than ten seconds before the end of any other long lock of the user, in any project, and a task still in the user's hash is not taken up for longer than that by the task's hash alone |
| `Holding.UnsparedIsForgotten` | pybossa/redis_lock.py:186-189 | After any grant with an earlier deadline there is an instant at which a lock has more than ten seconds left and its user's hash is gone |
| `Holding.OneTaskAtATime` | pybossa/sched.py:169-175 | Over every run of ordinary requests whose grants spare the user's other locks, a user never holds two tasks of one project with more than ten seconds left on both |
| `Holding.RepeatRequestReturnsHeldTask` | pybossa/sched.py:697-723 | After such a run, a repeat request while such a lock is held returns the same task and changes no lock and no deadline |
| `Holding.RegularRunsSpare` | pybossa/sched.py:503-510 | With one timeout and releases in time, every grant spares the user's other locks |
| `Holding.TwoTasksAtOnce` | pybossa/sched.py:697-723 | The run of two projects with different timeouts: the user is granted a second task of the first project at 80, with 3520 seconds left on the first |
| `Availability.AvailableIffLockable` | pybossa/cache/projects.py:324-335 | Where the listing is exact and no entry expires exactly now, a task is shown as available exactly when it is eligible and acquiring its lock with the same remaining count would succeed for that user at that instant |
| `Availability.AgreesIff` | pybossa/cache/projects.py:324-335 | Where the listing is exact, the two agree exactly when entries that expire at this instant do not decide: a condition on the hash, the user and the remaining count |
| `Availability.AgreesIffOverRuns` | pybossa/cache/projects.py:324-335 | The same exact condition in every state reached by a run with covered grants and releases |
| `Availability.TieMatters` | pybossa/redis_lock.py:261-269 | An input that fails the condition: one answer wanted and one entry, which expires now |
| `Availability.SelectAvailableTasks` | pybossa/cache/projects.py:324-341 | The rows of the result are, in order, the rows whose remaining count is not zero; each differs from its input row in the mark only, and is marked exactly when the input row was, or the task is eligible and the user holds it or fewer users hold it than runs are missing |
| `Availability.MarkedIffObtainable` | pybossa/cache/projects.py:324-335 | In the result of the loop: where the listing is exact, its users are those handed to the loop and no entry of the task expires exactly now, a row that came in unmarked is marked exactly when the user is eligible and asking for the task now gets its lock |
| `Ranking.SortIsStable` | pybossa/sched.py:269-281 | The ranking is a descending permutation that keeps query order among equal scores |
| `Ranking.SortIsUnique` | pybossa/sched.py:269-281 | Only one arrangement is descending and keeps query order among equal scores |
| `Ranking.SavedTasksOrder` | pybossa/sched.py:239-270 | Saved tasks come first, or last, with the shortest time to live leading |
| `Ranking.ScoreRows` | pybossa/sched.py:239-268 | The ranked rows are those of the query in its order: all of them, or those whose requirements the user meets when preferences decide; each is scored by its time to live among saved tasks, by the preference, or by zero |
| `Ranking.PreferredFirst` | pybossa/sched.py:256-269 | Without saved tasks the candidates are tried by preference, the highest first, and the user meets the requirements of each |
| `Ranking.FirstLockableIsGranted` | pybossa/sched.py:272-281 | The task returned is the first in ranking order whose lock can be acquired, none is returned only if none can, and no other task's hash gains an entry |
| `Ranking.RequestAnswers` | pybossa/sched.py:169-281 | The answer of a request: the longest lock the user holds in the project, if it has more than ten seconds left and the request is not for saved tasks, with no lock changed; else the first candidate whose lock can be acquired, and none exactly when there is none |
| `HashTtl.DropsNoUnreleasedLock` | pybossa/redis_lock.py:180-206 | With one duration, when the time to live of a hash runs out, every entry in it that was not released has expired |
| `HashTtl.DroppingIsSweeping` | pybossa/redis_lock.py:261-269 | If every release left its grace entry time to expire, dropping the hash removes only what a sweep would |
| `HashTtl.ReleaseIsDatedIff` | pybossa/redis_lock.py:226-238 | A release keeps all entries within the time to live exactly when five seconds of it remain |
| `HashTtl.LateReleaseIsCutShort` | pybossa/redis_lock.py:238 | A later release is dropped before its grace period is over |
| `Interleaving.LimitHolds` | pybossa/redis_lock.py:180-209 | With any number of calls interleaved command by command, stale delete lists, releases of held locks and ticks, a hash never holds more than limit entries plus one per expired mutex |
| `Interleaving.LimitHoldsWithLiveMutex` | pybossa/redis_lock.py:180-209 | If the mutex never runs out inside the section, a hash never holds more than limit entries |
| `Interleaving.ExpiredMutexExceedsLimit` | pybossa/redis_lock.py:190-207 | The bound is reached: one expired mutex and two entries where one is allowed |
| `Interleaving.EntryIsLostIff` | pybossa/redis_lock.py:261-269 | A step removes an entry exactly when it is the delete of a call whose list names the client, or drops the whole hash at its deadline |
| `Interleaving.EntrySurvives` | pybossa/redis_lock.py:180-209 | From any reachable state, an entry that no call is about to delete is there until its time or that of the hash, whatever the others do, unless its client releases it |
| `Interleaving.WrittenEntryLasts` | pybossa/redis_lock.py:204-206 | The deadline that a call gives the hash with its entry is late enough for the entry |
| `Interleaving.StaleDeleteLosesGrant` | pybossa/redis_lock.py:180-209 | A run in which a stale delete list, read while an expired grace entry is still in the hash, removes a new entry: the call returned True and its client holds nothing |
| `Interleaving.AloneIsAcquire` | pybossa/redis_lock.py:180-209 | A call without interference has exactly the effect, on the entries and the deadline of the hash, and the result of the coarse acquire |
| `Interleaving.GrantedHadEntry` | pybossa/redis_lock.py:180-209 | However the calls interleave, a call that returns True had an entry of its client in the hash at some instant since it began |
| `Interleaving.RefusedWroteNothing` | pybossa/redis_lock.py:190-209 | A call that returns False has added and changed no entry, at none of its commands |
| `Interleaving.RefusedHadReason` | pybossa/redis_lock.py:195-209 | A call that returns False waited too long for the mutex, or found the mutex gone inside the section, or found at least limit entries |
| `Interleaving.CountsUnderMutex` | pybossa/redis_lock.py:196-200 | No call counts the entries or writes one without having found a mutex inside the section |
| `Interleaving.EntryIsDatedFromStart` | pybossa/redis_lock.py:180-205 | What a command of a call adds to the hash is the entry of its own client, which expires one duration after the call began, however long it waited |
| `RedisLock.LockManager.AcquireLock` | pybossa/redis_lock.py:172-209 | Command by command: the hash becomes that of `LockTable.Acquire`, the result says whether it was granted, and the time to live is renewed only by a new entry and goes with the last one |
| `RedisLock.LockManager.ReleaseExpiredLocks` | pybossa/redis_lock.py:261-269 | Reading the hash and deleting the entries past their expiration is the sweep |
| `RedisLock.LockManager.HasLock` | pybossa/redis_lock.py:211-224 | True exactly when the client's entry expires after now |
| `RedisLock.LockManager.ReleaseLock` | pybossa/redis_lock.py:226-238 | The client's entry gets the grace expiration, whether or not it was there |
| `Sched.Scheduler.AcquireLocks` | pybossa/sched.py:503-510 | The user's hash is written only if the task's hash admitted the user |
| `Sched.Scheduler.RegisterActiveUser` | pybossa/redis_lock.py:63-67 | The user becomes active in the project for the timeout, and so does the hash |
| `Sched.Scheduler.UnregisterActiveUser` | pybossa/redis_lock.py:70-73 | Writes five seconds of activity to the key formatted from the project as given |
| `Sched.Scheduler.GetActiveUserCount` | pybossa/redis_lock.py:53-60 | Sweeps the project's active users and returns how many had not expired |
| `Sched.Scheduler.ReleaseLock` | pybossa/sched.py:654-670 | Both entries get the grace expiration; unless another of the user's tasks is known to be in the project, five seconds of activity are written to the key formatted from the undecoded project id, and the project's own hash is left alone |
| `Sched.Scheduler.GetTaskIdAndDuration` | pybossa/sched.py:697-723 | The loop returns a task of the project whose lock has the most time left, with that time, and records the missing project keys it looked up |
| `Sched.Scheduler.GetLockedTask` | pybossa/sched.py:169-281 | One call of the scheduler is one request of the protocol: reuse of a lock with more than ten seconds left, else the first candidate whose lock can be acquired |
| `Sched.Scheduler.LockTaskForUser` | pybossa/sched.py:583-636 | A direct request is refused when the master database shows enough runs, else it is one grant |
| `Sched.Scheduler.GetLockedTasksProject` | pybossa/redis_lock.py:76-129 | The nested loops list exactly the unexpired locks of active users on tasks of the project, each once; both entries of every deleted task without a project key, of every active user, are left with five seconds, and no other entry changes |
| `Sched.MethodListsListed` | pybossa/redis_lock.py:76-129 | What the loops list is the set that the listing theorems speak of |
| `TaskRunApi.TaskRunAPI.Post` | pybossa/api/task_run.py:98-161 | A submission is accepted exactly when it is stamped, the task is known and of the project, the user's entry in the task's hash expires after now, the user has not answered, and the task is gold or has fewer answers than wanted. It then records the answer now and leaves five seconds on both entries: the protocol's submit step. A refusal changes nothing and gives the first reason that applies, in the order of the checks |
| `TaskRunApi.TaskRunAPI.CheckTaskNotOverAnswered` | pybossa/api/task_run.py:142-161 | Refuses a task that is not gold when the runs on the master database reach n_answers |
| `TaskRunApi.TaskRunAPI.CancelTask` | pybossa/api/__init__.py:652-655 | Cancelling releases a lock that is held, of any task, and otherwise changes nothing; for a known task it is the protocol's cancel step |
| `LikePattern.EscapeIsCharacterwise` | pybossa/cache/task_browse_helpers.py:134-138 | The three replacements in this order escape each special character once |
| `LikePattern.PatternMeans` | pybossa/cache/task_browse_helpers.py:141-154 | What the matcher takes each part of a pattern to match: % any text, _ one character, an escaped character itself |
| `LikePattern.StartsWithPattern` | pybossa/cache/task_browse_helpers.py:141-145 | A string matches the escaped value followed by % exactly when the value is a prefix of it, for every value |
| `LikePattern.ContainsPattern` | pybossa/cache/task_browse_helpers.py:146-149 | A string matches the escaped value between two % exactly when the value occurs in it |
| `LikePattern.IStartsWith` | pybossa/cache/task_browse_helpers.py:141-145 | The same up to case for ILIKE, prefix |
| `LikePattern.IContains` | pybossa/cache/task_browse_helpers.py:146-149 | The same up to case for ILIKE, substring |
| `TaskInfoFilter.ReduceFilters` | pybossa/cache/task_browse_helpers.py:185-190 | Groups the conditions by field: the groups in the order in which their fields first arrive, each with its conditions in order of arrival |
| `TaskInfoFilter.GetOrPiece` | pybossa/cache/task_browse_helpers.py:175-182 | A known operator yields a piece with its own parameter and value; an unknown one is a bad request |
| `TaskInfoFilter.GetTaskInfoFilters` | pybossa/cache/task_browse_helpers.py:157-172 | Compiles every condition into its field's disjunction with a parameter bound to its own value, or rejects the request if an operator is unknown |
| `TaskInfoFilter.FilterMeansConditions` | pybossa/cache/task_browse_helpers.py:157-190 | The compiled filter accepts a row exactly when, for every field mentioned, at least one of that field's conditions holds |
| `TaskInfoFilter.OneConditionAccepts` | pybossa/cache/task_browse_helpers.py:141-154 | For one condition, spelled out: up to case, the text of the field starts with the value, has it somewhere, or equals it; a missing field counts as the empty text |
| `TaskInfoFilter.OrderDoesNotMatter` | pybossa/cache/task_browse_helpers.py:185-190 | Requests with the same conditions in any order accept the same rows |
| `TaskInfoFilter.PlaceholdersAreDistinct` | pybossa/cache/task_browse_helpers.py:157-182 | No two placeholders share a parameter name |
| `TaskInfoFilter.BindingsAreCounted` | pybossa/cache/task_browse_helpers.py:157-172 | There are as many bound parameters as conditions |
| `ReserveKey.KeyReadsBackIff` | pybossa/sched.py:298-319 | A key written for a list of pairs is read back by the regular expression and the split to the same pairs exactly when no field or value has a colon or a newline and none but the first field starts with "user" (or follows an empty first field) |
| `ReserveKey.UserValueDoesNotReadBack` | pybossa/sched.py:298-306 | A value that starts with "user" is cut off |
| `ReserveKey.KeyIs` | pybossa/redis_lock.py:323-332 | The text of the key for two pairs, and of the exclude-user test |
| `ReserveKey.MarkIsTheUsersIff` | pybossa/redis_lock.py:321-324 | The exclude-user test hits a key exactly when the key is that user's or its pairs spell the test's text themselves |
| `ReserveKey.DropsExactlyTheUser` | pybossa/redis_lock.py:321-324 | Of keys with plain pairs, exactly those of the excluded user are dropped |
| `ReserveKey.DropUser` | pybossa/redis_lock.py:321-325 | The loop keeps, in order, the keys that do not contain the text |
| `ReserveFilter.ReserveTaskSqlFilters` | pybossa/sched.py:286-332 | Builds the text for the distinct categories of the matching keys, in order, and lists those keys; a category with an odd number of segments is an index error; no project or no keys give no filter |
| `ReserveFilter.BuildsIff` | pybossa/sched.py:286-332 | Building fails exactly when there is a project and some key that matches splits into an odd number of segments; otherwise the keys returned are those that match, and there is a filter exactly when there are any |
| `ReserveFilter.FilterTextIs` | pybossa/sched.py:319-326 | The text for two categories, with and without exclusion |
| `ReserveFilter.FilterList` | pybossa/sched.py:314-320 | One condition for each pair of segments, or an index error |
| `ReserveFilter.LiteralReadsBack` | pybossa/sched.py:318-319 | A quoted value reads back as the value, whatever it holds |
| `ReserveFilter.FieldReadsBackIff` | pybossa/sched.py:319 | A field name, which is not quoted, reads back exactly when it has no quote in it |
| `ReserveFilter.FilterReadsBack` | pybossa/sched.py:319-326 | The whole text parses back to the categories and the exclusion it was built from |
| `ReserveFilter.AnyOfIsTrueIff` | pybossa/sched.py:319-324 | In three-valued logic the condition is true exactly when some category agrees on every field |
| `ReserveFilter.AnyOfIsFalseIff` | pybossa/sched.py:319-324 | It is false exactly when every category differs in some field that the row has; otherwise, where none agrees, it is unknown |
| `ReserveFilter.NotKeepsFewer` | pybossa/sched.py:322-325 | Negating with NOT would also lose the rows on which the condition is unknown; IS NOT TRUE keeps them |
| `ReserveFilter.MissingFieldIsKept` | pybossa/sched.py:322-325 | Such a row: one without the field |
| `ReserveFilter.FilterMeansReserved` | pybossa/sched.py:286-332 | From the keys of readable reservations: the filter keeps a row exactly when its info agrees with some reserved category on every field, and with exclusion exactly the other rows; duplicates do not matter |
| `TwoLevelCache.ReturnedValueIsFresh` | pybossa/cache/__init__.py:263-337 | For every interleaving of callers, expiry, mutex timeout and invalidation, a returned value was computed during the call, which stored it at both levels, or it was stored at one level less than that level's timeout before the call began, so never earlier than max(timeout, timeout_l2) before |
| `TwoLevelCache.DeletedIsNotReturned` | pybossa/cache/__init__.py:393-408 | For every interleaving before, between and after the two deletes of delete_memoize_with_l2_cache: a call that begins when both are done returns a value that was stored since the first |
| `TwoLevelCache.FirstLevelAnswers` | pybossa/cache/__init__.py:302-305 | A live value of the first level is returned after one read; nothing is computed, stored or locked |
| `TwoLevelCache.SecondLevelAnswers` | pybossa/cache/__init__.py:307-319 | A live value of the second level is returned where the first has run out and another caller has the mutex; nothing is computed, stored or locked |
| `TwoLevelCache.RefusedFallsBack` | pybossa/cache/__init__.py:310-324 | A call that does not get the mutex returns the value of the second level that it saw, or starts to wait |
| `TwoLevelCache.WaitingAnswers` | pybossa/cache/__init__.py:326-335 | A waiting call returns a live value of the second level at its next look, computes once it has waited for the timeout of the mutex, and otherwise waits another tenth of a second |
| `TwoLevelCache.MissComputes` | pybossa/cache/__init__.py:266-324 | With the first level run out and the mutex free a call computes, even where the second level would do, stores the value at both levels for their timeouts and gives the mutex back; a true value is returned, for any other the call falls back on what the second level held, or waits |
| `TwoLevelCache.DisabledComputes` | pybossa/cache/__init__.py:336-337 | With caching disabled a call computes, stores at both levels and returns its own value, whatever is cached |
| `TwoLevelCache.OneComputesUnderTheMutex` | pybossa/cache/__init__.py:273-290 | At most one caller is in the guarded section with a mutex that has not run out |
| `TwoLevelCache.CallEnds` | pybossa/cache/__init__.py:293-337 | A call ends after a bounded number of its own steps, polls included, whatever the others do |
| `CacheGroups.Cache.AddKeyToCacheGroups` | pybossa/cache/__init__.py:99-113 | A key is in a group afterwards exactly when it was before, or it is the key added and the group is named before the first missing or invalid one; raises exactly for an invalid one |
| `CacheGroups.Cache.Memoize` | pybossa/cache/__init__.py:178-197 | Recomputes exactly when the cache is disabled or no live entry exists, and then stores the result for the timeout and joins its groups; else the entry answers and nothing changes |
| `CacheGroups.Cache.DeleteCacheGroup` | pybossa/cache/__init__.py:116-119 | Deletes the members of the group and the group |
| `CacheGroups.RunKeepsCovered` | pybossa/cache/__init__.py:99-119 | Over every run each cached result is a member of each of its groups |
| `CacheGroups.DeletedGroupIsRecomputed` | pybossa/cache/__init__.py:116-119 | After any run, once a group is deleted no result of it is cached until its function is called again, so that call recomputes |
| `CacheGroups.DeletedResultIsRecomputed` | pybossa/cache/__init__.py:342-372 | A result deleted by name stays away until its function is called again with these arguments |
| `CacheGroups.ResultLasts` | pybossa/cache/__init__.py:178-197 | A computed result answers later calls exactly until its timeout, unless it or one of its own groups is deleted; deleting other groups or results does not touch it |
| `CacheGroups.ReachedIff` | pybossa/cache/__init__.py:99-113 | A result joins a named group exactly when no earlier group argument is missing or invalid |
| `CacheGroups.RaisesIff` | pybossa/cache/__init__.py:99-113 | Adding raises exactly when some group argument is invalid and every earlier one names a group |
| `CacheGroups.NameOfMeans` | pybossa/cache/__init__.py:102-111 | How a group argument names a group: by itself, by a function of the arguments, or by some of them joined with underscores; an index out of range is an error |
| `Paging.SearchLockStatus` | pybossa/cache/projects.py:108-154 | The page is the window [offset, offset + limit) of unlocked + locked tasks (ascending, with a consistent count) or locked + unlocked tasks (descending); with any other count the ascending page moves on to the locked tasks where the count, and not the query, says that the unlocked ones end |
| `Paging.WindowMeans` | pybossa/cache/projects.py:108-154 | Row k of a window is row offset + k, up to the limit and the last row |
| `Paging.AscendingIsWindowIff` | pybossa/cache/projects.py:121-137 | The ascending page is right for every limit and offset exactly when the count agrees with the queries |
| `Paging.PagesListEachOnce` | pybossa/cache/projects.py:108-154 | Consecutive pages over a fixed snapshot list each task exactly once |
| `TaskState.Task.UpdateAttribute` | pybossa/api/task.py:67-80 | Calibration follows gold; a gold task ends ongoing; another one ends completed exactly when its runs reach its answers, or it was completed and the answers were not raised |
| `TaskState.Task.Put` | pybossa/api/task.py:67-80 | The answers and the gold answers become the payload's, the runs stay, and state and calibration follow as in an update: one update step |
| `TaskState.Task.SetGoldAnswers` | pybossa/task_creator_helper.py:75-89 | With gold answers the task ends gold, with calibration 1 and not completed, its answers and runs as before; without them no field changes |
| `TaskState.Task.MarkIfComplete` | pybossa/model/completion_event.py:3-13 | Completes a task that is not gold when its runs reach n_answers |
| `TaskState.Task.Submit` | pybossa/api/task_run.py:142-189 | A submission is rejected when a task that is not gold has enough runs; the one that reaches n_answers completes it |
| `TaskState.UpdateIsConsistentIff` | pybossa/api/task.py:67-80 | An update leaves gold, calibration and state consistent, except for a task completed short of answers that were not raised |
| `TaskState.AlwaysConsistentIff` | pybossa/api/task.py:67-80 | Over every sequence of updates, gold markings and submissions: gold exactly when calibration is 1, a gold task is not completed, another one is completed exactly when its runs reach n_answers |
| `TaskState.SubmissionsStop` | pybossa/api/task_run.py:142-189 | After the last update, submissions are accepted until n_answers is reached, that one completes the task, and the rest change nothing |
| `BulkDelete.Store.CleanupTaskRecords` | pybossa/jobs.py:665-680 | Commits one delete per table, in the order result, task_run, task; the delete of a task takes its runs and results along (pybossa/model/task_run.py:40, pybossa/model/result.py:41) |
| `BulkDelete.CommitsInOrder` | pybossa/jobs.py:665-680 | With force_reset the three states committed have lost the results, then the runs too, then the tasks too, of exactly the tasks listed; without it the one state has lost all of them |
| `BulkDelete.Store.DeleteBulkTasksInBatches` | pybossa/jobs.py:704-730 | Commits the deletes of each batch in turn, for as many batches as the fullest table needs, at most 1000 |
| `BulkDelete.IterationsAreFewest` | pybossa/jobs.py:704-724 | The number of batches is the fewest batches of 100 that hold the rows of the fullest table, or 1000 |
| `BulkDelete.EveryCommitIsSafe` | pybossa/jobs.py:665-680 | At every committed state, with or without force_reset, no result or run refers to a deleted task, and rows of other tasks are untouched |
| `BulkDelete.ForceResetMakesNoDifference` | pybossa/jobs.py:671-678 | The job leaves the same database without force_reset as with it |
| `BulkDelete.BatchesCoverIff` | pybossa/jobs.py:714-728 | The batches list every id once and in order exactly when there are at most 100 x 1000 |
| `BulkDelete.FirstTasksAreDeleted` | pybossa/jobs.py:704-730 | When the job ends, exactly the first 100 x 1000 listed tasks are gone, with all their runs and results, whatever force_reset says |

## Left out

- Redis, PostgreSQL, the web framework, S3, mail and logging: Redis is maps with expirations, SQL is predicates on rows.
- LockSystem: timeouts are positive; zero stands for the default (pybossa/sched.py:274).
- Capacity.NeverOverAssigned: n_answers is fixed and gold tasks are not bounded, because their lock limit is infinite (pybossa/sched.py:275) and lowering n_answers while locks are out breaks any bound.
- LockSystem has no step for bulk release (pybossa/sched.py:639-651, 726-731), which can write entries for locks that have expired.
- Listing.ListingIsExactOverRuns: no deleted tasks.
- Sched.Scheduler.LockTaskForUser: the query that excludes answered, completed and expired tasks (pybossa/sched.py:584-606) is not modelled; the method is one row of it.
- A second submission by the same user is excluded by the authorization rule of pybossa/auth/taskrun.py:46-62, which `TaskRunApi` includes as a check; the rest of the authorization code is not modelled.
- TaskRunApi.TaskRunAPI.Post: the timestamps, the uploads and the user information of a run are not modelled.
- The candidate query of the scheduler (pybossa/sched.py:138-238), its reservations and preference scores: candidates arrive as rows with their scores.
- Ranking.SavedTasksOrder: assumes times to live below sys.maxsize, against which the source computes the score.
- Availability.SelectAvailableTasks: `heapq.nlargest` before the loop and the sort on in_progress after it are not modelled.
- LikePattern.IStartsWith, LikePattern.IContains: case folding is a function of single characters that leaves backslash, % and _ alone.
- TaskInfoFilter.GetTaskInfoFilters: pieces are structured values and not SQL text; field names are inserted into the text unescaped.
- ReserveKey: the glob lookup of keys (pybossa/redis_lock.py:309-319) and the expiry of reservations are not modelled; it finds nothing when the configured fields are not sorted, because keys are written in configuration order.
- ReserveFilter.FilterMeansReserved: field names come from the project configuration and are assumed free of quotes.
- TwoLevelCache: master and replica are in step; keys of distinct calls are distinct; joining the cache groups is the subject of `CacheGroups`; the accumulated polling time is exact.
- CacheGroups: master and replica are in step and calls come one at a time; distinct calls have distinct keys.
- Paging.PagesListEachOnce: assumes that repeated queries return their rows in the same order; the query of locked tasks has no ORDER BY, and the other orders by a ratio with ties (pybossa/cache/projects.py:72-73, 114-117).
- Paging.SearchLockStatus: the lock listing is read once; the source reads it twice.
- TaskState: task expiration and the uploading of encrypted gold answers; states other than ongoing and completed.
- BulkDelete.EveryCommitIsSafe: no rows are added while the job runs, and an empty batch deletes nothing.
- Deletion with session replication (pybossa/jobs.py:733), statistics, importers, encryption and OAuth.
