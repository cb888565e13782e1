# gint in Dafny

A model of the parts of the gint service toolkit that compute or coordinate something of their own:
the load balancers, the cron search, the concurrent map/reduce, the Redis lock, the in-memory rate
limiters, the snowflake IDs, the in-memory message log, the circuit breaker, the layered
configuration and the SQL builders. Each source file has a module of its own (or a few), named after
what it models.

Objects whose methods change their fields are classes here, and their methods are proved against
specification functions (`Next`, `AfterCall`, `TakeTurn`, `Apply`, ...). The theorems are about those
functions: over whole runs, over every input, over every interleaving. Map/reduce, the lock and the
message consumer are step systems: every lock-protected section, every atomic operation, every channel
operation and every Redis command is one step, and the theorems quantify over all schedules. The clock
is an input. Integers are unbounded except where machine width matters: snowflake IDs, their decimal
text and the partition hash wrap as Go's do.

`dafny verify dfyconfig.toml` checks everything.

## What the code does not do

Some promises turned out to need a condition. For each, one lemma says when the promise holds, as an
if-and-only-if, and an input or a run shows the failure, where the condition is not itself on the input.

- A parsed cron expression fires at every second: the documentation above `ParseCron` (line 324) offers
  `* / - , ?`, but `parseField` fills in the full range for any text (`ParseCron`,
  `ParsedFiresEverySecond`).
- The loop of `CronSchedule.Next` ends exactly for satisfiable field sets (`EndsIffSatisfiable`); for
  30 February it goes on for ever (`ThirtiethOfFebruary`). `ParseCron` never builds such a schedule: the
  only one it builds is satisfiable.
- `DailySchedule.Next` is right exactly for times of day within the day; the constructor does not check
  them (`LeastIffTimeInRange`, `OutOfRange`).
- `MapReduce` does not return when the items but the last give at least as many results as buffer and
  concurrency together hold, because reducing starts after the last spawn (`DeadlockIffTooMany`,
  `ReturnsIffNotTooMany`, `ThreeAreTooMany`).
- A cancelled `MapReduce` can return an incomplete result without an error. The calls this can happen to
  are exactly those with items that all map (`CanLoseIff`, `LossWithoutError`); in a given run it happens
  exactly if a worker dropped its result (`CompleteIffNothingDropped`).
- After a reduce error workers can wait for ever before the channel nobody empties any more: exactly as
  many as there are results beyond those received and the buffer (`AbandonedWorkers`,
  `FirstErrorAbandons`).
- The cleanups of both in-memory limiters look and delete in two steps, and a call in between is
  forgotten (`DeletionInvisibleIff` in `FixedWindows` and in `SlidingWindows`).
- The fixed-window limiter admits up to `2 * rate - 1` requests in one window length, and up to
  `3 * rate - 1` if a deletion comes right after a call in it, never more, however often that happens;
  both numbers are reached (`BurstBound`, `BoundReached`, `DisturbedBoundReached`). A cleanup that no call
  disturbs is invisible exactly for rates of at least 1 (`UndisturbedInvisibleIffRate`,
  `NoRateShowsCleanup`).
- The sliding limiter admits up to `2 * rate` requests in one window if cleanups meet no empty lists, and
  this is reached (`NoWindowExceedsTwice`, `DisturbedCleanup`). An empty list is met only between a call's
  loading of a new key and its locking of it; such looks can repeat without bound, and each can cost a
  rate (`NoWindowExceedsRate`, `EmptyLooksUnbounded`).
- Snowflake timestamps come back, and IDs keep increasing, exactly below 2^41 ms; IDs stay distinct up
  to 2^42 (`ParsePack`, `IncreasingIff`, `PackEqualIff`).
- Printing the smallest 64-bit integer gives `"-"`, which reads as 0 (`RoundTripIff`). Texts of integers
  outside 64 bits are read without an error, and wrong (`ReadsIffFits`).
- Sending the same message object twice renumbers its earlier place in the log
  (`MemoryLogs.MemTopic.Append`).
- The partition hash has one value without a magnitude (`ChosenInRangeIff`, `NegativeChoice`).
- Messages with equal keys arrive in order in every interleaving exactly if all are sent to one
  partition, so `SendWithPartition` can break the order (`KeyOrderIff`, `NamedPartitionOvertakes`).
- A report from a request that was admitted before the breaker opened frees a probe's slot. The counter
  is the number of outstanding probes exactly if reports that leave the breaker half-open are timely
  (`CounterCountsProbesIff`, `LateReportLetsExtraProbeIn`).
- A half-open breaker whose probes do not report refuses every request for ever: nothing but a report
  moves it (`FullMovesIffReport`, `SilentProbesBlock`, `OneProbeFills`).
- Where points of different instances share a hash, a key can have two owners, and the order of sorting
  decides: every hash has one owner exactly without such collisions (`OneOwnerIff`).
- An environment variable whose path goes on below another one's is lost and spills its last part
  beside it (`RecoveredIffCompatible`, `ShadowedPathSpills`).
- `QueryBuilder` keeps arguments in call order, while the text always puts WHERE before HAVING: they
  agree exactly if the HAVING arguments come last (`QueryAlignedIff`, `HavingFirstMisaligned`).
- The builders join conditions with AND and set no parentheses: a condition can be combined with others
  exactly if it contains no OR (`CombinesIff`, `OrTakesOver`).

## Model

| member | source | states |
|---|---|---|
| `WeightedRoundRobins.WeightedRoundRobin.DropUnlisted` | loadbalance/loadbalance.go:85-94 | the state afterwards holds the listed IDs' entries and no others, all unchanged |
| `WeightedRoundRobins.WeightedRoundRobin.Raise` | loadbalance/loadbalance.go:96-112 | every listed instance is raised by its own weight, or by 1 if that is not positive, in order; the scan ends on `Winner` and with the total weight |
| `WeightedRoundRobins.WeightedRoundRobin.Select` | loadbalance/loadbalance.go:77-120 | an empty list is an error and changes nothing; otherwise the picked instance and the whole new state |
| `WeightedRoundRobins.Winner` | loadbalance/loadbalance.go:100-112 | the first of the instances with the largest raised weight |
| `WeightedRoundRobins.CallKeepsSum` | loadbalance/loadbalance.go:85-119 | for any list, duplicates included: the state's IDs become exactly the listed ones, and the sum of the retained weights is preserved |
| `WeightedRoundRobins.StepEffect` | loadbalance/loadbalance.go:100-119 | on distinct IDs everyone gains its weight, the picked one pays the total, and no one was ahead of it |
| `WeightedRoundRobins.WeightFormula` | loadbalance/loadbalance.go:100-119 | after k calls a current weight is k times the weight minus W times the number of picks |
| `WeightedRoundRobins.AboveMinusTotal` | loadbalance/loadbalance.go:100-119 | no current weight ever reaches -W |
| `WeightedRoundRobins.Smoothness` | loadbalance/loadbalance.go:85-119 | current weights stay in (-W, (n-1)(W-1)]; no instance is a whole pick ahead of its share |
| `WeightedRoundRobins.FirstPeriod` | loadbalance/loadbalance.go:77-120 | the first W calls pick instance i exactly w_i times and return every current weight to 0 |
| `WeightedRoundRobins.ExactPeriod` | loadbalance/loadbalance.go:77-120 | every block of W consecutive calls, wherever it starts, picks instance i exactly w_i times |
| `WeightedRoundRobins.ConfiguredPeriod` | loadbalance/loadbalance.go:77-120 | in the configured numbers: every block of as many calls as the weights sum up to picks an instance exactly `weight` times, and once where that is not positive |
| `WeightedRoundRobins.ThreeToOne` | loadbalance/loadbalance.go:96-112 | weights 3 and 1 give the first, the first, the second and the first |
| `ConsistentHashes.ConsistentHash.constructor` | loadbalance/loadbalance.go:228-237 | 150 virtual nodes unless a positive number is given |
| `ConsistentHashes.VirtualKeyDecodes` | loadbalance/loadbalance.go:257-266 | the text hashed for a virtual node gives back the instance's ID and the node's number |
| `ConsistentHashes.VirtualKeysDiffer` | loadbalance/loadbalance.go:257-266 | two virtual nodes have one text if and only if they are the same node of the same ID |
| `ConsistentHashes.SortByHash` | loadbalance/loadbalance.go:270-272 | ordered by hash, the same entries with multiplicity, nothing promised about ties |
| `ConsistentHashes.Search` | loadbalance/loadbalance.go:278-280 | the boundary between the hashes below the key's and those at or above it |
| `ConsistentHashes.ConsistentHash.SelectByKey` | loadbalance/loadbalance.go:251-286 | an empty list is an error; otherwise the owner of a ring point that no other point precedes clockwise from the key's hash |
| `ConsistentHashes.NearestIsSuccessor` | loadbalance/loadbalance.go:278-285 | that point is the first hash at or above the key's, or the smallest of all if there is none, and conversely |
| `ConsistentHashes.OneOwner` | loadbalance/loadbalance.go:278-285 | without collisions between instances a key has one owner |
| `ConsistentHashes.OneOwnerIff` | loadbalance/loadbalance.go:278-285 | every hash has at most one owner if and only if no two instances collide |
| `ConsistentHashes.OrderIndependent` | loadbalance/loadbalance.go:257-285 | lists of the same instances, in any order, give every key the same owner |
| `ConsistentHashes.MinimalDisruption` | loadbalance/loadbalance.go:251-286 | adding or removing an instance changes the owner only of keys it gains or loses, and those are exactly the keys with one of its points nearer |
| `Calendars.CivilUnique` | cron/cron.go:357-366 | day numbers and valid dates are in one-to-one correspondence |
| `Calendars.KnownDays` | cron/cron.go:356-366 | the epoch is day 0, the year 2000 has a 29 February, and 1900 and 2100 have none |
| `Calendars.GregorianCycle` | cron/cron.go:356-366 | the calendar repeats after 400 years of 146097 days |
| `Calendars.WeekdaysFollow` | cron/cron.go:363 | weekdays follow each other, Sunday after Saturday; 1 January 1970 is a Thursday, 1 January 2000 a Saturday |
| `Calendars.WeekdayOfDate` | cron/cron.go:363 | the weekday of any valid date agrees with the congruence on year, month and day |
| `Calendars.SameMonth` | cron/cron.go:356-359 | all days from a date to the end of its month are in that month |
| `Calendars.MonthEnd` | cron/cron.go:357 | the first of month m+1, carried over a year's end, is the day after the last of month m |
| `CronSchedules.CronSchedule.Next` | cron/cron.go:350-390 | for every satisfiable schedule the search ends, after some number of turns, with the least whole second strictly after t that matches: the jumping search refines the second-by-second scan; its date has one of the months, and one of the days or of the weekdays by the congruence |
| `CronSchedules.MatchesIff` | cron/cron.go:350-390 | a moment, given by date and clock time, matches if and only if month, day or weekday, hour, minute and second are in their sets |
| `CronSchedules.OnDate` | cron/cron.go:356-366 | every match lies in one of the months, and on one of the days or of the weekdays |
| `CronSchedules.FirstMonday` | cron/cron.go:362-366 | Mondays at midnight: 5 January 1970 matches, the Sunday before does not |
| `CronSchedules.SkipMonth` | cron/cron.go:356-359 | the month jump goes forward and passes no match |
| `CronSchedules.SkipDay` | cron/cron.go:362-368 | the day jump goes forward and passes no match |
| `CronSchedules.SkipHour` | cron/cron.go:371-374 | the hour jump goes forward and passes no match |
| `CronSchedules.SkipMinute` | cron/cron.go:377-380 | the minute jump goes forward and passes no match |
| `CronSchedules.SkipSecond` | cron/cron.go:383-386 | the second step passes no match |
| `CronSchedules.FutureMatch` | cron/cron.go:354-389 | a schedule with a second, a minute, an hour and a month that has one of its days matches after every moment (29 February included) |
| `CronSchedules.JumpSkips` | cron/cron.go:354-389 | one turn of the loop stays exactly on a match; otherwise it goes forward and passes no match |
| `CronSchedules.MatchIffSatisfiable` | cron/cron.go:354-389 | after any t there is a match if and only if the field sets are satisfiable |
| `CronSchedules.EndsIffSatisfiable` | cron/cron.go:350-390 | some number of turns of the loop gets to a match, its only way out, if and only if the field sets are satisfiable |
| `CronSchedules.ThirtiethOfFebruary` | cron/cron.go:350-390 | no number of turns ends the search for 30 February |
| `DailySchedules.LeastAfter` | cron/cron.go:304-310 | for a time of day within the day, the result is the least due moment strictly after t |
| `DailySchedules.ShowsTheTime` | cron/cron.go:304-310 | the result shows the hour and the minute, second 0, on the day of t or the next one |
| `DailySchedules.LeastIffTimeInRange` | cron/cron.go:304-310 | this holds for every t if and only if the time of day lies between 0:00 and 24:00 |
| `DailySchedules.OutOfRange` | cron/cron.go:304-310 | for any other time of day, a moment after which the result is wrong |
| `CronFields.SplitFields` | cron/cron.go:393-408 | the scan with two indices returns the space-separated words of the text |
| `CronFields.SplitJoin` | cron/cron.go:393-408 | splitting undoes joining, with any number of spaces in front, behind, and beyond the one between two fields |
| `CronFields.ParseField` | cron/cron.go:411-428 | any text gives the whole range, as the code has it |
| `CronFields.ParseCron` | cron/cron.go:325-347 | accepted are exactly the texts of six fields, and all get the same schedule |
| `CronFields.ParsedFiresEverySecond` | cron/cron.go:324-428 | that schedule has every value of every field, and matches every second |
| `MapReduces.InvStep` | mr/mr.go:33-98 | every step of every goroutine, reduce errors and cancellation included, keeps the invariant: counters count workers, items are neither lost nor duplicated, the accumulator is the fold of what was received, up to the first failing reduction |
| `MapReduces.ConcurrencyBound` | mr/mr.go:43-54 | at most `concurrency` workers hold the semaphore in every reachable state |
| `MapReduces.ClosedIsQuiet` | mr/mr.go:76-80 | once the channel is closed no worker has a step left, so none sends into it |
| `MapReduces.MappedOnce` | mr/mr.go:45-73 | in every run an item is mapped at most once, and exactly once when it has passed its mapping phase |
| `MapReduces.ReturnedResult` | mr/mr.go:24-99 | what any run returns: a context error with the zero value, else the fold of what was received; errors are those of failed items; without one every item was mapped once and succeeded, and each result was reduced or dropped, once |
| `MapReduces.FirstInFirstOut` | mr/mr.go:68-88 | what was reduced and what waits in the channel is what was sent, in that order; errors are recorded in the order of the failing mappings |
| `MapReduces.DecidedAtReturn` | mr/mr.go:45-98 | the outcome is decided by the steps before the return, and none of the later ones changes it |
| `MapReduces.ErrorIs` | mr/mr.go:45-98 | the context's error if and only if spawning was aborted; otherwise the error of item i if and only if i is the first whose mapping failed before the return, a reduce error if and only if there is none and the last reduction failed, no error if and only if neither |
| `MapReduces.FirstErrorWins` | mr/mr.go:93-95 | two failing items and one worker: the first one's error |
| `MapReduces.UndisturbedResult` | mr/mr.go:24-99 | without cancellation and reduce errors: every item mapped once, every success reduced once, and an error if and only if an item failed |
| `MapReduces.CompleteIffNothingDropped` | mr/mr.go:68-98 | a result without an error covers all items if and only if no worker dropped its result, which takes a cancellation |
| `MapReduces.LossWithoutError` | mr/mr.go:68-98 | for any items that all map, a cancelled run that reduces none, and returns the zero value and no error |
| `MapReduces.CanLoseIff` | mr/mr.go:24-99 | some run returns no error without having reduced every success if and only if there are items and all of them map |
| `MapReduces.FoldPermutation` | mr/mr.go:82-91 | under a left-commutative reduce function folds over permutations agree |
| `MapReduces.ScheduleIndependence` | mr/mr.go:24-99 | then every run that neither a reduce error nor a cancellation cuts short returns the sequential fold, whatever the interleaving |
| `MapReduces.RunsAreShort` | mr/mr.go:33-91 | no run has more than 6 steps an item and 3 more: a measure over all workers decreases |
| `MapReduces.Progress` | mr/mr.go:33-91 | unless there are too many results, every reachable state that has not returned has a step |
| `MapReduces.NeverAllSpawned` | mr/mr.go:45-51 | with too many results no uncancelled interleaving spawns the last item |
| `MapReduces.DeadlockIffTooMany` | mr/mr.go:33-98 | an uncancelled run that cannot go on has returned if and only if the successes among all items but the last are fewer than buffer and concurrency hold; otherwise no such run returns, and a stuck state has both full |
| `MapReduces.Completion` | mr/mr.go:33-98 | every run can be continued, without cancelling it, until it cannot go on |
| `MapReduces.ReturnsIffNotTooMany` | mr/mr.go:33-98 | some uncancelled run returns if and only if there are not too many results |
| `MapReduces.ThreeAreTooMany` | mr/mr.go:33-91 | three good items with one worker and a buffer of one are too many |
| `MapReduces.CancelledEnds` | mr/mr.go:45-79 | a cancelled run that cannot go on has returned, and every spawned worker is gone |
| `MapReduces.CancelledReturns` | mr/mr.go:45-79 | every cancelled run can be continued to such an end |
| `MapReduces.AbandonedWorkers` | mr/mr.go:68-91 | after a reduce error, exactly as many workers wait for ever as there are results beyond those received and the buffer; the channel is closed if and only if there is none |
| `MapReduces.FirstErrorAbandons` | mr/mr.go:68-91 | when the first reduction fails, workers stay behind if and only if there are more than bufferSize + 1 items |
| `MapReduces.TooManyWithoutErrors` | mr/mr.go:33-91 | without map errors this means more items than buffer size plus concurrency |
| `RedisLocks.StoreStep` | lock/redis/redis.go:73-231 | every step of every process, and the passing of time, keeps Redis in agreement with the grants made |
| `RedisLocks.TokensStep` | lock/redis/redis.go:73-299 | and keeps every stored or travelling token with the process it was granted to, through the delay between SETNX and storing |
| `RedisLocks.MutualExclusion` | lock/redis/redis.go:73-231 | in every reachable state at most one process has a stored value equal to a key's live Redis value, and it is the process the entry was set for |
| `RedisLocks.OthersChangeNothing` | lock/redis/redis.go:143-231 | the scripts of any other process leave Redis alone and report that the lock is not held |
| `RedisLocks.HolderSucceeds` | lock/redis/redis.go:143-231 | the holder's scripts succeed and do what they say |
| `RedisLocks.AcquireIffNoActiveGrant` | lock/redis/redis.go:82-137 | an attempt succeeds if and only if no grant on the key is active: nobody acquires before the earlier of unlock and latest deadline |
| `RedisLocks.OneActiveGrant` | lock/redis/redis.go:82-137 | at most one grant per key is active |
| `RedisLocks.ReleasedForEver` | lock/redis/redis.go:143-175 | a released token stays released and is never the live value of any key again |
| `RedisLocks.AttemptsSucceed` | lock/redis/redis.go:205-231 | while a grant is active every extend script with its token succeeds |
| `RedisLocks.WatchdogKeepsLock` | lock/redis/redis.go:205-263 | with attempts to extend at gaps below the TTL the key does not expire before it is released, in any schedule |
| `RedisLocks.StoringOwns` | lock/redis/redis.go:129-136 | storing a fresh token leaves the lock owned, if no other call of the process on the key is past its reading |
| `RedisLocks.OwnedStep` | lock/redis/redis.go:73-299 | no step of any process takes the token out of the owner's map while its grant is active |
| `RedisLocks.TickerKeepsLock` | lock/redis/redis.go:144-263 | the ticker with its two-step `Extend` keeps the key, in every interleaving, if interval and delay together stay below the TTL: until it is released, or, since `Unlock` stops the ticker first, until after the time that was safe when an unlock began |
| `RedisLocks.AcquiredForItsTtl` | lock/redis/redis.go:73-137 | an attempt started with `ttl` that succeeds at t0, its token then neither released nor extended: in every continuation the attempts on the key fail before t0 + ttl, and the first one from then on succeeds |
| `RedisLocks.ExtendedForItsTtl` | lock/redis/redis.go:205-231 | the same for the TTL of an extension, from the extend script that succeeded |
| `RedisLocks.Replies` | lock/redis/redis.go:73-231 | what each call answers: acquired after storing, not held without a stored value and then with no effect on Redis, extended if and only if the script found the token |
| `RedisLocks.UnlockedIffHeld` | lock/redis/redis.go:143-175 | an unlock succeeds if and only if its script found the token; the key is then free, another's stays; the value is forgotten either way |
| `SlidingWindows.SlidingWindowLimiter.Allow` | middlewares/ratelimit/middleware.go:225-255 | the decision, and the whole new state: the key's list without expired times, plus now if admitted |
| `SlidingWindows.SlidingWindowLimiter.Look` | middlewares/ratelimit/middleware.go:268-271 | a cleanup's look at a key is the `Check` step |
| `SlidingWindows.SlidingWindowLimiter.Forget` | middlewares/ratelimit/middleware.go:272-273 | the deletion after the key's lock was given back is the `Delete` step |
| `SlidingWindows.SlidingWindowLimiter.Cleanup` | middlewares/ratelimit/middleware.go:258-279 | a pass with nothing in between deletes exactly the stale keys |
| `SlidingWindows.Remembers` | middlewares/ratelimit/middleware.go:225-279 | in every run, a key's list and the admissions since it was last made to forget a call agree on everything a later call can look at |
| `SlidingWindows.ExactAdmission` | middlewares/ratelimit/middleware.go:225-279 | a call is admitted if and only if fewer than `rate` of those admissions lie in (now - window, now]; they are all earlier admissions if no deletion comes directly after a call |
| `SlidingWindows.StaleIff` | middlewares/ratelimit/middleware.go:258-277 | in every ordered run a key is stale if and only if all it remembers lies more than two windows back |
| `SlidingWindows.NoWindowExceedsRate` | middlewares/ratelimit/middleware.go:225-279 | no interval (a, a + window] of any run holds more than `rate` admissions, and `rate` more for every deletion directly after a call in that interval, whether or not the look before it found the key stale |
| `SlidingWindows.NoWindowExceedsTwice` | middlewares/ratelimit/middleware.go:225-279 | and none more than 2 * rate in any run whose cleanups meet no empty list, however many deletions come after calls |
| `SlidingWindows.EmptyLooksUnbounded` | middlewares/ratelimit/middleware.go:229-271 | with looks at empty lists, for every n a run that admits n requests in one instant |
| `SlidingWindows.UndisturbedInvisible` | middlewares/ratelimit/middleware.go:258-279 | if no deletion comes directly after a call, the same run without the cleanups admits the same requests |
| `SlidingWindows.DeletionInvisibleIff` | middlewares/ratelimit/middleware.go:268-275 | a deletion changes no later decision if and only if no remembered request is still in the window, or the rate is 0 |
| `SlidingWindows.DisturbedCleanup` | middlewares/ratelimit/middleware.go:268-275 | at every positive rate, one call pattern between a look and its deletion that gets 2 * rate requests through in one instant |
| `FixedWindows.SimpleLimiter.Allow` | middlewares/ratelimit/middleware.go:124-153 | the decision, and the whole new state |
| `FixedWindows.SimpleLimiter.Look` | middlewares/ratelimit/middleware.go:163-166 | a cleanup's look at a key is the `Check` step |
| `FixedWindows.SimpleLimiter.Forget` | middlewares/ratelimit/middleware.go:168-170 | the deletion after the key's lock was given back is the `Delete` step |
| `FixedWindows.SimpleLimiter.Cleanup` | middlewares/ratelimit/middleware.go:156-174 | a pass with nothing in between deletes exactly the counters two windows old |
| `FixedWindows.ExactAdmission` | middlewares/ratelimit/middleware.go:124-153 | from the admissions alone, for positive rates and undisturbed cleanups: a call is admitted if and only if it is the first, or the window opened last is over, or fewer than `rate` admissions lie in it |
| `FixedWindows.StaleIff` | middlewares/ratelimit/middleware.go:156-174 | then a key is stale if and only if its window opened two windows ago or earlier |
| `FixedWindows.BurstBound` | middlewares/ratelimit/middleware.go:124-174 | for rates of at least 1 no interval [a, a + window) of any run holds more than 3 * rate - 1 admissions, and none more than 2 * rate - 1 unless a deletion comes directly after a call in it |
| `FixedWindows.BoundReached` | middlewares/ratelimit/middleware.go:124-153 | an ordered run without cleanups that reaches 2 * rate - 1 |
| `FixedWindows.DisturbedBoundReached` | middlewares/ratelimit/middleware.go:124-174 | an ordered run with one disturbed cleanup that reaches 3 * rate - 1 |
| `FixedWindows.CleanupAlike` | middlewares/ratelimit/middleware.go:156-174 | if no deletion comes directly after a call, the limiter with and without cleanups makes the same decisions and ends in the same state, or has forgotten a window that is over |
| `FixedWindows.NoRateShowsCleanup` | middlewares/ratelimit/middleware.go:138-143 | at rate 0 or less a cleanup changes a decision, because the reset branch admits whatever the rate |
| `FixedWindows.UndisturbedInvisibleIffRate` | middlewares/ratelimit/middleware.go:124-174 | cleanups that no call disturbs are invisible if and only if the rate is at least 1 |
| `FixedWindows.Counted` | middlewares/ratelimit/middleware.go:124-153 | at rates of at least 1 every counter of a run has counted something |
| `FixedWindows.DeletionInvisibleIff` | middlewares/ratelimit/middleware.go:163-170 | deleting a counter changes no later decision if and only if there is none, or the rate is positive and the window is over |
| `FixedWindows.DisturbedCleanup` | middlewares/ratelimit/middleware.go:163-170 | a call between a look and its deletion lets two requests through in one window at rate 1, one more than without the cleanup |
| `Int64s.OrDisjoint` | snowflake/snowflake.go:107 | or-ing bits that do not overlap adds |
| `Int64s.AndMask` | snowflake/snowflake.go:94-125 | and-ing with k ones is the remainder by 2^k |
| `Snowflakes.Generator.New` | snowflake/snowflake.go:58-78 | the two errors, exactly when and in which order; a fresh generator otherwise |
| `Snowflakes.Generator.WaitNextMillis` | snowflake/snowflake.go:152-159 | the first reading that passes the last timestamp |
| `Snowflakes.Generator.Generate` | snowflake/snowflake.go:81-109 | a clock that moved back is an error and changes nothing; otherwise the packed ID and the state `TakeTurn` gives |
| `Snowflakes.SequenceMask` | snowflake/snowflake.go:94 | the mask counts up and returns to 0 after 4095 |
| `Snowflakes.PackValue` | snowflake/snowflake.go:107 | the packed ID is the wrapped sum of its three shifted parts |
| `Snowflakes.ParsePack` | snowflake/snowflake.go:121-127 | parsing returns node and sequence always, and the timestamp if and only if it is below 2^41 |
| `Snowflakes.PackEqualIff` | snowflake/snowflake.go:107 | two IDs are equal if and only if node and sequence are and the timestamps agree modulo 2^42 |
| `Snowflakes.NodesNeverCollide` | snowflake/snowflake.go:107 | equal IDs have equal nodes and sequences, at any timestamps |
| `Snowflakes.IncreasingIff` | snowflake/snowflake.go:107 | a later state has the larger ID if and only if its timestamp is below 2^41 |
| `Snowflakes.TurnMovesOn` | snowflake/snowflake.go:85-104 | a successful call moves the state strictly forward, to a timestamp the clock showed |
| `Snowflakes.TurnIs` | snowflake/snowflake.go:85-104 | each outcome of a call, if and only if the clock and the last call say so: the error, the next number in the same millisecond, 0 in a later one, and after 4095 the first later reading |
| `Snowflakes.FreshTurn` | snowflake/snowflake.go:57-104 | a fresh generator fails exactly on clocks before its epoch |
| `Snowflakes.TurnsAscend` | snowflake/snowflake.go:81-109 | whatever the clock does, backward jumps and overflows included, the states of a run strictly ascend |
| `Snowflakes.IdsIncrease` | snowflake/snowflake.go:81-109 | so the IDs of a run strictly increase while the clock stays below 2^41 |
| `Snowflakes.IdsDistinct` | snowflake/snowflake.go:81-109 | and are pairwise different while it stays below 2^42 |
| `Int64Texts.WriteDigits` | snowflake/snowflake.go:174-178 | the digit loop stays in the 20-byte buffer and leaves the decimal digits at its end |
| `Int64Texts.Int64ToString` | snowflake/snowflake.go:162-186 | the decimal text of every 64-bit integer but the smallest, which prints as "-" |
| `Int64Texts.StringToInt64` | snowflake/snowflake.go:189-215 | the two errors, exactly when; otherwise the value in wrapping arithmetic |
| `Int64Texts.ValueOfItoa` | snowflake/snowflake.go:203-208 | reading printed digits gives the number back without overflow |
| `Decimals.DecimalOfItoa` | snowflake/snowflake.go:162-187 | the digits written for a number mean that number |
| `Int64Texts.ErrorsIff` | snowflake/snowflake.go:189-206 | the error for no text if and only if there is none; that for a wrong character if and only if one behind an optional minus sign is no digit |
| `Int64Texts.ReadsIffFits` | snowflake/snowflake.go:189-215 | a text of digits, signed or not, is read as the integer it means if and only if that fits in 64 bits; otherwise it wraps |
| `Int64Texts.RoundTripIff` | snowflake/snowflake.go:162-215 | printing and parsing round-trip on a 64-bit integer if and only if it is not the smallest |
| `Int64Texts.IdTextRoundTrip` | snowflake/snowflake.go:112-136 | an ID printed and parsed as text returns its three parts |
| `MemoryLogs.MemTopic.SelectPartition` | mq/memory/memory.go:146-158 | the wrapping hash of the key, its wrapped magnitude, Go's remainder |
| `MemoryLogs.HashIsPolynomial` | mq/memory/memory.go:150-156 | the hash of a key is its polynomial in 31, reduced to a signed 64-bit integer |
| `MemoryLogs.PartitionIs` | mq/memory/memory.go:146-163 | the partition of a key is the magnitude of its hash modulo the number of partitions, and 0 for an empty key and for the hash without a magnitude |
| `MemoryLogs.MemTopic.Append` | mq/memory/memory.go:160-174 | one partition grows by the message, which carries partition and position, as in the step system; the topic's numbering stays right if and only if the object was not in it |
| `MemoryLogs.MemTopic.Send` | mq/memory/memory.go:205-217 | the same for the partition of the key |
| `MemoryLogs.MemTopic.Get` | mq/memory/memory.go:184-193 | the rest of the partition from the offset, nothing past its end; the batch of the step system |
| `MemoryLogs.MemoryConsumer.HandOverAll` | mq/memory/memory.go:298-305 | a batch goes into the channel, and the offset moves by its length |
| `MemoryLogs.MemoryConsumer.PullAll` | mq/memory/memory.go:295-307 | a round that nobody interrupts is a run of the consumer's steps and ends with every offset at the end of its log |
| `MemoryLogs.RoundIsSteps` | mq/memory/memory.go:295-307 | entering partition after partition and handing over its batch is such a run |
| `MemoryLogs.ChosenInRangeIff` | mq/memory/memory.go:146-163 | the chosen partition is in range if and only if the hash is not the one value without a magnitude, or the number of partitions divides it; that key goes to partition 0 |
| `MemoryLogs.NegativeChoice` | mq/memory/memory.go:146-158 | a key of 13 bytes that asks for partition -2 of three |
| `MemoryLogs.InvStep` | mq/memory/memory.go:146-307 | every step of senders and consumer keeps offsets, handed-over messages and copied batch in agreement with the logs |
| `MemoryLogs.Delivery` | mq/memory/memory.go:295-307 | after any interleaving, what was handed over from a partition is exactly the first offsets[p] messages of its log |
| `MemoryLogs.KeysStayTogetherIff` | mq/memory/memory.go:146-230 | the messages of a key are all in one partition, in the order they were sent, if and only if all are sent to that partition, by key or by name |
| `MemoryLogs.EqualKeysInOrder` | mq/memory/memory.go:146-307 | messages with equal keys sent to one partition arrive in send order without gap or repetition |
| `KeyedOrders.KeyOrderIff` | mq/memory/memory.go:146-307 | a series of sends has the messages with a key arrive in order in every interleaving with the consumer if and only if all of them go to one partition |
| `KeyedOrders.NamedPartitionOvertakes` | mq/memory/memory.go:219-230 | a message sent by key and one that names another partition: the second can arrive first |
| `CircuitBreakers.CircuitBreaker.Allow` | middlewares/circuitbreaker/middleware.go:105-125 | the decision, and the whole new state |
| `CircuitBreakers.CircuitBreaker.RecordSuccess` | middlewares/circuitbreaker/middleware.go:128-145 | the whole new state |
| `CircuitBreakers.CircuitBreaker.RecordFailure` | middlewares/circuitbreaker/middleware.go:148-167 | the whole new state |
| `CircuitBreakers.CircuitBreaker.TransitionTo` | middlewares/circuitbreaker/middleware.go:170-180 | a change to another phase than half-open clears the in-flight counter |
| `CircuitBreakers.CircuitBreaker.AllowHalfOpenRequest` | middlewares/circuitbreaker/middleware.go:182-193 | admits while the counter is below the limit, and counts exactly the admitted |
| `CircuitBreakers.CircuitBreaker.ReleaseHalfOpenRequest` | middlewares/circuitbreaker/middleware.go:195-205 | gives one slot back, never below 0 |
| `CircuitBreakers.CountersMean` | middlewares/circuitbreaker/middleware.go:105-205 | in every run each counter is what its name says about the history, and in-flight stays in 0..limit, and 0 outside half-open |
| `CircuitBreakers.Transitions` | middlewares/circuitbreaker/middleware.go:105-180 | the only changes of phase, each if and only if the event and the recorded history call for it, for any thresholds |
| `CircuitBreakers.AdmittedFromOpenIff` | middlewares/circuitbreaker/middleware.go:111-118 | an open breaker admits if and only if the timeout has passed since the latest recorded failure |
| `CircuitBreakers.AdmitsIff` | middlewares/circuitbreaker/middleware.go:105-193 | in every run a request is admitted if and only if the breaker is closed, or open with the timeout passed since the latest recorded failure, or half-open with fewer slots taken than configured, or none |
| `CircuitBreakers.SlotsAreCounted` | middlewares/circuitbreaker/middleware.go:182-205 | the in-flight counter is the number of slots the history takes and gives back |
| `CircuitBreakers.FreshAdmits` | middlewares/circuitbreaker/middleware.go:105-110 | a fresh breaker admits at any time |
| `CircuitBreakers.CounterCountsProbesIff` | middlewares/circuitbreaker/middleware.go:136-205 | the in-flight counter is the number of outstanding probes throughout a run if and only if every report that leaves the breaker half-open is a probe's exactly when the counter is not 0 |
| `CircuitBreakers.ProbesWithinLimit` | middlewares/circuitbreaker/middleware.go:182-205 | and where it is, the outstanding probes are within the limit |
| `CircuitBreakers.LateReportLetsExtraProbeIn` | middlewares/circuitbreaker/middleware.go:136-142 | an untimely report lets a second probe in at a limit of one |
| `CircuitBreakers.FullMovesIffReport` | middlewares/circuitbreaker/middleware.go:119-205 | a half-open breaker at its limit admits nothing, and an event changes it if and only if it is a report |
| `CircuitBreakers.SilentProbesBlock` | middlewares/circuitbreaker/middleware.go:119-193 | so any number of requests at any times leaves it as it is |
| `CircuitBreakers.OneProbeFills` | middlewares/circuitbreaker/middleware.go:105-193 | one failure and one probe bring a breaker there |
| `ConfigTries.Config.Load` | config/config.go:59-82 | the data after all sources in order; success if and only if no source failed |
| `ConfigTries.Config.Merge` | config/config.go:85-89 | later entries win, in any iteration order |
| `ConfigTries.Config.Get` | config/config.go:92-113 | the value at the dotted path, or nothing |
| `ConfigTries.LastDefiningSource` | config/config.go:59-113 | a path reads from the last successfully loaded source that defines its first segment |
| `EnvSources.NestedMap.Set` | config/config.go:357-372 | writing along a path in place, in nested map objects that stay a tree: the contents become `SetNested` of the old ones |
| `EnvSources.Load` | config/config.go:333-354 | the nested maps built in place from all entries with prefix and equals sign, in order |
| `ConfigTries.SetThenLookup` | config/config.go:357-372 | a path that no text blocks reads back; unrelated paths read as before; no other text appears |
| `ConfigTries.RecoveredIffCompatible` | config/config.go:333-372 | every setting can be read back if and only if no path goes on below another and equal paths agree, in any order of the environment |
| `ConfigTries.EnvironmentRoundTrip` | config/config.go:92-372 | reading the dotted path of each compatible entry gives its value |
| `ConfigTries.SetsIff` | config/config.go:337-344 | an entry sets something if and only if it has the prefix and an equals sign |
| `ConfigTries.EntrySets` | config/config.go:337-351 | the entry prefix, name, equals sign, value sets the value under the name's dotted path in small letters |
| `ConfigTries.VariableRoundTrip` | config/config.go:92-372 | in a compatible environment such a variable is read back with that path, if its name has no dots |
| `ConfigTries.DatabaseHost` | config/config.go:325-354 | `APP_DB_HOST` is read as `db.host`, its value with the second equals sign |
| `ConfigTries.ShadowedPathSpills` | config/config.go:364-370 | a path below a plain value is lost, and its last part lands beside it |
| `Texts.SplitJoin` | config/config.go:96 | splitting undoes joining of parts without the separator |
| `Texts.JoinSplit` | config/config.go:349 | splitting at one character and joining with another replaces the one by the other |
| `SqlTexts.BindConcat` | db/db.go:191-241 | binding two texts one after the other binds each with its own arguments |
| `SqlTexts.BindJoin` | db/db.go:202-205 | so does joining clauses with a separator |
| `SqlTexts.BindInjective` | db/db.go:191-241 | different argument lists mean different queries |
| `SqlBuilders.QueryBuilder.Where` | db/db.go:135-139 | adds a condition with its arguments to the calls made so far, which texts and arguments follow |
| `SqlBuilders.QueryBuilder.WhereIn` | db/db.go:142-150 | adds a condition with one placeholder a value |
| `SqlBuilders.QueryBuilder.WhereLike` | db/db.go:153-157 | adds a condition with one placeholder |
| `SqlBuilders.QueryBuilder.Having` | db/db.go:184-188 | replaces the text and keeps all arguments |
| `SqlBuilders.QueryBuilder.Build` | db/db.go:191-241 | the text of the last HAVING and all conditions; the arguments in call order |
| `SqlBuilders.InAndLikeFit` | db/db.go:142-157 | the conditions the builder itself writes have as many placeholders as arguments |
| `SqlBuilders.TextWantsWhereThenHaving` | db/db.go:191-241 | bound to the conditions' arguments and then the HAVING's, every placeholder gets the argument of its own clause |
| `SqlBuilders.OrderIff` | db/db.go:135-188 | the call order is that order if and only if the HAVING arguments come last |
| `SqlBuilders.QueryAlignedIff` | db/db.go:135-241 | each placeholder of the built text meets its own argument if and only if the HAVING arguments come last |
| `SqlBuilders.HavingFirstMisaligned` | db/db.go:135-241 | a HAVING with an argument and then a WHERE with one change their arguments |
| `SqlBuilders.HavingLastAligned` | db/db.go:135-241 | and if they do, for arguments that may repeat |
| `SqlConditions.WhereSelects` | db/db.go:206-210 | the WHERE built from conditions without OR selects exactly the rows that all conditions select |
| `SqlConditions.CombinesIff` | db/db.go:206-210 | a condition can be combined with every further one in this way if and only if it contains no OR |
| `SqlConditions.OrTakesOver` | db/db.go:206-210 | with an OR there are rows the built text selects although a further condition is false |
| `SqlConditions.WholeQuery` | db/db.go:191-241 | a query with every part: the whole text |
| `SqlConditions.ShortQuery` | db/db.go:191-241 | a query with none: the whole text |
| `SqlBuilders.UpdateBuilder.Set` | db/db.go:344-347 | the latest value of a field wins |
| `SqlBuilders.UpdateBuilder.Where` | db/db.go:358-362 | adds a condition with its arguments |
| `SqlBuilders.UpdateBuilder.Build` | db/db.go:365-389 | for some order of the fields, each once: the text and the arguments of that same order, then the conditions |
| `SqlBuilders.UpdateAligned` | db/db.go:365-389 | for every iteration order and every interleaving of `Set` and `Where`, each placeholder meets its own value |
| `SqlConditions.WholeUpdate` | db/db.go:365-389 | the text of an update of two fields under two conditions |
| `SqlBuilders.InsertBuilder.Build` | db/db.go:292-320 | a placeholder group per row, and all values row by row |
| `SqlBuilders.RowMeaning` | db/db.go:307-314 | a row binds its own values in order |
| `SqlBuilders.InsertAligned` | db/db.go:292-320 | rows of any lengths each meet their own values |
| `SqlConditions.WholeInsert` | db/db.go:292-320 | the text of an insert of two rows, and without a list of fields |

## Left out

- Gin handlers, headers, JSON, JWT, logging, metrics, tracing, Kafka, RabbitMQ, etcd, the Redis cache and session store: plumbing over libraries and servers outside this repository.
- Round robin, random and least connections, the request counter of `ConsistentHash.Select`, and the FNV hash: one branch or one library call each; the hash function is a parameter.
- Consistent hashing assumes no collision between different instances for the uniqueness results; `SelectByKey` itself does not. `sort.Slice` is an insertion sort here, with the same contract.
- Load-balancer weights are unbounded integers; Go's `int` could overflow on sums near 2^63.
- Cron works in one fixed offset: daylight saving and the location database are not modelled. The scheduler loop and its `Running` flag are left out, since it hands jobs a time read before its wait.
- `CronSchedules.CronSchedule.Next`: requires a satisfiable schedule, because without one the loop does not end; `EndsIffSatisfiable` proves that of the loop's turns.
- Map/reduce: map and reduce functions do not look at the context themselves; the functions `Map`, `Filter`, `ForEach`, `FlatMap`, `Partition` are left out. Reading the recorded map errors after a reduce error is one step, though the source reads them without their lock.
- Map/reduce and the lock are step systems on values, not classes, because the point is the interleaving of many callers; the retry interval and the total timeout of `Lock` are an arbitrary choice to try again or to give up.
- The lock's tokens are numbers drawn once; that random values differ is assumed. Caller-chosen values and non-positive TTLs are excluded (`TryLock` rejects the latter, `Lock` does not). Ownership is per process, as the value map is; Redis errors and the bookkeeping of watchdog cancellation are left out. An unlock of an earlier acquisition that is still under way in the same process can forget the new token; `StoringOwns` has the condition that none is.
- Rate limiters: clock readings of one key are taken in the order in which calls get the key's lock; a cleanup's clock may be up to a window ahead of a later call's. A call that uses a counter object just deleted from the map appears as the deletion following the call; a key that a call has loaded and not locked yet appears to a look as an empty list. Passes are not spaced in time.
- `SlidingWindows.SlidingWindowLimiter.Cleanup`: one pass without calls in between; the runs, whose theorems have no such restriction, take its `Look` and `Forget` as two steps. The same goes for `FixedWindows.SimpleLimiter.Cleanup`.
- `Snowflakes.Generator.Generate`: requires that a clock reading passes the last timestamp when the sequence ran over; otherwise the source waits for ever. `NodeIDFromIP` and `NodeIDFromMac` are left out.
- The circuit breaker is modelled call by call; at the level of single atomic instructions the decrement of a refused probe can land after a reset of the counter.
- The message log: closing of producers, consumers and the queue beyond stopping a consumer, the capacity of the consumer's channel (handing over waits), consumer groups, topic creation. `PullAll` is proved for a round that is not interrupted; interruptions are steps of the step system.
- `EnvSources.NestedMap.Set`: the source's loop over the path is a tail recursion on the map at hand.
- Configuration values other than texts and maps (numbers, lists), file and map sources, typed getters; lower-casing covers ASCII only.
- SQL: identifiers and orderings given by the caller are assumed free of placeholders; `Sets`, `DeleteBuilder`, scanning, transactions and the driver are left out.
- SQL conditions are read as words separated by spaces, with OR between groups and AND between their parts; parentheses, quoted texts and the AND of BETWEEN are not understood, so `SqlConditions` says nothing of a condition that sets its own parentheses around an OR.
- `SqlBuilders.QueryAlignedIff`: takes all arguments of a query as different, so that a swap of two can be told; `HavingLastAligned` needs no such condition.
