# imghost: verified models of its stateful engines

imghost is a self-hosted image host: a web application around a ring of small engines that queue work, limit rates, hold
leases, keep albums in order and clean what users upload. This project models those engines in Dafny and proves what they
keep over every run. `dafny verify dfyconfig.toml` checks everything.

| file | engine |
|---|---|
| `Basics.dfy`, `Text.dfy` | shared datatypes; strings, blanks, decimal numerals |
| `ZipStreaming.dfy` | the bridge between a producer thread and a consuming generator |
| `Tasks.dfy` | the task queues with retry, synchronous and with any number of workers |
| `Scheduler.dfy` | the cleanup lease that many scheduler processes compete for |
| `AuthLockout.dfy`, `RedisFailureLock.dfy` | failure windows and locks, in memory and in Redis |
| `ConcurrentGuesses.dfy`, `RedisConcurrentGuesses.dfy` | guesses at one guard that are in flight together |
| `RedisAttemptCounter.dfy` | the get-then-increment attempt counter |
| `UploadLimits.dfy`, `RedisUploadLimits.dfy` | upload limits, in memory and in Redis |
| `UploadHours.dfy`, `RedisUploadRaces.dfy` | what they let through in an hour, and with calls in flight |
| `Thumbnails.dfy` | the thumbnail job under storage, processor and database failures |
| `AlbumOrder.dfy`, `AlbumRaces.dfy` | sparse positions, reordering and renumbering; an append racing a reordering |
| `ArchiveNames.dfy` | unique and safe names inside a zip archive |
| `Capabilities.dfy` | single-use delete capabilities |
| `SvgSanitizer.dfy` | the SVG sanitiser, which edits a tree while iterating over it |
| `ByteRanges.dfy` | byte ranges (section 14.1.2 of RFC 9110): reading, printing, streaming |
| `FrameSampling.dfy` | the frames chosen for an animated thumbnail |
| `Redaction.dfy` | redaction of event metadata and of URLs |

## How the models work

* Objects whose methods update fields are classes here, and each method is proved against a specification function of
  the old state; the lemmas about runs are about those functions. Protocols between several parties are state machines:
  a run is a sequence of actions from the initial state, an action that is not enabled leaves the state alone, and the
  theorems hold for every sequence.
* Time is an integer passed to each call and does not decrease along a run. Configuration values are constant in a run.
* Redis and SQL are maps with atomic single commands. A command that raises has had no effect itself, but those before
  it have: in `RedisFailureLock.dfy` EXPIRE may raise after INCR. A transaction takes effect at its commit. A write to the
  file system that raises may leave part of the file. One call of an in-memory limiter is one atomic step (the code reads
  the clock before it awaits the configuration).
* The iterator of an XML tree is a stack of elements still to visit; nothing an iteration has passed changes afterwards,
  so this visits what CPython's iterator visits.
* `lower()` maps the ASCII capitals and the Kelvin sign, U+212A, to ASCII letters. The dotted capital I, U+0130, is the
  one other letter with an ASCII letter in its lower case: an "i" followed by a combining dot, which no word looked for
  contains.
* Code of other projects is a parameter: the URL functions in `Redaction.dfy` (with two laws about reading what was
  built), handler outcomes in `Tasks.dfy`, failures in `Thumbnails.dfy`.

## Where the code does not do what is meant

* The hourly byte limit of the in-memory upload limiter only holds for one minute: the request count has already pruned
  the deque to a minute when the bytes of the hour are summed. An hour can hold sixty times what a minute can, and does
  so by uploads of any size the service accepts: `UploadHours.HourlyBytesAreNotBounded`. The limit holds exactly when
  the request limit alone already keeps it, or, for an anonymous actor, one of the shared limits does:
  `UploadHours.HourlyLimitHoldsIff`; and for all anonymous uploads together, `UploadHours.SharedHourlyLimitHoldsIff`. The
  Redis variant keeps the hour, but for the uploads in flight: `RedisUploadRaces.StoredBytesBound`.
* The synchronous queue uses attempt metadata as it comes, the asynchronous one clamps it to at least one. They agree
  exactly when both numbers are at least one: `Tasks.SyncAgreesWhenClamped`.
* Stopping the asynchronous queue loses a retry scheduled while it stops: `Tasks.StopCanLoseARetry`. Nothing else is
  lost: `Tasks.StopLeavesOnlyLateJobs`.
* An anonymous upload that the shared Redis limits refuse has already been charged to its actor:
  `RedisUploadLimits.RefusedUploadsAreCharged`, and from nothing `RedisUploadLimits.SecondActorPaysForNothing`. In memory
  a refused upload is charged to nobody.
* The Redis failure counter runs in a fixed window, not a sliding one, and lets up to threshold - 2 more guesses into a
  window than the in-memory one: `RedisFailureLock.RedisGuessRateBound`, `RedisFailureLock.RedisBoundIsReached`. It is as
  strict as memory exactly for a threshold of at most two or a window of one second:
  `RedisFailureLock.AsStrictAsMemoryIff`.
* The lock is looked at when a guess begins and set when it fails, so with k guesses in flight each lock period lets k
  failures through instead of one: `ConcurrentGuesses.ConcurrentGuessBound`, `ConcurrentGuesses.ConcurrentBoundIsReached`,
  and in Redis `RedisConcurrentGuesses.RedisConcurrentBound`, `RedisConcurrentGuesses.RedisConcurrentBoundIsReached`.
* When EXPIRE raises after INCR, the Redis failure counter never starts again, and from the threshold on every failure
  locks, however long ago the others were, until a success: `RedisFailureLock.LostExpiryLocksForever`. The bound on
  guesses is exceeded by one at most, and only for a threshold of one: `RedisFailureLock.SurvivesLostExpiriesIff`.
* A caller held up between computing its bucket and reading it can find the bucket expired, and then more than the bound
  are admitted to it: `RedisAttemptCounter.LateReadsBreakTheBound`. Two minutes after the bucket began is the exact
  limit, for every configuration: `RedisAttemptCounter.BoundHoldsUpToTheExpiry`.
* A reordering does not take the lock on the album that an append takes. It can fall between the append's two
  commands, or the append between its two transactions, and the new media can end next to another or at the same
  position: `AlbumRaces.GapsSurviveRaceIff` says exactly when, `AlbumOrder.AppendBetweenWrites` for an append that falls
  whole between the two transactions. No album is safe, and no renumbering is needed: `AlbumRaces.EveryAlbumCanBreak`.
* The page that tells a repeated confirmation "album deleted" needs the capability's row, which is deleted with the
  album, so it is refused unless a deletion of the album falls between the page's two reads:
  `Capabilities.LateConfirmation`, `Capabilities.LatePageMeansDeletionBetween`. `Capabilities.LatePageCanBeShown` is a run
  in which one does.
* A failing write of a thumbnail is hardly ever reported as a store failure, because the test for `thumbnail` comes
  first: `Thumbnails.StoreFailureExactly` says when it is. The file system's errors name the path, and the path the
  directory `thumbnails`: `Thumbnails.PathErrorIsMisread`. The one for a full disk names nothing:
  `Thumbnails.DiskFullIsMisread`.
* A write that fails after it has opened the file, as on a full disk, leaves part of a blob that no row names and that
  nothing deletes, although no deletion failed: `Thumbnails.TornExactly`, `Thumbnails.RunJobAndCount`. A job that meets a
  full disk ends so: `Thumbnails.DiskFullJob`.
* Cleaning a URL twice can change it again when the text begins with a control character: urlsplit skips it, and
  str.strip does not. `Redaction.CleanUrlTwiceExactly` is the exact condition, `Redaction.CleanUrlTwiceCanDiffer` a text on
  either side of it; no secret is left either way.
* The prefix list of the SVG reference check decides nothing: whatever does not start with `#` is unsafe. The root
  element itself is never removed. With a dangerous element goes the text after it, which is not inside it:
  `SvgSanitizer.TailGoesToo`.
* The removal of dangerous elements calls itself for every child of every element it meets, so its calls double with each
  level of nesting: `SvgSanitizer.CallsByDepth`, `SvgSanitizer.ChainDoubles`.

## Model

| member | source | states |
|---|---|---|
| ZipStreaming.BridgeSafety | src/imghost/zip_streaming.py:28-86 | in every interleaving of producer, consumer and early close: yielded chunks are a prefix of the stream, the queue stays within its bound, an end or error marker is put at most once and last, a consumer that was not closed ends as the stream does after all its chunks, and the stream is closed exactly once if it was opened |
| ZipStreaming.NeverStuck | src/imghost/zip_streaming.py:34-86 | a consumer waiting on an empty queue always has a running producer that is not blocked; some step is possible until both are finished |
| ZipStreaming.AtMostOneLatePut | src/imghost/zip_streaming.py:34-41 | after the stop flag is set, at most the put already under way still lands |
| ZipStreaming.BoundedWork | src/imghost/zip_streaming.py:34-86 | for n chunks every interleaving does at most 5n + 9 steps, not counting retries: the timeouts of a put on a full queue and the tests of the stop flag that follow one |
| ZipStreaming.BoundedWorkIsReached | src/imghost/zip_streaming.py:34-86 | for every stream that opens, a run of exactly so many steps |
| Tasks.SyncEnqueue | src/imghost/tasks.py:304-372 | the loop records exactly the trace of attempts determined by the handler's outcomes |
| Tasks.TraceShape | src/imghost/tasks.py:304-372 | a trace is queued, started, any number of rescheduled attempts counting up by one within the maximum, and one terminal state, that of the last outcome |
| Tasks.AsyncRefinesSync | src/imghost/tasks.py:149-173 | for any number of workers and any interleaving, each accepted job's trace is a prefix of the synchronous loop's, and all of it exactly when the job is done |
| Tasks.SyncAgreesWhenClamped | src/imghost/tasks.py:191-195 | the two queues record the same exactly when the attempt metadata is at least one already |
| Tasks.JoinMeansAllDone | src/imghost/tasks.py:163-176 | the unfinished count is what is queued plus what is in hand; when it is zero every job and retry is done |
| Tasks.StopLeavesOnlyLateJobs | src/imghost/tasks.py:141-147 | when stop has ended every worker, the queue holds exactly the jobs put after it began, in the order they were put, and the tasks not done are exactly theirs |
| Tasks.StopCanLoseARetry | src/imghost/tasks.py:237-279 | a run in which a retry stays queued for good |
| Tasks.WorkerStepsUseUpWork | src/imghost/tasks.py:197-279 | every step of a worker makes the remaining work smaller, in every reachable state |
| Tasks.NeverStuck | src/imghost/tasks.py:163-173 | while something is unfinished and a worker is left, a worker can take a step |
| Scheduler.SchedulerService.AcquireCleanupLease | src/imghost/scheduler.py:105-127 | the lease is taken exactly when leases are off or the store is up and the key free, and then carries the caller's token and the effective length |
| Scheduler.SchedulerService.ReleaseCleanupLease | src/imghost/scheduler.py:129-143 | compare-and-delete: another token's lease is left alone |
| Scheduler.SchedulerService.Tick | src/imghost/scheduler.py:48-67 | an uninterrupted tick: when it enqueues, when the next one is due, whose lease is left |
| Scheduler.SuccessfulTicksAreApart | src/imghost/scheduler.py:48-143 | across any processes and interleavings, ticks that enqueue acquired their leases at least max(lease, interval) seconds apart |
| Scheduler.ReleaseTakesOnlyItsOwn | src/imghost/scheduler.py:12-17 | in every reachable state a release removes at most the caller's own lease, and never one of a tick still running or that succeeded before it expires |
| Scheduler.OneProcessKeepsItsInterval | src/imghost/scheduler.py:48-67 | with or without a store, one process starts its successful ticks an interval apart |
| AuthLockout.AuthWindowCounter.Prune | src/imghost/auth_rate_limits.py:55-58 | drops events from the front until one is after the cutoff |
| AuthLockout.AuthWindowCounter.Count | src/imghost/auth_rate_limits.py:60-62 | prunes, then counts what is kept |
| AuthLockout.InMemoryAuthRateLimiter.CheckLock | src/imghost/auth_rate_limits.py:138-145 | lets through exactly when no lock is in force, drops an expired one, touches no other guard |
| AuthLockout.InMemoryAuthRateLimiter.RecordFailure | src/imghost/auth_rate_limits.py:86-95 | adds to the window, prunes, locks from the threshold on; no other guard or gate changes |
| AuthLockout.InMemoryAuthRateLimiter.RecordSuccess | src/imghost/auth_rate_limits.py:97-99 | forgets the guard's failures and lock and nothing else |
| AuthLockout.InMemoryAuthRateLimiter.EnforceAttempt | src/imghost/auth_rate_limits.py:147-158 | admits exactly when fewer than the limit were admitted in the last minute |
| AuthLockout.GuessRateBound | src/imghost/auth_rate_limits.py:78-95 | without a success, every window of W seconds holds at most threshold - 1 + ceil(W / lock) failures, whatever the timing |
| AuthLockout.BoundIsReached | src/imghost/auth_rate_limits.py:78-95 | for every policy some serial guesses reach that bound |
| AuthLockout.DequeIsRecentHistory | src/imghost/auth_rate_limits.py:55-65 | the pruned deque is exactly the history inside the window of the last failure |
| AuthLockout.AttemptRateBound | src/imghost/auth_rate_limits.py:147-158 | any minute of any run holds at most the limit of admitted attempts |
| RedisFailureLock.RedisGuard.IsLocked | src/imghost/auth_rate_limits.py:348-350 | locked exactly while the lock key lives |
| RedisFailureLock.RedisGuard.Incr | src/imghost/auth_rate_limits.py:342-344 | counts on in a live key, keeping its expiry, or makes a new key without one |
| RedisFailureLock.RedisGuard.RecordFailure | src/imghost/auth_rate_limits.py:332-346 | the counter's new value and expiry, and a lock from the threshold on; a new counter without expiry and no lock when EXPIRE raises |
| RedisFailureLock.RedisGuard.RecordSuccess | src/imghost/auth_rate_limits.py:276-278 | both keys are gone |
| RedisFailureLock.RedisGuessRateBound | src/imghost/auth_rate_limits.py:332-350 | any window of W seconds of any serial run holds at most threshold - 1 + e + ceil(W / lock) failures, where e is max(0, threshold - 2), and 0 for a window of one second |
| RedisFailureLock.RedisBoundIsReached | src/imghost/auth_rate_limits.py:332-350 | for every policy some serial guesses reach that bound |
| RedisFailureLock.AsStrictAsMemoryIff | src/imghost/auth_rate_limits.py:332-350 | every serial run of Redis keeps the in-memory bound exactly when the threshold is at most two or the window one second |
| RedisFailureLock.LostExpiryBound | src/imghost/auth_rate_limits.py:332-350 | whichever EXPIRE commands raise, the bound is exceeded by at most one, and by none for a threshold of two or more |
| RedisFailureLock.SurvivesLostExpiriesIff | src/imghost/auth_rate_limits.py:332-350 | all serial runs keep the bound, whichever EXPIRE commands raise, if and only if the threshold is at least two |
| RedisFailureLock.LostExpiryLocksForever | src/imghost/auth_rate_limits.py:342-346 | after a lost expiry the failures are numbered on whatever time passes, and lock exactly from the threshold on |
| RedisConcurrentGuesses.RedisConcurrentBound | src/imghost/auth_rate_limits.py:332-350 | with at most k guesses in flight, in every interleaving and whichever EXPIRE commands raise, any window holds at most threshold - 1 + e + k * ceil(W / lock) failures, and one more only for a threshold of one and a lost expiry |
| RedisConcurrentGuesses.RedisConcurrentBoundIsReached | src/imghost/auth_rate_limits.py:332-350 | for every policy and every k some run reaches that bound |
| ConcurrentGuesses.ConcurrentGuessBound | src/imghost/auth_rate_limits.py:78-95 | with at most k guesses in flight, in every interleaving of their beginnings and ends, any window of W seconds holds at most threshold - 1 + k * ceil(W / lock) failures |
| ConcurrentGuesses.ConcurrentBoundIsReached | src/imghost/auth_rate_limits.py:78-95 | for every policy and every k some run reaches that bound |
| RedisAttemptCounter.CounterBound | src/imghost/auth_rate_limits.py:320-330 | with at most k callers in flight a bucket's counter never exceeds limit + k - 1; serial callers never exceed the limit |
| RedisAttemptCounter.ExpiryKeepsLiveBuckets | src/imghost/auth_rate_limits.py:320-330 | until two minutes after a bucket began its counter equals the admissions to it |
| RedisAttemptCounter.AdmissionBound | src/imghost/auth_rate_limits.py:320-330 | when no read comes later than the expiry after its bucket began, a bucket admits at most limit + k - 1 calls, and of the calls that started in any sixty seconds at most twice as many are admitted |
| RedisAttemptCounter.LateReadsBreakTheBound | src/imghost/auth_rate_limits.py:320-330 | for every limit, number of callers, start and greater lateness, a run with reads no later than that in which a bucket admits limit + k calls |
| RedisAttemptCounter.BoundHoldsUpToTheExpiry | src/imghost/auth_rate_limits.py:320-330 | all runs whose reads come earlier than d seconds after their bucket began keep the bound, if and only if d is at most the expiry of 120 |
| UploadLimits.WindowCounter.Prune | src/imghost/rate_limits.py:35-38 | drops events from the front until one is after the cutoff |
| UploadLimits.WindowCounter.Count | src/imghost/rate_limits.py:40-42 | prunes, then counts what is kept |
| UploadLimits.WindowCounter.BytesUsed | src/imghost/rate_limits.py:44-46 | prunes, then sums what is kept |
| UploadLimits.InMemoryRateLimiter.EnforceCounter | src/imghost/rate_limits.py:92-107 | the verdict is that of the last minute's uploads, for the request limit and for the hourly byte limit |
| UploadLimits.InMemoryRateLimiter.EnforceUserUpload | src/imghost/rate_limits.py:59-90 | verdict and new window of a user; no other window changes |
| UploadLimits.InMemoryRateLimiter.EnforceAnonymousUpload | src/imghost/rate_limits.py:59-90 | the actor's window is judged first, the shared one only then; an admitted upload is charged to both, a refused one to none |
| UploadLimits.DequesAgreeWithHistory | src/imghost/rate_limits.py:31-107 | at any time each deque pruned to a minute is exactly the admitted uploads of that minute, the shared one holding those of all anonymous actors |
| UploadLimits.MinuteBounds | src/imghost/rate_limits.py:31-107 | in every run any minute holds at most the request limit of admissions and at most the byte limit of bytes, for every scope |
| UploadLimits.DeniedAddsNothing | src/imghost/rate_limits.py:59-107 | a refused request is charged to no scope |
| UploadLimits.AdmittedWholeIffCompliant | src/imghost/rate_limits.py:59-107 | all requests of a run are admitted exactly when in every scope each upload fits with those of the minute before it |
| UploadHours.HourHoldsSixtyMinutes | src/imghost/rate_limits.py:92-107 | in every run any hour of any scope holds at most sixty times what a minute can: the byte limit, or the request limit times the largest upload |
| UploadHours.SixtyPackets | src/imghost/rate_limits.py:59-107 | a user, or an anonymous actor under shared limits with as much room, gets sixty times what fits in a minute through in an hour, by uploads of at most any given size |
| UploadHours.HourlyBytesAreNotBounded | src/imghost/rate_limits.py:92-107 | for every limits and largest upload a run of a user, or of an anonymous actor, gets sixty times through what its own limits, and for the actor the shared ones, have room for in a minute |
| UploadHours.HourlyLimitHoldsIff | src/imghost/rate_limits.py:92-107 | the hourly byte limit of a user or an anonymous actor holds in every run if and only if sixty minutes of the request limit times the largest upload do not exceed it, or, for an actor, sixty minutes of the shared request limit or of the shared byte limit do not |
| UploadHours.SharedHourlyLimitHoldsIff | src/imghost/rate_limits.py:59-107 | the hourly byte limit of all anonymous uploads together holds in every run if and only if sixty minutes of the shared request limit times the largest upload of one actor do not exceed it |
| RedisUploadLimits.RedisScope.SumBuckets | src/imghost/rate_limits.py:173-212 | the loop sums exactly the fields of the last sixty buckets and finds exactly the stale ones |
| RedisUploadLimits.RedisScope.EnforceCounter | src/imghost/rate_limits.py:173-212 | keys, fields, expiries and verdict after one call |
| RedisUploadLimits.HourlyBytesBound | src/imghost/rate_limits.py:150-212 | in every serial run any sixty consecutive minute buckets admit at most the byte limit |
| RedisUploadLimits.NothingInTheWindowIsDiscarded | src/imghost/rate_limits.py:173-212 | deleting stale fields and the key's expiry never lose bytes still in the window |
| RedisUploadLimits.RequestBound | src/imghost/rate_limits.py:173-212 | in every serial run a minute bucket admits at most the request limit |
| RedisUploadLimits.RefusedUploadsAreCharged | src/imghost/rate_limits.py:150-171 | an upload is charged to its actor exactly when the actor's own limits allow it, whatever the shared ones say |
| RedisUploadLimits.SecondActorPaysForNothing | src/imghost/rate_limits.py:150-171 | from empty stores, a second actor's first upload is refused by the shared limits and charged to that actor |
| RedisUploadRaces.RequestCounterBound | src/imghost/rate_limits.py:173-212 | with at most k calls in flight, in every interleaving of their commands, the counter of a minute never exceeds the request limit + k - 1 |
| RedisUploadRaces.StoredBytesBound | src/imghost/rate_limits.py:173-212 | however the commands interleave and however slow a call is, what the hash holds for any sixty consecutive minutes never exceeds the byte limit by more than k - 1 largest uploads |
| Thumbnails.RetryableExactly | src/imghost/service.py:504-526 | a failure is final at once exactly for a missing processor or a message about extracting metadata |
| Thumbnails.StoreFailureExactly | src/imghost/service.py:504-518 | for every message, a failure is reported as a store failure exactly when it speaks of storing or writing a thumb, not of a thumbnail unless of a cleanup, and not of extracting metadata |
| Thumbnails.StoreFailureIsMisread | src/imghost/service.py:504-518 | a message with `thumbnail_store` is recognised exactly when it also speaks of a cleanup and not of extracting metadata |
| Thumbnails.PathErrorIsMisread | src/imghost/storage.py:109-115 | an error that names a path under `thumbnails` is reported as a store failure exactly when it also speaks of a cleanup and of storing, and not of extracting metadata |
| Thumbnails.DiskFullIsMisread | src/imghost/storage.py:109-115 | a full disk is reported as a generation failure |
| Thumbnails.UploadService.UpdateThumbnailState | src/imghost/repository_media.py:409-438 | the four columns of the row, or the failure: the call's own, or not found |
| Thumbnails.UploadService.DeleteWritten | src/imghost/service.py:435-443 | what was written is gone, or counted as leaked when its deletion fails |
| Thumbnails.UploadService.MakeThumbnail | src/imghost/service.py:390-426 | the first failing call decides; without one the row shows the thumbnail and its blob; with one the row shows none and at most one blob is unaccounted for; a put that fails with the file open leaves exactly its part of the blob |
| Thumbnails.UploadService.GenerateThumbnail | src/imghost/service.py:365-502 | under any failures and a concurrent deletion: the row is sound (finished with its blob or as the original, or without trace of a thumbnail), a blob without row is one whose deletion failed or that a failing put left, success exactly when nothing fails, and the state, outcome and reason of each failure |
| Thumbnails.RunJob | src/imghost/tasks.py:316-372 | the retried job: the row stays sound at every attempt, a written blob is lost only if a deletion failed in an attempt that was made, the blobs left by failing puts are those of the attempts made, and unless in an attempt that is made the row is deleted, unreadable or not updatable, it ends finished or failed, finished exactly when the last attempt met no failure |
| Thumbnails.TornExactly | src/imghost/storage.py:112-115 | after any attempts, a key holds a blob left by a failing put exactly when a put of one of them failed with the file open, or it was so before, and no attempt since wrote it |
| Thumbnails.RunJobAndCount | src/imghost/service.py:400-410 | after a job, a blob that the row does not name and no failed deletion explains is there exactly when that is so of the attempts made |
| Thumbnails.DiskFullJob | src/imghost/service.py:365-502 | a job that meets a full disk fails after all its attempts, no deletion fails, and the partial blob is left |
| AlbumOrder.Album.ListMedia | src/imghost/repository_media.py:470-474 | every row once, in order of position, ties in any order |
| AlbumOrder.Album.Append | src/imghost/repository_media.py:306-348 | the new media is 1000 after the largest position, or at 1000 in an empty album; a taken id changes nothing |
| AlbumOrder.Album.Delete | src/imghost/repository_media.py:484-488 | that row is gone and nothing else |
| AlbumOrder.Album.UpdatePositions | src/imghost/repository_media.py:499-510 | the rows that exist get the given positions |
| AlbumOrder.Album.Reorder | src/imghost/service.py:640-687 | the errors in the order they are checked, changing nothing; otherwise the same media, gaps of at least 2, in the order of the merged positions, which are kept when they have the gaps |
| AlbumOrder.NeedsRebalance | src/imghost/service.py:945-949 | true exactly when some neighbours are closer than 2 |
| AlbumOrder.NeighboursSuffice | src/imghost/service.py:945-949 | on a listing, the test over neighbours is the test over all pairs |
| AlbumOrder.ListingIsUnique | src/imghost/repository_media.py:470-474 | without ties the order of a listing is determined |
| AlbumOrder.OrderIsTheMergedOrder | src/imghost/service.py:667-671 | what the album lists after a reordering, renumbered or not, is in the order of the requested positions, and without ties among those that is the one order there is |
| AlbumOrder.RenumberedIsReordered | src/imghost/service.py:669-671 | renumbering keeps the media and their strict order and restores the gaps |
| AlbumOrder.ValidatedExactly | src/imghost/service.py:654-665 | a payload passes exactly when its media are in the album and distinct, and then is the map of its entries and nothing else |
| AlbumOrder.GapsInEveryRun | src/imghost/service.py:654-671 | over every run of append, reorder and delete, no two positions are ever closer than 2 |
| AlbumOrder.OrderIsStable | src/imghost/service.py:654-671 | two media keep their order through every run of calls that do not name them |
| AlbumOrder.AppendedIsListedLast | src/imghost/repository_media.py:306-348 | a new media is listed last, after all others in their order |
| AlbumOrder.AppendsListInOrder | src/imghost/repository_media.py:306-348 | after any run of appends the album lists what it listed before and then the new media in the order they came |
| AlbumOrder.GapsListOnce | src/imghost/repository_media.py:470-474 | an album with gaps has one listing |
| AlbumOrder.AppendBetweenWrites | src/imghost/service.py:668-671 | an append whose two commands both fall between the two writes keeps the gaps exactly when its position keeps away from the round numbers |
| AlbumOrder.AppendBetweenWritesCanBreakTheGaps | src/imghost/service.py:668-671 | a case in which it does not |
| AlbumRaces.GapsSurviveRaceIff | src/imghost/repository_media.py:306-348 | however the commands of an append and a reordering interleave, the gaps survive exactly when the reordering's first write saw the new media or the position the append had read is not next to one that the reordering leaves |
| AlbumRaces.CollisionExactly | src/imghost/repository_media.py:499-510 | those positions are the ones asked for when they have the gaps, and otherwise the round numbers |
| AlbumRaces.EveryAlbumCanBreak | src/imghost/repository_media.py:306-348 | in every album that is not empty, a reordering between the two commands of an append that moves any one media makes a tie, without renumbering |
| AlbumRaces.InvInEveryRun | src/imghost/repository_media.py:499-510 | what either party has seen and done determines the rows, in every interleaving |
| ArchiveNames.SeenNames.ArchiveName | src/imghost/service.py:873-892 | the item's own name if free, else the first free numbered one, found within as many tries as there are names, plus one |
| ArchiveNames.NameAll | src/imghost/service.py:765-776 | every item gets the name it must, and no name twice, for every list |
| ArchiveNames.AttemptsDiffer | src/imghost/service.py:884-892 | different numbers make different names |
| ArchiveNames.OwnNameIffFree | src/imghost/service.py:881-883 | an item keeps its own name exactly when no earlier item was given it |
| ArchiveNames.NamesAreDetermined | src/imghost/service.py:765-776 | the items determine the names |
| ArchiveNames.CandidateIsSafe | src/imghost/service.py:894-906 | whatever the stored file name, the cleaned one has no separator, control or reserved character and is not empty, "." or ".." |
| ArchiveNames.AttemptKeepsExtension | src/imghost/service.py:884-892 | a numbered name is safe and keeps the extension |
| ArchiveNames.PicksAreSafe | src/imghost/service.py:873-906 | every name given is safe to unpack and has its item's extension |
| Capabilities.CapabilityTable.Create | src/imghost/repository_media.py:30-53 | a row is inserted unless the selector is taken |
| Capabilities.CapabilityTable.Consume | src/imghost/repository_media.py:82-99 | marks and returns the row exactly when it is unspent, of that album and not expired; it cannot be consumed again |
| Capabilities.CapabilityTable.Revoke | src/imghost/repository_media.py:101-129 | marks and counts the owner's unspent rows; none is left |
| Capabilities.ConsumedAtMostOnce | src/imghost/repository_media.py:82-129 | in every interleaving a capability is consumed at most once, never both consumed and revoked, only for its own album and before its expiry |
| Capabilities.DeletesAtMostOnce | src/imghost/web/pages.py:390-429 | concurrent confirmations reach delete_album at most once for each capability, after consuming it |
| Capabilities.DeadForever | src/imghost/repository_media.py:101-164 | once revoked or deleted, a capability is never consumed in the rest of any run |
| Capabilities.LateConfirmation | src/imghost/web/pages.py:398-410 | whatever happens between the two reads of a confirmation that lost, it ends in the page "deleted" if and only if the row it read was consumed for the same user and the album is gone when it is read |
| Capabilities.LatePageMeansDeletionBetween | src/imghost/web/pages.py:398-410 | when the row was the album's own, the page "deleted" means that the album was there at the first read and that a step between the reads deleted it |
| Capabilities.LatePageCanBeShown | src/imghost/web/pages.py:397-414 | a run in which that happens |
| Capabilities.InvInEveryRun | src/imghost/repository_media.py:30-164 | rows remember exactly what happened to them, and foreign keys hold, in every run |
| SvgSanitizer.RemoveDangerousElements | src/imghost/media_processors/svg.py:82-88 | removal in place during iteration, with its recursion, ends and leaves exactly the recursively filtered tree; a clean tree is untouched |
| SvgSanitizer.ScrubAttributes | src/imghost/media_processors/svg.py:70-80 | exactly the attributes that may stay are left, with their values |
| SvgSanitizer.IsUnsafeExternalRef | src/imghost/media_processors/svg.py:90-96 | unsafe exactly when the value does not start with "#" |
| SvgSanitizer.SanitizeSvg | src/imghost/media_processors/svg.py:67-80 | what can be read off the heap afterwards is the specified tree |
| SvgSanitizer.FilterIsClean | src/imghost/media_processors/svg.py:82-88 | no dangerous element is left below the root, at any depth |
| SvgSanitizer.SanitizedIsSafe | src/imghost/media_processors/svg.py:67-99 | below the root no dangerous element, anywhere no event handler, style or reference outside the document |
| SvgSanitizer.UnchangedIffSafe | src/imghost/media_processors/svg.py:67-99 | exactly the safe documents are left alone |
| SvgSanitizer.SanitizingTwice | src/imghost/media_processors/svg.py:67-99 | a second pass changes nothing |
| SvgSanitizer.SanitizedInDocumentOrder | src/imghost/media_processors/svg.py:67-99 | the result is what one scan over the document order keeps: kept elements keep order, depth, text and tail, and what is missing is dangerous or inside something that is |
| SvgSanitizer.TailGoesToo | src/imghost/media_processors/svg.py:82-88 | the text after a dangerous element is lost with it, whatever it is |
| SvgSanitizer.CallsByDepth | src/imghost/media_processors/svg.py:82-88 | the recursive calls are one for the root and, for each element left d levels below it, two to the power of d - 1 |
| SvgSanitizer.ChainDoubles | src/imghost/media_processors/svg.py:82-88 | n nested elements below a root cost two to the power of n calls |
| ByteRanges.AcceptedIffMeant | src/imghost/storage.py:44-83 | a range is accepted exactly when the header writes one of the three forms of section 14.1.2 of RFC 9110 and that form selects bytes of the file, and then it is exactly those bytes |
| ByteRanges.AcceptedIsInside | src/imghost/storage.py:44-83 | 0 <= start <= end < size |
| ByteRanges.PrintedIsRead | src/imghost/storage.py:24-35 | a printed range, read for a file of any size, is the same range cut to the file, or refused when it starts after the end |
| ByteRanges.DoubleNormalisedIffSizeRight | src/imghost/web/media.py:29-36 | reading, printing and reading again is reading once, for every header, exactly when the recorded size is not above the file's, or not positive |
| ByteRanges.Chunks | src/imghost/storage.py:152-161 | the chunks together are exactly the bytes asked for, none empty, none over 64 KiB, all but the last full; the loop ends |
| ByteRanges.GetStream | src/imghost/storage.py:137-169 | status, length, content range and body for each header |
| FrameSampling.NeverHalf | src/imghost/media_processors/image.py:248 | exact rounding never meets a half, so it is to the nearest |
| FrameSampling.SampleGap | src/imghost/media_processors/image.py:246-249 | consecutive samples differ by the floor or the ceiling of (count - 1) / 99 |
| FrameSampling.FrameIndexesExactly | src/imghost/media_processors/image.py:243-249 | all frames of up to 100; else exactly 100 strictly increasing indexes from the first to the last, each nearest to its even spacing |
| Redaction.RedactHidesSecrets | src/imghost/telemetry/redaction.py:49-64 | whatever the URL cleaner does, at any depth what is under a secret key is the mark |
| Redaction.RedactedIffUnchanged | src/imghost/telemetry/redaction.py:49-64 | redaction leaves alone exactly the values that hold no secret and no URL to clean |
| Redaction.RedactIsRedacted | src/imghost/telemetry/redaction.py:49-64 | the result holds no secret and only clean URLs exactly when each URL of the value is clean after one cleaning |
| Redaction.RedactTwice | src/imghost/telemetry/redaction.py:49-64 | redacting twice is redacting once exactly when that is so of cleaning each URL of the value |
| Redaction.RedactForgetsOnlySecrets | src/imghost/telemetry/redaction.py:49-64 | two values redact to the same exactly when they differ only under secret keys and in what cleaning takes out of URLs |
| Redaction.SanitizeUrl | src/imghost/telemetry/redaction.py:67-87 | the loop with its flag computes the cleaned URL |
| Redaction.CleanUrlHides | src/imghost/telemetry/redaction.py:67-87 | whatever can be read of a cleaned URL has every secret parameter hidden and no other changed, lost or added |
| Redaction.CleanUrlTwiceExactly | src/imghost/telemetry/redaction.py:67-87 | cleaning twice is cleaning once exactly when the rest read from what was built builds it again |
| Redaction.CleanUrlTwiceCanDiffer | src/imghost/telemetry/redaction.py:67-87 | a text that is cleaned differently the second time, and one that is not |
| Redaction.CleanUrlTwice | src/imghost/telemetry/redaction.py:67-87 | so it is for every text that does not begin with a control character |
| Redaction.RedactMetadataTwice | src/imghost/telemetry/redaction.py:32-33 | with this cleaner, metadata whose URLs do not begin so is redacted once and for all |
| Text.ParsePrinted | src/imghost/storage.py:29-31 | reading a printed number gives it back |

## Left out

- AlbumOrder.GapsInEveryRun: calls are serial; one append racing one reordering is `AlbumRaces`, and two reorderings at once are not modelled. Positions are unbounded, while the column is 64 bits wide and an overflow raises.
- RedisFailureLock.LostExpiryBound: a failure's commands happen at one time, and of them only EXPIRE raises: a failure whose INCR raises is not counted, and one whose SET raises does not lock.
- UploadHours.SharedHourlyLimitHoldsIff: all anonymous actors have the same limits, as the configuration gives them, and there is no end of actors.
- RedisAttemptCounter.AdmissionBound: the calls of sixty seconds are those that started in them, which is what their buckets go by, not those let through in them.
- RedisUploadLimits.HourlyBytesBound: calls are serial; with calls in flight see `RedisUploadRaces.StoredBytesBound`.
- RedisUploadRaces.StoredBytesBound: what is stored, not what was ever admitted: a slow call can find fields of its window deleted as stale for a later minute, or its own bytes expired with the hash before its EXPIRE. That the bounds are reached is not shown.
- SvgSanitizer.CallsByDepth: the calls are counted on values, as the two loops make them; the methods on the heap carry no counter.
- ByteRanges.AcceptedIffMeant: digits are ASCII, and numerals of more than 4300 digits, which Python refuses to convert, are read.
- FrameSampling.FrameIndexesExactly: exact rationals; the code divides in floating point.
- Redaction.CleanUrlHides: urllib is a parameter. It is assumed that what is built from a text has, if it can be read, the parameters it was built with; and for `Redaction.CleanUrlTwice`, that the rest read from it makes the same text again unless the text began with a control character. A lone surrogate in a query, which urlencode refuses, raises. Keys are strings.
- Thumbnails.UploadService.GenerateThumbnail: telemetry and logging do not raise; one job at a time for a media; what the processors do with the bytes.
- The hash of identifiers, the fallback from Redis to the in-memory limiters and its telemetry.
- RedisTaskQueue: its result handling follows the asynchronous queue's; its join and the loss of a job taken by a crashed worker promise nothing firm.
- Restarting a stopped queue, and cancelling workers.
- The album that is deleted with its last media, storage keys of deleted media, events and audit records.
- Access checks, routes, cookies, templates and scripts of the web application.
- The S3 backend, runtime configuration, command line, metrics and quotas.
- Pillow, ffmpeg, cairosvg, parsing of XML, hashing and signing.
