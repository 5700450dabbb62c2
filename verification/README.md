# Rinjani CTI platform: verified model of its core algorithms

This Dafny project models the stateful and algorithmic heart of the Rinjani threat-intelligence
platform and proves what it is relied on for. `dafny verify dfyconfig.toml` checks all of it.

Each component is one module or a few:

- `EditDistance`, `DomainPermutations`, `VariantShapes`: the typo-squat generator (nine algorithms, cap, deduplication),
  the two-row Levenshtein program, the alert score, and what exactly each algorithm lists. An edit script is a list of
  inserts, deletes and replacements that can be played on a string; the program is proved to return the length of a
  shortest one.
- `BootLock`: the lease on one Redis key that decides which process runs the background services. Processes interleave
  at every Redis command and every reply; crashes, delays and clock progress are events like the others.
- `CsvScanner`: the feed engine's quote-aware CSV scanner, against a printer for section 2 of RFC 4180.
- `JobQueue`, `JobRuns`, `JobHistory`: the in-memory job queue, its processor cut at the handler's await, all runs of
  enqueues, ticks, completions and cleanups, and what each field of a job means in terms of its history.
- `IocMerge`, `IocOrder`: merging and upserting indicators, batches and tag cleaning; what a batch leaves behind for each
  value, in any order.
- `Scheduler`: reconciling BullMQ's repeatable jobs with the registry from arbitrary stored contents.
- `ConditionDsl`: the playbook condition evaluator and its legacy and operator syntaxes.
- `CircuitBreaker`: the three-state breaker with calls that overlap at their await.
- `RateLimiter`, `RateVerdicts`: the fixed-window counters and penalty keys, many requests interleaved at every await.
- `CefFormatter`: CEF escaping, record building, and a reader that inverts it.
- `ResponseCache`: the gateway's bounded, expiring response cache.
- `Text`: the shared string primitives (ASCII case folding, trimming, last occurrence).

Code that changes state is a class or a method with the loops of the source, proved equal to a function of the old
state; theorems about whole runs are then proved about these functions, over every sequence of events.

Where the code does something other than its comments or a reader would expect, the code is followed, and lemmas
state what it does instead and when:

- Boot lock: an active heartbeat does not always mean ownership. `BootLock.HeartbeatMeansOwnershipIff` gives the exact
  condition step by step; a late heartbeat, and a release that overtakes the reply to an acquisition or the
  acquisition itself, each break it. `onReclaim` can run twice; exactly when is `BootLock.ReclaimFiresOnceIff`.
- CSV: rows without fields, or with one empty field, are dropped; nothing else is lost (`CsvScanner.RoundTripIff`).
- Jobs: a handler that rejects with null or undefined makes the catch block throw, and its job stays in processing.
  A `maxAttempts` of 0 means 3, and a negative one still allows one attempt.
- Merge: incoming tags are lost when the stored list has at least as many duplicates as there are new tags; a stored
  confidence of 0 gives way to a negative one; the existing row is looked up by normalised value alone, although the
  comment speaks of the canonical ID, which includes the type (`IocMerge.AbsorbedAcrossTypesIff`).
- Scheduler: a duplicate with the current pattern in another managed queue survives. An empty cron would be swept again
  right after being scheduled; neither the registry nor a preset has one today.
- Circuit breaker: half-open admits every call, although the header comment promises one probe; what callers would have
  to keep for that is `CircuitBreaker.OneProbeIff`.
- Rate limiter: the windows are fixed although the comments call them sliding; for which intervals the limit holds is
  `RateLimiter.LimitHoldsIff`. A delay of more than one second between the clock reading and INCR can exceed the limit
  of a window; exactly what must not happen is `RateLimiter.CountsApartIff`. In the last half second of a penalty its
  client can be admitted.
- CEF: a line feed in the indicator type breaks the record's line; in every other field it is escaped.
- Domain splitting: a leading dot in front of a two-component suffix yields an empty label instead of an error. Unlike
  the generator, the scorer does not trim the apex (`DomainPermutations.EmittedPermutationCredits`).
- Cache: setting a key again renews its age but not its place in the eviction order
  (`ResponseCache.DroppedOnlyForTwoHundredOthers`).

## Model

| member | source | states |
|---|---|---|
| `EditDistance.Levenshtein` | packages/core/src/domainPermutations.ts:227-242 | the two-row program, early returns and row copy included, returns the edit distance of its arguments, for all strings |
| `EditDistance.DistanceIsMinimalScript` | packages/core/src/domainPermutations.ts:226-242 | that number is the length of a shortest insert/delete/replace script: one of that length turns `a` into `b`, and no shorter one does |
| `EditDistance.ScriptBoundsDistance` | packages/core/src/domainPermutations.ts:226-242 | no script, however it wanders, is shorter than the distance between where it starts and where it ends |
| `EditDistance.DistanceIsMetric` | packages/core/src/domainPermutations.ts:226-242 | zero exactly for equal strings, symmetric, triangle inequality, and at least the difference in length |
| `DomainPermutations.SplitApexRejoins` | packages/core/src/domainPermutations.ts:68-87 | label, dot and TLD give back the trimmed lower-cased apex; exactly which inputs are rejected, and why |
| `DomainPermutations.SuffixIs` | packages/core/src/domainPermutations.ts:68-88 | where a name splits: at the last dot, or at the dot before when the last component has two characters and there is one |
| `DomainPermutations.SplitNameEmptyLabel` | packages/core/src/domainPermutations.ts:71-87 | the two-component rule can still return an empty label: exactly for a leading dot in front of a two-component suffix |
| `DomainPermutations.GenerateBitsquat` | packages/core/src/domainPermutations.ts:91-104 | its nested loops push exactly the host-name single-bit flips, in order |
| `DomainPermutations.GenerateHomoglyph` | packages/core/src/domainPermutations.ts:106-115 | pushes every look-alike replacement, position by position |
| `DomainPermutations.GenerateInsertion` | packages/core/src/domainPermutations.ts:117-129 | pushes each neighbouring key before and after each character |
| `DomainPermutations.GenerateOmission` | packages/core/src/domainPermutations.ts:131-138 | pushes every one-character deletion, none for labels of two or fewer characters |
| `DomainPermutations.GenerateSubstitution` | packages/core/src/domainPermutations.ts:140-148 | pushes every neighbouring-key replacement |
| `DomainPermutations.GenerateTransposition` | packages/core/src/domainPermutations.ts:150-157 | pushes every adjacent swap that changes the label |
| `DomainPermutations.GenerateVowelSwap` | packages/core/src/domainPermutations.ts:159-170 | pushes every replacement of a vowel by another |
| `DomainPermutations.GenerateHyphenation` | packages/core/src/domainPermutations.ts:172-181 | pushes every inner hyphen that has no hyphen beside it |
| `DomainPermutations.GenerateSubdomain` | packages/core/src/domainPermutations.ts:183-185 | the six fixed prefixes |
| `VariantShapes.VariantIff` | packages/core/src/domainPermutations.ts:91-190 | for every algorithm, which strings are listed: exactly the label with one change of its kind at one position (one binary digit of one character, a look-alike, a touching key instead of or beside a character, a character left out, two neighbours exchanged, a vowel for a vowel, an inner hyphen between others than hyphens), or behind a prefix |
| `VariantShapes.FlipIff` | packages/core/src/domainPermutations.ts:91-104 | flipping some bit of one ASCII character gives another exactly when they differ in one binary digit |
| `VariantShapes.AdjacentIsTouching` | packages/core/src/domainPermutations.ts:42-49 | the adjacency table lists exactly the keys that touch on a keyboard whose rows are shifted by half a key |
| `VariantShapes.HomoglyphIsLookAlike` | packages/core/src/domainPermutations.ts:53-60 | the look-alike table is the usual reading of digits and symbols as letters, and of the few letters and pairs that look like a letter |
| `DomainPermutations.FirstOfIs` | packages/core/src/domainPermutations.ts:205-222 | a cap keeps that many variants from the front; a negative one leaves out that many at the end |
| `VariantShapes.LeftToRight` | packages/core/src/domainPermutations.ts:91-190 | variants are listed by position, then by alternative, which decides what a cap keeps |
| `VariantShapes.OncePerPosition` | packages/core/src/domainPermutations.ts:91-180 | how often a position is listed at most: once by the algorithms with one change per position |
| `DomainPermutations.VariantDistance` | packages/core/src/domainPermutations.ts:91-185 | for every label and TLD, a variant of any algorithm is never the apex, and it is within edit distance 2 of it exactly when the algorithm is not the subdomain one |
| `DomainPermutations.KeepFirstExact` | packages/core/src/domainPermutations.ts:208-219 | the seen-set loop keeps each value once, at its first occurrence, and never the apex |
| `DomainPermutations.AddVariants` | packages/core/src/domainPermutations.ts:213-218 | one round of the driver extends the kept list as if all candidates so far had been filtered at once |
| `DomainPermutations.GeneratePermutations` | packages/core/src/domainPermutations.ts:205-222 | the driver returns the filtered candidates of all nine algorithms under the cap, default 500 |
| `DomainPermutations.PermutationSetExact` | packages/core/src/domainPermutations.ts:205-222 | values pairwise distinct and never the apex; exactly the union of the first `cap` variants of each algorithm minus the apex; each credited to the first algorithm that produces it; at most 9 * cap; rejected exactly when the apex does not split |
| `DomainPermutations.ScoreAlert` | packages/core/src/domainPermutations.ts:260-276 | the score is the sum of the four credits, the last one decided by the true edit distance, and never exceeds 100 |
| `DomainPermutations.EmittedAroundTheApex` | packages/core/src/domainPermutations.ts:205-222 | for every apex that splits, trimmed or not, nothing emitted is the trimmed apex, and distance 2 from it separates the subdomain look-alikes from the rest |
| `DomainPermutations.EmittedPermutationCredits` | packages/core/src/domainPermutations.ts:205-276 | generator and scorer agree, for every apex that splits: an emitted permutation earns the suffix credit exactly when the apex does not end in white space; a subdomain look-alike never earns the distance credit and, for a trimmed apex, everything else does; one white-space character around the apex leaves the credit to every variant at distance one, three or more cost it to all |
| `BootLock.Redis.SetNxPx` | apps/api/src/lib/bootlock.ts:52 | takes the key when it is free or expired, and only then |
| `BootLock.Redis.ExtendIfOwner` | apps/api/src/lib/bootlock.ts:182-188 | extends a live key of this owner; any other key is untouched |
| `BootLock.Redis.DeleteIfOwner` | apps/api/src/lib/bootlock.ts:150-156 | deletes a live key of this owner; any other key is untouched |
| `BootLock.ProcessLock.TryAcquire` | apps/api/src/lib/bootlock.ts:49-70 | answers whether the key was free and starts the heartbeat exactly then |
| `BootLock.ProcessLock.RefreshLock` | apps/api/src/lib/bootlock.ts:179-199 | keeps the heartbeat exactly while the key is still owned |
| `BootLock.ProcessLock.Release` | apps/api/src/lib/bootlock.ts:146-163 | stops the heartbeat and frees the key only if it is owned |
| `BootLock.HoldsExactlyDuringLease` | apps/api/src/lib/bootlock.ts:49-199 | in every interleaving, no timing assumed: a process owns the key exactly while the last lease Redis gave it has neither run out nor been given back, so no two hold a lease at once |
| `BootLock.OwnsIff` | apps/api/src/lib/bootlock.ts:49-199 | who owns the key, from the events alone: a process, exactly when some SET that found no live key, or some heartbeat script that found its own, gave it a lease less than 30 s ago and it has not released it since |
| `BootLock.LeaseFromLastRenewal` | apps/api/src/lib/bootlock.ts:49-199 | an owned key expires exactly 30 s after the last such event: no heartbeat script and no release of the owner has run since |
| `BootLock.HeartbeatsKeepTheLock` | apps/api/src/lib/bootlock.ts:165-199 | a process that owns the key in a reachable world owns it throughout a run from there if and only if it does not release it and a heartbeat script of its runs before each lease ends |
| `BootLock.StateFromHistory` | apps/api/src/lib/bootlock.ts:49-199 | over every run: a heartbeat, poller or release is on exactly as the last event of the process that bears on it says, and the callback has run once for each win taken up |
| `BootLock.RepliesConserved` | apps/api/src/lib/bootlock.ts:49-199 | over every run: replies under way plus replies taken up are what Redis answered, for SETs, polls and heartbeats |
| `BootLock.AcquireIsRun` | apps/api/src/lib/bootlock.ts:49-70 | an uninterrupted acquisition is a run of the interleaved protocol with the same effect |
| `BootLock.RefreshIsRun` | apps/api/src/lib/bootlock.ts:179-199 | so is an uninterrupted heartbeat |
| `BootLock.ReleaseIsRun` | apps/api/src/lib/bootlock.ts:146-163 | and so is an uninterrupted release |
| `BootLock.NoDirectHandover` | apps/api/src/lib/bootlock.ts:49-199 | no step passes the key from one owner to another, and only its owner frees or extends a live key |
| `BootLock.HeartbeatMeansOwnershipIff` | apps/api/src/lib/bootlock.ts:49-199 | the exact condition, over every interleaving: at every moment of a run each active heartbeat means ownership if and only if no lease runs out under a heartbeat, no OK is taken up after its lease has run out, and no process with a heartbeat deletes its own key; then no two ever have one |
| `BootLock.GuardedStepIff` | apps/api/src/lib/bootlock.ts:49-199 | the same for one step, from any consistent world in which heartbeats mean ownership |
| `BootLock.MutualExclusion` | apps/api/src/lib/bootlock.ts:49-199 | two assumptions a caller can see to (heartbeats extended in time; no release while an acquisition is unanswered and no request while releasing) are enough for it |
| `BootLock.OrderlyIsGuarded` | apps/api/src/lib/bootlock.ts:49-199 | runs under those assumptions meet the exact condition |
| `BootLock.LateHeartbeatBreaksExclusion` | apps/api/src/lib/bootlock.ts:165-199 | the time assumption is needed: a run with one heartbeat a TTL late has two active heartbeats |
| `BootLock.ReleaseRaceBreaksExclusion` | apps/api/src/lib/bootlock.ts:49-70 | a release that overtakes an unanswered acquisition leaves two active heartbeats with no time passing |
| `BootLock.ReacquireRaceBreaksExclusion` | apps/api/src/lib/bootlock.ts:122-163 | so does a SET still on its way when the release begins, executed before the release script deletes the key |
| `BootLock.ReclaimFiresOnceIff` | apps/api/src/lib/bootlock.ts:118-143 | over every interleaving, no poller ever has run its callback, or owes it, more than once if and only if no tick wins the key while an earlier win is unanswered; overlap with a denied tick is harmless |
| `BootLock.SecondWinFiresTwice` | apps/api/src/lib/bootlock.ts:118-143 | any second win becomes a second run of the callback once the replies arrive |
| `BootLock.OverlappingTicksFireTwice` | apps/api/src/lib/bootlock.ts:118-143 | a reply that takes a whole TTL makes the callback run twice, against the comment |
| `BootLock.BoundedFailover` | apps/api/src/lib/bootlock.ts:122-143 | after a crash of the holder at t in any reachable world, a live process holds the lock at some moment before t + 2 * TTL, if one live process keeps polling every TTL |
| `CsvScanner.ParseCsv` | packages/feed-engine/src/extract.ts:15-34 | the character loop computes the scanner state machine and the blank-row filter, for every text and delimiter string |
| `CsvScanner.ScanByCharacter` | packages/feed-engine/src/extract.ts:15-33 | what any text means, well-formed or not: each character is taken by the parity of the quotes before it; a quote counts only right behind a closing one, delimiters, line feeds and carriage returns only outside quotes |
| `CsvScanner.ParsePrinted` | packages/feed-engine/src/extract.ts:14-34 | scanning any printing of section 2 of RFC 4180 (any quoting of the fields that do not need it, LF or CRLF per line, with or without the final newline) gives the printed rows without the blank ones |
| `CsvScanner.RoundTripIff` | packages/feed-engine/src/extract.ts:14-34 | the round trip is exact if and only if no row is empty or a single empty field |
| `CsvScanner.RecordCells` | packages/feed-engine/src/extract.ts:67-68 | with distinct trimmed header names a record has exactly those keys, each with its own cell, empty where the row is short |
| `CsvScanner.ExtractPrinted` | packages/feed-engine/src/extract.ts:62-69 | a printed table comes back as one record per data row, with exactly the header names and that row's cells |
| `JobQueue.SortIsStable` | packages/core/src/jobs.ts:76-80 | the queue order: sorted by priority, then creation; a permutation; equal keys keep their order |
| `JobQueue.Queue.Enqueue` | packages/core/src/jobs.ts:51-83 | appends the new job and re-sorts |
| `JobQueue.Queue.Tick` | packages/core/src/jobs.ts:131-154 | the part before the await: skips while busy, fails the first ready job if nobody handles it, otherwise takes it |
| `JobQueue.Queue.Finish` | packages/core/src/jobs.ts:156-173 | the part after the await: completion, retry with backoff, or failure; a null or undefined rejection leaves the job as it was |
| `JobQueue.Queue.CleanUp` | packages/core/src/jobs.ts:220-238 | splicing the stale jobs out one by one removes exactly them, keeps the order of the rest and counts them |
| `JobRuns.InvStep` | packages/core/src/jobs.ts:51-239 | each event keeps sortedness, the census of jobs, the tie between a job and its history, and every backoff |
| `JobRuns.OrderAndConservation` | packages/core/src/jobs.ts:51-83 | over every run: the array is sorted by priority, then creation time; each job ever enqueued is in it exactly once until a cleanup removes it, finished and older than its cutoff; nothing else is in it |
| `JobRuns.SingleFlight` | packages/core/src/jobs.ts:131-174 | over every run: the jobs in processing are exactly the awaited one and those whose handler rejected with null or undefined; at most one is in processing if and only if these are at most one |
| `JobRuns.NullRejectionBreaksSingleFlight` | packages/core/src/jobs.ts:160-173 | such a rejection does leave two jobs in processing |
| `JobRuns.TakesTheBest` | packages/core/src/jobs.ts:134-142 | the job a tick takes has the highest priority of the ready ones and is the oldest among equals, the earliest in the array among those |
| `JobHistory.TickDealsWithTheFirst` | packages/core/src/jobs.ts:131-154 | a tick does nothing exactly when a handler is awaited or no job is due; else it deals with the first due job by priority, then age: starts it if its kind has a handler, fails it otherwise |
| `JobHistory.StatusIff` | packages/core/src/jobs.ts:51-174 | over every run: completed if and only if the handler resolved; failed if and only if nobody handled the job or it was rejected with no attempt left; pending if and only if nothing happened yet or it was rejected with attempts left; processing if and only if its handler runs or rejected with null or undefined; attempts are handler starts |
| `JobHistory.JobIsItsHistory` | packages/core/src/jobs.ts:51-174 | over every run every field of a job is what its history says: the values and defaults it was enqueued with, its delay or backoff, its start and completion times |
| `JobHistory.LogIsHistory` | packages/core/src/jobs.ts:131-174 | the log the waiting times are stated about is the history's starts and rejections with their attempts |
| `JobHistory.Powers` | packages/core/src/jobs.ts:163-167 | the backoff's powers of two |
| `JobHistory.CleanUpExact` | packages/core/src/jobs.ts:220-238 | a cleanup in any reachable world keeps exactly the jobs that are not completed or failed, or not older than the cutoff |
| `JobRuns.AttemptsAndBackoff` | packages/core/src/jobs.ts:131-174 | over every run: attempts never exceed `maxAttempts` (at most one when that is below one), and a retry after the n-th failure starts at least 2^n seconds later |
| `JobRuns.FinishedIsFinal` | packages/core/src/jobs.ts:131-239 | no event changes a completed or failed job; only a cleanup with a later cutoff removes it |
| `JobRuns.BudgetStep` | packages/core/src/jobs.ts:131-174 | every event but an enqueue pays for a handler start out of the attempts left |
| `JobRuns.HandlerRunsAreBounded` | packages/core/src/jobs.ts:131-174 | with no new enqueues, from any reachable world, handlers run at most as often as the attempts left |
| `IocMerge.MergeIocData` | packages/core/src/deduplication.ts:144-193 | applying the partial update gives the merged value of each of the six fields |
| `IocMerge.ConfidenceIsMaxIff` | packages/core/src/deduplication.ts:147-152 | confidence takes the maximum except exactly when a stored 0 meets a negative value |
| `IocMerge.SeverityIsMax` | packages/core/src/deduplication.ts:154-162 | the incoming severity replaces the stored one exactly when it is more severe: later in the list from low to critical, the stored one being earlier, unknown or missing |
| `IocMerge.RankIsPosition` | packages/core/src/deduplication.ts:154-162 | the rank of a severity is its position in that list, below all for everything else |
| `IocMerge.OtherFieldsMerge` | packages/core/src/deduplication.ts:164-181 | the earliest first sighting, the latest last sighting, and a threat type that is only filled in |
| `IocMerge.CreatedIff` | packages/core/src/deduplication.ts:262-290 | an upsert answers created exactly when no row has the value, and adds a row that says what the input says |
| `IocMerge.SkippedOrUpdatedIff` | packages/core/src/deduplication.ts:205-258 | otherwise skipped exactly when the source is recorded, and then nothing but the last sighting can change, to the later one; updated exactly when it is not, and then the source is added and the identity stays |
| `IocMerge.TagUnionIff` | packages/core/src/deduplication.ts:183-190 | the tags become the union exactly when nothing is new or more tags are new than the stored list has duplicates |
| `IocMerge.TagUnionOfCleanTags` | packages/core/src/deduplication.ts:183-190 | a duplicate-free stored list always gets the union and stays duplicate-free |
| `IocMerge.Table.Upsert` | packages/core/src/deduplication.ts:199-290 | inserts, absorbs a known source by moving `lastSeen` only, or merges a new source and records it |
| `IocMerge.Table.BatchUpsert` | packages/core/src/deduplication.ts:295-322 | the batch loop applies the upserts in order and lists each one's answer; every count is the number of results with that action, together they are all results, and the table grows by the created ones, whatever fails |
| `IocMerge.BatchKeeps` | packages/core/src/deduplication.ts:199-322 | any batch keeps one row per normalised value, duplicate-free sources that only grow at the end, and every row's identity |
| `IocMerge.AbsorbedAcrossTypesIff` | packages/core/src/deduplication.ts:107-258 | with types compared as the canonical ID does (lower-cased, without a leading "hash-"): on a table with one row per value, an input is answered for a row of another type exactly when one with its normalised value is stored, and some row of another type changes exactly when, besides, its source is new to that row or its sighting later |
| `IocMerge.TwoTypesOneRow` | packages/core/src/deduplication.ts:196-258 | any two inputs of different canonical types and different sources with one normalised value end in one row of the first one's type |
| `IocMerge.CanonicalTypes` | packages/core/src/deduplication.ts:107-109 | the type as it enters the canonical ID: neither letter case nor a leading "hash-" matters |
| `IocOrder.ValuesDoNotInterfere` | packages/core/src/deduplication.ts:199-322 | whatever a batch holds and whatever fails: the row of a value afterwards is its row before, after the inputs for that value alone, in their order |
| `IocOrder.BatchValues` | packages/core/src/deduplication.ts:199-322 | a value has a row afterwards exactly when it had one before or a non-failing input normalises to it |
| `IocOrder.SourcesAfter` | packages/core/src/deduplication.ts:209-288 | inputs from new sources are recorded in order of arrival |
| `IocOrder.SummaryHolds` | packages/core/src/deduplication.ts:144-290 | a row, stored or new, sums up what it said before and all inputs from new sources: best confidence and dates, most severe, union of tags |
| `IocOrder.FirstThreatWins` | packages/core/src/deduplication.ts:164-290 | the one field that depends on the order: the row keeps its threat type or takes the first non-empty one |
| `IocOrder.OrderIndependence` | packages/core/src/deduplication.ts:144-322 | two orders of one batch, over any stored table and any mixture of values: for every value whose inputs come from new and distinct sources, both end with a row or neither does, and the rows agree in confidence, severity, dates, tag set and set of sources, those of the summary |
| `IocMerge.DedupTags` | packages/core/src/deduplication.ts:87-100 | the loop keeps the cleaned tags of the prefix read |
| `IocMerge.CleanTagsKeys` | packages/core/src/deduplication.ts:79-100 | the case-insensitive keys that come out are exactly those of the non-blank tags that went in |
| `IocMerge.CleanTagsFirstWriting` | packages/core/src/deduplication.ts:79-100 | each key comes out once, written as its first tag was |
| `Scheduler.Redis.RemoveRepeatableFor` | apps/api/src/queues/scheduler.ts:455-462 | removes every repeatable with the entry's name from its queue and nothing else |
| `Scheduler.Redis.ReconcileScheduledJob` | apps/api/src/queues/scheduler.ts:471-492 | replaces them by one with the effective cron, or by none if disabled |
| `Scheduler.Redis.SweepQueue` | apps/api/src/queues/scheduler.ts:533-555 | removes from one queue exactly the named repeatables without a desired pattern |
| `Scheduler.Redis.CleanupUnregistered` | apps/api/src/queues/scheduler.ts:521-558 | sweeps the five managed queues against the enabled names |
| `Scheduler.Redis.SetupScheduledJobs` | apps/api/src/queues/scheduler.ts:561-575 | reconciles the registry in order, then sweeps |
| `Scheduler.ReconciledEntries` | apps/api/src/queues/scheduler.ts:432-492 | what each key of each queue holds after reconciling any prefix of the registry |
| `Scheduler.FinalEntry` | apps/api/src/queues/scheduler.ts:432-575 | what each key of each queue holds after a set-up, from the registry and the initial contents |
| `Scheduler.NothingElseUnderTheName` | apps/api/src/queues/scheduler.ts:443-492 | no repeatable is left under an entry's name in its own queue except the one it owns |
| `Scheduler.EnabledIsScheduledIff` | apps/api/src/queues/scheduler.ts:471-558 | an enabled entry ends scheduled with its cron exactly unless that cron is empty and the sweep visits its queue |
| `Scheduler.EmptyCronNeedsEmptyDefault` | apps/api/src/services/scheduledJobOverrides.ts:36-39 | only a registry entry with an empty default can have an empty cron: no preset gives one |
| `Scheduler.Convergence` | apps/api/src/queues/scheduler.ts:561-575 | from any initial contents: exactly one repeatable per enabled entry with its effective cron, none per disabled one, in its own queue |
| `Scheduler.ConvergenceByOverride` | apps/api/src/queues/scheduler.ts:432-575 | said of the overrides: no override ends scheduled with the default, an enabled one with its preset or else the default, a disabled one not at all |
| `Scheduler.CronByOverride` | apps/api/src/queues/scheduler.ts:432-441 | the pattern an entry should run with, said of its override |
| `Scheduler.PresetsAreDistinct` | apps/api/src/services/scheduledJobOverrides.ts:19-39 | each of the seven presets has a pattern of its own, and nothing else has one |
| `Scheduler.PresetRuns` | apps/api/src/services/scheduledJobOverrides.ts:19-27 | read as a cron pattern, the pattern of a preset runs a job exactly when the preset means: every 15 or 30 minutes, every one, four or six hours, daily at two, Sundays at four |
| `Scheduler.SurvivorsAreDesired` | apps/api/src/queues/scheduler.ts:501-558 | every named survivor in a managed queue has an enabled name with its effective pattern |
| `Scheduler.SecondRunChangesNothing` | apps/api/src/queues/scheduler.ts:464-575 | a second run leaves every queue's schedule as it is |
| `Scheduler.StrayDuplicateIff` | apps/api/src/queues/scheduler.ts:501-558 | a job stays scheduled a second time in another managed queue exactly when that queue already had its name and current pattern under a key nobody there overwrites |
| `ConditionDsl.ReadNested` | packages/core/src/playbookDsl.ts:44-53 | the loop over the dotted parts reads the nested value, undefined below anything that is not an object |
| `ConditionDsl.PropertyIs` | packages/core/src/playbookDsl.ts:43-53 | reading a key gives what the object has under it, and undefined otherwise |
| `ConditionDsl.Comparisons` | packages/core/src/playbookDsl.ts:55-63 | the four comparisons on numbers, each with its complement; on anything else, a missing field included, none holds |
| `ConditionDsl.Equalities` | packages/core/src/playbookDsl.ts:65-85 | `$eq` and `$ne` are complements on everything, `$in` and `$nin` on every list; a plain list means `$in`, a plain value `$eq` |
| `ConditionDsl.OtherOperators` | packages/core/src/playbookDsl.ts:89-108 | `$exists`, `$regex`, and that an unknown operator is never satisfied |
| `ConditionDsl.Falsy` | packages/core/src/playbookDsl.ts:89-93 | which values count as false |
| `ConditionDsl.ConnectivesMean` | packages/core/src/playbookDsl.ts:114-148 | `$and` and `$or` over lists, `$not`, that they fail over anything but a list, that an operator in a field's place fails, and that a field is matched against what the event has under its name |
| `ConditionDsl.ConditionIsConjunction` | packages/core/src/playbookDsl.ts:114-148 | a condition holds when each of its entries does |
| `ConditionDsl.OtherConditions` | packages/core/src/playbookDsl.ts:114-147 | a list as a condition matches its items, and a text its characters, against what the event has under their indices; anything else that is not an object is always met |
| `ConditionDsl.IndexIsDecimal` | packages/core/src/playbookDsl.ts:117 | the keys of a list's entries are the decimal numbers without leading zeros |
| `ConditionDsl.ClauseIsConjunction` | packages/core/src/playbookDsl.ts:65-112 | so does a clause, and an entry without a dollar sign looks inside the value, which has to be an object |
| `ConditionDsl.SimilarMatch` | packages/core/src/playbookDsl.ts:65-112 | reordering the keys of a clause, at any depth, never changes a match |
| `ConditionDsl.KeyOrderIrrelevant` | packages/core/src/playbookDsl.ts:114-148 | conditions that are similar (equal up to key order at every depth) have the same verdict, for every event |
| `ConditionDsl.Reordered` | packages/core/src/playbookDsl.ts:114-148 | every reordering of an object's keys is similar to it |
| `ConditionDsl.Rearranged` | packages/core/src/playbookDsl.ts:114-148 | so is every reordering after similar changes inside the values, which reaches every depth |
| `ConditionDsl.SimilarToItself` | packages/core/src/playbookDsl.ts:114-148 | every value is similar to itself |
| `ConditionDsl.SyntaxesAgree` | packages/core/src/playbookDsl.ts:65-148 | rewriting legacy scalars to `$eq` and legacy arrays to `$in` throughout preserves every condition on every event |
| `ConditionDsl.RewriteLeavesNoLegacy` | packages/core/src/playbookDsl.ts:8-30 | the rewritten condition has no legacy clause left |
| `ConditionDsl.DeMorgan` | packages/core/src/playbookDsl.ts:117-134 | De Morgan's laws and double negation between `$not`, `$and` and `$or`, empty lists included |
| `ConditionDsl.SplitJoin` | packages/core/src/playbookDsl.ts:45-46 | splitting a dotted key gives back its parts |
| `ConditionDsl.NestedIffDotted` | packages/core/src/playbookDsl.ts:44-53 | a nested-object clause holds exactly when its dotted form does and every parent on the path is an object; otherwise the dotted form reads undefined |
| `CircuitBreaker.Breaker.Enter` | apps/api/src/lib/circuitBreaker.ts:85-95 | what a call does before it runs its function; it is turned away exactly when the breaker is open within the cooldown, and then nothing changes |
| `CircuitBreaker.Breaker.OnSuccess` | apps/api/src/lib/circuitBreaker.ts:114-126 | the new state after a success |
| `CircuitBreaker.Breaker.OnFailure` | apps/api/src/lib/circuitBreaker.ts:128-139 | the new state after a failure or a timeout |
| `CircuitBreaker.Breaker.Reset` | apps/api/src/lib/circuitBreaker.ts:142-147 | the new state after a reset |
| `CircuitBreaker.CountersStayBelowThresholds` | apps/api/src/lib/circuitBreaker.ts:85-147 | in every interleaving of starts, finishes, timeouts and resets: closed means fewer failures than the threshold and no successes; successes stay below theirs |
| `CircuitBreaker.ThresholdsMustBePositive` | apps/api/src/lib/circuitBreaker.ts:30-46 | that needs both thresholds to be at least one, exactly |
| `CircuitBreaker.OpenHoldsForTheCooldown` | apps/api/src/lib/circuitBreaker.ts:85-95 | from an open breaker reached by any run: no continuation within the cooldown of the last failure of that run, late finishes included, starts a call or leaves the open state, resets aside |
| `CircuitBreaker.LastFailureIsRecorded` | apps/api/src/lib/circuitBreaker.ts:128-139 | over every run the recorded time is that of the last failure among the events, in whatever state it happened, and a breaker only opens by failing |
| `CircuitBreaker.TurnedAwayIff` | apps/api/src/lib/circuitBreaker.ts:85-95 | after every run a call is turned away exactly when the breaker is open and less than the cooldown has passed since the last failure, and then nothing changes |
| `CircuitBreaker.FailedProbeRestartsTheCooldown` | apps/api/src/lib/circuitBreaker.ts:128-139 | a probe that fails at t opens the breaker again, and no call starts before t plus the cooldown |
| `CircuitBreaker.FailedProbeRejects` | apps/api/src/lib/circuitBreaker.ts:128-139 | the same for sequential calls |
| `CircuitBreaker.Transitions` | apps/api/src/lib/circuitBreaker.ts:85-147 | the only ways the state changes, with the counters that go back to zero |
| `CircuitBreaker.ClosedIff` | apps/api/src/lib/circuitBreaker.ts:114-147 | however calls overlap: a closed breaker stays closed exactly as long as fewer than `failureThreshold` failures have come since the last success or reset, and counts them |
| `CircuitBreaker.HalfOpenIff` | apps/api/src/lib/circuitBreaker.ts:114-147 | however probes overlap: it stays half-open exactly as long as none fails, nobody resets it and fewer than `successThreshold` have succeeded |
| `CircuitBreaker.HalfOpenAdmitsEveryCall` | apps/api/src/lib/circuitBreaker.ts:85-95 | half-open lets every overlapping call through, not one probe |
| `CircuitBreaker.OneProbeIff` | apps/api/src/lib/circuitBreaker.ts:85-139 | over runs with starts, finishes, timeouts and resets: at every moment at most one probe is in flight exactly when no call starts in half-open while a probe runs |
| `CircuitBreaker.TrackingChangesNothing` | apps/api/src/lib/circuitBreaker.ts:85-139 | counting the probes changes nothing else in a run, and there are never more of them than running calls |
| `CircuitBreaker.SequentialIsOverlapping` | apps/api/src/lib/circuitBreaker.ts:85-112 | a sequential call is a start followed by its finish; a rejected one changes nothing |
| `CircuitBreaker.TripsExactly` | apps/api/src/lib/circuitBreaker.ts:114-139 | from any closed breaker below its threshold (fresh, recovered, reset or part-way), sequential calls have kept it closed exactly as long as no `failureThreshold` failures in a row occurred, counting those before |
| `CircuitBreaker.OpensWithThatFailure` | apps/api/src/lib/circuitBreaker.ts:128-139 | the failure that makes them that many is the one that opens it |
| `CircuitBreaker.ClosesExactly` | apps/api/src/lib/circuitBreaker.ts:114-139 | after the cooldown, sequential probes close it exactly with the `successThreshold`-th success in a row; one failure reopens it |
| `RateLimiter.OnePatternAtMost` | apps/api/src/middleware/rateLimit.ts:43-50 | no path matches two endpoint patterns |
| `RateLimiter.MatchesIff` | apps/api/src/middleware/rateLimit.ts:81 | a path matches a pattern exactly when it begins with it, the pattern itself included |
| `RateLimiter.SelectPolicy` | apps/api/src/middleware/rateLimit.ts:77-86 | the endpoint policy if any pattern is a prefix of the path, whatever its place in the table, else the role policy |
| `RateLimiter.RoleLimits` | apps/api/src/middleware/rateLimit.ts:35-40 | a listed role has its own limit, any other the anonymous one; the order of the roles |
| `RateLimiter.EndpointsAreStricter` | apps/api/src/middleware/rateLimit.ts:42-50 | every endpoint limit is stricter than every role's |
| `RateLimiter.BucketIsQuotient` | apps/api/src/middleware/rateLimit.ts:120 | the window an instant falls in, found by its bounds, is the quotient the code computes |
| `RateLimiter.Redis.Ttl` | apps/api/src/middleware/rateLimit.ts:93 | the time left rounded to the nearest second, not positive without a live key |
| `RateLimiter.TtlRounding` | apps/api/src/middleware/rateLimit.ts:93-95 | that reply is within a second of the time left, and positive exactly from half a second up |
| `RateLimiter.Redis.Incr` | apps/api/src/middleware/rateLimit.ts:124 | counts up a live counter, starts an absent or expired one at 1 without expiry |
| `RateLimiter.Redis.Expire` | apps/api/src/middleware/rateLimit.ts:128 | sets the expiry of a live counter |
| `RateLimiter.Redis.SetEx` | apps/api/src/middleware/rateLimit.ts:159 | writes the penalty |
| `RateLimiter.Session.CheckPenalty` | apps/api/src/middleware/rateLimit.ts:92-116 | turned away exactly on a positive reply |
| `RateLimiter.Session.Increment` | apps/api/src/middleware/rateLimit.ts:120-124 | the window key and the counter step of the protocol |
| `RateLimiter.Session.SetExpiry` | apps/api/src/middleware/rateLimit.ts:127-129 | the expiry step, one second beyond the window |
| `RateLimiter.Session.Decide` | apps/api/src/middleware/rateLimit.ts:131-158 | the verdict step |
| `RateLimiter.Session.Penalise` | apps/api/src/middleware/rateLimit.ts:155-160 | the penalty step |
| `RateLimiter.MembersStep` | apps/api/src/middleware/rateLimit.ts:118-129 | each step adds to a key exactly the request whose INCR just hit it |
| `RateLimiter.RefusedOnlyOverTheLimit` | apps/api/src/middleware/rateLimit.ts:131-176 | over every interleaving, no timing assumed: refused for its count only if more requests of the client than its limit were counted in its window; penalised only past three times a limit |
| `RateVerdicts.VerdictIff` | apps/api/src/middleware/rateLimit.ts:140-170 | over every interleaving: a decided request is admitted if and only if its count is within its limit, and one refused with more than three times its limit has left a penalty |
| `RateVerdicts.NoCounterForgotten` | apps/api/src/middleware/rateLimit.ts:124-129 | over every interleaving: a counter without expiry has a request on its way to set it |
| `RateVerdicts.ExpirySet` | apps/api/src/middleware/rateLimit.ts:127-129 | which gives it its window and one second, and touches nothing else |
| `RateLimiter.TimelyIncrIsLive` | apps/api/src/middleware/rateLimit.ts:118-129 | an INCR within a second of its clock reading meets a live counter or a key nobody was counted on |
| `RateLimiter.ExactStep` | apps/api/src/middleware/rateLimit.ts:88-176 | each timely step keeps the counts of a window exactly 1 to the number counted |
| `RateLimiter.AtMostTheLimitPerWindow` | apps/api/src/middleware/rateLimit.ts:88-187 | over every timely interleaving: at most `limit` requests of a client admitted per window under policies of that limit or less, counts distinct and exact |
| `RateLimiter.CountsApartIff` | apps/api/src/middleware/rateLimit.ts:118-129 | the exact condition, no timing assumed: counts of a window stay distinct throughout a run if and only if every INCR meets a live counter or a window in which nobody has been counted; then the limit holds in every window |
| `RateLimiter.PromptMeetsLive` | apps/api/src/middleware/rateLimit.ts:118-129 | timely runs meet that condition |
| `RateLimiter.ExactlyTheLimitPerWindow` | apps/api/src/middleware/rateLimit.ts:118-187 | under one limit, once all counted requests have their verdict, exactly the first `limit` counted are admitted, or all if fewer |
| `RateLimiter.AtMostTwiceInAnyInterval` | apps/api/src/middleware/rateLimit.ts:88-187 | at most twice the limit in any interval as long as the window, wherever it starts |
| `RateLimiter.AtMostTheLimitOnTheGrid` | apps/api/src/middleware/rateLimit.ts:118-124 | an interval that is itself a window admits at most the limit |
| `RateLimiter.TwiceTheLimitHappens` | apps/api/src/middleware/rateLimit.ts:118-124 | for every policy and every interval of window length that does not start with a window there is a timely run that admits twice the limit in it |
| `RateLimiter.LimitHoldsIff` | apps/api/src/middleware/rateLimit.ts:118-124 | so the limit holds in all timely runs exactly for the intervals that are a window: the windows are fixed, not sliding |
| `RateLimiter.NoClashInOneEra` | apps/api/src/middleware/rateLimit.ts:43-50 | the two window lengths in the tables give one client no common key until the clock has doubled |
| `RateLimiter.LateIncrBreaksTheLimit` | apps/api/src/middleware/rateLimit.ts:118-129 | one second is exact: for every policy that admits anything and every longer delay a run, with that one delay, admits one request too many in a window |
| `RateLimiter.PenaltyBlocks` | apps/api/src/middleware/rateLimit.ts:91-116 | after a penalty is written, every request of the client that checks it before its last second is turned away for good, in every interleaving and for every rounding of TTL |
| `RateVerdicts.TurnedAwayIff` | apps/api/src/middleware/rateLimit.ts:92-113 | over every interleaving, from the events alone: a request is turned away exactly when its client was last penalised less than 300 s before, half a second aside |
| `RateLimiter.LastSecond` | apps/api/src/middleware/rateLimit.ts:91-116 | over every run a request stays turned away exactly when its TTL reply was positive, which with Redis's rounding means at least half a second of the penalty was left |
| `RateLimiter.LivePenaltyMissed` | apps/api/src/middleware/rateLimit.ts:91-160 | for every policy with a window shorter than the penalty and every remainder below half a second, a timely run admits a penalised client while its penalty key lives |
| `CefFormatter.HeaderPasses` | packages/core/src/siemFormatters.ts:67-69 | the two header replacements equal one pass |
| `CefFormatter.ExtPasses` | packages/core/src/siemFormatters.ts:70-72 | the three extension replacements equal one pass over the text with uniform line ends |
| `CefFormatter.CrlfBecomesLf` | packages/core/src/siemFormatters.ts:70-72 | uniform line ends: a CRLF becomes one line feed, wherever it stands |
| `CefFormatter.NothingElseChanges` | packages/core/src/siemFormatters.ts:70-72 | and a text without one stays as it is |
| `CefFormatter.UnescapeOnce` | packages/core/src/siemFormatters.ts:66-72 | unescaping undoes that pass, for every text |
| `CefFormatter.SplitJoined` | packages/core/src/siemFormatters.ts:96-105 | splitting at unescaped separators, the first n or all of them, undoes the join |
| `CefFormatter.PairsRendered` | packages/core/src/siemFormatters.ts:86-104 | reading the extension at unescaped equals signs recovers every key and value, CRLF as LF |
| `CefFormatter.RoundTrip` | packages/core/src/siemFormatters.ts:80-105 | reading a record recovers the seven header texts and all fields, for every header and every list of fields |
| `CefFormatter.Extension` | packages/core/src/siemFormatters.ts:86-94 | the pushes build the extension of the indicator's fields |
| `CefFormatter.ToCef` | packages/core/src/siemFormatters.ts:80-106 | the record of an indicator reads back as exactly what the indicator says |
| `CefFormatter.FieldsSay` | packages/core/src/siemFormatters.ts:86-94 | what a reader finds under each extension key: value, id, category, source and confidence with their labels, time |
| `CefFormatter.RecordBegins` | packages/core/src/siemFormatters.ts:32-34 | every record begins with the CEF version, the vendor, the product and its version |
| `CefFormatter.SeverityGrows` | packages/core/src/siemFormatters.ts:36-43 | the CEF number grows with the severity, ignores letter case, and is medium's for anything else |
| `CefFormatter.FieldByKind` | packages/core/src/siemFormatters.ts:45-60 | two types share a CEF field exactly when they are of one kind (all hashes are), or of none |
| `CefFormatter.SignatureKeeps` | packages/core/src/siemFormatters.ts:82 | the signature keeps letters and digits in place and has a dash for everything else |
| `CefFormatter.OneLineIff` | packages/core/src/siemFormatters.ts:66-105 | a record is one line exactly when no header text has a line feed |
| `CefFormatter.RecordLineFeeds` | packages/core/src/siemFormatters.ts:80-106 | for an indicator: exactly when its type has none |
| `CefFormatter.BatchLines` | packages/core/src/siemFormatters.ts:228-230 | a batch of one-line records is read back line by line |
| `ResponseCache.Cache.GetCachedResponse` | apps/gateway/src/index.ts:192-197 | answers an unexpired entry, drops an expired one |
| `ResponseCache.Cache.Purge` | apps/gateway/src/index.ts:185-190 | deleting while iterating removes exactly the expired entries and keeps the order |
| `ResponseCache.Cache.SetCachedResponse` | apps/gateway/src/index.ts:199-219 | puts in place or at the end, then purges and drops the oldest while over the cap |
| `ResponseCache.Bounded` | apps/gateway/src/index.ts:180-219 | after any run: at most 200 entries, one per key |
| `ResponseCache.AnswersAreLastSet` | apps/gateway/src/index.ts:192-197 | after any run an answer is the value last set for the key, less than 30 s before |
| `ResponseCache.RemovedOnlyIfExpired` | apps/gateway/src/index.ts:185-197 | a get removes exactly the entry it asks for if that has expired, a sweep exactly what has expired |
| `ResponseCache.JustSetIsThere` | apps/gateway/src/index.ts:199-219 | after any run a key just set is answered with its new value for 30 s |
| `ResponseCache.AnsweredUntilTwoHundredOthers` | apps/gateway/src/index.ts:192-219 | a key that entered is answered with its last value, as long as that is not 30 s old, until 200 other keys have been set since it entered: in every run that never lets 30 s pass without setting it again, however long ago it entered |
| `ResponseCache.DroppedOnlyForTwoHundredOthers` | apps/gateway/src/index.ts:180-219 | in every run, also when the entry lapsed on the way and was set again in its old place: an unexpired key disappears only by a set of another key, and only after 200 other keys have been set since it entered |
| `ResponseCache.FullCacheDropsTheOldest` | apps/gateway/src/index.ts:208-217 | a full cache with nothing expired drops exactly its oldest entry for a new key |
| `ResponseCache.FreshStaysWhileTheyFit` | apps/gateway/src/index.ts:199-219 | a set purges before it drops: an unexpired entry of another key leaves only when more than 200 are unexpired |
| `ResponseCache.SetBelowTheCapKeepsAll` | apps/gateway/src/index.ts:199-203 | below the cap a set drops nothing |
| `ResponseCache.SetAgainDoesNotRenew` | apps/gateway/src/index.ts:200 | a key set again keeps its place: if it is the oldest, the next new key drops it, fresh as it is |

## Left out

- Redis, BullMQ, Postgres and HTTP as systems, and their errors: Redis commands are atomic steps on an abstract store, and the fail-open error paths of the boot lock and the rate limiter are not modelled.
- A command sent before its process crashed but executed afterwards; clocks that differ between machines; Redis keys are taken to expire exactly at their expiry time.
- Timers as such: intervals appear as events that may happen at any time, and each synchronous operation reads the clock once.
- Text beyond ASCII: case folding, white space and the multi-byte side of bit flips (a flip inside a multi-byte character is only known to be rejected); strings are sequences of characters, not UTF-16 units.
- DomainPermutations.EmittedPermutationCredits: does not say whether a variant at distance two keeps the distance credit beside one white-space character around the apex, nor which variants keep it beside two.
- BootLock: the services themselves; "holder" means an active heartbeat or an owned key. `getBootLockOwner` only reads.
- JobQueue: jobs are values, identified by their id, not shared objects; payloads, results and error texts are dropped. `getJob` and `getQueueStats` only read or count.
- CsvScanner: the JSON and plain-text branches of `extractRecords`; header names such as `__proto__`.
- IocMerge: `normalizeIOCValue` is a given function; the canonical ID hash, `pulseId`, update times and raw data other than the source list are left out, and a failing database call changes nothing.
- Scheduler: the registry's contents, payload merging and the list of removed names, which is only logged. Redis errors during a sweep, and `reconcileScheduledJobByKey`.
- Scheduler.Convergence: requires distinct registry names and distinct keys for differently named entries, which BullMQ's key format gives.
- ConditionDsl: prototypes, NaN, and events that are arrays indexed by key (they read undefined); the regular-expression engine is a given predicate.
- CircuitBreaker: the registry of breakers, statistics, and the timeout timer, whose firing is a failed call.
- RateLimiter: the health endpoint's bypass, how the client id is chosen, headers, metrics counters and response bodies.
- RateLimiter.AtMostTheLimitPerWindow: assumes INCR within a second of the clock reading and no key shared by two window lengths; LateIncrBreaksTheLimit shows that the first is needed and its second exact, CountsApartIff gives the condition without a clock, NoClashInOneEra that the tables meet the second.
- CefFormatter: LEEF and ECS output; `rt` and the confidence are given as the text of a number.
- ResponseCache: cached values are opaque, so a cached null is not told apart from a miss; the GraphQL server around the cache is left out.
- Enrichment clients, STIX, audit log, webhooks, pagination, blocklists, the IOC text extractor and Sigma rules: mostly I/O or regular expressions.
