/** Runs of the job queue: enqueues, processor ticks, handler completions and cleanups in any
    order, with a history of what happened. */
module JobRuns {
  import opened Text
  import opened JobQueue

  datatype Entry = StartedAt(id: nat, attempt: nat, at: int) | FailedAt(id: nat, attempt: nat, at: int)

  datatype Removal = Removal(job: Job, cutoff: int)

  /** `running` is the job the suspended `processNextJob` waits for; the rest is history.
      `abandoned` holds the jobs whose handler rejected with null or undefined. */
  datatype World = World(
    queue: seq<Job>, running: Option<nat>,
    log: seq<Entry>, enqueued: set<nat>, removed: map<nat, Removal>, abandoned: set<nat>)

  datatype Event =
    | EnqueueJob(id: nat, kind: JobType, priority: Option<int>, maxAttempts: Option<int>, delay: Option<int>, now: int)
    | TickAt(handlers: set<JobType>, now: int)
    | FinishJob(outcome: Outcome, now: int)
    | CleanUpJobs(olderThan: int, now: int)

  predicate Enabled(w: World, e: Event) {
    && (e.EnqueueJob? ==> e.id !in w.enqueued)
    && (e.FinishJob? ==> w.running.Some? && Find(w.queue, w.running.value) < |w.queue|)
  }

  function Removals(q: seq<Job>, cutoff: int): map<nat, Removal> {
    if q == [] then map[]
    else
      var rest := Removals(q[1..], cutoff);
      if Stale(q[0], cutoff) then rest[q[0].id := Removal(q[0], cutoff)] else rest
  }

  function Step(w: World, e: Event): World
    requires Enabled(w, e)
  {
    match e
    case EnqueueJob(id, kind, priority, maxAttempts, delay, now) =>
      w.(queue := Sort(w.queue + [NewJob(id, kind, priority, maxAttempts, delay, now)]), enqueued := w.enqueued + {id})
    case TickAt(handlers, now) =>
      var queue := AfterTick(w.queue, w.running.Some?, handlers, now);
      (match Choose(w.queue, w.running.Some?, handlers, now)
       case Taken(i) =>
         w.(queue := queue, running := Some(w.queue[i].id),
            log := w.log + [StartedAt(w.queue[i].id, w.queue[i].attempts + 1, now)])
       case _ => w.(queue := queue))
    case FinishJob(outcome, now) =>
      var id := w.running.value;
      var job := w.queue[Find(w.queue, id)];
      w.(queue := AfterFinish(w.queue, id, outcome, now), running := None,
         log := if outcome == Rejected then w.log + [FailedAt(id, job.attempts, now)] else w.log,
         abandoned := if outcome == RejectedNullish then w.abandoned + {id} else w.abandoned)
    case CleanUpJobs(olderThan, now) =>
      w.(queue := DropStale(w.queue, now - olderThan), removed := w.removed + Removals(w.queue, now - olderThan))
  }

  predicate Playable(w: World, es: seq<Event>)
    decreases |es|
  {
    es == [] || (Enabled(w, es[0]) && Playable(Step(w, es[0]), es[1..]))
  }

  function Play(w: World, es: seq<Event>): World
    requires Playable(w, es)
    decreases |es|
  {
    if es == [] then w else Play(Step(w, es[0]), es[1..])
  }

  const EMPTY: World := World([], None, [], {}, map[], {})

  // ---- The invariant -----------------------------------------------------------------

  /** What every job in the array satisfies. The history ties a pending job to its last failure. */
  ghost predicate JobOk(j: Job, running: Option<nat>, abandoned: set<nat>, log: seq<Entry>) {
    && j.attempts <= Cap(j) && (j.status == Pending ==> j.attempts < Cap(j)) && j.status != Retrying
    && (j.status == Processing <==> running == Some(j.id) || j.id in abandoned)
    && (forall k :: 0 <= k < |log| ==> EntryOk(j, log[k]))
  }

  predicate EntryOk(j: Job, entry: Entry) {
    entry.FailedAt? && entry.id == j.id ==>
      && entry.attempt <= j.attempts
      && (j.status == Processing ==> entry.attempt < j.attempts)
      && (j.status == Pending && entry.attempt == j.attempts ==>
            j.scheduledFor == Some(entry.at + Backoff(entry.attempt)))
  }

  ghost predicate JobsOk(q: seq<Job>, running: Option<nat>, abandoned: set<nat>, log: seq<Entry>) {
    forall i :: 0 <= i < |q| ==> JobOk(q[i], running, abandoned, log)
  }

  /** Every retry so far started no earlier than its backoff allows. */
  ghost predicate RetriesWaited(log: seq<Entry>) {
    forall i, j :: 0 <= i < j < |log| ==> Waited(log[i], log[j])
  }

  predicate Waited(failure: Entry, start: Entry) {
    failure.FailedAt? && start.StartedAt? && start.id == failure.id && start.attempt == failure.attempt + 1 ==>
      start.at - failure.at >= Pow2(failure.attempt) * 1000
  }

  ghost predicate Census(w: World) {
    && DistinctIds(w.queue)
    && Ids(w.queue) !! w.removed.Keys && Ids(w.queue) + w.removed.Keys == w.enqueued
    && (forall id :: id in w.removed ==> w.removed[id].job.id == id && Stale(w.removed[id].job, w.removed[id].cutoff))
    && (w.running.Some? ==> w.running.value in Ids(w.queue) && w.running.value !in w.abandoned)
    && w.abandoned <= Ids(w.queue)
    && (forall i :: 0 <= i < |w.log| ==> w.log[i].id in w.enqueued)
  }

  ghost predicate Inv(w: World) {
    && Sorted(w.queue) && Census(w) && JobsOk(w.queue, w.running, w.abandoned, w.log) && RetriesWaited(w.log)
  }

  // ---- Each event keeps it -------------------------------------------------------------

  lemma InsertMembers(q: seq<Job>, x: Job)
    ensures forall j :: j in Insert(q, x) <==> j in q || j == x
  {
    var r := Insert(q, x);
    assert forall j :: j in r <==> j in multiset(r);
  }

  lemma {:induction false} InsertDistinct(q: seq<Job>, x: Job)
    requires DistinctIds(q) && forall j :: j in q ==> j.id != x.id
    ensures DistinctIds(Insert(q, x))
  {
    if q != [] && !Before(x, q[0]) {
      var tail := Insert(q[1..], x);
      InsertDistinct(q[1..], x);
      InsertMembers(q[1..], x);
      forall i | 0 <= i < |tail| ensures tail[i].id != q[0].id {
        assert tail[i] in tail;
        HeadIsDistinct(q, tail[i]);
      }
    }
  }

  lemma HeadIsDistinct(q: seq<Job>, j: Job)
    requires DistinctIds(q) && q != []
    ensures j in q[1..] ==> j.id != q[0].id
  {
  }

  lemma SortMembers(q: seq<Job>)
    ensures forall j :: j in Sort(q) <==> j in q
  {
    assert forall j :: j in Sort(q) <==> j in multiset(Sort(q));
  }

  lemma {:induction false} SortDistinct(q: seq<Job>)
    requires DistinctIds(q)
    ensures DistinctIds(Sort(q))
  {
    if q != [] {
      SortDistinct(q[..|q| - 1]);
      SortMembers(q[..|q| - 1]);
      InsertDistinct(Sort(q[..|q| - 1]), q[|q| - 1]);
    }
  }

  lemma AppendDistinct(q: seq<Job>, x: Job)
    requires DistinctIds(q) && x.id !in Ids(q)
    ensures DistinctIds(q + [x]) && Ids(q + [x]) == Ids(q) + {x.id}
  {
    forall i | 0 <= i < |q| ensures q[i].id in Ids(q) { InIds(q, i); }
    assert x in q + [x] && forall j :: j in q ==> j in q + [x];
  }

  lemma EnqueueKeepsQueue(w: World, x: Job)
    requires Inv(w) && x.id !in w.enqueued && JobOk(x, w.running, w.abandoned, w.log)
    ensures
      var q := Sort(w.queue + [x]);
      && Sorted(q) && DistinctIds(q) && Ids(q) == Ids(w.queue) + {x.id}
      && JobsOk(q, w.running, w.abandoned, w.log)
  {
    hide Sort;
    hide JobOk;
    hide Sorted;
    hide DistinctIds;
    var q := w.queue + [x];
    AppendDistinct(w.queue, x);
    SortDistinct(q);
    SortMembers(q);
    SortIsStable(q, x);
    assert Ids(Sort(q)) == Ids(q);
    JobsOkMembers(q, Sort(q), w.running, w.abandoned, w.log);
  }

  lemma EnqueueKeeps(w: World, e: Event)
    requires Inv(w) && e.EnqueueJob? && Enabled(w, e)
    ensures Inv(Step(w, e))
  {
    NewJobFacts(w, e);
    hide NewJob;
    hide JobOk;
    EnqueueKeepsQueue(w, NewJob(e.id, e.kind, e.priority, e.maxAttempts, e.delay, e.now));
    hide Sort;
    hide JobsOk;
    hide Sorted;
    hide DistinctIds;
    hide Ids;
    hide RetriesWaited;
  }

  lemma JobsOkMembers(
    q: seq<Job>, r: seq<Job>, running: Option<nat>, abandoned: set<nat>, log: seq<Entry>)
    requires forall j :: j in r ==> j in q
    ensures JobsOk(q, running, abandoned, log) ==> JobsOk(r, running, abandoned, log)
  {
    hide JobOk;
    if JobsOk(q, running, abandoned, log) {
      forall i | 0 <= i < |r| ensures JobOk(r[i], running, abandoned, log) {
        assert r[i] in q;
      }
    }
  }

  lemma NewJobFacts(w: World, e: Event)
    requires Inv(w) && e.EnqueueJob? && Enabled(w, e)
    ensures
      var x := NewJob(e.id, e.kind, e.priority, e.maxAttempts, e.delay, e.now);
      x.id == e.id && JobOk(x, w.running, w.abandoned, w.log)
  {
    assert e.id !in Ids(w.queue);
  }

  /** Replacing one job by another with the same identity and key. */
  lemma ReplaceKeeps(q: seq<Job>, i: nat, j: Job)
    requires i < |q| && j.id == q[i].id && SameKey(j, q[i])
    ensures Sorted(q) ==> Sorted(q[i := j])
    ensures DistinctIds(q) ==> DistinctIds(q[i := j])
    ensures Ids(q[i := j]) == Ids(q)
  {
    var q' := q[i := j];
    forall id | id in Ids(q) ensures id in Ids(q') {
      var k :| 0 <= k < |q| && q[k].id == id;
      assert q'[k] in q' && q'[k].id == id;
    }
    forall id | id in Ids(q') ensures id in Ids(q) {
      var k :| 0 <= k < |q'| && q'[k].id == id;
      assert q[k] in q && q[k].id == id;
    }
  }

  lemma InIds(q: seq<Job>, i: nat)
    requires i < |q|
    ensures q[i].id in Ids(q)
  {
    assert q[i] in q;
  }

  lemma TakeKeepsJobs(w: World, i: nat, now: int)
    requires Inv(w) && w.running.None? && i < |w.queue| && Ready(w.queue[i], now)
    ensures
      var id, n := w.queue[i].id, w.queue[i].attempts + 1;
      var q' := w.queue[i := w.queue[i].(status := Processing, startedAt := Some(now), attempts := n)];
      JobsOk(q', Some(id), w.abandoned, w.log + [StartedAt(id, n, now)])
  {
  }

  lemma TakeKeepsRetries(w: World, i: nat, now: int)
    requires Inv(w) && i < |w.queue| && Ready(w.queue[i], now)
    ensures RetriesWaited(w.log + [StartedAt(w.queue[i].id, w.queue[i].attempts + 1, now)])
  {
    var job := w.queue[i];
    var log' := w.log + [StartedAt(job.id, job.attempts + 1, now)];
    forall k, m | 0 <= k < m < |log'| ensures Waited(log'[k], log'[m]) {
      if m == |w.log| {
        assert JobOk(job, w.running, w.abandoned, w.log);
        assert EntryOk(job, w.log[k]);
      }
    }
  }

  lemma TickKeeps(w: World, e: Event)
    requires Inv(w) && e.TickAt? && Enabled(w, e)
    ensures Inv(Step(w, e))
  {
    hide JobsOk, RetriesWaited;
    var i := FirstReady(w.queue, e.now);
    match Choose(w.queue, w.running.Some?, e.handlers, e.now)
    case Idle =>
    case Unhandled(_) =>
      UnhandledKeepsJobs(w, i);
      ReplaceKeeps(w.queue, i, w.queue[i].(status := Failed));
    case Taken(_) =>
      TakeKeepsJobs(w, i, e.now);
      TakeKeepsRetries(w, i, e.now);
      InIds(w.queue, i);
      var taken := w.queue[i].(status := Processing, startedAt := Some(e.now), attempts := w.queue[i].attempts + 1);
      ReplaceKeeps(w.queue, i, taken);
      TakenNotAbandoned(w, i);
  }

  lemma UnhandledKeepsJobs(w: World, i: nat)
    requires JobsOk(w.queue, w.running, w.abandoned, w.log) && i < |w.queue| && w.queue[i].status == Pending
    ensures JobsOk(w.queue[i := w.queue[i].(status := Failed)], w.running, w.abandoned, w.log)
  {
    var job := w.queue[i];
    assert JobOk(job, w.running, w.abandoned, w.log);
    forall k | 0 <= k < |w.log| ensures EntryOk(job.(status := Failed), w.log[k]) {
      assert EntryOk(job, w.log[k]);
    }
    assert JobOk(job.(status := Failed), w.running, w.abandoned, w.log);
    hide JobOk;
  }

  lemma TakenNotAbandoned(w: World, i: nat)
    requires JobsOk(w.queue, w.running, w.abandoned, w.log) && i < |w.queue| && w.queue[i].status == Pending
    ensures w.queue[i].id !in w.abandoned
  {
  }

  lemma FinishKeepsJobs(w: World, i: nat, outcome: Outcome, now: int)
    requires Inv(w) && i < |w.queue| && w.running == Some(w.queue[i].id)
    ensures
      var job := w.queue[i];
      JobsOk(w.queue[i := Finished(job, outcome, now)], None,
             if outcome == RejectedNullish then w.abandoned + {job.id} else w.abandoned,
             if outcome == Rejected then w.log + [FailedAt(job.id, job.attempts, now)] else w.log)
  {
    var job, q := w.queue[i], w.queue;
    var abandoned := if outcome == RejectedNullish then w.abandoned + {job.id} else w.abandoned;
    var log := if outcome == Rejected then w.log + [FailedAt(job.id, job.attempts, now)] else w.log;
    assert JobOk(job, w.running, w.abandoned, w.log);
    FinishedOk(job, outcome, now, w.abandoned, w.log);
    var q' := q[i := Finished(job, outcome, now)];
    hide JobOk, Finished;
    forall k | 0 <= k < |q'| ensures JobOk(q'[k], None, abandoned, log) {
      if k != i { BystanderOk(q[k], job, outcome, now, w.abandoned, w.log); }
    }
  }

  lemma FinishedOk(job: Job, outcome: Outcome, now: int, abandoned: set<nat>, log: seq<Entry>)
    requires JobOk(job, Some(job.id), abandoned, log) && job.id !in abandoned
    ensures
      JobOk(Finished(job, outcome, now), None, if outcome == RejectedNullish then abandoned + {job.id} else abandoned,
            if outcome == Rejected then log + [FailedAt(job.id, job.attempts, now)] else log)
  {
    hide Backoff;
    var job', failure := Finished(job, outcome, now), FailedAt(job.id, job.attempts, now);
    forall k | 0 <= k < |log| ensures EntryOk(job', log[k]) { assert EntryOk(job, log[k]); }
    assert outcome == Rejected ==> EntryOk(job', failure);
  }

  lemma BystanderOk(
    j: Job, job: Job, outcome: Outcome, now: int, abandoned: set<nat>, log: seq<Entry>)
    requires JobOk(j, Some(job.id), abandoned, log) && j.id != job.id
    ensures
      JobOk(j, None, if outcome == RejectedNullish then abandoned + {job.id} else abandoned,
            if outcome == Rejected then log + [FailedAt(job.id, job.attempts, now)] else log)
  {
    hide Backoff;
    assert EntryOk(j, FailedAt(job.id, job.attempts, now));
  }

  lemma FinishKeeps(w: World, e: Event)
    requires Inv(w) && e.FinishJob? && Enabled(w, e)
    ensures Inv(Step(w, e))
  {
    var i := Find(w.queue, w.running.value);
    hide JobsOk;
    FinishKeepsJobs(w, i, e.outcome, e.now);
    InIds(w.queue, i);
    ReplaceKeeps(w.queue, i, Finished(w.queue[i], e.outcome, e.now));
  }

  lemma {:induction false} DropKeepsOrder(q: seq<Job>, cutoff: int)
    ensures Sorted(q) ==> Sorted(DropStale(q, cutoff))
    ensures DistinctIds(q) ==> DistinctIds(DropStale(q, cutoff))
  {
    if q != [] {
      DropKeepsOrder(q[1..], cutoff);
      var tail := DropStale(q[1..], cutoff);
      forall i | 0 <= i < |tail| ensures exists k :: 0 < k < |q| && q[k] == tail[i] {
        assert tail[i] in tail;
        assert tail[i] in q[1..];
        var m :| 0 <= m < |q[1..]| && q[1..][m] == tail[i];
        assert q[m + 1] == tail[i];
      }
    }
  }

  lemma {:induction false} RemovalsExact(q: seq<Job>, cutoff: int)
    requires DistinctIds(q)
    ensures forall id :: id in Removals(q, cutoff) ==>
              var r := Removals(q, cutoff)[id];
              r.job in q && r.job.id == id && r.cutoff == cutoff && Stale(r.job, cutoff)
    ensures forall j :: j in q && Stale(j, cutoff) ==> j.id in Removals(q, cutoff)
  {
    if q != [] { RemovalsExact(q[1..], cutoff); }
  }

  lemma CleanUpCensus(w: World, cutoff: int)
    requires Inv(w)
    ensures
      var kept, gone := DropStale(w.queue, cutoff), Removals(w.queue, cutoff);
      && Ids(kept) !! gone.Keys && Ids(kept) + gone.Keys == Ids(w.queue)
      && (w.running.Some? ==> w.running.value in Ids(kept)) && w.abandoned <= Ids(kept)
  {
    var q := w.queue;
    var kept, gone := DropStale(q, cutoff), Removals(q, cutoff);
    RemovalsExact(q, cutoff);
    forall id | id in Ids(q) ensures id in Ids(kept) || id in gone {
      var j :| j in q && j.id == id;
      if !Stale(j, cutoff) { assert j in kept; }
    }
    forall id | id in Ids(kept) && id in gone ensures false {
      var j :| j in kept && j.id == id;
      SameIdSameJob(q, j, gone[id].job);
    }
    forall id | w.running == Some(id) || id in w.abandoned ensures id in Ids(kept) {
      var i :| 0 <= i < |q| && q[i].id == id;
      assert JobOk(q[i], w.running, w.abandoned, w.log);
      assert q[i] in kept;
    }
  }

  lemma SameIdSameJob(q: seq<Job>, a: Job, b: Job)
    requires DistinctIds(q) && a in q && b in q && a.id == b.id
    ensures a == b
  {
  }

  lemma CleanUpKeepsJobs(w: World, cutoff: int)
    requires JobsOk(w.queue, w.running, w.abandoned, w.log)
    ensures JobsOk(DropStale(w.queue, cutoff), w.running, w.abandoned, w.log)
  {
    JobsOkMembers(w.queue, DropStale(w.queue, cutoff), w.running, w.abandoned, w.log);
  }

  lemma CleanUpKeeps(w: World, e: Event)
    requires Inv(w) && e.CleanUpJobs? && Enabled(w, e)
    ensures Inv(Step(w, e))
  {
    hide JobsOk;
    hide Sorted;
    hide DistinctIds;
    hide RetriesWaited;
    hide DropStale;
    hide Removals;
    hide Stale;
    hide Ids;
    var cutoff := e.now - e.olderThan;
    DropKeepsOrder(w.queue, cutoff);
    CleanUpRemovals(w, cutoff);
    CleanUpCensus(w, cutoff);
    CleanUpKeepsJobs(w, cutoff);
  }

  lemma CleanUpRemovals(w: World, cutoff: int)
    requires DistinctIds(w.queue)
    ensures forall id :: id in Removals(w.queue, cutoff) ==>
              var r := Removals(w.queue, cutoff)[id];
              r.job.id == id && Stale(r.job, r.cutoff)
  {
    RemovalsExact(w.queue, cutoff);
  }

  lemma InvStep(w: World, e: Event)
    requires Inv(w) && Enabled(w, e)
    ensures Inv(Step(w, e))
  {
    hide Inv;
    hide Step;
    match e
    case EnqueueJob(_, _, _, _, _, _) => EnqueueKeeps(w, e);
    case TickAt(_, _) => TickKeeps(w, e);
    case FinishJob(_, _) => FinishKeeps(w, e);
    case CleanUpJobs(_, _) => CleanUpKeeps(w, e);
  }

  lemma {:induction false} InvRun(w: World, es: seq<Event>)
    requires Inv(w) && Playable(w, es)
    ensures Inv(Play(w, es))
    decreases |es|
  {
    if es != [] {
      hide Inv;
      hide Step;
      InvStep(w, es[0]);
      InvRun(Step(w, es[0]), es[1..]);
    }
  }

  lemma InvEmpty()
    ensures Inv(EMPTY)
  {
  }

  // ---- Theorems over whole runs ----------------------------------------------------------

  /** The job is in the array: at exactly one place. */
  ghost predicate InArrayOnce(q: seq<Job>, id: nat) {
    exists i :: 0 <= i < |q| && q[i].id == id && forall j :: 0 <= j < |q| && j != i ==> q[j].id != id
  }

  /** The job was taken out by a cleanup, finished and older than its cutoff. */
  predicate CleanedUp(w: World, id: nat) {
    id in w.removed && w.removed[id].job.id == id && Stale(w.removed[id].job, w.removed[id].cutoff)
  }

  /** Under any interleaving the array stays sorted by priority, then creation time; every job ever
      enqueued is in it exactly once until a cleanup takes it out, finished and older than the
      cutoff; and nothing else is ever in it. */
  lemma OrderAndConservation(es: seq<Event>, id: nat)
    requires Playable(EMPTY, es)
    ensures
      var w := Play(EMPTY, es);
      && (forall i, j :: 0 <= i < j < |w.queue| ==>
            || w.queue[i].priority > w.queue[j].priority
            || (w.queue[i].priority == w.queue[j].priority && w.queue[i].createdAt <= w.queue[j].createdAt))
      && (id in w.enqueued <==> InArrayOnce(w.queue, id) || CleanedUp(w, id))
      && !(id in Ids(w.queue) && CleanedUp(w, id))
      && (id in Ids(w.queue) <==> InArrayOnce(w.queue, id))
  {
    hide Step;
    hide Play;
    InvEmpty();
    InvRun(EMPTY, es);
    OnceInArray(Play(EMPTY, es).queue, id);
  }

  lemma OnceInArray(q: seq<Job>, id: nat)
    requires DistinctIds(q)
    ensures id in Ids(q) <==> InArrayOnce(q, id)
  {
    if id in Ids(q) {
      var job :| job in q && job.id == id;
      var i :| 0 <= i < |q| && q[i] == job;
      assert forall j :: 0 <= j < |q| && j != i ==> q[j].id != id;
    }
    if InArrayOnce(q, id) {
      var i :| 0 <= i < |q| && q[i].id == id;
      assert q[i] in q;
    }
  }

  /** The ids of the jobs marked as processing. */
  ghost function InProcessing(q: seq<Job>): set<nat> {
    set j | j in q && j.status == Processing :: j.id
  }

  function Awaited(running: Option<nat>): set<nat> {
    if running.Some? then {running.value} else {}
  }

  ghost predicate AtMostOneProcessing(q: seq<Job>) {
    forall i, j :: 0 <= i < j < |q| ==> !(q[i].status == Processing && q[j].status == Processing)
  }

  /** Over every run, the jobs marked as processing are exactly the awaited one and the ones abandoned by a
      null or undefined rejection, so at most one is processing exactly as long as these are at most one. */
  lemma SingleFlight(es: seq<Event>)
    requires Playable(EMPTY, es)
    ensures
      var w := Play(EMPTY, es);
      && InProcessing(w.queue) == w.abandoned + Awaited(w.running)
      && (AtMostOneProcessing(w.queue) <==> |w.abandoned| + (if w.running.Some? then 1 else 0) <= 1)
      && (forall i :: 0 <= i < |w.queue| ==> w.queue[i].status != Retrying)
  {
    hide Step;
    hide Play;
    InvEmpty();
    InvRun(EMPTY, es);
    var w := Play(EMPTY, es);
    ProcessingIs(w);
    OneProcessingIff(w.queue);
    if w.running.Some? { assert |w.abandoned + {w.running.value}| == |w.abandoned| + 1; }
  }

  lemma ProcessingIs(w: World)
    requires Inv(w)
    ensures InProcessing(w.queue) == w.abandoned + Awaited(w.running)
    ensures w.running.Some? ==> w.running.value !in w.abandoned
    ensures forall i :: 0 <= i < |w.queue| ==> w.queue[i].status != Retrying
    ensures DistinctIds(w.queue)
  {
    hide EntryOk;
    forall i | 0 <= i < |w.queue|
      ensures w.queue[i].status == Processing <==> w.queue[i].id in w.abandoned + Awaited(w.running)
      ensures w.queue[i].status != Retrying
    {
      assert JobOk(w.queue[i], w.running, w.abandoned, w.log);
    }
    forall id | id in w.abandoned + Awaited(w.running) ensures id in InProcessing(w.queue) {
      assert id in Ids(w.queue);
      var j :| j in w.queue && j.id == id;
    }
  }

  lemma TwoOf(ids: set<nat>, a: nat, b: nat)
    requires a in ids && b in ids && a != b
    ensures |ids| >= 2
  {
    assert |ids - {a}| == |ids| - 1 && b in ids - {a};
  }

  lemma OneProcessingIff(q: seq<Job>)
    requires DistinctIds(q)
    ensures AtMostOneProcessing(q) <==> |InProcessing(q)| <= 1
  {
    var ids := InProcessing(q);
    if |ids| <= 1 {
      if i, j :| 0 <= i < j < |q| && q[i].status == Processing && q[j].status == Processing {
        TwoOf(ids, q[i].id, q[j].id);
      }
    } else {
      var a :| a in ids;
      assert |ids - {a}| == |ids| - 1;
      var b :| b in ids - {a};
      var x :| x in q && x.status == Processing && x.id == a;
      var y :| y in q && y.status == Processing && y.id == b;
      var i :| 0 <= i < |q| && q[i] == x;
      var j :| 0 <= j < |q| && q[j] == y;
      if i < j {
        assert q[i].status == Processing && q[j].status == Processing;
      } else {
        assert j < i && q[j].status == Processing && q[i].status == Processing;
      }
    }
  }

  /** A handler that rejects with null leaves its job processing for ever while the processor
      moves on: two jobs are marked as processing. */
  lemma NullRejectionBreaksSingleFlight() returns (es: seq<Event>)
    ensures Playable(EMPTY, es)
    ensures
      var q := Play(EMPTY, es).queue;
      |q| == 2 && q[0].status == Processing && q[1].status == Processing
  {
    var j1, j2 := NewJob(1, Sync, Some(1), None, None, 0), NewJob(2, Sync, None, None, None, 0);
    var e1, e2 := EnqueueJob(1, Sync, Some(1), None, None, 0), EnqueueJob(2, Sync, None, None, None, 0);
    SortTwo(j1, j2);
    var w1 := EMPTY.(queue := [j1], enqueued := {1});
    var w2 := EMPTY.(queue := [j1, j2], enqueued := {1, 2});
    assert Step(EMPTY, e1) == w1 && Step(w1, e2) == w2;
    var tail := NullTail(w2, j1, j2);
    hide Step;
    hide Enabled;
    PlayCons(w1, e2, tail);
    es := [e1] + ([e2] + tail);
    PlayCons(EMPTY, e1, [e2] + tail);
  }

  lemma NullTail(w: World, a: Job, b: Job) returns (es: seq<Event>)
    requires w.queue == [a, b] && w.running.None? && a.id != b.id && a.kind == b.kind == Sync
    requires a.status == b.status == Pending && a.scheduledFor.None? && b.scheduledFor.None?
    ensures Playable(w, es)
    ensures |Play(w, es).queue| == 2 && Play(w, es).queue[0].status == Play(w, es).queue[1].status == Processing
  {
    var t1, f, t2 := TickAt({Sync}, 1), FinishJob(RejectedNullish, 2), TickAt({Sync}, 3);
    var a' := a.(status := Processing, startedAt := Some(1), attempts := a.attempts + 1);
    var w3 := Step(w, t1);
    assert w3.queue == [a', b] && w3.running == Some(a.id);
    var w4 := Step(w3, f);
    assert w4.queue == [a', b] && w4.running == None;
    ReadySecond(a', b);
    var w5 := Step(w4, t2);
    assert |w5.queue| == 2 && w5.queue[0] == a' && w5.queue[1].status == Processing;
    hide Step;
    hide Enabled;
    PlayCons(w4, t2, []);
    PlayCons(w3, f, [t2]);
    es := [t1] + ([f] + [t2]);
    PlayCons(w, t1, [f] + [t2]);
  }

  lemma SortOne(a: Job)
    ensures Sort([] + [a]) == [a] && Sort([a]) == [a]
  {
    assert [a][..0] == [] && [] + [a] == [a];
    assert Sort([a]) == Insert([], a);
  }

  lemma SortTwo(a: Job, b: Job)
    requires !Before(b, a)
    ensures Sort([] + [a]) == [a] && Sort([a] + [b]) == [a, b]
  {
    SortOne(a);
    var q := [a] + [b];
    assert q[..1] == [a] && q[1] == b;
    assert Sort(q) == Insert([a], b) by { hide Insert, Before; }
    InsertSecond(a, b);
  }

  lemma InsertSecond(a: Job, b: Job)
    requires !Before(b, a)
    ensures Insert([a], b) == [a, b]
  {
    hide Before;
    assert [a][1..] == [];
  }

  lemma ReadySecond(a: Job, b: Job)
    requires a.status == Processing && Ready(b, 3)
    ensures FirstReady([a, b], 3) == 1
  {
    assert [a, b][1..] == [b];
  }

  lemma PlayCons(w: World, e: Event, es: seq<Event>)
    requires Enabled(w, e) && Playable(Step(w, e), es)
    ensures Playable(w, [e] + es) && Play(w, [e] + es) == Play(Step(w, e), es)
  {
    assert ([e] + es)[1..] == es;
  }

  /** In any reachable world a tick takes a ready job that no ready job precedes, and the earliest
      in the array among equals. */
  lemma TakesTheBest(es: seq<Event>, handlers: set<JobType>, now: int, k: nat)
    requires Playable(EMPTY, es)
    requires
      var w := Play(EMPTY, es);
      Choose(w.queue, w.running.Some?, handlers, now).Taken? && k < |w.queue| && Ready(w.queue[k], now)
    ensures
      var w := Play(EMPTY, es);
      var i := Choose(w.queue, w.running.Some?, handlers, now).i;
      && w.running.None? && Ready(w.queue[i], now) && i <= k
      && (|| w.queue[i].priority > w.queue[k].priority
          || (w.queue[i].priority == w.queue[k].priority && w.queue[i].createdAt <= w.queue[k].createdAt))
  {
    hide Step;
    hide Play;
    InvEmpty();
    InvRun(EMPTY, es);
  }

  /** Attempts never exceed `maxAttempts`, as long as it is at least one (below that a job is still
      taken once), and a retry after the n-th failure never starts before 2^n seconds. */
  lemma AttemptsAndBackoff(es: seq<Event>)
    requires Playable(EMPTY, es)
    ensures
      var w := Play(EMPTY, es);
      && (forall i :: 0 <= i < |w.queue| && w.queue[i].maxAttempts >= 1 ==>
            w.queue[i].attempts <= w.queue[i].maxAttempts)
      && (forall i :: 0 <= i < |w.queue| && w.queue[i].maxAttempts < 1 ==> w.queue[i].attempts <= 1)
      && (forall i, j :: 0 <= i < j < |w.log| ==> Waited(w.log[i], w.log[j]))
  {
    hide Step;
    hide Play;
    InvEmpty();
    InvRun(EMPTY, es);
    var w := Play(EMPTY, es);
    forall i | 0 <= i < |w.queue| ensures w.queue[i].attempts <= Cap(w.queue[i]) {
      assert JobOk(w.queue[i], w.running, w.abandoned, w.log);
    }
  }

  lemma SortKeepsJob(q: seq<Job>, x: Job, j: Job)
    requires j in q
    ensures j in Sort(q + [x])
  {
    hide Sort;
    assert j in multiset(q + [x]);
  }

  /** Completed and failed are final: no event changes a finished job; only a cleanup with a later
      cutoff removes it. */
  lemma FinishedIsFinal(w: World, e: Event, j: Job)
    requires Inv(w) && Enabled(w, e) && j in w.queue && Terminal(j)
    ensures j in Step(w, e).queue || (e.CleanUpJobs? && j.createdAt < e.now - e.olderThan)
  {
    var i :| 0 <= i < |w.queue| && w.queue[i] == j;
    match e
    case EnqueueJob(id, kind, priority, maxAttempts, delay, now) =>
      SortKeepsJob(w.queue, NewJob(id, kind, priority, maxAttempts, delay, now), j);
    case TickAt(_, _) => assert Step(w, e).queue[i] == j;
    case FinishJob(_, _) =>
      assert JobOk(j, w.running, w.abandoned, w.log);
      assert Step(w, e).queue[i] == j;
    case CleanUpJobs(_, _) =>
  }

  // ---- Termination --------------------------------------------------------------------

  /** How many times a job can still be taken, or, while it runs, be taken again. */
  function Remaining(j: Job, running: Option<nat>): nat {
    if (j.status == Pending || running == Some(j.id)) && j.attempts < Cap(j) then Cap(j) - j.attempts else 0
  }

  function Budget(q: seq<Job>, running: Option<nat>): nat {
    if q == [] then 0 else Remaining(q[0], running) + Budget(q[1..], running)
  }

  function Starts(log: seq<Entry>): nat {
    if log == [] then 0 else Starts(log[..|log| - 1]) + (if log[|log| - 1].StartedAt? then 1 else 0)
  }

  lemma {:induction false} BudgetReplace(q: seq<Job>, i: nat, j: Job, running: Option<nat>, running': Option<nat>)
    requires i < |q|
    requires forall k :: 0 <= k < |q| && k != i ==> Remaining(q[k], running) == Remaining(q[k], running')
    ensures Budget(q[i := j], running') + Remaining(q[i], running) == Budget(q, running) + Remaining(j, running')
  {
    if i == 0 {
      assert q[i := j][1..] == q[1..];
      BudgetSame(q[1..], running, running');
    } else {
      assert q[i := j][1..] == q[1..][i - 1 := j];
      BudgetReplace(q[1..], i - 1, j, running, running');
    }
  }

  lemma {:induction false} BudgetSame(q: seq<Job>, running: Option<nat>, running': Option<nat>)
    requires forall k :: 0 <= k < |q| ==> Remaining(q[k], running) == Remaining(q[k], running')
    ensures Budget(q, running) == Budget(q, running')
  {
    if q != [] { BudgetSame(q[1..], running, running'); }
  }

  lemma {:induction false} BudgetDrop(q: seq<Job>, cutoff: int, running: Option<nat>)
    ensures Budget(DropStale(q, cutoff), running) <= Budget(q, running)
  {
    if q != [] {
      BudgetDrop(q[1..], cutoff, running);
      assert ([q[0]] + DropStale(q[1..], cutoff))[1..] == DropStale(q[1..], cutoff);
      assert [] + DropStale(q[1..], cutoff) == DropStale(q[1..], cutoff);
    }
  }

  lemma StartsAppend(log: seq<Entry>, entry: Entry)
    ensures Starts(log + [entry]) == Starts(log) + (if entry.StartedAt? then 1 else 0)
  {
    assert (log + [entry])[..|log|] == log;
  }

  /** Every event other than an enqueue pays for the starts it makes out of the budget. */
  lemma BudgetStep(w: World, e: Event)
    requires Inv(w) && Enabled(w, e) && !e.EnqueueJob?
    ensures
      var w' := Step(w, e);
      Starts(w'.log) + Budget(w'.queue, w'.running) <= Starts(w.log) + Budget(w.queue, w.running)
  {
    hide Budget;
    hide Starts;
    hide Inv;
    match e
    case TickAt(handlers, now) => TickBudget(w, handlers, now);
    case FinishJob(outcome, now) => FinishBudget(w, Find(w.queue, w.running.value), outcome, now);
    case CleanUpJobs(olderThan, now) => BudgetDrop(w.queue, now - olderThan, w.running);
  }

  lemma TickBudget(w: World, handlers: set<JobType>, now: int)
    requires Inv(w)
    ensures
      var w' := Step(w, TickAt(handlers, now));
      Starts(w'.log) + Budget(w'.queue, w'.running) <= Starts(w.log) + Budget(w.queue, w.running)
  {
    hide Budget;
    hide Starts;
    hide Inv;
    var i := FirstReady(w.queue, now);
    match Choose(w.queue, w.running.Some?, handlers, now)
    case Idle =>
    case Unhandled(_) => UnhandledBudget(w, i);
    case Taken(_) => TakenBudget(w, i, now);
  }

  lemma UnhandledBudget(w: World, i: nat)
    requires i < |w.queue|
    ensures Budget(w.queue[i := w.queue[i].(status := Failed)], w.running) <= Budget(w.queue, w.running)
  {
    BudgetReplace(w.queue, i, w.queue[i].(status := Failed), w.running, w.running);
  }

  lemma TakenBudget(w: World, i: nat, now: int)
    requires Inv(w) && i < |w.queue| && w.queue[i].status == Pending && w.running.None?
    ensures
      var j := w.queue[i].(status := Processing, startedAt := Some(now), attempts := w.queue[i].attempts + 1);
      && Budget(w.queue[i := j], Some(j.id)) + 1 == Budget(w.queue, w.running)
      && Starts(w.log + [StartedAt(j.id, j.attempts, now)]) == Starts(w.log) + 1
  {
    var j := w.queue[i].(status := Processing, startedAt := Some(now), attempts := w.queue[i].attempts + 1);
    assert JobOk(w.queue[i], w.running, w.abandoned, w.log);
    BudgetReplace(w.queue, i, j, w.running, Some(j.id));
    StartsAppend(w.log, StartedAt(j.id, j.attempts, now));
  }

  lemma FinishBudget(w: World, i: nat, outcome: Outcome, now: int)
    requires Inv(w) && i < |w.queue| && w.running == Some(w.queue[i].id)
    ensures
      var job := w.queue[i];
      && Budget(w.queue[i := Finished(job, outcome, now)], None) <= Budget(w.queue, w.running)
      && Starts(w.log + [FailedAt(job.id, job.attempts, now)]) == Starts(w.log)
  {
    var job := w.queue[i];
    assert JobOk(job, w.running, w.abandoned, w.log);
    BudgetReplace(w.queue, i, Finished(job, outcome, now), w.running, None);
    StartsAppend(w.log, FailedAt(job.id, job.attempts, now));
  }

  lemma {:induction false} BudgetRun(w: World, es: seq<Event>)
    requires Inv(w) && Playable(w, es) && forall i :: 0 <= i < |es| ==> !es[i].EnqueueJob?
    ensures Starts(Play(w, es).log) + Budget(Play(w, es).queue, Play(w, es).running)
         <= Starts(w.log) + Budget(w.queue, w.running)
    decreases |es|
  {
    if es != [] {
      hide Inv;
      hide Step;
      BudgetStep(w, es[0]);
      InvStep(w, es[0]);
      BudgetRun(Step(w, es[0]), es[1..]);
    }
  }

  /** Termination: from any reachable world, with no new enqueues, handlers run at most as often as
      the attempts left to the pending jobs (plus the running one) allow. */
  lemma HandlerRunsAreBounded(before: seq<Event>, after: seq<Event>)
    requires Playable(EMPTY, before) && Playable(Play(EMPTY, before), after)
    requires forall i :: 0 <= i < |after| ==> !after[i].EnqueueJob?
    ensures
      var w := Play(EMPTY, before);
      Starts(Play(w, after).log) - Starts(w.log) <= Budget(w.queue, w.running)
  {
    InvEmpty();
    hide *;
    InvRun(EMPTY, before);
    BudgetRun(Play(EMPTY, before), after);
  }
}
