/** The in-memory background job queue: priority order, single-flight processing cut at the
    handler's await, retry with exponential backoff, and cleanup. */
module JobQueue {
  import opened Text

  datatype JobType = Enrichment | WebhookDelivery | Sync | Export | Cleanup
  datatype Status = Pending | Processing | Completed | Failed | Retrying

  datatype Job = Job(
    id: nat, kind: JobType, status: Status, attempts: nat, maxAttempts: int, priority: int,
    createdAt: int, startedAt: Option<int>, completedAt: Option<int>, scheduledFor: Option<int>)

  predicate Terminal(j: Job) {
    j.status == Completed || j.status == Failed
  }

  /** How often a job can be taken: once even when `maxAttempts` is below one. */
  function Cap(j: Job): (c: nat)
    ensures c >= 1 && (j.maxAttempts >= 1 ==> c == j.maxAttempts)
  {
    if j.maxAttempts >= 1 then j.maxAttempts else 1
  }

  function Pow2(n: nat): nat {
    if n == 0 then 1 else 2 * Pow2(n - 1)
  }

  function Backoff(attempts: nat): nat {
    Pow2(attempts) * 1000
  }

  // ---- Order -----------------------------------------------------------------------

  predicate Before(a: Job, b: Job) {
    a.priority > b.priority || (a.priority == b.priority && a.createdAt < b.createdAt)
  }

  predicate Sorted(q: seq<Job>) {
    forall i, j :: 0 <= i < j < |q| ==> !Before(q[j], q[i])
  }

  predicate SameKey(a: Job, b: Job) {
    a.priority == b.priority && a.createdAt == b.createdAt
  }

  /** Put `x` in front of the first job it must precede. */
  function Insert(q: seq<Job>, x: Job): (r: seq<Job>)
    ensures multiset(r) == multiset(q) + multiset{x}
  {
    if q == [] then [x]
    else if Before(x, q[0]) then
      assert [x] + q == [x] + q;
      [x] + q
    else
      assert q == [q[0]] + q[1..];
      [q[0]] + Insert(q[1..], x)
  }

  /** The stable sort of the queue. */
  function Sort(q: seq<Job>): (r: seq<Job>)
    ensures multiset(r) == multiset(q)
  {
    if q == [] then []
    else
      assert q == q[..|q| - 1] + [q[|q| - 1]];
      Insert(Sort(q[..|q| - 1]), q[|q| - 1])
  }

  function WithKeyOf(q: seq<Job>, x: Job): seq<Job> {
    if q == [] then []
    else (if SameKey(q[0], x) then [q[0]] else []) + WithKeyOf(q[1..], x)
  }

  lemma {:induction false} WithKeyOfAppend(a: seq<Job>, b: seq<Job>, x: Job)
    ensures WithKeyOf(a + b, x) == WithKeyOf(a, x) + WithKeyOf(b, x)
  {
    if a == [] {
      assert a + b == b;
    } else {
      assert (a + b)[1..] == a[1..] + b;
      WithKeyOfAppend(a[1..], b, x);
    }
  }

  lemma {:induction false} InsertSorted(q: seq<Job>, x: Job)
    requires Sorted(q)
    ensures Sorted(Insert(q, x))
  {
    if q == [] {
    } else if Before(x, q[0]) {
      assert forall i :: 0 < i < |q| ==> !Before(q[i], q[0]);
    } else {
      var tail := Insert(q[1..], x);
      InsertSorted(q[1..], x);
      forall j | 0 <= j < |tail| ensures !Before(tail[j], q[0]) {
        assert tail[j] in multiset(tail);
        assert tail[j] == x || tail[j] in q[1..];
      }
    }
  }

  lemma KeyCons(h: Job, t: seq<Job>, k: Job)
    ensures WithKeyOf([h] + t, k) == (if SameKey(h, k) then [h] else []) + WithKeyOf(t, k)
  {
    assert ([h] + t)[1..] == t;
  }

  lemma InsertCases(q: seq<Job>, x: Job)
    ensures q == [] ==> Insert(q, x) == [x] + []
    ensures q != [] && Before(x, q[0]) ==> Insert(q, x) == [x] + q
    ensures q != [] && !Before(x, q[0]) ==> Insert(q, x) == [q[0]] + Insert(q[1..], x)
  {
  }

  /** The new job goes behind every job with its own key. */
  lemma {:induction false} InsertStable(q: seq<Job>, x: Job, k: Job)
    requires Sorted(q)
    ensures WithKeyOf(Insert(q, x), k) == WithKeyOf(q, k) + (if SameKey(x, k) then [x] else [])
  {
    hide Insert, WithKeyOf;
    InsertCases(q, x);
    if q == [] {
      KeyCons(x, [], k);
      NoKey([], k);
    } else if Before(x, q[0]) {
      KeyCons(x, q, k);
      if SameKey(x, k) {
        assert forall i :: 0 < i < |q| ==> !Before(q[i], q[0]);
        NoKey(q, k);
      }
    } else {
      var h, t := q[0], q[1..];
      assert q == [h] + t;
      KeyCons(h, t, k);
      KeyCons(h, Insert(t, x), k);
      InsertStable(t, x, k);
    }
  }

  lemma {:induction false} NoKey(q: seq<Job>, k: Job)
    requires forall i :: 0 <= i < |q| ==> !SameKey(q[i], k)
    ensures WithKeyOf(q, k) == []
  {
    if q != [] { NoKey(q[1..], k); }
  }

  lemma KeyLast(q: seq<Job>, x: Job, k: Job)
    ensures WithKeyOf(q + [x], k) == WithKeyOf(q, k) + (if SameKey(x, k) then [x] else [])
  {
    WithKeyOfAppend(q, [x], k);
  }

  lemma SortLast(q: seq<Job>, x: Job)
    ensures Sort(q + [x]) == Insert(Sort(q), x)
  {
    hide Insert;
    assert (q + [x])[..|q|] == q;
  }

  lemma StableStep(q: seq<Job>, x: Job, k: Job)
    requires Sorted(Sort(q)) && WithKeyOf(Sort(q), k) == WithKeyOf(q, k)
    ensures Sorted(Sort(q + [x])) && WithKeyOf(Sort(q + [x]), k) == WithKeyOf(q + [x], k)
  {
    hide *;
    SortLast(q, x);
    InsertSorted(Sort(q), x);
    InsertStable(Sort(q), x, k);
    KeyLast(q, x, k);
  }

  lemma EmptyIsStable(k: Job)
    ensures Sort([]) == [] && Sorted([]) && WithKeyOf([], k) == []
  {
  }

  /** `Sort` is the stable sort: ordered, the same jobs, and jobs with equal keys keep their order. */
  lemma {:induction false} SortIsStable(q: seq<Job>, k: Job)
    ensures Sorted(Sort(q)) && multiset(Sort(q)) == multiset(q)
    ensures WithKeyOf(Sort(q), k) == WithKeyOf(q, k)
  {
    hide *;
    if q == [] {
      EmptyIsStable(k);
    } else {
      var front, x := q[..|q| - 1], q[|q| - 1];
      SortIsStable(front, k);
      StableStep(front, x, k);
      assert front + [x] == q;
    }
  }

  // ---- Operations on the array ---------------------------------------------------

  predicate Ready(j: Job, now: int) {
    j.status == Pending && (j.scheduledFor.None? || j.scheduledFor.value <= now)
  }

  /** Index of the first ready job, or the length of the queue. */
  function FirstReady(q: seq<Job>, now: int): (i: nat)
    ensures i <= |q| && (i < |q| ==> Ready(q[i], now))
    ensures forall k :: 0 <= k < i ==> !Ready(q[k], now)
  {
    if q == [] || Ready(q[0], now) then 0 else 1 + FirstReady(q[1..], now)
  }

  /** Index of the job with this id, or the length of the queue. */
  function Find(q: seq<Job>, id: nat): (i: nat)
    ensures i <= |q| && (i < |q| ==> q[i].id == id)
    ensures forall k :: 0 <= k < i ==> q[k].id != id
  {
    if q == [] || q[0].id == id then 0 else 1 + Find(q[1..], id)
  }

  /** `Array.indexOf`, with the length for a job that is not there. */
  function IndexOf(q: seq<Job>, job: Job): (i: nat)
    ensures i <= |q| && (i < |q| ==> q[i] == job)
    ensures forall k :: 0 <= k < i ==> q[k] != job
  {
    if q == [] || q[0] == job then 0 else 1 + IndexOf(q[1..], job)
  }

  function NewJob(id: nat, kind: JobType, priority: Option<int>, maxAttempts: Option<int>, delay: Option<int>,
                  now: int): Job
  {
    Job(id, kind, Pending, 0,
        if maxAttempts.Some? && maxAttempts.value != 0 then maxAttempts.value else 3,
        if priority.Some? then priority.value else 0,
        now, None, None,
        if delay.Some? && delay.value != 0 then Some(now + delay.value) else None)
  }

  datatype Started = Idle | Unhandled(i: nat) | Taken(i: nat)

  /** What one tick of the processor does to the array: nothing, fail a job no handler is
      registered for, or take a job. */
  function Choose(q: seq<Job>, busy: bool, handlers: set<JobType>, now: int): Started {
    var i := FirstReady(q, now);
    if busy || i == |q| then Idle
    else if q[i].kind !in handlers then Unhandled(i)
    else Taken(i)
  }

  function AfterTick(q: seq<Job>, busy: bool, handlers: set<JobType>, now: int): seq<Job> {
    match Choose(q, busy, handlers, now)
    case Idle => q
    case Unhandled(i) => q[i := q[i].(status := Failed)]
    case Taken(i) => q[i := q[i].(status := Processing, startedAt := Some(now), attempts := q[i].attempts + 1)]
  }

  /** How the awaited handler ends. A rejection with null or undefined makes the catch block
      itself throw, before it touches the status. */
  datatype Outcome = Resolved | Rejected | RejectedNullish

  function Finished(j: Job, outcome: Outcome, now: int): Job {
    match outcome
    case Resolved => j.(status := Completed, completedAt := Some(now))
    case Rejected =>
      if j.attempts < j.maxAttempts then j.(status := Pending, scheduledFor := Some(now + Backoff(j.attempts)))
      else j.(status := Failed)
    case RejectedNullish => j
  }

  function AfterFinish(q: seq<Job>, id: nat, outcome: Outcome, now: int): seq<Job> {
    var i := Find(q, id);
    if i == |q| then q else q[i := Finished(q[i], outcome, now)]
  }

  predicate Stale(j: Job, cutoff: int) {
    Terminal(j) && j.createdAt < cutoff
  }

  function StaleJobs(q: seq<Job>, cutoff: int): seq<Job> {
    if q == [] then []
    else (if Stale(q[0], cutoff) then [q[0]] else []) + StaleJobs(q[1..], cutoff)
  }

  function DropStale(q: seq<Job>, cutoff: int): (r: seq<Job>)
    ensures |r| <= |q|
    ensures forall j :: j in r <==> j in q && !Stale(j, cutoff)
  {
    if q == [] then [] else (if Stale(q[0], cutoff) then [] else [q[0]]) + DropStale(q[1..], cutoff)
  }

  function Ids(q: seq<Job>): set<nat> {
    set j | j in q :: j.id
  }

  predicate DistinctIds(q: seq<Job>) {
    forall i, j :: 0 <= i < j < |q| ==> q[i].id != q[j].id
  }

  /** The module's array and flag. */
  class Queue {
    var jobs: seq<Job>
    var isProcessing: bool

    constructor ()
      ensures jobs == [] && !isProcessing
    {
      jobs, isProcessing := [], false;
    }

    method Enqueue(id: nat, kind: JobType, priority: Option<int>, maxAttempts: Option<int>, delay: Option<int>,
                   now: int)
      returns (job: Job)
      modifies this`jobs
      ensures job == NewJob(id, kind, priority, maxAttempts, delay, now)
      ensures jobs == Sort(old(jobs) + [job])
    {
      job := NewJob(id, kind, priority, maxAttempts, delay, now);
      jobs := jobs + [job];
      jobs := Sort(jobs);
    }

    /** `processNextJob` up to its await. */
    method Tick(handlers: set<JobType>, now: int) returns (taken: Option<nat>)
      modifies this
      ensures jobs == AfterTick(old(jobs), old(isProcessing), handlers, now)
      ensures var c := Choose(old(jobs), old(isProcessing), handlers, now);
              && isProcessing == (old(isProcessing) || c.Taken?)
              && taken == if c.Taken? then Some(old(jobs)[c.i].id) else None
    {
      taken := None;
      if isProcessing { return; }
      var i := 0;
      while i < |jobs|
            && !(jobs[i].status == Pending && (jobs[i].scheduledFor.None? || jobs[i].scheduledFor.value <= now))
        invariant 0 <= i <= |jobs|
        invariant forall k :: 0 <= k < i ==> !Ready(jobs[k], now)
      {
        i := i + 1;
      }
      if i == |jobs| { return; }
      var job := jobs[i];
      if job.kind !in handlers {
        jobs := jobs[i := job.(status := Failed)];
        return;
      }
      isProcessing := true;
      jobs := jobs[i := job.(status := Processing, startedAt := Some(now), attempts := job.attempts + 1)];
      taken := Some(job.id);
    }

    /** `processNextJob` from its await on. */
    method Finish(id: nat, outcome: Outcome, now: int)
      modifies this
      ensures jobs == AfterFinish(old(jobs), id, outcome, now)
      ensures !isProcessing
    {
      var i := 0;
      while i < |jobs| && jobs[i].id != id
        invariant 0 <= i <= |jobs|
        invariant forall k :: 0 <= k < i ==> jobs[k].id != id
      {
        i := i + 1;
      }
      if i < |jobs| {
        var job := jobs[i];
        match outcome {
          case Resolved =>
            job := job.(status := Completed);
            job := job.(completedAt := Some(now));
          case Rejected =>
            if job.attempts < job.maxAttempts {
              job := job.(status := Retrying);
              job := job.(scheduledFor := Some(now + Backoff(job.attempts)));
              job := job.(status := Pending);
            } else {
              job := job.(status := Failed);
            }
          case RejectedNullish =>
        }
        jobs := jobs[i := job];
      }
      isProcessing := false;
    }

    /** The cleanup handler: collect the stale jobs, then splice them out one by one. */
    method CleanUp(olderThan: int, now: int) returns (removed: nat, remaining: nat)
      requires DistinctIds(jobs)
      modifies this`jobs
      ensures jobs == DropStale(old(jobs), now - olderThan)
      ensures removed == |old(jobs)| - |jobs| && remaining == |jobs|
    {
      hide DistinctIds, StaleJobs, DropStale, Without, IndexOf;
      var cutoff := now - olderThan;
      var initialLength := |jobs|;
      var toRemove := StaleJobs(jobs, cutoff);
      ghost var before := jobs;
      NothingDropped(before, toRemove[..0]);
      for n := 0 to |toRemove|
        invariant jobs == Without(before, toRemove[..n]) && DistinctIds(jobs)
      {
        var idx := IndexOf(jobs, toRemove[n]);
        NextSplice(before, toRemove, n, jobs, idx);
        if idx < |jobs| { jobs := jobs[..idx] + jobs[idx + 1..]; }
      }
      assert toRemove[..|toRemove|] == toRemove;
      WithoutStale(before, cutoff);
      removed, remaining := initialLength - |jobs|, |jobs|;
    }
  }

  // ---- Cleanup by splicing --------------------------------------------------------

  function Without(q: seq<Job>, xs: seq<Job>): (r: seq<Job>)
    ensures |r| <= |q|
  {
    if q == [] then [] else (if q[0] in xs then [] else [q[0]]) + Without(q[1..], xs)
  }

  lemma {:induction false} NothingDropped(q: seq<Job>, xs: seq<Job>)
    requires forall j :: j in q ==> j !in xs
    ensures Without(q, xs) == q
  {
    if q != [] { NothingDropped(q[1..], xs); }
  }

  lemma WithoutCons(h: Job, t: seq<Job>, xs: seq<Job>)
    ensures Without([h] + t, xs) == (if h in xs then [] else [h]) + Without(t, xs)
  {
    assert ([h] + t)[1..] == t;
  }

  lemma {:induction false} WithoutOneMore(q: seq<Job>, xs: seq<Job>, x: Job)
    ensures Without(q, xs + [x]) == Without(Without(q, xs), [x])
  {
    if q != [] {
      var h, t := q[0], q[1..];
      assert q == [h] + t;
      WithoutOneMore(t, xs, x);
      WithoutCons(h, t, xs);
      WithoutCons(h, t, xs + [x]);
      WithoutCons(h, Without(t, xs), [x]);
      assert h in xs + [x] <==> h in xs || h == x;
      assert [] + Without(t, xs) == Without(t, xs) && [] + Without(t, xs + [x]) == Without(t, xs + [x]);
    }
  }

  /** Splicing the only occurrence of `x` out of an array drops exactly `x`. */
  lemma {:induction false} SpliceOne(q: seq<Job>, x: Job, idx: nat)
    requires idx <= |q| && (idx < |q| ==> q[idx] == x)
    requires forall k :: 0 <= k < |q| && k != idx ==> q[k] != x
    ensures Without(q, [x]) == if idx < |q| then q[..idx] + q[idx + 1..] else q
  {
    hide Without;
    if idx == |q| {
      NothingDropped(q, [x]);
    } else {
      var h, t := q[0], q[1..];
      assert q == [h] + t;
      WithoutCons(h, t, [x]);
      if idx == 0 {
        NothingDropped(t, [x]);
        assert q[..0] + q[1..] == t;
      } else {
        SpliceOne(t, x, idx - 1);
        assert q[..idx] + q[idx + 1..] == [h] + (t[..idx - 1] + t[idx..]);
      }
    }
  }

  lemma SpliceKeepsIds(q: seq<Job>, idx: nat)
    requires DistinctIds(q) && idx < |q|
    ensures DistinctIds(q[..idx] + q[idx + 1..])
    ensures forall k :: 0 <= k < |q| && k != idx ==> q[k] != q[idx]
  {
  }

  /** One turn of the cleanup loop. */
  lemma NextSplice(before: seq<Job>, xs: seq<Job>, n: nat, q: seq<Job>, idx: nat)
    requires n < |xs| && q == Without(before, xs[..n]) && DistinctIds(q)
    requires idx <= |q| && (idx < |q| ==> q[idx] == xs[n]) && forall k :: 0 <= k < idx ==> q[k] != xs[n]
    ensures
      var q' := if idx < |q| then q[..idx] + q[idx + 1..] else q;
      Without(before, xs[..n + 1]) == q' && DistinctIds(q')
  {
    hide DistinctIds, Without;
    assert xs[..n + 1] == xs[..n] + [xs[n]];
    WithoutOneMore(before, xs[..n], xs[n]);
    if idx < |q| { SpliceKeepsIds(q, idx); }
    SpliceOne(q, xs[n], idx);
  }

  lemma {:induction false} StaleMembers(q: seq<Job>, cutoff: int)
    ensures forall j :: j in StaleJobs(q, cutoff) <==> j in q && Stale(j, cutoff)
  {
    if q != [] { StaleMembers(q[1..], cutoff); }
  }

  lemma {:induction false} WithoutSame(q: seq<Job>, xs: seq<Job>, cutoff: int)
    requires forall j :: j in q ==> (j in xs <==> Stale(j, cutoff))
    ensures Without(q, xs) == DropStale(q, cutoff)
  {
    if q != [] { WithoutSame(q[1..], xs, cutoff); }
  }

  lemma WithoutStale(q: seq<Job>, cutoff: int)
    ensures Without(q, StaleJobs(q, cutoff)) == DropStale(q, cutoff)
  {
    StaleMembers(q, cutoff);
    WithoutSame(q, StaleJobs(q, cutoff), cutoff);
  }
}
