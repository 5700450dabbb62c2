/** What a job's fields mean: each is what the history of the job says, over every run of the queue. */
module JobHistory {
  import opened Text
  import opened JobQueue
  import opened JobRuns

  // ---- The history of a run ------------------------------------------------------------------

  datatype What =
    | Enqueued(kind: JobType, priority: Option<int>, maxAttempts: Option<int>, delay: Option<int>, at: int)
    | Started(at: int)
    | NoHandler(at: int)
    | Ended(outcome: Outcome, at: int)

  datatype Fact = Fact(id: nat, what: What)

  /** What an event says of a job. */
  function FactsOf(w: World, e: Event): seq<Fact>
    requires Enabled(w, e)
  {
    match e
    case EnqueueJob(id, kind, priority, maxAttempts, delay, now) =>
      [Fact(id, Enqueued(kind, priority, maxAttempts, delay, now))]
    case TickAt(handlers, now) =>
      (match Choose(w.queue, w.running.Some?, handlers, now)
       case Idle => []
       case Unhandled(i) => [Fact(w.queue[i].id, NoHandler(now))]
       case Taken(i) => [Fact(w.queue[i].id, Started(now))])
    case FinishJob(outcome, now) => [Fact(w.running.value, Ended(outcome, now))]
    case CleanUpJobs(_, _) => []
  }

  function History(w: World, es: seq<Event>): seq<Fact>
    requires Playable(w, es)
    decreases |es|
  {
    if es == [] then [] else FactsOf(w, es[0]) + History(Step(w, es[0]), es[1..])
  }

  function LastOf(facts: seq<Fact>, id: nat): Option<What> {
    if facts == [] then None
    else if facts[|facts| - 1].id == id then Some(facts[|facts| - 1].what)
    else LastOf(facts[..|facts| - 1], id)
  }

  /** How often the handler of a job was started. */
  function StartsOf(facts: seq<Fact>, id: nat): nat {
    if facts == [] then 0
    else
      var last := facts[|facts| - 1];
      StartsOf(facts[..|facts| - 1], id) + (if last.id == id && last.what.Started? then 1 else 0)
  }

  // ---- What the fields mean ------------------------------------------------------------------------

  /** The fields that never change are those the job was enqueued with, under the defaults of the queue. */
  predicate IsAsEnqueued(j: Job, what: What) {
    && what.Enqueued? && j.kind == what.kind && j.createdAt == what.at
    && j.priority == (if what.priority.Some? then what.priority.value else 0)
    && (what.maxAttempts.Some? && what.maxAttempts.value != 0 ==> j.maxAttempts == what.maxAttempts.value)
    && (what.maxAttempts.None? || what.maxAttempts.value == 0 ==> j.maxAttempts == 3)
  }

  /** The other fields are what last happened to the job. */
  predicate SaysLast(j: Job, last: Option<What>) {
    match last
    case None => false
    case Some(Enqueued(_, _, _, delay, at)) =>
      && j.status == Pending && j.attempts == 0
      && (delay.Some? && delay.value != 0 ==> j.scheduledFor == Some(at + delay.value))
      && (delay.None? || delay.value == 0 ==> j.scheduledFor == None)
    case Some(Started(at)) => j.status == Processing && j.startedAt == Some(at)
    case Some(NoHandler(_)) => j.status == Failed
    case Some(Ended(Resolved, at)) => j.status == Completed && j.completedAt == Some(at)
    case Some(Ended(Rejected, at)) =>
      if j.attempts >= j.maxAttempts then j.status == Failed
      else j.status == Pending && j.scheduledFor == Some(at + 1000 * Pow2(j.attempts))
    case Some(Ended(RejectedNullish, _)) => j.status == Processing
  }

  ghost predicate Fits(j: Job, facts: seq<Fact>) {
    && j.attempts == StartsOf(facts, j.id) && SaysLast(j, LastOf(facts, j.id))
    && (j.completedAt.Some? <==> j.status == Completed)
    && (exists k :: 0 <= k < |facts| && facts[k].id == j.id && IsAsEnqueued(j, facts[k].what))
  }

  ghost predicate AllFit(w: World, facts: seq<Fact>) {
    && (forall i :: 0 <= i < |w.queue| ==> Fits(w.queue[i], facts))
    && (forall k :: 0 <= k < |facts| ==> facts[k].id in w.enqueued)
  }

  // ---- One event --------------------------------------------------------------------------------------

  lemma FactAppended(facts: seq<Fact>, f: Fact, id: nat)
    ensures LastOf(facts + [f], id) == if f.id == id then Some(f.what) else LastOf(facts, id)
    ensures StartsOf(facts + [f], id) == StartsOf(facts, id) + if f.id == id && f.what.Started? then 1 else 0
  {
    assert (facts + [f])[..|facts|] == facts;
  }

  lemma OthersFit(j: Job, facts: seq<Fact>, f: Fact)
    requires Fits(j, facts) && f.id != j.id
    ensures Fits(j, facts + [f])
  {
    hide LastOf, StartsOf, SaysLast, IsAsEnqueued;
    FactAppended(facts, f, j.id);
    var k :| 0 <= k < |facts| && facts[k].id == j.id && IsAsEnqueued(j, facts[k].what);
    assert (facts + [f])[k] == facts[k];
  }

  /** A job that changed under a fact of its own. */
  lemma ChangedFits(j: Job, j': Job, facts: seq<Fact>, f: Fact)
    requires Fits(j, facts) && f.id == j.id == j'.id
    requires j'.kind == j.kind && j'.createdAt == j.createdAt && j'.priority == j.priority
    requires j'.maxAttempts == j.maxAttempts && j'.attempts == j.attempts + (if f.what.Started? then 1 else 0)
    requires SaysLast(j', Some(f.what)) && (j'.completedAt.Some? <==> j'.status == Completed)
    ensures Fits(j', facts + [f])
  {
    hide LastOf, StartsOf, SaysLast;
    FactAppended(facts, f, j.id);
    var k :| 0 <= k < |facts| && facts[k].id == j.id && IsAsEnqueued(j, facts[k].what);
    assert (facts + [f])[k] == facts[k] && IsAsEnqueued(j', facts[k].what);
  }

  lemma {:induction false} NothingKnown(facts: seq<Fact>, id: nat)
    requires forall k :: 0 <= k < |facts| ==> facts[k].id != id
    ensures LastOf(facts, id) == None && StartsOf(facts, id) == 0
  {
    if facts != [] { NothingKnown(facts[..|facts| - 1], id); }
  }

  lemma NewFits(facts: seq<Fact>, e: Event)
    requires e.EnqueueJob? && forall k :: 0 <= k < |facts| ==> facts[k].id != e.id
    ensures
      var x := NewJob(e.id, e.kind, e.priority, e.maxAttempts, e.delay, e.now);
      x.id == e.id && Fits(x, facts + [Fact(e.id, Enqueued(e.kind, e.priority, e.maxAttempts, e.delay, e.now))])
  {
    hide LastOf, StartsOf;
    var x := NewJob(e.id, e.kind, e.priority, e.maxAttempts, e.delay, e.now);
    var f := Fact(e.id, Enqueued(e.kind, e.priority, e.maxAttempts, e.delay, e.now));
    NothingKnown(facts, e.id);
    FactAppended(facts, f, e.id);
    assert (facts + [f])[|facts|] == f && IsAsEnqueued(x, f.what);
  }

  lemma IdsKnown(w: World)
    requires Inv(w)
    ensures forall k :: 0 <= k < |w.queue| ==> w.queue[k].id in w.enqueued
  {
    forall k | 0 <= k < |w.queue| ensures w.queue[k].id in w.enqueued { InIds(w.queue, k); }
  }

  lemma EnqueueFits(w: World, e: Event, facts: seq<Fact>)
    requires Inv(w) && e.EnqueueJob? && Enabled(w, e) && AllFit(w, facts)
    ensures AllFit(Step(w, e), facts + FactsOf(w, e))
  {
    hide Fits, Sort, NewJob, Inv, LastOf, StartsOf;
    assert forall k :: 0 <= k < |facts| ==> facts[k].id != e.id;
    assert forall k :: 0 <= k < |w.queue| ==> w.queue[k].id in w.enqueued by { IdsKnown(w); }
    var x := NewJob(e.id, e.kind, e.priority, e.maxAttempts, e.delay, e.now);
    var what := Enqueued(e.kind, e.priority, e.maxAttempts, e.delay, e.now);
    var f := Fact(e.id, what);
    var all := facts + [f];
    NewFits(facts, e);
    SortMembers(w.queue + [x]);
    var q := Step(w, e).queue;
    forall i | 0 <= i < |q| ensures Fits(q[i], all) {
      assert q[i] in w.queue + [x];
      if q[i] != x {
        var m :| 0 <= m < |w.queue| && w.queue[m] == q[i];
        OthersFit(q[i], facts, f);
      }
    }
  }

  /** Job `i` changes under a fact of its own, the others stay. */
  lemma ReplaceFits(w: World, i: nat, j': Job, f: Fact, facts: seq<Fact>)
    requires Inv(w) && AllFit(w, facts) && i < |w.queue| && f.id == w.queue[i].id && Fits(j', facts + [f])
    ensures AllFit(w.(queue := w.queue[i := j']), facts + [f])
  {
    hide Fits;
    InIds(w.queue, i);
    var q := w.queue[i := j'];
    forall k | 0 <= k < |q| ensures Fits(q[k], facts + [f]) {
      if k != i { OthersFit(w.queue[k], facts, f); }
    }
  }

  lemma TickFits(w: World, e: Event, facts: seq<Fact>)
    requires Inv(w) && e.TickAt? && Enabled(w, e) && AllFit(w, facts)
    ensures AllFit(Step(w, e), facts + FactsOf(w, e))
  {
    match Choose(w.queue, w.running.Some?, e.handlers, e.now)
    case Idle => assert facts + [] == facts;
    case Unhandled(i) =>
      var j, f := w.queue[i], Fact(w.queue[i].id, NoHandler(e.now));
      ChangedFits(j, j.(status := Failed), facts, f);
      ReplaceFits(w, i, j.(status := Failed), f, facts);
    case Taken(i) =>
      var j, f := w.queue[i], Fact(w.queue[i].id, Started(e.now));
      var j' := j.(status := Processing, startedAt := Some(e.now), attempts := j.attempts + 1);
      ChangedFits(j, j', facts, f);
      ReplaceFits(w, i, j', f, facts);
  }

  lemma FinishFits(w: World, e: Event, facts: seq<Fact>)
    requires Inv(w) && e.FinishJob? && Enabled(w, e) && AllFit(w, facts)
    ensures AllFit(Step(w, e), facts + FactsOf(w, e))
  {
    var i := Find(w.queue, w.running.value);
    var j, f := w.queue[i], Fact(w.queue[i].id, Ended(e.outcome, e.now));
    var j' := Finished(j, e.outcome, e.now);
    assert JobOk(j, w.running, w.abandoned, w.log);
    EndedSaysLast(j, e.outcome, e.now);
    ChangedFits(j, j', facts, f);
    ReplaceFits(w, i, j', f, facts);
  }

  lemma EndedSaysLast(j: Job, outcome: Outcome, now: int)
    requires j.status == Processing && j.completedAt.None?
    ensures
      var j' := Finished(j, outcome, now);
      && SaysLast(j', Some(Ended(outcome, now))) && (j'.completedAt.Some? <==> j'.status == Completed)
      && j'.id == j.id && j'.kind == j.kind && j'.createdAt == j.createdAt && j'.priority == j.priority
      && j'.maxAttempts == j.maxAttempts && j'.attempts == j.attempts
  {
    hide Pow2;
  }

  lemma CleanUpFits(w: World, e: Event, facts: seq<Fact>)
    requires e.CleanUpJobs? && Enabled(w, e) && AllFit(w, facts)
    ensures AllFit(Step(w, e), facts + FactsOf(w, e))
  {
    hide Fits;
    assert facts + [] == facts;
    var q := Step(w, e).queue;
    forall i | 0 <= i < |q| ensures Fits(q[i], facts) { assert q[i] in q; }
  }

  lemma FitsStep(w: World, e: Event, facts: seq<Fact>)
    requires Inv(w) && Enabled(w, e) && AllFit(w, facts)
    ensures AllFit(Step(w, e), facts + FactsOf(w, e))
  {
    hide Inv, Step, AllFit, FactsOf;
    match e
    case EnqueueJob(_, _, _, _, _, _) => EnqueueFits(w, e, facts);
    case TickAt(_, _) => TickFits(w, e, facts);
    case FinishJob(_, _) => FinishFits(w, e, facts);
    case CleanUpJobs(_, _) => CleanUpFits(w, e, facts);
  }

  lemma {:induction false} FitsRun(w: World, es: seq<Event>, facts: seq<Fact>)
    requires Inv(w) && Playable(w, es) && AllFit(w, facts)
    ensures AllFit(Play(w, es), facts + History(w, es))
    decreases |es|
  {
    hide Inv, Step, AllFit, FactsOf;
    if es == [] {
      assert facts + [] == facts;
    } else {
      InvStep(w, es[0]);
      FitsStep(w, es[0], facts);
      FitsRun(Step(w, es[0]), es[1..], facts + FactsOf(w, es[0]));
      assert facts + FactsOf(w, es[0]) + History(Step(w, es[0]), es[1..]) == facts + History(w, es);
    }
  }

  // ---- Theorems over whole runs ----------------------------------------------------------------------

  /** Every job in the array is what its history says. */
  lemma JobIsItsHistory(es: seq<Event>, k: nat)
    requires Playable(EMPTY, es) && k < |Play(EMPTY, es).queue|
    ensures Fits(Play(EMPTY, es).queue[k], History(EMPTY, es))
  {
    hide *;
    InvEmpty();
    NothingToFit();
    FitsRun(EMPTY, es, []);
    FitOfAll(Play(EMPTY, es), [] + History(EMPTY, es), k);
    assert [] + History(EMPTY, es) == History(EMPTY, es);
  }

  lemma NothingToFit()
    ensures AllFit(EMPTY, [])
  {
  }

  lemma FitOfAll(w: World, facts: seq<Fact>, k: nat)
    requires AllFit(w, facts) && k < |w.queue|
    ensures Fits(w.queue[k], facts)
  {
  }

  /** Completed, failed, pending, processing: exactly when. A job is completed if and only if its handler
      resolved; failed if and only if nobody handled it, or its handler rejected with no attempt left; pending
      if and only if nothing has happened to it, or its handler rejected with attempts left; and processing if
      and only if its handler is running or rejected with null or undefined. Attempts are handler starts. */
  lemma StatusIff(es: seq<Event>, k: nat)
    requires Playable(EMPTY, es) && k < |Play(EMPTY, es).queue|
    ensures
      var j := Play(EMPTY, es).queue[k];
      var last, starts := LastOf(History(EMPTY, es), j.id), StartsOf(History(EMPTY, es), j.id);
      && last.Some? && j.attempts == starts
      && (j.status == Completed <==> last.value.Ended? && last.value.outcome == Resolved)
      && (j.status == Failed <==>
            last.value.NoHandler? || (last.value.Ended? && last.value.outcome == Rejected && starts >= j.maxAttempts))
      && (j.status == Pending <==>
            last.value.Enqueued? || (last.value.Ended? && last.value.outcome == Rejected && starts < j.maxAttempts))
      && (j.status == Processing <==>
            last.value.Started? || (last.value.Ended? && last.value.outcome == RejectedNullish))
  {
    hide Play, Playable, History, LastOf, StartsOf;
    JobIsItsHistory(es, k);
  }

  predicate Due(j: Job, now: int) {
    j.status == Pending && (j.scheduledFor.None? || j.scheduledFor.value <= now)
  }

  /** In front of the other in the array's order: higher priority, or the same and not younger. */
  predicate InFront(a: Job, b: Job) {
    a.priority > b.priority || (a.priority == b.priority && a.createdAt <= b.createdAt)
  }

  /** The due job in front of all others by priority, then age, the earliest in the array among equals. */
  ghost predicate FirstDue(q: seq<Job>, i: nat, now: int) {
    && i < |q| && Due(q[i], now)
    && forall k :: 0 <= k < |q| && Due(q[k], now) ==> i <= k && InFront(q[i], q[k])
  }

  /** In any reachable world a tick does nothing exactly when a handler is awaited or no job is due. Otherwise it
      deals with the first due job: it starts it exactly when its kind has a handler, and fails it otherwise. */
  lemma TickDealsWithTheFirst(es: seq<Event>, handlers: set<JobType>, now: int)
    requires Playable(EMPTY, es)
    ensures
      var w, e := Play(EMPTY, es), TickAt(handlers, now);
      if w.running.Some? || forall k :: 0 <= k < |w.queue| ==> !Due(w.queue[k], now) then
        FactsOf(w, e) == [] && Step(w, e) == w
      else
        exists i: nat :: FirstDue(w.queue, i, now) &&
          var j, handled := w.queue[i], w.queue[i].kind in handlers;
          && FactsOf(w, e) == [Fact(j.id, if handled then Started(now) else NoHandler(now))]
          && Step(w, e).running == if handled then Some(j.id) else None
  {
    var w := Play(EMPTY, es);
    InvEmpty();
    InvRun(EMPTY, es);
    hide Play, Playable, Inv;
    FirstReadyIsFirstDue(w, now);
    TickOn(w, handlers, now);
    if w.running.None? && FirstReady(w.queue, now) < |w.queue| {
      assert FirstDue(w.queue, FirstReady(w.queue, now), now);
    }
  }

  lemma FirstReadyIsFirstDue(w: World, now: int)
    requires Inv(w)
    ensures
      var i := FirstReady(w.queue, now);
      if i == |w.queue| then forall k :: 0 <= k < |w.queue| ==> !Due(w.queue[k], now)
      else FirstDue(w.queue, i, now)
  {
    SortedInFront(w);
    hide Inv, InFront;
    assert forall j :: Due(j, now) <==> Ready(j, now);
  }

  lemma TickOn(w: World, handlers: set<JobType>, now: int)
    ensures
      var e, i := TickAt(handlers, now), FirstReady(w.queue, now);
      if w.running.Some? || i == |w.queue| then FactsOf(w, e) == [] && Step(w, e) == w
      else
        var j, handled := w.queue[i], w.queue[i].kind in handlers;
        && FactsOf(w, e) == [Fact(j.id, if handled then Started(now) else NoHandler(now))]
        && Step(w, e).running == if handled then Some(j.id) else None
  {
    hide FirstReady;
  }

  lemma SortedInFront(w: World)
    requires Inv(w)
    ensures forall i, j :: 0 <= i < j < |w.queue| ==> InFront(w.queue[i], w.queue[j])
  {
    hide Census, JobsOk, RetriesWaited;
  }

  /** The starts and rejections of a history, each with the number of its attempt. */
  function LogOf(facts: seq<Fact>): seq<Entry> {
    if facts == [] then []
    else
      var f := facts[|facts| - 1];
      var attempt := StartsOf(facts, f.id);
      LogOf(facts[..|facts| - 1]) +
      match f.what
      case Started(at) => [StartedAt(f.id, attempt, at)]
      case Ended(Rejected, at) => [FailedAt(f.id, attempt, at)]
      case _ => []
  }

  lemma LogAppended(facts: seq<Fact>, f: Fact)
    ensures
      var attempt := StartsOf(facts, f.id) + if f.what.Started? then 1 else 0;
      LogOf(facts + [f]) == LogOf(facts) +
        match f.what
        case Started(at) => [StartedAt(f.id, attempt, at)]
        case Ended(Rejected, at) => [FailedAt(f.id, attempt, at)]
        case _ => []
  {
    FactAppended(facts, f, f.id);
    hide StartsOf;
    assert (facts + [f])[..|facts|] == facts;
  }

  lemma LogStep(w: World, e: Event, facts: seq<Fact>)
    requires Enabled(w, e) && AllFit(w, facts) && w.log == LogOf(facts)
    ensures Step(w, e).log == LogOf(facts + FactsOf(w, e))
  {
    hide LogOf, StartsOf, LastOf, SaysLast;
    if FactsOf(w, e) == [] { assert facts + [] == facts; } else { LogAppended(facts, FactsOf(w, e)[0]); }
    if e.FinishJob? { FitOfAll(w, facts, Find(w.queue, w.running.value)); }
    match Choose(w.queue, w.running.Some?, if e.TickAt? then e.handlers else {}, if e.TickAt? then e.now else 0)
    case Taken(i) => FitOfAll(w, facts, i);
    case _ =>
  }

  lemma {:induction false} LogRun(w: World, es: seq<Event>, facts: seq<Fact>)
    requires Inv(w) && Playable(w, es) && AllFit(w, facts) && w.log == LogOf(facts)
    ensures Play(w, es).log == LogOf(facts + History(w, es))
    decreases |es|
  {
    hide Inv, Step, AllFit, FactsOf, LogOf;
    if es == [] {
      assert facts + [] == facts;
    } else {
      InvStep(w, es[0]);
      FitsStep(w, es[0], facts);
      LogStep(w, es[0], facts);
      LogRun(Step(w, es[0]), es[1..], facts + FactsOf(w, es[0]));
      assert facts + FactsOf(w, es[0]) + History(Step(w, es[0]), es[1..]) == facts + History(w, es);
    }
  }

  /** The log of starts and failures, about which the waiting times are stated, is the history's. */
  lemma LogIsHistory(es: seq<Event>)
    requires Playable(EMPTY, es)
    ensures Play(EMPTY, es).log == LogOf(History(EMPTY, es))
  {
    InvEmpty();
    NothingToFit();
    hide Inv, AllFit, Play, Playable, History;
    LogRun(EMPTY, es, []);
    assert [] + History(EMPTY, es) == History(EMPTY, es);
  }

  /** A cleanup keeps exactly the jobs that are not finished or not older than the cutoff, and records the
      others as removed. */
  lemma CleanUpExact(es: seq<Event>, olderThan: int, now: int, j: Job)
    requires Playable(EMPTY, es)
    ensures
      var w := Play(EMPTY, es);
      var w' := Step(w, CleanUpJobs(olderThan, now));
      var goes := (j.status == Completed || j.status == Failed) && j.createdAt < now - olderThan;
      && (j in w'.queue <==> j in w.queue && !goes)
      && (j in w.queue && goes ==> j.id in w'.removed && w'.removed[j.id].job == j)
  {
    hide *;
    InvEmpty();
    InvRun(EMPTY, es);
    CleanUpOn(Play(EMPTY, es), olderThan, now, j);
  }

  lemma CleanUpOn(w: World, olderThan: int, now: int, j: Job)
    requires Inv(w)
    ensures
      var w' := Step(w, CleanUpJobs(olderThan, now));
      var goes := (j.status == Completed || j.status == Failed) && j.createdAt < now - olderThan;
      && (j in w'.queue <==> j in w.queue && !goes)
      && (j in w.queue && goes ==> j.id in w'.removed && w'.removed[j.id].job == j)
  {
    var cutoff := now - olderThan;
    assert DistinctIds(w.queue);
    hide Inv, DistinctIds, Ids, Removals;
    RemovalsExact(w.queue, cutoff);
    if j in w.queue && Stale(j, cutoff) { SameIdSameJob(w.queue, j, Removals(w.queue, cutoff)[j.id].job); }
  }

  /** The backoff doubles with every attempt: it is 1000 ms times a power of two. */
  lemma {:induction false} Powers(m: nat, n: nat)
    ensures Pow2(0) == 1 && Pow2(1) == 2 && Pow2(m + n) == Pow2(m) * Pow2(n)
    decreases m
  {
    if m > 0 {
      Powers(m - 1, n);
      assert Pow2(m + n) == 2 * (Pow2(m - 1) * Pow2(n)) == (2 * Pow2(m - 1)) * Pow2(n);
    }
  }
}
