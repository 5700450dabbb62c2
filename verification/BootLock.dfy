/** The cross-process boot lock: one Redis key taken with SET NX PX, extended by a
    compare-and-extend heartbeat, freed by a compare-and-delete release, and polled for by the
    processes that did not get it. Processes interleave at every Redis command and at every
    reply. */
module BootLock {

  const TTL_MS: int := 30_000

  // ---- The key and the three commands ---------------------------------------------

  datatype Key = Free | Held(owner: nat, expiry: int)

  predicate Live(key: Key, now: int) {
    key.Held? && now < key.expiry
  }

  predicate Owns(key: Key, now: int, p: nat) {
    Live(key, now) && key.owner == p
  }

  function AfterSetNx(key: Key, now: int, p: nat): Key {
    if Live(key, now) then key else Held(p, now + TTL_MS)
  }

  function AfterExtend(key: Key, now: int, p: nat): Key {
    if Owns(key, now, p) then Held(p, now + TTL_MS) else key
  }

  function AfterDelete(key: Key, now: int, p: nat): Key {
    if Owns(key, now, p) then Free else key
  }

  class Redis {
    var now: int
    var key: Key

    constructor (now: int)
      ensures this.now == now && key == Free
    {
      this.now, key := now, Free;
    }

    method SetNxPx(p: nat) returns (ok: bool)
      modifies this`key
      ensures key == AfterSetNx(old(key), now, p)
      ensures ok <==> !Live(old(key), now)
    {
      ok := !(key.Held? && now < key.expiry);
      if ok { key := Held(p, now + TTL_MS); }
    }

    method ExtendIfOwner(p: nat) returns (ok: bool)
      modifies this`key
      ensures key == AfterExtend(old(key), now, p)
      ensures ok <==> Owns(old(key), now, p)
    {
      ok := key.Held? && now < key.expiry && key.owner == p;
      if ok { key := Held(p, now + TTL_MS); }
    }

    method DeleteIfOwner(p: nat) returns (deleted: bool)
      modifies this`key
      ensures key == AfterDelete(old(key), now, p)
      ensures deleted <==> Owns(old(key), now, p)
    {
      deleted := key.Held? && now < key.expiry && key.owner == p;
      if deleted { key := Free; }
    }
  }

  /** The lock module of one process, each call run to its end without interruption. */
  class ProcessLock {
    const id: nat
    const redis: Redis
    var heartbeat: bool

    constructor (id: nat, redis: Redis)
      ensures this.id == id && this.redis == redis && !heartbeat
    {
      this.id, this.redis, heartbeat := id, redis, false;
    }

    method TryAcquire() returns (owned: bool)
      modifies redis`key, this`heartbeat
      ensures redis.key == AfterSetNx(old(redis.key), redis.now, id)
      ensures owned <==> !Live(old(redis.key), redis.now)
      ensures heartbeat == (owned || old(heartbeat))
    {
      owned := redis.SetNxPx(id);
      if owned { heartbeat := true; }
    }

    method RefreshLock()
      modifies redis`key, this`heartbeat
      ensures redis.key == AfterExtend(old(redis.key), redis.now, id)
      ensures heartbeat == (Owns(old(redis.key), redis.now, id) && old(heartbeat))
    {
      var ok := redis.ExtendIfOwner(id);
      if ok { return; }
      heartbeat := false;
    }

    method Release()
      modifies redis`key, this`heartbeat
      ensures redis.key == AfterDelete(old(redis.key), redis.now, id)
      ensures !heartbeat
    {
      heartbeat := false;
      var _ := redis.DeleteIfOwner(id);
    }
  }

  // ---- The interleaved protocol ---------------------------------------------------

  /** A process between awaits. `grants`, `beats` and `failures` count Redis replies (or
      commands) on the way: acquisitions answered OK, heartbeats sent, heartbeats answered 0.
      `pollGrants` and `pollDenials` are the replies owed to the reclaim poller.
      `leaseEnd` and `lastPoll` are history: when the last lease Redis gave this process runs
      out (or was given back), and when its poller last asked. */
  datatype Process = Process(
    alive: bool, heartbeat: bool, releasing: bool,
    grants: nat, beats: nat, failures: nat,
    started: bool, polling: bool, pollGrants: nat, pollDenials: nat, fired: nat,
    leaseEnd: int, lastPoll: int)

  datatype World = World(now: int, key: Key, procs: seq<Process>)

  datatype Event =
    | Advance(ms: nat)
    | SetNx(p: nat)            // tryAcquireBootLock reaches Redis
    | GrantReply(p: nat)       // its OK arrives: start the heartbeat
    | Beat(p: nat)             // the heartbeat timer fires
    | Extend(p: nat)           // its script runs in Redis
    | FailureReply(p: nat)     // its 0 arrives: stop the heartbeat
    | BeginRelease(p: nat)     // releaseBootLock stops the heartbeat
    | Delete(p: nat)           // its script runs in Redis
    | StartPolling(p: nat)
    | StopPolling(p: nat)
    | Poll(p: nat)             // the reclaim timer fires and its SET reaches Redis
    | PollGrantReply(p: nat)   // OK: stop polling and run onReclaim
    | PollDenialReply(p: nat)
    | Crash(p: nat)

  predicate Enabled(w: World, e: Event) {
    e.Advance? ||
    (e.p < |w.procs| && w.procs[e.p].alive &&
     var s := w.procs[e.p];
     match e
     case SetNx(_) => true
     case GrantReply(_) => s.grants > 0
     case Beat(_) => s.heartbeat
     case Extend(_) => s.beats > 0
     case FailureReply(_) => s.failures > 0
     case BeginRelease(_) => true
     case Delete(_) => s.releasing
     case StartPolling(_) => !s.started
     case StopPolling(_) => true
     case Poll(_) => s.polling
     case PollGrantReply(_) => s.pollGrants > 0
     case PollDenialReply(_) => s.pollDenials > 0
     case Crash(_) => true)
  }

  function WithKey(w: World, key: Key, p: nat, s: Process): World
    requires p < |w.procs|
  {
    w.(key := key, procs := w.procs[p := s])
  }

  function Step(w: World, e: Event): World
    requires Enabled(w, e)
  {
    if e.Advance? then w.(now := w.now + e.ms)
    else
      var p, s := e.p, w.procs[e.p];
      var free, mine := !Live(w.key, w.now), Owns(w.key, w.now, p);
      match e
      case SetNx(_) =>
        WithKey(w, AfterSetNx(w.key, w.now, p), p,
                if free then s.(grants := s.grants + 1, leaseEnd := w.now + TTL_MS) else s)
      case GrantReply(_) => WithKey(w, w.key, p, s.(grants := s.grants - 1, heartbeat := true))
      case Beat(_) => WithKey(w, w.key, p, s.(beats := s.beats + 1))
      case Extend(_) =>
        WithKey(w, AfterExtend(w.key, w.now, p), p,
                if mine then s.(beats := s.beats - 1, leaseEnd := w.now + TTL_MS)
                else s.(beats := s.beats - 1, failures := s.failures + 1))
      case FailureReply(_) => WithKey(w, w.key, p, s.(failures := s.failures - 1, heartbeat := false))
      case BeginRelease(_) => WithKey(w, w.key, p, s.(heartbeat := false, releasing := true))
      case Delete(_) =>
        WithKey(w, AfterDelete(w.key, w.now, p), p,
                if mine then s.(releasing := false, leaseEnd := w.now) else s.(releasing := false))
      case StartPolling(_) => WithKey(w, w.key, p, s.(started := true, polling := true, lastPoll := w.now))
      case StopPolling(_) => WithKey(w, w.key, p, s.(polling := false))
      case Poll(_) =>
        WithKey(w, AfterSetNx(w.key, w.now, p), p,
                if free then s.(pollGrants := s.pollGrants + 1, leaseEnd := w.now + TTL_MS, lastPoll := w.now)
                else s.(pollDenials := s.pollDenials + 1, lastPoll := w.now))
      case PollGrantReply(_) =>
        WithKey(w, w.key, p,
                s.(pollGrants := s.pollGrants - 1, heartbeat := true, polling := false, fired := s.fired + 1))
      case PollDenialReply(_) => WithKey(w, w.key, p, s.(pollDenials := s.pollDenials - 1))
      case Crash(_) =>
        WithKey(w, w.key, p,
                s.(alive := false, heartbeat := false, grants := 0, beats := 0, failures := 0,
                   polling := false, pollGrants := 0, pollDenials := 0))
  }

  predicate Playable(w: World, es: seq<Event>)
    decreases |es|
  {
    es == [] || (Enabled(w, es[0]) && Playable(Step(w, es[0]), es[1..]))
  }

  function Play(w: World, es: seq<Event>): World
    requires Playable(w, es)
    decreases |es|
  {
    if es == [] then w else Play(Step(w, es[0]), es[1..])
  }

  function NewProcess(now: int): Process {
    Process(true, false, false, 0, 0, 0, false, false, 0, 0, 0, now, now)
  }

  predicate Initial(w: World) {
    w.key == Free && forall p :: 0 <= p < |w.procs| ==> w.procs[p] == NewProcess(w.now)
  }

  // ---- What every run keeps ----------------------------------------------------------

  /** What a process remembers of its last lease agrees with the key. */
  predicate LeaseFits(key: Key, now: int, s: Process, p: nat) {
    && s.leaseEnd <= now + TTL_MS
    && (if key.Held? && key.owner == p then s.leaseEnd == key.expiry else s.leaseEnd <= now)
    && (s.polling ==> s.started)
  }

  /** Redis's key and the leases the processes were given tell the same story. */
  ghost predicate Consistent(w: World) {
    && (w.key.Held? ==> w.key.owner < |w.procs|)
    && (forall p :: 0 <= p < |w.procs| ==> LeaseFits(w.key, w.now, w.procs[p], p))
  }

  lemma MoverFits(w: World, e: Event)
    requires Enabled(w, e) && !e.Advance? && LeaseFits(w.key, w.now, w.procs[e.p], e.p)
    ensures
      var w' := Step(w, e);
      && w'.now == w.now && |w'.procs| == |w.procs|
      && LeaseFits(w'.key, w'.now, w'.procs[e.p], e.p)
      && (w'.key == w.key || w'.key == Free || w'.key.owner == e.p)
  {
  }

  /** Only an expired or an own key is replaced. */
  lemma BystanderFits(w: World, e: Event, q: nat)
    requires Enabled(w, e) && !e.Advance? && q < |w.procs| && q != e.p && LeaseFits(w.key, w.now, w.procs[q], q)
    ensures
      var w' := Step(w, e);
      w'.procs[q] == w.procs[q] && LeaseFits(w'.key, w'.now, w'.procs[q], q)
  {
  }

  lemma ConsistentStep(w: World, e: Event)
    requires Consistent(w) && Enabled(w, e)
    ensures Consistent(Step(w, e))
  {
    if !e.Advance? {
      MoverFits(w, e);
      hide LeaseFits, Step;
      forall q | 0 <= q < |w.procs| ensures LeaseFits(Step(w, e).key, Step(w, e).now, Step(w, e).procs[q], q) {
        if q != e.p { BystanderFits(w, e, q); }
      }
    }
  }

  lemma {:induction false} ConsistentRun(w: World, es: seq<Event>)
    requires Consistent(w) && Playable(w, es)
    ensures Consistent(Play(w, es))
    decreases |es|
  {
    if es != [] {
      ConsistentStep(w, es[0]);
      ConsistentRun(Step(w, es[0]), es[1..]);
    }
  }

  /** In every interleaving, with no timing assumption at all: a process holds the key exactly
      while the last lease it was given has neither run out nor been given back. Two processes
      that both believe in the lock therefore never both hold a current lease. */
  lemma HoldsExactlyDuringLease(w0: World, es: seq<Event>, p: nat, q: nat)
    requires Initial(w0) && Playable(w0, es) && p < |w0.procs| && q < |w0.procs|
    ensures
      var w := Play(w0, es);
      && |w.procs| == |w0.procs|
      && (Owns(w.key, w.now, p) <==> w.now < w.procs[p].leaseEnd)
      && (w.now < w.procs[p].leaseEnd && w.now < w.procs[q].leaseEnd ==> p == q)
  {
    ConsistentRun(w0, es);
    ProcessCount(w0, es);
  }

  // ---- The lease, from the events alone -----------------------------------------------------

  /** The time that passes in a run. */
  function Elapsed(es: seq<Event>): nat {
    if es == [] then 0 else Elapsed(es[..|es| - 1]) + (if es[|es| - 1].Advance? then es[|es| - 1].ms else 0)
  }

  lemma {:induction false} PlayLast(w: World, es: seq<Event>)
    requires es != [] && Playable(w, es)
    ensures
      var front, last := es[..|es| - 1], es[|es| - 1];
      Playable(w, front) && Enabled(Play(w, front), last) && Play(w, es) == Step(Play(w, front), last)
    decreases |es|
  {
    hide Step, Enabled;
    if |es| > 1 {
      PlayLast(Step(w, es[0]), es[1..]);
      assert es[1..][..|es| - 2] == es[..|es| - 1][1..];
    }
  }

  lemma {:induction false} ClockIsElapsed(w: World, es: seq<Event>)
    requires Playable(w, es)
    ensures Play(w, es).now == w.now + Elapsed(es)
    decreases |es|
  {
    if es != [] {
      PlayLast(w, es);
      ClockIsElapsed(w, es[..|es| - 1]);
    }
  }

  /** Event `i` of the run gives `p` a lease of a whole TTL: its SET finds no live key, or its heartbeat script
      finds its own. */
  ghost predicate Renews(w0: World, es: seq<Event>, i: nat, p: nat) {
    && i < |es| && Playable(w0, es[..i])
    && var w := Play(w0, es[..i]);
    if Live(w.key, w.now) then w.key.owner == p && es[i] == Extend(p) else es[i] == SetNx(p) || es[i] == Poll(p)
  }

  /** Event `i` gave `p` a lease that has neither run out nor been given back at the end of the run. */
  ghost predicate LeasedBy(w0: World, es: seq<Event>, i: nat, p: nat) {
    && Renews(w0, es, i, p)
    && Elapsed(es) < Elapsed(es[..i]) + 30_000
    && forall j :: i < j < |es| ==> es[j] != Delete(p)
  }

  lemma RenewsFront(w0: World, es: seq<Event>, e: Event, i: nat, p: nat)
    requires i < |es|
    ensures Renews(w0, es + [e], i, p) <==> Renews(w0, es, i, p)
    ensures (es + [e])[..i] == es[..i]
  {
    assert (es + [e])[..i] == es[..i];
  }

  /** What one step does to the key of its owner, and who becomes the owner. */
  lemma LeaseStep(w: World, e: Event, p: nat)
    requires Enabled(w, e) && (w.key.Held? ==> w.key.expiry <= w.now + 30_000)
    ensures
      var w' := Step(w, e);
      && (w'.key.Held? ==> w'.key.expiry <= w'.now + 30_000)
      && (Owns(w.key, w.now, p) && e != Delete(p) ==>
            w'.key == Held(p, if e == Extend(p) then w.now + 30_000 else w.key.expiry))
      && (Owns(w.key, w.now, p) && e == Delete(p) ==> !Live(w'.key, w'.now))
      && (!Live(w.key, w.now) && (e == SetNx(p) || e == Poll(p)) ==> w'.key == Held(p, w.now + 30_000))
      && (Owns(w'.key, w'.now, p) && !Owns(w.key, w.now, p) ==>
            !Live(w.key, w.now) && (e == SetNx(p) || e == Poll(p)))
  {
  }

  /** The lease of an owner runs for exactly a TTL from the last event that gave it one: no heartbeat script of
      the owner has run since, and no release. */
  lemma {:induction false} LeaseFromLastRenewal(w0: World, es: seq<Event>, p: nat) returns (i: nat)
    requires Initial(w0) && Playable(w0, es)
    requires
      var w := Play(w0, es);
      Owns(w.key, w.now, p)
    ensures i < |es| && Renews(w0, es, i, p) && Play(w0, es).key.expiry == w0.now + Elapsed(es[..i]) + 30_000
    ensures forall j :: i < j < |es| ==> es[j] != Extend(p) && es[j] != Delete(p)
    decreases |es|
  {
    hide Step, Enabled, Initial, Play, Playable, Owns, Live, Renews;
    if es == [] {
      NothingHeld(w0, p);
    } else {
      var front, last := es[..|es| - 1], es[|es| - 1];
      assert es == front + [last];
      PlayLast(w0, es);
      ClockIsElapsed(w0, front);
      KeyBound(w0, front);
      var before := Play(w0, front);
      LeaseStep(before, last, p);
      if Owns(before.key, before.now, p) && last != Extend(p) {
        i := LeaseFromLastRenewal(w0, front, p);
        RenewsFront(w0, front, last, i, p);
        DeletedIsGone(before, last, p);
      } else {
        i := |front|;
        assert es[..i] == front;
        LastRenews(w0, front, last, p);
        RenewedExpiry(before, last, p);
      }
    }
  }

  lemma NothingHeld(w: World, p: nat)
    requires Initial(w)
    ensures Playable(w, []) && Play(w, []) == w && !Owns(w.key, w.now, p) && w.key == Free
  {
  }

  lemma {:induction false} KeyBound(w0: World, es: seq<Event>)
    requires Initial(w0) && Playable(w0, es)
    ensures
      var w := Play(w0, es);
      w.key.Held? ==> w.key.expiry <= w.now + 30_000
  {
    ConsistentRun(w0, es);
    var w := Play(w0, es);
    if w.key.Held? { assert LeaseFits(w.key, w.now, w.procs[w.key.owner], w.key.owner); }
  }

  lemma DeletedIsGone(w: World, e: Event, p: nat)
    requires Enabled(w, e) && Owns(w.key, w.now, p) && Owns(Step(w, e).key, Step(w, e).now, p)
    ensures e != Delete(p)
  {
  }

  lemma LastRenews(w0: World, es: seq<Event>, e: Event, p: nat)
    requires Playable(w0, es) && Enabled(Play(w0, es), e)
    requires
      var w := Play(w0, es);
      || (Owns(w.key, w.now, p) && e == Extend(p))
      || (!Live(w.key, w.now) && (e == SetNx(p) || e == Poll(p)))
    ensures Renews(w0, es + [e], |es|, p)
  {
    assert (es + [e])[..|es|] == es;
  }

  lemma RenewedExpiry(w: World, e: Event, p: nat)
    requires Enabled(w, e)
    requires
      || (Owns(w.key, w.now, p) && e == Extend(p))
      || (!Live(w.key, w.now) && (e == SetNx(p) || e == Poll(p)))
    ensures Step(w, e).key == Held(p, w.now + 30_000)
  {
  }

  /** Who owns the key, from the history alone: `p`, exactly when some SET or heartbeat of its gave it a lease less
      than a TTL ago and it has not released the key since. */
  lemma OwnsIff(w0: World, es: seq<Event>, p: nat)
    requires Initial(w0) && Playable(w0, es)
    ensures
      var w := Play(w0, es);
      Owns(w.key, w.now, p) <==> exists i: nat :: LeasedBy(w0, es, i, p)
  {
    var w := Play(w0, es);
    hide Initial, Play, Playable, Renews;
    ClockIsElapsed(w0, es);
    if Owns(w.key, w.now, p) {
      var i := LeaseFromLastRenewal(w0, es, p);
      assert LeasedBy(w0, es, i, p);
    }
    if i: nat :| i < |es| && LeasedBy(w0, es, i, p) { LeaseRuns(w0, es, i, p); }
    assert forall i: nat :: LeasedBy(w0, es, i, p) ==> i < |es| by { LeasedInRange(w0, es, p); }
  }

  lemma LeasedInRange(w0: World, es: seq<Event>, p: nat)
    ensures forall i: nat :: LeasedBy(w0, es, i, p) ==> i < |es|
  {
  }

  lemma {:induction false} LeaseRuns(w0: World, es: seq<Event>, i: nat, p: nat)
    requires i < |es| && Initial(w0) && Playable(w0, es) && LeasedBy(w0, es, i, p)
    ensures
      var w := Play(w0, es);
      Owns(w.key, w.now, p) && w0.now + Elapsed(es[..i]) + 30_000 <= w.key.expiry
    decreases |es|
  {
    hide Step, Enabled, Initial, Play, Playable, Renews;
    var front, last := es[..|es| - 1], es[|es| - 1];
    assert es == front + [last];
    PlayLast(w0, es);
    ClockIsElapsed(w0, front);
    ClockIsElapsed(w0, es);
    KeyBound(w0, front);
    if i == |front| {
      assert es[..i] == front;
      RenewalIsLast(w0, front, last, p);
      RenewedExpiry(Play(w0, front), last, p);
    } else {
      RenewsFront(w0, front, last, i, p);
      LeaseRuns(w0, front, i, p);
      LeaseStep(Play(w0, front), last, p);
    }
  }

  lemma RenewalIsLast(w0: World, es: seq<Event>, e: Event, p: nat)
    requires Playable(w0, es) && Renews(w0, es + [e], |es|, p)
    ensures
      var w := Play(w0, es);
      || (Owns(w.key, w.now, p) && e == Extend(p))
      || (!Live(w.key, w.now) && (e == SetNx(p) || e == Poll(p)))
  {
    assert (es + [e])[..|es|] == es;
  }

  /** From `now` on: no release of `p`, and always a heartbeat script of `p` before the lease that ends at
      `deadline`, or that the last one gave, runs out. */
  predicate KeptUp(now: int, deadline: int, es: seq<Event>, p: nat)
    decreases |es|
  {
    es == [] ||
    match es[0]
    case Advance(ms) => now + ms < deadline && KeptUp(now + ms, deadline, es[1..], p)
    case Extend(q) => KeptUp(now, if q == p then now + 30_000 else deadline, es[1..], p)
    case Delete(q) => q != p && KeptUp(now, deadline, es[1..], p)
    case _ => KeptUp(now, deadline, es[1..], p)
  }

  /** `p` owns the key at every moment of the run. */
  predicate OwnsThroughout(w: World, es: seq<Event>, p: nat)
    requires Playable(w, es)
    decreases |es|
  {
    Owns(w.key, w.now, p) && (es == [] || OwnsThroughout(Step(w, es[0]), es[1..], p))
  }

  lemma {:induction false} KeptUpIff(w: World, es: seq<Event>, p: nat)
    requires Consistent(w) && Owns(w.key, w.now, p) && Playable(w, es)
    ensures OwnsThroughout(w, es, p) <==> KeptUp(w.now, w.key.expiry, es, p)
    ensures OwnsThroughout(w, es, p) ==> Owns(Play(w, es).key, Play(w, es).now, p)
    decreases |es|
  {
    if es != [] {
      var w' := Step(w, es[0]);
      ConsistentStep(w, es[0]);
      OwnerStep(w, es[0], p);
      hide Step, Enabled, Consistent;
      if Owns(w'.key, w'.now, p) { KeptUpIff(w', es[1..], p); }
    }
  }

  lemma OwnerStep(w: World, e: Event, p: nat)
    requires Enabled(w, e) && Owns(w.key, w.now, p)
    ensures
      var w' := Step(w, e);
      && w'.now == w.now + (if e.Advance? then e.ms else 0)
      && (Owns(w'.key, w'.now, p) <==> e != Delete(p) && (e.Advance? ==> w.now + e.ms < w.key.expiry))
      && (Owns(w'.key, w'.now, p) ==> w'.key.expiry == if e == Extend(p) then w.now + 30_000 else w.key.expiry)
  {
  }

  /** Heartbeats keep the lock: a process that owns the key in some reachable world owns it throughout any run
      from there exactly when it does not release it and a heartbeat script of its reaches Redis before each
      lease runs out, the first of which ends a TTL after its last renewal. */
  lemma HeartbeatsKeepTheLock(w0: World, before: seq<Event>, es: seq<Event>, p: nat) returns (i: nat)
    requires Initial(w0) && Playable(w0, before)
    requires
      var w := Play(w0, before);
      Owns(w.key, w.now, p) && Playable(w, es)
    ensures Renews(w0, before, i, p) && forall j :: i < j < |before| ==> before[j] != Extend(p)
    ensures
      var w := Play(w0, before);
      OwnsThroughout(w, es, p) <==> KeptUp(w.now, w0.now + Elapsed(before[..i]) + 30_000, es, p)
  {
    i := LeaseFromLastRenewal(w0, before, p);
    ConsistentRun(w0, before);
    KeptUpIff(Play(w0, before), es, p);
  }

  // ---- The processes, from the events alone ---------------------------------------------------

  /** The heartbeat runs if the last event of `p` that bears on it was an OK taken up. */
  predicate BeatsOn(es: seq<Event>, p: nat) {
    es != [] &&
    var e := es[|es| - 1];
    if e == GrantReply(p) || e == PollGrantReply(p) then true
    else if e == FailureReply(p) || e == BeginRelease(p) || e == Crash(p) then false
    else BeatsOn(es[..|es| - 1], p)
  }

  predicate PollsOn(es: seq<Event>, p: nat) {
    es != [] &&
    var e := es[|es| - 1];
    if e == StartPolling(p) then true
    else if e == PollGrantReply(p) || e == StopPolling(p) || e == Crash(p) then false
    else PollsOn(es[..|es| - 1], p)
  }

  predicate ReleasesOn(es: seq<Event>, p: nat) {
    es != [] &&
    var e := es[|es| - 1];
    if e == BeginRelease(p) then true else if e == Delete(p) then false else ReleasesOn(es[..|es| - 1], p)
  }

  /** What each process is doing follows from what happened to it: an OK starts its heartbeat, an answer 0, a
      release or a crash stops it; a win stops its poller and runs the callback, once for each win. */
  ghost predicate StateFits(s: Process, es: seq<Event>, p: nat) {
    && s.heartbeat == BeatsOn(es, p) && s.polling == PollsOn(es, p) && s.releasing == ReleasesOn(es, p)
    && s.alive == (Crash(p) !in es) && s.started == (StartPolling(p) in es)
    && s.fired == multiset(es)[PollGrantReply(p)]
  }

  lemma {:induction false} StateFromHistory(w0: World, es: seq<Event>, p: nat)
    requires Initial(w0) && Playable(w0, es) && p < |w0.procs|
    ensures |Play(w0, es).procs| == |w0.procs| && StateFits(Play(w0, es).procs[p], es, p)
    decreases |es|
  {
    ProcessCount(w0, es);
    if es != [] {
      var front, last := es[..|es| - 1], es[|es| - 1];
      PlayLast(w0, es);
      StateFromHistory(w0, front, p);
      hide Initial, Play, Playable;
      ProcessCount(w0, front);
      StateStep(Play(w0, front), front, last, p);
      assert es == front + [last];
    }
  }

  lemma StateStep(w: World, es: seq<Event>, e: Event, p: nat)
    requires Enabled(w, e) && p < |w.procs| && StateFits(w.procs[p], es, p)
    ensures StateFits(Step(w, e).procs[p], es + [e], p)
  {
    HistoryNext(es, e, p);
    ProcessNext(w, e, p);
    hide Step, Enabled, BeatsOn, PollsOn, ReleasesOn;
    assert multiset(es + [e]) == multiset(es) + multiset{e};
  }

  lemma HistoryNext(es: seq<Event>, e: Event, p: nat)
    ensures
      && BeatsOn(es + [e], p)
         == (if e == GrantReply(p) || e == PollGrantReply(p) then true
             else if e == FailureReply(p) || e == BeginRelease(p) || e == Crash(p) then false else BeatsOn(es, p))
      && PollsOn(es + [e], p)
         == (if e == StartPolling(p) then true
             else if e == PollGrantReply(p) || e == StopPolling(p) || e == Crash(p) then false else PollsOn(es, p))
      && ReleasesOn(es + [e], p)
         == (if e == BeginRelease(p) then true else if e == Delete(p) then false else ReleasesOn(es, p))
  {
    assert (es + [e])[..|es|] == es;
  }

  lemma Untouched(w: World, e: Event, p: nat)
    requires Enabled(w, e) && p < |w.procs| && (e.Advance? || e.p != p)
    ensures Step(w, e).procs[p] == w.procs[p]
  {
    hide Live, Owns, AfterSetNx, AfterExtend, AfterDelete;
  }

  lemma ProcessNextMover(w: World, e: Event, p: nat)
    requires Enabled(w, e) && !e.Advance? && e.p == p && p < |w.procs|
    ensures
      var s, s' := w.procs[p], Step(w, e).procs[p];
      && s'.heartbeat
         == (if e == GrantReply(p) || e == PollGrantReply(p) then true
             else if e == FailureReply(p) || e == BeginRelease(p) || e == Crash(p) then false else s.heartbeat)
      && s'.polling
         == (if e == StartPolling(p) then true
             else if e == PollGrantReply(p) || e == StopPolling(p) || e == Crash(p) then false else s.polling)
      && s'.releasing == (if e == BeginRelease(p) then true else if e == Delete(p) then false else s.releasing)
      && s'.alive == (s.alive && e != Crash(p)) && s'.started == (s.started || e == StartPolling(p))
      && s'.fired == s.fired + (if e == PollGrantReply(p) then 1 else 0)
  {
    hide Live, Owns, AfterSetNx, AfterExtend, AfterDelete;
  }

  lemma ProcessNext(w: World, e: Event, p: nat)
    requires Enabled(w, e) && p < |w.procs|
    ensures
      var s, s' := w.procs[p], Step(w, e).procs[p];
      && s'.heartbeat
         == (if e == GrantReply(p) || e == PollGrantReply(p) then true
             else if e == FailureReply(p) || e == BeginRelease(p) || e == Crash(p) then false else s.heartbeat)
      && s'.polling
         == (if e == StartPolling(p) then true
             else if e == PollGrantReply(p) || e == StopPolling(p) || e == Crash(p) then false else s.polling)
      && s'.releasing == (if e == BeginRelease(p) then true else if e == Delete(p) then false else s.releasing)
      && s'.alive == (s.alive && e != Crash(p)) && s'.started == (s.started || e == StartPolling(p))
      && s'.fired == s.fired + (if e == PollGrantReply(p) then 1 else 0)
  {
    if !e.Advance? && e.p == p {
      ProcessNextMover(w, e, p);
    } else {
      Untouched(w, e, p);
      hide Step, Enabled;
    }
  }

  // The calls of `ProcessLock` are runs of this protocol that nothing interrupts.

  lemma AcquireIsRun(w: World, p: nat)
    requires p < |w.procs| && w.procs[p].alive
    ensures
      var s, free := w.procs[p], !Live(w.key, w.now);
      var es := if free then [SetNx(p), GrantReply(p)] else [SetNx(p)];
      && Playable(w, es)
      && Play(w, es) == WithKey(w, AfterSetNx(w.key, w.now, p), p,
                                if free then s.(heartbeat := true, leaseEnd := w.now + TTL_MS) else s)
  {
    hide Play, Playable;
    if Live(w.key, w.now) { OneEvent(w, SetNx(p)); } else { TwoEvents(w, SetNx(p), GrantReply(p)); }
  }

  lemma RefreshIsRun(w: World, p: nat)
    requires p < |w.procs| && w.procs[p].alive && w.procs[p].heartbeat
    ensures
      var s, mine := w.procs[p], Owns(w.key, w.now, p);
      var es := if mine then [Beat(p), Extend(p)] else [Beat(p), Extend(p), FailureReply(p)];
      && Playable(w, es)
      && Play(w, es) == WithKey(w, AfterExtend(w.key, w.now, p), p,
                                if mine then s.(leaseEnd := w.now + TTL_MS) else s.(heartbeat := false))
  {
    hide Play, Playable, Live, Owns, AfterSetNx, AfterExtend, AfterDelete;
    if Owns(w.key, w.now, p) {
      TwoEvents(w, Beat(p), Extend(p));
    } else {
      TwoEvents(Step(w, Beat(p)), Extend(p), FailureReply(p));
      PlayCons(w, Beat(p), [Extend(p)] + [FailureReply(p)]);
      assert [Beat(p), Extend(p), FailureReply(p)] == [Beat(p)] + ([Extend(p)] + [FailureReply(p)]);
    }
  }

  lemma ReleaseIsRun(w: World, p: nat)
    requires p < |w.procs| && w.procs[p].alive
    ensures
      var s, es := w.procs[p], [BeginRelease(p), Delete(p)];
      && Playable(w, es)
      && Play(w, es) == WithKey(w, AfterDelete(w.key, w.now, p), p,
                                s.(heartbeat := false, releasing := false,
                                   leaseEnd := if Owns(w.key, w.now, p) then w.now else s.leaseEnd))
  {
    hide Play, Playable;
    TwoEvents(w, BeginRelease(p), Delete(p));
  }

  lemma OneEvent(w: World, e: Event)
    requires Enabled(w, e)
    ensures Playable(w, [e]) && Play(w, [e]) == Step(w, e)
  {
  }

  lemma TwoEvents(w: World, e: Event, f: Event)
    requires Enabled(w, e) && Enabled(Step(w, e), f)
    ensures Playable(w, [e] + [f]) && Play(w, [e] + [f]) == Step(Step(w, e), f) && [e, f] == [e] + [f]
  {
    OneEvent(Step(w, e), f);
    PlayCons(w, e, [f]);
  }

  /** What Redis answers to a SET or to a heartbeat script. */
  predicate Answer(w: World, e: Event) {
    if e.Extend? then Owns(w.key, w.now, e.p) else !Live(w.key, w.now)
  }

  /** How often `e` happened in a run and was answered so. */
  function Answers(w0: World, es: seq<Event>, e: Event, yes: bool): nat
    requires Playable(w0, es) && !e.Advance?
    decreases |es|
  {
    if es == [] then 0
    else (if es[0] == e && Answer(w0, e) == yes then 1 else 0) + Answers(Step(w0, es[0]), es[1..], e, yes)
  }

  /** No reply is lost, and none is made up: what is on the way to a process that is up, and what it was
      told, are together what Redis answered it. */
  lemma {:induction false} RepliesConserved(w: World, es: seq<Event>, p: nat)
    requires Playable(w, es) && p < |w.procs| && |Play(w, es).procs| == |w.procs| && Play(w, es).procs[p].alive
    ensures
      var s, s', told := w.procs[p], Play(w, es).procs[p], multiset(es);
      && s'.grants + told[GrantReply(p)] == s.grants + Answers(w, es, SetNx(p), true)
      && s'.pollGrants + told[PollGrantReply(p)] == s.pollGrants + Answers(w, es, Poll(p), true)
      && s'.pollDenials + told[PollDenialReply(p)] == s.pollDenials + Answers(w, es, Poll(p), false)
      && s'.beats + told[Extend(p)] == s.beats + told[Beat(p)]
      && s'.failures + told[FailureReply(p)] == s.failures + Answers(w, es, Extend(p), false)
    decreases |es|
  {
    if es != [] {
      var w' := Step(w, es[0]);
      ProcessCount(w', es[1..]);
      RepliesConserved(w', es[1..], p);
      if !w'.procs[p].alive { StaysDown(w', es[1..], p); }
      hide Play, Playable;
      assert es == [es[0]] + es[1..];
      assert forall f: Event :: multiset(es)[f] == Once(es[0], f) + multiset(es[1..])[f];
      RepliesStep(w, es[0], p);
    }
  }

  lemma {:induction false} StaysDown(w: World, es: seq<Event>, p: nat)
    requires Playable(w, es) && p < |w.procs| && |Play(w, es).procs| == |w.procs| && !w.procs[p].alive
    ensures !Play(w, es).procs[p].alive
    decreases |es|
  {
    if es != [] { StaysDown(Step(w, es[0]), es[1..], p); }
  }

  function Once(e: Event, f: Event): nat {
    if e == f then 1 else 0
  }

  lemma RepliesStepMover(w: World, e: Event, p: nat)
    requires Enabled(w, e) && !e.Advance? && e.p == p && p < |w.procs| && Step(w, e).procs[p].alive
    ensures
      var s, s' := w.procs[p], Step(w, e).procs[p];
      && s'.grants + Once(e, GrantReply(p)) == s.grants + (if e == SetNx(p) && Answer(w, e) then 1 else 0)
      && s'.pollGrants + Once(e, PollGrantReply(p)) == s.pollGrants + (if e == Poll(p) && Answer(w, e) then 1 else 0)
      && s'.pollDenials + Once(e, PollDenialReply(p))
         == s.pollDenials + (if e == Poll(p) && !Answer(w, e) then 1 else 0)
      && s'.beats + Once(e, Extend(p)) == s.beats + Once(e, Beat(p))
      && s'.failures + Once(e, FailureReply(p)) == s.failures + (if e == Extend(p) && !Answer(w, e) then 1 else 0)
  {
    hide Step, Enabled, Live, Owns;
    AcquisitionReplies(w, e, p);
    PollReplies(w, e, p);
    HeartbeatReplies(w, e, p);
  }

  lemma AcquisitionReplies(w: World, e: Event, p: nat)
    requires Enabled(w, e) && !e.Advance? && e.p == p && p < |w.procs| && Step(w, e).procs[p].alive
    ensures
      var s, s' := w.procs[p], Step(w, e).procs[p];
      s'.grants + Once(e, GrantReply(p)) == s.grants + (if e == SetNx(p) && Answer(w, e) then 1 else 0)
  {
    hide Live, Owns, AfterSetNx, AfterExtend, AfterDelete;
  }

  lemma PollReplies(w: World, e: Event, p: nat)
    requires Enabled(w, e) && !e.Advance? && e.p == p && p < |w.procs| && Step(w, e).procs[p].alive
    ensures
      var s, s' := w.procs[p], Step(w, e).procs[p];
      && s'.pollGrants + Once(e, PollGrantReply(p)) == s.pollGrants + (if e == Poll(p) && Answer(w, e) then 1 else 0)
      && s'.pollDenials + Once(e, PollDenialReply(p))
         == s.pollDenials + (if e == Poll(p) && !Answer(w, e) then 1 else 0)
  {
    hide Live, Owns, AfterSetNx, AfterExtend, AfterDelete;
  }

  lemma HeartbeatReplies(w: World, e: Event, p: nat)
    requires Enabled(w, e) && !e.Advance? && e.p == p && p < |w.procs| && Step(w, e).procs[p].alive
    ensures
      var s, s' := w.procs[p], Step(w, e).procs[p];
      && s'.beats + Once(e, Extend(p)) == s.beats + Once(e, Beat(p))
      && s'.failures + Once(e, FailureReply(p)) == s.failures + (if e == Extend(p) && !Answer(w, e) then 1 else 0)
  {
    hide Live, Owns, AfterSetNx, AfterExtend, AfterDelete;
  }

  lemma RepliesStep(w: World, e: Event, p: nat)
    requires Enabled(w, e) && p < |w.procs| && Step(w, e).procs[p].alive
    ensures
      var s, s' := w.procs[p], Step(w, e).procs[p];
      && s'.grants + Once(e, GrantReply(p)) == s.grants + (if e == SetNx(p) && Answer(w, e) then 1 else 0)
      && s'.pollGrants + Once(e, PollGrantReply(p)) == s.pollGrants + (if e == Poll(p) && Answer(w, e) then 1 else 0)
      && s'.pollDenials + Once(e, PollDenialReply(p))
         == s.pollDenials + (if e == Poll(p) && !Answer(w, e) then 1 else 0)
      && s'.beats + Once(e, Extend(p)) == s.beats + Once(e, Beat(p))
      && s'.failures + Once(e, FailureReply(p)) == s.failures + (if e == Extend(p) && !Answer(w, e) then 1 else 0)
  {
    if !e.Advance? && e.p == p {
      RepliesStepMover(w, e, p);
    } else {
      Untouched(w, e, p);
      hide Step, Enabled;
    }
  }

  lemma {:induction false} ProcessCount(w: World, es: seq<Event>)
    requires Playable(w, es)
    ensures |Play(w, es).procs| == |w.procs|
    decreases |es|
  {
    if es != [] { ProcessCount(Step(w, es[0]), es[1..]); }
  }

  /** No step passes the key straight from one owner to another, and no step taken by one
      process deletes or extends the lease of another. */
  lemma NoDirectHandover(w: World, e: Event, p: nat, q: nat)
    requires Enabled(w, e) && Owns(w.key, w.now, p)
    ensures Owns(Step(w, e).key, Step(w, e).now, q) ==> q == p
    ensures (e.Advance? || e.p != p) ==> Step(w, e).key == w.key
    ensures Step(w, e).key == Free ==> e == Delete(p)
    ensures Step(w, e).key != w.key && Step(w, e).key != Free ==> e == Extend(p)
  {
  }

  // ---- Mutual exclusion ---------------------------------------------------------------

  /** The two assumptions under which an active heartbeat means ownership. Time: a process that
      runs a heartbeat, or is about to start one, gets it extended before its lease runs out.
      Order: a process does not release while an acquisition is unanswered, nor ask for the
      lock while it is releasing. */
  predicate Orderly(w: World, e: Event)
    requires Enabled(w, e)
  {
    match e
    case Advance(ms) =>
      forall p :: 0 <= p < |w.procs| && ExpectsLock(w.procs[p]) ==> w.now + ms < w.procs[p].leaseEnd
    case BeginRelease(p) => w.procs[p].grants == 0 && w.procs[p].pollGrants == 0
    case SetNx(p) => !w.procs[p].releasing
    case Poll(p) => !w.procs[p].releasing
    case _ => true
  }

  predicate ExpectsLock(s: Process) {
    s.heartbeat || s.grants > 0 || s.pollGrants > 0
  }

  predicate OrderlyRun(w: World, es: seq<Event>)
    requires Playable(w, es)
    decreases |es|
  {
    es == [] || (Orderly(w, es[0]) && OrderlyRun(Step(w, es[0]), es[1..]))
  }

  ghost predicate HeartbeatMeansOwner(w: World) {
    forall p :: 0 <= p < |w.procs| ==>
      && (ExpectsLock(w.procs[p]) ==> Owns(w.key, w.now, p))
      && (w.procs[p].releasing ==> !ExpectsLock(w.procs[p]))
  }

  lemma HeartbeatStep(w: World, e: Event)
    requires Consistent(w) && HeartbeatMeansOwner(w) && Enabled(w, e) && Orderly(w, e)
    ensures HeartbeatMeansOwner(Step(w, e))
  {
    var w' := Step(w, e);
    if e.Advance? {
      forall p | 0 <= p < |w.procs| && ExpectsLock(w'.procs[p]) ensures Owns(w'.key, w'.now, p) {
        assert Owns(w.key, w.now, p);
        assert w.now + e.ms < w.procs[p].leaseEnd;
      }
    } else {
      forall p | 0 <= p < |w.procs| && p != e.p && ExpectsLock(w'.procs[p]) ensures Owns(w'.key, w'.now, p) {
        assert w'.procs[p] == w.procs[p];
        NoDirectHandover(w, e, p, p);
      }
    }
  }

  lemma {:induction false} HeartbeatRun(w: World, es: seq<Event>)
    requires Consistent(w) && HeartbeatMeansOwner(w) && Playable(w, es) && OrderlyRun(w, es)
    ensures HeartbeatMeansOwner(Play(w, es))
    decreases |es|
  {
    if es != [] {
      HeartbeatStep(w, es[0]);
      ConsistentStep(w, es[0]);
      HeartbeatRun(Step(w, es[0]), es[1..]);
    }
  }

  /** Mutual exclusion over every orderly run: an active heartbeat means the key holds that
      process's id, so at most one process has one. */
  lemma MutualExclusion(w0: World, es: seq<Event>)
    requires Initial(w0) && Playable(w0, es) && OrderlyRun(w0, es)
    ensures
      var w := Play(w0, es);
      && (forall p :: 0 <= p < |w.procs| && w.procs[p].heartbeat ==> Owns(w.key, w.now, p))
      && (forall p, q :: 0 <= p < |w.procs| && 0 <= q < |w.procs| && w.procs[p].heartbeat && w.procs[q].heartbeat
            ==> p == q)
  {
    HeartbeatRun(w0, es);
  }

  // ---- Exactly when a heartbeat means ownership ------------------------------------------

  ghost predicate HeartbeatsOwn(w: World) {
    forall p :: 0 <= p < |w.procs| && w.procs[p].heartbeat ==> Owns(w.key, w.now, p)
  }

  /** What the step must respect: no lease runs out under a heartbeat, no OK is taken up after its lease has
      run out, and no process with a heartbeat deletes its own key. */
  predicate Guarded(w: World, e: Event)
    requires Enabled(w, e)
  {
    match e
    case Advance(ms) => forall p :: 0 <= p < |w.procs| && w.procs[p].heartbeat ==> w.now + ms < w.procs[p].leaseEnd
    case GrantReply(p) => w.now < w.procs[p].leaseEnd
    case PollGrantReply(p) => w.now < w.procs[p].leaseEnd
    case Delete(p) => w.procs[p].heartbeat ==> w.procs[p].leaseEnd <= w.now
    case _ => true
  }

  predicate GuardedRun(w: World, es: seq<Event>)
    requires Playable(w, es)
    decreases |es|
  {
    es == [] || (Guarded(w, es[0]) && GuardedRun(Step(w, es[0]), es[1..]))
  }

  lemma OwnsByLease(w: World, p: nat)
    requires Consistent(w) && p < |w.procs|
    ensures Owns(w.key, w.now, p) <==> w.now < w.procs[p].leaseEnd
  {
  }

  /** One step keeps heartbeats and ownership together exactly when it is guarded. */
  lemma GuardedStepIff(w: World, e: Event)
    requires Consistent(w) && HeartbeatsOwn(w) && Enabled(w, e)
    ensures HeartbeatsOwn(Step(w, e)) <==> Guarded(w, e)
  {
    var w' := Step(w, e);
    ConsistentStep(w, e);
    hide Consistent;
    if e.Advance? {
      forall p | 0 <= p < |w.procs| ensures Owns(w'.key, w'.now, p) <==> w.now + e.ms < w.procs[p].leaseEnd {
        OwnsByLease(w', p);
      }
    } else {
      OwnsByLease(w, e.p);
      forall q | 0 <= q < |w.procs| && q != e.p ensures w'.procs[q].heartbeat ==> Owns(w'.key, w'.now, q) {
        assert w'.procs[q] == w.procs[q];
        if w.procs[q].heartbeat { NoDirectHandover(w, e, q, q); }
      }
      MoverGuardedIff(w, e);
    }
  }

  lemma MoverGuardedIff(w: World, e: Event)
    requires HeartbeatsOwn(w) && Enabled(w, e) && !e.Advance?
    requires Owns(w.key, w.now, e.p) <==> w.now < w.procs[e.p].leaseEnd
    ensures
      var w' := Step(w, e);
      (w'.procs[e.p].heartbeat ==> Owns(w'.key, w'.now, e.p)) <==> Guarded(w, e)
  {
  }

  /** After the first `n` events every heartbeat means ownership. */
  ghost predicate OwnedAt(w: World, es: seq<Event>, n: nat)
    requires n <= |es|
  {
    Playable(w, es[..n]) && HeartbeatsOwn(Play(w, es[..n]))
  }

  lemma {:induction false} PlayablePrefix(w: World, es: seq<Event>, n: nat)
    requires Playable(w, es) && n <= |es|
    ensures Playable(w, es[..n])
    decreases |es|
  {
    hide Step, Enabled;
    if n > 0 {
      PlayablePrefix(Step(w, es[0]), es[1..], n - 1);
      assert es[..n][1..] == es[1..][..n - 1];
    }
  }

  /** A longer prefix plays the first event, then a prefix of the rest. */
  lemma PrefixStep(w: World, es: seq<Event>, n: nat)
    requires Playable(w, es) && 0 < n <= |es|
    ensures Playable(w, es[..n]) && Playable(Step(w, es[0]), es[1..][..n - 1])
    ensures Play(w, es[..n]) == Play(Step(w, es[0]), es[1..][..n - 1])
  {
    hide Step, Enabled;
    PlayablePrefix(w, es, n);
    assert es[..n][1..] == es[1..][..n - 1];
  }

  lemma {:induction false} OwnedThroughoutIff(w: World, es: seq<Event>)
    requires Consistent(w) && HeartbeatsOwn(w) && Playable(w, es)
    ensures (forall n :: 0 <= n <= |es| ==> OwnedAt(w, es, n)) <==> GuardedRun(w, es)
    decreases |es|
  {
    hide Step, Enabled, Guarded, Consistent, HeartbeatsOwn;
    assert es[..0] == [];
    assert OwnedAt(w, es, 0);
    if es != [] {
      var w', rest := Step(w, es[0]), es[1..];
      GuardedStepIff(w, es[0]);
      ConsistentStep(w, es[0]);
      forall n | 1 <= n <= |es| ensures OwnedAt(w, es, n) <==> OwnedAt(w', rest, n - 1) {
        PrefixStep(w, es, n);
      }
      if HeartbeatsOwn(w') {
        OwnedThroughoutIff(w', rest);
        if forall n :: 0 <= n <= |rest| ==> OwnedAt(w', rest, n) {
          forall n | 0 <= n <= |es| ensures OwnedAt(w, es, n) {
            if n > 0 { assert OwnedAt(w', rest, n - 1); }
          }
        }
        if forall n :: 0 <= n <= |es| ==> OwnedAt(w, es, n) {
          forall n | 0 <= n <= |rest| ensures OwnedAt(w', rest, n) {
            assert OwnedAt(w, es, n + 1);
          }
        }
      } else {
        assert rest[..0] == [];
        assert !OwnedAt(w', rest, 0);
        assert !OwnedAt(w, es, 1);
      }
    }
  }

  /** The exact condition, over every interleaving: an active heartbeat means ownership at every moment of
      a run if and only if every step of it is guarded. Then, too, no two processes ever have one. */
  lemma HeartbeatMeansOwnershipIff(w0: World, es: seq<Event>)
    requires Initial(w0) && Playable(w0, es)
    ensures (forall n :: 0 <= n <= |es| ==> OwnedAt(w0, es, n)) <==> GuardedRun(w0, es)
    ensures
      var w := Play(w0, es);
      GuardedRun(w0, es) ==>
        forall p, q :: 0 <= p < |w.procs| && 0 <= q < |w.procs| && w.procs[p].heartbeat && w.procs[q].heartbeat
          ==> p == q
  {
    OwnedThroughoutIff(w0, es);
    assert es[..|es|] == es;
    if GuardedRun(w0, es) { assert OwnedAt(w0, es, |es|); }
  }

  /** The orderly runs are guarded. */
  lemma {:induction false} OrderlyIsGuarded(w: World, es: seq<Event>)
    requires Consistent(w) && HeartbeatMeansOwner(w) && Playable(w, es) && OrderlyRun(w, es)
    ensures GuardedRun(w, es)
    decreases |es|
  {
    hide Step, Enabled, Consistent, HeartbeatMeansOwner, Orderly, Guarded;
    if es != [] {
      OrderlyStepIsGuarded(w, es[0]);
      HeartbeatStep(w, es[0]);
      ConsistentStep(w, es[0]);
      OrderlyIsGuarded(Step(w, es[0]), es[1..]);
    }
  }

  lemma OrderlyStepIsGuarded(w: World, e: Event)
    requires Consistent(w) && HeartbeatMeansOwner(w) && Enabled(w, e) && Orderly(w, e)
    ensures Guarded(w, e)
  {
    if !e.Advance? { OwnsByLease(w, e.p); }
  }

  lemma PlayCons(w: World, e: Event, es: seq<Event>)
    requires Enabled(w, e) && Playable(Step(w, e), es)
    ensures Playable(w, [e] + es) && Play(w, [e] + es) == Play(Step(w, e), es)
    ensures OrderlyRun(w, [e] + es) <==> Orderly(w, e) && OrderlyRun(Step(w, e), es)
  {
    assert ([e] + es)[1..] == es;
  }

  function TwoFresh(): World {
    World(0, Free, [NewProcess(0), NewProcess(0)])
  }

  /** Both assumptions are needed. A heartbeat that is a whole TTL late leaves two active
      heartbeats, though every process is orderly otherwise. */
  lemma LateHeartbeatBreaksExclusion() returns (es: seq<Event>)
    ensures Initial(TwoFresh()) && Playable(TwoFresh(), es)
    ensures
      var w := Play(TwoFresh(), es);
      |w.procs| == 2 && w.procs[0].heartbeat && w.procs[1].heartbeat
    ensures forall i :: 0 <= i < |es| && es[i].Advance? ==> es[i].ms == TTL_MS
    ensures forall i :: 0 <= i < |es| ==> !es[i].BeginRelease? && !es[i].Delete?
  {
    var w1 := Step(TwoFresh(), SetNx(0));
    var w2 := Step(w1, GrantReply(0));
    var w3 := Step(w2, Advance(TTL_MS));
    var w4 := Step(w3, SetNx(1));
    var w5 := Step(w4, GrantReply(1));
    PlayCons(w4, GrantReply(1), []);
    PlayCons(w3, SetNx(1), [GrantReply(1)]);
    PlayCons(w2, Advance(TTL_MS), [SetNx(1)] + [GrantReply(1)]);
    PlayCons(w1, GrantReply(0), [Advance(TTL_MS)] + ([SetNx(1)] + [GrantReply(1)]));
    es := [SetNx(0)] + ([GrantReply(0)] + ([Advance(TTL_MS)] + ([SetNx(1)] + [GrantReply(1)])));
    PlayCons(TwoFresh(), SetNx(0), es[1..]);
    assert es == [SetNx(0), GrantReply(0), Advance(TTL_MS), SetNx(1), GrantReply(1)];
  }

  /** A release that overtakes an unanswered acquisition leaves two active heartbeats without
      any time passing: the late OK restarts the heartbeat before the delete frees the key. */
  lemma ReleaseRaceBreaksExclusion() returns (es: seq<Event>)
    ensures Initial(TwoFresh()) && Playable(TwoFresh(), es)
    ensures
      var w := Play(TwoFresh(), es);
      |w.procs| == 2 && w.procs[0].heartbeat && w.procs[1].heartbeat && w.now == TwoFresh().now
  {
    var w1 := Step(TwoFresh(), SetNx(0));
    var w2 := Step(w1, BeginRelease(0));
    var w3 := Step(w2, GrantReply(0));
    var w4 := Step(w3, Delete(0));
    var w5 := Step(w4, SetNx(1));
    var w6 := Step(w5, GrantReply(1));
    PlayCons(w5, GrantReply(1), []);
    PlayCons(w4, SetNx(1), [GrantReply(1)]);
    PlayCons(w3, Delete(0), [SetNx(1)] + [GrantReply(1)]);
    PlayCons(w2, GrantReply(0), [Delete(0)] + ([SetNx(1)] + [GrantReply(1)]));
    PlayCons(w1, BeginRelease(0), [GrantReply(0)] + ([Delete(0)] + ([SetNx(1)] + [GrantReply(1)])));
    es := [SetNx(0)] + ([BeginRelease(0)] + ([GrantReply(0)] + ([Delete(0)] + ([SetNx(1)] + [GrantReply(1)]))));
    PlayCons(TwoFresh(), SetNx(0), es[1..]);
  }

  /** The same with a SET that is still on its way when the release begins: Redis executes it before the release
      script, which then deletes the key just acquired. (One connection keeps the order of its commands, so a SET
      sent after the script runs after the DEL and is harmless.) */
  lemma ReacquireRaceBreaksExclusion() returns (es: seq<Event>)
    ensures Initial(TwoFresh()) && Playable(TwoFresh(), es)
    ensures
      var w := Play(TwoFresh(), es);
      |w.procs| == 2 && w.procs[0].heartbeat && w.procs[1].heartbeat && w.now == TwoFresh().now
    ensures es[0] == BeginRelease(0)
  {
    var w1 := Step(TwoFresh(), BeginRelease(0));
    var w2 := Step(w1, SetNx(0));
    var w3 := Step(w2, Delete(0));
    var w4 := Step(w3, GrantReply(0));
    var w5 := Step(w4, SetNx(1));
    hide Playable, Play, OrderlyRun, Orderly;
    NoEvents(Step(w5, GrantReply(1)));
    PlayCons(w5, GrantReply(1), []);
    PlayCons(w4, SetNx(1), [GrantReply(1)] + []);
    PlayCons(w3, GrantReply(0), [SetNx(1)] + ([GrantReply(1)] + []));
    PlayCons(w2, Delete(0), [GrantReply(0)] + ([SetNx(1)] + ([GrantReply(1)] + [])));
    PlayCons(w1, SetNx(0), [Delete(0)] + ([GrantReply(0)] + ([SetNx(1)] + ([GrantReply(1)] + []))));
    es := [BeginRelease(0)] + ([SetNx(0)] + ([Delete(0)] + ([GrantReply(0)] + ([SetNx(1)] + ([GrantReply(1)] + [])))));
    PlayCons(TwoFresh(), BeginRelease(0),
             [SetNx(0)] + ([Delete(0)] + ([GrantReply(0)] + ([SetNx(1)] + ([GrantReply(1)] + [])))));
  }

  lemma NoEvents(w: World)
    ensures Playable(w, []) && Play(w, []) == w && OrderlyRun(w, [])
  {
  }

  // ---- The reclaim poller ----------------------------------------------------------------

  /** No tick wins the key while an earlier win of the same poller is still unanswered. */
  predicate OneWin(w: World, e: Event)
    requires Enabled(w, e)
  {
    e.Poll? && !Live(w.key, w.now) ==> w.procs[e.p].pollGrants == 0
  }

  predicate OneWinRun(w: World, es: seq<Event>)
    requires Playable(w, es)
    decreases |es|
  {
    es == [] || (OneWin(w, es[0]) && OneWinRun(Step(w, es[0]), es[1..]))
  }

  /** Every poller has won the key once at most: it has run `onReclaim`, or owes the run, at most once. */
  ghost predicate EachWinsOnce(w: World) {
    forall p :: 0 <= p < |w.procs| ==> w.procs[p].fired + w.procs[p].pollGrants <= 1
  }

  ghost predicate FiresOnce(w: World) {
    forall p :: 0 <= p < |w.procs| ==> FiresOnceHere(w.procs[p])
  }

  lemma FiresOnceStep(w: World, e: Event)
    requires FiresOnce(w) && Enabled(w, e)
    ensures EachWinsOnce(Step(w, e)) <==> OneWin(w, e)
    ensures OneWin(w, e) ==> FiresOnce(Step(w, e))
  {
    var w' := Step(w, e);
    if !e.Advance? {
      MoverFiresOnce(w, e);
      assert forall p :: 0 <= p < |w.procs| && p != e.p ==> w'.procs[p] == w.procs[p];
    }
  }

  predicate FiresOnceHere(s: Process) {
    && s.fired + s.pollGrants <= 1
    && (s.polling ==> s.fired == 0)
    && (!s.started ==> s.fired == 0 && s.pollGrants == 0 && !s.polling)
  }

  lemma MoverFiresOnce(w: World, e: Event)
    requires Enabled(w, e) && !e.Advance? && FiresOnceHere(w.procs[e.p])
    ensures
      var s := Step(w, e).procs[e.p];
      && (s.fired + s.pollGrants <= 1 <==> OneWin(w, e)) && (OneWin(w, e) ==> FiresOnceHere(s))
      && |Step(w, e).procs| == |w.procs|
  {
  }

  ghost predicate WonOnceAt(w: World, es: seq<Event>, n: nat)
    requires n <= |es|
  {
    Playable(w, es[..n]) && EachWinsOnce(Play(w, es[..n]))
  }

  lemma {:induction false} WinsOnceThroughoutIff(w: World, es: seq<Event>)
    requires FiresOnce(w) && Playable(w, es)
    ensures (forall n :: 0 <= n <= |es| ==> WonOnceAt(w, es, n)) <==> OneWinRun(w, es)
    decreases |es|
  {
    hide Step, Enabled, OneWin;
    assert es[..0] == [];
    assert WonOnceAt(w, es, 0);
    hide FiresOnce, EachWinsOnce;
    if es != [] {
      var w', rest := Step(w, es[0]), es[1..];
      FiresOnceStep(w, es[0]);
      forall n | 1 <= n <= |es| ensures WonOnceAt(w, es, n) <==> WonOnceAt(w', rest, n - 1) {
        PrefixStep(w, es, n);
      }
      if OneWin(w, es[0]) {
        WinsOnceThroughoutIff(w', rest);
        if forall n :: 0 <= n <= |rest| ==> WonOnceAt(w', rest, n) {
          forall n | 0 <= n <= |es| ensures WonOnceAt(w, es, n) {
            if n > 0 { assert WonOnceAt(w', rest, n - 1); }
          }
        }
        if forall n :: 0 <= n <= |es| ==> WonOnceAt(w, es, n) {
          forall n | 0 <= n <= |rest| ensures WonOnceAt(w', rest, n) {
            assert WonOnceAt(w, es, n + 1);
          }
        }
      } else {
        assert rest[..0] == [];
        assert !WonOnceAt(w', rest, 0);
        assert !WonOnceAt(w, es, 1);
      }
    }
  }

  /** Exactly when `onReclaim` stays a single run: over every interleaving, no poller ever has run it, or owes
      it, more than once if and only if no tick wins the key while an earlier win is unanswered. Ticks that
      overlap a denied one are harmless. */
  lemma ReclaimFiresOnceIff(w0: World, es: seq<Event>)
    requires Initial(w0) && Playable(w0, es)
    ensures (forall n :: 0 <= n <= |es| ==> WonOnceAt(w0, es, n)) <==> OneWinRun(w0, es)
    ensures OneWinRun(w0, es) ==> forall p :: 0 <= p < |Play(w0, es).procs| ==> Play(w0, es).procs[p].fired <= 1
  {
    WinsOnceThroughoutIff(w0, es);
    assert es[..|es|] == es;
    if OneWinRun(w0, es) {
      assert WonOnceAt(w0, es, |es|);
      var w := Play(w0, es);
      assert forall p :: 0 <= p < |w.procs| ==> w.procs[p].fired + w.procs[p].pollGrants <= 1;
    }
  }

  /** And a second win does become a second run as soon as the two replies arrive. */
  lemma SecondWinFiresTwice(w: World, e: Event)
    requires FiresOnce(w) && Enabled(w, e) && !OneWin(w, e)
    ensures
      var replies := [PollGrantReply(e.p), PollGrantReply(e.p)];
      && Playable(Step(w, e), replies)
      && (var end := Play(Step(w, e), replies);
          e.p < |end.procs| && end.procs[e.p].fired == 2)
  {
    var w1, reply := Step(w, e), PollGrantReply(e.p);
    assert w1.procs[e.p].pollGrants == 2 && w1.procs[e.p].fired == 0 && w1.procs[e.p].alive;
    var w2 := Step(w1, reply);
    assert w2.procs[e.p].pollGrants == 1 && w2.procs[e.p].fired == 1 && w2.procs[e.p].alive;
    assert Step(w2, reply).procs[e.p].fired == 2;
    hide Step, Enabled;
    NoEvents(Step(w2, reply));
    PlayCons(w2, reply, []);
    PlayCons(w1, reply, [reply]);
    assert [reply] + [] == [reply] && [reply] + [reply] == [reply, reply];
  }

  /** A reply that takes a whole TTL lets the next tick win the key again: `onReclaim` runs twice. */
  lemma OverlappingTicksFireTwice() returns (es: seq<Event>)
    ensures Initial(TwoFresh()) && Playable(TwoFresh(), es)
    ensures |Play(TwoFresh(), es).procs| == 2 && Play(TwoFresh(), es).procs[0].fired == 2
  {
    var w1 := Step(TwoFresh(), StartPolling(0));
    var w2 := Step(w1, Poll(0));
    var w3 := Step(w2, Advance(TTL_MS));
    var w4 := Step(w3, Poll(0));
    var w5 := Step(w4, PollGrantReply(0));
    var w6 := Step(w5, PollGrantReply(0));
    PlayCons(w5, PollGrantReply(0), []);
    PlayCons(w4, PollGrantReply(0), [PollGrantReply(0)]);
    PlayCons(w3, Poll(0), [PollGrantReply(0)] + [PollGrantReply(0)]);
    PlayCons(w2, Advance(TTL_MS), [Poll(0)] + ([PollGrantReply(0)] + [PollGrantReply(0)]));
    PlayCons(w1, Poll(0), [Advance(TTL_MS)] + ([Poll(0)] + ([PollGrantReply(0)] + [PollGrantReply(0)])));
    es := [StartPolling(0)]
          + ([Poll(0)] + ([Advance(TTL_MS)] + ([Poll(0)] + ([PollGrantReply(0)] + [PollGrantReply(0)]))));
    PlayCons(TwoFresh(), StartPolling(0), es[1..]);
  }

  // ---- Bounded failover ---------------------------------------------------------------------

  /** `q` stays up, keeps its poller, and polls at least once every TTL. */
  predicate PollsSteadily(w: World, e: Event, q: nat)
    requires Enabled(w, e) && q < |w.procs|
  {
    && e != Crash(q) && e != StopPolling(q)
    && (e.Advance? && w.procs[q].polling ==> w.now + e.ms <= w.procs[q].lastPoll + TTL_MS)
  }

  predicate PollsSteadilyRun(w: World, es: seq<Event>, q: nat)
    requires Playable(w, es) && q < |w.procs|
    decreases |es|
  {
    es == [] || (PollsSteadily(w, es[0], q) && PollsSteadilyRun(Step(w, es[0]), es[1..], q))
  }

  predicate LiveOwner(w: World) {
    Live(w.key, w.now) && w.key.owner < |w.procs| && w.procs[w.key.owner].alive
  }

  /** Nobody alive has held the key since `t`, and `q` has not asked since the old lease ended. */
  ghost predicate Orphaned(w: World, t: int, q: nat) {
    && q < |w.procs| && w.procs[q].alive && w.procs[q].started && w.procs[q].polling
    && w.procs[q].pollGrants == 0
    && (w.key.Held? ==> w.key.owner < |w.procs| && w.key.expiry <= t + TTL_MS)
    && t <= w.now && w.procs[q].lastPoll < t + TTL_MS && w.now <= w.procs[q].lastPoll + TTL_MS
  }

  lemma OrphanedStep(w: World, e: Event, t: int, q: nat)
    requires Orphaned(w, t, q) && !LiveOwner(w) && Enabled(w, e) && PollsSteadily(w, e, q)
    ensures LiveOwner(Step(w, e)) || Orphaned(Step(w, e), t, q)
    ensures LiveOwner(Step(w, e)) ==> Step(w, e).now == w.now
  {
  }

  lemma {:induction false} FailoverFrom(w: World, es: seq<Event>, t: int, q: nat) returns (k: nat)
    requires Orphaned(w, t, q) && Playable(w, es) && PollsSteadilyRun(w, es, q)
    requires Play(w, es).now >= t + 2 * TTL_MS
    ensures k <= |es| && Playable(w, es[..k])
    ensures LiveOwner(Play(w, es[..k])) && Play(w, es[..k]).now < t + 2 * TTL_MS
    decreases |es|
  {
    if LiveOwner(w) {
      k := 0;
    } else {
      OrphanedStep(w, es[0], t, q);
      var w' := Step(w, es[0]);
      if LiveOwner(w') {
        k := 1;
        assert es[..1][1..] == [];
      } else {
        var k' := FailoverFrom(w', es[1..], t, q);
        k := k' + 1;
        assert es[..k][1..] == es[1..][..k'];
      }
    }
  }

  /** Bounded failover. The holder crashes at time t, in any reachable world where some other
      process is alive and polling at least every TTL: whatever else happens, before t + 2 * TTL
      there is a moment at which a live process holds the lock. */
  lemma BoundedFailover(
    w0: World, before: seq<Event>, after: seq<Event>, holder: nat, q: nat)
    returns (k: nat)
    requires Initial(w0) && Playable(w0, before) && holder != q
    requires
      var w := Play(w0, before);
      && q < |w.procs| && w.procs[q].alive && w.procs[q].polling && w.procs[q].pollGrants == 0
      && w.procs[q].lastPoll <= w.now <= w.procs[q].lastPoll + TTL_MS
      && Owns(w.key, w.now, holder) && Enabled(w, Crash(holder))
    requires
      var crashed := Step(Play(w0, before), Crash(holder));
      && Playable(crashed, after) && PollsSteadilyRun(crashed, after, q)
      && Play(crashed, after).now >= crashed.now + 2 * TTL_MS
    ensures
      var crashed := Step(Play(w0, before), Crash(holder));
      && k <= |after| && Playable(crashed, after[..k])
      && LiveOwner(Play(crashed, after[..k]))
      && Play(crashed, after[..k]).now < crashed.now + 2 * TTL_MS
  {
    ConsistentRun(w0, before);
    var crashed := Step(Play(w0, before), Crash(holder));
    ConsistentStep(Play(w0, before), Crash(holder));
    k := FailoverFrom(crashed, after, crashed.now, q);
  }
}
