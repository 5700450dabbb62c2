/** The three-state circuit breaker, with calls that overlap at their await. */
module CircuitBreaker {
  import opened Text

  datatype State = Closed | Open | HalfOpen

  datatype Options = Options(failureThreshold: int, cooldownMs: int, successThreshold: int)

  datatype Fields = Fields(state: State, failures: nat, successes: nat, lastFailureTime: int)

  const INITIAL: Fields := Fields(Closed, 0, 0, 0)

  // ---- What the code between awaits does to the fields -----------------------------

  /** A call is turned away: open, and the cooldown since the last failure is not over. */
  predicate Rejects(b: Fields, o: Options, now: int) {
    b.state == Open && now - b.lastFailureTime < o.cooldownMs
  }

  function AfterEntry(b: Fields, o: Options, now: int): Fields {
    if b.state == Open && !Rejects(b, o, now) then b.(state := HalfOpen, successes := 0) else b
  }

  function AfterSuccess(b: Fields, o: Options): Fields {
    if b.state != HalfOpen then b.(failures := 0)
    else if b.successes + 1 >= o.successThreshold then b.(state := Closed, failures := 0, successes := 0)
    else b.(successes := b.successes + 1)
  }

  function AfterFailure(b: Fields, o: Options, now: int): Fields {
    b.(failures := b.failures + 1, lastFailureTime := now,
       state := if b.state == HalfOpen || b.failures + 1 >= o.failureThreshold then Open else b.state)
  }

  function AfterReset(b: Fields): Fields {
    b.(state := Closed, failures := 0, successes := 0)
  }

  class Breaker {
    const options: Options
    var state: State
    var failures: nat
    var successes: nat
    var lastFailureTime: int

    function View(): Fields
      reads this
    {
      Fields(state, failures, successes, lastFailureTime)
    }

    constructor (options: Options)
      ensures this.options == options && View() == INITIAL
    {
      this.options := options;
      state, failures, successes, lastFailureTime := Closed, 0, 0, 0;
    }

    /** `call` up to its await: false when it throws instead of running the function. */
    method Enter(now: int) returns (started: bool)
      modifies this
      ensures View() == AfterEntry(old(View()), options, now)
      ensures started <==> !Rejects(old(View()), options, now)
    {
      if state == Open {
        if now - lastFailureTime >= options.cooldownMs {
          state := HalfOpen;
          successes := 0;
        } else {
          return false;
        }
      }
      return true;
    }

    method OnSuccess()
      modifies this
      ensures View() == AfterSuccess(old(View()), options)
    {
      if state == HalfOpen {
        successes := successes + 1;
        if successes >= options.successThreshold {
          state := Closed;
          failures := 0;
          successes := 0;
        }
      } else {
        failures := 0;
      }
    }

    method OnFailure(now: int)
      modifies this
      ensures View() == AfterFailure(old(View()), options, now)
    {
      failures := failures + 1;
      lastFailureTime := now;
      if state == HalfOpen {
        state := Open;
      } else if failures >= options.failureThreshold {
        state := Open;
      }
    }

    method Reset()
      modifies this
      ensures View() == AfterReset(old(View()))
    {
      state, failures, successes := Closed, 0, 0;
    }
  }

  // ---- Overlapping calls ---------------------------------------------------------------

  /** The breaker and the number of calls whose function is still running. */
  datatype World = World(b: Fields, running: nat)

  datatype Event =
    | Call(now: int)
    | Succeed(now: int)   // a running call resolves
    | Fail(now: int)      // a running call rejects or times out
    | ResetBy(now: int)

  predicate Enabled(w: World, e: Event) {
    e.Succeed? || e.Fail? ==> w.running > 0
  }

  function Step(w: World, e: Event, o: Options): World
    requires Enabled(w, e)
  {
    match e
    case Call(now) => if Rejects(w.b, o, now) then w else World(AfterEntry(w.b, o, now), w.running + 1)
    case Succeed(_) => World(AfterSuccess(w.b, o), w.running - 1)
    case Fail(now) => World(AfterFailure(w.b, o, now), w.running - 1)
    case ResetBy(_) => w.(b := AfterReset(w.b))
  }

  predicate Playable(w: World, es: seq<Event>, o: Options)
    decreases |es|
  {
    es == [] || (Enabled(w, es[0]) && Playable(Step(w, es[0], o), es[1..], o))
  }

  function Play(w: World, es: seq<Event>, o: Options): World
    requires Playable(w, es, o)
    decreases |es|
  {
    if es == [] then w else Play(Step(w, es[0], o), es[1..], o)
  }

  predicate Sane(o: Options) {
    o.failureThreshold >= 1 && o.successThreshold >= 1
  }

  predicate Inv(b: Fields, o: Options) {
    && (b.state == Closed ==> b.failures < o.failureThreshold && b.successes == 0)
    && b.successes < o.successThreshold
  }

  lemma {:induction false} InvRun(w: World, es: seq<Event>, o: Options)
    requires Sane(o) && Inv(w.b, o) && Playable(w, es, o)
    ensures Inv(Play(w, es, o).b, o)
    decreases |es|
  {
    if es != [] { InvRun(Step(w, es[0], o), es[1..], o); }
  }

  /** In every interleaving of starts, finishes, timeouts and resets: closed means fewer failures than
      the threshold and no successes counted; the success count never reaches its threshold. */
  lemma CountersStayBelowThresholds(es: seq<Event>, o: Options)
    requires Sane(o) && Playable(World(INITIAL, 0), es, o)
    ensures Inv(Play(World(INITIAL, 0), es, o).b, o)
  {
    InvRun(World(INITIAL, 0), es, o);
  }

  /** The thresholds must be at least one: with a zero failure threshold the very first state already
      breaks the bound. */
  lemma ThresholdsMustBePositive(o: Options)
    ensures Inv(INITIAL, o) <==> Sane(o)
  {
  }

  /** When the last failure of a run happened, found by its events alone. */
  function LastFailure(es: seq<Event>): Option<int> {
    if es == [] then None
    else if es[|es| - 1].Fail? then Some(es[|es| - 1].now)
    else LastFailure(es[..|es| - 1])
  }

  lemma {:induction false} PlayLast(w: World, es: seq<Event>, o: Options)
    requires es != [] && Playable(w, es, o)
    ensures
      var front, last := es[..|es| - 1], es[|es| - 1];
      Playable(w, front, o) && Enabled(Play(w, front, o), last) && Play(w, es, o) == Step(Play(w, front, o), last, o)
    decreases |es|
  {
    hide Step, Enabled;
    if |es| > 1 {
      PlayLast(Step(w, es[0], o), es[1..], o);
      assert es[1..][..|es| - 2] == es[..|es| - 1][1..];
    }
  }

  /** The field that the cooldown is measured from holds the time of the last failure, whatever the state it
      happened in; and a breaker only opens by failing. */
  lemma {:induction false} LastFailureIsRecorded(w: World, es: seq<Event>, o: Options)
    requires Playable(w, es, o)
    ensures
      var last, w' := LastFailure(es), Play(w, es, o);
      && w'.b.lastFailureTime == (if last.Some? then last.value else w.b.lastFailureTime)
      && (last.None? && w.b.state != Open ==> w'.b.state != Open)
    decreases |es|
  {
    if es != [] {
      hide Play, Playable;
      PlayLast(w, es, o);
      LastFailureIsRecorded(w, es[..|es| - 1], o);
    }
    assert es == [] ==> Play(w, es, o) == w;
  }

  /** After every run: a call is turned away exactly when the breaker is open and less than the cooldown has
      passed since the last failure of the run, the failure of a probe included. */
  lemma TurnedAwayIff(es: seq<Event>, o: Options, now: int)
    requires Playable(World(INITIAL, 0), es, o)
    ensures
      var w, last := Play(World(INITIAL, 0), es, o), LastFailure(es);
      && (w.b.state == Open ==> last.Some?)
      && (Step(w, Call(now), o).running == w.running <==> w.b.state == Open && now < last.value + o.cooldownMs)
      && (Step(w, Call(now), o).running == w.running ==> Step(w, Call(now), o) == w)
  {
    LastFailureIsRecorded(World(INITIAL, 0), es, o);
  }

  lemma {:induction false} StaysOpen(w: World, es: seq<Event>, o: Options, t: int)
    requires w.b.state == Open && t <= w.b.lastFailureTime && Playable(w, es, o)
    requires forall i :: 0 <= i < |es| ==> !es[i].ResetBy? && t <= es[i].now < t + o.cooldownMs
    ensures
      var w' := Play(w, es, o);
      w'.b.state == Open && w'.running <= w.running && t <= w'.b.lastFailureTime
    decreases |es|
  {
    if es != [] { StaysOpen(Step(w, es[0], o), es[1..], o, t); }
  }

  /** While the breaker is open, nothing short of a reset gets a call through before the cooldown is
      over: over every run whose events lie within the cooldown of the last failure, late successes and
      failures of calls still running included, it stays open and starts no call. */
  lemma OpenHoldsForTheCooldown(before: seq<Event>, es: seq<Event>, o: Options)
    requires Playable(World(INITIAL, 0), before, o)
    requires
      var w := Play(World(INITIAL, 0), before, o);
      w.b.state == Open && Playable(w, es, o)
    requires
      LastFailure(before).Some? ==>
        var t := LastFailure(before).value;
        forall i :: 0 <= i < |es| ==> !es[i].ResetBy? && t <= es[i].now < t + o.cooldownMs
    ensures
      var w := Play(World(INITIAL, 0), before, o);
      Play(w, es, o).b.state == Open && Play(w, es, o).running <= w.running
  {
    LastFailureIsRecorded(World(INITIAL, 0), before, o);
    StaysOpen(Play(World(INITIAL, 0), before, o), es, o, LastFailure(before).value);
  }

  /** A probe that fails opens the breaker again, and the cooldown starts anew with that failure. */
  lemma FailedProbeRestartsTheCooldown(w: World, t: int, es: seq<Event>, o: Options)
    requires w.b.state == HalfOpen && w.running > 0 && Playable(Step(w, Fail(t), o), es, o)
    requires forall i :: 0 <= i < |es| ==> !es[i].ResetBy? && t <= es[i].now < t + o.cooldownMs
    ensures
      var w' := Play(Step(w, Fail(t), o), es, o);
      w'.b.state == Open && w'.running < w.running
  {
    StaysOpen(Step(w, Fail(t), o), es, o, t);
  }

  // ---- Every change of state, and what the counters count ---------------------------------------------

  /** The state changes in these ways and no others. */
  lemma Transitions(w: World, e: Event, o: Options)
    requires Enabled(w, e)
    ensures
      var b, b' := w.b, Step(w, e, o).b;
      && (b.state == Closed ==> b'.state == if e.Fail? && b.failures + 1 >= o.failureThreshold then Open else Closed)
      && (b.state == Open ==>
            b'.state == if e.ResetBy? then Closed
                        else if e.Call? && b.lastFailureTime + o.cooldownMs <= e.now then HalfOpen else Open)
      && (b.state == HalfOpen ==>
            b'.state == if e.ResetBy? || (e.Succeed? && b.successes + 1 >= o.successThreshold) then Closed
                        else if e.Fail? then Open else HalfOpen)
      && (b'.state == Closed != b.state ==> b'.failures == 0 && b'.successes == 0)
      && (b'.state == HalfOpen != b.state ==> b'.successes == 0)
  {
  }

  /** Failures since the last success or reset, on top of the `count` there were before. */
  function Streak(count: nat, es: seq<Event>): nat {
    if es == [] then count
    else
      match es[|es| - 1]
      case Fail(_) => 1 + Streak(count, es[..|es| - 1])
      case Succeed(_) => 0
      case ResetBy(_) => 0
      case Call(_) => Streak(count, es[..|es| - 1])
  }

  /** In this state at every moment of the run. */
  predicate Remains(s: State, w: World, es: seq<Event>, o: Options)
    requires Playable(w, es, o)
    decreases |es|
  {
    w.b.state == s && (es == [] || Remains(s, Step(w, es[0], o), es[1..], o))
  }

  lemma {:induction false} RemainsLast(s: State, w: World, es: seq<Event>, o: Options)
    requires es != [] && Playable(w, es, o)
    ensures Playable(w, es[..|es| - 1], o)
    ensures Remains(s, w, es, o) <==> Remains(s, w, es[..|es| - 1], o) && Play(w, es, o).b.state == s
    decreases |es|
  {
    hide Step, Enabled;
    PlayLast(w, es, o);
    if |es| > 1 {
      RemainsLast(s, Step(w, es[0], o), es[1..], o);
      assert es[1..][..|es| - 2] == es[..|es| - 1][1..];
    }
  }

  lemma {:induction false} RemainsToTheEnd(s: State, w: World, es: seq<Event>, o: Options)
    requires Playable(w, es, o) && Remains(s, w, es, o)
    ensures Play(w, es, o).b.state == s
    decreases |es|
  {
    if es != [] { RemainsToTheEnd(s, Step(w, es[0], o), es[1..], o); }
  }

  /** However the calls overlap: a closed breaker stays closed exactly as long as no `failureThreshold`
      failures have come since the last success or reset, and its counter is their number. */
  lemma {:induction false} ClosedIff(w: World, es: seq<Event>, o: Options)
    requires w.b.state == Closed && w.b.failures < o.failureThreshold && Playable(w, es, o)
    ensures Remains(Closed, w, es, o) <==>
              forall n :: 0 <= n <= |es| ==> Streak(w.b.failures, es[..n]) < o.failureThreshold
    ensures Remains(Closed, w, es, o) ==> Play(w, es, o).b.failures == Streak(w.b.failures, es)
    decreases |es|
  {
    assert es[..|es|] == es;
    if es != [] {
      var front, last := es[..|es| - 1], es[|es| - 1];
      hide Play, Playable, Remains, Step, Enabled;
      RemainsLast(Closed, w, es, o);
      PlayLast(w, es, o);
      ClosedIff(w, front, o);
      assert forall n :: 0 <= n <= |front| ==> es[..n] == front[..n];
      if Remains(Closed, w, front, o) {
        RemainsToTheEnd(Closed, w, front, o);
        ClosedStep(Play(w, front, o), last, o);
      }
    } else {
      assert Play(w, es, o) == w && Remains(Closed, w, es, o);
    }
  }

  lemma ClosedStep(w: World, e: Event, o: Options)
    requires Enabled(w, e) && w.b.state == Closed && w.b.failures < o.failureThreshold
    ensures
      var failures := match e case Fail(_) => w.b.failures + 1 case Call(_) => w.b.failures case _ => 0;
      var b' := Step(w, e, o).b;
      b'.failures == failures && (b'.state == Closed <==> failures < o.failureThreshold)
  {
  }

  function Successes(es: seq<Event>): nat {
    if es == [] then 0 else Successes(es[..|es| - 1]) + (if es[|es| - 1].Succeed? then 1 else 0)
  }

  /** However many probes overlap: a half-open breaker stays half-open exactly as long as none fails, nobody
      resets it and fewer than `successThreshold` have succeeded since it became half-open. */
  lemma {:induction false} HalfOpenIff(w: World, es: seq<Event>, o: Options)
    requires w.b.state == HalfOpen && w.b.successes < o.successThreshold && Playable(w, es, o)
    ensures Remains(HalfOpen, w, es, o) <==>
              && (forall i :: 0 <= i < |es| ==> !es[i].Fail? && !es[i].ResetBy?)
              && w.b.successes + Successes(es) < o.successThreshold
    ensures Remains(HalfOpen, w, es, o) ==> Play(w, es, o).b.successes == w.b.successes + Successes(es)
    decreases |es|
  {
    if es != [] {
      var front, last := es[..|es| - 1], es[|es| - 1];
      hide Play, Playable, Remains;
      RemainsLast(HalfOpen, w, es, o);
      PlayLast(w, es, o);
      HalfOpenIff(w, front, o);
      assert forall i :: 0 <= i < |front| ==> es[i] == front[i];
      if Remains(HalfOpen, w, front, o) { RemainsToTheEnd(HalfOpen, w, front, o); }
    } else {
      assert Play(w, es, o) == w && Remains(HalfOpen, w, es, o);
    }
  }

  /** Half-open lets every call through, not one probe only. */
  lemma {:induction false} HalfOpenAdmitsEveryCall(w: World, es: seq<Event>, o: Options)
    requires w.b.state == HalfOpen && forall i :: 0 <= i < |es| ==> es[i].Call?
    ensures Playable(w, es, o) && Play(w, es, o) == World(w.b, w.running + |es|)
    decreases |es|
  {
    if es != [] { HalfOpenAdmitsEveryCall(Step(w, es[0], o), es[1..], o); }
  }

  // ---- Probes in flight ---------------------------------------------------------------------

  /** The overlapping model, with the number of running calls that are probes: those that started in half-open.
      A move says of a finish whether the call that finishes is a probe; the code cannot tell. */
  datatype Tracked = Tracked(w: World, probes: nat)

  datatype Move = Move(e: Event, probe: bool)

  predicate StartsProbe(w: World, e: Event, o: Options) {
    e.Call? && !Rejects(w.b, o, e.now) && AfterEntry(w.b, o, e.now).state == HalfOpen
  }

  predicate CanMove(t: Tracked, m: Move) {
    Enabled(t.w, m.e) && (m.e.Succeed? || m.e.Fail? ==> if m.probe then t.probes > 0 else t.probes < t.w.running)
  }

  function AfterMove(t: Tracked, m: Move, o: Options): Tracked
    requires CanMove(t, m)
  {
    Tracked(Step(t.w, m.e, o),
            if StartsProbe(t.w, m.e, o) then t.probes + 1
            else if (m.e.Succeed? || m.e.Fail?) && m.probe then t.probes - 1
            else t.probes)
  }

  predicate CanMoves(t: Tracked, ms: seq<Move>, o: Options)
    decreases |ms|
  {
    ms == [] || (CanMove(t, ms[0]) && CanMoves(AfterMove(t, ms[0], o), ms[1..], o))
  }

  function AfterMoves(t: Tracked, ms: seq<Move>, o: Options): Tracked
    requires CanMoves(t, ms, o)
    decreases |ms|
  {
    if ms == [] then t else AfterMoves(AfterMove(t, ms[0], o), ms[1..], o)
  }

  function Events(ms: seq<Move>): seq<Event> {
    seq(|ms|, i requires 0 <= i < |ms| => ms[i].e)
  }

  /** Counting the probes changes nothing else, and there are never more of them than running calls. */
  lemma {:induction false} TrackingChangesNothing(t: Tracked, ms: seq<Move>, o: Options)
    requires t.probes <= t.w.running && CanMoves(t, ms, o)
    ensures Playable(t.w, Events(ms), o)
    ensures
      var after := AfterMoves(t, ms, o);
      after.w == Play(t.w, Events(ms), o) && after.probes <= after.w.running
    decreases |ms|
  {
    if ms != [] {
      TrackingChangesNothing(AfterMove(t, ms[0], o), ms[1..], o);
      assert Events(ms)[1..] == Events(ms[1..]);
    }
  }

  /** No call starts in half-open while a probe is running. */
  predicate ProbesApart(t: Tracked, ms: seq<Move>, o: Options)
    requires CanMoves(t, ms, o)
    decreases |ms|
  {
    ms == [] || ((StartsProbe(t.w, ms[0].e, o) ==> t.probes == 0) && ProbesApart(AfterMove(t, ms[0], o), ms[1..], o))
  }

  lemma {:induction false} CanMovesPrefix(t: Tracked, ms: seq<Move>, n: nat, o: Options)
    requires CanMoves(t, ms, o) && n <= |ms|
    ensures CanMoves(t, ms[..n], o)
    decreases |ms|
  {
    if n > 0 {
      CanMovesPrefix(AfterMove(t, ms[0], o), ms[1..], n - 1, o);
      assert ms[..n][1..] == ms[1..][..n - 1];
    }
  }

  ghost predicate OneProbeAfter(t: Tracked, ms: seq<Move>, n: nat, o: Options) {
    n <= |ms| && CanMoves(t, ms[..n], o) && AfterMoves(t, ms[..n], o).probes <= 1
  }

  /** The header comment's one probe: at every moment of a run at most one is in flight exactly when the callers
      see to it that none starts while another is running. The breaker itself does not (see
      `HalfOpenAdmitsEveryCall`). */
  lemma {:induction false} OneProbeIff(t: Tracked, ms: seq<Move>, o: Options)
    requires t.probes <= 1 && CanMoves(t, ms, o)
    ensures (forall n: nat :: n <= |ms| ==> OneProbeAfter(t, ms, n, o)) <==> ProbesApart(t, ms, o)
    decreases |ms|
  {
    assert ms[..0] == [];
    if ms != [] {
      var t1, rest := AfterMove(t, ms[0], o), ms[1..];
      forall n: nat | n <= |rest| ensures OneProbeAfter(t, ms, n + 1, o) <==> OneProbeAfter(t1, rest, n, o) {
        ProbesOneOn(t, ms, n, o);
      }
      if t1.probes <= 1 {
        OneProbeIff(t1, rest, o);
        if ProbesApart(t, ms, o) {
          forall n: nat | n <= |ms| ensures OneProbeAfter(t, ms, n, o) {
            if n > 0 { assert OneProbeAfter(t1, rest, n - 1, o); }
          }
        }
      } else {
        assert rest[..0] == [];
        assert !OneProbeAfter(t1, rest, 0, o);
        assert !OneProbeAfter(t, ms, 0 + 1, o);
      }
    }
  }

  lemma ProbesOneOn(t: Tracked, ms: seq<Move>, n: nat, o: Options)
    requires ms != [] && n < |ms| && CanMoves(t, ms, o)
    ensures OneProbeAfter(t, ms, n + 1, o) <==> OneProbeAfter(AfterMove(t, ms[0], o), ms[1..], n, o)
  {
    CanMovesPrefix(t, ms, n + 1, o);
    CanMovesPrefix(AfterMove(t, ms[0], o), ms[1..], n, o);
    assert ms[..n + 1][1..] == ms[1..][..n] && ms[..n + 1][0] == ms[0];
  }

  // ---- Sequential runs --------------------------------------------------------------------

  /** One call that finishes before the next starts. */
  datatype Result = Result(now: int, ok: bool)

  function AfterCall(b: Fields, r: Result, o: Options): Fields {
    if Rejects(b, o, r.now) then b
    else
      var entered := AfterEntry(b, o, r.now);
      if r.ok then AfterSuccess(entered, o) else AfterFailure(entered, o, r.now)
  }

  function AfterCalls(b: Fields, rs: seq<Result>, o: Options): Fields {
    if rs == [] then b else AfterCall(AfterCalls(b, rs[..|rs| - 1], o), rs[|rs| - 1], o)
  }

  /** A sequential call is the overlapping model's start followed by its finish. */
  lemma SequentialIsOverlapping(w: World, r: Result, o: Options)
    ensures
      var finish := if r.ok then Succeed(r.now) else Fail(r.now);
      var w1 := Step(w, Call(r.now), o);
      if Rejects(w.b, o, r.now) then w1 == w
      else Enabled(w1, finish) && Step(w1, finish, o) == World(AfterCall(w.b, r, o), w.running)
  {
  }

  /** Failures in a row at the end, on top of the `count` there were before the first call. */
  function TrailingFailures(count: nat, rs: seq<Result>): nat {
    if rs == [] then count
    else if rs[|rs| - 1].ok then 0
    else 1 + TrailingFailures(count, rs[..|rs| - 1])
  }

  /** Fewer than the threshold at the end of each of the prefixes shorter than `n`. */
  predicate BelowUpTo(count: nat, rs: seq<Result>, n: nat, threshold: int)
    requires n <= |rs| + 1
  {
    forall m :: 0 <= m < n ==> TrailingFailures(count, rs[..m]) < threshold
  }

  lemma {:induction false} ClosedCountsFailures(b: Fields, rs: seq<Result>, o: Options)
    requires b.state == Closed && BelowUpTo(b.failures, rs, |rs|, o.failureThreshold)
    requires b.failures < o.failureThreshold
    ensures
      var b', failures := AfterCalls(b, rs, o), TrailingFailures(b.failures, rs);
      if failures < o.failureThreshold then b'.state == Closed && b'.failures == failures else b'.state == Open
  {
    if rs != [] {
      var front := rs[..|rs| - 1];
      forall m | 0 <= m < |front| ensures TrailingFailures(b.failures, front[..m]) < o.failureThreshold {
        assert front[..m] == rs[..m];
      }
      ClosedCountsFailures(b, front, o);
      assert TrailingFailures(b.failures, front) < o.failureThreshold;
    }
  }

  /** From any closed breaker below its threshold (fresh, recovered, reset, or in the middle of a series of
      failures), sequential calls trip it exactly with the failure that makes `failureThreshold` in a row:
      it has been closed all along iff no prefix ends with that many. */
  lemma TripsExactly(b: Fields, rs: seq<Result>, o: Options)
    requires b.state == Closed && b.failures < o.failureThreshold
    ensures (forall n :: 0 <= n <= |rs| ==> AfterCalls(b, rs[..n], o).state == Closed)
       <==> BelowUpTo(b.failures, rs, |rs| + 1, o.failureThreshold)
  {
    if BelowUpTo(b.failures, rs, |rs| + 1, o.failureThreshold) {
      forall n | 0 <= n <= |rs| ensures AfterCalls(b, rs[..n], o).state == Closed {
        ClosedUpTo(b, rs, n, o);
      }
    } else {
      var n := FirstTrip(b.failures, rs, o);
      ClosedUpTo(b, rs, n, o);
    }
  }

  /** A sequential probe that fails at `r.now` turns every call away until the cooldown has passed again. */
  lemma FailedProbeRejects(b: Fields, r: Result, o: Options, now: int)
    requires !r.ok && !Rejects(b, o, r.now) && b.state != Closed && now < r.now + o.cooldownMs
    ensures AfterCall(b, r, o).state == Open && Rejects(AfterCall(b, r, o), o, now)
    ensures forall later: Result :: later.now == now ==> AfterCall(AfterCall(b, r, o), later, o) == AfterCall(b, r, o)
  {
  }

  /** The call that trips it, and that it is open right after. */
  lemma OpensWithThatFailure(b: Fields, rs: seq<Result>, o: Options)
    requires b.state == Closed && b.failures < o.failureThreshold
    requires BelowUpTo(b.failures, rs, |rs|, o.failureThreshold)
    requires TrailingFailures(b.failures, rs) >= o.failureThreshold
    ensures
      var b' := AfterCalls(b, rs, o);
      b'.state == Open && rs != [] && b'.lastFailureTime == rs[|rs| - 1].now
  {
    ClosedUpTo(b, rs, |rs|, o);
    assert rs[..|rs|] == rs;
    ClosedUpTo(b, rs, |rs| - 1, o);
  }

  lemma ClosedUpTo(b: Fields, rs: seq<Result>, n: nat, o: Options)
    requires b.state == Closed && b.failures < o.failureThreshold
    requires n <= |rs| && BelowUpTo(b.failures, rs, n, o.failureThreshold)
    ensures AfterCalls(b, rs[..n], o).state
         == if TrailingFailures(b.failures, rs[..n]) < o.failureThreshold then Closed else Open
  {
    forall m | 0 <= m < |rs[..n]| ensures TrailingFailures(b.failures, rs[..n][..m]) < o.failureThreshold {
      assert rs[..n][..m] == rs[..m];
    }
    ClosedCountsFailures(b, rs[..n], o);
  }

  lemma FirstTrip(count: nat, rs: seq<Result>, o: Options) returns (n: nat)
    requires !BelowUpTo(count, rs, |rs| + 1, o.failureThreshold)
    ensures n <= |rs| && TrailingFailures(count, rs[..n]) >= o.failureThreshold
    ensures BelowUpTo(count, rs, n, o.failureThreshold)
  {
    n := 0;
    while TrailingFailures(count, rs[..n]) < o.failureThreshold
      invariant n <= |rs| && BelowUpTo(count, rs, n, o.failureThreshold)
      decreases |rs| - n
    {
      n := n + 1;
    }
  }

  predicate AllSucceed(rs: seq<Result>) {
    forall i :: 0 <= i < |rs| ==> rs[i].ok
  }

  /** From open, once the cooldown is over, sequential probes close the breaker exactly after
      `successThreshold` consecutive successes; a failure on the way opens it again. */
  lemma {:induction false} ClosesExactly(b: Fields, rs: seq<Result>, o: Options)
    requires Sane(o) && b.state == Open && 0 < |rs| <= o.successThreshold
    requires rs[0].now - b.lastFailureTime >= o.cooldownMs
    requires AllSucceed(rs[..|rs| - 1])
    ensures
      var b' := AfterCalls(b, rs, o);
      && (b'.state == Closed <==> |rs| == o.successThreshold && AllSucceed(rs))
      && (b'.state == Open <==> !AllSucceed(rs))
      && (b'.state == HalfOpen ==> b'.successes == |rs|)
      && (b'.state == Closed ==> b'.failures == 0 && b'.successes == 0)
  {
    hide AllSucceed, AfterCall, AfterCalls;
    var front, last := rs[..|rs| - 1], rs[|rs| - 1];
    AfterLast(b, rs, o);
    LastSucceeds(rs);
    if |rs| == 1 {
      FirstProbe(b, last, o);
      NoCalls(b, o);
      assert front == [];
    } else {
      LastSucceeds(front);
      ClosesExactly(b, front, o);
      NextProbe(AfterCalls(b, front, o), last, o);
    }
  }

  lemma AfterLast(b: Fields, rs: seq<Result>, o: Options)
    requires rs != []
    ensures AfterCalls(b, rs, o) == AfterCall(AfterCalls(b, rs[..|rs| - 1], o), rs[|rs| - 1], o)
  {
  }

  lemma NoCalls(b: Fields, o: Options)
    ensures AfterCalls(b, [], o) == b
  {
  }

  lemma LastSucceeds(rs: seq<Result>)
    requires rs != []
    ensures AllSucceed(rs) <==> AllSucceed(rs[..|rs| - 1]) && rs[|rs| - 1].ok
  {
    var front := rs[..|rs| - 1];
    assert rs == front + [rs[|rs| - 1]];
    assert forall i :: 0 <= i < |front| ==> front[i] == rs[i];
  }

  /** The call that finds the breaker open and the cooldown over. */
  lemma FirstProbe(b: Fields, r: Result, o: Options)
    requires Sane(o) && b.state == Open && r.now - b.lastFailureTime >= o.cooldownMs
    ensures
      var b' := AfterCall(b, r, o);
      if !r.ok then b'.state == Open
      else if o.successThreshold == 1 then b'.state == Closed && b'.failures == 0 && b'.successes == 0
      else b'.state == HalfOpen && b'.successes == 1
  {
  }

  lemma NextProbe(b: Fields, r: Result, o: Options)
    requires b.state == HalfOpen
    ensures
      var b' := AfterCall(b, r, o);
      if !r.ok then b'.state == Open
      else if b.successes + 1 >= o.successThreshold then b'.state == Closed && b'.failures == 0 && b'.successes == 0
      else b'.state == HalfOpen && b'.successes == b.successes + 1
  {
  }
}
