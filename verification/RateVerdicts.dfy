/** What the rate limiter decides, said of the counts and of the events: verdicts, penalties and expiries. */
module RateVerdicts {
  import opened Text
  import opened RateLimiter

  // ---- Verdicts ------------------------------------------------------------------------------

  /** A decided request was admitted exactly when it was counted within its limit; more than three times the limit
      makes it abusive, and then its client is penalised before it is refused. */
  predicate VerdictFits(r: Request, s: Store) {
    && (r.phase in {Admitted, Abusing, Rejected} ==> (r.phase == Admitted <==> r.count <= r.policy.maxRequests))
    && (r.phase == Abusing ==> r.count > 3 * r.policy.maxRequests)
    && (r.phase == Rejected && r.count > 3 * r.policy.maxRequests ==> r.client in s.penalties)
    && (r.phase == Incremented ==> r.count == 1)
  }

  ghost predicate VerdictsFit(w: World) {
    forall id :: id in w.requests ==> VerdictFits(w.requests[id], w.store)
  }

  lemma VerdictsFitStep(w: World, e: Event)
    requires VerdictsFit(w) && Enabled(w, e)
    ensures VerdictsFit(Step(w, e))
  {
    hide KeyOf, AfterIncr, AfterExpire, Truthful, Remaining;
    if e.Advance? { PenaltiesStep(w.requests[e.id], w.store, w.now); }
  }

  lemma {:induction false} VerdictsFitRun(w: World, es: seq<Event>)
    requires VerdictsFit(w) && Playable(w, es)
    ensures VerdictsFit(Play(w, es))
    decreases |es|
  {
    hide VerdictsFit, Step, Enabled;
    if es != [] {
      VerdictsFitStep(w, es[0]);
      VerdictsFitRun(Step(w, es[0]), es[1..]);
    }
  }

  /** Over every interleaving: a decided request is admitted if and only if its count is within its limit, and one
      refused with more than three times its limit has left its client a penalty. */
  lemma VerdictIff(es: seq<Event>, id: nat)
    requires Playable(START, es) && id in Play(START, es).requests
    ensures
      var w := Play(START, es);
      var r := w.requests[id];
      && (r.phase in {Admitted, Abusing, Rejected} ==> (r.phase == Admitted <==> r.count <= r.policy.maxRequests))
      && (r.phase == Rejected && r.count > 3 * r.policy.maxRequests ==> r.client in w.store.penalties)
  {
    VerdictsFitRun(START, es);
  }

  // ---- Penalties ---------------------------------------------------------------------------------

  /** The event in which an abusive request penalises its client. */
  predicate Penalises(w: World, e: Event, client: string) {
    && e.Advance? && e.id in w.requests
    && w.requests[e.id].phase == Abusing && w.requests[e.id].client == client
  }

  /** When the client was last penalised: in the run, or else at `before`. */
  function LastPenalty(w: World, es: seq<Event>, client: string, before: Option<nat>): Option<nat>
    requires Playable(w, es)
    decreases |es|
  {
    if es == [] then before
    else LastPenalty(Step(w, es[0]), es[1..], client, if Penalises(w, es[0], client) then Some(w.now) else before)
  }

  predicate PenaltyFrom(s: Store, client: string, at: Option<nat>) {
    if at.Some? then client in s.penalties && s.penalties[client] == at.value + 300_000 else client !in s.penalties
  }

  lemma {:induction false} PenaltyFromRun(w: World, es: seq<Event>, client: string, before: Option<nat>)
    requires Playable(w, es) && PenaltyFrom(w.store, client, before)
    ensures PenaltyFrom(Play(w, es).store, client, LastPenalty(w, es, client, before))
    decreases |es|
  {
    hide Advanced, Truthful, Remaining;
    if es != [] {
      if es[0].Advance? { PenaltiesStep(w.requests[es[0].id], w.store, w.now); }
      PenaltyFromRun(Step(w, es[0]), es[1..], client, if Penalises(w, es[0], client) then Some(w.now) else before);
    }
  }

  /** Over every interleaving, with Redis's rounding: a request is turned away exactly when its client was last
      penalised less than 300 s before, half a second aside. */
  lemma TurnedAwayIff(es: seq<Event>, id: nat, client: string, policy: Policy)
    requires Playable(START, es) && id !in Play(START, es).requests
    ensures
      var w, last := Play(START, es), LastPenalty(START, es, client, None);
      var check := Check(id, client, policy, TtlReply(Remaining(w.store, client, w.now)));
      && Enabled(w, check)
      && (Step(w, check).requests[id].phase == TurnedAway <==> last.Some? && w.now + 500 <= last.value + 300_000)
  {
    PenaltyFromRun(START, es, client, None);
    var w := Play(START, es);
    TtlRounding(Remaining(w.store, client, w.now));
  }

  // ---- Expiry --------------------------------------------------------------------------------------

  /** Some request under the key has still to set its expiry. */
  ghost predicate ExpiryPending(w: World, k: Key) {
    exists id :: id in w.requests && w.requests[id].phase == Incremented && KeyOf(w.requests[id]) == k
  }

  ghost predicate NoneForgotten(w: World) {
    forall k :: k in w.store.counters && w.store.counters[k].expiry.None? ==> ExpiryPending(w, k)
  }

  lemma NoneForgottenStep(w: World, e: Event)
    requires NoneForgotten(w) && Enabled(w, e)
    ensures NoneForgotten(Step(w, e))
  {
    hide KeyOf, Truthful, Remaining, Decided;
    var w' := Step(w, e);
    forall k | k in w'.store.counters && w'.store.counters[k].expiry.None? ensures ExpiryPending(w', k) {
      if e.Advance? {
        var r := w.requests[e.id];
        ExpiryStep(r, w.store, w.now, k);
        AdvancedShape(r, w.store, w.now);
        if w'.requests[e.id].phase == Incremented && KeyOf(w'.requests[e.id]) == k {
        } else {
          var id :| id in w.requests && w.requests[id].phase == Incremented && KeyOf(w.requests[id]) == k;
          assert id in w'.requests && w'.requests[id] == w.requests[id];
        }
      } else {
        var id :| id in w.requests && w.requests[id].phase == Incremented && KeyOf(w.requests[id]) == k;
        assert id in w'.requests && w'.requests[id] == w.requests[id];
      }
    }
  }

  /** A counter without expiry comes from an INCR that found none, or was there before and is not the one whose
      expiry is set now. */
  lemma ExpiryStep(r: Request, s: Store, now: nat, k: Key)
    requires k in Advanced(r, s, now).1.counters && Advanced(r, s, now).1.counters[k].expiry.None?
    ensures
      var r' := Advanced(r, s, now).0;
      || (r'.phase == Incremented && KeyOf(r') == k && r.phase == Stamped)
      || (k in s.counters && s.counters[k].expiry.None? && !(r.phase == Incremented && KeyOf(r) == k))
  {
    hide Bucket;
  }

  lemma {:induction false} NoneForgottenRun(w: World, es: seq<Event>)
    requires NoneForgotten(w) && Playable(w, es)
    ensures NoneForgotten(Play(w, es))
    decreases |es|
  {
    hide NoneForgotten, Step, Enabled;
    if es != [] {
      NoneForgottenStep(w, es[0]);
      NoneForgottenRun(Step(w, es[0]), es[1..]);
    }
  }

  /** No counter is left behind for ever: after every run, one without expiry has a request on its way to set it. */
  lemma NoCounterForgotten(es: seq<Event>, k: Key)
    requires Playable(START, es)
    ensures
      var w := Play(START, es);
      k in w.store.counters && w.store.counters[k].expiry.None? ==> ExpiryPending(w, k)
  {
    NoneForgottenRun(START, es);
  }

  /** And setting it gives the counter its window and one second more. */
  lemma ExpirySet(r: Request, s: Store, now: nat)
    requires r.phase == Incremented && Live(s, KeyOf(r), now)
    ensures
      var (r', s') := Advanced(r, s, now);
      && r' == r.(phase := Counted) && s'.penalties == s.penalties && s'.counters.Keys == s.counters.Keys
      && s'.counters[KeyOf(r)].count == s.counters[KeyOf(r)].count
      && s'.counters[KeyOf(r)].expiry == Some(now + 1000 * r.policy.windowSeconds + 1000)
      && forall k :: k in s.counters && k != KeyOf(r) ==> s'.counters[k] == s.counters[k]
  {
    hide KeyOf;
  }
}
