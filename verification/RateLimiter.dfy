/** The Redis-backed rate limiter: fixed-window counters and penalty keys, with the middleware
    of many requests interleaved at its awaits. Times are milliseconds of one clock. */
module RateLimiter {
  import opened Text

  type Positive = n: nat | n > 0 witness 1

  datatype Policy = Policy(maxRequests: nat, windowSeconds: Positive)

  const ABUSE_MULTIPLIER := 3
  const ABUSE_PENALTY_SECONDS: nat := 300

  // ---- Choosing the policy ---------------------------------------------------------------

  const ENDPOINT_LIMITS: seq<(string, Policy)> := [
    ("/v2/ai", Policy(30, 60)),
    ("/v2/bulk", Policy(5, 60)),
    ("/v1/graph/layout", Policy(60, 60)),
    ("/v2/search", Policy(50, 60)),
    ("/v1/export", Policy(20, 60)),
    ("/auth/login", Policy(10, 300))
  ]

  const ROLE_LIMITS: map<string, Policy> := map[
    "admin" := Policy(1000, 60),
    "analyst" := Policy(300, 60),
    "viewer" := Policy(100, 60),
    "anonymous" := Policy(200, 60)
  ]

  function RoleLimit(role: string): Policy {
    if role in ROLE_LIMITS then ROLE_LIMITS[role] else ROLE_LIMITS["anonymous"]
  }

  /** A listed role has its own limit and any other the anonymous one; an admin has the largest, an analyst the
      next, and a viewer even less than nobody in particular. */
  lemma RoleLimits(role: string)
    ensures role in ROLE_LIMITS ==> RoleLimit(role) == ROLE_LIMITS[role]
    ensures role !in ROLE_LIMITS ==> RoleLimit(role) == RoleLimit("anonymous")
    ensures role != "admin" ==> RoleLimit(role).maxRequests < RoleLimit("admin").maxRequests
    ensures role !in {"admin", "analyst"} ==> RoleLimit(role).maxRequests < RoleLimit("analyst").maxRequests
    ensures role != "viewer" ==> RoleLimit(role).maxRequests > RoleLimit("viewer").maxRequests
    ensures RoleLimit(role).windowSeconds == 60
  {
  }

  /** An endpoint's limit is stricter than every role's: fewer requests, and no shorter window. */
  lemma EndpointsAreStricter(i: nat, role: string)
    requires i < |ENDPOINT_LIMITS|
    ensures ENDPOINT_LIMITS[i].1.maxRequests < RoleLimit(role).maxRequests
    ensures ENDPOINT_LIMITS[i].1.windowSeconds >= RoleLimit(role).windowSeconds
  {
  }

  predicate Matches(path: string, i: nat)
    requires i < |ENDPOINT_LIMITS|
  {
    ENDPOINT_LIMITS[i].0 <= path
  }

  /** A path matches a pattern when it begins with it, the pattern itself included. */
  lemma MatchesIff(path: string, i: nat)
    requires i < |ENDPOINT_LIMITS|
    ensures
      var p := ENDPOINT_LIMITS[i].0;
      && (Matches(path, i) <==> exists rest :: path == p + rest)
      && Matches(p, i)
  {
    var p := ENDPOINT_LIMITS[i].0;
    if Matches(path, i) { assert path == p + path[|p|..]; }
  }

  /** No endpoint pattern is a prefix of another, so a path matches one of them at most. */
  lemma OnePatternAtMost(path: string, i: nat, j: nat)
    requires i < |ENDPOINT_LIMITS| && j < |ENDPOINT_LIMITS|
    requires Matches(path, i) && Matches(path, j)
    ensures i == j
  {
    var p, q := ENDPOINT_LIMITS[i].0, ENDPOINT_LIMITS[j].0;
    assert forall n :: 0 <= n < |p| ==> p[n] == path[n];
    assert forall n :: 0 <= n < |q| ==> q[n] == path[n];
    assert p[1] == q[1] && p[2] == q[2] && p[4] == q[4] && p[5] == q[5];
  }

  /** The endpoint's policy whenever an endpoint pattern is a prefix of the path, and the role's
      otherwise; because the patterns exclude each other, their order in the table is immaterial. */
  method SelectPolicy(role: string, path: string) returns (config: Policy, endpoint: Option<string>)
    ensures forall i :: 0 <= i < |ENDPOINT_LIMITS| && Matches(path, i) ==>
              config == ENDPOINT_LIMITS[i].1 && endpoint == Some(ENDPOINT_LIMITS[i].0)
    ensures (forall i :: 0 <= i < |ENDPOINT_LIMITS| ==> !Matches(path, i)) ==>
              config == RoleLimit(role) && endpoint == None
    ensures config.windowSeconds in {60, 300}
  {
    config, endpoint := RoleLimit(role), None;
    for i := 0 to |ENDPOINT_LIMITS|
      invariant forall n :: 0 <= n < i ==> !Matches(path, n)
      invariant config == RoleLimit(role) && endpoint == None
    {
      if Matches(path, i) {
        config, endpoint := ENDPOINT_LIMITS[i].1, Some(ENDPOINT_LIMITS[i].0);
        forall n | 0 <= n < |ENDPOINT_LIMITS| && Matches(path, n) ensures n == i {
          OnePatternAtMost(path, n, i);
        }
        break;
      }
    }
  }

  // ---- Redis --------------------------------------------------------------------------------

  datatype Key = Key(client: string, bucket: nat)

  datatype Counter = Counter(count: Positive, expiry: Option<nat>)

  datatype Store = Store(counters: map<Key, Counter>, penalties: map<string, nat>)

  predicate Live(s: Store, k: Key, now: nat) {
    k in s.counters && (s.counters[k].expiry.Some? ==> now < s.counters[k].expiry.value)
  }

  function AfterIncr(s: Store, k: Key, now: nat): Store {
    var c := if Live(s, k, now) then s.counters[k].(count := s.counters[k].count + 1) else Counter(1, None);
    s.(counters := s.counters[k := c])
  }

  function AfterExpire(s: Store, k: Key, seconds: nat, now: nat): Store {
    if Live(s, k, now) then
      s.(counters := s.counters[k := s.counters[k].(expiry := Some(now + seconds * 1000))])
    else s
  }

  function AfterSetEx(s: Store, client: string, seconds: nat, now: nat): Store {
    s.(penalties := s.penalties[client := now + seconds * 1000])
  }

  /** Milliseconds left of a client's penalty. */
  function Remaining(s: Store, client: string, now: nat): nat {
    if client in s.penalties && s.penalties[client] > now then s.penalties[client] - now else 0
  }

  /** A TTL reply: not positive when there is no such key, else the time left in whole seconds,
      rounded either way. */
  predicate Truthful(reply: int, remaining: nat) {
    if remaining == 0 then reply <= 0 else reply >= 0 && -1000 < reply * 1000 - remaining < 1000
  }

  /** What Redis replies: the time left rounded to the nearest second, or that there is no such key. */
  function TtlReply(left: nat): int {
    if left == 0 then -2 else (left + 500) / 1000
  }

  lemma TtlRounding(left: nat)
    ensures Truthful(TtlReply(left), left)
    ensures TtlReply(left) > 0 <==> left >= 500
  {
  }

  class Redis {
    var counters: map<Key, Counter>
    var penalties: map<string, nat>

    function View(): Store
      reads this
    {
      Store(counters, penalties)
    }

    constructor ()
      ensures View() == Store(map[], map[])
    {
      counters, penalties := map[], map[];
    }

    method Ttl(client: string, now: nat) returns (reply: int)
      ensures reply == TtlReply(Remaining(View(), client, now))
    {
      if client !in penalties || penalties[client] <= now {
        return -2;
      }
      return (penalties[client] - now + 500) / 1000;
    }

    method Incr(k: Key, now: nat) returns (count: nat)
      modifies this
      ensures View() == AfterIncr(old(View()), k, now)
      ensures count == counters[k].count
    {
      var c := Counter(1, None);
      if k in counters && (counters[k].expiry == None || now < counters[k].expiry.value) {
        c := Counter(counters[k].count + 1, counters[k].expiry);
      }
      count := c.count;
      counters := counters[k := c];
    }

    method Expire(k: Key, seconds: nat, now: nat)
      modifies this
      ensures View() == AfterExpire(old(View()), k, seconds, now)
    {
      if k in counters && (counters[k].expiry == None || now < counters[k].expiry.value) {
        counters := counters[k := Counter(counters[k].count, Some(now + seconds * 1000))];
      }
    }

    method SetEx(client: string, seconds: nat, now: nat)
      modifies this
      ensures View() == AfterSetEx(old(View()), client, seconds, now)
    {
      penalties := penalties[client := now + seconds * 1000];
    }
  }

  // ---- One request, split at its awaits --------------------------------------------------------

  datatype Phase =
    | TurnedAway   // a penalty was seen
    | Checked      // no penalty was seen
    | Stamped      // the clock was read and the window chosen
    | Incremented  // first of its window, the expiry still to be set
    | Counted
    | Abusing      // past the abuse threshold, the penalty still to be set
    | Rejected
    | Admitted

  datatype Request = Request(client: string, policy: Policy, phase: Phase, at: nat, count: nat)

  function WindowMs(p: Policy): Positive {
    p.windowSeconds * 1000
  }

  /** When the `b`-th window of a length begins. */
  function Begin(b: nat, width: Positive): nat {
    if b == 0 then 0 else Begin(b - 1, width) + width
  }

  lemma {:induction false} BeginIs(b: nat, width: Positive)
    ensures Begin(b, width) == b * width
  {
    if b > 0 {
      BeginIs(b - 1, width);
      assert (b - 1) * width + width == b * width;
    }
  }

  lemma {:induction false} BeginsGrow(a: nat, b: nat, width: Positive)
    requires a < b
    ensures Begin(a, width) + width <= Begin(b, width)
    decreases b
  {
    if a + 1 < b { BeginsGrow(a, b - 1, width); }
  }

  /** The window an instant falls in, counted from zero. */
  function Bucket(at: nat, width: Positive): (b: nat)
    ensures Begin(b, width) <= at < Begin(b, width) + width
  {
    if at < width then 0 else Bucket(at - width, width) + 1
  }

  /** It is the only one. */
  lemma BucketIs(at: nat, width: Positive, b: nat)
    requires Begin(b, width) <= at < Begin(b, width) + width
    ensures Bucket(at, width) == b
  {
    hide Bucket;
    var c := Bucket(at, width);
    if c < b { BeginsGrow(c, b, width); }
    if b < c { BeginsGrow(b, c, width); }
  }

  lemma Scaled(q: int, width: Positive)
    requires q < 0
    ensures q * width + width <= 0
  {
  }

  /** That is the quotient the code takes. */
  lemma BucketIsQuotient(at: nat, width: Positive)
    ensures at / width == Bucket(at, width)
  {
    hide Bucket, Begin;
    var q := at / width;
    assert at == q * width + at % width;
    if q < 0 { Scaled(q, width); }
    BeginIs(q, width);
    BucketIs(at, width, q);
  }

  function KeyOf(r: Request): Key {
    Key(r.client, Bucket(r.at, WindowMs(r.policy)))
  }

  function AfterCheck(client: string, policy: Policy, reply: int): Request {
    Request(client, policy, if reply > 0 then TurnedAway else Checked, 0, 0)
  }

  /** The next step of a request, when it reaches Redis (or the clock) at `now`. */
  function Advanced(r: Request, s: Store, now: nat): (Request, Store) {
    match r.phase
    case Checked => (r.(phase := Stamped, at := now), s)
    case Stamped =>
      var s' := AfterIncr(s, KeyOf(r), now);
      var count := s'.counters[KeyOf(r)].count;
      (r.(phase := if count == 1 then Incremented else Counted, count := count), s')
    case Incremented => (r.(phase := Counted), AfterExpire(s, KeyOf(r), r.policy.windowSeconds + 1, now))
    case Counted => (r.(phase := Decided(r)), s)
    case Abusing => (r.(phase := Rejected), AfterSetEx(s, r.client, ABUSE_PENALTY_SECONDS, now))
    case _ => (r, s)
  }

  function Decided(r: Request): Phase {
    if r.count <= r.policy.maxRequests then Admitted
    else if r.count > r.policy.maxRequests * ABUSE_MULTIPLIER then Abusing
    else Rejected
  }

  /** The middleware's local state for one request. */
  class Session {
    const client: string
    const config: Policy
    var phase: Phase
    var windowStart: nat
    var currentCount: nat

    function View(): Request
      reads this
    {
      Request(client, config, phase, windowStart, currentCount)
    }

    constructor CheckPenalty(redis: Redis, client: string, config: Policy, now: nat)
      ensures View() == AfterCheck(client, config, TtlReply(Remaining(redis.View(), client, now)))
    {
      this.client, this.config := client, config;
      phase, windowStart, currentCount := Checked, 0, 0;
      var penaltyTTL := redis.Ttl(client, now);
      if penaltyTTL > 0 {
        phase := TurnedAway;
      }
    }

    method ReadClock(redis: Redis, now: nat)
      requires phase == Checked
      modifies this
      ensures (View(), redis.View()) == Advanced(old(View()), old(redis.View()), now)
    {
      windowStart := now;
      phase := Stamped;
    }

    method Increment(redis: Redis, now: nat)
      requires phase == Stamped
      modifies this, redis
      ensures (View(), redis.View()) == Advanced(old(View()), old(redis.View()), now)
    {
      var windowKey := windowStart / (config.windowSeconds * 1000);
      BucketIsQuotient(windowStart, WindowMs(config));
      currentCount := redis.Incr(Key(client, windowKey), now);
      phase := if currentCount == 1 then Incremented else Counted;
    }

    method SetExpiry(redis: Redis, now: nat)
      requires phase == Incremented
      modifies this, redis
      ensures (View(), redis.View()) == Advanced(old(View()), old(redis.View()), now)
    {
      var windowKey := windowStart / (config.windowSeconds * 1000);
      BucketIsQuotient(windowStart, WindowMs(config));
      redis.Expire(Key(client, windowKey), config.windowSeconds + 1, now);
      phase := Counted;
    }

    method Decide(redis: Redis, now: nat)
      requires phase == Counted
      modifies this
      ensures (View(), redis.View()) == Advanced(old(View()), old(redis.View()), now)
    {
      if currentCount > config.maxRequests {
        phase := Rejected;
        if currentCount > config.maxRequests * ABUSE_MULTIPLIER {
          phase := Abusing;
        }
      } else {
        phase := Admitted;
      }
    }

    method Penalise(redis: Redis, now: nat)
      requires phase == Abusing
      modifies this, redis
      ensures (View(), redis.View()) == Advanced(old(View()), old(redis.View()), now)
    {
      redis.SetEx(client, ABUSE_PENALTY_SECONDS, now);
      phase := Rejected;
    }
  }

  // ---- All requests together ------------------------------------------------------------------

  datatype World = World(now: nat, store: Store, requests: map<nat, Request>)

  datatype Event =
    | Tick(ms: nat)
    | Check(id: nat, client: string, policy: Policy, reply: int)  // a new request reads its penalty
    | Advance(id: nat)                                            // a request takes its next step

  const START: World := World(0, Store(map[], map[]), map[])

  predicate Enabled(w: World, e: Event) {
    match e
    case Tick(_) => true
    case Check(id, client, _, reply) => id !in w.requests && Truthful(reply, Remaining(w.store, client, w.now))
    case Advance(id) => id in w.requests
  }

  function Step(w: World, e: Event): World
    requires Enabled(w, e)
  {
    match e
    case Tick(ms) => w.(now := w.now + ms)
    case Check(id, client, policy, reply) =>
      w.(requests := w.requests[id := AfterCheck(client, policy, reply)])
    case Advance(id) =>
      var (r, s) := Advanced(w.requests[id], w.store, w.now);
      World(w.now, s, w.requests[id := r])
  }

  predicate Playable(w: World, es: seq<Event>)
    decreases |es|
  {
    es == [] || (Enabled(w, es[0]) && Playable(Step(w, es[0]), es[1..]))
  }

  function Play(w: World, es: seq<Event>): World
    requires Playable(w, es)
    decreases |es|
  {
    if es == [] then w else Play(Step(w, es[0]), es[1..])
  }

  predicate HasCount(r: Request) {
    r.phase in {Incremented, Counted, Abusing, Rejected, Admitted}
  }

  predicate HasStamp(r: Request) {
    r.phase == Stamped || HasCount(r)
  }

  /** The requests counted under a key. */
  function Members(w: World, k: Key): set<nat> {
    set id | id in w.requests && HasCount(w.requests[id]) && KeyOf(w.requests[id]) == k
  }

  /** What a key's counter stands at, expired or not. */
  function Raw(s: Store, k: Key): nat {
    if k in s.counters then s.counters[k].count else 0
  }

  lemma AdvancedShape(r: Request, s: Store, now: nat)
    ensures
      var r' := Advanced(r, s, now).0;
      && r'.client == r.client && r'.policy == r.policy
      && (HasCount(r') <==> HasCount(r) || r.phase == Stamped)
      && (HasStamp(r) ==> KeyOf(r') == KeyOf(r) && r'.at == r.at)
      && (HasCount(r) ==> r'.count == r.count)
  {
    hide AfterIncr, AfterExpire, AfterSetEx;
  }

  lemma MembersPut(w: World, w': World, id: nat, r: Request, k: Key)
    requires w'.requests == w.requests[id := r]
    ensures Members(w', k) == if HasCount(r) && KeyOf(r) == k then Members(w, k) + {id} else Members(w, k) - {id}
    ensures id in Members(w, k) <==> id in w.requests && HasCount(w.requests[id]) && KeyOf(w.requests[id]) == k
  {
    hide HasCount, KeyOf;
  }

  lemma MembersSame(w: World, w': World, k: Key)
    requires w'.requests == w.requests
    ensures Members(w', k) == Members(w, k)
  {
    hide HasCount, KeyOf;
  }

  /** A key gains exactly the request whose INCR just hit it. */
  lemma MembersStep(w: World, e: Event, k: Key)
    requires Enabled(w, e)
    ensures
      var before, after := Members(w, k), Members(Step(w, e), k);
      if e.Advance? && w.requests[e.id].phase == Stamped && KeyOf(w.requests[e.id]) == k
      then e.id !in before && after == before + {e.id} && |after| == |before| + 1
      else after == before
  {
    hide Advanced, KeyOf, Members, Remaining, Truthful;
    match e
    case Tick(_) => MembersSame(w, Step(w, e), k);
    case Check(id, client, policy, reply) => MembersPut(w, Step(w, e), id, AfterCheck(client, policy, reply), k);
    case Advance(id) =>
      AdvancedShape(w.requests[id], w.store, w.now);
      MembersPut(w, Step(w, e), id, Advanced(w.requests[id], w.store, w.now).0, k);
  }

  /** What one step does to the counters. */
  lemma CountersStep(r: Request, s: Store, now: nat, k: Key)
    ensures
      var (r', s') := Advanced(r, s, now);
      && (r.phase != Stamped || k != KeyOf(r) ==> Raw(s', k) == Raw(s, k))
      && (r.phase == Stamped && Live(s, KeyOf(r), now) ==> Raw(s', KeyOf(r)) == Raw(s, KeyOf(r)) + 1)
      && (r.phase == Stamped ==> r'.count == Raw(s', KeyOf(r)) >= 1 && KeyOf(r) in s'.counters)
      && (r.phase == Stamped && !Live(s, KeyOf(r), now) ==> Raw(s', KeyOf(r)) == 1)
  {
    hide KeyOf;
  }

  // ---- Nobody is refused early -------------------------------------------------------------------

  predicate Honest(r: Request) {
    && (r.phase == Admitted ==> r.count <= r.policy.maxRequests)
    && (r.phase == Rejected ==> r.count > r.policy.maxRequests)
    && (r.phase == Abusing ==> r.count > r.policy.maxRequests * ABUSE_MULTIPLIER)
  }

  /** Some request of the client was counted past the abuse threshold of its policy. */
  predicate Abused(w: World, client: string, id: nat) {
    && id in w.requests
    && var r := w.requests[id];
       r.client == client && r.phase == Rejected && r.count > r.policy.maxRequests * ABUSE_MULTIPLIER
  }

  ghost predicate CountsFair(w: World) {
    && (forall k: Key :: Raw(w.store, k) <= |Members(w, k)|)
    && (forall id :: id in w.requests && HasCount(w.requests[id]) ==>
          w.requests[id].count <= |Members(w, KeyOf(w.requests[id]))|)
  }

  ghost predicate VerdictsFair(w: World) {
    && (forall id :: id in w.requests ==> Honest(w.requests[id]))
    && (forall client :: client in w.store.penalties ==> exists id :: Abused(w, client, id))
  }

  ghost predicate Fair(w: World) {
    CountsFair(w) && VerdictsFair(w)
  }

  lemma CountsFairStep(w: World, e: Event)
    requires CountsFair(w) && Enabled(w, e)
    ensures CountsFair(Step(w, e))
  {
    hide Truthful, Remaining, Members, Advanced, KeyOf;
    var w' := Step(w, e);
    forall k: Key ensures Raw(w'.store, k) <= |Members(w', k)| && |Members(w, k)| <= |Members(w', k)| {
      MembersStep(w, e, k);
      if e.Advance? { CountersStep(w.requests[e.id], w.store, w.now, k); }
    }
    forall id | id in w'.requests && HasCount(w'.requests[id])
      ensures w'.requests[id].count <= |Members(w', KeyOf(w'.requests[id]))|
    {
      if e.Advance? && e.id == id {
        var r := w.requests[id];
        AdvancedShape(r, w.store, w.now);
        CountersStep(r, w.store, w.now, KeyOf(r));
      }
    }
  }

  lemma VerdictsFairStep(w: World, e: Event)
    requires VerdictsFair(w) && Enabled(w, e)
    ensures VerdictsFair(Step(w, e))
  {
    hide Truthful, Remaining, KeyOf, AfterIncr, AfterExpire;
    var w' := Step(w, e);
    if e.Advance? { PenaltiesStep(w.requests[e.id], w.store, w.now); }
    forall client | client in w'.store.penalties ensures exists id :: Abused(w', client, id) {
      if client in w.store.penalties {
        var id :| Abused(w, client, id);
        assert Abused(w', client, id);
      } else {
        assert Abused(w', client, e.id);
      }
    }
  }

  /** Only a request past the abuse threshold writes a penalty. */
  lemma PenaltiesStep(r: Request, s: Store, now: nat)
    ensures
      var s' := Advanced(r, s, now).1;
      if r.phase == Abusing then s'.penalties == s.penalties[r.client := now + ABUSE_PENALTY_SECONDS * 1000]
      else s'.penalties == s.penalties
  {
    hide KeyOf;
  }

  lemma FairStep(w: World, e: Event)
    requires Fair(w) && Enabled(w, e)
    ensures Fair(Step(w, e))
  {
    hide CountsFair, VerdictsFair, Step, Enabled;
    CountsFairStep(w, e);
    VerdictsFairStep(w, e);
  }

  lemma {:induction false} FairRun(w: World, es: seq<Event>)
    requires Fair(w) && Playable(w, es)
    ensures Fair(Play(w, es))
    decreases |es|
  {
    hide Fair, Step, Enabled;
    if es != [] {
      FairStep(w, es[0]);
      FairRun(Step(w, es[0]), es[1..]);
    }
  }

  /** With no timing assumption at all: a request is refused for its count only when more requests of
      its client than its limit were counted in its window, and a client is penalised only when more
      than three times the limit of one of its requests were. */
  lemma RefusedOnlyOverTheLimit(es: seq<Event>)
    requires Playable(START, es)
    ensures
      var w := Play(START, es);
      && (forall id :: id in w.requests && w.requests[id].phase == Rejected ==>
            |Members(w, KeyOf(w.requests[id]))| > w.requests[id].policy.maxRequests)
      && (forall client :: client in w.store.penalties ==>
            exists id :: Abused(w, client, id) &&
                         |Members(w, KeyOf(w.requests[id]))| > ABUSE_MULTIPLIER * w.requests[id].policy.maxRequests)
  {
    FairRun(START, es);
    var w := Play(START, es);
    forall client | client in w.store.penalties
      ensures exists id :: Abused(w, client, id) &&
                           |Members(w, KeyOf(w.requests[id]))| > ABUSE_MULTIPLIER * w.requests[id].policy.maxRequests
    {
      var id :| Abused(w, client, id);
    }
  }

  // ---- At most the limit per window ------------------------------------------------------------

  /** Two assumptions on a run: INCR reaches Redis within a second of the clock reading that chose its
      window, and no two window lengths give one client the same key. */
  predicate Timely(w: World, e: Event) {
    e.Advance? && e.id in w.requests ==>
      var r := w.requests[e.id];
      && (r.phase == Stamped ==> w.now <= r.at + 1000)
      && (r.phase == Checked ==> NoClash(w, Advanced(r, w.store, w.now).0))
  }

  predicate NoClash(w: World, r: Request) {
    forall j :: j in w.requests && HasStamp(w.requests[j]) && KeyOf(w.requests[j]) == KeyOf(r) ==>
                  w.requests[j].policy.windowSeconds == r.policy.windowSeconds
  }

  predicate Prompt(w: World, es: seq<Event>)
    decreases |es|
  {
    es == [] || (Enabled(w, es[0]) && Timely(w, es[0]) && Prompt(Step(w, es[0]), es[1..]))
  }

  /** The end of a request's window. */
  function End(r: Request): nat {
    Begin(Bucket(r.at, WindowMs(r.policy)), WindowMs(r.policy)) + WindowMs(r.policy)
  }

  lemma InsideWindow(r: Request)
    ensures End(r) - WindowMs(r.policy) <= r.at < End(r)
  {
  }

  lemma SameWindow(r: Request, q: Request)
    requires KeyOf(r) == KeyOf(q) && r.policy.windowSeconds == q.policy.windowSeconds
    ensures End(r) == End(q)
  {
  }

  /** The counter a request was counted on outlives every timely INCR of its window. */
  predicate Lasts(s: Store, r: Request) {
    && KeyOf(r) in s.counters
    && var x := s.counters[KeyOf(r)].expiry;
       x.Some? ==> x.value >= End(r) + 1000
  }

  predicate Placed(w: World, r: Request) {
    && (HasStamp(r) ==> r.at <= w.now)
    && (HasCount(r) ==> 1 <= r.count <= Raw(w.store, KeyOf(r)) && Lasts(w.store, r))
  }

  predicate Apart(r: Request, q: Request) {
    KeyOf(r) == KeyOf(q) ==>
      && (HasStamp(r) && HasStamp(q) ==> r.policy.windowSeconds == q.policy.windowSeconds)
      && (HasCount(r) && HasCount(q) ==> r.count != q.count)
  }

  ghost predicate Exact(w: World) {
    && (forall id :: id in w.requests ==> Placed(w, w.requests[id]))
    && (forall i, j :: i in w.requests && j in w.requests && i != j ==> Apart(w.requests[i], w.requests[j]))
    && (forall k: Key :: Raw(w.store, k) == |Members(w, k)|)
  }

  /** A timely INCR never meets an expired counter: it is live, or nobody was counted on it. */
  lemma TimelyIncrIsLive(w: World, id: nat)
    requires Exact(w) && id in w.requests && w.requests[id].phase == Stamped
    requires w.now <= w.requests[id].at + 1000
    ensures
      var k := KeyOf(w.requests[id]);
      Live(w.store, k, w.now) || (Raw(w.store, k) == 0 && Members(w, k) == {})
  {
    var r := w.requests[id];
    if j :| j in Members(w, KeyOf(r)) {
      var q := w.requests[j];
      assert Apart(r, q) && Placed(w, q);
      hide KeyOf, End;
      SameWindow(r, q);
      InsideWindow(r);
    }
  }

  /** No step takes away a counter that lasts: the expiry it may set lies past the window too. */
  lemma LastsStep(r: Request, s: Store, now: nat, q: Request)
    requires Lasts(s, q) || (r.phase == Stamped && KeyOf(r) == KeyOf(q) && !Live(s, KeyOf(r), now))
    requires HasStamp(r) ==> r.at <= now
    requires HasStamp(r) && KeyOf(r) == KeyOf(q) ==> r.policy.windowSeconds == q.policy.windowSeconds
    ensures Lasts(Advanced(r, s, now).1, q)
  {
    if HasStamp(r) && KeyOf(r) == KeyOf(q) {
      SameWindow(r, q);
      InsideWindow(r);
    }
    hide KeyOf, End;
  }

  lemma ExactCountsStep(w: World, e: Event, k: Key)
    requires Exact(w) && Enabled(w, e) && Timely(w, e)
    ensures Raw(Step(w, e).store, k) == |Members(Step(w, e), k)| >= Raw(w.store, k)
  {
    hide Members, Advanced, KeyOf, Live, Lasts, Placed, Apart, Remaining, Truthful;
    MembersStep(w, e, k);
    if e.Advance? {
      var r := w.requests[e.id];
      CountersStep(r, w.store, w.now, k);
      if r.phase == Stamped { TimelyIncrIsLive(w, e.id); }
    }
  }

  lemma MoverPlaced(w: World, id: nat)
    requires Exact(w) && Enabled(w, Advance(id)) && Timely(w, Advance(id))
    ensures Placed(Step(w, Advance(id)), Step(w, Advance(id)).requests[id])
  {
    var r := w.requests[id];
    var r' := Advanced(r, w.store, w.now).0;
    assert Placed(w, r);
    ExactCountsStep(w, Advance(id), KeyOf(r));
    CountersStep(r, w.store, w.now, KeyOf(r));
    AdvancedShape(r, w.store, w.now);
    if HasCount(r') {
      if r.phase == Stamped { TimelyIncrIsLive(w, id); }
      MoverLasts(w, id);
    } else {
      assert HasStamp(r') ==> r'.at <= w.now;
    }
  }

  lemma MoverLasts(w: World, id: nat)
    requires Exact(w) && id in w.requests && Timely(w, Advance(id)) && HasStamp(w.requests[id])
    ensures Lasts(Advanced(w.requests[id], w.store, w.now).1, Advanced(w.requests[id], w.store, w.now).0)
  {
    var r := w.requests[id];
    assert Placed(w, r);
    if r.phase == Stamped && Live(w.store, KeyOf(r), w.now) {
      TimelyIncrIsLive(w, id);
      assert |Members(w, KeyOf(r))| == Raw(w.store, KeyOf(r)) >= 1;
      var j :| j in Members(w, KeyOf(r));
      var q := w.requests[j];
      assert Apart(r, q) && Placed(w, q);
      SameWindow(r, q);
    }
    LastsStep(r, w.store, w.now, r);
    AdvancedShape(r, w.store, w.now);
    SameWindow(r, Advanced(r, w.store, w.now).0);
  }

  lemma BystanderPlaced(w: World, e: Event, j: nat)
    requires Exact(w) && Enabled(w, e) && Timely(w, e)
    requires j in w.requests && (e.Advance? ==> e.id != j)
    ensures Placed(Step(w, e), w.requests[j])
  {
    hide Advanced, KeyOf, Members, Raw, Lasts, Live, Remaining, Truthful;
    var q := w.requests[j];
    assert Placed(w, q);
    ExactCountsStep(w, e, KeyOf(q));
    if e.Advance? && HasCount(q) {
      var r := w.requests[e.id];
      assert Apart(r, q) && Placed(w, r);
      LastsStep(r, w.store, w.now, q);
    }
  }

  lemma MoverApart(w: World, id: nat, j: nat)
    requires Exact(w) && Enabled(w, Advance(id)) && Timely(w, Advance(id))
    requires j in w.requests && j != id
    ensures Apart(Step(w, Advance(id)).requests[id], w.requests[j])
  {
    hide Members, Lasts, Live;
    var r, q := w.requests[id], w.requests[j];
    var r' := Advanced(r, w.store, w.now).0;
    assert Apart(r, q) && Placed(w, q);
    AdvancedShape(r, w.store, w.now);
    CountersStep(r, w.store, w.now, KeyOf(r));
    hide Advanced, KeyOf;
    if KeyOf(r') == KeyOf(q) && HasStamp(r') && HasStamp(q) {
      if r.phase == Checked {
        assert NoClash(w, r');
      } else if r.phase == Stamped && HasCount(q) {
        TimelyIncrIsLive(w, id);
        assert r'.count == Raw(w.store, KeyOf(r)) + 1;
      }
    }
  }

  lemma ExactStep(w: World, e: Event)
    requires Exact(w) && Enabled(w, e) && Timely(w, e)
    ensures Exact(Step(w, e))
  {
    var w' := Step(w, e);
    forall k: Key ensures Raw(w'.store, k) == |Members(w', k)| {
      ExactCountsStep(w, e, k);
    }
    forall i | i in w'.requests ensures Placed(w', w'.requests[i]) {
      if e.Advance? && e.id == i { MoverPlaced(w, i); }
      else if i in w.requests { BystanderPlaced(w, e, i); }
    }
    forall i, j | i in w'.requests && j in w'.requests && i != j ensures Apart(w'.requests[i], w'.requests[j]) {
      if e.Advance? && e.id == i { MoverApart(w, i, j); }
      else if e.Advance? && e.id == j { MoverApart(w, j, i); }
    }
  }

  lemma {:induction false} ExactRun(w: World, es: seq<Event>)
    requires Exact(w) && Prompt(w, es)
    ensures Playable(w, es) && Exact(Play(w, es))
    decreases |es|
  {
    hide Exact, Step, Enabled, Timely;
    if es != [] {
      ExactStep(w, es[0]);
      ExactRun(Step(w, es[0]), es[1..]);
    }
  }

  /** The requests of one key admitted under policies of at most `limit`. */
  function AdmittedIn(w: World, k: Key, limit: nat): set<nat> {
    set id | id in w.requests && w.requests[id].phase == Admitted && KeyOf(w.requests[id]) == k &&
             w.requests[id].policy.maxRequests <= limit
  }

  predicate CountsApart(w: World, ids: set<nat>) {
    && ids <= w.requests.Keys
    && (forall i, j :: i in ids && j in ids && i != j ==> w.requests[i].count != w.requests[j].count)
  }

  /** Requests with distinct counts above `low` and up to `high` are at most `high - low` many. */
  lemma {:induction false} DistinctCounts(w: World, ids: set<nat>, low: nat, high: nat)
    requires low <= high && CountsApart(w, ids)
    requires forall i :: i in ids ==> low < w.requests[i].count <= high
    ensures |ids| <= high - low
    decreases high
  {
    if ids != {} {
      if last :| last in ids && w.requests[last].count == high {
        DistinctCounts(w, ids - {last}, low, high - 1);
      } else {
        DistinctCounts(w, ids, low, high - 1);
      }
    }
  }

  /** In every interleaving of timely requests, the counts of a window are exactly 1 to the number of
      requests counted in it, and at most `limit` requests of a client are admitted in a window under
      policies of limit `limit` or less. */
  lemma AtMostTheLimitPerWindow(es: seq<Event>, k: Key, limit: nat)
    requires Prompt(START, es)
    ensures Playable(START, es)
    ensures
      var w := Play(START, es);
      && |AdmittedIn(w, k, limit)| <= limit
      && CountsApart(w, Members(w, k))
      && (forall i :: i in Members(w, k) ==> 1 <= w.requests[i].count <= |Members(w, k)|)
  {
    ExactRun(START, es);
    FairRun(START, es);
    var w := Play(START, es);
    forall i | i in w.requests && HasCount(w.requests[i]) ensures w.requests[i].count >= 1 {
      assert Placed(w, w.requests[i]);
    }
    forall i, j | i in Members(w, k) && j in Members(w, k) && i != j
      ensures w.requests[i].count != w.requests[j].count
    {
      assert Apart(w.requests[i], w.requests[j]);
    }
    forall i | i in AdmittedIn(w, k, limit) ensures i in Members(w, k) && w.requests[i].count <= limit {
      assert Honest(w.requests[i]);
    }
    DistinctCounts(w, AdmittedIn(w, k, limit), 0, limit);
  }

  // ---- Exactly when counts stay apart -----------------------------------------------------------

  /** An INCR that meets a live counter, or a window in which nobody has been counted. */
  predicate MeetsLive(w: World, e: Event) {
    e.Advance? && e.id in w.requests && w.requests[e.id].phase == Stamped ==>
      var k := KeyOf(w.requests[e.id]);
      Live(w.store, k, w.now) || Members(w, k) == {}
  }

  predicate MeetsLiveRun(w: World, es: seq<Event>)
    requires Playable(w, es)
    decreases |es|
  {
    es == [] || (MeetsLive(w, es[0]) && MeetsLiveRun(Step(w, es[0]), es[1..]))
  }

  /** No two requests of a window have the same count. */
  ghost predicate Distinct(w: World) {
    forall k: Key :: CountsApart(w, Members(w, k))
  }

  /** The same at every moment of a run. */
  ghost predicate AlwaysDistinct(w: World, es: seq<Event>)
    requires Playable(w, es)
    decreases |es|
  {
    Distinct(w) && (es == [] || AlwaysDistinct(Step(w, es[0]), es[1..]))
  }

  ghost predicate Numbered(w: World, k: Key) {
    && Raw(w.store, k) == |Members(w, k)| && CountsApart(w, Members(w, k))
    && forall id :: id in Members(w, k) ==> 1 <= w.requests[id].count <= |Members(w, k)|
  }

  /** A count once given stays. */
  lemma CountsStay(w: World, e: Event, k: Key)
    requires Enabled(w, e)
    ensures forall id :: id in Members(w, k) ==>
              && id in w.requests && id in Step(w, e).requests
              && Step(w, e).requests[id].count == w.requests[id].count
  {
    hide Advanced, KeyOf, Members, Remaining, Truthful;
    MembersAre(w, k);
    if e.Advance? { AdvancedShape(w.requests[e.id], w.store, w.now); }
  }

  lemma NumberedStep(w: World, e: Event, k: Key)
    requires Numbered(w, k) && Enabled(w, e) && MeetsLive(w, e)
    ensures Numbered(Step(w, e), k)
  {
    hide KeyOf, Live, Members, Remaining, Truthful, Advanced, Raw;
    var w' := Step(w, e);
    MembersStep(w, e, k);
    CountsStay(w, e, k);
    if e.Advance? {
      var r := w.requests[e.id];
      CountersStep(r, w.store, w.now, k);
      assert r.phase == Stamped && KeyOf(r) == k ==> w'.requests[e.id].count == |Members(w', k)|;
    }
    assert Raw(w'.store, k) == |Members(w', k)|;
    hide Step, Enabled, MeetsLive;
    MembersAre(w', k);
  }

  lemma MembersAre(w: World, k: Key)
    ensures forall id :: id in Members(w, k) ==>
              id in w.requests && HasCount(w.requests[id]) && KeyOf(w.requests[id]) == k
  {
    hide HasCount, KeyOf;
  }

  /** Someone was the first. */
  lemma FirstOfNumbered(w: World, k: Key) returns (id: nat)
    requires Numbered(w, k) && Members(w, k) != {}
    ensures id in Members(w, k) && w.requests[id].count == 1
  {
    hide Members;
    var ids := Members(w, k);
    if forall i :: i in ids ==> w.requests[i].count != 1 {
      DistinctCounts(w, ids, 1, |ids|);
      assert false;
    }
    id :| id in ids && w.requests[id].count == 1;
  }

  /** An INCR that meets an expired counter gives a count of 1 a second time. */
  lemma ExpiredRepeatsOne(w: World, e: Event)
    requires (forall k: Key :: Numbered(w, k)) && Enabled(w, e) && !MeetsLive(w, e)
    ensures !Distinct(Step(w, e))
  {
    hide Advanced, KeyOf, Live, Members, Remaining, Truthful, Numbered;
    var r, w' := w.requests[e.id], Step(w, e);
    var k := KeyOf(r);
    var first := FirstOfNumbered(w, k);
    MembersStep(w, e, k);
    MembersAre(w, k);
    MembersAre(w', k);
    CountersStep(r, w.store, w.now, k);
    assert first in Members(w', k) && e.id in Members(w', k) && first != e.id;
    assert w'.requests[first].count == 1 == w'.requests[e.id].count;
    assert !CountsApart(w', Members(w', k));
  }

  lemma {:induction false} DistinctThroughoutIff(w: World, es: seq<Event>)
    requires Playable(w, es) && forall k: Key :: Numbered(w, k)
    ensures AlwaysDistinct(w, es) <==> MeetsLiveRun(w, es)
    ensures MeetsLiveRun(w, es) ==> forall k: Key :: Numbered(Play(w, es), k)
    decreases |es|
  {
    hide Members;
    forall k: Key ensures CountsApart(w, Members(w, k)) { assert Numbered(w, k); }
    assert Distinct(w);
    hide Step, Enabled, MeetsLive, Numbered, Distinct;
    if es != [] {
      if MeetsLive(w, es[0]) {
        forall k: Key ensures Numbered(Step(w, es[0]), k) { NumberedStep(w, es[0], k); }
        DistinctThroughoutIff(Step(w, es[0]), es[1..]);
      } else {
        ExpiredRepeatsOne(w, es[0]);
      }
    }
  }

  /** The exact condition, with no timing assumed: the counts of every window stay apart throughout a run if
      and only if every INCR meets a live counter or a window in which nobody has been counted. Then the
      limit holds in every window. */
  lemma CountsApartIff(es: seq<Event>, k: Key, limit: nat)
    requires Playable(START, es)
    ensures AlwaysDistinct(START, es) <==> MeetsLiveRun(START, es)
    ensures MeetsLiveRun(START, es) ==> |AdmittedIn(Play(START, es), k, limit)| <= limit
  {
    DistinctThroughoutIff(START, es);
    FairRun(START, es);
    if MeetsLiveRun(START, es) {
      var w := Play(START, es);
      assert Numbered(w, k);
      forall i | i in AdmittedIn(w, k, limit) ensures i in Members(w, k) && w.requests[i].count <= limit {
        assert Honest(w.requests[i]);
      }
      DistinctCounts(w, AdmittedIn(w, k, limit), 0, limit);
    }
  }

  /** Timely runs meet it. */
  lemma {:induction false} PromptMeetsLive(w: World, es: seq<Event>)
    requires Exact(w) && Prompt(w, es)
    ensures Playable(w, es) && MeetsLiveRun(w, es)
    decreases |es|
  {
    hide Exact, Step, Enabled, Timely, MeetsLive;
    if es != [] {
      TimelyMeetsLive(w, es[0]);
      ExactStep(w, es[0]);
      PromptMeetsLive(Step(w, es[0]), es[1..]);
    }
  }

  lemma TimelyMeetsLive(w: World, e: Event)
    requires Exact(w) && Timely(w, e)
    ensures MeetsLive(w, e)
  {
    hide Exact, KeyOf, Members, Live;
    if e.Advance? && e.id in w.requests && w.requests[e.id].phase == Stamped { TimelyIncrIsLive(w, e.id); }
  }

  /** And when one limit applies to the whole window and every request counted in it has its verdict,
      exactly the first `limit` of them, or all if they are fewer, were admitted. */
  lemma ExactlyTheLimitPerWindow(es: seq<Event>, k: Key, limit: nat)
    requires Prompt(START, es) && Playable(START, es)
    requires
      var w := Play(START, es);
      forall i :: i in Members(w, k) ==>
        w.requests[i].policy.maxRequests == limit && w.requests[i].phase in {Admitted, Abusing, Rejected}
    ensures
      var w := Play(START, es);
      && |AdmittedIn(w, k, limit)| == (if |Members(w, k)| <= limit then |Members(w, k)| else limit)
      && (forall i :: i in Members(w, k) ==> (i in AdmittedIn(w, k, limit) <==> w.requests[i].count <= limit))
  {
    hide KeyOf, Prompt, Play, Playable;
    AtMostTheLimitPerWindow(es, k, limit);
    FairRun(START, es);
    SplitByCount(Play(START, es), k, limit);
  }

  lemma SplitByCount(w: World, k: Key, limit: nat)
    requires CountsApart(w, Members(w, k))
    requires forall i :: i in w.requests ==> Honest(w.requests[i])
    requires forall i :: i in Members(w, k) ==>
               && 1 <= w.requests[i].count <= |Members(w, k)|
               && w.requests[i].policy.maxRequests == limit && w.requests[i].phase in {Admitted, Abusing, Rejected}
    ensures |AdmittedIn(w, k, limit)| <= limit ==>
              |AdmittedIn(w, k, limit)| == (if |Members(w, k)| <= limit then |Members(w, k)| else limit)
    ensures forall i :: i in Members(w, k) ==> (i in AdmittedIn(w, k, limit) <==> w.requests[i].count <= limit)
  {
    hide KeyOf;
    var all, admitted := Members(w, k), AdmittedIn(w, k, limit);
    forall i | i in all ensures i in admitted <==> w.requests[i].count <= limit {
      assert Honest(w.requests[i]);
    }
    var refused := all - admitted;
    assert admitted <= all && |all| == |admitted| + |refused| by { assert all == admitted + refused; }
    if |all| <= limit {
      assert refused == {};
    } else {
      DistinctCounts(w, refused, limit, |all|);
    }
  }

  /** The admitted requests of a client that read the clock in [from, from + window). */
  function AdmittedBetween(w: World, client: string, seconds: Positive, limit: nat, from: nat): set<nat> {
    set id | id in w.requests && w.requests[id].phase == Admitted && w.requests[id].client == client &&
             w.requests[id].policy.windowSeconds == seconds && w.requests[id].policy.maxRequests <= limit &&
             from <= w.requests[id].at < from + seconds * 1000
  }

  /** An interval as long as a window touches two windows at most. */
  lemma TwoBuckets(from: nat, at: nat, width: Positive)
    requires from <= at < from + width
    ensures Bucket(at, width) == Bucket(from, width) || Bucket(at, width) == Bucket(from, width) + 1
  {
    hide Bucket;
    var b, c := Bucket(at, width), Bucket(from, width);
    if b < c { BeginsGrow(b, c, width); }
    if c + 1 < b { BeginsGrow(c + 1, b, width); }
  }

  /** Hence at most twice the limit in any interval as long as the window, wherever it starts. */
  lemma AtMostTwiceInAnyInterval(
    es: seq<Event>, client: string, seconds: Positive, limit: nat, from: nat)
    requires Prompt(START, es)
    ensures Playable(START, es) && |AdmittedBetween(Play(START, es), client, seconds, limit, from)| <= 2 * limit
  {
    var b := Bucket(from, seconds * 1000);
    AtMostTheLimitPerWindow(es, Key(client, b), limit);
    AtMostTheLimitPerWindow(es, Key(client, b + 1), limit);
    var w := Play(START, es);
    var early, late := AdmittedIn(w, Key(client, b), limit), AdmittedIn(w, Key(client, b + 1), limit);
    var all := AdmittedBetween(w, client, seconds, limit, from);
    forall id | id in all ensures id in early + late {
      TwoBuckets(from, w.requests[id].at, seconds * 1000);
    }
    assert all <= early + late;
    assert |early + late| == |early| + |late| - |early * late|;
    Subset(all, early + late);
  }

  /** When the interval is one of the windows, the limit itself holds. */
  lemma AtMostTheLimitOnTheGrid(
    es: seq<Event>, client: string, seconds: Positive, limit: nat, from: nat)
    requires Prompt(START, es) && from == Begin(Bucket(from, seconds * 1000), seconds * 1000)
    ensures Playable(START, es) && |AdmittedBetween(Play(START, es), client, seconds, limit, from)| <= limit
  {
    var width, b := seconds * 1000, Bucket(from, seconds * 1000);
    AtMostTheLimitPerWindow(es, Key(client, b), limit);
    var w := Play(START, es);
    var all := AdmittedBetween(w, client, seconds, limit, from);
    forall id | id in all ensures id in AdmittedIn(w, Key(client, b), limit) {
      BucketIs(w.requests[id].at, width, b);
    }
    Subset(all, AdmittedIn(w, Key(client, b), limit));
  }

  lemma {:induction false} Subset(a: set<nat>, b: set<nat>)
    requires a <= b
    ensures |a| <= |b|
  {
    if x :| x in a { Subset(a - {x}, b - {x}); }
  }

  /** The two window lengths of the policy tables never share a key within one era: from any time past
      the first hundred seconds of the epoch until the clock has doubled. */
  lemma NoClashInOneEra(w: World, r: Request, start: nat)
    requires start >= 100000
    requires r.policy.windowSeconds in {60, 300} && start <= r.at <= 2 * start
    requires forall j :: j in w.requests && HasStamp(w.requests[j]) ==>
               w.requests[j].policy.windowSeconds in {60, 300} && start <= w.requests[j].at <= 2 * start
    ensures NoClash(w, r)
  {
    forall j | j in w.requests && HasStamp(w.requests[j]) && KeyOf(w.requests[j]) == KeyOf(r)
      ensures w.requests[j].policy.windowSeconds == r.policy.windowSeconds
    {
      hide Bucket, Begin;
      var q := w.requests[j];
      EraSeparates(q.at, r.at, Bucket(r.at, WindowMs(r.policy)), start);
      EraSeparates(r.at, q.at, Bucket(r.at, WindowMs(r.policy)), start);
    }
  }

  lemma EraSeparates(minute: nat, fiveMinutes: nat, b: nat, start: nat)
    requires start >= 100000 && start <= minute <= 2 * start && start <= fiveMinutes <= 2 * start
    ensures !(Begin(b, 60000) <= minute < Begin(b, 60000) + 60000
              && Begin(b, 300000) <= fiveMinutes < Begin(b, 300000) + 300000)
  {
    hide Begin;
    BeginIs(b, 60000);
    BeginIs(b, 300000);
  }

  // ---- How late is too late ---------------------------------------------------------------------

  lemma {:induction false} PlayThen(w: World, es: seq<Event>, e: Event)
    requires Playable(w, es) && Enabled(Play(w, es), e)
    ensures Playable(w, es + [e]) && Play(w, es + [e]) == Step(Play(w, es), e)
    decreases |es|
  {
    hide Step, Enabled;
    if es == [] {
      assert es + [e] == [e];
      assert [e][1..] == [];
    } else {
      assert (es + [e])[1..] == es[1..] + [e];
      PlayThen(Step(w, es[0]), es[1..], e);
    }
  }

  /** A run from the start, grown one event at a time. */
  lemma Grow(es: seq<Event>, w: World, e: Event) returns (es': seq<Event>, w': World)
    requires Playable(START, es) && Play(START, es) == w && Enabled(w, e)
    ensures es' == es + [e] && w' == Step(w, e)
    ensures Playable(START, es') && Play(START, es') == w'
  {
    PlayThen(START, es, e);
    es', w' := es + [e], Step(w, e);
  }

  /** The same for a timely run. */
  lemma GrowPrompt(es: seq<Event>, w: World, e: Event) returns (es': seq<Event>, w': World)
    requires TimelyRun(es, w) && Enabled(w, e) && Timely(w, e)
    ensures es' == es + [e] && w' == Step(w, e) && TimelyRun(es', w')
  {
    hide Step, Enabled, Timely;
    PlayThen(START, es, e);
    PromptThen(START, es, e);
    es', w' := es + [e], Step(w, e);
  }

  ghost predicate TimelyRun(es: seq<Event>, w: World) {
    Prompt(START, es) && Playable(START, es) && Play(START, es) == w
  }

  lemma {:induction false} PromptThen(w: World, es: seq<Event>, e: Event)
    requires Prompt(w, es) && Playable(w, es) && Enabled(Play(w, es), e) && Timely(Play(w, es), e)
    ensures Prompt(w, es + [e])
    decreases |es|
  {
    hide Step, Enabled, Timely;
    if es == [] {
      assert es + [e] == [e];
      assert [e][1..] == [];
    } else {
      assert (es + [e])[1..] == es[1..] + [e];
      PromptThen(Step(w, es[0]), es[1..], e);
    }
  }

  // ---- Runs of one client under one policy, each request served without a pause -----------------

  const CLIENT := "a"

  predicate AllUnder(w: World, p: Policy) {
    forall id :: id in w.requests ==> w.requests[id].policy == p
  }

  function CurrentKey(now: nat, p: Policy): Key {
    Key(CLIENT, Bucket(now, WindowMs(p)))
  }

  /** The counter of a key stands at `count`, and goes when its window does at the latest. */
  predicate StandsAt(s: Store, k: Key, now: nat, p: Policy, count: nat) {
    if count == 0 then !Live(s, k, now)
    else
      && Live(s, k, now) && s.counters[k].count == count
      && s.counters[k].expiry.Some? && s.counters[k].expiry.value <= now + WindowMs(p) + 1000
  }

  /** Two stores that differ at one counter key at most. */
  ghost predicate SameBut(s: Store, s': Store, k: Key) {
    s'.penalties == s.penalties && forall k' :: k' != k ==> (k' in s'.counters <==> k' in s.counters)
  }

  lemma Arrive(
    es: seq<Event>, w: World, id: nat, p: Policy, reply: int)
    returns (es': seq<Event>, w': World)
    requires TimelyRun(es, w) && id !in w.requests && AllUnder(w, p)
    requires reply <= 0 && Truthful(reply, Remaining(w.store, CLIENT, w.now))
    ensures TimelyRun(es', w') && es' == es + [Check(id, CLIENT, p, reply), Advance(id)]
    ensures w' == w.(requests := w.requests[id := Request(CLIENT, p, Stamped, w.now, 0)])
  {
    hide TimelyRun, Remaining, Truthful;
    var check := Check(id, CLIENT, p, reply);
    es', w' := GrowPrompt(es, w, check);
    ghost var r := Request(CLIENT, p, Stamped, w.now, 0);
    assert NoClash(w', r) by {
      hide KeyOf;
      assert forall j :: j in w'.requests ==> w'.requests[j].policy == p;
    }
    assert Timely(w', Advance(id)) by { hide KeyOf; }
    es', w' := GrowPrompt(es', w', Advance(id));
    assert es + [check] + [Advance(id)] == es + [check, Advance(id)];
    assert w.requests[id := Request(CLIENT, p, Checked, 0, 0)][id := r] == w.requests[id := r];
  }

  /** INCR, and EXPIRE for the first of its window, on the store. */
  lemma CountOnStore(r: Request, s: Store, now: nat, count: nat)
    requires r.phase == Stamped && StandsAt(s, KeyOf(r), now, r.policy, count)
    ensures
      var (r1, s1) := Advanced(r, s, now);
      && r1 == r.(phase := if count == 0 then Incremented else Counted, count := count + 1)
      && SameBut(s, s1, KeyOf(r))
      && (count > 0 ==> StandsAt(s1, KeyOf(r), now, r.policy, count + 1))
      && (count == 0 ==>
            var (r2, s2) := Advanced(r1, s1, now);
            r2 == r1.(phase := Counted) && SameBut(s, s2, KeyOf(r)) && StandsAt(s2, KeyOf(r), now, r.policy, 1))
  {
    hide KeyOf;
    var (r1, s1) := Advanced(r, s, now);
    assert KeyOf(r1) == KeyOf(r) by { AdvancedShape(r, s, now); }
  }

  lemma CountIt(
    es: seq<Event>, w: World, id: nat, p: Policy, count: nat)
    returns (es': seq<Event>, w': World)
    requires TimelyRun(es, w) && id in w.requests && w.requests[id] == Request(CLIENT, p, Stamped, w.now, 0)
    requires StandsAt(w.store, CurrentKey(w.now, p), w.now, p, count)
    ensures TimelyRun(es', w') && w'.now == w.now && es <= es'
    ensures w'.requests == w.requests[id := Request(CLIENT, p, Counted, w.now, count + 1)]
    ensures SameBut(w.store, w'.store, CurrentKey(w.now, p))
    ensures StandsAt(w'.store, CurrentKey(w.now, p), w.now, p, count + 1)
  {
    hide TimelyRun, Advanced, StandsAt, SameBut;
    CountOnStore(w.requests[id], w.store, w.now, count);
    es', w' := GrowPrompt(es, w, Advance(id));
    if count == 0 {
      es', w' := GrowPrompt(es', w', Advance(id));
    }
    assert w'.requests == w.requests[id := Request(CLIENT, p, Counted, w.now, count + 1)];
  }

  function Served(p: Policy, at: nat, count: nat): Request {
    Request(CLIENT, p, if count <= p.maxRequests then Admitted else Rejected, at, count)
  }

  /** One request, from its check to its verdict, short of the abuse threshold. */
  lemma ServeOne(es: seq<Event>, w: World, id: nat, p: Policy, reply: int, count: nat)
    returns (es': seq<Event>, w': World)
    requires TimelyRun(es, w) && id !in w.requests && AllUnder(w, p)
    requires reply <= 0 && Truthful(reply, Remaining(w.store, CLIENT, w.now))
    requires StandsAt(w.store, CurrentKey(w.now, p), w.now, p, count)
    requires count < ABUSE_MULTIPLIER * p.maxRequests
    ensures TimelyRun(es', w') && w'.now == w.now && AllUnder(w', p)
    ensures es + [Check(id, CLIENT, p, reply)] <= es'
    ensures w'.requests == w.requests[id := Served(p, w.now, count + 1)]
    ensures SameBut(w.store, w'.store, CurrentKey(w.now, p))
    ensures StandsAt(w'.store, CurrentKey(w.now, p), w.now, p, count + 1)
  {
    hide TimelyRun, StandsAt, SameBut, Remaining, Truthful, CurrentKey, KeyOf;
    es', w' := Arrive(es, w, id, p, reply);
    assert es + [Check(id, CLIENT, p, reply)] <= es';
    es', w' := CountIt(es', w', id, p, count);
    es', w' := GrowPrompt(es', w', Advance(id));
    assert w'.requests == w.requests[id := Served(p, w.now, count + 1)];
  }

  /** Many requests in one instant. */
  lemma {:induction false} ServeMany(es: seq<Event>, w: World, first: nat, n: nat, p: Policy, count: nat)
    returns (es': seq<Event>, w': World)
    requires TimelyRun(es, w) && AllUnder(w, p) && forall id :: id in w.requests ==> id < first
    requires Remaining(w.store, CLIENT, w.now) == 0
    requires StandsAt(w.store, CurrentKey(w.now, p), w.now, p, count)
    requires count + n <= ABUSE_MULTIPLIER * p.maxRequests
    ensures TimelyRun(es', w') && w'.now == w.now && AllUnder(w', p)
    ensures forall id :: id in w'.requests <==> id in w.requests || first <= id < first + n
    ensures forall id :: id in w.requests ==> w'.requests[id] == w.requests[id]
    ensures forall id :: first <= id < first + n ==> w'.requests[id] == Served(p, w.now, count + 1 + id - first)
    ensures SameBut(w.store, w'.store, CurrentKey(w.now, p))
    ensures StandsAt(w'.store, CurrentKey(w.now, p), w.now, p, count + n)
    decreases n
  {
    hide TimelyRun, StandsAt, CurrentKey, Served;
    if n == 0 {
      es', w' := es, w;
    } else {
      var es1, w1 := ServeMany(es, w, first, n - 1, p, count);
      es', w' := ServeOne(es1, w1, first + n - 1, p, -2, count + n - 1);
    }
  }

  lemma {:induction false} CountUpTo(ids: set<nat>, n: nat)
    requires forall id: nat :: id in ids <==> id < n
    ensures |ids| == n
    decreases n
  {
    if n == 0 {
      assert ids == {};
    } else {
      CountUpTo(ids - {n - 1}, n - 1);
    }
  }

  lemma TimelyStart()
    ensures TimelyRun([], START)
  {
  }

  lemma TickTo(es: seq<Event>, w: World, now: nat) returns (es': seq<Event>, w': World)
    requires TimelyRun(es, w) && w.now <= now
    ensures TimelyRun(es', w') && w' == w.(now := now) && es <= es'
  {
    hide TimelyRun;
    es', w' := GrowPrompt(es, w, Tick(now - w.now));
  }

  // ---- The windows are fixed, not sliding -----------------------------------------------------------

  /** For every policy and every interval that does not start with a window, some timely run admits twice
      the limit in it: the limit at its start, and the limit again as soon as the next window begins. */
  lemma TwiceTheLimitHappens(p: Policy, from: nat) returns (es: seq<Event>)
    requires from != Begin(Bucket(from, WindowMs(p)), WindowMs(p))
    ensures Prompt(START, es) && Playable(START, es)
    ensures |AdmittedBetween(Play(START, es), CLIENT, p.windowSeconds, p.maxRequests, from)| == 2 * p.maxRequests
  {
    var width, b, limit := WindowMs(p), Bucket(from, WindowMs(p)), p.maxRequests;
    var next := Begin(b + 1, width);
    BucketIs(next, width, b + 1);
    var w;
    TimelyStart();
    es, w := TickTo([], START, from);
    es, w := ServeMany(es, w, 0, limit, p, 0);
    var half := w;
    assert SameBut(START.store, half.store, CurrentKey(from, p));
    es, w := TickTo(es, w, next);
    assert !Live(w.store, CurrentKey(next, p), next);
    es, w := ServeMany(es, w, limit, limit, p, 0);
    hide TimelyRun, StandsAt, SameBut, CurrentKey, Bucket;
    var all := AdmittedBetween(w, CLIENT, p.windowSeconds, limit, from);
    forall id: nat ensures id in all <==> id < 2 * limit {
      if id < limit {
        assert w.requests[id] == half.requests[id] == Served(p, from, id + 1);
      } else if id < 2 * limit {
        assert w.requests[id] == Served(p, next, 1 + id - limit);
      }
    }
    CountUpTo(all, 2 * limit);
    assert Prompt(START, es) && Playable(START, es) && Play(START, es) == w by { EndOfRun(es, w); }
  }

  lemma EndOfRun(es: seq<Event>, w: World)
    requires TimelyRun(es, w)
    ensures Prompt(START, es) && Playable(START, es) && Play(START, es) == w
  {
  }

  /** No more than the limit of a policy is admitted in an interval as long as its window. */
  ghost predicate WithinLimit(es: seq<Event>, client: string, p: Policy, from: nat) {
    Prompt(START, es) && Playable(START, es) ==>
      |AdmittedBetween(Play(START, es), client, p.windowSeconds, p.maxRequests, from)| <= p.maxRequests
  }

  /** Exactly for which intervals the limit holds in all timely runs: those that are a window (and trivially
      all of them, for a policy that admits nothing). */
  lemma LimitHoldsIff(p: Policy, from: nat)
    ensures (forall es, client :: WithinLimit(es, client, p, from))
       <==> p.maxRequests == 0 || from == Begin(Bucket(from, WindowMs(p)), WindowMs(p))
  {
    if from == Begin(Bucket(from, WindowMs(p)), WindowMs(p)) {
      forall es, client ensures WithinLimit(es, client, p, from) {
        if Prompt(START, es) { AtMostTheLimitOnTheGrid(es, client, p.windowSeconds, p.maxRequests, from); }
      }
    } else if p.maxRequests == 0 {
      forall es, client ensures WithinLimit(es, client, p, from) {
        if Prompt(START, es) { AtMostTwiceInAnyInterval(es, client, p.windowSeconds, 0, from); }
      }
    } else {
      var es := TwiceTheLimitHappens(p, from);
      assert !WithinLimit(es, CLIENT, p, from);
    }
  }

  // ---- How late is too late ---------------------------------------------------------------------------

  /** The rest of a request's way when its counter is not live. */
  lemma AloneToVerdict(es: seq<Event>, w: World, id: nat) returns (es': seq<Event>, w': World)
    requires Playable(START, es) && Play(START, es) == w
    requires id in w.requests && w.requests[id].phase == Stamped && w.requests[id].policy.maxRequests >= 1
    requires !Live(w.store, KeyOf(w.requests[id]), w.now)
    ensures Playable(START, es') && Play(START, es') == w' && w'.now == w.now
    ensures w'.requests == w.requests[id := w.requests[id].(phase := Admitted, count := 1)]
  {
    hide Playable, Play, Advanced, KeyOf, Live;
    var r := w.requests[id];
    assert StandsAt(w.store, KeyOf(r), w.now, r.policy, 0);
    CountOnStore(r, w.store, w.now, 0);
    es', w' := Grow(es, w, Advance(id));
    es', w' := Grow(es', w', Advance(id));
    assert w'.requests[id] == r.(phase := Counted, count := 1);
    VerdictOf(w'.requests[id], w'.store, w'.now);
    es', w' := Grow(es', w', Advance(id));
    assert w'.requests == w.requests[id := r.(phase := Admitted, count := 1)];
  }

  lemma VerdictOf(r: Request, s: Store, now: nat)
    requires r.phase == Counted
    ensures Advanced(r, s, now) == (r.(phase := Decided(r)), s)
  {
    hide KeyOf;
  }

  /** One second is the exact allowance: for every policy that admits anything and every longer delay between
      the clock reading and INCR there is a run, with that one delay, that admits one request too many in a
      window. */
  lemma LateIncrBreaksTheLimit(p: Policy, late: nat) returns (es: seq<Event>, id: nat)
    requires p.maxRequests >= 1 && late > 1000
    ensures Playable(START, es)
    ensures
      var w := Play(START, es);
      && |AdmittedIn(w, Key(CLIENT, 0), p.maxRequests)| == p.maxRequests + 1
      && id in w.requests && w.requests[id].at + late == w.now
  {
    var w, limit, end := START, p.maxRequests, WindowMs(p) - 1;
    id := limit;
    BucketIs(0, WindowMs(p), 0);
    BucketIs(end, WindowMs(p), 0);
    TimelyStart();
    es, w := ServeMany([], START, 0, limit, p, 0);
    var early := w;
    es, w := TickTo(es, w, end);
    assert early.store.penalties == map[] by { hide CurrentKey; }
    es, w := Arrive(es, w, id, p, -2);
    EndOfRun(es, w);
    es, w := Grow(es, w, Tick(late));
    assert KeyOf(w.requests[id]) == CurrentKey(0, p) == Key(CLIENT, 0);
    es, w := AloneToVerdict(es, w, id);
    hide TimelyRun, StandsAt, SameBut, CurrentKey, Bucket, Playable, Play;
    var admitted := AdmittedIn(w, Key(CLIENT, 0), limit);
    forall i: nat ensures i in admitted <==> i < limit + 1 {
      if i < limit { assert w.requests[i] == early.requests[i] == Served(p, 0, i + 1); }
    }
    CountUpTo(admitted, limit + 1);
  }

  // ---- Penalties -------------------------------------------------------------------------------------

  /** Being turned away is decided at the check, for good or for ever not. */
  lemma {:induction false} TurnedAwayStays(w: World, es: seq<Event>, id: nat)
    requires Playable(w, es) && id in w.requests
    ensures id in Play(w, es).requests
    ensures Play(w, es).requests[id].phase == TurnedAway <==> w.requests[id].phase == TurnedAway
    decreases |es|
  {
    if es != [] { TurnedAwayStays(Step(w, es[0]), es[1..], id); }
  }

  /** The client's penalty lasts at least until `until`. */
  predicate PenalisedUntil(w: World, client: string, until: nat) {
    && client in w.store.penalties && w.store.penalties[client] >= until
    && until <= w.now + ABUSE_PENALTY_SECONDS * 1000
  }

  lemma {:induction false} PenaltyStays(w: World, es: seq<Event>, client: string, until: nat)
    requires Playable(w, es) && PenalisedUntil(w, client, until)
    ensures PenalisedUntil(Play(w, es), client, until) && Play(w, es).now >= w.now
    decreases |es|
  {
    hide Advanced, Remaining, Truthful;
    if es != [] {
      if es[0].Advance? { PenaltiesStep(w.requests[es[0].id], w.store, w.now); }
      PenaltyStays(Step(w, es[0]), es[1..], client, until);
    }
  }

  /** Once a penalty is written, every request of the client that checks it before its last second is
      turned away for good, whatever runs before, between and after, and however TTL is rounded. */
  lemma PenaltyBlocks(w: World, id: nat, es: seq<Event>, e: Event, later: seq<Event>)
    requires id in w.requests && w.requests[id].phase == Abusing
    requires Playable(Step(w, Advance(id)), es)
    requires
      var w' := Play(Step(w, Advance(id)), es);
      && e.Check? && e.client == w.requests[id].client
      && w'.now <= w.now + (ABUSE_PENALTY_SECONDS - 1) * 1000
      && Enabled(w', e) && Playable(Step(w', e), later)
    ensures
      var end := Play(Step(Play(Step(w, Advance(id)), es), e), later);
      e.id in end.requests && end.requests[e.id].phase == TurnedAway
  {
    var w1 := Step(w, Advance(id));
    PenaltiesStep(w.requests[id], w.store, w.now);
    PenaltyStays(w1, es, e.client, w.now + ABUSE_PENALTY_SECONDS * 1000);
    TurnedAwayStays(Step(Play(w1, es), e), later, e.id);
  }

  /** In the last second the rounding decides: after any run a request stays turned away exactly when
      its TTL reply was positive, which with Redis's rounding means that half a second was left. */
  lemma LastSecond(w: World, e: Event, later: seq<Event>)
    requires e.Check? && Enabled(w, e) && Playable(Step(w, e), later)
    ensures
      var end, left := Play(Step(w, e), later), Remaining(w.store, e.client, w.now);
      && e.id in end.requests && (end.requests[e.id].phase == TurnedAway <==> e.reply > 0)
      && (e.reply > 0 ==> left > 0)
      && (e.reply == TtlReply(left) ==> (end.requests[e.id].phase == TurnedAway <==> left >= 500))
  {
    TurnedAwayStays(Step(w, e), later, e.id);
    TtlRounding(Remaining(w.store, e.client, w.now));
  }

  /** One request past the abuse threshold: refused, and its client penalised. */
  lemma AbuseOne(es: seq<Event>, w: World, id: nat, p: Policy) returns (es': seq<Event>, w': World)
    requires TimelyRun(es, w) && id !in w.requests && AllUnder(w, p) && Remaining(w.store, CLIENT, w.now) == 0
    requires StandsAt(w.store, CurrentKey(w.now, p), w.now, p, ABUSE_MULTIPLIER * p.maxRequests)
    ensures TimelyRun(es', w') && w'.now == w.now && AllUnder(w', p)
    ensures w'.requests.Keys == w.requests.Keys + {id}
    ensures w'.store.penalties == w.store.penalties[CLIENT := w.now + ABUSE_PENALTY_SECONDS * 1000]
    ensures forall k :: k != CurrentKey(w.now, p) ==> (k in w'.store.counters <==> k in w.store.counters)
  {
    hide TimelyRun, StandsAt, CurrentKey, KeyOf;
    es', w' := Arrive(es, w, id, p, -2);
    es', w' := CountIt(es', w', id, p, ABUSE_MULTIPLIER * p.maxRequests);
    es', w' := GrowPrompt(es', w', Advance(id));
    assert w'.requests[id].phase == Abusing;
    es', w' := GrowPrompt(es', w', Advance(id));
  }

  /** So a penalty does not last quite as long as its key: for every policy with a window shorter than the
      penalty that admits anything, and every remainder below half a second, there is a timely run in which a
      request of the penalised client reads the TTL, as Redis rounds it, and is admitted while the key lives. */
  lemma LivePenaltyMissed(p: Policy, left: nat) returns (es: seq<Event>, id: nat)
    requires p.maxRequests >= 1 && p.windowSeconds < ABUSE_PENALTY_SECONDS && 0 < left < 500
    ensures Prompt(START, es) && Playable(START, es) && Check(id, CLIENT, p, TtlReply(left)) in es
    ensures
      var w := Play(START, es);
      && Remaining(w.store, CLIENT, w.now) == left
      && id in w.requests && w.requests[id].phase == Admitted && w.requests[id].at == w.now
  {
    var w, many, later := START, ABUSE_MULTIPLIER * p.maxRequests, ABUSE_PENALTY_SECONDS * 1000 - left;
    id := many + 1;
    TimelyStart();
    BucketIs(0, WindowMs(p), 0);
    es, w := ServeMany([], START, 0, many, p, 0);
    assert SameBut(START.store, w.store, CurrentKey(0, p));
    es, w := AbuseOne(es, w, many, p);
    es, w := TickTo(es, w, later);
    LaterBucket(later, WindowMs(p));
    assert !Live(w.store, CurrentKey(later, p), later);
    es, w := LastServed(es, w, id, p, left);
  }

  lemma LaterBucket(at: nat, width: Positive)
    requires at >= width
    ensures Bucket(at, width) != 0
  {
    assert Begin(0, width) == 0;
  }

  lemma LastServed(
    es: seq<Event>, w: World, id: nat, p: Policy, left: nat)
    returns (es': seq<Event>, w': World)
    requires TimelyRun(es, w) && id !in w.requests && AllUnder(w, p) && p.maxRequests >= 1
    requires Remaining(w.store, CLIENT, w.now) == left && 0 < left < 500
    requires !Live(w.store, CurrentKey(w.now, p), w.now)
    ensures Prompt(START, es') && Playable(START, es') && Play(START, es') == w'
    ensures Check(id, CLIENT, p, TtlReply(left)) in es' && Remaining(w'.store, CLIENT, w'.now) == left
    ensures id in w'.requests && w'.requests[id].phase == Admitted && w'.requests[id].at == w'.now
  {
    hide TimelyRun, CurrentKey;
    var check := Check(id, CLIENT, p, TtlReply(left));
    TtlRounding(left);
    es', w' := ServeOne(es, w, id, p, TtlReply(left), 0);
    assert (es + [check])[|es|] == check && es'[|es|] == (es + [check])[|es|];
    EndOfRun(es', w');
  }
}
