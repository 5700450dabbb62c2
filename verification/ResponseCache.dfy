/** The gateway's response cache: a map in insertion order, bounded in size and in age. */
module ResponseCache {
  import opened Text

  const CACHE_TTL_MS := 30000
  const MAX_CACHE_SIZE := 200

  datatype Entry<V> = Entry(key: string, data: V, expires: int)

  /** Where a key is, or the length. */
  function Find<V>(es: seq<Entry<V>>, key: string): (i: nat)
    ensures i <= |es|
    ensures i < |es| ==> es[i].key == key
    ensures forall j :: 0 <= j < i ==> es[j].key != key
  {
    if es == [] || es[0].key == key then 0 else 1 + Find(es[1..], key)
  }

  predicate Distinct<V>(es: seq<Entry<V>>) {
    forall i, j :: 0 <= i < j < |es| ==> es[i].key != es[j].key
  }

  /** `Map.set`: an existing key keeps its place, a new one goes last. */
  function Put<V>(es: seq<Entry<V>>, e: Entry<V>): seq<Entry<V>> {
    var i := Find(es, e.key);
    if i < |es| then es[i := e] else es + [e]
  }

  function Drop<V>(es: seq<Entry<V>>, i: nat): seq<Entry<V>>
    requires i < |es|
  {
    es[..i] + es[i + 1..]
  }

  /** What a purge at `now` leaves. */
  function Unexpired<V>(es: seq<Entry<V>>, now: int): (r: seq<Entry<V>>)
    ensures |r| <= |es|
    ensures forall i :: 0 <= i < |r| ==> r[i] in es && r[i].expires >= now
  {
    if es == [] then []
    else if es[0].expires < now then Unexpired(es[1..], now)
    else [es[0]] + Unexpired(es[1..], now)
  }

  function Lookup<V>(es: seq<Entry<V>>, key: string, now: int): Option<V> {
    var i := Find(es, key);
    if i < |es| && es[i].expires > now then Some(es[i].data) else None
  }

  function AfterGet<V>(es: seq<Entry<V>>, key: string, now: int): seq<Entry<V>> {
    var i := Find(es, key);
    if i < |es| && es[i].expires <= now then Drop(es, i) else es
  }

  /** The newest entries, as many as fit. */
  function Newest<V>(es: seq<Entry<V>>): seq<Entry<V>> {
    if |es| > MAX_CACHE_SIZE then es[|es| - MAX_CACHE_SIZE..] else es
  }

  function AfterSet<V>(es: seq<Entry<V>>, key: string, data: V, now: int): seq<Entry<V>> {
    var put := Put(es, Entry(key, data, now + CACHE_TTL_MS));
    if |put| > MAX_CACHE_SIZE then Newest(Unexpired(put, now)) else put
  }

  lemma {:induction false} UnexpiredConcat<V>(a: seq<Entry<V>>, b: seq<Entry<V>>, now: int)
    ensures Unexpired(a + b, now) == Unexpired(a, now) + Unexpired(b, now)
    decreases |a|
  {
    if a == [] {
      assert a + b == b;
    } else {
      assert (a + b)[1..] == a[1..] + b;
      UnexpiredConcat(a[1..], b, now);
    }
  }

  lemma UnexpiredOne<V>(e: Entry<V>, now: int)
    ensures Unexpired([e], now) == if e.expires < now then [] else [e]
  {
  }

  lemma UnexpiredSplit<V>(es: seq<Entry<V>>, i: nat, now: int)
    requires i < |es|
    ensures
      Unexpired(es, now)
      == Unexpired(es[..i], now) + (if es[i].expires < now then [] else [es[i]]) + Unexpired(es[i + 1..], now)
  {
    hide Unexpired;
    var a, b := es[..i], es[i + 1..];
    assert es == a + [es[i]] + b;
    UnexpiredConcat(a + [es[i]], b, now);
    UnexpiredConcat(a, [es[i]], now);
    UnexpiredOne(es[i], now);
  }

  /** One turn of the purge: the entries before `seen` have been through, the rest have not. */
  lemma PurgeTurn<V>(all: seq<Entry<V>>, seen: nat, now: int)
    requires seen < |all|
    ensures
      var through, next := Unexpired(all[..seen], now), Unexpired(all[..seen + 1], now);
      var es := through + all[seen..];
      && es[|through|] == all[seen]
      && (if all[seen].expires < now then |next| == |through| && Drop(es, |through|) == next + all[seen + 1..]
          else |next| == |through| + 1 && es == next + all[seen + 1..])
  {
    hide Unexpired;
    var a := all[..seen];
    assert all[..seen + 1] == a + [all[seen]];
    UnexpiredConcat(a, [all[seen]], now);
    UnexpiredOne(all[seen], now);
    assert all[seen..] == [all[seen]] + all[seen + 1..];
  }

  class Cache<V> {
    var entries: seq<Entry<V>>

    constructor ()
      ensures entries == []
    {
      entries := [];
    }

    method GetCachedResponse(key: string, now: int) returns (data: Option<V>)
      modifies this
      ensures data == Lookup(old(entries), key, now)
      ensures entries == AfterGet(old(entries), key, now)
    {
      var i := Find(entries, key);
      if i < |entries| && entries[i].expires > now {
        return Some(entries[i].data);
      }
      if i < |entries| {
        entries := Drop(entries, i);
      }
      return None;
    }

    /** The periodic eviction, and the first half of the hard one. */
    method Purge(now: int)
      modifies this
      ensures entries == Unexpired(old(entries), now)
    {
      hide Unexpired;
      ghost var all, seen := entries, 0;
      assert Unexpired(all[..0], now) == [];
      var i := 0;
      while i < |entries|
        invariant seen <= |all| && i == |Unexpired(all[..seen], now)|
        invariant entries == Unexpired(all[..seen], now) + all[seen..]
        decreases |entries| - i
      {
        PurgeTurn(all, seen, now);
        if entries[i].expires < now {
          entries := Drop(entries, i);
        } else {
          i := i + 1;
        }
        seen := seen + 1;
      }
      assert all[..seen] == all;
    }

    method SetCachedResponse(key: string, data: V, now: int)
      modifies this
      ensures entries == AfterSet(old(entries), key, data, now)
    {
      hide Put, Unexpired;
      entries := Put(entries, Entry(key, data, now + CACHE_TTL_MS));
      if |entries| > MAX_CACHE_SIZE {
        Purge(now);
        if |entries| > MAX_CACHE_SIZE {
          var excess := |entries| - MAX_CACHE_SIZE;
          ghost var kept := entries;
          var removed := 0;
          while removed < excess
            invariant removed <= excess && entries == kept[removed..]
          {
            assert kept[removed..][1..] == kept[removed + 1..];
            entries := entries[1..];
            removed := removed + 1;
          }
        }
      }
    }
  }

  // ---- Any run of gets, sets and sweeps ---------------------------------------------------------

  datatype Op<V> =
    | Get(key: string, now: int)
    | Set(key: string, data: V, now: int)
    | Sweep(now: int)

  function Step<V>(es: seq<Entry<V>>, op: Op<V>): seq<Entry<V>> {
    match op
    case Get(key, now) => AfterGet(es, key, now)
    case Set(key, data, now) => AfterSet(es, key, data, now)
    case Sweep(now) => Unexpired(es, now)
  }

  function Run<V>(ops: seq<Op<V>>): seq<Entry<V>> {
    if ops == [] then [] else Step(Run(ops[..|ops| - 1]), ops[|ops| - 1])
  }

  // ---- Order: every operation but a put leaves a subsequence ----------------------------------------

  lemma {:induction false} UnexpiredDistinct<V>(es: seq<Entry<V>>, now: int)
    requires Distinct(es)
    ensures Distinct(Unexpired(es, now))
    decreases |es|
  {
    if es != [] {
      UnexpiredDistinct(es[1..], now);
      var r := Unexpired(es[1..], now);
      forall i | 0 <= i < |r| ensures r[i].key != es[0].key {
        assert r[i] in es[1..];
      }
    }
  }

  /** A put of a key that is new, or of one already there. */
  lemma PutFacts<V>(es: seq<Entry<V>>, e: Entry<V>)
    requires Distinct(es)
    ensures
      var i, put := Find(es, e.key), Put(es, e);
      && Distinct(put) && Find(put, e.key) == i < |put|
      && put == (if i < |es| then es[i := e] else es + [e])
  {
    FindIs(Put(es, e), Find(es, e.key));
  }

  lemma FindIs<V>(es: seq<Entry<V>>, i: nat)
    requires Distinct(es) && i < |es|
    ensures Find(es, es[i].key) == i
  {
    hide Find;
  }

  lemma StepBounded<V>(es: seq<Entry<V>>, op: Op<V>)
    requires Distinct(es) && |es| <= MAX_CACHE_SIZE
    ensures Distinct(Step(es, op)) && |Step(es, op)| <= MAX_CACHE_SIZE
  {
    hide Find, Unexpired, Put;
    match op
    case Get(_, _) =>
    case Sweep(now) => UnexpiredDistinct(es, now);
    case Set(key, data, now) =>
      PutFacts(es, Entry(key, data, now + CACHE_TTL_MS));
      UnexpiredDistinct(Put(es, Entry(key, data, now + CACHE_TTL_MS)), now);
  }

  /** After any run there are at most 200 entries, one per key. */
  lemma {:induction false} Bounded<V>(ops: seq<Op<V>>)
    ensures |Run(ops)| <= MAX_CACHE_SIZE && Distinct(Run(ops))
    decreases |ops|
  {
    hide Step;
    if ops != [] {
      Bounded(ops[..|ops| - 1]);
      StepBounded(Run(ops[..|ops| - 1]), ops[|ops| - 1]);
    }
  }

  // ---- The cache never answers wrongly ----------------------------------------------------------------

  datatype Stamped<V> = Stamped(data: V, at: int)

  /** The plain map: the last value set for a key, and when. */
  function LastSet<V>(ops: seq<Op<V>>, key: string): Option<Stamped<V>> {
    if ops == [] then None
    else
      var op := ops[|ops| - 1];
      if op.Set? && op.key == key then Some(Stamped(op.data, op.now)) else LastSet(ops[..|ops| - 1], key)
  }

  predicate Genuine<V(==)>(e: Entry<V>, ops: seq<Op<V>>) {
    var last := LastSet(ops, e.key);
    last.Some? && last.value.data == e.data && last.value.at + CACHE_TTL_MS == e.expires
  }

  /** An entry that was there before, or is the one just put. */
  predicate EntryFrom<V(==)>(e: Entry<V>, es: seq<Entry<V>>, op: Op<V>) {
    if op.Set? && e.key == op.key then e == Entry(op.key, op.data, op.now + CACHE_TTL_MS) else e in es
  }

  lemma StepFrom<V>(es: seq<Entry<V>>, op: Op<V>)
    requires Distinct(es)
    ensures forall i :: 0 <= i < |Step(es, op)| ==> EntryFrom(Step(es, op)[i], es, op)
  {
    hide Find, Unexpired, Put;
    var es' := Step(es, op);
    if op.Set? {
      var put := Put(es, Entry(op.key, op.data, op.now + CACHE_TTL_MS));
      PutFacts(es, Entry(op.key, op.data, op.now + CACHE_TTL_MS));
      forall i | 0 <= i < |es'| ensures EntryFrom(es'[i], es, op) {
        assert es'[i] in put;
        var j :| 0 <= j < |put| && put[j] == es'[i];
        FindIs(put, j);
      }
    }
  }

  lemma {:induction false} AllGenuine<V>(ops: seq<Op<V>>)
    ensures forall i :: 0 <= i < |Run(ops)| ==> Genuine(Run(ops)[i], ops)
    decreases |ops|
  {
    hide Step;
    if ops != [] {
      var front, op := ops[..|ops| - 1], ops[|ops| - 1];
      Bounded(front);
      StepFrom(Run(front), op);
      AllGenuine(front);
      forall i | 0 <= i < |Run(ops)| ensures Genuine(Run(ops)[i], ops) {
        assert EntryFrom(Run(ops)[i], Run(front), op);
      }
    }
  }

  /** An answer is the value last set for the key, less than 30 seconds before. */
  lemma AnswersAreLastSet<V>(ops: seq<Op<V>>, key: string, now: int)
    ensures
      var answer, last := Lookup(Run(ops), key, now), LastSet(ops, key);
      answer.Some? ==> last.Some? && answer.value == last.value.data && now < last.value.at + CACHE_TTL_MS
  {
    hide Find;
    AllGenuine(ops);
    var i := Find(Run(ops), key);
    if i < |Run(ops)| { assert Genuine(Run(ops)[i], ops); }
  }

  // ---- What it does not lose ------------------------------------------------------------------------------

  /** The key is there, good until `until` at least, and only `others` come after it. */
  predicate Held<V>(es: seq<Entry<V>>, key: string, until: int, others: set<string>) {
    var i := Find(es, key);
    && i < |es| && es[i].expires >= until
    && forall j :: i < j < |es| ==> es[j].key in others
  }

  lemma UnexpiredHeld<V>(es: seq<Entry<V>>, now: int, key: string, until: int, others: set<string>)
    requires Distinct(es) && Held(es, key, until, others) && now <= until
    ensures Held(Unexpired(es, now), key, until, others)
  {
    hide Find, Unexpired, Distinct;
    var i := Find(es, key);
    UnexpiredSplit(es, i, now);
    var a, b := Unexpired(es[..i], now), Unexpired(es[i + 1..], now);
    UnexpiredDistinct(es, now);
    HeldAt(a, es[i], b, until, others);
  }

  lemma HeldAt<V>(a: seq<Entry<V>>, e: Entry<V>, b: seq<Entry<V>>, until: int, others: set<string>)
    requires Distinct(a + [e] + b) && e.expires >= until
    requires forall j :: 0 <= j < |b| ==> b[j].key in others
    ensures Held(a + [e] + b, e.key, until, others)
  {
    hide Find;
    FindIs(a + [e] + b, |a|);
  }

  lemma {:induction false} KeyCount<V>(es: seq<Entry<V>>, keys: set<string>)
    requires Distinct(es) && forall i :: 0 <= i < |es| ==> es[i].key in keys
    ensures |es| <= |keys|
    decreases |es|
  {
    if es != [] { KeyCount(es[1..], keys - {es[0].key}); }
  }

  /** Dropping the oldest spares a key that fewer than 200 others come after. */
  lemma NewestHeld<V>(es: seq<Entry<V>>, key: string, until: int, others: set<string>)
    requires Distinct(es) && Held(es, key, until, others) && |others| < MAX_CACHE_SIZE
    ensures Held(Newest(es), key, until, others)
  {
    hide Find;
    var i := Find(es, key);
    KeyCount(es[i + 1..], others);
    if |es| > MAX_CACHE_SIZE {
      var n := |es| - MAX_CACHE_SIZE;
      var a, b := es[n..i], es[i + 1..];
      assert es[n..] == a + [es[i]] + b;
      HeldAt(a, es[i], b, until, others);
    }
  }

  function WithKey<V>(others: set<string>, op: Op<V>, key: string): set<string> {
    if op.Set? && op.key != key then others + {op.key} else others
  }

  /** Putting another key adds it to those that come after; putting the key itself renews it. */
  lemma PutHeld<V>(es: seq<Entry<V>>, e: Entry<V>, key: string, until: int, others: set<string>)
    requires Distinct(es) && Held(es, key, until, others)
    ensures e.key != key ==> Held(Put(es, e), key, until, others + {e.key})
    ensures e.key == key ==> Held(Put(es, e), key, e.expires, others)
  {
    hide Find, Put;
    PutFacts(es, e);
    FindIs(Put(es, e), Find(es, key));
  }

  lemma DropHeld<V>(es: seq<Entry<V>>, n: nat, key: string, until: int, others: set<string>)
    requires Distinct(es) && Held(es, key, until, others) && n < |es| && n != Find(es, key)
    ensures Held(Drop(es, n), key, until, others)
  {
    hide Find;
    var i, d := Find(es, key), Drop(es, n);
    FindIs(d, if n < i then i - 1 else i);
  }

  lemma GetHeld<V>(
    es: seq<Entry<V>>, k: string, now: int, key: string, until: int, others: set<string>)
    requires Distinct(es) && Held(es, key, until, others) && now < until
    ensures Held(AfterGet(es, k, now), key, until, others)
  {
    hide Find, Drop, Distinct;
    var n := Find(es, k);
    if n < |es| && es[n].expires <= now { DropHeld(es, n, key, until, others); }
  }

  /** How long a key is good for after an operation: setting it again restarts the time. */
  function Until<V>(until: int, op: Op<V>, key: string): int {
    if op.Set? && op.key == key then op.now + CACHE_TTL_MS else until
  }

  lemma SetHeld<V>(es: seq<Entry<V>>, op: Op<V>, key: string, until: int, others: set<string>)
    requires Distinct(es) && Held(es, key, until, others) && op.Set? && op.now < until
    requires |WithKey(others, op, key)| < MAX_CACHE_SIZE
    ensures Held(AfterSet(es, op.key, op.data, op.now), key, Until(until, op, key), WithKey(others, op, key))
  {
    hide Find, Unexpired, Put, Held, Distinct, Newest;
    var e := Entry(op.key, op.data, op.now + CACHE_TTL_MS);
    var put, until', rest := Put(es, e), Until(until, op, key), WithKey(others, op, key);
    PutFacts(es, e);
    PutHeld(es, e, key, until, others);
    UnexpiredHeld(put, op.now, key, until', rest);
    UnexpiredDistinct(put, op.now);
    NewestHeld(Unexpired(put, op.now), key, until', rest);
  }

  /** One operation while the key is good keeps it, and keeps count of the keys set after it. */
  lemma StepHeld<V>(es: seq<Entry<V>>, op: Op<V>, key: string, until: int, others: set<string>)
    requires Distinct(es) && Held(es, key, until, others) && op.now < until
    requires |WithKey(others, op, key)| < MAX_CACHE_SIZE
    ensures Held(Step(es, op), key, Until(until, op, key), WithKey(others, op, key))
  {
    hide Held, Distinct, AfterGet, AfterSet, Unexpired;
    match op
    case Get(k, now) => GetHeld(es, k, now, key, until, others);
    case Sweep(now) => UnexpiredHeld(es, now, key, until, others);
    case Set(_, _, _) => SetHeld(es, op, key, until, others);
  }

  lemma RunThen<V>(ops: seq<Op<V>>, op: Op<V>)
    ensures Run(ops + [op]) == Step(Run(ops), op)
    ensures forall key :: LastSet(ops + [op], key)
                       == if op.Set? && op.key == key then Some(Stamped(op.data, op.now)) else LastSet(ops, key)
  {
    assert (ops + [op])[..|ops|] == ops;
  }

  /** Putting a new key: it comes last. */
  lemma NewKeyHeld<V>(es: seq<Entry<V>>, key: string, data: V, now: int)
    requires Distinct(es) && Find(es, key) == |es|
    ensures Held(AfterSet(es, key, data, now), key, now + CACHE_TTL_MS, {})
  {
    hide Find, Unexpired, Newest;
    var e := Entry(key, data, now + CACHE_TTL_MS);
    PutFacts(es, e);
    assert Held(Put(es, e), key, e.expires, {});
    hide Held, Distinct, Put;
    UnexpiredHeld(Put(es, e), now, key, e.expires, {});
    UnexpiredDistinct(Put(es, e), now);
    NewestHeld(Unexpired(Put(es, e), now), key, e.expires, {});
  }

  /** A key just set is always there, with its new value. */
  lemma JustSetIsThere<V>(ops: seq<Op<V>>, key: string, data: V, now: int, later: int)
    requires later < now + CACHE_TTL_MS
    ensures Lookup(Run(ops + [Set(key, data, now)]), key, later) == Some(data)
  {
    hide Find, Held;
    var es := Run(ops);
    Bounded(ops);
    RunThen(ops, Set(key, data, now));
    if Find(es, key) == |es| {
      NewKeyHeld(es, key, data, now);
      HeldAnswers(ops + [Set(key, data, now)], key, now + CACHE_TTL_MS, {}, later);
    } else {
      PutFacts(es, Entry(key, data, now + CACHE_TTL_MS));
    }
  }

  lemma HeldAnswers<V>(ops: seq<Op<V>>, key: string, until: int, others: set<string>, now: int)
    requires Held(Run(ops), key, until, others) && now < until
    ensures LastSet(ops, key).Some? && Lookup(Run(ops), key, now) == Some(LastSet(ops, key).value.data)
  {
    AnswersAreLastSet(ops, key, now);
  }

  /** The keys other than `key` that were set. */
  function OtherKeys<V>(ops: seq<Op<V>>, key: string): set<string> {
    if ops == [] then {} else WithKey(OtherKeys(ops[..|ops| - 1], key), ops[|ops| - 1], key)
  }

  /** Until when the last value set for a key is good; zero if there is none. */
  function Deadline<V>(ops: seq<Op<V>>, key: string): int {
    match LastSet(ops, key)
    case Some(last) => last.at + CACHE_TTL_MS
    case None => 0
  }

  /** No operation comes later than the deadline the key has at that moment: it never goes 30 seconds
      without being set again. */
  predicate KeptAlive<V>(start: seq<Op<V>>, after: seq<Op<V>>, key: string) {
    forall n :: 0 <= n < |after| ==> after[n].now < Deadline(start + after[..n], key)
  }

  lemma KeptAliveFront<V>(start: seq<Op<V>>, after: seq<Op<V>>, key: string)
    requires after != [] && KeptAlive(start, after, key)
    ensures
      var front, op := after[..|after| - 1], after[|after| - 1];
      KeptAlive(start, front, key) && op.now < Deadline(start + front, key)
  {
    hide Deadline;
    var front := after[..|after| - 1];
    forall n | 0 <= n < |front| ensures front[n].now < Deadline(start + front[..n], key) {
      assert front[..n] == after[..n];
    }
  }

  lemma DeadlineThen<V>(ops: seq<Op<V>>, op: Op<V>, key: string)
    ensures Deadline(ops + [op], key) == Until(Deadline(ops, key), op, key)
  {
    RunThen(ops, op);
  }

  lemma {:induction false} HeldThroughout<V>(before: seq<Op<V>>, key: string, data: V, at: int, after: seq<Op<V>>)
    requires Find(Run(before), key) == |Run(before)|
    requires KeptAlive(before + [Set(key, data, at)], after, key) && |OtherKeys(after, key)| < MAX_CACHE_SIZE
    ensures
      var ops := before + [Set(key, data, at)] + after;
      Held(Run(ops), key, Deadline(ops, key), OtherKeys(after, key))
    decreases |after|
  {
    hide Held, Find, Step, Run, KeptAlive, Deadline, Until;
    var start := before + [Set(key, data, at)];
    if after == [] {
      assert start + after == start;
      Bounded(before);
      RunThen(before, Set(key, data, at));
      NewKeyHeld(Run(before), key, data, at);
      StepSet(Run(before), key, data, at);
      DeadlineAtSet(before, key, data, at);
    } else {
      var front, op := after[..|after| - 1], after[|after| - 1];
      KeptAliveFront(start, after, key);
      WithKeyGrows(OtherKeys(front, key), op, key);
      HeldThroughout(before, key, data, at, front);
      assert start + after == start + front + [op];
      RunThen(start + front, op);
      DeadlineThen(start + front, op, key);
      Bounded(start + front);
      StepHeld(Run(start + front), op, key, Deadline(start + front, key), OtherKeys(front, key));
    }
  }

  lemma DeadlineAtSet<V>(ops: seq<Op<V>>, key: string, data: V, at: int)
    ensures Deadline(ops + [Set(key, data, at)], key) == at + CACHE_TTL_MS
  {
    DeadlineThen(ops, Set(key, data, at), key);
  }

  lemma StepSet<V>(es: seq<Entry<V>>, key: string, data: V, now: int)
    ensures Step(es, Set(key, data, now)) == AfterSet(es, key, data, now)
  {
  }

  lemma WithKeyGrows<V>(others: set<string>, op: Op<V>, key: string)
    ensures |others| <= |WithKey(others, op, key)|
  {
    if op.Set? && op.key in others { assert others + {op.key} == others; }
  }

  /** A key that entered is answered with its last value, as long as that value is not 30 seconds old,
      until 200 other keys have been set since it entered: through every sequence of gets, sets and sweeps
      that keeps it alive, however often it was set again and however long ago it entered. */
  lemma AnsweredUntilTwoHundredOthers<V>(
    before: seq<Op<V>>, key: string, data: V, at: int, after: seq<Op<V>>, now: int)
    requires Find(Run(before), key) == |Run(before)|
    requires KeptAlive(before + [Set(key, data, at)], after, key) && |OtherKeys(after, key)| < MAX_CACHE_SIZE
    ensures
      var ops := before + [Set(key, data, at)] + after;
      && LastSet(ops, key).Some?
      && (now < LastSet(ops, key).value.at + CACHE_TTL_MS ==>
            Lookup(Run(ops), key, now) == Some(LastSet(ops, key).value.data))
  {
    hide Find, Held, Run;
    var ops := before + [Set(key, data, at)] + after;
    HeldThroughout(before, key, data, at, after);
    HeldAnswers(ops, key, Deadline(ops, key), OtherKeys(after, key), Deadline(ops, key) - 1);
    if now < Deadline(ops, key) {
      HeldAnswers(ops, key, Deadline(ops, key), OtherKeys(after, key), now);
    }
  }

  // ---- Only 200 other keys push a fresh key out -----------------------------------------------------------

  predicate Has<V>(es: seq<Entry<V>>, key: string) {
    Find(es, key) < |es|
  }

  /** The key is there, fresh or not, and only `others` come after it. */
  predicate At<V>(es: seq<Entry<V>>, key: string, others: set<string>) {
    var i := Find(es, key);
    i < |es| && forall j :: i < j < |es| ==> es[j].key in others
  }

  lemma AtIsHeld<V>(es: seq<Entry<V>>, key: string, until: int, others: set<string>)
    ensures At(es, key, others) ==> Held(es, key, es[Find(es, key)].expires, others)
    ensures Held(es, key, until, others) ==> At(es, key, others)
  {
    hide Find;
  }

  /** What a purge keeps stays in place. */
  lemma UnexpiredAt<V>(es: seq<Entry<V>>, now: int, key: string, others: set<string>)
    requires Distinct(es) && At(es, key, others) && Has(Unexpired(es, now), key)
    ensures At(Unexpired(es, now), key, others)
  {
    hide Find, Unexpired;
    var i, k := Find(es, key), Find(Unexpired(es, now), key);
    var e := Unexpired(es, now)[k];
    var j :| 0 <= j < |es| && es[j] == e;
    assert i == j;
    AtIsHeld(es, key, e.expires, others);
    UnexpiredHeld(es, now, key, e.expires, others);
    AtIsHeld(Unexpired(es, now), key, e.expires, others);
  }

  lemma NewestAt<V>(es: seq<Entry<V>>, key: string, others: set<string>)
    requires Distinct(es) && At(es, key, others) && Has(Newest(es), key)
    ensures At(Newest(es), key, others)
  {
    hide Find;
    var i := Find(es, key);
    if |es| > MAX_CACHE_SIZE {
      var n := |es| - MAX_CACHE_SIZE;
      assert es[n..][Find(es[n..], key)] == es[n + Find(es[n..], key)];
      assert i == n + Find(es[n..], key);
    }
  }

  lemma DropGone<V>(es: seq<Entry<V>>, n: nat)
    requires Distinct(es) && n < |es|
    ensures !Has(Drop(es, n), es[n].key)
  {
    hide Find;
    assert forall j :: 0 <= j < |Drop(es, n)| ==> Drop(es, n)[j] == es[if j < n then j else j + 1];
  }

  lemma GetAt<V>(es: seq<Entry<V>>, k: string, now: int, key: string, others: set<string>)
    requires Distinct(es) && At(es, key, others) && Has(AfterGet(es, k, now), key)
    ensures At(AfterGet(es, k, now), key, others)
  {
    hide Find;
    var n, i := Find(es, k), Find(es, key);
    if n < |es| && es[n].expires <= now {
      DropGone(es, n);
      AtIsHeld(es, key, es[i].expires, others);
      DropHeld(es, n, key, es[i].expires, others);
      AtIsHeld(Drop(es, n), key, es[i].expires, others);
    }
  }

  lemma PutAt<V>(es: seq<Entry<V>>, e: Entry<V>, key: string, others: set<string>)
    requires Distinct(es) && At(es, key, others)
    ensures At(Put(es, e), key, if e.key == key then others else others + {e.key})
  {
    hide Find, Put;
    PutFacts(es, e);
    FindIs(Put(es, e), Find(es, key));
  }

  lemma NewestHas<V>(es: seq<Entry<V>>, key: string)
    requires Has(Newest(es), key)
    ensures Has(es, key)
  {
    hide Find;
    var k := Find(Newest(es), key);
    assert Newest(es)[k] in es;
  }

  lemma SetAt<V>(es: seq<Entry<V>>, op: Op<V>, key: string, others: set<string>)
    requires Distinct(es) && At(es, key, others) && op.Set? && Has(AfterSet(es, op.key, op.data, op.now), key)
    ensures At(AfterSet(es, op.key, op.data, op.now), key, WithKey(others, op, key))
  {
    hide Unexpired, Put, Distinct, Newest, At, Has;
    var e := Entry(op.key, op.data, op.now + CACHE_TTL_MS);
    var put, rest := Put(es, e), WithKey(others, op, key);
    PutFacts(es, e);
    PutAt(es, e, key, others);
    if |put| > MAX_CACHE_SIZE {
      var kept := Unexpired(put, op.now);
      UnexpiredDistinct(put, op.now);
      NewestHas(kept, key);
      UnexpiredAt(put, op.now, key, rest);
      NewestAt(kept, key, rest);
    }
  }

  /** As long as the key is there, fresh or not, it keeps its place: nothing but keys set since comes after. */
  lemma StepAt<V>(es: seq<Entry<V>>, op: Op<V>, key: string, others: set<string>)
    requires Distinct(es) && At(es, key, others) && Has(Step(es, op), key)
    ensures At(Step(es, op), key, WithKey(others, op, key))
  {
    hide At, Has, Distinct, AfterGet, AfterSet, Unexpired;
    match op
    case Get(k, now) => GetAt(es, k, now, key, others);
    case Sweep(now) => UnexpiredAt(es, now, key, others);
    case Set(_, _, _) => SetAt(es, op, key, others);
  }

  predicate PresentThroughout<V>(start: seq<Op<V>>, after: seq<Op<V>>, key: string) {
    forall n :: 0 <= n <= |after| ==> Has(Run(start + after[..n]), key)
  }

  lemma PresentFront<V>(start: seq<Op<V>>, after: seq<Op<V>>, key: string)
    requires after != [] && PresentThroughout(start, after, key)
    ensures PresentThroughout(start, after[..|after| - 1], key) && Has(Run(start + after), key)
  {
    hide Run, Has;
    var front := after[..|after| - 1];
    assert after[..|after|] == after;
    forall n | 0 <= n <= |front| ensures Has(Run(start + front[..n]), key) {
      assert front[..n] == after[..n];
    }
  }

  lemma {:induction false} AtThroughout<V>(before: seq<Op<V>>, key: string, data: V, at: int, after: seq<Op<V>>)
    requires !Has(Run(before), key) && PresentThroughout(before + [Set(key, data, at)], after, key)
    ensures At(Run(before + [Set(key, data, at)] + after), key, OtherKeys(after, key))
    decreases |after|
  {
    hide At, Held, Find, Step, Run, PresentThroughout;
    var start := before + [Set(key, data, at)];
    if after == [] {
      assert start + after == start;
      Bounded(before);
      RunThen(before, Set(key, data, at));
      NewKeyHeld(Run(before), key, data, at);
      StepSet(Run(before), key, data, at);
      AtIsHeld(Run(start), key, at + CACHE_TTL_MS, {});
    } else {
      var front, op := after[..|after| - 1], after[|after| - 1];
      PresentFront(start, after, key);
      AtThroughout(before, key, data, at, front);
      assert start + after == start + front + [op];
      RunThen(start + front, op);
      Bounded(start + front);
      StepAt(Run(start + front), op, key, OtherKeys(front, key));
    }
  }

  /** Setting a key that is there again drops nothing. */
  lemma SetAgainKeeps<V>(es: seq<Entry<V>>, key: string, data: V, now: int)
    requires Distinct(es) && |es| <= MAX_CACHE_SIZE && Has(es, key)
    ensures Has(AfterSet(es, key, data, now), key)
  {
    hide Find, Put, Unexpired;
    PutFacts(es, Entry(key, data, now + CACHE_TTL_MS));
  }

  /** A fresh key leaves in one way only: a set of another key, with 200 other keys after it. */
  lemma FreshDrop<V>(es: seq<Entry<V>>, op: Op<V>, key: string, others: set<string>)
    requires Distinct(es) && |es| <= MAX_CACHE_SIZE && At(es, key, others)
    requires Lookup(es, key, op.now).Some? && !Has(Step(es, op), key)
    ensures op.Set? && op.key != key && |WithKey(others, op, key)| >= MAX_CACHE_SIZE
  {
    hide Find, Distinct, AfterGet, AfterSet, Unexpired;
    var until := es[Find(es, key)].expires;
    AtIsHeld(es, key, until, others);
    if op.Set? && op.key == key {
      SetAgainKeeps(es, key, op.data, op.now);
    } else if !op.Set? {
      match op
      case Get(k, now) => GetHeld(es, k, now, key, until, others);
      case Sweep(now) => UnexpiredHeld(es, now, key, until, others);
    } else if |WithKey(others, op, key)| < MAX_CACHE_SIZE {
      StepHeld(es, op, key, until, others);
    }
  }

  /** An unexpired key disappears only after 200 other keys have been set since it entered, and only when one of
      them is set: in every run, also when the entry lapsed in between and was set again in its old place. */
  lemma DroppedOnlyForTwoHundredOthers<V>(
    before: seq<Op<V>>, key: string, data: V, at: int, after: seq<Op<V>>, op: Op<V>)
    requires !Has(Run(before), key) && PresentThroughout(before + [Set(key, data, at)], after, key)
    requires
      var ops := before + [Set(key, data, at)] + after;
      Lookup(Run(ops), key, op.now).Some? && !Has(Run(ops + [op]), key)
    ensures op.Set? && op.key != key && |OtherKeys(after + [op], key)| >= MAX_CACHE_SIZE
  {
    hide At, Has, Step, Run, PresentThroughout, Lookup;
    var ops := before + [Set(key, data, at)] + after;
    AtThroughout(before, key, data, at, after);
    Bounded(ops);
    RunThen(ops, op);
    FreshDrop(Run(ops), op, key, OtherKeys(after, key));
    assert (after + [op])[..|after|] == after;
  }

  /** A get removes the entry it asks for if it has expired, and nothing else ever; a sweep removes what has
      expired, and nothing else. */
  lemma RemovedOnlyIfExpired<V>(es: seq<Entry<V>>, key: string, now: int, e: Entry<V>)
    requires Distinct(es)
    ensures e in AfterGet(es, key, now) <==> e in es && !(e.key == key && e.expires <= now)
    ensures e in Unexpired(es, now) <==> e in es && e.expires >= now
  {
    UnexpiredIsFresh(es, now);
    hide Find, Unexpired, Drop, Distinct;
    var i := Find(es, key);
    if i < |es| { DropMembers(es, i, e); }
    if e in es {
      var k :| 0 <= k < |es| && es[k] == e;
      if e.key == key { SameKeySameEntry(es, k, i); }
    }
    if e in Unexpired(es, now) {
      var k :| 0 <= k < |Unexpired(es, now)| && Unexpired(es, now)[k] == e;
    }
  }

  lemma SameKeySameEntry<V>(es: seq<Entry<V>>, k: nat, i: nat)
    requires Distinct(es) && k < |es| && i == Find(es, es[k].key)
    ensures k == i
  {
    hide Find;
  }

  lemma DropMembers<V>(es: seq<Entry<V>>, i: nat, e: Entry<V>)
    requires Distinct(es) && i < |es|
    ensures e in Drop(es, i) <==> e in es && e.key != es[i].key
  {
    var d := Drop(es, i);
    assert forall j :: 0 <= j < |d| ==> d[j] == es[if j < i then j else j + 1];
    if e in es && e.key != es[i].key {
      var k :| 0 <= k < |es| && es[k] == e;
      assert d[if k < i then k else k - 1] == e;
    }
  }

  /** The keys of the entries that have not expired. */
  function FreshKeys<V>(es: seq<Entry<V>>, now: int): set<string> {
    set i | 0 <= i < |es| && es[i].expires >= now :: es[i].key
  }

  lemma {:induction false} UnexpiredIsFresh<V>(es: seq<Entry<V>>, now: int)
    requires Distinct(es)
    ensures |Unexpired(es, now)| == |FreshKeys(es, now)|
    ensures forall i :: 0 <= i < |es| && es[i].expires >= now ==> es[i] in Unexpired(es, now)
    decreases |es|
  {
    if es != [] {
      var h, t := es[0], es[1..];
      assert es == [h] + t;
      UnexpiredIsFresh(t, now);
      FreshCons(h, t, now);
      NewFreshKey(h, t, now);
      hide FreshKeys, Distinct;
      forall i | 0 <= i < |es| && es[i].expires >= now ensures es[i] in Unexpired(es, now) {
        if i > 0 { assert es[i] == t[i - 1]; }
      }
    }
  }

  lemma NewFreshKey<V>(h: Entry<V>, t: seq<Entry<V>>, now: int)
    requires Distinct([h] + t)
    ensures h.key !in FreshKeys(t, now)
  {
    forall i | 0 <= i < |t| ensures t[i].key != h.key {
      assert ([h] + t)[0] == h && ([h] + t)[i + 1] == t[i];
    }
  }

  lemma FreshCons<V>(h: Entry<V>, t: seq<Entry<V>>, now: int)
    ensures FreshKeys([h] + t, now) == FreshKeys(t, now) + if h.expires >= now then {h.key} else {}
  {
    var es := [h] + t;
    forall key | key in FreshKeys(t, now) ensures key in FreshKeys(es, now) {
      var i :| 0 <= i < |t| && t[i].expires >= now && t[i].key == key;
      assert es[i + 1] == t[i];
    }
    assert es[0] == h;
  }

  /** A set at the cap purges before it drops: an entry that has not expired leaves only when more than 200
      entries, the new one included, have not. */
  lemma FreshStaysWhileTheyFit<V>(es: seq<Entry<V>>, key: string, data: V, now: int, i: nat)
    requires Distinct(es) && i < |es| && es[i].expires >= now && es[i].key != key
    ensures es[i] in AfterSet(es, key, data, now)
            || |FreshKeys(Put(es, Entry(key, data, now + CACHE_TTL_MS)), now)| > MAX_CACHE_SIZE
  {
    hide Find, Unexpired, Put, FreshKeys;
    var e := Entry(key, data, now + CACHE_TTL_MS);
    PutFacts(es, e);
    assert Put(es, e)[i] == es[i];
    UnexpiredIsFresh(Put(es, e), now);
  }

  /** And a set below the cap drops nothing at all. */
  lemma SetBelowTheCapKeepsAll<V>(es: seq<Entry<V>>, key: string, data: V, now: int, i: nat)
    requires Distinct(es) && |es| < MAX_CACHE_SIZE && i < |es| && es[i].key != key
    ensures es[i] in AfterSet(es, key, data, now)
  {
    hide Find, Unexpired, Put;
    var e := Entry(key, data, now + CACHE_TTL_MS);
    PutFacts(es, e);
    assert Put(es, e)[i] == es[i];
  }

  lemma {:induction false} NothingExpired<V>(es: seq<Entry<V>>, now: int)
    requires forall i :: 0 <= i < |es| ==> es[i].expires >= now
    ensures Unexpired(es, now) == es
    decreases |es|
  {
    if es != [] { NothingExpired(es[1..], now); }
  }

  /** A full cache with nothing expired drops exactly its oldest entry for a new key. */
  lemma FullCacheDropsTheOldest<V>(es: seq<Entry<V>>, key: string, data: V, now: int)
    requires |es| == MAX_CACHE_SIZE && Find(es, key) == |es|
    requires forall i :: 0 <= i < |es| ==> es[i].expires >= now
    ensures AfterSet(es, key, data, now) == es[1..] + [Entry(key, data, now + CACHE_TTL_MS)]
  {
    hide Find, Unexpired, Put;
    var e := Entry(key, data, now + CACHE_TTL_MS);
    PutNew(es, e);
    assert forall i :: 0 <= i < |es + [e]| ==> (es + [e])[i].expires >= now;
    NothingExpired(es + [e], now);
    assert (es + [e])[1..] == es[1..] + [e];
  }

  lemma PutNew<V>(es: seq<Entry<V>>, e: Entry<V>)
    requires Find(es, e.key) == |es|
    ensures Put(es, e) == es + [e]
  {
    hide Find;
  }

  /** Age counts from the entry, not from the last set: a key set again keeps its place, and if it is
      the oldest the next new key drops it, fresh as it is. */
  lemma SetAgainDoesNotRenew<V>(
    es: seq<Entry<V>>, data: V, now: int, next: string, data': V, later: int)
    requires Distinct(es) && |es| == MAX_CACHE_SIZE && Find(es, next) == |es|
    requires now <= later <= now + CACHE_TTL_MS
    requires forall i :: 0 <= i < |es| ==> es[i].expires >= later
    ensures
      var key := es[0].key;
      Lookup(AfterSet(AfterSet(es, key, data, now), next, data', later), key, later) == None
  {
    hide Find, Unexpired, Put;
    var key := es[0].key;
    var e, e' := Entry(key, data, now + CACHE_TTL_MS), Entry(next, data', later + CACHE_TTL_MS);
    FindIs(es, 0);
    PutFacts(es, e);
    var again := AfterSet(es, key, data, now);
    assert again == es[0 := e];
    FullCacheDropsTheOldest(again, next, data', later);
    assert forall i :: 0 <= i < |es[1..] + [e']| ==> (es[1..] + [e'])[i].key != key;
    assert again[1..] == es[1..];
  }
}
