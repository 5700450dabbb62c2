/** The scheduled-job reconciler: bring the repeatable jobs stored in Redis, whatever is in there,
    to what the registry and the admin overrides ask for. */
module Scheduler {
  import opened Text

  datatype QueueName = FeedSync | CveEnrichment | Maintenance | Neo4jSync | SandboxPoller | BrandMonitor

  /** The queues the orphan sweep visits; the Neo4j queue is not among them. */
  const MANAGED: seq<QueueName> := [FeedSync, Maintenance, CveEnrichment, SandboxPoller, BrandMonitor]

  datatype Registration = Registration(key: string, jobId: string, name: string, defaultCron: string, queue: QueueName)

  datatype Override = Override(enabled: bool, preset: Option<string>)

  datatype Repeatable = Repeatable(name: Option<string>, pattern: Option<string>)

  type Table = map<string, Repeatable>
  type Store = map<QueueName, Table>

  function TableOf(store: Store, q: QueueName): Table {
    if q in store then store[q] else map[]
  }

  // ---- Configuration -----------------------------------------------------------------

  function PresetToCron(preset: Option<string>): Option<string> {
    match preset
    case Some("15m") => Some("*/15 * * * *")
    case Some("30m") => Some("*/30 * * * *")
    case Some("1h") => Some("0 * * * *")
    case Some("4h") => Some("0 */4 * * *")
    case Some("6h") => Some("0 */6 * * *")
    case Some("daily") => Some("0 2 * * *")
    case Some("weekly") => Some("0 4 * * 0")
    case _ => None
  }

  /** The registry, the overrides, and how BullMQ names the repeatable of (name, jobId, pattern). */
  datatype Config = Config(
    registry: seq<Registration>, overrides: map<string, Override>, keyOf: (string, string, string) -> string)
  {
    /** The effective cron of a registration; None when an override disables it. */
    function Cron(reg: Registration): Option<string> {
      if reg.key in overrides then
        var o := overrides[reg.key];
        if !o.enabled then None
        else if PresetToCron(o.preset).Some? then PresetToCron(o.preset) else Some(reg.defaultCron)
      else Some(reg.defaultCron)
    }

    function KeyFor(reg: Registration, cron: string): string {
      keyOf(reg.name, reg.jobId, cron)
    }

    /** Registry names are distinct, and differently named entries get different keys. */
    ghost predicate Valid() {
      && (forall i, j :: 0 <= i < j < |registry| ==> registry[i].name != registry[j].name)
      && (forall i, j, c, d :: 0 <= i < j < |registry| ==> KeyFor(registry[i], c) != KeyFor(registry[j], d))
    }
  }

  // ---- What each operation does to the store ----------------------------------------

  function WithoutName(t: Table, name: string): Table {
    map k | k in t && t[k].name != Some(name) :: t[k]
  }

  function Reconciled(store: Store, cfg: Config, reg: Registration): Store {
    var t := WithoutName(TableOf(store, reg.queue), reg.name);
    var cron := cfg.Cron(reg);
    store[reg.queue :=
      if cron.None? then t else t[cfg.KeyFor(reg, cron.value) := Repeatable(Some(reg.name), cron)]]
  }

  function ReconciledUpTo(store: Store, cfg: Config, n: nat): Store
    requires n <= |cfg.registry|
  {
    if n == 0 then store else Reconciled(ReconciledUpTo(store, cfg, n - 1), cfg, cfg.registry[n - 1])
  }

  /** name -> effective pattern of the enabled entries among the first `n`. */
  function Desired(cfg: Config, n: nat): map<string, string>
    requires n <= |cfg.registry|
  {
    if n == 0 then map[]
    else
      var d, reg := Desired(cfg, n - 1), cfg.registry[n - 1];
      var cron := cfg.Cron(reg);
      if cron.None? then d else d[reg.name := cron.value]
  }

  /** The sweep skips nameless entries and entries with the desired pattern; an empty desired
      pattern reads as none at all. */
  predicate Kept(r: Repeatable, desired: map<string, string>) {
    || r.name.None? || r.name.value == ""
    || (r.name.value in desired && desired[r.name.value] != "" && r.pattern == Some(desired[r.name.value]))
  }

  function Swept(t: Table, desired: map<string, string>): Table {
    map k | k in t && Kept(t[k], desired) :: t[k]
  }

  /** A queue in the middle of its sweep, the keys in `todo` still to be looked at. */
  function PartSwept(t: Table, todo: set<string>, desired: map<string, string>): Table {
    map k | k in t && (k in todo || Kept(t[k], desired)) :: t[k]
  }

  lemma SweepOne(t: Table, todo: set<string>, k: string, desired: map<string, string>)
    requires k in todo && k in t
    ensures
      var before := PartSwept(t, todo, desired);
      PartSwept(t, todo - {k}, desired) == if Kept(t[k], desired) then before else before - {k}
  {
    hide Kept;
  }

  function SweptUpTo(store: Store, desired: map<string, string>, n: nat): Store
    requires n <= |MANAGED|
  {
    if n == 0 then store
    else
      var s := SweptUpTo(store, desired, n - 1);
      s[MANAGED[n - 1] := Swept(TableOf(s, MANAGED[n - 1]), desired)]
  }

  function SetUp(store: Store, cfg: Config): Store {
    SweptUpTo(ReconciledUpTo(store, cfg, |cfg.registry|), Desired(cfg, |cfg.registry|), |MANAGED|)
  }

  class Redis {
    const cfg: Config
    var store: Store

    constructor (cfg: Config, store: Store)
      ensures this.cfg == cfg && this.store == store
    {
      this.cfg, this.store := cfg, store;
    }

    method RemoveByKey(q: QueueName, k: string)
      modifies this`store
      ensures store == old(store)[q := TableOf(old(store), q) - {k}]
    {
      store := store[q := TableOf(store, q) - {k}];
    }

    method RemoveRepeatableFor(reg: Registration)
      modifies this`store
      ensures store == old(store)[reg.queue := WithoutName(TableOf(old(store), reg.queue), reg.name)]
    {
      var existing := TableOf(store, reg.queue);
      store := store[reg.queue := existing];
      var todo := existing.Keys;
      while todo != {}
        invariant todo <= existing.Keys
        invariant forall q :: q != reg.queue ==>
                    (q in store <==> q in old(store)) && (q in store ==> store[q] == old(store)[q])
        invariant reg.queue in store
        invariant forall k :: k in store[reg.queue] <==>
                    k in existing && (k in todo || existing[k].name != Some(reg.name))
        invariant forall k :: k in store[reg.queue] ==> store[reg.queue][k] == existing[k]
        decreases todo
      {
        var k :| k in todo;
        todo := todo - {k};
        if existing[k].name == Some(reg.name) { RemoveByKey(reg.queue, k); }
      }
      assert store[reg.queue] == WithoutName(existing, reg.name);
    }

    method ReconcileScheduledJob(reg: Registration) returns (cron: Option<string>)
      modifies this`store
      ensures store == Reconciled(old(store), cfg, reg) && cron == cfg.Cron(reg)
    {
      RemoveRepeatableFor(reg);
      cron := cfg.Cron(reg);
      if cron.None? { return; }
      var t := TableOf(store, reg.queue)[cfg.KeyFor(reg, cron.value) := Repeatable(Some(reg.name), cron)];
      store := store[reg.queue := t];
    }

    method CleanupUnregistered()
      modifies this`store
      ensures store == SweptUpTo(old(store), Desired(cfg, |cfg.registry|), |MANAGED|)
    {
      var desired: map<string, string> := map[];
      for n := 0 to |cfg.registry|
        invariant desired == Desired(cfg, n)
      {
        var cron := cfg.Cron(cfg.registry[n]);
        if cron.Some? { desired := desired[cfg.registry[n].name := cron.value]; }
      }
      for n := 0 to |MANAGED|
        invariant store == SweptUpTo(old(store), desired, n)
      {
        SweepQueue(MANAGED[n], desired);
      }
    }

    method SweepQueue(q: QueueName, desired: map<string, string>)
      modifies this`store
      ensures store == old(store)[q := Swept(TableOf(old(store), q), desired)]
    {
      var repeatables := TableOf(store, q);
      store := store[q := repeatables];
      var todo := repeatables.Keys;
      assert PartSwept(repeatables, todo, desired) == repeatables;
      while todo != {}
        invariant todo <= repeatables.Keys
        invariant store == old(store)[q := PartSwept(repeatables, todo, desired)]
        decreases todo
      {
        var k :| k in todo;
        SweepOne(repeatables, todo, k, desired);
        todo := todo - {k};
        var r := repeatables[k];
        if r.name.None? || r.name.value == "" { continue; }
        var name := r.name.value;
        if name in desired && desired[name] != "" && r.pattern == Some(desired[name]) { continue; }
        RemoveByKey(q, k);
      }
      assert PartSwept(repeatables, {}, desired) == Swept(repeatables, desired);
    }

    method SetupScheduledJobs()
      modifies this`store
      ensures store == SetUp(old(store), cfg)
    {
      for n := 0 to |cfg.registry|
        invariant store == ReconciledUpTo(old(store), cfg, n)
      {
        var _ := ReconcileScheduledJob(cfg.registry[n]);
      }
      CleanupUnregistered();
    }
  }

  // ---- The store after a set-up, entry by entry --------------------------------------

  /** Registration `i` is enabled, lives in queue `q`, and its repeatable has key `k`. */
  ghost predicate OwnsKey(cfg: Config, i: nat, q: QueueName, k: string) {
    i < |cfg.registry| && cfg.registry[i].queue == q && cfg.Cron(cfg.registry[i]).Some?
    && cfg.KeyFor(cfg.registry[i], cfg.Cron(cfg.registry[i]).value) == k
  }

  ghost predicate Owned(cfg: Config, n: nat, q: QueueName, k: string) {
    exists i: nat :: i < n && OwnsKey(cfg, i, q, k)
  }

  /** One of the first `n` registrations of queue `q` has this name. */
  ghost predicate Claimed(cfg: Config, n: nat, q: QueueName, name: Option<string>) {
    exists i: nat :: i < n && i < |cfg.registry| && cfg.registry[i].queue == q && Some(cfg.registry[i].name) == name
  }

  function EntryOf(cfg: Config, i: nat): Repeatable
    requires i < |cfg.registry|
  {
    Repeatable(Some(cfg.registry[i].name), cfg.Cron(cfg.registry[i]))
  }

  /** `t'` is what reconciling the first `n` registrations makes of `t` at key `k` of queue `q`. */
  ghost predicate EntryExact(t: Table, t': Table, cfg: Config, n: nat, q: QueueName, k: string) {
    && (forall i: nat :: i < n && OwnsKey(cfg, i, q, k) ==> k in t' && t'[k] == EntryOf(cfg, i))
    && (!Owned(cfg, n, q, k) ==>
          && (k in t' <==> k in t && !Claimed(cfg, n, q, t[k].name))
          && (k in t' ==> t'[k] == t[k]))
  }

  lemma {:induction false} ReconciledEntries(store: Store, cfg: Config, n: nat, q: QueueName, k: string)
    requires cfg.Valid() && n <= |cfg.registry|
    ensures EntryExact(TableOf(store, q), TableOf(ReconciledUpTo(store, cfg, n), q), cfg, n, q, k)
  {
    if n > 0 {
      ReconciledEntries(store, cfg, n - 1, q, k);
      var before := ReconciledUpTo(store, cfg, n - 1);
      hide EntryExact;
      NextReconciled(store, cfg, n);
      if cfg.registry[n - 1].queue != q {
        OtherQueue(store, before, cfg, n, q, k);
      } else if OwnsKey(cfg, n - 1, q, k) {
        OwnKey(store, before, cfg, n, q, k);
      } else {
        OtherKey(store, before, cfg, n, q, k);
      }
    }
  }

  lemma OtherQueue(store: Store, before: Store, cfg: Config, n: nat, q: QueueName, k: string)
    requires 0 < n <= |cfg.registry| && cfg.registry[n - 1].queue != q
    requires EntryExact(TableOf(store, q), TableOf(before, q), cfg, n - 1, q, k)
    ensures EntryExact(TableOf(store, q), TableOf(Reconciled(before, cfg, cfg.registry[n - 1]), q), cfg, n, q, k)
  {
    SameClaims(cfg, n, q, k);
    hide Claimed;
    hide Owned;
    assert TableOf(Reconciled(before, cfg, cfg.registry[n - 1]), q) == TableOf(before, q);
  }

  lemma OwnKey(store: Store, before: Store, cfg: Config, n: nat, q: QueueName, k: string)
    requires cfg.Valid() && 0 < n <= |cfg.registry| && OwnsKey(cfg, n - 1, q, k)
    ensures EntryExact(TableOf(store, q), TableOf(Reconciled(before, cfg, cfg.registry[n - 1]), q), cfg, n, q, k)
  {
    OnlyOwner(cfg, n - 1, q, k);
    hide WithoutName;
    var t' := TableOf(Reconciled(before, cfg, cfg.registry[n - 1]), q);
    assert k in t' && t'[k] == EntryOf(cfg, n - 1);
    assert Owned(cfg, n, q, k);
  }

  lemma OtherKey(store: Store, before: Store, cfg: Config, n: nat, q: QueueName, k: string)
    requires cfg.Valid() && 0 < n <= |cfg.registry| && cfg.registry[n - 1].queue == q && !OwnsKey(cfg, n - 1, q, k)
    requires EntryExact(TableOf(store, q), TableOf(before, q), cfg, n - 1, q, k)
    ensures EntryExact(TableOf(store, q), TableOf(Reconciled(before, cfg, cfg.registry[n - 1]), q), cfg, n, q, k)
  {
    ClaimedNext(cfg, n, q);
    OwnedNext(cfg, n, q, k);
    ReconcileElsewhere(before, cfg, n - 1, k);
    hide Claimed;
    hide Owned;
    hide Reconciled;
    forall i: nat | i < n && OwnsKey(cfg, i, q, k)
      ensures i < n - 1 && EntryOf(cfg, i).name != Some(cfg.registry[n - 1].name)
    {
      NamesDiffer(cfg, i, n - 1);
    }
  }

  lemma NamesDiffer(cfg: Config, i: nat, j: nat)
    requires cfg.Valid() && i < |cfg.registry| && j < |cfg.registry|
    ensures i != j ==> cfg.registry[i].name != cfg.registry[j].name
  {
    assert i < j || j < i || i == j;
  }

  lemma NextReconciled(store: Store, cfg: Config, n: nat)
    requires 0 < n <= |cfg.registry|
    ensures ReconciledUpTo(store, cfg, n) == Reconciled(ReconciledUpTo(store, cfg, n - 1), cfg, cfg.registry[n - 1])
  {
  }

  lemma OnlyOwner(cfg: Config, i: nat, q: QueueName, k: string)
    requires cfg.Valid() && OwnsKey(cfg, i, q, k)
    ensures forall j: nat :: OwnsKey(cfg, j, q, k) ==> j == i
  {
  }

  lemma ClaimedNext(cfg: Config, n: nat, q: QueueName)
    requires 0 < n <= |cfg.registry| && cfg.registry[n - 1].queue == q
    ensures forall name ::
              Claimed(cfg, n, q, name) <==> Claimed(cfg, n - 1, q, name) || name == Some(cfg.registry[n - 1].name)
  {
  }

  lemma OwnedNext(cfg: Config, n: nat, q: QueueName, k: string)
    requires 0 < n <= |cfg.registry| && !OwnsKey(cfg, n - 1, q, k)
    ensures Owned(cfg, n, q, k) <==> Owned(cfg, n - 1, q, k)
  {
  }

  lemma SameClaims(cfg: Config, n: nat, q: QueueName, k: string)
    requires 0 < n <= |cfg.registry| && cfg.registry[n - 1].queue != q
    ensures Owned(cfg, n, q, k) <==> Owned(cfg, n - 1, q, k)
    ensures forall name :: Claimed(cfg, n, q, name) <==> Claimed(cfg, n - 1, q, name)
  {
  }

  lemma ReconcileElsewhere(before: Store, cfg: Config, i: nat, k: string)
    requires i < |cfg.registry| && !OwnsKey(cfg, i, cfg.registry[i].queue, k)
    ensures
      var reg := cfg.registry[i];
      var t, t' := TableOf(before, reg.queue), TableOf(Reconciled(before, cfg, reg), reg.queue);
      && (k in t' <==> k in t && t[k].name != Some(cfg.registry[i].name))
      && (k in t' ==> t'[k] == t[k])
  {
  }

  lemma {:induction false} SweptEntries(store: Store, desired: map<string, string>, n: nat, q: QueueName)
    requires n <= |MANAGED|
    ensures TableOf(SweptUpTo(store, desired, n), q) ==
              if q in MANAGED[..n] then Swept(TableOf(store, q), desired) else TableOf(store, q)
  {
    if n > 0 {
      SweptEntries(store, desired, n - 1, q);
      ManagedPrefix(n, q);
    }
  }

  lemma ManagedPrefix(n: nat, q: QueueName)
    requires 0 < n <= |MANAGED|
    ensures q in MANAGED[..n] <==> q in MANAGED[..n - 1] || q == MANAGED[n - 1]
    ensures MANAGED[n - 1] !in MANAGED[..n - 1]
    ensures MANAGED[..|MANAGED|] == MANAGED
  {
    assert MANAGED[..n] == MANAGED[..n - 1] + [MANAGED[n - 1]];
    assert forall i, j :: 0 <= i < j < |MANAGED| ==> MANAGED[i] != MANAGED[j];
  }

  lemma {:induction false} DesiredExact(cfg: Config, n: nat, name: string)
    requires cfg.Valid() && n <= |cfg.registry|
    ensures forall i: nat :: i < n && cfg.registry[i].name == name && cfg.Cron(cfg.registry[i]).Some? ==>
              name in Desired(cfg, n) && Some(Desired(cfg, n)[name]) == cfg.Cron(cfg.registry[i])
    ensures name in Desired(cfg, n) ==>
              exists i: nat :: i < n && cfg.registry[i].name == name
                               && cfg.Cron(cfg.registry[i]) == Some(Desired(cfg, n)[name])
  {
    if n > 0 { DesiredExact(cfg, n - 1, name); }
  }

  // ---- Convergence ---------------------------------------------------------------------

  /** One entry of the final store, in terms of the registry and of what was there before. */
  lemma FinalEntry(store: Store, cfg: Config, q: QueueName, k: string)
    requires cfg.Valid()
    ensures
      var t, f := TableOf(store, q), TableOf(SetUp(store, cfg), q);
      var n, d := |cfg.registry|, Desired(cfg, |cfg.registry|);
      && (forall i: nat :: OwnsKey(cfg, i, q, k) ==>
            && (k in f <==> q !in MANAGED || Kept(EntryOf(cfg, i), d))
            && (k in f ==> f[k] == EntryOf(cfg, i)))
      && (!Owned(cfg, n, q, k) ==>
            && (k in f <==> k in t && !Claimed(cfg, n, q, t[k].name) && (q !in MANAGED || Kept(t[k], d)))
            && (k in f ==> f[k] == t[k]))
  {
    hide ReconciledUpTo;
    hide Kept;
    hide Claimed;
    ReconciledEntries(store, cfg, |cfg.registry|, q, k);
    SweptEntries(ReconciledUpTo(store, cfg, |cfg.registry|), Desired(cfg, |cfg.registry|), |MANAGED|, q);
    ManagedPrefix(|MANAGED|, q);
  }

  /** From any initial contents, an entry of the registry ends with no repeatable under its name in
      its own queue but the one it owns; if it is disabled, with none at all. */
  lemma NothingElseUnderTheName(store: Store, cfg: Config, i: nat, k: string)
    requires cfg.Valid() && i < |cfg.registry|
    ensures
      var reg := cfg.registry[i];
      var f := TableOf(SetUp(store, cfg), reg.queue);
      k in f && f[k].name == Some(reg.name) ==> OwnsKey(cfg, i, reg.queue, k) && f[k].pattern == cfg.Cron(reg)
  {
    var reg := cfg.registry[i];
    hide SetUp;
    hide Kept;
    hide Desired;
    FinalEntry(store, cfg, reg.queue, k);
    assert Claimed(cfg, |cfg.registry|, reg.queue, Some(reg.name));
    if Owned(cfg, |cfg.registry|, reg.queue, k) {
      var j: nat :| j < |cfg.registry| && OwnsKey(cfg, j, reg.queue, k);
      assert EntryOf(cfg, j).name == Some(cfg.registry[j].name);
      assert j < i || i < j || i == j;
    }
  }

  /** Presets are never empty: only an empty default in the registry can make an effective cron empty. */
  lemma EmptyCronNeedsEmptyDefault(cfg: Config, reg: Registration)
    ensures cfg.Cron(reg) == Some("") ==> reg.defaultCron == ""
  {
    if reg.key in cfg.overrides { PresetsAreNotEmpty(cfg.overrides[reg.key].preset); }
  }

  lemma PresetsAreNotEmpty(preset: Option<string>)
    ensures PresetToCron(preset) != Some("")
  {
  }

  /** An enabled entry is scheduled in its own queue, with its effective cron, except when that
      cron is empty and the sweep, which takes an empty pattern for none, visits the queue. */
  lemma EnabledIsScheduledIff(store: Store, cfg: Config, i: nat)
    requires cfg.Valid() && i < |cfg.registry| && cfg.Cron(cfg.registry[i]).Some?
    ensures
      var reg := cfg.registry[i];
      var f := TableOf(SetUp(store, cfg), reg.queue);
      var cron := cfg.Cron(reg).value;
      var k := cfg.KeyFor(reg, cron);
      (k in f && f[k] == Repeatable(Some(reg.name), Some(cron))) <==>
        cron != "" || reg.queue !in MANAGED || reg.name == ""
  {
    var reg := cfg.registry[i];
    var k := cfg.KeyFor(reg, cfg.Cron(reg).value);
    hide SetUp;
    hide Desired;
    assert OwnsKey(cfg, i, reg.queue, k);
    FinalEntry(store, cfg, reg.queue, k);
    DesiredExact(cfg, |cfg.registry|, reg.name);
  }

  /** Convergence. From any initial contents each enabled entry with a non-empty cron ends with
      exactly one repeatable under its name in its own queue, carrying the effective cron; each
      disabled entry ends with none. */
  lemma Convergence(store: Store, cfg: Config, i: nat)
    requires cfg.Valid() && i < |cfg.registry|
    ensures
      var reg := cfg.registry[i];
      var f := TableOf(SetUp(store, cfg), reg.queue);
      && (cfg.Cron(reg).Some? && cfg.Cron(reg) != Some("") ==>
            exists k :: k in f && f[k] == Repeatable(Some(reg.name), cfg.Cron(reg))
                        && forall k' :: k' in f && f[k'].name == Some(reg.name) ==> k' == k)
      && (cfg.Cron(reg).None? ==> forall k :: k in f ==> f[k].name != Some(reg.name))
  {
    var reg := cfg.registry[i];
    hide SetUp;
    var f := TableOf(SetUp(store, cfg), reg.queue);
    forall k | k in f && f[k].name == Some(reg.name) ensures OwnsKey(cfg, i, reg.queue, k) {
      NothingElseUnderTheName(store, cfg, i, k);
    }
    if cfg.Cron(reg).Some? {
      EnabledIsScheduledIff(store, cfg, i);
      var k := cfg.KeyFor(reg, cfg.Cron(reg).value);
    }
  }

  /** The pattern an entry should run with, said of its override: without one, or with an enabled one that names
      no preset, the default; with an enabled one that names a preset, the preset's; with a disabled one, none. */
  lemma CronByOverride(cfg: Config, reg: Registration)
    ensures reg.key !in cfg.overrides ==> cfg.Cron(reg) == Some(reg.defaultCron)
    ensures
      reg.key in cfg.overrides ==>
        var o := cfg.overrides[reg.key];
        && (cfg.Cron(reg) == None <==> !o.enabled)
        && (o.enabled && IsPreset(o.preset) ==> cfg.Cron(reg) == PresetToCron(o.preset))
        && (o.enabled && !IsPreset(o.preset) ==> cfg.Cron(reg) == Some(reg.defaultCron))
  {
  }

  const PRESETS: seq<string> := ["15m", "30m", "1h", "4h", "6h", "daily", "weekly"]

  predicate IsPreset(preset: Option<string>) {
    preset.Some? && preset.value in PRESETS
  }

  // What a pattern means: a field of a cron pattern is met by every number, by one number, or by the multiples of one.

  function Number(digits: string): nat {
    if digits == "" then 0
    else
      var d := digits[|digits| - 1];
      10 * Number(digits[..|digits| - 1]) + (if '0' <= d <= '9' then d as nat - '0' as nat else 0)
  }

  predicate Meets(n: nat, field: string) {
    if field == "*" then true
    else if "*/" <= field then Number(field[2..]) > 0 && n % Number(field[2..]) == 0
    else n == Number(field)
  }

  /** When a preset is meant to run, Sunday being day 0. */
  predicate MeantToRun(preset: string, minute: nat, hour: nat, weekday: nat) {
    match preset
    case "15m" => minute % 15 == 0
    case "30m" => minute % 30 == 0
    case "1h" => minute == 0
    case "4h" => minute == 0 && hour % 4 == 0
    case "6h" => minute == 0 && hour % 6 == 0
    case "daily" => minute == 0 && hour == 2
    case "weekly" => minute == 0 && hour == 4 && weekday == 0
    case _ => false
  }

  lemma SmallNumbers()
    ensures Number("0") == 0 && Number("2") == 2 && Number("4") == 4 && Number("6") == 6
    ensures Number("15") == 15 && Number("30") == 30
  {
    assert "15"[..1] == "1" && "30"[..1] == "3";
    assert Number("1") == 1 && Number("3") == 3;
  }

  lemma PresetTexts()
    ensures "*/15" + " " + "*" + " * * " + "*" == "*/15 * * * *"
    ensures "*/30" + " " + "*" + " * * " + "*" == "*/30 * * * *"
    ensures "0" + " " + "*" + " * * " + "*" == "0 * * * *"
    ensures "0" + " " + "*/4" + " * * " + "*" == "0 */4 * * *"
    ensures "0" + " " + "*/6" + " * * " + "*" == "0 */6 * * *"
    ensures "0" + " " + "2" + " * * " + "*" == "0 2 * * *"
    ensures "0" + " " + "4" + " * * " + "0" == "0 4 * * 0"
  {
  }

  /** The pattern of a preset, field by field, runs the job exactly when the preset means. */
  lemma PresetRuns(preset: string, minute: nat, hour: nat, weekday: nat) returns (m: string, h: string, d: string)
    requires preset in PRESETS
    ensures PresetToCron(Some(preset)) == Some(m + " " + h + " * * " + d)
    ensures Meets(minute, m) && Meets(hour, h) && Meets(weekday, d) <==> MeantToRun(preset, minute, hour, weekday)
  {
    SmallNumbers();
    PresetTexts();
    hide Number;
    m := if preset == "15m" then "*/15" else if preset == "30m" then "*/30" else "0";
    h := if preset == "4h" then "*/4" else if preset == "6h" then "*/6" else if preset == "daily" then "2"
         else if preset == "weekly" then "4" else "*";
    d := if preset == "weekly" then "0" else "*";
    assert "*/15"[2..] == "15" && "*/30"[2..] == "30" && "*/4"[2..] == "4" && "*/6"[2..] == "6";
  }

  /** Each preset has a pattern of its own, and nothing else has one. */
  lemma PresetsAreDistinct(a: Option<string>, b: Option<string>)
    ensures IsPreset(a) <==> PresetToCron(a).Some?
    ensures IsPreset(a) && PresetToCron(a) == PresetToCron(b) ==> a == b
  {
    var p, q := PresetToCron(a), PresetToCron(b);
    if p.Some? && q.Some? && p == q {
      assert |p.value| == |q.value| && forall i :: 0 <= i < |p.value| ==> p.value[i] == q.value[i];
    }
  }

  /** The pattern exactly one repeatable of the entry carries, from any initial contents. */
  ghost predicate RunsWith(t: Table, name: string, cron: string) {
    exists k :: k in t && t[k] == Repeatable(Some(name), Some(cron))
                && forall k' :: k' in t && t[k'].name == Some(name) ==> k' == k
  }

  /** Convergence, said of the override: an entry that is not overridden ends scheduled once with its default, one
      whose override is enabled with the override's preset or else its default, and one whose override is
      disabled not at all. */
  lemma ConvergenceByOverride(store: Store, cfg: Config, i: nat)
    requires cfg.Valid() && i < |cfg.registry| && cfg.registry[i].defaultCron != ""
    ensures
      var reg := cfg.registry[i];
      var t := TableOf(SetUp(store, cfg), reg.queue);
      && (reg.key !in cfg.overrides ==> RunsWith(t, reg.name, reg.defaultCron))
      && (reg.key in cfg.overrides ==>
            var o := cfg.overrides[reg.key];
            && (!o.enabled ==> forall k :: k in t ==> t[k].name != Some(reg.name))
            && (o.enabled && !IsPreset(o.preset) ==> RunsWith(t, reg.name, reg.defaultCron))
            && (o.enabled && IsPreset(o.preset) ==> RunsWith(t, reg.name, PresetToCron(o.preset).value)))
  {
    var reg := cfg.registry[i];
    Convergence(store, cfg, i);
    CronByOverride(cfg, reg);
    EmptyCronNeedsEmptyDefault(cfg, reg);
    hide SetUp;
    if reg.key in cfg.overrides { PresetsAreDistinct(cfg.overrides[reg.key].preset, None); }
  }

  /** Every named survivor in a managed queue carries an enabled name with its effective pattern. */
  lemma SurvivorsAreDesired(store: Store, cfg: Config, q: QueueName, k: string)
    requires cfg.Valid() && q in MANAGED && k in TableOf(SetUp(store, cfg), q)
    ensures
      var r := TableOf(SetUp(store, cfg), q)[k];
      r.name.Some? && r.name.value != "" ==>
        exists i: nat :: i < |cfg.registry| && r.name == Some(cfg.registry[i].name)
                         && cfg.Cron(cfg.registry[i]).Some? && r.pattern == cfg.Cron(cfg.registry[i])
  {
    hide SetUp;
    hide Desired;
    FinalEntry(store, cfg, q, k);
    var r, d := TableOf(SetUp(store, cfg), q)[k], Desired(cfg, |cfg.registry|);
    if Owned(cfg, |cfg.registry|, q, k) {
      var i: nat :| i < |cfg.registry| && OwnsKey(cfg, i, q, k);
      assert r == EntryOf(cfg, i);
    }
    assert Kept(r, d);
    if r.name.Some? && r.name.value != "" { DesiredExact(cfg, |cfg.registry|, r.name.value); }
  }

  lemma SecondRunEntry(store: Store, cfg: Config, q: QueueName, k: string)
    requires cfg.Valid()
    ensures
      var once := SetUp(store, cfg);
      var f, f' := TableOf(once, q), TableOf(SetUp(once, cfg), q);
      (k in f' <==> k in f) && (k in f ==> f'[k] == f[k])
  {
    hide SetUp;
    hide Kept;
    hide Desired;
    hide OwnsKey;
    hide Claimed;
    FinalEntry(store, cfg, q, k);
    FinalEntry(SetUp(store, cfg), cfg, q, k);
    if Owned(cfg, |cfg.registry|, q, k) {
      var i: nat :| i < |cfg.registry| && OwnsKey(cfg, i, q, k);
    }
  }

  /** A second run changes no queue's schedule. */
  lemma SecondRunChangesNothing(store: Store, cfg: Config, q: QueueName)
    requires cfg.Valid()
    ensures TableOf(SetUp(SetUp(store, cfg), cfg), q) == TableOf(SetUp(store, cfg), q)
  {
    hide SetUp;
    var f, f' := TableOf(SetUp(store, cfg), q), TableOf(SetUp(SetUp(store, cfg), cfg), q);
    forall k ensures (k in f' <==> k in f) && (k in f ==> f'[k] == f[k]) { SecondRunEntry(store, cfg, q, k); }
  }

  /** The one duplicate the sweep cannot see: a job stays scheduled a second time, in another managed
      queue, exactly when that queue already had a repeatable with its name and current pattern under
      a key no entry of that queue overwrites. */
  lemma StrayDuplicateIff(store: Store, cfg: Config, i: nat, q: QueueName)
    requires cfg.Valid() && i < |cfg.registry| && q in MANAGED && q != cfg.registry[i].queue
    requires cfg.registry[i].name != "" && cfg.Cron(cfg.registry[i]).Some? && cfg.Cron(cfg.registry[i]) != Some("")
    ensures
      var reg, t, f := cfg.registry[i], TableOf(store, q), TableOf(SetUp(store, cfg), q);
      (exists k :: k in f && f[k].name == Some(reg.name)) <==>
        exists k :: k in t && t[k] == Repeatable(Some(reg.name), cfg.Cron(reg)) && !Owned(cfg, |cfg.registry|, q, k)
  {
    var reg, t, f := cfg.registry[i], TableOf(store, q), TableOf(SetUp(store, cfg), q);
    hide SetUp;
    if k :| k in f && f[k].name == Some(reg.name) {
      StrayEntry(store, cfg, i, q, k);
      assert k in t && t[k] == Repeatable(Some(reg.name), cfg.Cron(reg));
    }
    if k :| k in t && t[k] == Repeatable(Some(reg.name), cfg.Cron(reg)) && !Owned(cfg, |cfg.registry|, q, k) {
      StrayEntry(store, cfg, i, q, k);
      assert k in f;
    }
  }

  lemma StrayEntry(store: Store, cfg: Config, i: nat, q: QueueName, k: string)
    requires cfg.Valid() && i < |cfg.registry| && q in MANAGED && q != cfg.registry[i].queue
    requires cfg.registry[i].name != "" && cfg.Cron(cfg.registry[i]).Some? && cfg.Cron(cfg.registry[i]) != Some("")
    ensures
      var reg, t, f := cfg.registry[i], TableOf(store, q), TableOf(SetUp(store, cfg), q);
      (k in f && f[k].name == Some(reg.name)) <==>
        k in t && t[k] == Repeatable(Some(reg.name), cfg.Cron(reg)) && !Owned(cfg, |cfg.registry|, q, k)
  {
    var reg := cfg.registry[i];
    hide SetUp;
    hide Desired;
    FinalEntry(store, cfg, q, k);
    DesiredExact(cfg, |cfg.registry|, reg.name);
    if Owned(cfg, |cfg.registry|, q, k) {
      var j: nat :| j < |cfg.registry| && OwnsKey(cfg, j, q, k);
      assert EntryOf(cfg, j).name == Some(cfg.registry[j].name);
      assert j < i || i < j;
    } else {
      NotClaimedElsewhere(cfg, i, q);
    }
  }

  lemma NotClaimedElsewhere(cfg: Config, i: nat, q: QueueName)
    requires cfg.Valid() && i < |cfg.registry| && q != cfg.registry[i].queue
    ensures !Claimed(cfg, |cfg.registry|, q, Some(cfg.registry[i].name))
  {
    forall j: nat | j < |cfg.registry| && cfg.registry[j].queue == q
      ensures cfg.registry[j].name != cfg.registry[i].name
    {
      assert j < i || i < j;
    }
  }
}
