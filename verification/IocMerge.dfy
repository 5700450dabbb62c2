/** IOC deduplication: tag cleaning, the field-by-field merge, the upsert by normalised value and
    the batch loop. Normalisation is a given function of type and value. */
module IocMerge {
  import opened Text

  datatype Input = Input(
    kind: string, value: string, source: string, threatType: Option<string>, confidence: Option<int>,
    severity: Option<string>, firstSeen: Option<int>, lastSeen: Option<int>, tags: Option<seq<string>>)

  /** A stored row; `sources` is the list inside its raw data, when it has one. */
  datatype Row = Row(
    id: nat, kind: string, value: string, source: string, threatType: Option<string>, confidence: Option<int>,
    severity: Option<string>, firstSeen: Option<int>, lastSeen: Option<int>, tags: Option<seq<string>>,
    sources: Option<seq<string>>)

  // ---- Field merges ----------------------------------------------------------------

  predicate Truthy(s: Option<string>) {
    s.Some? && s.value != ""
  }

  function MergedConfidence(e: Option<int>, i: Option<int>): Option<int> {
    if i.Some? && (e.None? || e.value == 0 || i.value > e.value) then i else e
  }

  const SEVERITIES: seq<string> := ["low", "medium", "high", "critical"]

  function Rank(s: Option<string>): int {
    match s
    case Some("low") => 0
    case Some("medium") => 1
    case Some("high") => 2
    case Some("critical") => 3
    case _ => -1
  }

  function MergedSeverity(e: Option<string>, i: Option<string>): Option<string> {
    if Truthy(i) && Rank(i) > Rank(e) then i else e
  }

  function MergedThreat(e: Option<string>, i: Option<string>): Option<string> {
    if Truthy(i) && !Truthy(e) then i else e
  }

  function Earlier(e: Option<int>, i: Option<int>): Option<int> {
    if i.Some? && (e.None? || i.value < e.value) then i else e
  }

  function Later(e: Option<int>, i: Option<int>): Option<int> {
    if i.Some? && (e.None? || i.value > e.value) then i else e
  }

  /** First occurrences, in order: what spreading a JavaScript Set yields. */
  function Unique(s: seq<string>): (r: seq<string>)
    ensures forall x :: x in r <==> x in s
    ensures |r| <= |s|
  {
    if s == [] then []
    else
      assert s == s[..|s| - 1] + [s[|s| - 1]];
      var r := Unique(s[..|s| - 1]);
      if s[|s| - 1] in r then r else r + [s[|s| - 1]]
  }

  function TagList(t: Option<seq<string>>): seq<string> {
    if t.Some? then t.value else []
  }

  function MergedTags(e: Option<seq<string>>, i: Option<seq<string>>): Option<seq<string>> {
    if TagList(i) == [] then e
    else
      var union := Unique(TagList(e) + TagList(i));
      if |union| > |TagList(e)| then Some(union) else e
  }

  function Merged(row: Row, i: Input): Row {
    row.(confidence := MergedConfidence(row.confidence, i.confidence),
         severity := MergedSeverity(row.severity, i.severity),
         threatType := MergedThreat(row.threatType, i.threatType),
         firstSeen := Earlier(row.firstSeen, i.firstSeen),
         lastSeen := Later(row.lastSeen, i.lastSeen),
         tags := MergedTags(row.tags, i.tags))
  }

  /** The partial update the merge builds: a field is present only when it changes. */
  datatype Patch = Patch(
    confidence: Option<int>, severity: Option<string>, threatType: Option<string>,
    firstSeen: Option<int>, lastSeen: Option<int>, tags: Option<seq<string>>)

  function Chosen<T>(patch: Option<T>, stored: Option<T>): Option<T> {
    if patch.Some? then patch else stored
  }

  function Patched(row: Row, p: Patch): Row {
    row.(confidence := Chosen(p.confidence, row.confidence),
         severity := Chosen(p.severity, row.severity),
         threatType := Chosen(p.threatType, row.threatType),
         firstSeen := Chosen(p.firstSeen, row.firstSeen),
         lastSeen := Chosen(p.lastSeen, row.lastSeen),
         tags := Chosen(p.tags, row.tags))
  }

  method MergeIocData(existing: Row, incoming: Input) returns (merged: Patch)
    ensures Chosen(merged.confidence, existing.confidence) == MergedConfidence(existing.confidence, incoming.confidence)
    ensures Chosen(merged.severity, existing.severity) == MergedSeverity(existing.severity, incoming.severity)
    ensures Chosen(merged.threatType, existing.threatType) == MergedThreat(existing.threatType, incoming.threatType)
    ensures Chosen(merged.firstSeen, existing.firstSeen) == Earlier(existing.firstSeen, incoming.firstSeen)
    ensures Chosen(merged.lastSeen, existing.lastSeen) == Later(existing.lastSeen, incoming.lastSeen)
    ensures Chosen(merged.tags, existing.tags) == MergedTags(existing.tags, incoming.tags)
  {
    hide *;
    var confidence: Option<int>, firstSeen: Option<int>, lastSeen: Option<int> := None, None, None;
    var severity: Option<string>, threatType: Option<string> := None, None;
    var tags: Option<seq<string>> := None;
    ConfidencePatch(existing.confidence, incoming.confidence);
    SeverityPatch(existing.severity, incoming.severity);
    ThreatPatch(existing.threatType, incoming.threatType);
    SeenPatch(existing.firstSeen, incoming.firstSeen);
    SeenPatch(existing.lastSeen, incoming.lastSeen);
    TagsPatch(existing.tags, incoming.tags);
    if incoming.confidence.Some?
       && (existing.confidence.None? || existing.confidence.value == 0
           || incoming.confidence.value > existing.confidence.value) {
      confidence := incoming.confidence;
    }
    if Truthy(incoming.severity) && Rank(incoming.severity) > Rank(existing.severity) {
      severity := incoming.severity;
    }
    if Truthy(incoming.threatType) && !Truthy(existing.threatType) {
      threatType := incoming.threatType;
    }
    if incoming.firstSeen.Some? && (existing.firstSeen.None? || incoming.firstSeen.value < existing.firstSeen.value) {
      firstSeen := incoming.firstSeen;
    }
    if incoming.lastSeen.Some? && (existing.lastSeen.None? || incoming.lastSeen.value > existing.lastSeen.value) {
      lastSeen := incoming.lastSeen;
    }
    if incoming.tags.Some? && |incoming.tags.value| > 0 {
      var existingTags := TagList(existing.tags);
      var newTags := Unique(existingTags + incoming.tags.value);
      if |newTags| > |existingTags| { tags := Some(newTags); }
    }
    merged := Patch(confidence, severity, threatType, firstSeen, lastSeen, tags);
  }

  // What each assignment of the merge, made or left out, does to its field.

  lemma ConfidencePatch(e: Option<int>, i: Option<int>)
    ensures
      if i.Some? && (e.None? || e.value == 0 || i.value > e.value) then Chosen(i, e) == MergedConfidence(e, i)
      else Chosen(None, e) == MergedConfidence(e, i)
  {
  }

  lemma SeverityPatch(e: Option<string>, i: Option<string>)
    ensures
      if Truthy(i) && Rank(i) > Rank(e) then Chosen(i, e) == MergedSeverity(e, i)
      else Chosen(None, e) == MergedSeverity(e, i)
  {
    hide Rank;
  }

  lemma ThreatPatch(e: Option<string>, i: Option<string>)
    ensures
      if Truthy(i) && !Truthy(e) then Chosen(i, e) == MergedThreat(e, i) else Chosen(None, e) == MergedThreat(e, i)
  {
  }

  lemma SeenPatch(e: Option<int>, i: Option<int>)
    ensures if i.Some? && (e.None? || i.value < e.value) then Chosen(i, e) == Earlier(e, i)
            else Chosen(None, e) == Earlier(e, i)
    ensures if i.Some? && (e.None? || i.value > e.value) then Chosen(i, e) == Later(e, i)
            else Chosen(None, e) == Later(e, i)
  {
  }

  lemma TagsPatch(e: Option<seq<string>>, i: Option<seq<string>>)
    ensures
      if i.Some? && |i.value| > 0 && |Unique(TagList(e) + i.value)| > |TagList(e)| then
        Chosen(Some(Unique(TagList(e) + i.value)), e) == MergedTags(e, i)
      else
        Chosen(None, e) == MergedTags(e, i)
  {
    hide Unique;
  }

  // ---- When a field merge is a join ----------------------------------------------------

  predicate IsMax(m: Option<int>, a: Option<int>, b: Option<int>) {
    && (m == a || m == b)
    && (a.Some? ==> m.Some? && m.value >= a.value)
    && (b.Some? ==> m.Some? && m.value >= b.value)
  }

  /** Confidence takes the maximum, except that a stored zero gives way to a negative value. */
  lemma ConfidenceIsMaxIff(e: Option<int>, i: Option<int>)
    ensures IsMax(MergedConfidence(e, i), e, i) <==> !(e == Some(0) && i.Some? && i.value < 0)
  {
  }

  /** `a` is a severity of the list, and `b` is none from there on: less severe, unknown or missing. */
  predicate MoreSevere(a: Option<string>, b: Option<string>) {
    exists k :: 0 <= k < |SEVERITIES| && a == Some(SEVERITIES[k])
      && forall m :: k <= m < |SEVERITIES| ==> b != Some(SEVERITIES[m])
  }

  /** The rank is the position in the list, and below all positions for everything else. */
  lemma RankIsPosition(s: Option<string>)
    ensures forall k :: 0 <= k < |SEVERITIES| ==> (Rank(s) == k <==> s == Some(SEVERITIES[k]))
    ensures -1 <= Rank(s) < |SEVERITIES|
  {
  }

  lemma MoreSevereIsRank(a: Option<string>, b: Option<string>)
    ensures MoreSevere(a, b) <==> Rank(a) > Rank(b)
  {
    RankIsPosition(a);
    RankIsPosition(b);
    hide Rank;
    if Rank(a) > Rank(b) {
      var k := Rank(a);
      assert a == Some(SEVERITIES[k]) && forall m :: k <= m < |SEVERITIES| ==> b != Some(SEVERITIES[m]);
    } else if Rank(b) >= 0 {
      assert b == Some(SEVERITIES[Rank(b)]);
    }
  }

  /** The incoming severity replaces the stored one exactly when it is more severe. */
  lemma SeverityIsMax(e: Option<string>, i: Option<string>)
    ensures MergedSeverity(e, i) == if MoreSevere(i, e) then i else e
  {
    MoreSevereIsRank(i, e);
    RankIsPosition(i);
    hide Rank;
  }

  predicate IsMin(m: Option<int>, a: Option<int>, b: Option<int>) {
    && (m == a || m == b)
    && (a.Some? ==> m.Some? && m.value <= a.value)
    && (b.Some? ==> m.Some? && m.value <= b.value)
  }

  /** The earliest first sighting, the latest last sighting, and a threat type that is only filled in. */
  lemma OtherFieldsMerge(row: Row, i: Input)
    ensures
      var m := Merged(row, i);
      && IsMin(m.firstSeen, row.firstSeen, i.firstSeen) && IsMax(m.lastSeen, row.lastSeen, i.lastSeen)
      && (row.threatType.Some? && row.threatType.value != "" ==> m.threatType == row.threatType)
      && (row.threatType.None? || row.threatType.value == "" ==>
            m.threatType == if i.threatType.Some? && i.threatType.value != "" then i.threatType else row.threatType)
  {
    hide MergedTags, MergedSeverity;
  }

  ghost function TagSet(t: Option<seq<string>>): set<string> {
    set x | x in TagList(t)
  }

  ghost predicate NoDuplicates(s: seq<string>) {
    forall i, j :: 0 <= i < j < |s| ==> s[i] != s[j]
  }

  ghost function Elements(s: seq<string>): set<string> {
    set x | x in s
  }

  lemma {:induction false} UniqueCount(s: seq<string>)
    ensures NoDuplicates(Unique(s)) && |Unique(s)| == |Elements(s)|
  {
    if s != [] {
      var front, x := s[..|s| - 1], s[|s| - 1];
      assert s == front + [x];
      UniqueCount(front);
      assert Elements(s) == Elements(front) + {x};
      if x in Unique(front) {
        assert x in front;
        assert Elements(s) == Elements(front);
      } else {
        assert x !in Elements(front);
      }
    }
  }

  lemma {:induction false} DuplicateFreeCount(s: seq<string>)
    ensures NoDuplicates(s) <==> |s| == |Elements(s)|
    ensures |Elements(s)| <= |s|
  {
    UniqueCount(s);
    if s != [] {
      var front, x := s[..|s| - 1], s[|s| - 1];
      assert s == front + [x];
      DuplicateFreeCount(front);
      assert Elements(s) == Elements(front) + {x};
      if x in front {
        var k :| 0 <= k < |front| && front[k] == x;
        assert s[k] == s[|s| - 1];
        assert Elements(s) == Elements(front);
      } else {
        assert |Elements(s)| == |Elements(front)| + 1;
        assert NoDuplicates(s) <==> NoDuplicates(front);
      }
    }
  }

  /** The length test loses incoming tags exactly when the stored list has at least as many
      duplicates as there are new tags. */
  lemma TagUnionIff(e: Option<seq<string>>, i: Option<seq<string>>)
    ensures
      var added := TagSet(i) - TagSet(e);
      var duplicates := |TagList(e)| - |TagSet(e)|;
      TagSet(MergedTags(e, i)) == TagSet(e) + TagSet(i) <==> added == {} || |added| > duplicates
  {
    var a, b := TagList(e), TagList(i);
    var added := TagSet(i) - TagSet(e);
    UnionCount(a, b);
    assert TagSet(e) == Elements(a) && TagSet(i) == Elements(b);
    hide Unique;
    assert TagSet(Some(Unique(a + b))) == TagSet(e) + TagSet(i);
    if b == [] { assert added == {}; }
    if added == {} {
      assert TagSet(e) + TagSet(i) == TagSet(e);
    } else {
      var x :| x in added;
      assert x in TagSet(e) + TagSet(i) && x !in TagSet(e);
    }
  }

  lemma UnionCount(a: seq<string>, b: seq<string>)
    ensures |Unique(a + b)| == |Elements(a)| + |Elements(b) - Elements(a)|
    ensures forall x :: x in Unique(a + b) <==> x in Elements(a) + Elements(b)
  {
    hide Unique;
    UniqueCount(a + b);
    assert Elements(a + b) == Elements(a) + (Elements(b) - Elements(a));
  }

  lemma TagUnionOfCleanTags(e: Option<seq<string>>, i: Option<seq<string>>)
    requires NoDuplicates(TagList(e))
    ensures TagSet(MergedTags(e, i)) == TagSet(e) + TagSet(i) && NoDuplicates(TagList(MergedTags(e, i)))
  {
    TagUnionIff(e, i);
    DuplicateFreeCount(TagList(e));
    UniqueCount(TagList(e) + TagList(i));
    assert TagSet(e) == Elements(TagList(e));
  }

  // ---- Upsert ----------------------------------------------------------------------

  datatype Action = Created | Updated | Skipped

  datatype UpsertResult = UpsertResult(id: nat, action: Action, merged: bool, sources: seq<string>)

  function Sources(row: Row): seq<string> {
    if row.sources.Some? then row.sources.value else [row.source]
  }

  function Inserted(i: Input, value: string, id: nat): Row {
    Row(id, i.kind, value, i.source, i.threatType, i.confidence, i.severity, i.firstSeen, i.lastSeen, i.tags,
        Some([i.source]))
  }

  /** What an input does to the row that already has its value: from a known source only `lastSeen`
      moves; from a new one everything merges and the source is recorded. */
  function Absorbed(row: Row, i: Input): Row {
    if i.source in Sources(row) then row.(lastSeen := Later(row.lastSeen, i.lastSeen))
    else Merged(row, i).(sources := Some(Sources(row) + [i.source]))
  }

  /** Index of the first row with this value, or the length of the table. */
  function FindValue(rows: seq<Row>, value: string): (k: nat)
    ensures k <= |rows| && (k < |rows| ==> rows[k].value == value)
    ensures forall m :: 0 <= m < k ==> rows[m].value != value
  {
    if rows == [] || rows[0].value == value then 0 else 1 + FindValue(rows[1..], value)
  }

  function Upserted(rows: seq<Row>, i: Input, value: string): seq<Row> {
    var k := FindValue(rows, value);
    if k < |rows| then rows[k := Absorbed(rows[k], i)] else rows + [Inserted(i, value, |rows|)]
  }

  function ResultOf(rows: seq<Row>, i: Input, value: string): UpsertResult {
    var k := FindValue(rows, value);
    if k == |rows| then UpsertResult(|rows|, Created, false, [i.source])
    else if i.source in Sources(rows[k]) then UpsertResult(rows[k].id, Skipped, false, Sources(rows[k]))
    else UpsertResult(rows[k].id, Updated, true, Sources(rows[k]) + [i.source])
  }

  /** Where the value is stored. */
  ghost predicate StoredAt(rows: seq<Row>, k: nat, value: string) {
    k < |rows| && rows[k].value == value
  }

  /** Created: exactly when no row has the value, and the row says what the input says. */
  lemma CreatedIff(rows: seq<Row>, i: Input, value: string)
    ensures ResultOf(rows, i, value).action == Created <==> forall k: nat :: !StoredAt(rows, k, value)
    ensures
      ResultOf(rows, i, value).action == Created ==>
        var r := UpsertResult(|rows|, Created, false, [i.source]);
        var row := Row(|rows|, i.kind, value, i.source, i.threatType, i.confidence, i.severity, i.firstSeen, i.lastSeen,
                       i.tags, Some([i.source]));
        ResultOf(rows, i, value) == r && Upserted(rows, i, value) == rows + [row]
  {
    hide FindValue;
    assert StoredAt(rows, FindValue(rows, value), value) || FindValue(rows, value) == |rows|;
  }

  /** Stored already: skipped exactly when the source is recorded there, and then nothing but the last sighting
      can change, to the later one; updated exactly when it is not, and then the source is added at the end and
      the identity stays. */
  lemma SkippedOrUpdatedIff(rows: seq<Row>, i: Input, value: string, k: nat)
    requires StoredAt(rows, k, value) && forall m: nat :: m < k ==> !StoredAt(rows, m, value)
    ensures
      var row, rows', r := rows[k], Upserted(rows, i, value), ResultOf(rows, i, value);
      var known := if row.sources.Some? then row.sources.value else [row.source];
      && |rows'| == |rows| && (forall m :: 0 <= m < |rows| && m != k ==> rows'[m] == rows[m]) && r.id == row.id
      && (r.action == Skipped <==> i.source in known) && (r.action == Updated <==> i.source !in known)
      && (r.merged <==> r.action == Updated)
      && (r.action == Skipped ==>
            && rows'[k] == row.(lastSeen := rows'[k].lastSeen) && IsMax(rows'[k].lastSeen, row.lastSeen, i.lastSeen)
            && r.sources == known)
      && (r.action == Updated ==>
            && rows'[k] == Merged(row, i).(sources := Some(known + [i.source])) && r.sources == known + [i.source]
            && rows'[k].id == row.id && rows'[k].kind == row.kind && rows'[k].value == row.value
            && rows'[k].source == row.source)
  {
    hide FindValue, Merged;
    assert FindValue(rows, value) == k by {
      if FindValue(rows, value) < k { assert StoredAt(rows, FindValue(rows, value), value); }
    }
    MergedKeepsIdentity(rows[k], i);
  }

  class Table {
    const norm: (string, string) -> string
    var rows: seq<Row>

    constructor (norm: (string, string) -> string)
      ensures this.norm == norm && rows == []
    {
      this.norm, rows := norm, [];
    }

    method Upsert(input: Input) returns (result: UpsertResult)
      modifies this`rows
      ensures rows == Upserted(old(rows), input, norm(input.kind, input.value))
      ensures result == ResultOf(old(rows), input, norm(input.kind, input.value))
    {
      var value := norm(input.kind, input.value);
      var k := FindValue(rows, value);
      if k < |rows| {
        var existing := rows[k];
        var existingSources := Sources(existing);
        if input.source in existingSources {
          var updates := existing;
          if input.lastSeen.Some? && (existing.lastSeen.None? || input.lastSeen.value > existing.lastSeen.value) {
            updates := updates.(lastSeen := input.lastSeen);
          }
          rows := rows[k := updates];
          return UpsertResult(existing.id, Skipped, false, existingSources);
        }
        var merged := MergeIocData(existing, input);
        var newSources := existingSources + [input.source];
        rows := rows[k := Patched(existing, merged).(sources := Some(newSources))];
        return UpsertResult(existing.id, Updated, true, newSources);
      }
      var inserted := Inserted(input, value, |rows|);
      rows := rows + [inserted];
      result := UpsertResult(inserted.id, Created, false, [input.source]);
    }

    /** The batch loop. `failing` are the inputs whose database call throws: they are logged and
        leave neither a result nor a change. */
    method BatchUpsert(inputs: seq<Input>, failing: set<nat>)
      returns (created: nat, updated: nat, skipped: nat, results: seq<UpsertResult>)
      modifies this`rows
      ensures rows == Batch(old(rows), inputs, failing, norm, |inputs|)
      ensures results == BatchResults(old(rows), inputs, failing, norm, |inputs|)
      ensures Tallies(results, created, updated, skipped)
      ensures |rows| == |old(rows)| + created
    {
      hide Upserted, ResultOf, Batch, BatchResults, Tallies;
      created, updated, skipped, results := 0, 0, 0, [];
      ghost var before := rows;
      NothingYet(before, inputs, failing, norm);
      for n := 0 to |inputs|
        invariant rows == Batch(before, inputs, failing, norm, n)
        invariant results == BatchResults(before, inputs, failing, norm, n)
        invariant Tallies(results, created, updated, skipped)
        invariant |rows| == |before| + created
      {
        BatchNext(before, inputs, failing, norm, n);
        if n !in failing {
          UpsertGrows(rows, inputs[n], norm(inputs[n].kind, inputs[n].value));
          var result := Upsert(inputs[n]);
          TallyNext(results, created, updated, skipped, result);
          results := results + [result];
          match result.action {
            case Created => created := created + 1;
            case Updated => updated := updated + 1;
            case Skipped => skipped := skipped + 1;
          }
        }
      }
    }
  }

  /** The table grows by one row for a created result and keeps its size otherwise. */
  lemma UpsertGrows(rows: seq<Row>, i: Input, value: string)
    ensures |Upserted(rows, i, value)| == |rows| + (if ResultOf(rows, i, value).action == Created then 1 else 0)
  {
    hide Absorbed;
  }

  /** How many results report an action. */
  function Count(results: seq<UpsertResult>, action: Action): nat {
    if results == [] then 0
    else Count(results[..|results| - 1], action) + (if results[|results| - 1].action == action then 1 else 0)
  }

  /** The three counters count the results by action, and together they count them all. */
  predicate Tallies(results: seq<UpsertResult>, created: nat, updated: nat, skipped: nat) {
    && created == Count(results, Created) && updated == Count(results, Updated) && skipped == Count(results, Skipped)
    && created + updated + skipped == |results|
  }

  lemma TallyNext(
    results: seq<UpsertResult>, created: nat, updated: nat, skipped: nat, result: UpsertResult)
    requires Tallies(results, created, updated, skipped)
    ensures Tallies(results + [result],
                    created + (if result.action == Created then 1 else 0),
                    updated + (if result.action == Updated then 1 else 0),
                    skipped + (if result.action == Skipped then 1 else 0))
  {
    assert (results + [result])[..|results|] == results;
  }

  /** The table after the first `n` inputs of a batch. */
  function Batch(
    rows: seq<Row>, inputs: seq<Input>, failing: set<nat>, norm: (string, string) -> string, n: nat): seq<Row>
    requires n <= |inputs|
  {
    if n == 0 then rows
    else
      var before := Batch(rows, inputs, failing, norm, n - 1);
      var i := inputs[n - 1];
      if n - 1 in failing then before else Upserted(before, i, norm(i.kind, i.value))
  }

  /** One result for each input that does not fail, in order: what the upsert answers on the table so far. */
  function BatchResults(
    rows: seq<Row>, inputs: seq<Input>, failing: set<nat>, norm: (string, string) -> string, n: nat): seq<UpsertResult>
    requires n <= |inputs|
  {
    if n == 0 then []
    else
      var i := inputs[n - 1];
      BatchResults(rows, inputs, failing, norm, n - 1)
      + (if n - 1 in failing then []
         else [ResultOf(Batch(rows, inputs, failing, norm, n - 1), i, norm(i.kind, i.value))])
  }

  lemma NothingYet(
    rows: seq<Row>, inputs: seq<Input>, failing: set<nat>, norm: (string, string) -> string)
    ensures Batch(rows, inputs, failing, norm, 0) == rows && BatchResults(rows, inputs, failing, norm, 0) == []
    ensures Tallies([], 0, 0, 0)
  {
  }

  lemma BatchNext(
    rows: seq<Row>, inputs: seq<Input>, failing: set<nat>, norm: (string, string) -> string, n: nat)
    requires n < |inputs|
    ensures
      var before, results := Batch(rows, inputs, failing, norm, n), BatchResults(rows, inputs, failing, norm, n);
      var i, value := inputs[n], norm(inputs[n].kind, inputs[n].value);
      && Batch(rows, inputs, failing, norm, n + 1) == (if n in failing then before else Upserted(before, i, value))
      && BatchResults(rows, inputs, failing, norm, n + 1)
         == (if n in failing then results else results + [ResultOf(before, i, value)])
  {
    hide Upserted, ResultOf;
  }

  // ---- What every batch keeps -----------------------------------------------------------

  ghost predicate OneRowPerValue(rows: seq<Row>) {
    forall i, j :: 0 <= i < j < |rows| ==> rows[i].value != rows[j].value
  }

  ghost predicate CleanSources(rows: seq<Row>) {
    forall k :: 0 <= k < |rows| ==> NoDuplicates(Sources(rows[k]))
  }

  lemma UpsertKeeps(rows: seq<Row>, i: Input, value: string)
    requires OneRowPerValue(rows) && CleanSources(rows)
    ensures
      var rows' := Upserted(rows, i, value);
      && OneRowPerValue(rows') && CleanSources(rows') && |rows'| >= |rows|
      && (forall k :: 0 <= k < |rows| ==>
            rows'[k].value == rows[k].value && rows'[k].id == rows[k].id && Sources(rows[k]) <= Sources(rows'[k]))
  {
    hide Merged;
    hide Later;
    var k := FindValue(rows, value);
    if k < |rows| { MergedKeepsIdentity(rows[k], i); }
  }

  lemma MergedKeepsIdentity(row: Row, i: Input)
    ensures Merged(row, i).value == row.value && Merged(row, i).id == row.id
    ensures Merged(row, i).kind == row.kind && Merged(row, i).source == row.source
  {
  }

  /** For any batch, whatever fails on the way: one row per normalised value, sources without
      duplicates, and every row keeps its identity while its source list only grows at the end. */
  lemma {:induction false} BatchKeeps(rows: seq<Row>, inputs: seq<Input>, failing: set<nat>,
                                      norm: (string, string) -> string, n: nat)
    requires OneRowPerValue(rows) && CleanSources(rows) && n <= |inputs|
    ensures
      var rows' := Batch(rows, inputs, failing, norm, n);
      && OneRowPerValue(rows') && CleanSources(rows') && |rows'| >= |rows|
      && (forall k :: 0 <= k < |rows| ==>
            rows'[k].value == rows[k].value && rows'[k].id == rows[k].id && Sources(rows[k]) <= Sources(rows'[k]))
  {
    if n > 0 {
      hide Upserted;
      hide OneRowPerValue;
      hide CleanSources;
      hide Sources;
      BatchKeeps(rows, inputs, failing, norm, n - 1);
      var i := inputs[n - 1];
      UpsertKeeps(Batch(rows, inputs, failing, norm, n - 1), i, norm(i.kind, i.value));
    }
  }

  // ---- Types ---------------------------------------------------------------------------------

  /** The type as it enters the canonical ID: lower-cased, and without a leading "hash-". */
  function CanonicalType(kind: string): string {
    var t := Lower(kind);
    if "hash-" <= t then t[5..] else t
  }

  /** Neither letter case nor the prefix "hash-" makes a type different. */
  lemma CanonicalTypes(kind: string)
    ensures CanonicalType(Lower(kind)) == CanonicalType(kind)
    ensures "hash-" <= Lower(kind) ==> "hash-" + CanonicalType(kind) == Lower(kind)
    ensures !("hash-" <= Lower(kind)) ==> CanonicalType(kind) == Lower(kind)
  {
    LowerFacts(kind);
    LowerFacts(Lower(kind));
  }

  /** The row an input is absorbed by is looked up by value alone, not by the canonical ID with its type: the
      answer is for a row of another type exactly when one with the normalised value is stored; and some row
      of another type changes exactly when, besides, the source is new to it or the sighting is later. Types
      count as different when the canonical ID tells them apart. */
  lemma AbsorbedAcrossTypesIff(rows: seq<Row>, i: Input, value: string)
    requires OneRowPerValue(rows)
    ensures
      var k, rows', t := FindValue(rows, value), Upserted(rows, i, value), CanonicalType(i.kind);
      var stored := exists m :: 0 <= m < |rows| && rows[m].value == value && CanonicalType(rows[m].kind) != t;
      && (stored <==> k < |rows| && CanonicalType(rows[k].kind) != t)
      && (stored ==> ResultOf(rows, i, value).id == rows[k].id && |rows'| == |rows| && rows'[k].kind == rows[k].kind)
      && ((exists m :: 0 <= m < |rows| && CanonicalType(rows[m].kind) != t && rows'[m] != rows[m]) <==>
            && stored
            && (i.source !in Sources(rows[k]) || Later(rows[k].lastSeen, i.lastSeen) != rows[k].lastSeen))
  {
    hide FindValue, Merged, CanonicalType;
    var k, rows' := FindValue(rows, value), Upserted(rows, i, value);
    if k < |rows| {
      AbsorbedChangesIff(rows[k], i);
      assert forall m :: 0 <= m < |rows| && rows[m].value == value ==> m == k;
      assert forall m :: 0 <= m < |rows| && rows'[m] != rows[m] ==> m == k;
    }
  }

  lemma AbsorbedChangesIff(row: Row, i: Input)
    ensures Absorbed(row, i) != row <==> i.source !in Sources(row) || Later(row.lastSeen, i.lastSeen) != row.lastSeen
    ensures Absorbed(row, i).kind == row.kind
  {
    var sources := Sources(Absorbed(row, i));
    if i.source !in Sources(row) { assert |sources| == |Sources(row)| + 1; }
  }

  /** Two inputs of different types and sources with one normalised value: one row, of the first one's type. */
  lemma TwoTypesOneRow(a: Input, b: Input, norm: (string, string) -> string)
    requires CanonicalType(a.kind) != CanonicalType(b.kind) && a.source != b.source
    requires norm(a.kind, a.value) == norm(b.kind, b.value)
    ensures
      var rows := Batch([], [a, b], {}, norm, 2);
      |rows| == 1 && rows[0].kind == a.kind && Sources(rows[0]) == [a.source, b.source]
  {
    hide *;
    var value := norm(a.kind, a.value);
    NothingYet([], [a, b], {}, norm);
    BatchNext([], [a, b], {}, norm, 0);
    BatchNext([], [a, b], {}, norm, 1);
    TwoUpserts(a, b, value);
  }

  lemma TwoUpserts(a: Input, b: Input, value: string)
    requires a.source != b.source
    ensures
      var rows := Upserted(Upserted([], a, value), b, value);
      |rows| == 1 && rows[0].kind == a.kind && Sources(rows[0]) == [a.source, b.source]
  {
    hide Merged;
    var row := Inserted(a, value, 0);
    assert Upserted([], a, value) == [row];
    AbsorbedChangesIff(row, b);
    assert Upserted([row], b, value) == [Absorbed(row, b)];
  }

  // ---- Tag cleaning ----------------------------------------------------------------

  function TagKey(t: string): string {
    Lower(Trim(t))
  }

  /** Keep the first tag of each case-insensitive key, trimmed, without blanks. */
  function CleanTags(tags: seq<Option<string>>): seq<string> {
    if tags == [] then []
    else
      var r, t := CleanTags(tags[..|tags| - 1]), tags[|tags| - 1];
      if t.None? || Trim(t.value) == "" || TagKey(t.value) in Keys(r) then r else r + [Trim(t.value)]
  }

  function Keys(tags: seq<string>): set<string> {
    set t | t in tags :: Lower(t)
  }

  method DedupTags(tags: seq<Option<string>>) returns (out: seq<string>)
    ensures out == CleanTags(tags)
  {
    var seen: set<string> := {};
    out := [];
    for n := 0 to |tags|
      invariant out == CleanTags(tags[..n]) && seen == Keys(out)
    {
      assert tags[..n + 1][..n] == tags[..n];
      var t := tags[n];
      if t.None? { continue; }
      var trimmed := Trim(t.value);
      if trimmed == "" { continue; }
      var key := Lower(trimmed);
      if key in seen { continue; }
      seen := seen + {key};
      assert Keys(out + [trimmed]) == Keys(out) + {key};
      out := out + [trimmed];
    }
    assert tags[..|tags|] == tags;
  }

  /** Input tag `n` is not blank and has key `k`. */
  predicate KeyAt(tags: seq<Option<string>>, n: nat, k: string) {
    n < |tags| && tags[n].Some? && Trim(tags[n].value) != "" && TagKey(tags[n].value) == k
  }

  lemma CleanTagsLast(tags: seq<Option<string>>, t: Option<string>)
    ensures
      var r, out := CleanTags(tags), CleanTags(tags + [t]);
      if exists k :: KeyAt(tags + [t], |tags|, k) && k !in Keys(r) then
        && out == r + [Trim(t.value)] && Keys(out) == Keys(r) + {TagKey(t.value)}
        && Lower(Trim(t.value)) == TagKey(t.value) && KeyAt(tags + [t], |tags|, TagKey(t.value))
      else out == r
    ensures forall n: nat, k :: KeyAt(tags, n, k) ==> KeyAt(tags + [t], n, k)
    ensures forall n: nat, k :: KeyAt(tags + [t], n, k) && n < |tags| ==> KeyAt(tags, n, k)
  {
    hide Trim;
    hide Lower;
    assert (tags + [t])[..|tags|] == tags;
    if t.Some? && Trim(t.value) != "" {
      var k := TagKey(t.value);
      assert KeyAt(tags + [t], |tags|, k);
      var r := CleanTags(tags);
      assert Keys(r + [Trim(t.value)]) == Keys(r) + {k};
    }
  }

  /** The keys that come out are exactly those of the non-blank tags that went in. */
  lemma {:induction false} CleanTagsKeys(tags: seq<Option<string>>, k: string)
    ensures k in Keys(CleanTags(tags)) <==> exists n: nat :: KeyAt(tags, n, k)
  {
    if tags != [] {
      hide KeyAt;
      hide TagKey;
      hide Keys;
      hide CleanTags;
      var front, t := tags[..|tags| - 1], tags[|tags| - 1];
      assert tags == front + [t];
      CleanTagsKeys(front, k);
      CleanTagsLast(front, t);
      LastKey(front, t, k);
    }
  }

  lemma LastKey(tags: seq<Option<string>>, t: Option<string>, k: string)
    ensures (exists n: nat :: KeyAt(tags + [t], n, k)) <==>
              (exists n: nat :: KeyAt(tags, n, k)) || KeyAt(tags + [t], |tags|, k)
    ensures forall k' :: KeyAt(tags + [t], |tags|, k') && KeyAt(tags + [t], |tags|, k) ==> k' == k
    ensures KeyAt(tags + [t], |tags|, k) ==> k == TagKey(t.value)
  {
    hide Trim;
    hide TagKey;
    if n: nat :| KeyAt(tags, n, k) { assert KeyAt(tags + [t], n, k); }
    if n: nat :| KeyAt(tags + [t], n, k) { assert n < |tags| ==> KeyAt(tags, n, k); }
  }

  /** Each key comes out once, written as the first tag with that key was. */
  lemma {:induction false} CleanTagsFirstWriting(tags: seq<Option<string>>, i: nat)
    requires i < |CleanTags(tags)|
    ensures
      var out := CleanTags(tags);
      && (forall j :: 0 <= j < i ==> Lower(out[j]) != Lower(out[i]))
      && (exists n: nat :: KeyAt(tags, n, Lower(out[i])) && out[i] == Trim(tags[n].value)
            && forall m: nat :: m < n ==> !KeyAt(tags, m, Lower(out[i])))
  {
    if tags != [] {
      hide Trim;
      hide Lower;
      hide KeyAt;
      var front, t := tags[..|tags| - 1], tags[|tags| - 1];
      assert tags == front + [t];
      var r, out := CleanTags(front), CleanTags(tags);
      CleanTagsLast(front, t);
      if i < |r| {
        CleanTagsFirstWriting(front, i);
        var n: nat :| KeyAt(front, n, Lower(r[i])) && r[i] == Trim(front[n].value)
          && forall m: nat :: m < n ==> !KeyAt(front, m, Lower(r[i]));
        KeyInRange(front, n, Lower(r[i]));
        assert KeyAt(tags, n, Lower(r[i]));
      } else {
        var k := Lower(out[i]);
        CleanTagsKeys(front, k);
        assert forall j :: 0 <= j < |r| ==> r[j] in r && Lower(r[j]) in Keys(r);
        assert KeyAt(tags, |front|, k);
        assert forall m: nat :: m < |front| ==> !KeyAt(tags, m, k);
      }
    }
  }

  lemma KeyInRange(tags: seq<Option<string>>, n: nat, k: string)
    requires KeyAt(tags, n, k)
    ensures n < |tags| && tags[n].Some?
  {
  }
}
