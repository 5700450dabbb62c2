/** Batches in any order: what the row of each value says about the inputs that carried it. */
module IocOrder {
  import opened Text
  import opened IocMerge

  // ---- One value at a time ----------------------------------------------------------------

  /** Input `m` does not fail and normalises to the value. */
  predicate Carries(inputs: seq<Input>, failing: set<nat>, norm: (string, string) -> string, m: nat, value: string) {
    m < |inputs| && m !in failing && norm(inputs[m].kind, inputs[m].value) == value
  }

  /** The inputs among the first `n` that do not fail and normalise to the value, in order. */
  function Carried(
    inputs: seq<Input>, failing: set<nat>, norm: (string, string) -> string, n: nat, value: string): seq<Input>
    requires n <= |inputs|
  {
    if n == 0 then []
    else
      Carried(inputs, failing, norm, n - 1, value)
      + (if Carries(inputs, failing, norm, n - 1, value) then [inputs[n - 1]] else [])
  }

  /** The row of a value, whatever its number; None if there is none. */
  function RowOf(rows: seq<Row>, value: string): Option<Row> {
    var k := FindValue(rows, value);
    if k < |rows| then Some(rows[k].(id := 0)) else None
  }

  /** The row of a value after inputs for it, from the row it had. */
  function RowAfter(start: Option<Row>, value: string, ins: seq<Input>): Option<Row> {
    if ins == [] then start
    else
      var before, x := RowAfter(start, value, ins[..|ins| - 1]), ins[|ins| - 1];
      Some(if before.Some? then Absorbed(before.value, x) else Inserted(x, value, 0))
  }

  lemma RowAfterNext(start: Option<Row>, value: string, ins: seq<Input>, x: Input)
    ensures
      var before := RowAfter(start, value, ins);
      RowAfter(start, value, ins + [x])
      == Some(if before.Some? then Absorbed(before.value, x) else Inserted(x, value, 0))
  {
    assert (ins + [x])[..|ins|] == ins;
  }

  lemma AbsorbedKeeps(row: Row, x: Input)
    ensures Absorbed(row, x).value == row.value && Absorbed(row, x).id == row.id
    ensures Absorbed(row, x).(id := 0) == Absorbed(row.(id := 0), x)
  {
  }

  lemma FindValueIs(rows: seq<Row>, value: string, k: nat)
    requires k <= |rows| && (k < |rows| ==> rows[k].value == value)
    requires forall m :: 0 <= m < k ==> rows[m].value != value
    ensures FindValue(rows, value) == k
  {
    hide FindValue;
  }

  /** An upsert changes the row of its own value and no other. */
  lemma UpsertRow(rows: seq<Row>, x: Input, v: string, value: string)
    ensures
      var before, after := RowOf(rows, value), RowOf(Upserted(rows, x, v), value);
      after == if v != value then before
               else Some(if before.Some? then Absorbed(before.value, x) else Inserted(x, value, 0))
  {
    hide FindValue, Absorbed;
    var k, m, rows' := FindValue(rows, v), FindValue(rows, value), Upserted(rows, x, v);
    if k < |rows| { AbsorbedKeeps(rows[k], x); }
    if k == |rows| && (v == value || m < |rows|) {
      FindValueIs(rows', value, m);
    } else if k == |rows| {
      FindValueIs(rows', value, |rows'|);
    } else {
      FindValueIs(rows', value, m);
    }
  }

  /** Values do not interfere: whatever a batch holds and whatever fails, the row of a value afterwards is the
      row it had, after the inputs for that value alone, in their order. */
  lemma {:induction false} ValuesDoNotInterfere(
    rows: seq<Row>, inputs: seq<Input>, failing: set<nat>, norm: (string, string) -> string, n: nat, value: string)
    requires n <= |inputs|
    ensures RowOf(Batch(rows, inputs, failing, norm, n), value)
         == RowAfter(RowOf(rows, value), value, Carried(inputs, failing, norm, n, value))
  {
    hide *;
    var start := RowOf(rows, value);
    if n == 0 {
      NothingYet(rows, inputs, failing, norm);
      CarriedNothing(inputs, failing, norm, value);
      NoInputs(start, value);
    } else {
      ValuesDoNotInterfere(rows, inputs, failing, norm, n - 1, value);
      BatchNext(rows, inputs, failing, norm, n - 1);
      CarriedNext(inputs, failing, norm, n - 1, value);
      var before, x := Batch(rows, inputs, failing, norm, n - 1), inputs[n - 1];
      UpsertRow(before, x, norm(x.kind, x.value), value);
      RowAfterNext(start, value, Carried(inputs, failing, norm, n - 1, value), x);
    }
  }

  lemma CarriedNothing(
    inputs: seq<Input>, failing: set<nat>, norm: (string, string) -> string, value: string)
    ensures Carried(inputs, failing, norm, 0, value) == []
  {
  }

  lemma CarriedNext(
    inputs: seq<Input>, failing: set<nat>, norm: (string, string) -> string, n: nat, value: string)
    requires n < |inputs|
    ensures
      var before := Carried(inputs, failing, norm, n, value);
      Carried(inputs, failing, norm, n + 1, value)
      == if n !in failing && norm(inputs[n].kind, inputs[n].value) == value then before + [inputs[n]] else before
  {
  }

  lemma NoInputs(start: Option<Row>, value: string)
    ensures RowAfter(start, value, []) == start
  {
  }

  lemma {:induction false} CarriedSome(
    inputs: seq<Input>, failing: set<nat>, norm: (string, string) -> string, n: nat, value: string)
    requires n <= |inputs|
    ensures Carried(inputs, failing, norm, n, value) != []
       <==> exists m: nat :: m < n && Carries(inputs, failing, norm, m, value)
  {
    if n > 0 {
      hide Carries;
      CarriedSome(inputs, failing, norm, n - 1, value);
      if Carries(inputs, failing, norm, n - 1, value) { assert n - 1 < n; }
    }
  }

  lemma RowAfterSome(start: Option<Row>, value: string, ins: seq<Input>)
    ensures RowAfter(start, value, ins).Some? <==> start.Some? || ins != []
  {
  }

  /** A value has a row after the batch exactly when it had one before or some input that did not
      fail normalises to it. */
  lemma BatchValues(
    rows: seq<Row>, inputs: seq<Input>, failing: set<nat>, norm: (string, string) -> string, n: nat, value: string)
    requires n <= |inputs|
    ensures RowOf(Batch(rows, inputs, failing, norm, n), value).Some?
       <==> RowOf(rows, value).Some? || exists m: nat :: m < n && Carries(inputs, failing, norm, m, value)
  {
    hide *;
    ValuesDoNotInterfere(rows, inputs, failing, norm, n, value);
    CarriedSome(inputs, failing, norm, n, value);
    RowAfterSome(RowOf(rows, value), value, Carried(inputs, failing, norm, n, value));
  }

  // ---- What a row says about its inputs --------------------------------------------------------

  predicate KnownSeverity(s: Option<string>) {
    s.None? || s.value in SEVERITIES
  }

  ghost predicate ValidInput(i: Input) {
    && (i.confidence.Some? ==> i.confidence.value >= 0)
    && KnownSeverity(i.severity)
    && NoDuplicates(TagList(i.tags))
  }

  ghost predicate DistinctSources(ins: seq<Input>) {
    forall i, j :: 0 <= i < j < |ins| ==> ins[i].source != ins[j].source
  }

  datatype Field = ConfidenceField | FirstSeenField | LastSeenField

  function Value(field: Field, i: Input): Option<int> {
    match field
    case ConfidenceField => i.confidence
    case FirstSeenField => i.firstSeen
    case LastSeenField => i.lastSeen
  }

  /** First sightings compete downwards, the other fields upwards. */
  function Sign(field: Field): int {
    if field == FirstSeenField then -1 else 1
  }

  /** `m` is the best of the values the inputs carry, None if none carries one. */
  ghost predicate IsBest(m: Option<int>, ins: seq<Input>, field: Field) {
    && (m.Some? ==> exists i :: i in ins && Value(field, i) == m)
    && (forall i :: i in ins && Value(field, i).Some? ==>
          m.Some? && Sign(field) * m.value >= Sign(field) * Value(field, i).value)
  }

  ghost predicate IsTopSeverity(s: Option<string>, ins: seq<Input>) {
    && (exists i :: i in ins && i.severity == s)
    && (forall i :: i in ins ==> !MoreSevere(i.severity, s))
  }

  ghost function AllTags(ins: seq<Input>): set<string> {
    set i, t | i in ins && t in TagList(i.tags) :: t
  }

  /** What the stored row must say about the inputs, in terms that do not mention their order. */
  ghost predicate Summarises(row: Row, ins: seq<Input>) {
    && IsBest(row.confidence, ins, ConfidenceField)
    && IsBest(row.firstSeen, ins, FirstSeenField)
    && IsBest(row.lastSeen, ins, LastSeenField)
    && IsTopSeverity(row.severity, ins)
    && TagSet(row.tags) == AllTags(ins)
  }

  lemma BestStep(m: Option<int>, m': Option<int>, ins: seq<Input>, x: Input, field: Field)
    requires IsBest(m, ins, field) && (m' == m || m' == Value(field, x))
    requires m.Some? ==> m'.Some? && Sign(field) * m'.value >= Sign(field) * m.value
    requires Value(field, x).Some? ==> m'.Some? && Sign(field) * m'.value >= Sign(field) * Value(field, x).value
    ensures IsBest(m', ins + [x], field)
  {
    if m'.Some? {
      if m' == Value(field, x) {
        assert x in ins + [x];
      } else {
        var i :| i in ins && Value(field, i) == m;
        assert i in ins + [x];
      }
    }
  }

  lemma NotMoreSevere(a: Option<string>, s: Option<string>, x: Option<string>)
    ensures !MoreSevere(a, s) ==> !MoreSevere(a, if MoreSevere(x, s) then x else s)
    ensures !MoreSevere(x, if MoreSevere(x, s) then x else s)
  {
    hide MoreSevere, Rank;
    MoreSevereIsRank(a, s);
    MoreSevereIsRank(x, s);
    MoreSevereIsRank(a, x);
    MoreSevereIsRank(x, x);
  }

  lemma SeverityStep(s: Option<string>, ins: seq<Input>, x: Input)
    requires IsTopSeverity(s, ins) && KnownSeverity(x.severity)
    ensures IsTopSeverity(MergedSeverity(s, x.severity), ins + [x])
  {
    var s' := MergedSeverity(s, x.severity);
    SeverityIsMax(s, x.severity);
    hide MergedSeverity, MoreSevere, KnownSeverity;
    forall i | i in ins + [x] ensures !MoreSevere(i.severity, s') { NotMoreSevere(i.severity, s, x.severity); }
    if s' == x.severity {
      assert x in ins + [x];
    } else {
      var i :| i in ins && i.severity == s;
      assert i in ins + [x];
    }
  }

  lemma TagsStep(t: Option<seq<string>>, ins: seq<Input>, x: Input)
    requires NoDuplicates(TagList(t)) && TagSet(t) == AllTags(ins)
    ensures TagSet(MergedTags(t, x.tags)) == AllTags(ins + [x]) && NoDuplicates(TagList(MergedTags(t, x.tags)))
  {
    TagUnionOfCleanTags(t, x.tags);
    forall tag ensures tag in AllTags(ins + [x]) <==> tag in AllTags(ins) || tag in TagSet(x.tags) {
      if tag in AllTags(ins) {
        var i :| i in ins && tag in TagList(i.tags);
        assert i in ins + [x];
      }
      if tag in TagSet(x.tags) { assert x in ins + [x]; }
    }
  }

  function SourceList(ins: seq<Input>): (r: seq<string>)
    ensures |r| == |ins| && forall k :: 0 <= k < |ins| ==> r[k] == ins[k].source
  {
    if ins == [] then [] else SourceList(ins[..|ins| - 1]) + [ins[|ins| - 1].source]
  }

  lemma SummaryStep(row: Row, ins: seq<Input>, x: Input)
    requires Summarises(row, ins) && NoDuplicates(TagList(row.tags)) && ValidInput(x)
    requires row.confidence.Some? ==> row.confidence.value >= 0
    ensures Summarises(Merged(row, x), ins + [x]) && NoDuplicates(TagList(Merged(row, x).tags))
    ensures Merged(row, x).confidence.Some? ==> Merged(row, x).confidence.value >= 0
  {
    hide IsBest;
    hide IsTopSeverity;
    hide TagSet;
    hide AllTags;
    hide NoDuplicates;
    hide MergedSeverity;
    hide MergedTags;
    BestStep(row.confidence, MergedConfidence(row.confidence, x.confidence), ins, x, ConfidenceField);
    BestStep(row.firstSeen, Earlier(row.firstSeen, x.firstSeen), ins, x, FirstSeenField);
    BestStep(row.lastSeen, Later(row.lastSeen, x.lastSeen), ins, x, LastSeenField);
    SeverityStep(row.severity, ins, x);
    TagsStep(row.tags, ins, x);
  }

  /** A stored row, seen as one more input. */
  function AsInput(row: Row): Input {
    Input(row.kind, row.value, row.source, row.threatType, row.confidence, row.severity, row.firstSeen,
          row.lastSeen, row.tags)
  }

  function Basis(start: Option<Row>): seq<Input> {
    if start.Some? then [AsInput(start.value)] else []
  }

  function StartSources(start: Option<Row>): seq<string> {
    if start.Some? then Sources(start.value) else []
  }

  ghost predicate ValidStart(start: Option<Row>) {
    start.Some? ==> ValidInput(AsInput(start.value))
  }

  /** The inputs come from sources distinct from each other and from those already recorded. */
  ghost predicate NewSources(start: Option<Row>, ins: seq<Input>) {
    DistinctSources(ins) && forall k :: 0 <= k < |ins| ==> ins[k].source !in StartSources(start)
  }

  lemma SummaryOfOne(row: Row, x: Input)
    requires ValidInput(x) && x.severity == row.severity && x.tags == row.tags
    requires x.confidence == row.confidence && x.firstSeen == row.firstSeen && x.lastSeen == row.lastSeen
    ensures Summarises(row, [x]) && NoDuplicates(TagList(row.tags))
  {
    assert x in [x];
    assert AllTags([x]) == TagSet(x.tags);
  }

  /** The row is the summary of what it said before and of all inputs, if there is anything to sum up. */
  ghost predicate SumsUp(after: Option<Row>, start: Option<Row>, ins: seq<Input>) {
    && (after.Some? <==> start.Some? || ins != [])
    && (after.Some? ==>
          && Summarises(after.value, Basis(start) + ins) && NoDuplicates(TagList(after.value.tags))
          && (after.value.confidence.Some? ==> after.value.confidence.value >= 0))
  }

  lemma SumsUpFirst(x: Input, value: string)
    requires ValidInput(x)
    ensures SumsUp(Some(Inserted(x, value, 0)), None, [x])
  {
    hide Summarises, ValidInput, NoDuplicates;
    InsertedRow(x, value);
    assert Basis(None) + [x] == [x];
  }

  lemma SumsUpNext(row: Row, start: Option<Row>, front: seq<Input>, x: Input)
    requires SumsUp(Some(row), start, front) && ValidInput(x) && x.source !in Sources(row)
    ensures SumsUp(Some(Absorbed(row, x)), start, front + [x])
  {
    hide Summarises, ValidInput, Merged, NoDuplicates, Absorbed, Sources;
    assert Basis(start) + (front + [x]) == Basis(start) + front + [x];
    AbsorbedNew(row, x);
    SummaryStep(row, Basis(start) + front, x);
    SummaryIgnoresSources(Merged(row, x), Basis(start) + front + [x], Sources(row) + [x.source]);
  }

  lemma SumsUpStart(start: Option<Row>)
    requires ValidStart(start)
    ensures SumsUp(start, start, [])
  {
    hide Summarises, ValidInput, NoDuplicates;
    assert Basis(start) + [] == Basis(start);
    if start.Some? { StoredRow(start.value); }
  }

  /** Sources are listed in order of arrival. */
  lemma {:induction false} SourcesAfter(start: Option<Row>, value: string, ins: seq<Input>)
    requires NewSources(start, ins)
    ensures StartSources(RowAfter(start, value, ins)) == StartSources(start) + SourceList(ins)
    decreases |ins|
  {
    hide NewSources, RowAfter, Absorbed, Inserted, SourceList, Sources;
    if ins == [] {
      NoInputs(start, value);
      NoSources();
    } else {
      var front, x := ins[..|ins| - 1], ins[|ins| - 1];
      assert ins == front + [x];
      NewSourcesFront(start, front, x);
      SourcesAfter(start, value, front);
      RowAfterNext(start, value, front, x);
      SourceListNext(front, x);
      var before := RowAfter(start, value, front);
      if before.Some? { AbsorbedNew(before.value, x); } else { InsertedSources(x, value); }
    }
  }

  /** After inputs from new sources a row sums up what it said before and all of them. */
  lemma {:induction false} SummaryHolds(start: Option<Row>, value: string, ins: seq<Input>)
    requires ValidStart(start) && NewSources(start, ins) && forall i :: i in ins ==> ValidInput(i)
    ensures SumsUp(RowAfter(start, value, ins), start, ins)
    decreases |ins|
  {
    hide SumsUp, ValidInput, RowAfter, Absorbed, Inserted, NewSources, ValidStart;
    if ins == [] {
      NoInputs(start, value);
      SumsUpStart(start);
    } else {
      var front, x := ins[..|ins| - 1], ins[|ins| - 1];
      assert ins == front + [x] && x in ins;
      NewSourcesFront(start, front, x);
      SummaryHolds(start, value, front);
      SourcesAfter(start, value, front);
      RowAfterNext(start, value, front, x);
      RowAfterSome(start, value, front);
      var before := RowAfter(start, value, front);
      if before.Some? {
        SumsUpNext(before.value, start, front, x);
      } else {
        SumsUpFirst(x, value);
        assert front == [] && ins == [x];
      }
    }
  }

  lemma NewSourcesFront(start: Option<Row>, front: seq<Input>, x: Input)
    requires NewSources(start, front + [x])
    ensures NewSources(start, front)
    ensures x.source !in StartSources(start) + SourceList(front)
  {
    hide Sources;
    var ins := front + [x];
    assert forall k :: 0 <= k < |front| ==> ins[k] == front[k];
    assert ins[|front|] == x;
  }

  lemma SourceListNext(front: seq<Input>, x: Input)
    ensures SourceList(front + [x]) == SourceList(front) + [x.source]
  {
    assert (front + [x])[..|front|] == front;
  }

  lemma NoSources()
    ensures SourceList([]) == []
  {
  }

  lemma InsertedSources(x: Input, value: string)
    ensures Sources(Inserted(x, value, 0)) == [x.source] && Inserted(x, value, 0).threatType == x.threatType
  {
  }

  /** From a new source everything merges. */
  lemma AbsorbedNew(row: Row, x: Input)
    requires x.source !in Sources(row)
    ensures Absorbed(row, x) == Merged(row, x).(sources := Some(Sources(row) + [x.source]))
    ensures Sources(Absorbed(row, x)) == Sources(row) + [x.source]
    ensures Absorbed(row, x).threatType == MergedThreat(row.threatType, x.threatType)
  {
    hide MergedTags, MergedConfidence, MergedSeverity, Earlier, Later, MergedThreat;
  }

  lemma StoredRow(row: Row)
    requires ValidInput(AsInput(row))
    ensures Summarises(row, [AsInput(row)]) && NoDuplicates(TagList(row.tags))
    ensures row.confidence.Some? ==> row.confidence.value >= 0
  {
    SummaryOfOne(row, AsInput(row));
  }

  lemma InsertedRow(x: Input, value: string)
    requires ValidInput(x)
    ensures
      var row := Inserted(x, value, 0);
      && Summarises(row, [x]) && NoDuplicates(TagList(row.tags))
      && (row.confidence.Some? ==> row.confidence.value >= 0) && Sources(row) == [x.source]
  {
    SummaryOfOne(Inserted(x, value, 0), x);
  }

  lemma SummaryIgnoresSources(row: Row, ins: seq<Input>, sources: seq<string>)
    requires Summarises(row, ins)
    ensures Summarises(row.(sources := Some(sources)), ins)
  {
  }

  /** A summary is determined by which inputs there are. */
  lemma SummaryIsUnique(a: Row, b: Row, ins: seq<Input>, ins': seq<Input>)
    requires Summarises(a, ins) && Summarises(b, ins')
    requires forall i :: i in ins <==> i in ins'
    requires forall i :: i in ins ==> KnownSeverity(i.severity)
    ensures a.confidence == b.confidence && a.firstSeen == b.firstSeen && a.lastSeen == b.lastSeen
    ensures a.severity == b.severity && TagSet(a.tags) == TagSet(b.tags)
  {
    assert AllTags(ins) == AllTags(ins');
    BestIsUnique(a.confidence, b.confidence, ins, ins', ConfidenceField);
    BestIsUnique(a.firstSeen, b.firstSeen, ins, ins', FirstSeenField);
    BestIsUnique(a.lastSeen, b.lastSeen, ins, ins', LastSeenField);
    TopSeverityIsUnique(a.severity, b.severity, ins, ins');
  }

  lemma BestIsUnique(a: Option<int>, b: Option<int>, ins: seq<Input>, ins': seq<Input>, field: Field)
    requires IsBest(a, ins, field) && IsBest(b, ins', field) && forall i :: i in ins <==> i in ins'
    ensures a == b
  {
  }

  lemma TopSeverityIsUnique(a: Option<string>, b: Option<string>, ins: seq<Input>, ins': seq<Input>)
    requires IsTopSeverity(a, ins) && IsTopSeverity(b, ins') && forall i :: i in ins <==> i in ins'
    requires forall i :: i in ins ==> KnownSeverity(i.severity)
    ensures a == b
  {
    hide Rank, MoreSevere;
    MoreSevereIsRank(a, b);
    MoreSevereIsRank(b, a);
    RankIsPosition(a);
    RankIsPosition(b);
    assert Rank(a) == Rank(b);
    assert KnownSeverity(a) && KnownSeverity(b);
  }

  /** The first threat type that is not empty. */
  function FirstThreat(ins: seq<Input>): Option<string> {
    if ins == [] then None
    else
      var before := FirstThreat(ins[..|ins| - 1]);
      if before.Some? then before else if Truthy(ins[|ins| - 1].threatType) then ins[|ins| - 1].threatType else None
  }

  /** The one merged field that depends on the order: the row keeps its threat type, or else takes the first
      non-empty one. */
  lemma {:induction false} FirstThreatWins(start: Option<Row>, value: string, ins: seq<Input>)
    requires NewSources(start, ins)
    ensures
      var after := RowAfter(start, value, ins);
      FirstThreat(Basis(start) + ins)
      == if after.Some? && Truthy(after.value.threatType) then after.value.threatType else None
    decreases |ins|
  {
    hide FirstThreat, RowAfter, Absorbed, Inserted, SourceList, Sources, NewSources;
    if ins == [] {
      NoInputs(start, value);
      assert Basis(start) + ins == Basis(start);
      FirstThreatOfOne(start);
    } else {
      var front, x := ins[..|ins| - 1], ins[|ins| - 1];
      assert ins == front + [x];
      NewSourcesFront(start, front, x);
      FirstThreatWins(start, value, front);
      SourcesAfter(start, value, front);
      RowAfterNext(start, value, front, x);
      assert Basis(start) + ins == Basis(start) + front + [x];
      FirstThreatNext(Basis(start) + front, x);
      var before := RowAfter(start, value, front);
      if before.Some? { AbsorbedNew(before.value, x); } else { InsertedSources(x, value); }
    }
  }

  lemma FirstThreatOfOne(start: Option<Row>)
    ensures FirstThreat(Basis(start))
         == if start.Some? && Truthy(start.value.threatType) then start.value.threatType else None
  {
    if start.Some? { assert Basis(start)[..0] == []; }
  }

  lemma FirstThreatNext(ins: seq<Input>, x: Input)
    ensures FirstThreat(ins + [x])
         == if FirstThreat(ins).Some? then FirstThreat(ins) else if Truthy(x.threatType) then x.threatType else None
  {
    assert (ins + [x])[..|ins|] == ins;
  }

  // ---- Order independence ----------------------------------------------------------------------------

  lemma CarriedOnce(inputs: seq<Input>, norm: (string, string) -> string, n: nat, value: string)
    requires n <= |inputs|
    ensures Carried(inputs, {}, norm, n, value)
         == if n == 0 then []
            else
              var last := inputs[n - 1];
              Carried(inputs, {}, norm, n - 1, value) + if norm(last.kind, last.value) == value then [last] else []
  {
  }

  /** How often an input is carried: as often as it is in the batch, if it normalises to the value. */
  lemma {:induction false} CarriedCount(
    inputs: seq<Input>, norm: (string, string) -> string, n: nat, value: string, x: Input)
    requires n <= |inputs|
    ensures multiset(Carried(inputs, {}, norm, n, value))[x]
         == if norm(x.kind, x.value) == value then multiset(inputs[..n])[x] else 0
  {
    hide Carried;
    CarriedOnce(inputs, norm, n, value);
    if n > 0 {
      CarriedCount(inputs, norm, n - 1, value, x);
      assert inputs[..n] == inputs[..n - 1] + [inputs[n - 1]];
    }
  }

  /** A permuted batch carries a permutation of the same inputs for each value. */
  lemma CarriedPermuted(
    ins: seq<Input>, ins': seq<Input>, norm: (string, string) -> string, value: string)
    requires multiset(ins) == multiset(ins')
    ensures multiset(Carried(ins, {}, norm, |ins|, value)) == multiset(Carried(ins', {}, norm, |ins'|, value))
  {
    hide Carried;
    var a, b := Carried(ins, {}, norm, |ins|, value), Carried(ins', {}, norm, |ins'|, value);
    assert ins[..|ins|] == ins && ins'[..|ins'|] == ins';
    forall x ensures multiset(a)[x] == multiset(b)[x] {
      CarriedCount(ins, norm, |ins|, value, x);
      CarriedCount(ins', norm, |ins'|, value, x);
    }
  }

  lemma SameMembers(a: seq<Input>, b: seq<Input>)
    requires multiset(a) == multiset(b)
    ensures |a| == |b| && forall i :: i in a <==> i in b
  {
    assert |multiset(a)| == |a| && |multiset(b)| == |b|;
    assert forall i :: i in a <==> i in multiset(a);
    assert forall i :: i in b <==> i in multiset(b);
  }

  lemma SourceMembers(ins: seq<Input>, source: string)
    ensures source in SourceList(ins) <==> exists i :: i in ins && i.source == source
    ensures NoDuplicates(SourceList(ins)) <==> DistinctSources(ins)
  {
    hide SourceList;
    if source in SourceList(ins) {
      var k :| 0 <= k < |ins| && SourceList(ins)[k] == source;
      assert ins[k] in ins;
    }
    if i :| i in ins && i.source == source {
      var k :| 0 <= k < |ins| && ins[k] == i;
      assert SourceList(ins)[k] == source;
    }
  }

  /** Distinctness of the sources does not depend on the order either. */
  lemma SourcesPermuted(start: Option<Row>, a: seq<Input>, b: seq<Input>)
    requires multiset(a) == multiset(b) && NewSources(start, a)
    ensures NewSources(start, b) && Elements(SourceList(a)) == Elements(SourceList(b))
  {
    hide SourceList;
    SameMembers(a, b);
    forall source ensures source in Elements(SourceList(a)) <==> source in Elements(SourceList(b)) {
      SourceMembers(a, source);
      SourceMembers(b, source);
    }
    assert Elements(SourceList(a)) == Elements(SourceList(b));
    SourceMembers(a, "");
    SourceMembers(b, "");
    DuplicateFreeCount(SourceList(a));
    DuplicateFreeCount(SourceList(b));
    forall k | 0 <= k < |b| ensures b[k].source !in StartSources(start) {
      assert b[k] in b;
      var j :| 0 <= j < |a| && a[j] == b[k];
    }
  }

  /** Everything a row says, except its number, its type, its first source and its threat type. */
  ghost predicate SaysTheSame(a: Row, b: Row) {
    && a.value == b.value && a.confidence == b.confidence && a.severity == b.severity
    && a.firstSeen == b.firstSeen && a.lastSeen == b.lastSeen && TagSet(a.tags) == TagSet(b.tags)
    && Elements(Sources(a)) == Elements(Sources(b))
  }

  lemma {:induction false} RowAfterValue(start: Option<Row>, value: string, ins: seq<Input>)
    requires start.Some? ==> start.value.value == value
    ensures RowAfter(start, value, ins).Some? ==> RowAfter(start, value, ins).value.value == value
    decreases |ins|
  {
    hide Absorbed;
    if ins != [] {
      var before := RowAfter(start, value, ins[..|ins| - 1]);
      RowAfterValue(start, value, ins[..|ins| - 1]);
      if before.Some? { AbsorbedKeeps(before.value, ins[|ins| - 1]); }
    }
  }

  lemma RowOrder(start: Option<Row>, value: string, a: seq<Input>, b: seq<Input>)
    requires multiset(a) == multiset(b) && NewSources(start, a) && ValidStart(start)
    requires start.Some? ==> start.value.value == value
    requires forall i :: i in a ==> ValidInput(i)
    ensures
      var after, after' := RowAfter(start, value, a), RowAfter(start, value, b);
      && (after.Some? <==> after'.Some?) && (after.Some? <==> start.Some? || a != [])
      && (after.Some? ==> SaysTheSame(after.value, after'.value) && Summarises(after.value, Basis(start) + a))
  {
    hide RowAfter, Summarises, ValidInput, NoDuplicates;
    SameMembers(a, b);
    SourcesPermuted(start, a, b);
    SummaryHolds(start, value, a);
    SummaryHolds(start, value, b);
    SourcesAfter(start, value, a);
    SourcesAfter(start, value, b);
    RowAfterValue(start, value, a);
    RowAfterValue(start, value, b);
    var after, after' := RowAfter(start, value, a), RowAfter(start, value, b);
    if after.Some? {
      ValidIsKnown(Basis(start) + a);
      SummaryIsUnique(after.value, after'.value, Basis(start) + a, Basis(start) + b);
      assert Elements(StartSources(start) + SourceList(a)) == Elements(StartSources(start)) + Elements(SourceList(a));
      assert Elements(StartSources(start) + SourceList(b)) == Elements(StartSources(start)) + Elements(SourceList(b));
    }
  }

  lemma ValidIsKnown(ins: seq<Input>)
    requires forall i :: i in ins ==> ValidInput(i)
    ensures forall i :: i in ins ==> KnownSeverity(i.severity)
  {
  }

  /** Order independence of whole batches, over any table and any mixture of values. Take two orders of one
      batch, and a value whose inputs come from sources distinct from each other and from those its stored
      row, if any, has recorded. Both orders end with a row for the value or neither does, and the rows say the
      same: the maximum confidence, the most severe severity, the earliest and latest sighting and the union of
      the tags of the stored row and the inputs, and the same set of sources. */
  lemma OrderIndependence(
    rows: seq<Row>, ins: seq<Input>, ins': seq<Input>, norm: (string, string) -> string, value: string)
    requires multiset(ins) == multiset(ins')
    requires ValidStart(RowOf(rows, value)) && NewSources(RowOf(rows, value), Carried(ins, {}, norm, |ins|, value))
    requires forall i :: i in Carried(ins, {}, norm, |ins|, value) ==> ValidInput(i)
    ensures
      var start, carried := RowOf(rows, value), Carried(ins, {}, norm, |ins|, value);
      var a, b := RowOf(Batch(rows, ins, {}, norm, |ins|), value), RowOf(Batch(rows, ins', {}, norm, |ins'|), value);
      && (a.Some? <==> b.Some?) && (a.Some? <==> start.Some? || carried != [])
      && (a.Some? ==> SaysTheSame(a.value, b.value) && Summarises(a.value, Basis(start) + carried))
  {
    hide Batch, Carried, RowAfter, ValidInput, NewSources, ValidStart, SaysTheSame, Summarises, FindValue;
    CarriedPermuted(ins, ins', norm, value);
    ValuesDoNotInterfere(rows, ins, {}, norm, |ins|, value);
    ValuesDoNotInterfere(rows, ins', {}, norm, |ins'|, value);
    RowOrder(RowOf(rows, value), value, Carried(ins, {}, norm, |ins|, value), Carried(ins', {}, norm, |ins'|, value));
  }
}
