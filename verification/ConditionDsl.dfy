/** The playbook condition evaluator and the laws its two surface syntaxes promise. */
module ConditionDsl {

  /** JSON-like values, with JavaScript's undefined. */
  datatype Value =
    | Undefined | Null | Bool(b: bool) | Num(n: real) | Str(s: string)
    | Arr(items: seq<Value>) | Obj(fields: seq<Field>)

  datatype Field = Field(key: string, value: Value)

  predicate IsObject(v: Value) {
    v.Obj? || v.Arr?
  }

  predicate Truthy(v: Value) {
    match v
    case Undefined => false
    case Null => false
    case Bool(b) => b
    case Num(n) => n != 0.0
    case Str(s) => s != ""
    case _ => true
  }

  /** `===`: a condition and an event never share an object, so objects and arrays are never equal. */
  predicate StrictEq(a: Value, b: Value) {
    !IsObject(a) && a == b
  }

  predicate Includes(items: seq<Value>, v: Value) {
    exists i :: 0 <= i < |items| && StrictEq(items[i], v)
  }

  function Lookup(fields: seq<Field>, key: string): Value {
    if fields == [] then Undefined
    else if fields[0].key == key then fields[0].value
    else Lookup(fields[1..], key)
  }

  function GetProp(v: Value, key: string): Value {
    if v.Obj? then Lookup(v.fields, key) else Undefined
  }

  predicate FirstWith(fields: seq<Field>, i: int, key: string) {
    0 <= i < |fields| && fields[i].key == key && forall j :: 0 <= j < i ==> fields[j].key != key
  }

  /** Reading a key gives the value of the first field that has it, and undefined when none has, or when there are
      no fields at all. */
  lemma {:induction false} LookupIs(fields: seq<Field>, key: string)
    ensures (forall i :: 0 <= i < |fields| ==> fields[i].key != key) ==> Lookup(fields, key) == Undefined
    ensures forall i :: FirstWith(fields, i, key) ==> Lookup(fields, key) == fields[i].value
  {
    if fields != [] && fields[0].key != key {
      var rest := fields[1..];
      LookupIs(rest, key);
      assert forall i :: 0 < i < |fields| ==> fields[i] == rest[i - 1];
      forall i | FirstWith(fields, i, key) ensures Lookup(fields, key) == fields[i].value {
        assert forall j :: 0 <= j < i - 1 ==> rest[j] == fields[j + 1];
        assert FirstWith(rest, i - 1, key);
      }
    }
  }

  lemma PropertyIs(v: Value, key: string)
    ensures !v.Obj? ==> GetProp(v, key) == Undefined
    ensures v.Obj? ==> forall i :: FirstWith(v.fields, i, key) ==> GetProp(v, key) == v.fields[i].value
    ensures v.Obj? && (forall i :: 0 <= i < |v.fields| ==> v.fields[i].key != key) ==> GetProp(v, key) == Undefined
  {
    if v.Obj? { LookupIs(v.fields, key); }
  }

  // ---- Reading dotted keys ---------------------------------------------------------

  /** Split at dots; always at least one part. */
  function Split(key: string): (parts: seq<string>)
    ensures parts != []
  {
    if key == "" then [""]
    else
      var rest := Split(key[1..]);
      if key[0] == '.' then [""] + rest else [[key[0]] + rest[0]] + rest[1..]
  }

  function Walk(cur: Value, parts: seq<string>): Value
    decreases |parts|
  {
    if parts == [] then cur
    else if !IsObject(cur) then Undefined
    else Walk(GetProp(cur, parts[0]), parts[1..])
  }

  function GetNested(data: Value, key: string): Value {
    if '.' !in key then GetProp(data, key) else Walk(data, Split(key))
  }

  method ReadNested(data: Value, key: string) returns (v: Value)
    ensures v == GetNested(data, key)
  {
    if '.' !in key { return GetProp(data, key); }
    var parts := Split(key);
    v := data;
    assert parts[0..] == parts;
    for n := 0 to |parts|
      invariant Walk(v, parts[n..]) == Walk(data, parts)
    {
      assert parts[n..][0] == parts[n] && parts[n..][1..] == parts[n + 1..];
      if !IsObject(v) { return Undefined; }
      v := GetProp(v, parts[n]);
    }
  }

  // ---- Evaluation --------------------------------------------------------------------

  const OPERATORS: set<string> :=
    {"$eq", "$ne", "$in", "$nin", "$gt", "$gte", "$lt", "$lte", "$exists", "$regex", "$and", "$or", "$not"}

  predicate StartsWithDollar(s: string) {
    s != "" && s[0] == '$'
  }

  predicate CompareNum(a: Value, b: Value, op: string) {
    a.Num? && b.Num? &&
    match op
    case "$gt" => a.n > b.n
    case "$gte" => a.n >= b.n
    case "$lt" => a.n < b.n
    case "$lte" => a.n <= b.n
    case _ => false
  }

  /** The regular-expression engine: (pattern, text); false for a pattern that does not compile. */
  type Matcher = (string, string) -> bool

  predicate MatchValue(actual: Value, clause: Value, rx: Matcher)
    decreases clause, 0
  {
    match clause
    case Obj(fields) => MatchFields(actual, fields, rx)
    case Arr(items) => Includes(items, actual)
    case _ => StrictEq(clause, actual)
  }

  predicate MatchFields(actual: Value, fields: seq<Field>, rx: Matcher)
    decreases fields, 2
  {
    fields == [] || (MatchField(actual, fields[0], rx) && MatchFields(actual, fields[1..], rx))
  }

  predicate MatchField(actual: Value, f: Field, rx: Matcher)
    decreases f, 1
  {
    match f.key
    case "$eq" => StrictEq(f.value, actual)
    case "$ne" => !StrictEq(f.value, actual)
    case "$in" => f.value.Arr? && Includes(f.value.items, actual)
    case "$nin" => f.value.Arr? && !Includes(f.value.items, actual)
    case "$gt" => CompareNum(actual, f.value, "$gt")
    case "$gte" => CompareNum(actual, f.value, "$gte")
    case "$lt" => CompareNum(actual, f.value, "$lt")
    case "$lte" => CompareNum(actual, f.value, "$lte")
    case "$exists" => Truthy(f.value) == (actual != Undefined && actual != Null)
    case "$regex" => f.value.Str? && actual.Str? && rx(f.value.s, actual.s)
    case _ =>
      !StartsWithDollar(f.key) && IsObject(actual) && MatchValue(GetProp(actual, f.key), f.value, rx)
  }

  /** Decimal digits: the keys `Object.entries` gives the elements of an array or a string. */
  function Index(i: nat): string {
    (if i < 10 then "" else Index(i / 10)) + [['0', '1', '2', '3', '4', '5', '6', '7', '8', '9'][i % 10]]
  }

  predicate Evaluate(node: Value, data: Value, rx: Matcher)
    decreases node, 0
  {
    match node
    case Obj(fields) => EvaluateFields(fields, data, rx)
    case Arr(items) => forall i :: 0 <= i < |items| ==> MatchValue(GetProp(data, Index(i)), items[i], rx)
    case Str(s) => forall i :: 0 <= i < |s| ==> MatchValue(GetProp(data, Index(i)), Str([s[i]]), rx)
    case _ => true
  }

  predicate EvaluateFields(fields: seq<Field>, data: Value, rx: Matcher)
    decreases fields, 2
  {
    fields == [] || (EvaluateField(fields[0], data, rx) && EvaluateFields(fields[1..], data, rx))
  }

  predicate EvaluateField(f: Field, data: Value, rx: Matcher)
    decreases f, 1
  {
    if f.key == "$and" then
      f.value.Arr? && forall i :: 0 <= i < |f.value.items| ==> Evaluate(f.value.items[i], data, rx)
    else if f.key == "$or" then
      f.value.Arr? && exists i :: 0 <= i < |f.value.items| && Evaluate(f.value.items[i], data, rx)
    else if f.key == "$not" then !Evaluate(f.value, data, rx)
    else if f.key in OPERATORS then false
    else MatchValue(GetNested(data, f.key), f.value, rx)
  }

  // ---- One field at a time -------------------------------------------------------------

  lemma {:induction false} MatchFieldsAll(actual: Value, fields: seq<Field>, rx: Matcher)
    ensures MatchFields(actual, fields, rx) <==>
              forall i :: 0 <= i < |fields| ==> MatchField(actual, fields[i], rx)
  {
    if fields != [] {
      hide MatchField;
      MatchFieldsAll(actual, fields[1..], rx);
      assert forall i :: 0 < i < |fields| ==> fields[i] == fields[1..][i - 1];
    }
  }

  lemma {:induction false} EvaluateFieldsAll(fields: seq<Field>, data: Value, rx: Matcher)
    ensures EvaluateFields(fields, data, rx) <==>
              forall i :: 0 <= i < |fields| ==> EvaluateField(fields[i], data, rx)
  {
    if fields != [] {
      hide EvaluateField;
      EvaluateFieldsAll(fields[1..], data, rx);
      assert forall i :: 0 < i < |fields| ==> fields[i] == fields[1..][i - 1];
    }
  }

  lemma OneField(f: Field, data: Value, rx: Matcher)
    ensures Evaluate(Obj([f]), data, rx) == EvaluateField(f, data, rx)
    ensures forall actual :: MatchValue(actual, Obj([f]), rx) == MatchField(actual, f, rx)
  {
    hide EvaluateField;
    hide MatchField;
    EvaluateFieldsAll([f], data, rx);
    forall actual ensures MatchValue(actual, Obj([f]), rx) == MatchField(actual, f, rx) {
      MatchFieldsAll(actual, [f], rx);
    }
  }

  // ---- What the operators mean ------------------------------------------------------------

  /** The clause with this one operator. */
  function Op(op: string, arg: Value): Value {
    Obj([Field(op, arg)])
  }

  lemma OneOperator(actual: Value, op: string, arg: Value, rx: Matcher)
    ensures MatchValue(actual, Op(op, arg), rx) == MatchField(actual, Field(op, arg), rx)
  {
    OneField(Field(op, arg), Undefined, rx);
  }

  /** The four comparisons on two numbers, each with its complement; anything that is not a number, a missing
      field included, satisfies none of them. */
  lemma Comparisons(actual: Value, arg: Value, rx: Matcher)
    ensures
      var gt, gte := MatchValue(actual, Op("$gt", arg), rx), MatchValue(actual, Op("$gte", arg), rx);
      var lt, lte := MatchValue(actual, Op("$lt", arg), rx), MatchValue(actual, Op("$lte", arg), rx);
      if actual.Num? && arg.Num? then
        && (gt <==> arg.n < actual.n) && (lt <==> actual.n < arg.n) && gt == !lte && lt == !gte
        && (gte <==> gt || actual.n == arg.n) && (lte <==> lt || actual.n == arg.n)
      else !gt && !gte && !lt && !lte
  {
    hide MatchValue, MatchField;
    OneOperator(actual, "$gt", arg, rx);
    OneOperator(actual, "$gte", arg, rx);
    OneOperator(actual, "$lt", arg, rx);
    OneOperator(actual, "$lte", arg, rx);
    ComparisonFields(actual, arg, rx);
  }

  lemma ComparisonFields(actual: Value, arg: Value, rx: Matcher)
    ensures MatchField(actual, Field("$gt", arg), rx) <==> actual.Num? && arg.Num? && arg.n < actual.n
    ensures MatchField(actual, Field("$gte", arg), rx) <==> actual.Num? && arg.Num? && arg.n <= actual.n
    ensures MatchField(actual, Field("$lt", arg), rx) <==> actual.Num? && arg.Num? && actual.n < arg.n
    ensures MatchField(actual, Field("$lte", arg), rx) <==> actual.Num? && arg.Num? && actual.n <= arg.n
  {
  }

  /** `$eq` and `$ne` are complements on everything: equal are two equal values that are not objects or arrays.
      `$in` and `$nin` are complements on every list, `$in` meaning equal to some item; with anything but
      a list neither holds. A plain list means `$in` and a plain value `$eq`. */
  lemma Equalities(actual: Value, arg: Value, rx: Matcher)
    ensures
      var eq, ne := MatchValue(actual, Op("$eq", arg), rx), MatchValue(actual, Op("$ne", arg), rx);
      var isIn, isNot := MatchValue(actual, Op("$in", arg), rx), MatchValue(actual, Op("$nin", arg), rx);
      && (eq <==> actual == arg && !actual.Obj? && !actual.Arr?) && ne == !eq
      && (arg.Arr? ==>
            && (isIn <==> exists v :: v in arg.items && MatchValue(actual, Op("$eq", v), rx))
            && isNot == !isIn && MatchValue(actual, arg, rx) == isIn)
      && (!arg.Arr? ==> !isIn && !isNot)
      && (!arg.Obj? && !arg.Arr? ==> MatchValue(actual, arg, rx) == eq)
  {
    OneOperator(actual, "$eq", arg, rx);
    OneOperator(actual, "$ne", arg, rx);
    OneOperator(actual, "$in", arg, rx);
    OneOperator(actual, "$nin", arg, rx);
    EqualityFields(actual, arg, rx);
    PlainClauses(actual, arg, rx);
    hide MatchValue, MatchField;
    if arg.Arr? {
      forall v | v in arg.items ensures MatchValue(actual, Op("$eq", v), rx) == StrictEq(v, actual) {
        OneOperator(actual, "$eq", v, rx);
        EqualityFields(actual, v, rx);
      }
    }
  }

  lemma EqualityFields(actual: Value, arg: Value, rx: Matcher)
    ensures MatchField(actual, Field("$eq", arg), rx) == StrictEq(arg, actual)
    ensures MatchField(actual, Field("$ne", arg), rx) == !StrictEq(arg, actual)
    ensures MatchField(actual, Field("$in", arg), rx) <==> arg.Arr? && Includes(arg.items, actual)
    ensures MatchField(actual, Field("$nin", arg), rx) <==> arg.Arr? && !Includes(arg.items, actual)
  {
  }

  lemma PlainClauses(actual: Value, arg: Value, rx: Matcher)
    ensures arg.Arr? ==> MatchValue(actual, arg, rx) == Includes(arg.items, actual)
    ensures !arg.Obj? && !arg.Arr? ==> MatchValue(actual, arg, rx) == StrictEq(arg, actual)
  {
  }

  /** `$exists` asks for a field that is there and not null, or with a falsy argument for one that is not; `$regex`
      for a text that the engine accepts; and an operator nobody knows is never satisfied. */
  lemma OtherOperators(actual: Value, arg: Value, op: string, rx: Matcher)
    ensures
      var there := actual != Undefined && actual != Null;
      && MatchValue(actual, Op("$exists", Bool(true)), rx) == there
      && MatchValue(actual, Op("$exists", Bool(false)), rx) == !there
      && MatchValue(actual, Op("$exists", arg), rx) == (if Truthy(arg) then there else !there)
      && (MatchValue(actual, Op("$regex", arg), rx) <==> actual.Str? && arg.Str? && rx(arg.s, actual.s))
      && (op != "" && op[0] == '$' && op !in OPERATORS ==> !MatchValue(actual, Op(op, arg), rx))
  {
    OneOperator(actual, "$exists", Bool(true), rx);
    OneOperator(actual, "$exists", Bool(false), rx);
    OneOperator(actual, "$exists", arg, rx);
    OneOperator(actual, "$regex", arg, rx);
    OneOperator(actual, op, arg, rx);
    OtherFields(actual, arg, op, rx);
    hide MatchValue, MatchField;
  }

  lemma OtherFields(actual: Value, arg: Value, op: string, rx: Matcher)
    ensures MatchField(actual, Field("$exists", arg), rx) == (Truthy(arg) == (actual != Undefined && actual != Null))
    ensures MatchField(actual, Field("$exists", Bool(true)), rx) == (actual != Undefined && actual != Null)
    ensures MatchField(actual, Field("$exists", Bool(false)), rx) == !(actual != Undefined && actual != Null)
    ensures MatchField(actual, Field("$regex", arg), rx) <==> arg.Str? && actual.Str? && rx(arg.s, actual.s)
    ensures op != "" && op[0] == '$' && op !in OPERATORS ==> !MatchField(actual, Field(op, arg), rx)
  {
  }

  /** A condition holds when all its entries do: each names a connective or a field. */
  lemma ConditionIsConjunction(fields: seq<Field>, data: Value, rx: Matcher)
    ensures Evaluate(Obj(fields), data, rx) <==>
              forall i :: 0 <= i < |fields| ==> Evaluate(Obj([fields[i]]), data, rx)
  {
    hide EvaluateField;
    EvaluateFieldsAll(fields, data, rx);
    forall i | 0 <= i < |fields| ensures Evaluate(Obj([fields[i]]), data, rx) == EvaluateField(fields[i], data, rx) {
      OneField(fields[i], data, rx);
    }
  }

  /** `$and` and `$or` over a list of conditions, `$not` over one; over anything but a list the first two fail, and
      so does an operator where a field is expected. A field is matched against what the event has under its name. */
  lemma ConnectivesMean(arg: Value, key: string, data: Value, rx: Matcher)
    ensures Evaluate(Op("$and", arg), data, rx) <==> arg.Arr? && forall v :: v in arg.items ==> Evaluate(v, data, rx)
    ensures Evaluate(Op("$or", arg), data, rx) <==> arg.Arr? && exists v :: v in arg.items && Evaluate(v, data, rx)
    ensures Evaluate(Op("$not", arg), data, rx) <==> !Evaluate(arg, data, rx)
    ensures key in OPERATORS && key !in {"$and", "$or", "$not"} ==> !Evaluate(Op(key, arg), data, rx)
    ensures key !in OPERATORS ==> Evaluate(Op(key, arg), data, rx) == MatchValue(GetNested(data, key), arg, rx)
  {
    OneField(Field("$and", arg), data, rx);
    OneField(Field("$or", arg), data, rx);
    OneField(Field("$not", arg), data, rx);
    OneField(Field(key, arg), data, rx);
    ConnectiveFields(arg, key, data, rx);
    hide Evaluate, EvaluateField, MatchValue, GetNested;
  }

  lemma ConnectiveFields(arg: Value, key: string, data: Value, rx: Matcher)
    ensures EvaluateField(Field("$and", arg), data, rx) <==>
              arg.Arr? && forall v :: v in arg.items ==> Evaluate(v, data, rx)
    ensures EvaluateField(Field("$or", arg), data, rx) <==>
              arg.Arr? && exists v :: v in arg.items && Evaluate(v, data, rx)
    ensures EvaluateField(Field("$not", arg), data, rx) <==> !Evaluate(arg, data, rx)
    ensures key in OPERATORS && key !in {"$and", "$or", "$not"} ==> !EvaluateField(Field(key, arg), data, rx)
    ensures key !in OPERATORS ==> EvaluateField(Field(key, arg), data, rx) == MatchValue(GetNested(data, key), arg, rx)
  {
    if arg.Arr? { ItemsByIndex(arg.items, data, rx); }
    ListFields(arg, data, rx);
    hide EvaluateField, Evaluate, MatchValue, GetNested;
    PlainFields(arg, key, data, rx);
  }

  lemma ListFields(arg: Value, data: Value, rx: Matcher)
    ensures EvaluateField(Field("$and", arg), data, rx) <==>
              arg.Arr? && forall i :: 0 <= i < |arg.items| ==> Evaluate(arg.items[i], data, rx)
    ensures EvaluateField(Field("$or", arg), data, rx) <==>
              arg.Arr? && exists i :: 0 <= i < |arg.items| && Evaluate(arg.items[i], data, rx)
  {
    hide Evaluate, MatchValue, GetNested;
  }

  lemma PlainFields(arg: Value, key: string, data: Value, rx: Matcher)
    ensures EvaluateField(Field("$not", arg), data, rx) <==> !Evaluate(arg, data, rx)
    ensures key in OPERATORS && key !in {"$and", "$or", "$not"} ==> !EvaluateField(Field(key, arg), data, rx)
    ensures key !in OPERATORS ==> EvaluateField(Field(key, arg), data, rx) == MatchValue(GetNested(data, key), arg, rx)
  {
    hide Evaluate, MatchValue, GetNested;
  }

  lemma ItemsByIndex(items: seq<Value>, data: Value, rx: Matcher)
    ensures (forall v :: v in items ==> Evaluate(v, data, rx))
       <==> forall i :: 0 <= i < |items| ==> Evaluate(items[i], data, rx)
    ensures (exists v :: v in items && Evaluate(v, data, rx))
       <==> exists i :: 0 <= i < |items| && Evaluate(items[i], data, rx)
  {
    hide Evaluate;
    assert forall i :: 0 <= i < |items| ==> items[i] in items;
  }

  /** The number a text of digits writes. */
  function Decimal(s: string): int {
    if s == "" then 0
    else
      var d := s[|s| - 1];
      if '0' <= d <= '9' then 10 * Decimal(s[..|s| - 1]) + (d as int - '0' as int) else -1
  }

  /** Index keys are the decimal numbers, without leading zeros. */
  lemma {:induction false} IndexIsDecimal(i: nat)
    ensures Index(i) != "" && Decimal(Index(i)) == i && (Index(i)[0] == '0' <==> i == 0)
    ensures forall k :: 0 <= k < |Index(i)| ==> '0' <= Index(i)[k] <= '9'
    decreases i
  {
    var d := LastDigit(i);
    hide Index, Decimal;
    if i >= 10 {
      IndexIsDecimal(i / 10);
      DecimalNext(Index(i / 10), d);
    } else {
      assert "" + [d] == [d];
      DecimalNext("", d);
    }
  }

  lemma LastDigit(i: nat) returns (d: char)
    ensures '0' <= d <= '9' && d as int - '0' as int == i % 10
    ensures Index(i) == (if i < 10 then "" else Index(i / 10)) + [d]
  {
    d := ['0', '1', '2', '3', '4', '5', '6', '7', '8', '9'][i % 10];
  }

  lemma DecimalNext(s: string, d: char)
    requires '0' <= d <= '9'
    ensures Decimal(s + [d]) == 10 * Decimal(s) + d as int - '0' as int && Decimal("") == 0
  {
    assert (s + [d])[..|s|] == s;
  }

  /** A list as a condition matches its items against what the event has under their indices, a text its characters;
      everything else that is not an object is always met. */
  lemma OtherConditions(node: Value, data: Value, rx: Matcher)
    requires !node.Obj?
    ensures Evaluate(node, data, rx) <==>
              && (node.Arr? ==> forall k: nat :: k < |node.items| ==>
                    MatchValue(GetProp(data, Index(k)), node.items[k], rx))
              && (node.Str? ==> forall k: nat :: k < |node.s| ==> GetProp(data, Index(k)) == Str([node.s[k]]))
  {
    hide GetProp, Index;
  }

  /** An object clause holds when all its entries do; an entry without a dollar sign looks inside the value, which
      has to be an object. */
  lemma ClauseIsConjunction(actual: Value, fields: seq<Field>, rx: Matcher)
    ensures MatchValue(actual, Obj(fields), rx) <==>
              forall i :: 0 <= i < |fields| ==> MatchValue(actual, Obj([fields[i]]), rx)
    ensures forall i :: 0 <= i < |fields| && !StartsWithDollar(fields[i].key) ==>
              (MatchValue(actual, Obj([fields[i]]), rx) <==>
                 IsObject(actual) && MatchValue(GetProp(actual, fields[i].key), fields[i].value, rx))
  {
    hide MatchField;
    MatchFieldsAll(actual, fields, rx);
    forall i | 0 <= i < |fields|
      ensures MatchValue(actual, Obj([fields[i]]), rx) == MatchField(actual, fields[i], rx)
      ensures !StartsWithDollar(fields[i].key) ==>
                (MatchField(actual, fields[i], rx) <==>
                   IsObject(actual) && MatchValue(GetProp(actual, fields[i].key), fields[i].value, rx))
    {
      OneField(fields[i], Undefined, rx);
      if !StartsWithDollar(fields[i].key) { NestedField(actual, fields[i], rx); }
    }
    hide MatchValue;
  }

  lemma NestedField(actual: Value, f: Field, rx: Matcher)
    requires !StartsWithDollar(f.key)
    ensures MatchField(actual, f, rx) <==> IsObject(actual) && MatchValue(GetProp(actual, f.key), f.value, rx)
  {
    hide MatchValue;
  }

  /** False, null, zero, the empty text and a missing value are falsy; nothing else is. */
  lemma Falsy(v: Value)
    ensures !Truthy(v) <==> v in {Undefined, Null, Bool(false), Num(0.0), Str("")}
  {
  }

  // ---- Key order -------------------------------------------------------------------

  /** Equal up to the order of object keys, at every depth. */
  ghost predicate Similar(u: Value, v: Value)
    decreases u, 0
  {
    match (u, v)
    case (Obj(fs), Obj(gs)) => Paired(fs, gs)
    case (Arr(us), Arr(vs)) => |us| == |vs| && forall i :: 0 <= i < |us| ==> Similar(us[i], vs[i])
    case _ => u == v
  }

  ghost predicate Paired(fs: seq<Field>, gs: seq<Field>)
    decreases fs, 3
  {
    && (forall f :: f in fs ==> Partnered(f, gs))
    && (forall g :: g in gs ==> PartnerOf(fs, g))
  }

  ghost predicate Partnered(f: Field, gs: seq<Field>)
    decreases f, 2
  {
    exists g :: g in gs && SimilarField(f, g)
  }

  ghost predicate PartnerOf(fs: seq<Field>, g: Field)
    decreases fs, 2
  {
    exists f :: f in fs && SimilarField(f, g)
  }

  ghost predicate SimilarField(f: Field, g: Field)
    decreases f, 1
  {
    f.key == g.key && Similar(f.value, g.value)
  }

  /** Every value is similar to itself. */
  lemma {:induction false} SimilarToItself(v: Value)
    ensures Similar(v, v)
    decreases v, 0
  {
    if v.Obj? {
      FieldsPairThemselves(v.fields);
    } else if v.Arr? {
      forall i | 0 <= i < |v.items| ensures Similar(v.items[i], v.items[i]) { SimilarToItself(v.items[i]); }
    }
  }

  lemma {:induction false} FieldsPairThemselves(fs: seq<Field>)
    ensures Paired(fs, fs) && forall f :: f in fs ==> SimilarField(f, f)
    decreases fs, 1
  {
    forall f | f in fs ensures SimilarField(f, f) && Partnered(f, fs) && PartnerOf(fs, f) {
      SimilarToItself(f.value);
      assert SimilarField(f, f);
    }
  }

  /** Whatever is done inside the values, and however the keys are then reordered, the objects are similar. */
  lemma Rearranged(fs: seq<Field>, hs: seq<Field>, gs: seq<Field>)
    requires |fs| == |hs| && forall i :: 0 <= i < |fs| ==> SimilarField(fs[i], hs[i])
    requires multiset(hs) == multiset(gs)
    ensures Similar(Obj(fs), Obj(gs))
  {
    hide SimilarField;
    forall f | f in fs ensures Partnered(f, gs) {
      var i :| 0 <= i < |fs| && fs[i] == f;
      assert hs[i] in multiset(hs);
    }
    forall g | g in gs ensures PartnerOf(fs, g) {
      assert g in multiset(gs);
      var i :| 0 <= i < |hs| && hs[i] == g;
      assert fs[i] in fs;
    }
    assert Paired(fs, gs);
  }

  /** In particular every reordering of the keys. */
  lemma Reordered(fs: seq<Field>, gs: seq<Field>)
    requires multiset(fs) == multiset(gs)
    ensures Similar(Obj(fs), Obj(gs))
  {
    FieldsPairThemselves(fs);
    Rearranged(fs, fs, gs);
  }

  lemma SimilarShape(u: Value, v: Value)
    requires Similar(u, v)
    ensures u.Obj? == v.Obj? && u.Arr? == v.Arr? && Truthy(u) == Truthy(v)
    ensures !IsObject(u) ==> u == v
    ensures forall a :: StrictEq(u, a) == StrictEq(v, a)
    ensures u.Arr? ==> |u.items| == |v.items| && forall i :: 0 <= i < |u.items| ==> Similar(u.items[i], v.items[i])
    ensures u.Obj? ==> Paired(u.fields, v.fields)
  {
  }

  lemma SimilarIncludes(us: seq<Value>, vs: seq<Value>, a: Value)
    requires |us| == |vs| && forall i :: 0 <= i < |us| ==> Similar(us[i], vs[i])
    ensures Includes(us, a) == Includes(vs, a)
  {
    hide Similar;
    forall i | 0 <= i < |us| ensures StrictEq(us[i], a) == StrictEq(vs[i], a) { SimilarShape(us[i], vs[i]); }
  }

  lemma {:induction false} SimilarMatch(actual: Value, u: Value, v: Value, rx: Matcher)
    requires Similar(u, v)
    ensures MatchValue(actual, u, rx) == MatchValue(actual, v, rx)
    decreases u, 0
  {
    SimilarShape(u, v);
    hide Similar;
    hide Paired;
    hide MatchFields;
    if u.Obj? {
      SimilarMatchFields(actual, u.fields, v.fields, rx);
    } else if u.Arr? {
      SimilarIncludes(u.items, v.items, actual);
    }
  }

  lemma {:induction false} SimilarMatchFields(actual: Value, fs: seq<Field>, gs: seq<Field>, rx: Matcher)
    requires Paired(fs, gs)
    ensures MatchFields(actual, fs, rx) == MatchFields(actual, gs, rx)
    decreases fs, 2
  {
    hide *;
    forall f, g | f in fs && g in gs && SimilarField(f, g)
      ensures MatchField(actual, f, rx) == MatchField(actual, g, rx)
    {
      SimilarMatchField(actual, f, g, rx);
    }
    PairedMatch(actual, fs, gs, rx);
  }

  /** What similar fields agree on holds of all fields on both sides or on neither. */
  lemma PairedAll(fs: seq<Field>, gs: seq<Field>, p: Field -> bool)
    requires Paired(fs, gs)
    requires forall f, g :: f in fs && g in gs && SimilarField(f, g) ==> p(f) == p(g)
    ensures (forall i :: 0 <= i < |fs| ==> p(fs[i])) <==> (forall j :: 0 <= j < |gs| ==> p(gs[j]))
  {
    hide SimilarField;
    if forall i :: 0 <= i < |fs| ==> p(fs[i]) {
      forall j | 0 <= j < |gs| ensures p(gs[j]) {
        assert PartnerOf(fs, gs[j]);
        var f :| f in fs && SimilarField(f, gs[j]);
      }
    }
    if forall j :: 0 <= j < |gs| ==> p(gs[j]) {
      forall i | 0 <= i < |fs| ensures p(fs[i]) {
        assert Partnered(fs[i], gs);
        var g :| g in gs && SimilarField(fs[i], g);
      }
    }
  }

  lemma PairedMatch(actual: Value, fs: seq<Field>, gs: seq<Field>, rx: Matcher)
    requires Paired(fs, gs)
    requires forall f, g :: f in fs && g in gs && SimilarField(f, g) ==>
               MatchField(actual, f, rx) == MatchField(actual, g, rx)
    ensures MatchFields(actual, fs, rx) == MatchFields(actual, gs, rx)
  {
    hide *;
    var p := (f: Field) => MatchField(actual, f, rx);
    PairedAll(fs, gs, p);
    MatchFieldsAll(actual, fs, rx);
    MatchFieldsAll(actual, gs, rx);
    assert forall f :: p(f) == MatchField(actual, f, rx);
  }

  lemma PairedEvaluate(fs: seq<Field>, gs: seq<Field>, data: Value, rx: Matcher)
    requires Paired(fs, gs)
    requires forall f, g :: f in fs && g in gs && SimilarField(f, g) ==>
               EvaluateField(f, data, rx) == EvaluateField(g, data, rx)
    ensures EvaluateFields(fs, data, rx) == EvaluateFields(gs, data, rx)
  {
    hide *;
    var p := (f: Field) => EvaluateField(f, data, rx);
    PairedAll(fs, gs, p);
    EvaluateFieldsAll(fs, data, rx);
    EvaluateFieldsAll(gs, data, rx);
    assert forall f :: p(f) == EvaluateField(f, data, rx);
  }

  lemma {:induction false} SimilarMatchField(actual: Value, f: Field, g: Field, rx: Matcher)
    requires SimilarField(f, g)
    ensures MatchField(actual, f, rx) == MatchField(actual, g, rx)
    decreases f, 1
  {
    hide Similar;
    hide SimilarField;
    hide Includes;
    hide MatchValue;
    hide StrictEq;
    hide Truthy;
    hide GetProp;
    SimilarParts(f, g);
    SimilarMatch(GetProp(actual, f.key), f.value, g.value, rx);
    SimilarShape(f.value, g.value);
    if f.value.Arr? { SimilarIncludes(f.value.items, g.value.items, actual); }
  }

  lemma SimilarParts(f: Field, g: Field)
    requires SimilarField(f, g)
    ensures f.key == g.key && Similar(f.value, g.value)
  {
  }

  /** Reordering keys anywhere in a condition changes nothing. */
  lemma {:induction false} KeyOrderIrrelevant(u: Value, v: Value, data: Value, rx: Matcher)
    requires Similar(u, v)
    ensures Evaluate(u, data, rx) == Evaluate(v, data, rx)
    decreases u, 0
  {
    SimilarShape(u, v);
    hide Similar;
    hide Paired;
    hide EvaluateFields;
    hide MatchValue;
    if u.Obj? {
      SimilarEvaluateFields(u.fields, v.fields, data, rx);
    } else if u.Arr? {
      forall i | 0 <= i < |u.items|
        ensures MatchValue(GetProp(data, Index(i)), u.items[i], rx)
             == MatchValue(GetProp(data, Index(i)), v.items[i], rx)
      {
        SimilarMatch(GetProp(data, Index(i)), u.items[i], v.items[i], rx);
      }
    }
  }

  lemma {:induction false} SimilarEvaluateFields(fs: seq<Field>, gs: seq<Field>, data: Value, rx: Matcher)
    requires Paired(fs, gs)
    ensures EvaluateFields(fs, data, rx) == EvaluateFields(gs, data, rx)
    decreases fs, 2
  {
    hide *;
    forall f, g | f in fs && g in gs && SimilarField(f, g)
      ensures EvaluateField(f, data, rx) == EvaluateField(g, data, rx)
    {
      SimilarEvaluateField(f, g, data, rx);
    }
    PairedEvaluate(fs, gs, data, rx);
  }

  lemma {:induction false} SimilarEvaluateField(f: Field, g: Field, data: Value, rx: Matcher)
    requires SimilarField(f, g)
    ensures EvaluateField(f, data, rx) == EvaluateField(g, data, rx)
    decreases f, 1
  {
    SimilarParts(f, g);
    SimilarShape(f.value, g.value);
    hide Similar;
    if f.key == "$and" || f.key == "$or" {
      if f.value.Arr? {
        forall i | 0 <= i < |f.value.items|
          ensures Evaluate(f.value.items[i], data, rx) == Evaluate(g.value.items[i], data, rx)
        {
          KeyOrderIrrelevant(f.value.items[i], g.value.items[i], data, rx);
        }
      }
    } else if f.key == "$not" {
      KeyOrderIrrelevant(f.value, g.value, data, rx);
    } else {
      SimilarMatch(GetNested(data, f.key), f.value, g.value, rx);
    }
    hide MatchValue;
    hide Evaluate;
  }

  // ---- Legacy syntax ------------------------------------------------------------------

  /** A clause in operator syntax: a scalar becomes `$eq`, an array becomes `$in`, and nested
      objects are rewritten throughout. Operator arguments stay as they are. */
  function ModernClause(clause: Value): Value
    decreases clause, 0
  {
    match clause
    case Obj(fields) => Obj(ModernFields(fields))
    case Arr(_) => Obj([Field("$in", clause)])
    case _ => Obj([Field("$eq", clause)])
  }

  function ModernFields(fields: seq<Field>): (r: seq<Field>)
    ensures |r| == |fields|
    ensures forall i :: 0 <= i < |fields| ==> r[i] == ModernField(fields[i])
    decreases fields, 2
  {
    if fields == [] then [] else [ModernField(fields[0])] + ModernFields(fields[1..])
  }

  function ModernField(f: Field): Field
    decreases f, 1
  {
    if StartsWithDollar(f.key) then f else Field(f.key, ModernClause(f.value))
  }

  /** A whole condition in operator syntax. */
  function ModernNode(node: Value): Value
    decreases node, 0
  {
    if node.Obj? then Obj(ModernEntries(node.fields)) else node
  }

  function ModernNodes(nodes: seq<Value>): (r: seq<Value>)
    ensures |r| == |nodes|
    ensures forall i :: 0 <= i < |nodes| ==> r[i] == ModernNode(nodes[i])
    decreases nodes, 2
  {
    if nodes == [] then [] else [ModernNode(nodes[0])] + ModernNodes(nodes[1..])
  }

  function ModernEntries(fields: seq<Field>): (r: seq<Field>)
    ensures |r| == |fields|
    ensures forall i :: 0 <= i < |fields| ==> r[i] == ModernEntry(fields[i])
    decreases fields, 2
  {
    if fields == [] then [] else [ModernEntry(fields[0])] + ModernEntries(fields[1..])
  }

  function ModernEntry(f: Field): Field
    decreases f, 1
  {
    if f.key == "$and" || f.key == "$or" then
      if f.value.Arr? then Field(f.key, Arr(ModernNodes(f.value.items))) else f
    else if f.key == "$not" then Field(f.key, ModernNode(f.value))
    else if f.key in OPERATORS then f
    else Field(f.key, ModernClause(f.value))
  }

  lemma {:induction false} ModernClauseMatches(actual: Value, clause: Value, rx: Matcher)
    ensures MatchValue(actual, ModernClause(clause), rx) == MatchValue(actual, clause, rx)
    decreases clause, 0
  {
    match clause
    case Obj(fields) =>
      MatchFieldsAll(actual, fields, rx);
      MatchFieldsAll(actual, ModernFields(fields), rx);
      forall i | 0 <= i < |fields|
        ensures MatchField(actual, ModernFields(fields)[i], rx) == MatchField(actual, fields[i], rx)
      {
        ModernFieldMatches(actual, fields[i], rx);
      }
      hide MatchField;
      hide ModernField;
    case Arr(items) => OneField(Field("$in", clause), Null, rx);
    case _ => OneField(Field("$eq", clause), Null, rx);
  }

  lemma {:induction false} ModernFieldMatches(actual: Value, f: Field, rx: Matcher)
    ensures MatchField(actual, ModernField(f), rx) == MatchField(actual, f, rx)
    decreases f, 1
  {
    if !StartsWithDollar(f.key) {
      PlainField(actual, f, rx);
      PlainField(actual, ModernField(f), rx);
      ModernClauseMatches(GetProp(actual, f.key), f.value, rx);
    }
  }

  lemma PlainField(actual: Value, f: Field, rx: Matcher)
    requires !StartsWithDollar(f.key)
    ensures MatchField(actual, f, rx) <==> IsObject(actual) && MatchValue(GetProp(actual, f.key), f.value, rx)
  {
    hide MatchValue;
  }

  /** The two syntaxes agree: rewriting every legacy scalar to `$eq` and every legacy array to `$in`,
      at any depth, preserves every condition's meaning on every event. */
  lemma {:induction false} SyntaxesAgree(node: Value, data: Value, rx: Matcher)
    ensures Evaluate(ModernNode(node), data, rx) == Evaluate(node, data, rx)
    decreases node, 0
  {
    if node.Obj? {
      var fs, gs := node.fields, ModernEntries(node.fields);
      EvaluateFieldsAll(fs, data, rx);
      EvaluateFieldsAll(gs, data, rx);
      forall i | 0 <= i < |fs| ensures EvaluateField(gs[i], data, rx) == EvaluateField(fs[i], data, rx) {
        ModernEntryAgrees(fs[i], data, rx);
      }
      hide EvaluateField;
      hide ModernEntry;
    }
  }

  lemma {:induction false} ModernEntryAgrees(f: Field, data: Value, rx: Matcher)
    ensures EvaluateField(ModernEntry(f), data, rx) == EvaluateField(f, data, rx)
    decreases f, 1
  {
    if f.key == "$and" || f.key == "$or" {
      if f.value.Arr? {
        var nodes := f.value.items;
        forall i | 0 <= i < |nodes|
          ensures Evaluate(ModernNodes(nodes)[i], data, rx) == Evaluate(nodes[i], data, rx)
        {
          SyntaxesAgree(nodes[i], data, rx);
        }
        hide Evaluate;
        hide ModernNode;
      }
    } else if f.key == "$not" {
      SyntaxesAgree(f.value, data, rx);
    } else {
      ModernClauseMatches(GetNested(data, f.key), f.value, rx);
    }
  }

  /** No legacy clause is left: wherever a condition binds a field, it binds it to an object. */
  ghost predicate Modern(clause: Value)
    decreases clause, 0
  {
    clause.Obj? && forall i :: 0 <= i < |clause.fields| ==>
      (!StartsWithDollar(clause.fields[i].key) ==> ModernIn(clause.fields[i]))
  }

  ghost predicate ModernIn(f: Field)
    decreases f, 1
  {
    Modern(f.value)
  }

  lemma {:induction false} ModernClauseIsModern(clause: Value)
    ensures Modern(ModernClause(clause))
    decreases clause
  {
    if clause.Obj? {
      var fs := clause.fields;
      forall i | 0 <= i < |fs| && !StartsWithDollar(fs[i].key) ensures ModernIn(ModernFields(fs)[i]) {
        assert fs[i].value < fs[i];
        ModernClauseIsModern(fs[i].value);
      }
    }
  }

  ghost predicate ModernCondition(node: Value)
    decreases node, 0
  {
    node.Obj? ==> forall i :: 0 <= i < |node.fields| ==> ModernEntryIn(node.fields[i])
  }

  ghost predicate ModernEntryIn(f: Field)
    decreases f, 1
  {
    if f.key == "$and" || f.key == "$or" then
      f.value.Arr? ==> forall i :: 0 <= i < |f.value.items| ==> ModernCondition(f.value.items[i])
    else if f.key == "$not" then ModernCondition(f.value)
    else f.key in OPERATORS || Modern(f.value)
  }

  lemma {:induction false} RewriteLeavesNoLegacy(node: Value)
    ensures ModernCondition(ModernNode(node))
    decreases node, 0
  {
    if node.Obj? {
      forall i | 0 <= i < |node.fields| ensures ModernEntryIn(ModernEntries(node.fields)[i]) {
        RewriteEntryLeavesNoLegacy(node.fields[i]);
      }
    }
  }

  lemma {:induction false} RewriteEntryLeavesNoLegacy(f: Field)
    ensures ModernEntryIn(ModernEntry(f))
    decreases f, 1
  {
    if f.key == "$and" || f.key == "$or" {
      if f.value.Arr? {
        forall i | 0 <= i < |f.value.items| ensures ModernCondition(ModernNodes(f.value.items)[i]) {
          RewriteLeavesNoLegacy(f.value.items[i]);
        }
      }
    } else if f.key == "$not" {
      RewriteLeavesNoLegacy(f.value);
    } else {
      ModernClauseIsModern(f.value);
    }
  }

  // ---- De Morgan -----------------------------------------------------------------------

  function Not(c: Value): Value {
    Obj([Field("$not", c)])
  }

  function And(cs: seq<Value>): Value {
    Obj([Field("$and", Arr(cs))])
  }

  function Or(cs: seq<Value>): Value {
    Obj([Field("$or", Arr(cs))])
  }

  function Negated(cs: seq<Value>): (r: seq<Value>)
    ensures |r| == |cs| && forall i :: 0 <= i < |cs| ==> r[i] == Not(cs[i])
  {
    if cs == [] then [] else [Not(cs[0])] + Negated(cs[1..])
  }

  /** `$not`, `$and` and `$or` obey De Morgan's laws on all condition lists, the empty one included,
      and double negation. */
  lemma DeMorgan(cs: seq<Value>, c: Value, data: Value, rx: Matcher)
    ensures Evaluate(Not(And(cs)), data, rx) == Evaluate(Or(Negated(cs)), data, rx)
    ensures Evaluate(Not(Or(cs)), data, rx) == Evaluate(And(Negated(cs)), data, rx)
    ensures Evaluate(Not(Not(c)), data, rx) == Evaluate(c, data, rx)
  {
    hide Evaluate;
    Connectives(cs, data, rx);
    Connectives(Negated(cs), data, rx);
    NotHolds(And(cs), data, rx);
    NotHolds(Or(cs), data, rx);
    NotHolds(c, data, rx);
    NotHolds(Not(c), data, rx);
    forall i | 0 <= i < |cs| ensures Evaluate(Negated(cs)[i], data, rx) == !Evaluate(cs[i], data, rx) {
      NotHolds(cs[i], data, rx);
    }
  }

  lemma NotHolds(c: Value, data: Value, rx: Matcher)
    ensures Evaluate(Not(c), data, rx) == !Evaluate(c, data, rx)
  {
    OneField(Field("$not", c), data, rx);
  }

  lemma Connectives(cs: seq<Value>, data: Value, rx: Matcher)
    ensures Evaluate(And(cs), data, rx) <==> forall i :: 0 <= i < |cs| ==> Evaluate(cs[i], data, rx)
    ensures Evaluate(Or(cs), data, rx) <==> exists i :: 0 <= i < |cs| && Evaluate(cs[i], data, rx)
  {
    OneField(Field("$and", Arr(cs)), data, rx);
    OneField(Field("$or", Arr(cs)), data, rx);
  }

  // ---- Nested objects and dotted keys -----------------------------------------------

  /** { p1: { p2: ... clause } } */
  function Nest(parts: seq<string>, clause: Value): Value {
    if parts == [] then clause else Obj([Field(parts[0], Nest(parts[1..], clause))])
  }

  function Join(parts: seq<string>): string {
    if parts == [] then ""
    else if |parts| == 1 then parts[0]
    else parts[0] + "." + Join(parts[1..])
  }

  predicate DotFree(parts: seq<string>) {
    forall i :: 0 <= i < |parts| ==> '.' !in parts[i]
  }

  lemma {:induction false} SplitPart(part: string, rest: string)
    requires '.' !in part
    ensures Split(part + "." + rest) == [part] + Split(rest)
    ensures Split(part) == [part]
  {
    if part == "" {
      assert "" + "." + rest == "." + rest && ("." + rest)[1..] == rest;
    } else {
      SplitPart(part[1..], rest);
      assert (part + "." + rest)[1..] == part[1..] + "." + rest;
      assert [part[0]] + part[1..] == part;
    }
  }

  lemma {:induction false} SplitJoin(parts: seq<string>)
    requires parts != [] && DotFree(parts)
    ensures Split(Join(parts)) == parts
    ensures |parts| > 1 ==> '.' in Join(parts)
  {
    if |parts| == 1 {
      SplitPart(parts[0], "");
    } else {
      SplitPart(parts[0], Join(parts[1..]));
      SplitJoin(parts[1..]);
      assert parts == [parts[0]] + parts[1..];
      assert Join(parts)[|parts[0]|] == '.';
    }
  }

  /** Every value on the way to the last part is an object. */
  predicate ParentsAreObjects(cur: Value, parts: seq<string>)
    decreases |parts|
  {
    |parts| <= 1 || (IsObject(GetProp(cur, parts[0])) && ParentsAreObjects(GetProp(cur, parts[0]), parts[1..]))
  }

  lemma {:induction false} NestedMatch(cur: Value, parts: seq<string>, clause: Value, rx: Matcher)
    requires parts != [] && IsObject(cur)
    requires forall i :: 0 <= i < |parts| ==> !StartsWithDollar(parts[i])
    ensures MatchValue(cur, Nest(parts, clause), rx) <==>
              ParentsAreObjects(cur, parts) && MatchValue(Walk(cur, parts), clause, rx)
    decreases |parts|, 0
  {
    hide MatchValue;
    var f := Field(parts[0], Nest(parts[1..], clause));
    OneField(f, Null, rx);
    PlainField(cur, f, rx);
    var next := GetProp(cur, parts[0]);
    if |parts| == 1 {
      assert Walk(next, parts[1..]) == next && Nest(parts[1..], clause) == clause;
    } else {
      NestedBelow(next, parts[1..], clause, rx);
    }
  }

  /** A nested-object clause holds exactly when its dotted-key form does and every parent on the path
      is an object, at any depth; when some parent is not, the dotted form reads undefined. */
  lemma NestedIffDotted(parts: seq<string>, clause: Value, data: Value, rx: Matcher)
    requires |parts| >= 2 && DotFree(parts) && data.Obj? && parts[0] !in OPERATORS
    requires forall i :: 1 <= i < |parts| ==> !StartsWithDollar(parts[i])
    ensures Evaluate(Nest(parts, clause), data, rx) <==>
              Evaluate(Obj([Field(Join(parts), clause)]), data, rx) && ParentsAreObjects(data, parts)
    ensures !ParentsAreObjects(data, parts) ==>
              Evaluate(Obj([Field(Join(parts), clause)]), data, rx) == MatchValue(Undefined, clause, rx)
  {
    hide MatchValue;
    hide Evaluate;
    SplitJoin(parts);
    DottedIsNoOperator(Join(parts));
    OneField(Field(parts[0], Nest(parts[1..], clause)), data, rx);
    OneField(Field(Join(parts), clause), data, rx);
    NestedBelow(GetProp(data, parts[0]), parts[1..], clause, rx);
    WalkFirst(data, parts);
    GetFirst(data, parts[0]);
    if !ParentsAreObjects(data, parts) { BrokenPath(data, parts); }
    hide EvaluateField;
    PlainEntry(Field(parts[0], Nest(parts[1..], clause)), data, rx);
    PlainEntry(Field(Join(parts), clause), data, rx);
  }

  lemma PlainEntry(f: Field, data: Value, rx: Matcher)
    requires f.key !in OPERATORS
    ensures EvaluateField(f, data, rx) == MatchValue(GetNested(data, f.key), f.value, rx)
  {
    hide MatchValue;
    hide GetNested;
  }

  lemma GetFirst(data: Value, part: string)
    requires '.' !in part
    ensures GetNested(data, part) == GetProp(data, part)
  {
  }

  lemma WalkFirst(data: Value, parts: seq<string>)
    requires parts != [] && IsObject(data)
    ensures Walk(data, parts) == Walk(GetProp(data, parts[0]), parts[1..])
  {
  }

  /** `NestedMatch` for a value that need not be an object. */
  lemma NestedBelow(next: Value, parts: seq<string>, clause: Value, rx: Matcher)
    requires parts != [] && forall i :: 0 <= i < |parts| ==> !StartsWithDollar(parts[i])
    ensures MatchValue(next, Nest(parts, clause), rx) <==>
              IsObject(next) && ParentsAreObjects(next, parts) && MatchValue(Walk(next, parts), clause, rx)
    decreases |parts|, 1
  {
    hide MatchValue;
    if IsObject(next) {
      NestedMatch(next, parts, clause, rx);
    } else {
      OneField(Field(parts[0], Nest(parts[1..], clause)), Null, rx);
      PlainField(next, Field(parts[0], Nest(parts[1..], clause)), rx);
    }
  }

  lemma {:induction false} BrokenPath(cur: Value, parts: seq<string>)
    requires !ParentsAreObjects(cur, parts)
    ensures Walk(cur, parts) == Undefined
    decreases |parts|
  {
    if IsObject(GetProp(cur, parts[0])) { BrokenPath(GetProp(cur, parts[0]), parts[1..]); }
  }

  lemma DottedIsNoOperator(key: string)
    requires '.' in key
    ensures key !in OPERATORS
  {
  }
}
