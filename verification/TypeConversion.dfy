/**
 Parsing with repair, `parseWithTypeConversion`: a value that fails its schema is edited at the
 reported paths and parsed again, a bounded number of times.
 */
module TypeConversion {
  import opened Common

  /** A JSON value; the entries of an object are in key order. */
  datatype Json =
    | JNull
    | JBool(b: bool)
    | JNum(n: real)
    | JStr(s: string)
    | JArr(items: seq<Json>)
    | JObj(entries: seq<(string, Json)>)

  datatype Schema =
    | ZString
    | ZNumber
    | ZBoolean
    | ZEnum(values: seq<string>)
    | ZObject(fields: Fields)
    | ZArray(element: Schema)
    | ZOptional(inner: Schema)

  /** The fields of an object schema, in order. */
  datatype Fields = NoFields | Field(name: string, schema: Schema, rest: Fields)

  datatype Type = TString | TNumber | TBoolean | TObject | TArray | TNull | TUndefined | TOther

  datatype Step = Key(key: string) | Index(index: nat)

  /** A reported problem: a wrong type, or a value of the right type that is not allowed. */
  datatype Issue = Mismatch(path: seq<Step>, expected: Type, received: Type) | Refused(path: seq<Step>)

  function TypeOf(v: Option<Json>): Type {
    match v
    case None => TUndefined
    case Some(JNull) => TNull
    case Some(JBool(_)) => TBoolean
    case Some(JNum(_)) => TNumber
    case Some(JStr(_)) => TString
    case Some(JArr(_)) => TArray
    case Some(JObj(_)) => TObject
  }

  // ---------------------------------------------------------------- the schema library

  function Lookup(entries: seq<(string, Json)>, key: string): Option<Json> {
    if entries == [] then None else if entries[0].0 == key then Some(entries[0].1) else Lookup(entries[1..], key)
  }

  function Under(step: Step, issues: seq<Issue>): seq<Issue> {
    seq(|issues|, i requires 0 <= i < |issues| => issues[i].(path := [step] + issues[i].path))
  }

  function Wrong(expected: Type, v: Option<Json>): seq<Issue> { [Mismatch([], expected, TypeOf(v))] }

  /** Every problem of a value: a node of the wrong type is reported once and not entered. */
  function Issues(s: Schema, v: Option<Json>): seq<Issue>
    decreases s, 0
  {
    match s
    case ZString => if v.Some? && v.value.JStr? then [] else Wrong(TString, v)
    case ZNumber => if v.Some? && v.value.JNum? then [] else Wrong(TNumber, v)
    case ZBoolean => if v.Some? && v.value.JBool? then [] else Wrong(TBoolean, v)
    case ZEnum(values) =>
      if v.Some? && v.value.JStr? then if v.value.s in values then [] else [Refused([])] else Wrong(TOther, v)
    case ZObject(fields) => if v.Some? && v.value.JObj? then FieldIssues(fields, v.value.entries) else Wrong(TObject, v)
    case ZArray(element) => if v.Some? && v.value.JArr? then ItemIssues(element, v.value.items, 0) else Wrong(TArray, v)
    case ZOptional(inner) => if v.None? then [] else Issues(inner, v)
  }

  function FieldIssues(fields: Fields, entries: seq<(string, Json)>): seq<Issue>
    decreases fields, 1
  {
    match fields
    case NoFields => []
    case Field(name, schema, rest) => Under(Key(name), Issues(schema, Lookup(entries, name))) + FieldIssues(rest, entries)
  }

  function ItemIssues(element: Schema, items: seq<Json>, from: nat): seq<Issue>
    decreases element, 1, |items|
  {
    if items == [] then []
    else Under(Index(from), Issues(element, Some(items[0]))) + ItemIssues(element, items[1..], from + 1)
  }

  /** The parsed value: unknown keys are dropped. */
  function Output(s: Schema, v: Option<Json>): Option<Json>
    decreases s, 0
  {
    match s
    case ZObject(fields) => if v.Some? && v.value.JObj? then Some(JObj(FieldOutputs(fields, v.value.entries))) else v
    case ZArray(element) => if v.Some? && v.value.JArr? then Some(JArr(ItemOutputs(element, v.value.items))) else v
    case ZOptional(inner) => if v.None? then None else Output(inner, v)
    case _ => v
  }

  function FieldOutputs(fields: Fields, entries: seq<(string, Json)>): seq<(string, Json)>
    decreases fields, 1
  {
    match fields
    case NoFields => []
    case Field(name, schema, rest) =>
      var parsed := Output(schema, Lookup(entries, name));
      (if parsed.Some? then [(name, parsed.value)] else []) + FieldOutputs(rest, entries)
  }

  function ItemOutputs(element: Schema, items: seq<Json>): seq<Json>
    decreases element, 1, |items|
  {
    if items == [] then []
    else
      var parsed := Output(element, Some(items[0]));
      (if parsed.Some? then [parsed.value] else []) + ItemOutputs(element, items[1..])
  }

  function Names(fields: Fields): set<string> {
    match fields
    case NoFields => {}
    case Field(name, _, rest) => {name} + Names(rest)
  }

  /** The keys of an object schema are distinct, at every level. */
  ghost predicate WellFormed(s: Schema)
    decreases s, 0
  {
    match s
    case ZObject(fields) => WellFormedFields(fields)
    case ZArray(element) => WellFormed(element)
    case ZOptional(inner) => WellFormed(inner)
    case _ => true
  }

  ghost predicate WellFormedFields(fields: Fields)
    decreases fields, 1
  {
    match fields
    case NoFields => true
    case Field(name, schema, rest) => name !in Names(rest) && WellFormed(schema) && WellFormedFields(rest)
  }

  // ---------------------------------------------------------------- conversion

  /** Text functions of the language runtime. */
  datatype Runtime = Runtime(
    stringify: Json -> string,
    textOf: Json -> string,
    parseFloat: string -> Option<real>,
    parseJson: string -> Option<Json>,
    lowerTrim: string -> string)

  predicate AllDigits(k: string) { k != "" && forall i :: 0 <= i < |k| ==> '0' <= k[i] <= '9' }

  function Values(entries: seq<(string, Json)>): seq<Json> {
    seq(|entries|, i requires 0 <= i < |entries| => entries[i].1)
  }

  function ConvertValue(rt: Runtime, v: Json, expected: Type, received: Type): Option<Json> {
    match expected
    case TString =>
      if received == TObject || received == TArray then Some(JStr(rt.stringify(v)))
      else if received == TNumber || received == TBoolean then Some(JStr(rt.textOf(v)))
      else None
    case TNumber =>
      if received == TString && v.JStr? then
        var parsed := rt.parseFloat(v.s);
        if parsed.Some? then Some(JNum(parsed.value)) else None
      else if received == TBoolean && v.JBool? then Some(JNum(if v.b then 1.0 else 0.0))
      else None
    case TBoolean =>
      if received == TString && v.JStr? then
        var lower := rt.lowerTrim(v.s);
        if lower in {"true", "1", "yes"} then Some(JBool(true))
        else if lower in {"false", "0", "no"} then Some(JBool(false))
        else None
      else if received == TNumber && v.JNum? then Some(JBool(v.n != 0.0))
      else None
    case TObject =>
      if received == TString && v.JStr? then
        var parsed := rt.parseJson(v.s);
        if parsed.Some? && parsed.value.JObj? then parsed else None
      else None
    case TArray =>
      if received == TString && v.JStr? then
        var parsed := rt.parseJson(v.s);
        if parsed.Some? && parsed.value.JArr? then parsed else None
      else if received == TObject && v.JObj? && forall i :: 0 <= i < |v.entries| ==> AllDigits(v.entries[i].0) then
        Some(JArr(Values(v.entries)))
      else None
    case _ => None
  }

  function GetValueAtPath(v: Json, path: seq<Step>): Option<Json>
    decreases |path|
  {
    if path == [] then Some(v)
    else
      match (path[0], v)
      case (Key(k), JObj(entries)) =>
        var child := Lookup(entries, k);
        if child.None? then None else GetValueAtPath(child.value, path[1..])
      case (Index(i), JArr(items)) => if i < |items| then GetValueAtPath(items[i], path[1..]) else None
      case _ => None
  }

  function Replaced(entries: seq<(string, Json)>, key: string, v: Json): seq<(string, Json)> {
    if entries == [] then []
    else if entries[0].0 == key then [(key, v)] + entries[1..]
    else [entries[0]] + Replaced(entries[1..], key, v)
  }

  /** Sets the value at a path that exists; any other path changes nothing. */
  function SetValueAtPath(v: Json, path: seq<Step>, value: Json): Json
    decreases |path|
  {
    if path == [] then value
    else
      match (path[0], v)
      case (Key(k), JObj(entries)) =>
        var child := Lookup(entries, k);
        if child.None? then v else JObj(Replaced(entries, k, SetValueAtPath(child.value, path[1..], value)))
      case (Index(i), JArr(items)) => if i < |items| then JArr(items[i := SetValueAtPath(items[i], path[1..], value)]) else v
      case _ => v
  }

  /** What one issue calls for: the converted value at its path. */
  function Conversion(rt: Runtime, v: Json, issue: Issue): Option<Json> {
    if issue.Refused? then None
    else
      var found := GetValueAtPath(v, issue.path);
      if found.None? then None else ConvertValue(rt, found.value, issue.expected, issue.received)
  }

  function FixOne(rt: Runtime, v: Json, issue: Issue): Json {
    var converted := Conversion(rt, v, issue);
    if converted.Some? then SetValueAtPath(v, issue.path, converted.value) else v
  }

  /** The issues worked off in order, each on the value the ones before it left. */
  function FixAll(rt: Runtime, v: Json, issues: seq<Issue>): Json
    decreases |issues|
  {
    if issues == [] then v else FixAll(rt, FixOne(rt, v, issues[0]), issues[1..])
  }

  /** Some issue below the root leads to a conversion when its turn comes. */
  function AnyFixed(rt: Runtime, v: Json, issues: seq<Issue>): bool
    decreases |issues|
  {
    issues != [] && (Conversion(rt, v, issues[0]).Some? || AnyFixed(rt, FixOne(rt, v, issues[0]), issues[1..]))
  }

  function BelowRoot(issues: seq<Issue>): seq<Issue> {
    if issues == [] then [] else (if issues[0].path == [] then [] else [issues[0]]) + BelowRoot(issues[1..])
  }

  datatype Failure = DepthExceeded | Invalid(issues: seq<Issue>)

  datatype Attempted = Attempted(result: Result<Option<Json>, Failure>, attempts: nat)

  function Parse(rt: Runtime, s: Schema, arg: Option<Json>, maxDepth: int): Attempted
    decreases maxDepth
  {
    if maxDepth <= 0 then Attempted(Err(DepthExceeded), 0)
    else
      var issues := Issues(s, arg);
      if issues == [] then Attempted(Ok(Output(s, arg)), 1)
      else if arg.Some? && AnyFixed(rt, arg.value, BelowRoot(issues)) then
        var next := Parse(rt, s, Some(FixAll(rt, arg.value, BelowRoot(issues))), maxDepth - 1);
        next.(attempts := next.attempts + 1)
      else Attempted(Err(Invalid(issues)), 1)
  }

  /** One pass over the issues: what the value becomes, and whether anything was converted. */
  method RepairAll(rt: Runtime, arg: Json, issues: seq<Issue>) returns (modifiedArg: Json, hasModification: bool)
    ensures modifiedArg == FixAll(rt, arg, BelowRoot(issues)) && hasModification == AnyFixed(rt, arg, BelowRoot(issues))
  {
    modifiedArg, hasModification := arg, false;
    WorkStarts(rt, arg, issues);
    for i := 0 to |issues|
      invariant WorkedOff(rt, arg, issues, i, modifiedArg, hasModification)
    {
      WorkOff(rt, arg, issues, i, modifiedArg, hasModification);
      if issues[i].path != [] {
        var converted := Conversion(rt, modifiedArg, issues[i]);
        if converted.Some? {
          modifiedArg := SetValueAtPath(modifiedArg, issues[i].path, converted.value);
          hasModification := true;
        }
      }
    }
    WorkEnds(rt, arg, issues, modifiedArg, hasModification);
  }

  method ParseWithTypeConversion(rt: Runtime, s: Schema, arg: Option<Json>, maxDepth: int)
      returns (result: Result<Option<Json>, Failure>, attempts: nat)
    ensures Attempted(result, attempts) == Parse(rt, s, arg, maxDepth)
    decreases maxDepth
  {
    if maxDepth <= 0 { return Err(DepthExceeded), 0; }
    var issues := Issues(s, arg);
    if issues == [] { return Ok(Output(s, arg)), 1; }
    if arg.Some? {
      var modifiedArg, hasModification := RepairAll(rt, arg.value, issues);
      if hasModification {
        result, attempts := ParseWithTypeConversion(rt, s, Some(modifiedArg), maxDepth - 1);
        attempts := attempts + 1;
        return;
      }
    }
    result, attempts := Err(Invalid(issues)), 1;
  }

  /** `v` is the value after the first `i` issues, and `fixed` says whether one of them led to a conversion. */
  ghost predicate WorkedOff(rt: Runtime, start: Json, issues: seq<Issue>, i: nat, v: Json, fixed: bool)
    requires i <= |issues|
  {
    FixAll(rt, v, BelowRoot(issues[i..])) == FixAll(rt, start, BelowRoot(issues)) &&
    (fixed || AnyFixed(rt, v, BelowRoot(issues[i..])) <==> AnyFixed(rt, start, BelowRoot(issues)))
  }

  lemma WorkStarts(rt: Runtime, start: Json, issues: seq<Issue>)
    ensures WorkedOff(rt, start, issues, 0, start, false)
  {
    assert issues[0..] == issues;
  }

  lemma WorkEnds(rt: Runtime, start: Json, issues: seq<Issue>, v: Json, fixed: bool)
    requires WorkedOff(rt, start, issues, |issues|, v, fixed)
    ensures v == FixAll(rt, start, BelowRoot(issues)) && (fixed <==> AnyFixed(rt, start, BelowRoot(issues)))
  {
    assert issues[|issues|..] == [] && BelowRoot([]) == [];
  }

  lemma WorkOff(rt: Runtime, start: Json, issues: seq<Issue>, i: nat, v: Json, fixed: bool)
    requires i < |issues| && WorkedOff(rt, start, issues, i, v, fixed)
    ensures
      var converted := Conversion(rt, v, issues[i]);
      if issues[i].path == [] || converted.None? then WorkedOff(rt, start, issues, i + 1, v, fixed)
      else WorkedOff(rt, start, issues, i + 1, SetValueAtPath(v, issues[i].path, converted.value), true)
  {
    BelowRootStep(issues, i);
  }

  lemma BelowRootStep(issues: seq<Issue>, i: nat)
    requires i < |issues|
    ensures
      var rest := BelowRoot(issues[i + 1..]);
      BelowRoot(issues[i..]) == (if issues[i].path == [] then rest else [issues[i]] + rest) &&
      ([issues[i]] + rest)[1..] == rest
  {
    assert issues[i..][1..] == issues[i + 1..];
  }

  // ---------------------------------------------------------------- attempts

  /** The schema library is called at most `maxDepth` times. */
  lemma {:induction false} AttemptsBounded(rt: Runtime, s: Schema, arg: Option<Json>, maxDepth: int)
    ensures 0 <= Parse(rt, s, arg, maxDepth).attempts <= if maxDepth <= 0 then 0 else maxDepth
    decreases maxDepth
  {
    if maxDepth > 0 && arg.Some? {
      AttemptsBounded(rt, s, Some(FixAll(rt, arg.value, BelowRoot(Issues(s, arg)))), maxDepth - 1);
    }
  }

  // ---------------------------------------------------------------- only accepted values

  lemma {:induction false} LookupConcat(a: seq<(string, Json)>, b: seq<(string, Json)>, key: string)
    ensures Lookup(a + b, key) == if Lookup(a, key).Some? then Lookup(a, key) else Lookup(b, key)
    decreases |a|
  {
    if a == [] {
      assert a + b == b;
    } else {
      assert (a + b)[1..] == a[1..] + b;
      LookupConcat(a[1..], b, key);
    }
  }

  lemma {:induction false} OutputMisses(fields: Fields, entries: seq<(string, Json)>, key: string)
    requires key !in Names(fields)
    ensures Lookup(FieldOutputs(fields, entries), key) == None
    decreases fields
  {
    match fields
    case NoFields =>
    case Field(name, schema, rest) =>
      OutputMisses(rest, entries, key);
      var parsed := Output(schema, Lookup(entries, name));
      var head := if parsed.Some? then [(name, parsed.value)] else [];
      LookupConcat(head, FieldOutputs(rest, entries), key);
  }

  /** Two objects that agree on the names of a schema have the same issues and outputs. */
  lemma {:induction false} FieldsAgree(fields: Fields, a: seq<(string, Json)>, b: seq<(string, Json)>)
    requires forall k :: k in Names(fields) ==> Lookup(a, k) == Lookup(b, k)
    ensures FieldIssues(fields, a) == FieldIssues(fields, b) && FieldOutputs(fields, a) == FieldOutputs(fields, b)
    decreases fields
  {
    match fields
    case NoFields =>
    case Field(name, _, rest) => FieldsAgree(rest, a, b);
  }

  /** What the schema library returns, it accepts again, unchanged. */
  lemma {:induction false} OutputAccepted(s: Schema, v: Option<Json>)
    requires WellFormed(s) && Issues(s, v) == []
    ensures Issues(s, Output(s, v)) == [] && Output(s, Output(s, v)) == Output(s, v)
    ensures v.Some? ==> Output(s, v).Some?
    decreases s, 0
  {
    match s
    case ZObject(fields) => FieldsAccepted(fields, v.value.entries, []);
      assert [] + FieldOutputs(fields, v.value.entries) == FieldOutputs(fields, v.value.entries);
    case ZArray(element) => ItemsAccepted(element, v.value.items, 0, 0);
    case ZOptional(inner) => if v.Some? { OutputAccepted(inner, v); }
    case _ =>
  }

  /** `before` stands for the outputs of fields already passed. */
  lemma {:induction false} FieldsAccepted(fields: Fields, entries: seq<(string, Json)>, before: seq<(string, Json)>)
    requires WellFormedFields(fields) && FieldIssues(fields, entries) == []
    requires forall k :: k in Names(fields) ==> Lookup(before, k) == None
    ensures
      var out := before + FieldOutputs(fields, entries);
      FieldIssues(fields, out) == [] && FieldOutputs(fields, out) == FieldOutputs(fields, entries)
    decreases fields, 1
  {
    match fields
    case NoFields =>
    case Field(name, schema, rest) =>
      var v := Lookup(entries, name);
      assert Issues(schema, v) == [] by { assert Under(Key(name), Issues(schema, v)) == []; }
      OutputAccepted(schema, v);
      var parsed := Output(schema, v);
      var head := if parsed.Some? then [(name, parsed.value)] else [];
      var tail := FieldOutputs(rest, entries);
      var out := before + FieldOutputs(fields, entries);
      assert out == (before + head) + tail;
      OutputMisses(rest, entries, name);
      LookupConcat(before, head, name);
      LookupConcat(before + head, tail, name);
      assert Lookup(out, name) == parsed;
      forall k | k in Names(rest) ensures Lookup(before + head, k) == None { LookupConcat(before, head, k); }
      FieldsAccepted(rest, entries, before + head);
  }

  lemma {:induction false} ItemsAccepted(element: Schema, items: seq<Json>, from: nat, to: nat)
    requires WellFormed(element) && ItemIssues(element, items, from) == []
    ensures
      var out := ItemOutputs(element, items);
      |out| == |items| && ItemIssues(element, out, to) == [] && ItemOutputs(element, out) == out
    decreases element, 1, |items|
  {
    if items != [] {
      assert Issues(element, Some(items[0])) == [] by {
        assert Under(Index(from), Issues(element, Some(items[0]))) == [];
      }
      OutputAccepted(element, Some(items[0]));
      ItemsAccepted(element, items[1..], from + 1, to + 1);
      var out := ItemOutputs(element, items);
      assert out[1..] == ItemOutputs(element, items[1..]);
      assert Under(Index(to), []) == [];
    }
  }

  /** A value returned is one the schema accepts as it is. */
  lemma {:induction false} ReturnsAccepted(rt: Runtime, s: Schema, arg: Option<Json>, maxDepth: int)
    requires WellFormed(s)
    ensures
      var r := Parse(rt, s, arg, maxDepth).result;
      r.Ok? ==> Issues(s, r.value) == [] && Output(s, r.value) == r.value
    decreases maxDepth
  {
    if maxDepth > 0 {
      var issues := Issues(s, arg);
      if issues == [] {
        OutputAccepted(s, arg);
      } else if arg.Some? {
        ReturnsAccepted(rt, s, Some(FixAll(rt, arg.value, BelowRoot(issues))), maxDepth - 1);
      }
    }
  }
}
