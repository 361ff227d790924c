/**
 What a successful parse returns: the repair loop, which edits by path and parses again, agrees with a single
 coercion of the value from the outside in.
 */
module TypeCoercion {
  import opened Common
  import opened TypeConversion
  import opened TypeRepair

  // ---------------------------------------------------------------- the coercion

  /** Any value but null is its own text: written as JSON, or as the language prints it. */
  ghost predicate StringComes(rt: Runtime, v: Json, out: Json) {
    match v
    case JNull => false
    case JStr(_) => out == v
    case JNum(_) => out == JStr(rt.textOf(v))
    case JBool(_) => out == JStr(rt.textOf(v))
    case _ => out == JStr(rt.stringify(v))
  }

  /** Text is read as a number, true is one and false is zero. */
  ghost predicate NumberComes(rt: Runtime, v: Json, out: Json) {
    match v
    case JNum(_) => out == v
    case JBool(b) => out == if b then JNum(1.0) else JNum(0.0)
    case JStr(text) => rt.parseFloat(text).Some? && out == JNum(rt.parseFloat(text).value)
    case _ => false
  }

  /** Three words stand for true and three for false; a number is true unless it is zero. */
  ghost predicate BooleanComes(rt: Runtime, v: Json, out: Json) {
    match v
    case JBool(_) => out == v
    case JNum(n) => out == if n == 0.0 then JBool(false) else JBool(true)
    case JStr(text) =>
      (rt.lowerTrim(text) in {"true", "1", "yes"} && out == JBool(true)) ||
      (rt.lowerTrim(text) in {"false", "0", "no"} && out == JBool(false))
    case _ => false
  }

  /** The value has to be turned into an object or array first. */
  function Turns(s: Schema, v: Option<Json>): nat {
    match s
    case ZObject(_) => if v.Some? && v.value.JObj? then 1 else 2
    case ZArray(_) => if v.Some? && v.value.JArr? then 1 else 2
    case _ => 0
  }

  /**
   `v` comes out as `out`: a value of the right type as it is, its children coerced in turn; text where an object or
   array is due as the JSON it holds; an object with only numeric keys as the array of its values.
   */
  ghost predicate Comes(rt: Runtime, s: Schema, v: Option<Json>, out: Option<Json>)
    decreases s, Turns(s, v)
  {
    match s
    case ZString => v.Some? && out.Some? && StringComes(rt, v.value, out.value)
    case ZNumber => v.Some? && out.Some? && NumberComes(rt, v.value, out.value)
    case ZBoolean => v.Some? && out.Some? && BooleanComes(rt, v.value, out.value)
    case ZEnum(values) => v.Some? && v.value.JStr? && v.value.s in values && out == v
    case ZOptional(inner) => if v.None? then out.None? else Comes(rt, inner, v, out)
    case ZObject(fields) =>
      v.Some? && (
        match v.value
        case JObj(entries) => out.Some? && out.value.JObj? && FieldsCome(rt, fields, entries, out.value.entries)
        case JStr(text) => rt.parseJson(text).Some? && rt.parseJson(text).value.JObj? && Comes(rt, s, rt.parseJson(text), out)
        case _ => false)
    case ZArray(element) =>
      v.Some? && (
        match v.value
        case JArr(items) => out.Some? && out.value.JArr? && ItemsCome(rt, element, items, out.value.items)
        case JStr(text) => rt.parseJson(text).Some? && rt.parseJson(text).value.JArr? && Comes(rt, s, rt.parseJson(text), out)
        case JObj(entries) =>
          (forall i :: 0 <= i < |entries| ==> AllDigits(entries[i].0)) &&
          Comes(rt, s, Some(JArr(seq(|entries|, i requires 0 <= i < |entries| => entries[i].1))), out)
        case _ => false)
  }

  /** The outputs of the fields in order; a missing optional field gives none, and other keys are dropped. */
  ghost predicate FieldsCome(rt: Runtime, fields: Fields, entries: seq<(string, Json)>, outs: seq<(string, Json)>)
    decreases fields, 0
  {
    match fields
    case NoFields => outs == []
    case Field(name, schema, rest) =>
      if outs != [] && outs[0].0 == name
      then Comes(rt, schema, Lookup(entries, name), Some(outs[0].1)) && FieldsCome(rt, rest, entries, outs[1..])
      else Comes(rt, schema, Lookup(entries, name), None) && FieldsCome(rt, rest, entries, outs)
  }

  ghost predicate ItemsCome(rt: Runtime, element: Schema, items: seq<Json>, outs: seq<Json>)
    decreases element, 3, |items|
  {
    |items| == |outs| &&
    (items == [] || (Comes(rt, element, Some(items[0]), Some(outs[0])) && ItemsCome(rt, element, items[1..], outs[1..])))
  }

  /** Nothing is wrong with the root itself, which the loop never converts. */
  ghost predicate RightAtRoot(s: Schema, v: Option<Json>) {
    match s
    case ZString => v.Some? && v.value.JStr?
    case ZNumber => v.Some? && v.value.JNum?
    case ZBoolean => v.Some? && v.value.JBool?
    case ZEnum(values) => v.Some? && v.value.JStr? && v.value.s in values
    case ZObject(_) => v.Some? && v.value.JObj?
    case ZArray(_) => v.Some? && v.value.JArr?
    case ZOptional(inner) => v.None? || RightAtRoot(inner, v)
  }

  // ---------------------------------------------------------------- one pass

  /** A repair pass does not change what a value comes out as. */
  lemma {:induction false} RepairedComes(rt: Runtime, s: Schema, v: Json, out: Option<Json>)
    requires WellFormed(s)
    ensures Comes(rt, s, Some(v), out) <==> Comes(rt, s, Some(Repaired(rt, s, v)), out)
    decreases s, 1
  {
    match s
    case ZObject(fields) =>
      if v.JObj? {
        RepairedFieldsAt(rt, fields, v.entries);
        if out.Some? && out.value.JObj? {
          FieldsRepaired(rt, fields, v.entries, RepairedFields(rt, fields, v.entries), out.value.entries);
        }
      }
    case ZArray(element) =>
      if v.JArr? {
        if out.Some? && out.value.JArr? { ItemsRepaired(rt, element, v.items, out.value.items); }
      } else if v.JObj? {
        assert Values(v.entries) == seq(|v.entries|, i requires 0 <= i < |v.entries| => v.entries[i].1);
      }
    case ZOptional(inner) => RepairedComes(rt, inner, v, out);
    case _ =>
  }

  lemma {:induction false} FieldsRepaired(rt: Runtime, fields: Fields, before: seq<(string, Json)>, after: seq<(string, Json)>, outs: seq<(string, Json)>)
    requires WellFormedFields(fields) && RepairedAt(rt, fields, before, after)
    ensures FieldsCome(rt, fields, before, outs) <==> FieldsCome(rt, fields, after, outs)
    decreases fields, 0
  {
    match fields
    case NoFields =>
    case Field(name, schema, rest) =>
      var child := Lookup(before, name);
      var out := if outs != [] && outs[0].0 == name then Some(outs[0].1) else None;
      if child.Some? { RepairedComes(rt, schema, child.value, out); }
      FieldsRepaired(rt, rest, before, after, if outs != [] && outs[0].0 == name then outs[1..] else outs);
  }

  lemma {:induction false} ItemsRepaired(rt: Runtime, element: Schema, items: seq<Json>, outs: seq<Json>)
    requires WellFormed(element)
    ensures ItemsCome(rt, element, items, outs) <==> ItemsCome(rt, element, RepairedItems(rt, element, items), outs)
    decreases element, 3, |items|
  {
    if items != [] && |items| == |outs| {
      var fixed := RepairedItems(rt, element, items);
      assert fixed[1..] == RepairedItems(rt, element, items[1..]);
      RepairedComes(rt, element, items[0], Some(outs[0]));
      ItemsRepaired(rt, element, items[1..], outs[1..]);
    }
  }

  // ---------------------------------------------------------------- accepted values

  lemma {:induction false} OutputNames(fields: Fields, entries: seq<(string, Json)>)
    ensures forall i :: 0 <= i < |FieldOutputs(fields, entries)| ==> FieldOutputs(fields, entries)[i].0 in Names(fields)
    decreases fields
  {
    match fields
    case NoFields =>
    case Field(_, _, rest) => OutputNames(rest, entries);
  }

  /** What the schema library accepts comes out as it returns it. */
  lemma {:induction false} AcceptedComes(rt: Runtime, s: Schema, v: Option<Json>)
    requires WellFormed(s) && Issues(s, v) == []
    ensures Comes(rt, s, v, Output(s, v))
    decreases s, 1
  {
    match s
    case ZObject(fields) => FieldsAccept(rt, fields, v.value.entries);
    case ZArray(element) => ItemsAccept(rt, element, v.value.items, 0);
    case ZOptional(inner) => if v.Some? { AcceptedComes(rt, inner, v); }
    case _ =>
  }

  lemma {:induction false} FieldsAccept(rt: Runtime, fields: Fields, entries: seq<(string, Json)>)
    requires WellFormedFields(fields) && FieldIssues(fields, entries) == []
    ensures FieldsCome(rt, fields, entries, FieldOutputs(fields, entries))
    decreases fields, 0
  {
    match fields
    case NoFields =>
    case Field(name, schema, rest) =>
      var v, tail := Lookup(entries, name), FieldOutputs(rest, entries);
      assert Issues(schema, v) == [] by { assert Under(Key(name), Issues(schema, v)) == []; }
      AcceptedComes(rt, schema, v);
      FieldsAccept(rt, rest, entries);
      OutputNames(rest, entries);
      var outs, parsed := FieldOutputs(fields, entries), Output(schema, v);
      if parsed.Some? {
        assert outs == [(name, parsed.value)] + tail && outs[1..] == tail;
      } else {
        assert outs == tail;
      }
  }

  lemma {:induction false} ItemsAccept(rt: Runtime, element: Schema, items: seq<Json>, from: nat)
    requires WellFormed(element) && ItemIssues(element, items, from) == []
    ensures ItemsCome(rt, element, items, ItemOutputs(element, items))
    decreases element, 3, |items|
  {
    if items != [] {
      assert Issues(element, Some(items[0])) == [] by {
        assert Under(Index(from), Issues(element, Some(items[0]))) == [];
      }
      OutputAccepted(element, Some(items[0]));
      AcceptedComes(rt, element, Some(items[0]));
      ItemsAccept(rt, element, items[1..], from + 1);
      var outs := ItemOutputs(element, items);
      assert outs[1..] == ItemOutputs(element, items[1..]);
    }
  }

  // ---------------------------------------------------------------- one result only

  lemma {:induction false} ComesOnce(rt: Runtime, s: Schema, v: Option<Json>, a: Option<Json>, b: Option<Json>)
    requires Comes(rt, s, v, a) && Comes(rt, s, v, b)
    ensures a == b
    decreases s, Turns(s, v)
  {
    match s
    case ZObject(fields) =>
      match v.value {
        case JObj(entries) => FieldsComeOnce(rt, fields, entries, a.value.entries, b.value.entries);
        case JStr(text) => ComesOnce(rt, s, rt.parseJson(text), a, b);
      }
    case ZArray(element) =>
      match v.value {
        case JArr(items) => ItemsComeOnce(rt, element, items, a.value.items, b.value.items);
        case JStr(text) => ComesOnce(rt, s, rt.parseJson(text), a, b);
        case JObj(entries) => ComesOnce(rt, s, Some(JArr(seq(|entries|, i requires 0 <= i < |entries| => entries[i].1))), a, b);
      }
    case ZOptional(inner) => if v.Some? { ComesOnce(rt, inner, v, a, b); }
    case _ =>
  }

  lemma {:induction false} FieldsComeOnce(rt: Runtime, fields: Fields, entries: seq<(string, Json)>, a: seq<(string, Json)>, b: seq<(string, Json)>)
    requires FieldsCome(rt, fields, entries, a) && FieldsCome(rt, fields, entries, b)
    ensures a == b
    decreases fields, 0
  {
    match fields
    case NoFields =>
    case Field(name, schema, rest) =>
      var first := if a != [] && a[0].0 == name then Some(a[0].1) else None;
      var second := if b != [] && b[0].0 == name then Some(b[0].1) else None;
      ComesOnce(rt, schema, Lookup(entries, name), first, second);
      FieldsComeOnce(rt, rest, entries, if first.Some? then a[1..] else a, if second.Some? then b[1..] else b);
      if first.Some? { assert a == [a[0]] + a[1..] && b == [b[0]] + b[1..]; }
  }

  lemma {:induction false} ItemsComeOnce(rt: Runtime, element: Schema, items: seq<Json>, a: seq<Json>, b: seq<Json>)
    requires ItemsCome(rt, element, items, a) && ItemsCome(rt, element, items, b)
    ensures a == b
    decreases element, 3, |items|
  {
    if items != [] {
      ComesOnce(rt, element, Some(items[0]), Some(a[0]), Some(b[0]));
      ItemsComeOnce(rt, element, items[1..], a[1..], b[1..]);
      assert a == [a[0]] + a[1..] && b == [b[0]] + b[1..];
    }
  }

  // ---------------------------------------------------------------- every issue converts

  lemma LiftUnderKey(rt: Runtime, entries: seq<(string, Json)>, key: string, issues: seq<Issue>)
    requires issues != [] ==> Lookup(entries, key).Some? && Convertible(rt, Lookup(entries, key).value, issues)
    ensures Convertible(rt, JObj(entries), Under(Key(key), issues))
  {
    forall i | 0 <= i < |issues| ensures Conversion(rt, JObj(entries), Under(Key(key), issues)[i]).Some? {
      assert Under(Key(key), issues)[i].path[1..] == issues[i].path;
      assert Conversion(rt, Lookup(entries, key).value, issues[i]).Some?;
    }
  }

  lemma LiftUnderIndex(rt: Runtime, items: seq<Json>, k: nat, issues: seq<Issue>)
    requires k < |items| && Convertible(rt, items[k], issues)
    ensures Convertible(rt, JArr(items), Under(Index(k), issues))
  {
    forall i | 0 <= i < |issues| ensures Conversion(rt, JArr(items), Under(Index(k), issues)[i]).Some? {
      assert Under(Index(k), issues)[i].path[1..] == issues[i].path;
      assert Conversion(rt, items[k], issues[i]).Some?;
    }
  }

  /** A value that comes out has only issues that can be converted. */
  lemma {:induction false} ComesConverts(rt: Runtime, s: Schema, v: Json, out: Option<Json>)
    requires Comes(rt, s, Some(v), out)
    ensures Convertible(rt, v, Issues(s, Some(v)))
    decreases s, 1
  {
    match s
    case ZObject(fields) => if v.JObj? { FieldsConvert(rt, fields, v.entries, out.value.entries); }
    case ZArray(element) =>
      if v.JArr? {
        assert v.items[0..] == v.items && out.value.items[0..] == out.value.items;
        ItemsConvert(rt, element, v.items, out.value.items, 0);
      }
    case ZOptional(inner) => ComesConverts(rt, inner, v, out);
    case _ =>
  }

  lemma {:induction false} FieldsConvert(rt: Runtime, fields: Fields, entries: seq<(string, Json)>, outs: seq<(string, Json)>)
    requires FieldsCome(rt, fields, entries, outs)
    ensures Convertible(rt, JObj(entries), FieldIssues(fields, entries))
    decreases fields, 0
  {
    match fields
    case NoFields =>
    case Field(name, schema, rest) =>
      var child := Lookup(entries, name);
      var out := if outs != [] && outs[0].0 == name then Some(outs[0].1) else None;
      if child.Some? { ComesConverts(rt, schema, child.value, out); } else { NoneComes(rt, schema, out); }
      LiftUnderKey(rt, entries, name, Issues(schema, child));
      FieldsConvert(rt, rest, entries, if outs != [] && outs[0].0 == name then outs[1..] else outs);
  }

  /** Only where nothing is required does nothing come out. */
  lemma {:induction false} NoneComes(rt: Runtime, s: Schema, out: Option<Json>)
    requires Comes(rt, s, None, out)
    ensures Issues(s, None) == [] && out == None
    decreases s
  {
  }

  lemma {:induction false} ItemsConvert(rt: Runtime, element: Schema, items: seq<Json>, outs: seq<Json>, k: nat)
    requires k <= |items| == |outs| && ItemsCome(rt, element, items[k..], outs[k..])
    ensures Convertible(rt, JArr(items), ItemIssues(element, items[k..], k))
    decreases element, 3, |items| - k
  {
    if k < |items| {
      assert items[k..][1..] == items[k + 1..] && outs[k..][1..] == outs[k + 1..];
      ComesConverts(rt, element, items[k], Some(outs[k]));
      LiftUnderIndex(rt, items, k, Issues(element, Some(items[k])));
      ItemsConvert(rt, element, items, outs, k + 1);
    }
  }

  // ---------------------------------------------------------------- the loop

  lemma {:induction false} RightMeansBelow(s: Schema, v: Option<Json>)
    ensures RightAtRoot(s, v) <==> AtLeast(Issues(s, v), 1)
    ensures !RightAtRoot(s, v) ==> BelowRoot(Issues(s, v)) == []
    decreases s
  {
    match s
    case ZObject(fields) => if v.Some? && v.value.JObj? { FieldsBelow(fields, v.value.entries); } else { OnlyRoot(Wrong(TObject, v)); }
    case ZArray(element) => if v.Some? && v.value.JArr? { ItemsBelow(element, v.value.items, 0); } else { OnlyRoot(Wrong(TArray, v)); }
    case ZOptional(inner) => if v.Some? { RightMeansBelow(inner, v); }
    case _ => if Issues(s, v) != [] { OnlyRoot(Issues(s, v)); }
  }

  lemma OnlyRoot(issues: seq<Issue>)
    requires |issues| == 1 && issues[0].path == []
    ensures BelowRoot(issues) == [] && !AtLeast(issues, 1)
  {
    assert issues[1..] == [];
    assert |issues[0].path| == 0;
  }

  /** A result of the loop is what the coercion gives, for any bound. */
  lemma {:induction false} ParseComes(rt: Runtime, s: Schema, arg: Option<Json>, maxDepth: int)
    requires WellFormed(s)
    ensures
      var r := Parse(rt, s, arg, maxDepth).result;
      r.Ok? ==> RightAtRoot(s, arg) && Comes(rt, s, arg, r.value)
    decreases maxDepth
  {
    if maxDepth > 0 {
      var issues := Issues(s, arg);
      RightMeansBelow(s, arg);
      if issues == [] {
        AcceptedComes(rt, s, arg);
      } else if arg.Some? && RightAtRoot(s, arg) {
        AllBelowRoot(issues);
        FixAllIsRepaired(rt, s, arg.value);
        ParseComes(rt, s, Some(Repaired(rt, s, arg.value)), maxDepth - 1);
        var r := Parse(rt, s, arg, maxDepth).result;
        if r.Ok? { RepairedComes(rt, s, arg.value, r.value); }
      }
    }
  }

  lemma {:induction false} ComesEverConverts(rt: Runtime, s: Schema, arg: Option<Json>, out: Option<Json>, rounds: nat)
    requires WellFormed(s) && RightAtRoot(s, arg) && Comes(rt, s, arg, out)
    ensures EveryIssueConverts(rt, s, arg, rounds)
    decreases rounds
  {
    RightMeansBelow(s, arg);
    if rounds > 0 && Issues(s, arg) != [] {
      if arg.None? { NoneComes(rt, s, out); }
      ComesConverts(rt, s, arg.value, out);
      FixAllIsRepaired(rt, s, arg.value);
      RepairDeepens(rt, s, arg.value, 1);
      RepairedComes(rt, s, arg.value, out);
      var next := Some(Repaired(rt, s, arg.value));
      RightMeansBelow(s, next);
      ComesEverConverts(rt, s, next, out, rounds - 1);
    }
  }

  /**
   With more attempts than the schema has levels, the loop returns `out` exactly when the root is of the right type
   and the value comes out as `out`.
   */
  lemma ParseIsCoercion(rt: Runtime, s: Schema, arg: Option<Json>, maxDepth: nat, out: Option<Json>)
    requires WellFormed(s) && Depth(s) < maxDepth
    ensures Parse(rt, s, arg, maxDepth).result == Ok(out) <==> RightAtRoot(s, arg) && Comes(rt, s, arg, out)
  {
    ParseComes(rt, s, arg, maxDepth);
    if RightAtRoot(s, arg) && Comes(rt, s, arg, out) {
      ComesEverConverts(rt, s, arg, out, maxDepth);
      ConvertibleSucceeds(rt, s, arg, maxDepth);
      ComesOnce(rt, s, arg, out, Parse(rt, s, arg, maxDepth).result.value);
    }
  }

  lemma OneFieldComes(rt: Runtime, key: string, s: Schema, entries: seq<(string, Json)>, outs: seq<(string, Json)>)
    requires |outs| == 1 && outs[0].0 == key && Comes(rt, s, Lookup(entries, key), Some(outs[0].1)) && WellFormed(s)
    ensures FieldsCome(rt, Field(key, s, NoFields), entries, outs)
    ensures WellFormed(ZObject(Field(key, s, NoFields))) && Depth(ZObject(Field(key, s, NoFields))) == 1 + Depth(s)
  {
    assert outs[1..] == [] && FieldsCome(rt, NoFields, entries, outs[1..]);
    assert FieldsDepth(NoFields) == 0 && WellFormedFields(NoFields) && Names(NoFields) == {};
  }

  /** A printed boolean is repaired into the boolean it came from. */
  lemma BooleanComesBack(rt: Runtime, key: string, b: bool, maxDepth: nat)
    requires 1 < maxDepth && rt.lowerTrim(rt.textOf(JBool(b))) == if b then "true" else "false"
    ensures
      Parse(rt, ZObject(Field(key, ZBoolean, NoFields)), Some(JObj([(key, JStr(rt.textOf(JBool(b))))])), maxDepth).result ==
      Ok(Some(JObj([(key, JBool(b))])))
  {
    var s := ZObject(Field(key, ZBoolean, NoFields));
    var entries, outs := [(key, JStr(rt.textOf(JBool(b))))], [(key, JBool(b))];
    assert outs[1..] == [] && Lookup(entries, key) == Some(JStr(rt.textOf(JBool(b))));
    assert BooleanComes(rt, JStr(rt.textOf(JBool(b))), JBool(b));
    OneFieldComes(rt, key, ZBoolean, entries, outs);
    ParseIsCoercion(rt, s, Some(JObj(entries)), maxDepth, Some(JObj(outs)));
  }
}
