/**
 Why the repair loop succeeds: working the issues off by path is one structural pass over the
 value, each pass pushes the remaining issues a level down, and the schema has only so many levels.
 */
module TypeRepair {
  import opened Common
  import opened TypeConversion

  // ---------------------------------------------------------------- the structural form of a repair pass

  function ConvertNode(rt: Runtime, v: Json, expected: Type): Json {
    var converted := ConvertValue(rt, v, expected, TypeOf(Some(v)));
    if converted.Some? then converted.value else v
  }

  /** Every node of the wrong type converted where that is possible; right nodes entered. */
  function Repaired(rt: Runtime, s: Schema, v: Json): Json
    decreases s, 0
  {
    match s
    case ZString => if v.JStr? then v else ConvertNode(rt, v, TString)
    case ZNumber => if v.JNum? then v else ConvertNode(rt, v, TNumber)
    case ZBoolean => if v.JBool? then v else ConvertNode(rt, v, TBoolean)
    case ZEnum(_) => v
    case ZObject(fields) => if v.JObj? then JObj(RepairedFields(rt, fields, v.entries)) else ConvertNode(rt, v, TObject)
    case ZArray(element) => if v.JArr? then JArr(RepairedItems(rt, element, v.items)) else ConvertNode(rt, v, TArray)
    case ZOptional(inner) => Repaired(rt, inner, v)
  }

  function RepairedFields(rt: Runtime, fields: Fields, entries: seq<(string, Json)>): seq<(string, Json)>
    decreases fields, 1
  {
    match fields
    case NoFields => entries
    case Field(name, schema, rest) =>
      var child := Lookup(entries, name);
      RepairedFields(rt, rest, if child.None? then entries else Replaced(entries, name, Repaired(rt, schema, child.value)))
  }

  function RepairedItems(rt: Runtime, element: Schema, items: seq<Json>): (r: seq<Json>)
    ensures |r| == |items|
    decreases element, 1, |items|
  {
    if items == [] then [] else [Repaired(rt, element, items[0])] + RepairedItems(rt, element, items[1..])
  }

  lemma {:induction false} LookupReplaced(entries: seq<(string, Json)>, key: string, v: Json, other: string)
    ensures
      Lookup(Replaced(entries, key, v), other) ==
      if other == key && Lookup(entries, key).Some? then Some(v) else Lookup(entries, other)
    decreases |entries|
  {
    if entries != [] && entries[0].0 != key {
      LookupReplaced(entries[1..], key, v, other);
      assert ([entries[0]] + Replaced(entries[1..], key, v))[1..] == Replaced(entries[1..], key, v);
    } else if entries != [] {
      assert ([(key, v)] + entries[1..])[1..] == entries[1..];
    }
  }

  lemma {:induction false} ReplacedTwice(entries: seq<(string, Json)>, key: string, v: Json, w: Json)
    ensures Replaced(Replaced(entries, key, v), key, w) == Replaced(entries, key, w)
    decreases |entries|
  {
    if entries != [] && entries[0].0 != key {
      ReplacedTwice(entries[1..], key, v, w);
      assert ([entries[0]] + Replaced(entries[1..], key, v))[1..] == Replaced(entries[1..], key, v);
    } else if entries != [] {
      assert ([(key, v)] + entries[1..])[1..] == entries[1..];
    }
  }

  lemma {:induction false} ReplacedSame(entries: seq<(string, Json)>, key: string)
    ensures Lookup(entries, key).Some? ==> Replaced(entries, key, Lookup(entries, key).value) == entries
    decreases |entries|
  {
    if entries != [] && entries[0].0 != key {
      ReplacedSame(entries[1..], key);
    }
  }

  lemma {:induction false} FixConcat(rt: Runtime, v: Json, a: seq<Issue>, b: seq<Issue>)
    ensures FixAll(rt, v, a + b) == FixAll(rt, FixAll(rt, v, a), b)
    decreases |a|
  {
    if a == [] {
      assert a + b == b;
    } else {
      assert (a + b)[1..] == a[1..] + b;
      FixConcat(rt, FixOne(rt, v, a[0]), a[1..], b);
    }
  }

  lemma UnderTail(step: Step, issues: seq<Issue>)
    requires issues != []
    ensures Under(step, issues)[1..] == Under(step, issues[1..])
    ensures Under(step, issues)[0].path[0] == step && Under(step, issues)[0].path[1..] == issues[0].path
  {
  }

  lemma FixOneUnderKey(rt: Runtime, entries: seq<(string, Json)>, key: string, issue: Issue)
    ensures
      var child := Lookup(entries, key);
      var lifted := issue.(path := [Key(key)] + issue.path);
      FixOne(rt, JObj(entries), lifted) ==
      if child.None? then JObj(entries) else JObj(Replaced(entries, key, FixOne(rt, child.value, issue)))
  {
    var lifted := issue.(path := [Key(key)] + issue.path);
    assert lifted.path[1..] == issue.path;
    ReplacedSame(entries, key);
  }

  /** Issues lifted under a key are worked off inside that entry. */
  lemma {:induction false} FixUnderKey(rt: Runtime, entries: seq<(string, Json)>, key: string, issues: seq<Issue>)
    ensures
      var child := Lookup(entries, key);
      FixAll(rt, JObj(entries), Under(Key(key), issues)) ==
      if child.None? then JObj(entries) else JObj(Replaced(entries, key, FixAll(rt, child.value, issues)))
    decreases |issues|
  {
    var child := Lookup(entries, key);
    ReplacedSame(entries, key);
    if issues != [] {
      UnderTail(Key(key), issues);
      FixOneUnderKey(rt, entries, key, issues[0]);
      if child.None? {
        FixUnderKey(rt, entries, key, issues[1..]);
      } else {
        var next := FixOne(rt, child.value, issues[0]);
        LookupReplaced(entries, key, next, key);
        FixUnderKey(rt, Replaced(entries, key, next), key, issues[1..]);
        ReplacedTwice(entries, key, next, FixAll(rt, next, issues[1..]));
      }
    }
  }

  lemma {:induction false} FixUnderIndex(rt: Runtime, items: seq<Json>, i: nat, issues: seq<Issue>)
    requires i < |items|
    ensures FixAll(rt, JArr(items), Under(Index(i), issues)) == JArr(items[i := FixAll(rt, items[i], issues)])
    decreases |issues|
  {
    if issues == [] {
      assert items[i := items[i]] == items;
    } else {
      UnderTail(Index(i), issues);
      var next := FixOne(rt, items[i], issues[0]);
      assert items[i := items[i]] == items;
      assert FixOne(rt, JArr(items), Under(Index(i), issues)[0]) == JArr(items[i := next]);
      FixUnderIndex(rt, items[i := next], i, issues[1..]);
      assert items[i := next][i := FixAll(rt, next, issues[1..])] == items[i := FixAll(rt, next, issues[1..])];
    }
  }

  lemma FixWrong(rt: Runtime, v: Json, expected: Type)
    ensures FixAll(rt, v, Wrong(expected, Some(v))) == ConvertNode(rt, v, expected)
  {
    var issues := Wrong(expected, Some(v));
    assert issues[1..] == [];
    assert GetValueAtPath(v, []) == Some(v);
  }

  /** Working the reported issues off one by one, by path, is the structural repair. */
  lemma {:induction false} FixAllIsRepaired(rt: Runtime, s: Schema, v: Json)
    requires WellFormed(s)
    ensures FixAll(rt, v, Issues(s, Some(v))) == Repaired(rt, s, v)
    decreases s, 0
  {
    match s
    case ZString => FixWrong(rt, v, TString);
    case ZNumber => FixWrong(rt, v, TNumber);
    case ZBoolean => FixWrong(rt, v, TBoolean);
    case ZEnum(values) =>
      FixWrong(rt, v, TOther);
      var refused := [Refused([])];
      assert refused[1..] == [];
      assert FixAll(rt, v, refused) == FixAll(rt, v, []);
    case ZObject(fields) =>
      FixWrong(rt, v, TObject);
      if v.JObj? { FixFields(rt, fields, v.entries, v.entries); }
    case ZArray(element) =>
      FixWrong(rt, v, TArray);
      if v.JArr? {
        assert [] + v.items == v.items;
        FixItems(rt, element, [], v.items);
      }
    case ZOptional(inner) => FixAllIsRepaired(rt, inner, v);
  }

  /** The issues were found on `found`, which agrees with the current entries on the fields still to come. */
  lemma {:induction false} FixFields(rt: Runtime, fields: Fields, found: seq<(string, Json)>, entries: seq<(string, Json)>)
    requires WellFormedFields(fields)
    requires forall k :: k in Names(fields) ==> Lookup(found, k) == Lookup(entries, k)
    ensures FixAll(rt, JObj(entries), FieldIssues(fields, found)) == JObj(RepairedFields(rt, fields, entries))
    decreases fields, 1
  {
    match fields
    case NoFields =>
    case Field(name, schema, rest) =>
      var child := Lookup(entries, name);
      var issues := Issues(schema, child);
      FixConcat(rt, JObj(entries), Under(Key(name), issues), FieldIssues(rest, found));
      FixUnderKey(rt, entries, name, issues);
      if child.None? {
        FixFields(rt, rest, found, entries);
      } else {
        FixAllIsRepaired(rt, schema, child.value);
        var next := Replaced(entries, name, Repaired(rt, schema, child.value));
        forall k | k in Names(rest) ensures Lookup(found, k) == Lookup(next, k) {
          LookupReplaced(entries, name, Repaired(rt, schema, child.value), k);
        }
        FixFields(rt, rest, found, next);
      }
  }

  lemma {:induction false} FixItems(rt: Runtime, element: Schema, done: seq<Json>, items: seq<Json>)
    requires WellFormed(element)
    ensures FixAll(rt, JArr(done + items), ItemIssues(element, items, |done|)) == JArr(done + RepairedItems(rt, element, items))
    decreases element, 1, |items|
  {
    if items != [] {
      var issues, later := Issues(element, Some(items[0])), ItemIssues(element, items[1..], |done| + 1);
      var all := done + items;
      FixConcat(rt, JArr(all), Under(Index(|done|), issues), later);
      FixUnderIndex(rt, all, |done|, issues);
      FixAllIsRepaired(rt, element, items[0]);
      FixRest(rt, element, done, items, Repaired(rt, element, items[0]));
    }
  }

  lemma {:induction false} FixRest(rt: Runtime, element: Schema, done: seq<Json>, items: seq<Json>, first: Json)
    requires WellFormed(element) && items != []
    ensures
      FixAll(rt, JArr((done + items)[|done| := first]), ItemIssues(element, items[1..], |done| + 1)) ==
      JArr(done + ([first] + RepairedItems(rt, element, items[1..])))
    decreases element, 1, |items|, 0
  {
    var next := done + [first];
    assert (done + items)[|done| := first] == next + items[1..];
    FixItems(rt, element, next, items[1..]);
    assert next + RepairedItems(rt, element, items[1..]) == done + ([first] + RepairedItems(rt, element, items[1..]));
  }

  // ---------------------------------------------------------------- levels

  ghost predicate AtLeast(issues: seq<Issue>, n: int) { forall i :: 0 <= i < |issues| ==> |issues[i].path| >= n }

  ghost predicate Convertible(rt: Runtime, v: Json, issues: seq<Issue>) {
    forall i :: 0 <= i < |issues| ==> Conversion(rt, v, issues[i]).Some?
  }

  lemma ConversionUnderKey(rt: Runtime, entries: seq<(string, Json)>, key: string, issues: seq<Issue>)
    requires Convertible(rt, JObj(entries), Under(Key(key), issues))
    ensures issues != [] ==> Lookup(entries, key).Some?
    ensures Lookup(entries, key).Some? ==> Convertible(rt, Lookup(entries, key).value, issues)
  {
    if issues != [] {
      assert Conversion(rt, JObj(entries), Under(Key(key), issues)[0]).Some?;
    }
    forall i | 0 <= i < |issues| && Lookup(entries, key).Some?
      ensures Conversion(rt, Lookup(entries, key).value, issues[i]).Some?
    {
      var lifted := Under(Key(key), issues)[i];
      assert lifted.path[1..] == issues[i].path;
      assert Conversion(rt, JObj(entries), lifted).Some?;
    }
  }

  lemma ConversionUnderIndex(rt: Runtime, items: seq<Json>, k: nat, issues: seq<Issue>)
    requires k < |items| && Convertible(rt, JArr(items), Under(Index(k), issues))
    ensures Convertible(rt, items[k], issues)
  {
    forall i | 0 <= i < |issues| ensures Conversion(rt, items[k], issues[i]).Some? {
      var lifted := Under(Index(k), issues)[i];
      assert lifted.path[1..] == issues[i].path;
      assert Conversion(rt, JArr(items), lifted).Some?;
    }
  }

  lemma Halves(rt: Runtime, v: Json, a: seq<Issue>, b: seq<Issue>, n: int)
    requires Convertible(rt, v, a + b) && AtLeast(a + b, n)
    ensures Convertible(rt, v, a) && Convertible(rt, v, b) && AtLeast(a, n) && AtLeast(b, n)
  {
    forall i | 0 <= i < |a| ensures Conversion(rt, v, a[i]).Some? && |a[i].path| >= n { assert (a + b)[i] == a[i]; }
    forall i | 0 <= i < |b| ensures Conversion(rt, v, b[i]).Some? && |b[i].path| >= n { assert (a + b)[|a| + i] == b[i]; }
  }

  lemma LiftLevel(step: Step, issues: seq<Issue>, n: int)
    ensures AtLeast(Under(step, issues), n) <==> AtLeast(issues, n - 1)
  {
    forall i | 0 <= i < |issues| ensures |Under(step, issues)[i].path| == |issues[i].path| + 1 {
    }
  }

  /** A node that was converted has the right type: whatever is wrong now is below it. */
  lemma ConvertedIsBelow(rt: Runtime, s: Schema, v: Json, expected: Type)
    requires match s
      case ZString => expected == TString
      case ZNumber => expected == TNumber
      case ZBoolean => expected == TBoolean
      case ZObject(_) => expected == TObject
      case ZArray(_) => expected == TArray
      case _ => false
    requires Convertible(rt, v, Wrong(expected, Some(v)))
    ensures AtLeast(Issues(s, Some(ConvertNode(rt, v, expected))), 1)
  {
    var w := ConvertNode(rt, v, expected);
    assert Conversion(rt, v, Wrong(expected, Some(v))[0]).Some?;
    match s
    case ZObject(fields) => FieldsBelow(fields, w.entries);
    case ZArray(element) => ItemsBelow(element, w.items, 0);
    case _ =>
  }

  lemma {:induction false} FieldsBelow(fields: Fields, entries: seq<(string, Json)>)
    ensures AtLeast(FieldIssues(fields, entries), 1)
    decreases fields
  {
    match fields
    case NoFields =>
    case Field(_, _, rest) => FieldsBelow(rest, entries);
  }

  lemma {:induction false} ItemsBelow(element: Schema, items: seq<Json>, from: nat)
    ensures AtLeast(ItemIssues(element, items, from), 1)
    decreases |items|
  {
    if items != [] { ItemsBelow(element, items[1..], from + 1); }
  }

  /** Each named entry of `after` is the repaired one of `before`, or missing in both. */
  ghost predicate RepairedAt(rt: Runtime, fields: Fields, before: seq<(string, Json)>, after: seq<(string, Json)>) {
    match fields
    case NoFields => true
    case Field(name, schema, rest) =>
      var child := Lookup(before, name);
      Lookup(after, name) == (if child.None? then None else Some(Repaired(rt, schema, child.value))) &&
      RepairedAt(rt, rest, before, after)
  }

  lemma {:induction false} RepairedAtShift(rt: Runtime, fields: Fields, a: seq<(string, Json)>, b: seq<(string, Json)>, after: seq<(string, Json)>)
    requires RepairedAt(rt, fields, a, after) && forall k :: k in Names(fields) ==> Lookup(a, k) == Lookup(b, k)
    ensures RepairedAt(rt, fields, b, after)
    decreases fields
  {
    match fields
    case NoFields =>
    case Field(_, _, rest) => RepairedAtShift(rt, rest, a, b, after);
  }

  lemma {:induction false} RepairedFieldsKeep(rt: Runtime, fields: Fields, entries: seq<(string, Json)>, key: string)
    requires key !in Names(fields)
    ensures Lookup(RepairedFields(rt, fields, entries), key) == Lookup(entries, key)
    decreases fields
  {
    match fields
    case NoFields =>
    case Field(name, schema, rest) =>
      var child := Lookup(entries, name);
      if child.None? {
        RepairedFieldsKeep(rt, rest, entries, key);
      } else {
        LookupReplaced(entries, name, Repaired(rt, schema, child.value), key);
        RepairedFieldsKeep(rt, rest, Replaced(entries, name, Repaired(rt, schema, child.value)), key);
      }
  }

  lemma {:induction false} RepairedFieldsAt(rt: Runtime, fields: Fields, entries: seq<(string, Json)>)
    requires WellFormedFields(fields)
    ensures RepairedAt(rt, fields, entries, RepairedFields(rt, fields, entries))
    decreases fields
  {
    match fields
    case NoFields =>
    case Field(name, schema, rest) =>
      var child := Lookup(entries, name);
      if child.None? {
        RepairedFieldsAt(rt, rest, entries);
        RepairedFieldsKeep(rt, rest, entries, name);
      } else {
        var v := Repaired(rt, schema, child.value);
        var next := Replaced(entries, name, v);
        RepairedFieldsAt(rt, rest, next);
        RepairedFieldsKeep(rt, rest, next, name);
        LookupReplaced(entries, name, v, name);
        forall k | k in Names(rest) ensures Lookup(next, k) == Lookup(entries, k) { LookupReplaced(entries, name, v, k); }
        RepairedAtShift(rt, rest, next, entries, RepairedFields(rt, rest, next));
      }
  }

  /** When every issue can be converted, one pass leaves issues only at least one level deeper. */
  lemma {:induction false} RepairDeepens(rt: Runtime, s: Schema, v: Json, n: int)
    requires WellFormed(s) && Convertible(rt, v, Issues(s, Some(v))) && AtLeast(Issues(s, Some(v)), n)
    ensures AtLeast(Issues(s, Some(Repaired(rt, s, v))), if n < 0 then 1 else n + 1)
    decreases s, 0
  {
    var level := if n < 0 then 0 else n;
    match s
    case ZString => if !v.JStr? { NodeDeepens(rt, s, v, TString, n); }
    case ZNumber => if !v.JNum? { NodeDeepens(rt, s, v, TNumber, n); }
    case ZBoolean => if !v.JBool? { NodeDeepens(rt, s, v, TBoolean, n); }
    case ZEnum(values) =>
      if Issues(s, Some(v)) != [] { assert Conversion(rt, v, Issues(s, Some(v))[0]).Some?; }
    case ZObject(fields) =>
      if v.JObj? {
        RepairedFieldsAt(rt, fields, v.entries);
        FieldsDeepen(rt, fields, v.entries, RepairedFields(rt, fields, v.entries), n);
      } else {
        NodeDeepens(rt, s, v, TObject, n);
      }
    case ZArray(element) =>
      if v.JArr? {
        assert v.items[0..] == v.items;
        ItemsAreConvertible(rt, element, v.items, 0);
        ItemsDeepen(rt, element, v.items, 0, n);
      } else { NodeDeepens(rt, s, v, TArray, n); }
    case ZOptional(inner) => RepairDeepens(rt, inner, v, n);
  }

  lemma NodeDeepens(rt: Runtime, s: Schema, v: Json, expected: Type, n: int)
    requires match s
      case ZString => expected == TString
      case ZNumber => expected == TNumber
      case ZBoolean => expected == TBoolean
      case ZObject(_) => expected == TObject
      case ZArray(_) => expected == TArray
      case _ => false
    requires Convertible(rt, v, Wrong(expected, Some(v))) && AtLeast(Wrong(expected, Some(v)), n)
    ensures AtLeast(Issues(s, Some(ConvertNode(rt, v, expected))), if n < 0 then 1 else n + 1)
  {
    ConvertedIsBelow(rt, s, v, expected);
    assert |Wrong(expected, Some(v))[0].path| == 0;
  }

  lemma {:induction false} FieldsDeepen(rt: Runtime, fields: Fields, before: seq<(string, Json)>, after: seq<(string, Json)>, n: int)
    requires WellFormedFields(fields) && RepairedAt(rt, fields, before, after)
    requires Convertible(rt, JObj(before), FieldIssues(fields, before)) && AtLeast(FieldIssues(fields, before), n)
    ensures AtLeast(FieldIssues(fields, after), if n < 0 then 1 else n + 1)
    decreases fields, 1
  {
    match fields
    case NoFields =>
    case Field(name, schema, rest) =>
      var child := Lookup(before, name);
      var issues, others := Issues(schema, child), FieldIssues(rest, before);
      Halves(rt, JObj(before), Under(Key(name), issues), others, n);
      FieldsDeepen(rt, rest, before, after, n);
      ConversionUnderKey(rt, before, name, issues);
      LiftLevel(Key(name), issues, n);
      var now := Issues(schema, Lookup(after, name));
      if child.Some? { RepairDeepens(rt, schema, child.value, n - 1); }
      LiftLevel(Key(name), now, if n < 0 then 1 else n + 1);
      Joined(Under(Key(name), now), FieldIssues(rest, after), if n < 0 then 1 else n + 1);
  }

  lemma Joined(a: seq<Issue>, b: seq<Issue>, n: int)
    requires AtLeast(a, n) && AtLeast(b, n)
    ensures AtLeast(a + b, n)
  {
  }

  lemma {:induction false} ItemsDeepen(rt: Runtime, element: Schema, items: seq<Json>, from: nat, n: int)
    requires WellFormed(element) && ItemsConvertible(rt, element, items) && AtLeast(ItemIssues(element, items, from), n)
    ensures AtLeast(ItemIssues(element, RepairedItems(rt, element, items), from), if n < 0 then 1 else n + 1)
    decreases element, 1, |items|
  {
    if items != [] {
      var issues, others := Issues(element, Some(items[0])), ItemIssues(element, items[1..], from + 1);
      var all := Under(Index(from), issues) + others;
      forall i | 0 <= i < |issues| ensures |Under(Index(from), issues)[i].path| >= n { assert all[i].path == Under(Index(from), issues)[i].path; }
      forall i | 0 <= i < |others| ensures |others[i].path| >= n { assert all[|issues| + i] == others[i]; }
      ItemsDeepen(rt, element, items[1..], from + 1, n);
      LiftLevel(Index(from), issues, n);
      RepairDeepens(rt, element, items[0], n - 1);
      var now := Issues(element, Some(Repaired(rt, element, items[0])));
      LiftLevel(Index(from), now, if n < 0 then 1 else n + 1);
      var fixed := RepairedItems(rt, element, items);
      assert fixed[1..] == RepairedItems(rt, element, items[1..]);
      Joined(Under(Index(from), now), ItemIssues(element, fixed[1..], from + 1), if n < 0 then 1 else n + 1);
    }
  }

  ghost predicate ItemsConvertible(rt: Runtime, element: Schema, items: seq<Json>) {
    forall i :: 0 <= i < |items| ==> Convertible(rt, items[i], Issues(element, Some(items[i])))
  }

  lemma {:induction false} ItemsAreConvertible(rt: Runtime, element: Schema, items: seq<Json>, k: nat)
    requires k <= |items| && Convertible(rt, JArr(items), ItemIssues(element, items[k..], k))
    ensures forall i :: k <= i < |items| ==> Convertible(rt, items[i], Issues(element, Some(items[i])))
    decreases |items| - k
  {
    if k < |items| {
      var issues, others := Issues(element, Some(items[k])), ItemIssues(element, items[k + 1..], k + 1);
      assert items[k..][1..] == items[k + 1..] && items[k..][0] == items[k];
      Halves(rt, JArr(items), Under(Index(k), issues), others, 0);
      ConversionUnderIndex(rt, items, k, issues);
      ItemsAreConvertible(rt, element, items, k + 1);
    }
  }

  // ---------------------------------------------------------------- depth

  function Max(a: nat, b: nat): nat { if a < b then b else a }

  /** How many levels of objects and arrays a schema has below its root. */
  function Depth(s: Schema): nat
    decreases s, 0
  {
    match s
    case ZObject(fields) => FieldsDepth(fields)
    case ZArray(element) => 1 + Depth(element)
    case ZOptional(inner) => Depth(inner)
    case _ => 0
  }

  function FieldsDepth(fields: Fields): nat
    decreases fields, 1
  {
    match fields
    case NoFields => 0
    case Field(_, schema, rest) => Max(1 + Depth(schema), FieldsDepth(rest))
  }

  ghost predicate AtMost(issues: seq<Issue>, n: int) { forall i :: 0 <= i < |issues| ==> |issues[i].path| <= n }

  /** No issue is reported below the schema's last level. */
  lemma {:induction false} IssuesWithinDepth(s: Schema, v: Option<Json>)
    ensures AtMost(Issues(s, v), Depth(s))
    decreases s, 0
  {
    match s
    case ZObject(fields) => if v.Some? && v.value.JObj? { FieldsWithinDepth(fields, v.value.entries); }
    case ZArray(element) => if v.Some? && v.value.JArr? { ItemsWithinDepth(element, v.value.items, 0); }
    case ZOptional(inner) => if v.Some? { IssuesWithinDepth(inner, v); }
    case _ =>
  }

  lemma {:induction false} FieldsWithinDepth(fields: Fields, entries: seq<(string, Json)>)
    ensures AtMost(FieldIssues(fields, entries), FieldsDepth(fields))
    decreases fields, 1
  {
    match fields
    case NoFields =>
    case Field(name, schema, rest) =>
      IssuesWithinDepth(schema, Lookup(entries, name));
      FieldsWithinDepth(rest, entries);
  }

  lemma {:induction false} ItemsWithinDepth(element: Schema, items: seq<Json>, from: nat)
    ensures AtMost(ItemIssues(element, items, from), 1 + Depth(element))
    decreases element, 1, |items|
  {
    if items != [] {
      IssuesWithinDepth(element, Some(items[0]));
      ItemsWithinDepth(element, items[1..], from + 1);
    }
  }

  // ---------------------------------------------------------------- success

  /** Each issue met in the first `rounds` attempts is below the root and can be converted. */
  ghost predicate EveryIssueConverts(rt: Runtime, s: Schema, arg: Option<Json>, rounds: nat)
    decreases rounds
  {
    rounds == 0 || Issues(s, arg) == [] ||
    (arg.Some? && AtLeast(Issues(s, arg), 1) && Convertible(rt, arg.value, Issues(s, arg)) &&
     EveryIssueConverts(rt, s, Some(FixAll(rt, arg.value, Issues(s, arg))), rounds - 1))
  }

  lemma {:induction false} AllBelowRoot(issues: seq<Issue>)
    requires AtLeast(issues, 1)
    ensures BelowRoot(issues) == issues
    decreases |issues|
  {
    if issues != [] {
      assert |issues[0].path| >= 1;
      forall i | 0 <= i < |issues[1..]| ensures |issues[1..][i].path| >= 1 { assert issues[1..][i] == issues[i + 1]; }
      AllBelowRoot(issues[1..]);
    }
  }

  /** One round on which every issue converts: the loop goes on with issues at least a level deeper. */
  lemma RoundGoesOn(rt: Runtime, s: Schema, v: Json, n: nat, maxDepth: nat)
    requires WellFormed(s) && 1 <= n && maxDepth > 0
    requires
      var issues := Issues(s, Some(v));
      issues != [] && AtLeast(issues, n) && Convertible(rt, v, issues)
    ensures
      var next := NextArg(rt, s, v);
      n <= Depth(s) && AtLeast(Issues(s, next), n + 1) &&
      Parse(rt, s, Some(v), maxDepth).result == Parse(rt, s, next, maxDepth - 1).result
  {
    var issues := Issues(s, Some(v));
    assert n <= Depth(s) by {
      IssuesWithinDepth(s, Some(v));
      assert n <= |issues[0].path| <= Depth(s);
    }
    AllBelowRoot(issues);
    assert Conversion(rt, v, issues[0]).Some?;
    FixAllIsRepaired(rt, s, v);
    RepairDeepens(rt, s, v, n);
  }

  lemma ConvertsOn(rt: Runtime, s: Schema, arg: Option<Json>, rounds: nat)
    requires rounds > 0 && Issues(s, arg) != [] && EveryIssueConverts(rt, s, arg, rounds)
    ensures arg.Some? && Convertible(rt, arg.value, Issues(s, arg))
    ensures EveryIssueConverts(rt, s, NextArg(rt, s, arg.value), rounds - 1)
  {
  }

  /** The attempt that comes next, when there is one. */
  ghost function NextArg(rt: Runtime, s: Schema, v: Json): Option<Json> { Some(FixAll(rt, v, Issues(s, Some(v)))) }

  /** An attempt whose issues all lie at level `n` or deeper, with enough attempts left for the levels below. */
  ghost predicate Ready(rt: Runtime, s: Schema, arg: Option<Json>, n: nat, maxDepth: nat) {
    1 <= n && 0 < maxDepth && n + maxDepth > Depth(s) + 1 &&
    AtLeast(Issues(s, arg), n) && EveryIssueConverts(rt, s, arg, maxDepth)
  }

  lemma GoesOn(rt: Runtime, s: Schema, arg: Option<Json>, n: nat, maxDepth: nat) returns (next: Option<Json>)
    requires WellFormed(s) && Ready(rt, s, arg, n, maxDepth) && Issues(s, arg) != []
    ensures maxDepth > 1 && Ready(rt, s, next, n + 1, maxDepth - 1)
    ensures Parse(rt, s, arg, maxDepth).result == Parse(rt, s, next, maxDepth - 1).result
  {
    ConvertsOn(rt, s, arg, maxDepth);
    RoundGoesOn(rt, s, arg.value, n, maxDepth);
    next := NextArg(rt, s, arg.value);
  }

  lemma ParsesAtOnce(rt: Runtime, s: Schema, arg: Option<Json>, maxDepth: nat)
    requires maxDepth > 0 && Issues(s, arg) == []
    ensures Parse(rt, s, arg, maxDepth).result.Ok?
  {
  }

  lemma SucceedsFrom(rt: Runtime, s: Schema, arg: Option<Json>, n: nat, maxDepth: nat)
    requires WellFormed(s) && Ready(rt, s, arg, n, maxDepth)
    ensures Parse(rt, s, arg, maxDepth).result.Ok?
  {
    var a, k, d := arg, n, maxDepth;
    while Issues(s, a) != []
      invariant Ready(rt, s, a, k, d)
      invariant Parse(rt, s, arg, maxDepth).result == Parse(rt, s, a, d).result
      decreases d
    {
      var next := GoesOn(rt, s, a, k, d);
      a, k, d := next, k + 1, d - 1;
    }
    ParsesAtOnce(rt, s, a, d);
  }

  /**
   If every mismatch met lies below the root and can be converted, the parse succeeds whenever the
   schema's nesting depth is below `maxDepth`.
   */
  lemma ConvertibleSucceeds(rt: Runtime, s: Schema, arg: Option<Json>, maxDepth: nat)
    requires WellFormed(s) && EveryIssueConverts(rt, s, arg, maxDepth) && Depth(s) < maxDepth
    ensures Parse(rt, s, arg, maxDepth).result.Ok?
  {
    SucceedsFrom(rt, s, arg, 1, maxDepth);
  }

  /** The bound is sharp: a schema as deep as `maxDepth` can fail although its one mismatch is convertible. */
  lemma DepthBoundIsSharp(rt: Runtime)
    requires rt.parseFloat("1") == Some(1.0)
    ensures
      var s := ZObject(Field("a", ZNumber, NoFields));
      var arg := Some(JObj([("a", JStr("1"))]));
      Depth(s) == 1 && EveryIssueConverts(rt, s, arg, 1) && Parse(rt, s, arg, 1).result == Err(DepthExceeded)
  {
    var s := ZObject(Field("a", ZNumber, NoFields));
    var v := JObj([("a", JStr("1"))]);
    var issue := Mismatch([Key("a")], TNumber, TString);
    var issues := Issues(s, Some(v));
    var root: seq<Step> := [];
    assert [Key("a")] + root == [Key("a")];
    assert Issues(ZNumber, Some(JStr("1"))) == [Mismatch(root, TNumber, TString)];
    assert Under(Key("a"), Issues(ZNumber, Some(JStr("1")))) == [issue];
    assert issues == [issue];
    assert issue.path[1..] == [];
    assert Conversion(rt, v, issue) == Some(JNum(1.0));
    AllBelowRoot(issues);
  }
}
