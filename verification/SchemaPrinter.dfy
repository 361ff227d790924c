/** Printing parsed schemas back as schema text, and which parsed schemas the text can carry. */
module SchemaPrinter {
  import opened Common
  import opened SchemaText
  import opened SchemaParser
  import opened SchemaSplitting

  // ---------------------------------------------------------------- printing

  function Digit(d: nat): char
    requires d < 10
  {
    ('0' as int + d) as char
  }

  function PrintNat(n: nat): string {
    if n < 10 then [Digit(n)] else PrintNat(n / 10) + [Digit(n % 10)]
  }

  function Quoted(s: string): string { "\"" + s + "\"" }

  function QuotedAll(items: seq<string>): seq<string> {
    if items == [] then [] else [Quoted(items[0])] + QuotedAll(items[1..])
  }

  /** Object literals are outside the printed fragment. */
  function ArgText(a: Arg): string {
    match a
    case Num(n) => PrintNat(n)
    case Str(s) => Quoted(s)
    case List(items) => "[" + Join(QuotedAll(items), ',') + "]"
    case Literal(_) => "{}"
  }

  function ArgTexts(args: seq<Arg>): seq<string> {
    if args == [] then [] else [ArgText(args[0])] + ArgTexts(args[1..])
  }

  function ArgsInside(args: seq<Arg>): string { Join(ArgTexts(args), ',') }

  function ArgsText(args: seq<Arg>): string { "(" + ArgsInside(args) + ")" }

  function ModifierText(m: Modifier): string { m.name + ArgsText(m.args) }

  function ModifierTexts(ms: seq<Modifier>): seq<string> {
    if ms == [] then [] else [ModifierText(ms[0])] + ModifierTexts(ms[1..])
  }

  /** The modifiers with dots between them. */
  function Chain(ms: seq<Modifier>): string {
    if ms == [] then "" else ModifierText(ms[0]) + Modifiers(ms[1..])
  }

  /** The modifiers, each behind its dot. */
  function Modifiers(ms: seq<Modifier>): string {
    if ms == [] then "" else "." + (ModifierText(ms[0]) + Modifiers(ms[1..]))
  }

  function BaseText(base: string, args: Option<seq<Arg>>): string {
    base + if args.Some? then ArgsText(args.value) else ""
  }

  function ObjectText(content: string): string { "z.object({" + content + "})" }

  function ArrayText(content: string): string { "z.array(" + content + ")" }

  function Print(t: TypeInfo): string
    decreases t
  {
    match t
    case Scalar(base, args, ms) => "z." + (BaseText(base, args) + Modifiers(ms))
    case Nested(fields, ms) => ObjectText(PrintFields(fields)) + Modifiers(ms)
    case ObjectArray(fields, ms) => ArrayText(ObjectText(PrintFields(fields))) + Modifiers(ms)
    case SimpleArray(inner, ms) => ArrayText(Print(inner)) + Modifiers(ms)
  }

  function PropertyTexts(fields: Record): seq<string>
    decreases fields, 0
  {
    match fields
    case Empty => []
    case Entry(key, value, rest) => [key + ":" + Print(value)] + PropertyTexts(rest)
  }

  function PrintFields(fields: Record): string
    decreases fields, 1
  {
    Join(PropertyTexts(fields), ',')
  }

  // ---------------------------------------------------------------- the printed fragment

  predicate IsName(s: string) { s != "" && forall i :: 0 <= i < |s| ==> IsWordChar(s[i]) }

  predicate IsSafeChar(c: char) { IsFlatChar(c) && c != '\"' && c != '\\' }

  /** Neither a dot nor a bracket the parser counts without looking at quotes, nor the end of a line. */
  predicate IsFlatChar(c: char) { c !in {'.', '(', ')', '{', '}'} && !IsLineEnd(c) }

  predicate Flat(s: string) { forall i :: 0 <= i < |s| ==> IsFlatChar(s[i]) }

  predicate Safe(s: string) { forall i :: 0 <= i < |s| ==> IsSafeChar(s[i]) }

  predicate PrintableArg(a: Arg) {
    match a
    case Num(_) => true
    case Str(s) => Safe(s)
    case List(items) => forall i :: 0 <= i < |items| ==> Safe(items[i])
    case Literal(_) => false
  }

  /** An argument that may stand beside others: no list, and no comma in a string. */
  predicate IsSimple(a: Arg) { a.Num? || (a.Str? && ',' !in a.s) }

  predicate AllPrintable(args: seq<Arg>) { forall i :: 0 <= i < |args| ==> PrintableArg(args[i]) }

  predicate AllSimple(args: seq<Arg>) { forall i :: 0 <= i < |args| ==> IsSimple(args[i]) }

  predicate StringsAtBothEnds(args: seq<Arg>) { |args| >= 2 && args[0].Str? && args[|args| - 1].Str? }

  predicate PrintableArgs(args: seq<Arg>) {
    AllPrintable(args) && (|args| >= 2 ==> AllSimple(args) && !StringsAtBothEnds(args))
  }

  predicate PrintableModifier(m: Modifier) { IsName(m.name) && PrintableArgs(m.args) }

  predicate PrintableModifiers(ms: seq<Modifier>) { forall i :: 0 <= i < |ms| ==> PrintableModifier(ms[i]) }

  predicate AllowedModifiers(ms: seq<Modifier>) { forall i :: 0 <= i < |ms| ==> IsAllowed(ms[i].name) }

  predicate HasKey(fields: Record, key: string) { fields.Entry? && (fields.key == key || HasKey(fields.rest, key)) }

  /**
   Base names are words other than the two that start objects and arrays; an object in an array carries no
   modifiers; keys are distinct words. Names need not be ones that the parser allows.
   */
  predicate Printable(t: TypeInfo) {
    match t
    case Scalar(base, args, ms) =>
      IsName(base) && base != "object" && base != "array" && (args.Some? ==> PrintableArgs(args.value)) && PrintableModifiers(ms)
    case Nested(fields, ms) => PrintableFields(fields) && PrintableModifiers(ms)
    case ObjectArray(fields, ms) => PrintableFields(fields) && PrintableModifiers(ms)
    case SimpleArray(inner, ms) => !inner.Nested? && Printable(inner) && PrintableModifiers(ms)
  }

  predicate PrintableFields(fields: Record) {
    match fields
    case Empty => true
    case Entry(key, value, rest) => IsName(key) && !HasKey(rest, key) && Printable(value) && PrintableFields(rest)
  }

  // ---------------------------------------------------------------- what assignment keeps

  /** The type without its properties named `__proto__`, at any depth. */
  function Kept(t: TypeInfo): TypeInfo {
    match t
    case Scalar(_, _, _) => t
    case Nested(fields, ms) => Nested(KeptFields(fields), ms)
    case ObjectArray(fields, ms) => ObjectArray(KeptFields(fields), ms)
    case SimpleArray(inner, ms) => SimpleArray(Kept(inner), ms)
  }

  function KeptFields(fields: Record): Record {
    match fields
    case Empty => Empty
    case Entry(key, value, rest) => if key == PROTO then KeptFields(rest) else Entry(key, Kept(value), KeptFields(rest))
  }

  /** No property at any depth is named `__proto__`. */
  predicate NoProto(t: TypeInfo) {
    match t
    case Scalar(_, _, _) => true
    case Nested(fields, _) => NoProtoFields(fields)
    case ObjectArray(fields, _) => NoProtoFields(fields)
    case SimpleArray(inner, _) => NoProto(inner)
  }

  predicate NoProtoFields(fields: Record) {
    match fields
    case Empty => true
    case Entry(key, value, rest) => key != PROTO && NoProto(value) && NoProtoFields(rest)
  }

  function Length(fields: Record): nat { if fields.Empty? then 0 else 1 + Length(fields.rest) }

  lemma {:induction false} KeptShorter(fields: Record)
    ensures Length(KeptFields(fields)) <= Length(fields)
  {
    if fields.Entry? { KeptShorter(fields.rest); }
  }

  lemma {:induction false} KeptIsWhole(t: TypeInfo)
    ensures Kept(t) == t <==> NoProto(t)
    decreases t
  {
    match t
    case Scalar(_, _, _) =>
    case Nested(fields, _) => KeptFieldsAreWhole(fields);
    case ObjectArray(fields, _) => KeptFieldsAreWhole(fields);
    case SimpleArray(inner, _) => KeptIsWhole(inner);
  }

  lemma {:induction false} KeptFieldsAreWhole(fields: Record)
    ensures KeptFields(fields) == fields <==> NoProtoFields(fields)
    decreases fields
  {
    if fields.Entry? {
      KeptShorter(fields.rest);
      KeptIsWhole(fields.value);
      KeptFieldsAreWhole(fields.rest);
    }
  }

  // ---------------------------------------------------------------- what the parser refuses

  /** The list, spelled out. */
  lemma AllowedAre(name: string)
    ensures IsAllowed(name) <==>
      name in {"string", "number", "int", "boolean", "date", "object", "array", "enum", "optional", "max", "min", "describe", "default"}
  {
    var a := ALLOWED_TYPES;
    assert |a| == 13 && a[0] == "string" && a[1] == "number" && a[2] == "int" && a[3] == "boolean" && a[4] == "date" && a[5] == "object";
    assert a[6] == "array" && a[7] == "enum" && a[8] == "optional" && a[9] == "max" && a[10] == "min" && a[11] == "describe" && a[12] == "default";
  }

  /** Every base and every modifier of a scalar is in the list, at any depth; properties that are not kept do not count. */
  predicate AllowedType(t: TypeInfo) {
    match t
    case Scalar(base, _, ms) => IsAllowed(base) && AllowedModifiers(ms)
    case Nested(fields, _) => AllowedFields(fields)
    case ObjectArray(fields, _) => AllowedFields(fields)
    case SimpleArray(inner, _) => AllowedType(inner)
  }

  predicate AllowedFields(fields: Record) {
    match fields
    case Empty => true
    case Entry(key, value, rest) => (key == PROTO || AllowedType(value)) && AllowedFields(rest)
  }

  /** The modifiers behind objects and arrays are in the list, and every array of objects holds allowed types only. */
  predicate Accepts(t: TypeInfo) {
    match t
    case Scalar(_, _, _) => true
    case Nested(fields, ms) => AllowedModifiers(ms) && AcceptsFields(fields)
    case ObjectArray(fields, ms) => AllowedModifiers(ms) && AcceptsFields(fields) && AllowedFields(fields)
    case SimpleArray(inner, ms) => AllowedModifiers(ms) && Accepts(inner)
  }

  predicate AcceptsFields(fields: Record) {
    match fields
    case Empty => true
    case Entry(_, value, rest) => Accepts(value) && AcceptsFields(rest)
  }

  /** The error names a base or modifier that stands in the tree and not in the list. */
  predicate Blames(t: TypeInfo, e: Error) {
    match t
    case Scalar(base, _, ms) => (e == UnsupportedType(base) && !IsAllowed(base)) || BlamesModifier(ms, e)
    case Nested(fields, ms) => BlamesFields(fields, e) || BlamesModifier(ms, e)
    case ObjectArray(fields, ms) => BlamesFields(fields, e) || BlamesModifier(ms, e)
    case SimpleArray(inner, ms) => Blames(inner, e) || BlamesModifier(ms, e)
  }

  predicate BlamesFields(fields: Record, e: Error) {
    match fields
    case Empty => false
    case Entry(_, value, rest) => Blames(value, e) || BlamesFields(rest, e)
  }

  predicate BlamesModifier(ms: seq<Modifier>, e: Error) {
    exists i :: 0 <= i < |ms| && e == UnsupportedModifier(ms[i].name) && !IsAllowed(ms[i].name)
  }

  /** What reading a printed type gives: the kept type, or an error for a name that is not allowed. */
  predicate ReadsAs(t: TypeInfo, r: Result<TypeInfo, Error>) {
    if Accepts(t) then r == Ok(Kept(t)) else r.Err? && Blames(t, r.error)
  }

  predicate FieldsReadAs(fields: Record, r: Result<Record, Error>) {
    if AcceptsFields(fields) then r == Ok(KeptFields(fields)) else r.Err? && BlamesFields(fields, r.error)
  }

  /** The first modifier that is not in the list. */
  function FirstBad(ms: seq<Modifier>): Option<string> {
    if ms == [] then None else if !IsAllowed(ms[0].name) then Some(ms[0].name) else FirstBad(ms[1..])
  }

  /** The value, unless a modifier is not in the list. */
  function Checked<T>(ms: seq<Modifier>, value: Result<T, Error>): Result<T, Error> {
    if FirstBad(ms).Some? then Err(UnsupportedModifier(FirstBad(ms).value)) else value
  }

  lemma {:induction false} FirstBadIs(ms: seq<Modifier>)
    ensures FirstBad(ms) == None <==> AllowedModifiers(ms)
    ensures FirstBad(ms).Some? ==> BlamesModifier(ms, UnsupportedModifier(FirstBad(ms).value))
    decreases |ms|
  {
    if ms != [] {
      FirstBadIs(ms[1..]);
      assert ms == [ms[0]] + ms[1..];
      if FirstBad(ms[1..]).Some? {
        var i :| 0 <= i < |ms[1..]| && FirstBad(ms[1..]).value == ms[1..][i].name && !IsAllowed(ms[1..][i].name);
        assert ms[i + 1] == ms[1..][i];
      }
      if AllowedModifiers(ms) {
        forall i | 0 <= i < |ms[1..]| ensures IsAllowed(ms[1..][i].name) { assert ms[1..][i] == ms[i + 1]; }
      } else if IsAllowed(ms[0].name) {
        var i :| 0 <= i < |ms| && !IsAllowed(ms[i].name);
        assert ms[i] == ms[1..][i - 1];
      }
    }
  }

  lemma {:induction false} ModifiersValidate(ms: seq<Modifier>)
    ensures ValidateModifiers(ms) == Checked(ms, Ok(()))
    decreases |ms|
  {
    if ms != [] { ModifiersValidate(ms[1..]); }
  }

  /** The check of a kept type passes exactly when the type is allowed, and blames a name that is not. */
  lemma {:induction false} TypeValidates(t: TypeInfo)
    ensures
      var r := ValidateTypeInfo(Kept(t));
      if AllowedType(t) then r == Ok(()) else r.Err? && Blames(t, r.error)
    decreases t
  {
    match t
    case Scalar(_, _, ms) =>
      ModifiersValidate(ms);
      FirstBadIs(ms);
    case Nested(fields, _) => FieldsValidate(fields);
    case ObjectArray(fields, _) => FieldsValidate(fields);
    case SimpleArray(inner, _) => TypeValidates(inner);
  }

  lemma {:induction false} FieldsValidate(fields: Record)
    ensures
      var r := ValidateFields(KeptFields(fields));
      if AllowedFields(fields) then r == Ok(()) else r.Err? && BlamesFields(fields, r.error)
    decreases fields
  {
    if fields.Entry? {
      TypeValidates(fields.value);
      FieldsValidate(fields.rest);
    }
  }

  // ---------------------------------------------------------------- numbers and strings

  lemma {:induction false} PrintNatDigits(n: nat)
    ensures AllDigits(PrintNat(n)) && ToNumber(PrintNat(n)) == n
  {
    var s := PrintNat(n);
    if n < 10 {
      assert s[..0] == "";
    } else {
      PrintNatDigits(n / 10);
      assert s[..|s| - 1] == PrintNat(n / 10);
    }
  }

  lemma InnerOf(open: char, s: string, close: char)
    ensures Inner([open] + s + [close]) == s
  {
    var x := [open] + s + [close];
    assert x[1..|x| - 1] == s;
  }

  lemma UnquotedQuoted(s: string)
    ensures Trim(Quoted(s)) == Quoted(s) && Unquoted(Quoted(s)) == s && Inner(Quoted(s)) == s
  {
    TrimTrimmed(Quoted(s));
    var t := Quoted(s)[1..];
    assert t == s + "\"" && t[..|t| - 1] == s;
    InnerOf('\"', s, '\"');
  }

  lemma {:induction false} ItemsInString(s: string, rest: string, prev: char, current: string)
    requires prev != '\\' && Safe(s)
    ensures ItemsFrom(s + "\"" + rest, prev, current, Some('\"')) == ItemsFrom(rest, '\"', current + s + "\"", None)
    decreases |s|
  {
    var x := s + "\"" + rest;
    if s == "" {
      assert x[0] == '\"' && x[1..] == rest;
      assert current + s + "\"" == current + ['\"'];
    } else {
      assert IsSafeChar(s[0]);
      assert x[0] == s[0] && x[1..] == s[1..] + "\"" + rest;
      ItemsInString(s[1..], rest, s[0], current + [s[0]]);
      assert current + [s[0]] + s[1..] + "\"" == current + s + "\"";
    }
  }

  lemma ItemsQuoted(s: string, rest: string, prev: char)
    requires Safe(s)
    ensures ItemsFrom(Quoted(s) + rest, prev, "", None) == ItemsFrom(rest, '\"', Quoted(s), None)
  {
    var x := Quoted(s) + rest;
    assert x[0] == '\"' && x[1..] == s + "\"" + rest;
    ItemsInString(s, rest, '\"', "" + ['\"']);
    assert "" + ['\"'] + s + "\"" == Quoted(s);
  }

  /** A printed list of strings is read back item by item. */
  lemma {:induction false} ItemsRoundTrip(items: seq<string>, prev: char)
    requires forall i :: 0 <= i < |items| ==> Safe(items[i])
    ensures ItemsFrom(Join(QuotedAll(items), ','), prev, "", None) == items
    decreases |items|
  {
    if items == [] {
    } else {
      var text, tail := Quoted(items[0]), QuotedAll(items[1..]);
      UnquotedQuoted(items[0]);
      assert QuotedAll(items) == [text] + tail && QuotedAll(items)[1..] == tail;
      if |items| == 1 {
        assert text + "" == text;
        ItemsQuoted(items[0], "", prev);
        assert items == [items[0]];
      } else {
        assert |tail| > 0;
        var more := "," + Join(tail, ',');
        assert Join(QuotedAll(items), ',') == text + more;
        ItemsQuoted(items[0], more, prev);
        assert more[1..] == Join(tail, ',');
        ItemsRoundTrip(items[1..], ',');
        assert items == [items[0]] + items[1..];
      }
    }
  }

  // ---------------------------------------------------------------- splitting at one character

  lemma {:induction false} SplitOnFirst(p: string, rest: string, c: char)
    requires c !in p
    ensures SplitOn(p, c) == [p]
    ensures SplitOn(p + [c] + rest, c) == [p] + SplitOn(rest, c)
    decreases |p|
  {
    var x := p + [c] + rest;
    if p == "" {
      assert x[0] == c && x[1..] == rest;
    } else {
      assert p[0] in p;
      SplitOnFirst(p[1..], rest, c);
      assert x[0] == p[0] && x[1..] == p[1..] + [c] + rest;
      assert [p[0]] + p[1..] == p;
    }
  }

  lemma {:induction false} SplitOnJoin(texts: seq<string>, c: char)
    requires texts != [] && forall i :: 0 <= i < |texts| ==> c !in texts[i]
    ensures SplitOn(Join(texts, c), c) == texts
    decreases |texts|
  {
    assert c !in texts[0];
    if |texts| == 1 {
      SplitOnFirst(texts[0], "", c);
      assert texts == [texts[0]];
    } else {
      SplitOnJoin(texts[1..], c);
      SplitOnFirst(texts[0], Join(texts[1..], c), c);
      assert texts == [texts[0]] + texts[1..];
    }
  }

  // ---------------------------------------------------------------- how argument texts look

  /** Text that keeps its ends when trimmed. */
  predicate Solid(s: string) { s != "" && !IsSpace(s[0]) && !IsSpace(s[|s| - 1]) }

  lemma {:induction false} JoinShape(texts: seq<string>, c: char)
    requires texts != [] && !IsSpace(c) && forall i :: 0 <= i < |texts| ==> Solid(texts[i])
    ensures
      var j, last := Join(texts, c), texts[|texts| - 1];
      Solid(texts[0]) && Solid(last) && Solid(j) && j[0] == texts[0][0] && j[|j| - 1] == last[|last| - 1]
    ensures |texts| >= 2 ==> c in Join(texts, c)
    decreases |texts|
  {
    assert Solid(texts[0]);
    if |texts| >= 2 {
      JoinShape(texts[1..], c);
      var j := Join(texts, c);
      assert j[|texts[0]|] == c;
    }
  }

  lemma {:induction false} JoinFlat(texts: seq<string>, c: char)
    requires IsFlatChar(c) && forall i :: 0 <= i < |texts| ==> Flat(texts[i])
    ensures Flat(Join(texts, c))
    decreases |texts|
  {
    if texts != [] {
      assert Flat(texts[0]);
      if |texts| >= 2 { JoinFlat(texts[1..], c); }
    }
  }

  lemma {:induction false} JoinNeutral(texts: seq<string>)
    requires forall i :: 0 <= i < |texts| ==> Neutral(texts[i], 0)
    ensures Neutral(Join(texts, ','), 1)
    decreases |texts|
  {
    if texts != [] {
      assert Neutral(texts[0], 0);
      NeutralWeaken(texts[0], 0, 1);
      if |texts| >= 2 {
        JoinNeutral(texts[1..]);
        NeutralComma();
        NeutralConcat(texts[0], ",", 1);
        NeutralConcat(texts[0] + ",", Join(texts[1..], ','), 1);
      }
    }
  }

  lemma QuotedShape(s: string)
    requires Safe(s)
    ensures Solid(Quoted(s)) && Flat(Quoted(s)) && Neutral(Quoted(s), 0)
  {
    forall i | 0 <= i < |s| ensures IsFlatChar(s[i]) && s[i] != '\"' && s[i] != '\\' { assert IsSafeChar(s[i]); }
    NeutralQuoted(s, '\"');
    assert Quoted(s) == ['\"'] + s + ['\"'];
  }

  lemma {:induction false} QuotedAllShape(items: seq<string>)
    requires forall i :: 0 <= i < |items| ==> Safe(items[i])
    ensures |QuotedAll(items)| == |items|
    ensures forall i :: 0 <= i < |items| ==> Flat(QuotedAll(items)[i]) && Neutral(QuotedAll(items)[i], 0)
    decreases |items|
  {
    if items != [] {
      assert Safe(items[0]);
      QuotedShape(items[0]);
      QuotedAllShape(items[1..]);
    }
  }

  lemma DigitsShape(s: string)
    requires AllDigits(s)
    ensures Solid(s) && Flat(s) && Neutral(s, 0)
  {
    forall i | 0 <= i < |s| ensures IsPlainChar(s[i]) && IsFlatChar(s[i]) && !IsSpace(s[i]) { assert IsDigit(s[i]); }
    NeutralPlain(s);
  }

  lemma ListShape(items: seq<string>)
    requires PrintableArg(List(items))
    ensures var t := ArgText(List(items)); Solid(t) && Flat(t) && Neutral(t, 0)
  {
    QuotedAllShape(items);
    JoinFlat(QuotedAll(items), ',');
    JoinNeutral(QuotedAll(items));
    NeutralWrap('[', Join(QuotedAll(items), ','), ']');
  }

  lemma ArgShape(a: Arg)
    requires PrintableArg(a)
    ensures Solid(ArgText(a)) && Flat(ArgText(a)) && Neutral(ArgText(a), 0)
  {
    match a
    case Num(n) => PrintNatDigits(n); DigitsShape(PrintNat(n));
    case Str(s) => QuotedShape(s);
    case List(items) => ListShape(items);
  }

  lemma {:induction false} ArgTextsShape(args: seq<Arg>)
    requires AllPrintable(args)
    ensures |ArgTexts(args)| == |args|
    ensures forall i :: 0 <= i < |args| ==>
      ArgTexts(args)[i] == ArgText(args[i]) && Solid(ArgTexts(args)[i]) && Flat(ArgTexts(args)[i]) && Neutral(ArgTexts(args)[i], 0)
    decreases |args|
  {
    if args != [] {
      assert PrintableArg(args[0]);
      ArgShape(args[0]);
      ArgTextsShape(args[1..]);
    }
  }

  lemma ArgsShape(args: seq<Arg>)
    requires AllPrintable(args)
    ensures Trimmed(ArgsInside(args)) && Flat(ArgsInside(args))
    ensures Neutral(ArgsText(args), 0)
  {
    ArgTextsShape(args);
    if args != [] { JoinShape(ArgTexts(args), ','); }
    JoinFlat(ArgTexts(args), ',');
    JoinNeutral(ArgTexts(args));
    NeutralWrap('(', ArgsInside(args), ')');
  }

  // ---------------------------------------------------------------- arguments

  lemma TrimmedInside(args: seq<Arg>)
    requires AllPrintable(args)
    ensures Trim(Inner(ArgsText(args))) == ArgsInside(args)
  {
    ArgsShape(args);
    InnerOf('(', ArgsInside(args), ')');
    TrimTrimmed(ArgsInside(args));
  }

  lemma SimpleArgRoundTrip(a: Arg)
    requires PrintableArg(a) && IsSimple(a)
    ensures SimpleArg(Trim(ArgText(a))) == a && ',' !in ArgText(a)
  {
    ArgShape(a);
    TrimTrimmed(ArgText(a));
    match a
    case Num(n) =>
      PrintNatDigits(n);
      forall c | c in PrintNat(n) ensures c != ',' { assert IsDigit(c); }
    case Str(s) =>
      UnquotedQuoted(s);
      assert !IsDigit(Quoted(s)[0]);
  }

  lemma {:induction false} SimpleArgsRoundTrip(args: seq<Arg>)
    requires AllPrintable(args) && AllSimple(args)
    ensures SimpleArgs(ArgTexts(args)) == args
    ensures forall i :: 0 <= i < |ArgTexts(args)| ==> ',' !in ArgTexts(args)[i]
    decreases |args|
  {
    if args != [] {
      assert PrintableArg(args[0]) && IsSimple(args[0]);
      SimpleArgRoundTrip(args[0]);
      SimpleArgsRoundTrip(args[1..]);
      assert args == [args[0]] + args[1..];
    }
  }

  /** Whatever stands between two double quotes is one string. */
  lemma QuotedArgument(s: string)
    ensures ArgumentsIn(Quoted(s)) == [Str(s)]
  {
    UnquotedQuoted(s);
    assert !IsDigit(Quoted(s)[0]);
  }

  lemma OneArgument(a: Arg)
    requires PrintableArg(a)
    ensures ArgumentsIn(ArgText(a)) == [a]
  {
    match a
    case Num(n) =>
      PrintNatDigits(n);
      assert IsDigit(PrintNat(n)[0]);
    case Str(s) => QuotedArgument(s);
    case List(items) =>
      InnerOf('[', Join(QuotedAll(items), ','), ']');
      ItemsRoundTrip(items, ' ');
  }

  /** The first and last characters of a printed list of simple arguments. */
  lemma SimpleEnds(args: seq<Arg>)
    requires |args| >= 2 && AllPrintable(args) && AllSimple(args)
    ensures
      var inner := ArgsInside(args);
      inner != "" && inner[0] != '[' && inner[0] != '{' && !AllDigits(inner) &&
      (inner[0] == '\"' <==> args[0].Str?) && (inner[|inner| - 1] == '\"' <==> args[|args| - 1].Str?)
  {
    var n := |args| - 1;
    ArgTextsShape(args);
    JoinShape(ArgTexts(args), ',');
    assert IsSimple(args[0]) && IsSimple(args[n]);
    var first, last := ArgText(args[0]), ArgText(args[n]);
    if args[0].Num? { PrintNatDigits(args[0].n); assert IsDigit(first[0]); }
    if args[n].Num? { PrintNatDigits(args[n].n); assert IsDigit(last[|last| - 1]); }
    assert !IsDigit(',');
  }

  lemma SimpleArgumentsSplit(args: seq<Arg>)
    requires |args| >= 2 && AllPrintable(args) && AllSimple(args)
    ensures SimpleArgs(SplitOn(ArgsInside(args), ',')) == args
  {
    ArgTextsShape(args);
    SimpleArgsRoundTrip(args);
    SplitOnJoin(ArgTexts(args), ',');
  }

  /** Several simple arguments are read back exactly when they do not begin and end with a string. */
  lemma SeveralArguments(args: seq<Arg>)
    requires |args| >= 2 && AllPrintable(args) && AllSimple(args)
    ensures ParseArguments(ArgsText(args)) == args <==> !StringsAtBothEnds(args)
  {
    var inner := ArgsInside(args);
    TrimmedInside(args);
    SimpleEnds(args);
    SimpleArgumentsSplit(args);
    if StringsAtBothEnds(args) {
      assert ParseArguments(ArgsText(args)) == [Str(Inner(inner))];
    }
  }

  lemma TwoTexts(x: string, y: string)
    ensures Join([x, y], ',') == x + "," + y
  {
    assert [x, y][1..] == [y] && x + [','] == x + ",";
  }

  lemma TwoQuoted(x: string, y: string)
    ensures Quoted(x) + "," + Quoted(y) == Quoted(x + "\",\"" + y)
  {
  }

  lemma TwoArgTexts(a: Arg, b: Arg)
    ensures ArgTexts([a, b]) == [ArgText(a), ArgText(b)]
  {
    var rest := [a, b][1..];
    assert rest == [b] && rest[1..] == [];
    assert ArgTexts(rest) == [ArgText(b)] + [];
  }

  /** Two strings as arguments come back as one, whatever they are. */
  lemma StringsMerge(x: string, y: string)
    requires Safe(x) && Safe(y)
    ensures ParseArguments(ArgsText([Str(x), Str(y)])) == [Str(x + "\",\"" + y)]
  {
    var args, merged := [Str(x), Str(y)], x + "\",\"" + y;
    TwoArgTexts(Str(x), Str(y));
    TwoTexts(Quoted(x), Quoted(y));
    TwoQuoted(x, y);
    TrimmedInside(args);
    QuotedArgument(merged);
  }

  /** The arguments "a" and "b" do not come back. */
  lemma MergeExample()
    ensures ParseArguments(ArgsText([Str("a"), Str("b")])) == [Str("a\",\"b")] != [Str("a"), Str("b")]
  {
    StringsMerge("a", "b");
    assert "a" + "\",\"" + "b" == "a\",\"b";
  }

  lemma ArgumentsRoundTrip(args: seq<Arg>)
    requires PrintableArgs(args)
    ensures ParseArguments(ArgsText(args)) == args
  {
    if args == [] {
      TrimmedInside(args);
    } else if |args| == 1 {
      assert args == [args[0]] && args[1..] == [] && ArgTexts(args) == [ArgText(args[0])];
      TrimmedInside(args);
      OneArgument(args[0]);
    } else {
      SeveralArguments(args);
    }
  }

  /** No printed argument list is mistaken for an object literal. */
  lemma ComplexArgumentsRoundTrip(args: seq<Arg>)
    requires PrintableArgs(args)
    ensures ParseComplexArguments(ArgsText(args)) == args
  {
    ArgumentsRoundTrip(args);
    ArgsShape(args);
    var inner := ArgsInside(args);
    TrimmedInside(args);
    if inner != "" { assert IsFlatChar(inner[0]); }
  }
}
