/** The hand-written parser for schema strings, `SecureZodSchemaParser`, without its final build step. */
module SchemaParser {
  import opened Common
  import opened SchemaText

  datatype Arg = Num(n: nat) | Str(s: string) | List(items: seq<string>) | Literal(entries: seq<(string, Arg)>)

  datatype Modifier = Modifier(name: string, args: seq<Arg>)

  /** A parsed type; an absent modifier list is an empty one. */
  datatype TypeInfo =
    | Scalar(base: string, baseArgs: Option<seq<Arg>>, modifiers: seq<Modifier>)
    | Nested(fields: Record, modifiers: seq<Modifier>)
    | ObjectArray(fields: Record, modifiers: seq<Modifier>)
    | SimpleArray(inner: TypeInfo, modifiers: seq<Modifier>)

  /** The properties of an object, in insertion order. */
  datatype Record = Empty | Entry(key: string, value: TypeInfo, rest: Record)

  function Put(r: Record, key: string, value: TypeInfo): Record {
    match r
    case Empty => Entry(key, value, Empty)
    case Entry(k, v, rest) => if k == key then Entry(k, value, rest) else Entry(k, v, Put(rest, key, value))
  }

  const PROTO := "__proto__"

  /** `properties[key] = value` on a plain object: assigning to `__proto__` sets the prototype and leaves no property. */
  function Assigned(r: Record, key: string, value: TypeInfo): Record {
    if key == PROTO then r else Put(r, key, value)
  }

  datatype Error =
    | MissingObject | BadObject | BadArray | ExpectedZ | BadBase | BadModifier
    | UnsupportedType(name: string) | UnsupportedModifier(name: string)

  const ALLOWED_TYPES: seq<string> :=
    ["string", "number", "int", "boolean", "date", "object", "array", "enum", "optional", "max", "min", "describe", "default"]

  predicate IsAllowed(name: string) { exists i :: 0 <= i < |ALLOWED_TYPES| && ALLOWED_TYPES[i] == name }

  // ---------------------------------------------------------------- splitting at top-level commas

  predicate IsOpening(c: char) { c in {'(', '[', '{'} }

  predicate IsClosing(c: char) { c in {')', ']', '}'} }

  /** The last piece, kept unless it is blank. */
  function LastPiece(current: string): seq<string> { if Trim(current) == "" then [] else [Trim(current)] }

  /**
   Splits the rest `s` of the content: `prev` is the character before it, `current` the piece read so
   far, `depth` the open brackets, and `quote` the quote character of an open string.
   */
  function SplitFrom(s: string, prev: char, current: string, depth: int, quote: Option<char>): seq<string>
    decreases |s|
  {
    if s == "" then LastPiece(current)
    else
      var c, rest := s[0], s[1..];
      if quote.None? && IsQuote(c) then SplitFrom(rest, c, current + [c], depth, Some(c))
      else if quote == Some(c) && prev != '\\' then SplitFrom(rest, c, current + [c], depth, None)
      else if quote.None? && IsOpening(c) then SplitFrom(rest, c, current + [c], depth + 1, None)
      else if quote.None? && IsClosing(c) then SplitFrom(rest, c, current + [c], depth - 1, None)
      else if quote.None? && c == ',' && depth == 0 then [Trim(current)] + SplitFrom(rest, c, "", depth, None)
      else SplitFrom(rest, c, current + [c], depth, quote)
  }

  function SplitPieces(content: string): seq<string> { SplitFrom(content, ' ', "", 0, None) }

  method SplitProperties(content: string) returns (properties: seq<string>)
    ensures properties == SplitPieces(content)
  {
    properties := [];
    var current := "";
    var depth := 0;
    var inString := false;
    var stringChar := ' ';
    assert content[0..] == content;
    for i := 0 to |content|
      invariant
        properties +
        SplitFrom(content[i..], if i == 0 then ' ' else content[i - 1], current, depth, if inString then Some(stringChar) else None) ==
        SplitPieces(content)
    {
      var c := content[i];
      assert content[i..][0] == c && content[i..][1..] == content[i + 1..];
      if !inString && IsQuote(c) {
        inString, stringChar := true, c;
      } else if inString && c == stringChar && (i == 0 || content[i - 1] != '\\') {
        inString := false;
      } else if !inString {
        if IsOpening(c) {
          depth := depth + 1;
        } else if IsClosing(c) {
          depth := depth - 1;
        } else if c == ',' && depth == 0 {
          properties := properties + [Trim(current)];
          current := "";
          continue;
        }
      }
      current := current + [c];
    }
    assert content[|content|..] == "";
    if Trim(current) != "" {
      properties := properties + [Trim(current)];
    }
  }

  lemma {:induction false} PiecesAreShort(s: string, prev: char, current: string, depth: int, quote: Option<char>)
    ensures forall p :: p in SplitFrom(s, prev, current, depth, quote) ==> |p| <= |current| + |s|
    decreases |s|
  {
    TrimLength(current);
    if s != "" {
      var c, rest := s[0], s[1..];
      if quote.None? && IsQuote(c) { PiecesAreShort(rest, c, current + [c], depth, Some(c)); }
      else if quote == Some(c) && prev != '\\' { PiecesAreShort(rest, c, current + [c], depth, None); }
      else if quote.None? && IsOpening(c) { PiecesAreShort(rest, c, current + [c], depth + 1, None); }
      else if quote.None? && IsClosing(c) { PiecesAreShort(rest, c, current + [c], depth - 1, None); }
      else if quote.None? && c == ',' && depth == 0 { PiecesAreShort(rest, c, "", depth, None); }
      else { PiecesAreShort(rest, c, current + [c], depth, quote); }
    }
  }

  // ---------------------------------------------------------------- arguments

  function LastItem(current: string): seq<string> { if Trim(current) == "" then [] else [Unquoted(Trim(current))] }

  /** The items of a bracketed list: commas inside quotes do not separate. */
  function ItemsFrom(s: string, prev: char, current: string, quote: Option<char>): seq<string>
    decreases |s|
  {
    if s == "" then LastItem(current)
    else
      var c, rest := s[0], s[1..];
      if quote.None? && IsQuote(c) then ItemsFrom(rest, c, current + [c], Some(c))
      else if quote == Some(c) && prev != '\\' then ItemsFrom(rest, c, current + [c], None)
      else if quote.None? && c == ',' then [Unquoted(Trim(current))] + ItemsFrom(rest, c, "", None)
      else ItemsFrom(rest, c, current + [c], quote)
  }

  method ParseArrayContent(content: string) returns (items: seq<string>)
    ensures items == ItemsFrom(content, ' ', "", None)
  {
    items := [];
    var current := "";
    var inString := false;
    var stringChar := ' ';
    assert content[0..] == content;
    for i := 0 to |content|
      invariant
        items + ItemsFrom(content[i..], if i == 0 then ' ' else content[i - 1], current, if inString then Some(stringChar) else None) ==
        ItemsFrom(content, ' ', "", None)
    {
      var c := content[i];
      assert content[i..][0] == c && content[i..][1..] == content[i + 1..];
      if !inString && IsQuote(c) {
        inString, stringChar := true, c;
        current := current + [c];
      } else if inString && c == stringChar && (i == 0 || content[i - 1] != '\\') {
        inString := false;
        current := current + [c];
      } else if !inString && c == ',' {
        items := items + [Unquoted(Trim(current))];
        current := "";
      } else {
        current := current + [c];
      }
    }
    assert content[|content|..] == "";
    if Trim(current) != "" {
      items := items + [Unquoted(Trim(current))];
    }
  }

  function SimpleArg(text: string): Arg {
    if AllDigits(text) then Num(ToNumber(text))
    else if EndsWith(text, '\"') && text[0] == '\"' then Str(Inner(text))
    else Str(text)
  }

  /** `slice(1, -1)`. */
  function Inner(s: string): string { if |s| < 2 then "" else s[1..|s| - 1] }

  function SimpleArgs(texts: seq<string>): seq<Arg> {
    if texts == [] then [] else [SimpleArg(Trim(texts[0]))] + SimpleArgs(texts[1..])
  }

  /** The arguments written by the trimmed text between the parentheses. */
  function ArgumentsIn(inner: string): seq<Arg> {
    if inner == "" then []
    else if inner[0] == '[' && EndsWith(inner, ']') then [List(ItemsFrom(Inner(inner), ' ', "", None))]
    else if AllDigits(inner) then [Num(ToNumber(inner))]
    else if inner[0] == '\"' && EndsWith(inner, '\"') then [Str(Inner(inner))]
    else SimpleArgs(SplitOn(inner, ','))
  }

  function ParseArguments(argsStr: string): seq<Arg> { ArgumentsIn(Trim(Inner(argsStr))) }

  /** The entries with one assigned: an entry of the same key keeps its place. */
  function PutEntry(entries: seq<(string, Arg)>, key: string, value: Arg): seq<(string, Arg)> {
    if entries == [] then [(key, value)]
    else if entries[0].0 == key then [(key, value)] + entries[1..]
    else [entries[0]] + PutEntry(entries[1..], key, value)
  }

  function LiteralValue(text: string): Arg {
    if text != "" && text[0] == '[' && EndsWith(text, ']') then List(ItemsFrom(Inner(text), ' ', "", None))
    else if text != "" && text[0] == '\"' && EndsWith(text, '\"') then Str(Inner(text))
    else if AllDigits(text) then Num(ToNumber(text))
    else Str(text)
  }

  /** The entries of an object literal, added to those read so far. */
  function LiteralEntries(pieces: seq<string>, entries: seq<(string, Arg)>): seq<(string, Arg)>
    decreases |pieces|
  {
    if pieces == [] then entries
    else
      var colon := IndexOf(pieces[0], ':');
      if colon.None? then LiteralEntries(pieces[1..], entries)
      else
        IndexOfInside(pieces[0], ':');
        var key := WithoutQuotes(Trim(pieces[0][..colon.value]));
        var value := LiteralValue(Trim(pieces[0][colon.value + 1..]));
        LiteralEntries(pieces[1..], if key == PROTO then entries else PutEntry(entries, key, value))
  }

  /** Like `ParseArguments`, but with an object literal as one possible argument. */
  function ParseComplexArguments(argsStr: string): seq<Arg> {
    var inner := Trim(Inner(argsStr));
    if inner != "" && inner[0] == '{' && EndsWith(inner, '}') then
      var content := Trim(Inner(inner));
      [Literal(if content == "" then [] else LiteralEntries(SplitPieces(content), []))]
    else ParseArguments(argsStr)
  }

  // ---------------------------------------------------------------- finding where a call ends

  /** The position just behind the parenthesis that closes the ones open at `i`. */
  function FindClose(s: string, i: nat, depth: int): (end: Option<nat>)
    requires i <= |s|
    ensures end.Some? ==> i < end.value <= |s|
    decreases |s| - i
  {
    if i == |s| then None
    else
      var d := if s[i] == '(' then depth + 1 else if s[i] == ')' then depth - 1 else depth;
      if s[i] == ')' && d == 0 then Some(i + 1) else FindClose(s, i + 1, d)
  }

  method FindArrayEnd(s: string, start: nat) returns (end: Option<nat>)
    requires start <= |s|
    ensures end == FindClose(s, start, 0)
  {
    var depth := 0;
    for i := start to |s|
      invariant FindClose(s, i, depth) == FindClose(s, start, 0)
    {
      if s[i] == '(' {
        depth := depth + 1;
      } else if s[i] == ')' {
        depth := depth - 1;
        if depth == 0 { return Some(i + 1); }
      }
    }
    end := None;
  }

  /** The position behind an object call: braces and parentheses counted from its first brace on. */
  function FindObjectClose(s: string, i: nat, braces: int, parens: int, found: bool): (end: Option<nat>)
    requires i <= |s|
    ensures end.Some? ==> i < end.value <= |s|
    decreases |s| - i
  {
    if i == |s| then None
    else if s[i] == '{' then FindObjectClose(s, i + 1, braces + 1, parens, true)
    else if s[i] == '}' then FindObjectClose(s, i + 1, braces - 1, parens, found)
    else if s[i] == '(' && found then FindObjectClose(s, i + 1, braces, parens + 1, found)
    else if s[i] == ')' && found then
      if braces == 0 && parens == 0 then Some(i + 1) else FindObjectClose(s, i + 1, braces, parens - 1, found)
    else FindObjectClose(s, i + 1, braces, parens, found)
  }

  method FindObjectEnd(s: string, start: nat) returns (end: Option<nat>)
    requires start <= |s|
    ensures end == FindObjectClose(s, start, 0, 0, false)
  {
    var braceDepth, parenDepth, foundOpenBrace := 0, 0, false;
    for i := start to |s|
      invariant FindObjectClose(s, i, braceDepth, parenDepth, foundOpenBrace) == FindObjectClose(s, start, 0, 0, false)
    {
      if s[i] == '{' {
        braceDepth, foundOpenBrace := braceDepth + 1, true;
      } else if s[i] == '}' {
        braceDepth := braceDepth - 1;
      } else if s[i] == '(' && foundOpenBrace {
        parenDepth := parenDepth + 1;
      } else if s[i] == ')' && foundOpenBrace {
        if braceDepth == 0 && parenDepth == 0 { return Some(i + 1); }
        parenDepth := parenDepth - 1;
      }
    }
    end := None;
  }

  // ---------------------------------------------------------------- modifiers

  /** The calls in a chain that was split at dots; `checked` refuses names that are not allowed. */
  function ReadChain(parts: seq<string>, checked: bool): Result<seq<Call>, Error> {
    if parts == [] then Ok([])
    else
      match MatchCall(parts[0])
      case None => Err(BadModifier)
      case Some(call) =>
        if checked && !IsAllowed(call.name) then Err(UnsupportedModifier(call.name))
        else
          var rest :- ReadChain(parts[1..], checked);
          Ok([call] + rest)
  }

  function WithArguments(calls: seq<Call>): seq<Modifier> {
    if calls == [] then []
    else
      var args := if calls[0].args.Some? then ParseArguments(calls[0].args.value) else [];
      [Modifier(calls[0].name, args)] + WithArguments(calls[1..])
  }

  function ParseChain(parts: seq<string>, checked: bool): Result<seq<Modifier>, Error> {
    var calls :- ReadChain(parts, checked);
    Ok(WithArguments(calls))
  }

  function Trims(parts: seq<string>): seq<string> {
    if parts == [] then [] else [Trim(parts[0])] + Trims(parts[1..])
  }

  /** The position behind the argument list that starts at `j`, if one does. */
  function ArgumentsClose(r: string, j: nat): (end: Option<nat>)
    requires j <= |r|
    ensures end.Some? ==> j < end.value <= |r|
  {
    if j < |r| && r[j] == '(' then FindClose(r, j, 0) else None
  }

  /** The call whose name starts at `i`, and the position behind it. */
  function CallAt(r: string, i: nat): (read: (Call, nat))
    requires i <= |r| && WordPrefix(r[i..]) != ""
    ensures i < read.1 <= |r|
  {
    WordPrefixInside(r[i..]);
    var name := WordPrefix(r[i..]);
    var j := i + |name|;
    var end := ArgumentsClose(r, j);
    if end.Some? then (Call(name, Some(r[j..end.value])), end.value) else (Call(name, None), j)
  }

  /** The calls behind an object, whose arguments may contain dots and nested parentheses. */
  function ReadCalls(r: string, i: nat): seq<Call>
    requires i <= |r|
    decreases |r| - i
  {
    if WordPrefix(r[i..]) == "" then []
    else
      var (call, k) := CallAt(r, i);
      [call] + ReadCalls(r, if k < |r| && r[k] == '.' then k + 1 else k)
  }

  /** The first call with a name that is not allowed stops the reading. */
  function CheckCalls(calls: seq<Call>): Result<seq<Call>, Error> {
    if calls == [] then Ok([])
    else if !IsAllowed(calls[0].name) then Err(UnsupportedModifier(calls[0].name))
    else
      var rest :- CheckCalls(calls[1..]);
      Ok([calls[0]] + rest)
  }

  function WithComplexArguments(calls: seq<Call>): seq<Modifier> {
    if calls == [] then []
    else
      var args := if calls[0].args.Some? then ParseComplexArguments(calls[0].args.value) else [];
      [Modifier(calls[0].name, args)] + WithComplexArguments(calls[1..])
  }

  function ParseObjectModifiers(r: string, i: nat): Result<seq<Modifier>, Error>
    requires i <= |r|
  {
    var calls :- CheckCalls(ReadCalls(r, i));
    Ok(WithComplexArguments(calls))
  }

  // ---------------------------------------------------------------- types

  function ParseScalar(typeStr: string): Result<TypeInfo, Error> {
    var parts := Trims(SplitOn(typeStr, '.'));
    if parts[0] != "z" then Err(ExpectedZ)
    else if |parts| == 1 then Ok(Scalar("", None, []))
    else
      match MatchCall(parts[1])
      case None => Err(BadBase)
      case Some(call) =>
        var modifiers :- ParseChain(parts[2..], false);
        Ok(Scalar(call.name, if call.args.Some? then Some(ParseArguments(call.args.value)) else None, modifiers))
  }

  function WithModifiers(t: TypeInfo, modifiers: seq<Modifier>): TypeInfo {
    match t
    case Scalar(base, args, _) => Scalar(base, args, modifiers)
    case Nested(fields, _) => Nested(fields, modifiers)
    case ObjectArray(fields, _) => ObjectArray(fields, modifiers)
    case SimpleArray(inner, _) => SimpleArray(inner, modifiers)
  }

  function ParseZodType(typeStr: string): Result<TypeInfo, Error>
    decreases |typeStr|, 3
  {
    if StartsWith(typeStr, "z.object(") then
      var end := FindObjectClose(typeStr, 8, 0, 0, false);
      var behind := if end.Some? then typeStr[end.value..] else "";
      var modifiers :- if StartsWith(behind, ".") then ParseObjectModifiers(behind, 1) else Ok([]);
      var objectPart := if modifiers != [] then typeStr[..end.value] else typeStr;
      var content := ObjectContent(objectPart);
      if content.None? then Err(BadObject)
      else
        var fields :- ParseObjectProperties(content.value);
        Ok(Nested(fields, modifiers))
    else if StartsWith(typeStr, "z.array(") then
      var end := FindClose(typeStr, 7, 0);
      var behind := if end.Some? then typeStr[end.value..] else "";
      if StartsWith(behind, ".") then
        var modifiers :- ParseChain(SplitOn(behind[1..], '.'), true);
        var parsed :- ParseArray(typeStr[..end.value]);
        Ok(WithModifiers(parsed, modifiers))
      else ParseArray(typeStr)
    else ParseScalar(typeStr)
  }

  /** An array without modifiers. */
  function ParseArray(typeStr: string): Result<TypeInfo, Error>
    decreases |typeStr|, 2
  {
    var content := ArrayContent(typeStr);
    if content.None? then Err(BadArray)
    else if StartsWith(content.value, "z.object(") then
      var inside := ObjectContent(content.value);
      if inside.None? then Err(BadObject)
      else
        var fields :- ParseObjectProperties(inside.value);
        var ok :- ValidateFields(fields);
        Ok(ObjectArray(fields, []))
    else
      var inner :- ParseZodType(content.value);
      Ok(SimpleArray(inner, []))
  }

  function ParseObjectProperties(content: string): Result<Record, Error>
    decreases |content|, 5
  {
    PiecesAreShort(content, ' ', "", 0, None);
    ParsePieces(SplitPieces(content), Empty, |content|)
  }

  /** Adds the pieces to the properties read so far; `bound` bounds their length. */
  function ParsePieces(pieces: seq<string>, record: Record, ghost bound: nat): Result<Record, Error>
    requires forall p :: p in pieces ==> |p| <= bound
    decreases bound, 4, |pieces|
  {
    if pieces == [] then Ok(record)
    else
      assert pieces[0] in pieces;
      var colon := IndexOf(pieces[0], ':');
      if colon.None? then ParsePieces(pieces[1..], record, bound)
      else
        IndexOfInside(pieces[0], ':');
        TrimLength(pieces[0][colon.value + 1..]);
        var key := WithoutQuotes(Trim(pieces[0][..colon.value]));
        var value :- ParseZodType(Trim(pieces[0][colon.value + 1..]));
        ParsePieces(pieces[1..], if key == "" then record else Assigned(record, key, value), bound)
  }

  function ValidateModifiers(modifiers: seq<Modifier>): Result<(), Error> {
    if modifiers == [] then Ok(())
    else if !IsAllowed(modifiers[0].name) then Err(UnsupportedModifier(modifiers[0].name))
    else ValidateModifiers(modifiers[1..])
  }

  function ValidateTypeInfo(t: TypeInfo): Result<(), Error> {
    match t
    case Nested(fields, _) => ValidateFields(fields)
    case ObjectArray(fields, _) => ValidateFields(fields)
    case SimpleArray(inner, _) => ValidateTypeInfo(inner)
    case Scalar(base, _, modifiers) => if !IsAllowed(base) then Err(UnsupportedType(base)) else ValidateModifiers(modifiers)
  }

  function ValidateFields(fields: Record): Result<(), Error> {
    match fields
    case Empty => Ok(())
    case Entry(_, value, rest) =>
      var ok :- ValidateTypeInfo(value);
      ValidateFields(rest)
  }

  function ParseSchemaStructure(schema: string): Result<Record, Error> {
    if !StartsWith(schema, "z.object(") then Err(MissingObject)
    else
      var content := ObjectContent(schema);
      if content.None? then Err(BadObject) else ParseObjectProperties(content.value)
  }
}
