/** Parsing undoes printing. */
module SchemaRoundTrip {
  import opened Common
  import opened SchemaText
  import opened SchemaParser
  import opened SchemaSplitting
  import opened SchemaPrinter

  // ---------------------------------------------------------------- brackets counted without quotes

  /** The open braces and parentheses after reading `s`, or None if one closes that was not open. */
  function Nest(s: string, braces: nat, parens: nat): Option<(nat, nat)>
    decreases |s|
  {
    if s == "" then Some((braces, parens))
    else if s[0] == '{' then Nest(s[1..], braces + 1, parens)
    else if s[0] == '(' then Nest(s[1..], braces, parens + 1)
    else if s[0] == '}' then if braces == 0 then None else Nest(s[1..], braces - 1, parens)
    else if s[0] == ')' then if parens == 0 then None else Nest(s[1..], braces, parens - 1)
    else Nest(s[1..], braces, parens)
  }

  /** The text closes exactly the braces and parentheses that it opens. */
  ghost predicate Balanced(s: string) {
    forall braces: nat, parens: nat :: Nest(s, braces, parens) == Some((braces, parens))
  }

  lemma {:induction false} NestConcat(a: string, b: string, braces: nat, parens: nat)
    requires Nest(a, braces, parens).Some?
    ensures Nest(a + b, braces, parens) == Nest(b, Nest(a, braces, parens).value.0, Nest(a, braces, parens).value.1)
    decreases |a|
  {
    if a == "" {
      assert a + b == b;
    } else {
      var tail := a[1..];
      assert (a + b)[0] == a[0] && (a + b)[1..] == tail + b;
      if a[0] == '{' { NestConcat(tail, b, braces + 1, parens); }
      else if a[0] == '(' { NestConcat(tail, b, braces, parens + 1); }
      else if a[0] == '}' { NestConcat(tail, b, braces - 1, parens); }
      else if a[0] == ')' { NestConcat(tail, b, braces, parens - 1); }
      else { NestConcat(tail, b, braces, parens); }
    }
  }

  lemma BalancedConcat(a: string, b: string)
    requires Balanced(a) && Balanced(b)
    ensures Balanced(a + b)
  {
    forall braces: nat, parens: nat ensures Nest(a + b, braces, parens) == Some((braces, parens)) {
      NestConcat(a, b, braces, parens);
    }
  }

  lemma BalancedCall(s: string)
    requires Balanced(s)
    ensures Balanced("(" + s + ")")
  {
    forall braces: nat, parens: nat ensures Nest("(" + s + ")", braces, parens) == Some((braces, parens)) {
      var x := "(" + (s + ")");
      assert "(" + s + ")" == x && x[1..] == s + ")";
      NestConcat(s, ")", braces, parens + 1);
      assert ")"[1..] == "";
    }
  }

  lemma BalancedBraces(s: string)
    requires Balanced(s)
    ensures Balanced("{" + s + "}")
  {
    forall braces: nat, parens: nat ensures Nest("{" + s + "}", braces, parens) == Some((braces, parens)) {
      var x := "{" + (s + "}");
      assert "{" + s + "}" == x && x[1..] == s + "}";
      NestConcat(s, "}", braces + 1, parens);
      assert "}"[1..] == "";
    }
  }

  predicate Bracketless(s: string) { forall i :: 0 <= i < |s| ==> s[i] !in {'(', ')', '{', '}'} }

  lemma {:induction false} BalancedPlain(s: string)
    requires Bracketless(s)
    ensures Balanced(s)
    decreases |s|
  {
    if s != "" {
      BalancedPlain(s[1..]);
      assert s[0] !in {'(', ')', '{', '}'};
    }
  }

  // ---------------------------------------------------------------- finding the end of a call

  /** The text `t` stands at position `i`. */
  predicate At(r: string, i: nat, t: string) { i + |t| <= |r| && r[i..i + |t|] == t }

  lemma AtSplit(r: string, i: nat, a: string, b: string)
    requires At(r, i, a + b)
    ensures At(r, i, a) && At(r, i + |a|, b)
  {
    assert (a + b)[..|a|] == a && (a + b)[|a|..] == b;
    assert r[i..i + |a|] == r[i..i + |a + b|][..|a|];
    assert r[i + |a|..i + |a| + |b|] == r[i..i + |a + b|][|a|..];
  }

  lemma AtNext(r: string, i: nat, t: string)
    requires At(r, i, t) && t != ""
    ensures r[i] == t[0] && At(r, i + 1, t[1..])
  {
    assert r[i..i + |t|][1..] == r[i + 1..i + |t|];
  }

  /** One character that does not close the call. */
  lemma CloseStep(r: string, i: nat, depth: nat)
    requires i < |r|
    ensures
      depth > 0 && (r[i] == ')' ==> depth > 1) ==>
      FindClose(r, i, depth) == FindClose(r, i + 1, if r[i] == '(' then depth + 1 else if r[i] == ')' then depth - 1 else depth)
  {
  }

  /** The counts behind the first character. */
  function NestOne(t: string, braces: nat, parens: nat): (counts: (nat, nat))
    requires t != "" && Nest(t, braces, parens).Some?
    ensures Nest(t[1..], counts.0, counts.1) == Nest(t, braces, parens)
    ensures counts.1 == if t[0] == '(' then parens + 1 else if t[0] == ')' then parens - 1 else parens
    ensures t[0] == ')' ==> parens > 0
  {
    if t[0] == '{' then (braces + 1, parens)
    else if t[0] == '(' then (braces, parens + 1)
    else if t[0] == '}' then (braces - 1, parens)
    else if t[0] == ')' then (braces, parens - 1)
    else (braces, parens)
  }

  /** Inside an open call, text is passed over together with the parentheses it opens and closes. */
  lemma {:induction false} CloseBehind(r: string, i: nat, t: string, braces: nat, depth: nat)
    requires At(r, i, t) && Nest(t, braces, depth).Some?
    ensures FindClose(r, i, depth + 1) == FindClose(r, i + |t|, Nest(t, braces, depth).value.1 + 1)
    decreases |t|
  {
    if t != "" {
      AtNext(r, i, t);
      CloseStep(r, i, depth + 1);
      var (b, d) := NestOne(t, braces, depth);
      CloseBehind(r, i + 1, t[1..], b, d);
    }
  }

  /** The search for the end of a call ends at its own parenthesis. */
  lemma CloseOfCall(r: string, i: nat, inside: string)
    requires Balanced(inside) && At(r, i, "(" + inside + ")")
    ensures FindClose(r, i, 0) == Some(i + |inside| + 2)
  {
    var call := "(" + inside + ")";
    assert r[i] == call[0] && r[i + 1 + |inside|] == call[1 + |inside|];
    assert call == "(" + (inside + ")");
    AtSplit(r, i, "(", inside + ")");
    AtSplit(r, i + 1, inside, ")");
    assert Nest(inside, 0, 0) == Some((0, 0));
    CloseBehind(r, i + 1, inside, 0, 0);
  }

  /** The same inside the braces of an object, where a parenthesis never ends the search. */
  lemma {:induction false} ObjectCloseBehind(r: string, i: nat, t: string, braces: nat, parens: nat)
    requires At(r, i, t) && Nest(t, braces, parens).Some?
    ensures
      var (b, p) := Nest(t, braces, parens).value;
      FindObjectClose(r, i, braces + 1, parens, true) == FindObjectClose(r, i + |t|, b + 1, p, true)
    decreases |t|
  {
    if t != "" {
      var tail := t[1..];
      AtNext(r, i, t);
      if t[0] == '{' { ObjectCloseBehind(r, i + 1, tail, braces + 1, parens); }
      else if t[0] == '(' { ObjectCloseBehind(r, i + 1, tail, braces, parens + 1); }
      else if t[0] == '}' { ObjectCloseBehind(r, i + 1, tail, braces - 1, parens); }
      else if t[0] == ')' { ObjectCloseBehind(r, i + 1, tail, braces, parens - 1); }
      else { ObjectCloseBehind(r, i + 1, tail, braces, parens); }
    }
  }

  lemma CloseOfObject(content: string, post: string)
    requires Balanced(content)
    ensures FindObjectClose(ObjectText(content) + post, 8, 0, 0, false) == Some(|ObjectText(content)|)
  {
    var s := ObjectText(content) + post;
    assert s[8] == '(' && s[9] == '{' && s[10 + |content|] == '}' && s[11 + |content|] == ')';
    assert s[10..10 + |content|] == content;
    assert Nest(content, 0, 0) == Some((0, 0));
    ObjectCloseBehind(s, 10, content, 0, 0);
  }

  // ---------------------------------------------------------------- the text inside a call

  lemma {:induction false} NoBraceNoClose(s: string)
    requires '}' !in s
    ensures LastClose(s) == None
    decreases |s|
  {
    if s != "" {
      assert s[0] in s;
      NoBraceNoClose(s[1..]);
    }
  }

  lemma {:induction false} LastCloseAt(content: string, behind: string)
    requires '}' !in behind
    ensures LastClose(content + "})" + behind) == Some(|content|)
    decreases |content|
  {
    var s := content + "})" + behind;
    if content == "" {
      assert s[0] == '}' && s[1..] == ")" + behind;
      NoBraceNoClose(")" + behind);
      assert s[1..][..1] == ")";
    } else {
      assert s[1..] == content[1..] + "})" + behind;
      LastCloseAt(content[1..], behind);
    }
  }

  lemma ObjectContentOf(content: string, behind: string)
    requires '}' !in behind
    ensures ObjectContent(ObjectText(content) + behind) == Some(content)
  {
    var s := ObjectText(content) + behind;
    assert s[..9] == "z.object(";
    var body := "{" + content + "})" + behind;
    assert s[9..] == body && body[0] == '{';
    assert body[1..] == content + "})" + behind;
    LastCloseAt(content, behind);
    assert body[1..][..|content|] == content;
  }

  lemma ArrayContentOf(content: string)
    requires Trimmed(content)
    ensures ArrayContent(ArrayText(content)) == Some(content)
  {
    var s := ArrayText(content);
    assert s[..8] == "z.array(" && s[8..|s| - 1] == content;
    TrimTrimmed(content);
  }

  // ---------------------------------------------------------------- words and calls

  lemma {:induction false} WordPrefixOf(w: string, rest: string)
    requires forall i :: 0 <= i < |w| ==> IsWordChar(w[i])
    requires rest == "" || !IsWordChar(rest[0])
    ensures WordPrefix(w + rest) == w
    decreases |w|
  {
    var s := w + rest;
    if w == "" {
      assert s == rest;
    } else {
      assert IsWordChar(s[0]) && s[1..] == w[1..] + rest;
      WordPrefixOf(w[1..], rest);
      assert [w[0]] + w[1..] == w;
    }
  }

  lemma NameShape(name: string)
    requires IsName(name)
    ensures Solid(name) && Flat(name) && Neutral(name, 0)
  {
    forall i | 0 <= i < |name| ensures IsPlainChar(name[i]) && IsFlatChar(name[i]) && !IsSpace(name[i]) { assert IsWordChar(name[i]); }
    NeutralPlain(name);
  }

  lemma FlatIsBalanced(s: string)
    requires Flat(s)
    ensures Balanced(s) && '.' !in s && '}' !in s
  {
    forall i | 0 <= i < |s| ensures s[i] !in {'(', ')', '{', '}', '.'} { assert IsFlatChar(s[i]); }
    BalancedPlain(s);
  }

  /** A named call is one part between dots. */
  lemma CallShape(name: string, args: seq<Arg>)
    requires IsName(name) && AllPrintable(args)
    ensures var t := name + ArgsText(args); Solid(t) && Neutral(t, 0) && Balanced(t) && '.' !in t && '}' !in t
  {
    NameShape(name);
    ArgsShape(args);
    FlatIsBalanced(name);
    FlatIsBalanced(ArgsInside(args));
    BalancedCall(ArgsInside(args));
    BalancedConcat(name, ArgsText(args));
    NeutralConcat(name, ArgsText(args), 0);
  }

  lemma CallMatches(name: string, args: seq<Arg>)
    requires IsName(name) && AllPrintable(args)
    ensures MatchCall(name + ArgsText(args)) == Some(Call(name, Some(ArgsText(args))))
  {
    var t, rest := name + ArgsText(args), ArgsText(args);
    WordPrefixOf(name, rest);
    assert t[|name|..] == rest;
    ArgsShape(args);
    forall i | 0 <= i < |rest| ensures !IsLineEnd(rest[i]) {
      if 0 < i < |rest| - 1 { assert IsFlatChar(ArgsInside(args)[i - 1]); }
    }
  }

  lemma NameMatches(name: string)
    requires IsName(name)
    ensures MatchCall(name) == Some(Call(name, None))
  {
    WordPrefixOf(name, "");
    assert name + "" == name && name[|name|..] == "";
  }

  // ---------------------------------------------------------------- modifiers

  lemma DottedShape(text: string, tail: string)
    requires Neutral(text, 0) && Balanced(text) && '}' !in text
    requires Neutral(tail, 0) && Balanced(tail) && '}' !in tail
    ensures var s := "." + (text + tail); Neutral(s, 0) && Balanced(s) && '}' !in s
  {
    NeutralConcat(text, tail, 0);
    BalancedConcat(text, tail);
    NeutralPlain(".");
    BalancedPlain(".");
    NeutralConcat(".", text + tail, 0);
    BalancedConcat(".", text + tail);
  }

  /** Printed modifiers add no bracket, quote or comma that a reader of the text around them counts. */
  lemma {:induction false} ModifiersShape(ms: seq<Modifier>)
    requires PrintableModifiers(ms)
    ensures Neutral(Modifiers(ms), 0) && Balanced(Modifiers(ms)) && '}' !in Modifiers(ms)
    ensures Modifiers(ms) == "" || !IsSpace(Modifiers(ms)[|Modifiers(ms)| - 1])
    ensures Modifiers(ms) == if ms == [] then "" else "." + Chain(ms)
    decreases |ms|
  {
    if ms == [] {
      NeutralPlain("");
      BalancedPlain("");
    } else {
      assert PrintableModifier(ms[0]);
      CallShape(ms[0].name, ms[0].args);
      ModifiersShape(ms[1..]);
      DottedShape(ModifierText(ms[0]), Modifiers(ms[1..]));
    }
  }

  lemma {:induction false} SplitModifiers(p: string, ms: seq<Modifier>)
    requires '.' !in p && PrintableModifiers(ms)
    ensures SplitOn(p + Modifiers(ms), '.') == [p] + ModifierTexts(ms)
    decreases |ms|
  {
    if ms == [] {
      SplitOnFirst(p, "", '.');
      assert p + Modifiers(ms) == p;
    } else {
      assert PrintableModifier(ms[0]);
      CallShape(ms[0].name, ms[0].args);
      var rest := ModifierText(ms[0]) + Modifiers(ms[1..]);
      SplitModifiers(ModifierText(ms[0]), ms[1..]);
      SplitOnFirst(p, rest, '.');
      assert p + Modifiers(ms) == p + "." + rest;
    }
  }

  lemma SplitChain(ms: seq<Modifier>)
    requires PrintableModifiers(ms) && ms != []
    ensures SplitOn(Chain(ms), '.') == ModifierTexts(ms)
  {
    assert PrintableModifier(ms[0]);
    CallShape(ms[0].name, ms[0].args);
    SplitModifiers(ModifierText(ms[0]), ms[1..]);
  }

  function CallOf(m: Modifier): Call { Call(m.name, Some(ArgsText(m.args))) }

  /** The calls that printed modifiers consist of. */
  function Calls(ms: seq<Modifier>): seq<Call> {
    if ms == [] then [] else [CallOf(ms[0])] + Calls(ms[1..])
  }

  lemma CallsStep(m: Modifier, calls: seq<Call>)
    ensures ParseArguments(ArgsText(m.args)) == m.args ==> WithArguments([CallOf(m)] + calls) == [m] + WithArguments(calls)
    ensures ParseComplexArguments(ArgsText(m.args)) == m.args ==> WithComplexArguments([CallOf(m)] + calls) == [m] + WithComplexArguments(calls)
  {
    assert ([CallOf(m)] + calls)[1..] == calls;
  }

  lemma CallReadFirst(m: Modifier, calls: seq<Call>)
    requires PrintableModifier(m)
    ensures WithArguments([CallOf(m)] + calls) == [m] + WithArguments(calls)
    ensures WithComplexArguments([CallOf(m)] + calls) == [m] + WithComplexArguments(calls)
  {
    ArgumentsRoundTrip(m.args);
    ComplexArgumentsRoundTrip(m.args);
    CallsStep(m, calls);
  }

  /** Both readers of arguments give the printed modifiers back. */
  lemma {:induction false} CallsRoundTrip(ms: seq<Modifier>)
    requires PrintableModifiers(ms)
    ensures WithArguments(Calls(ms)) == ms && WithComplexArguments(Calls(ms)) == ms
    decreases |ms|
  {
    if ms != [] {
      CallReadFirst(ms[0], Calls(ms[1..]));
      CallsRoundTrip(ms[1..]);
    }
  }

  lemma {:induction false} ChainRead(ms: seq<Modifier>, checked: bool)
    requires PrintableModifiers(ms)
    ensures ReadChain(ModifierTexts(ms), checked) == if checked then Checked(ms, Ok(Calls(ms))) else Ok(Calls(ms))
    ensures Trims(ModifierTexts(ms)) == ModifierTexts(ms)
    decreases |ms|
  {
    if ms != [] {
      var m := ms[0];
      assert PrintableModifier(m);
      CallShape(m.name, m.args);
      TrimTrimmed(ModifierText(m));
      CallMatches(m.name, m.args);
      assert ModifierTexts(ms)[1..] == ModifierTexts(ms[1..]);
      ChainRead(ms[1..], checked);
    }
  }

  lemma ChainRoundTrip(ms: seq<Modifier>, checked: bool)
    requires PrintableModifiers(ms)
    ensures ParseChain(ModifierTexts(ms), checked) == if checked then Checked(ms, Ok(ms)) else Ok(ms)
    ensures Trims(ModifierTexts(ms)) == ModifierTexts(ms)
  {
    ChainRead(ms, checked);
    CallsRoundTrip(ms);
  }

  lemma {:induction false} WordAt(r: string, i: nat, name: string)
    requires At(r, i, name) && forall k :: 0 <= k < |name| ==> IsWordChar(name[k])
    requires i + |name| < |r| ==> !IsWordChar(r[i + |name|])
    ensures WordPrefix(r[i..]) == name
    decreases |name|
  {
    if name == "" {
      assert i < |r| ==> r[i..][0] == r[i];
    } else {
      var tail := name[1..];
      assert r[i..][0] == r[i] == name[0] && r[i..][1..] == r[i + 1..];
      assert r[i + 1..i + 1 + |tail|] == tail;
      WordAt(r, i + 1, tail);
      assert [name[0]] + tail == name;
    }
  }

  lemma CallAtEnd(r: string, i: nat, name: string, call: string)
    requires i <= |r| && name != "" && WordPrefix(r[i..]) == name
    requires At(r, i + |name|, call) && ArgumentsClose(r, i + |name|) == Some(i + |name| + |call|)
    ensures CallAt(r, i) == (Call(name, Some(call)), i + |name| + |call|)
  {
  }

  lemma ArgumentsEnd(r: string, i: nat, args: seq<Arg>)
    requires AllPrintable(args) && At(r, i, ArgsText(args))
    ensures FindClose(r, i, 0) == Some(i + |ArgsText(args)|)
  {
    ArgsShape(args);
    FlatIsBalanced(ArgsInside(args));
    CloseOfCall(r, i, ArgsInside(args));
  }

  /** The modifier loop behind an object reads one printed modifier at a time. */
  lemma CallReadBack(r: string, i: nat, m: Modifier)
    requires IsName(m.name) && AllPrintable(m.args) && At(r, i, ModifierText(m))
    ensures WordPrefix(r[i..]) == m.name && CallAt(r, i) == (CallOf(m), i + |ModifierText(m)|)
  {
    var call := ArgsText(m.args);
    AtSplit(r, i, m.name, call);
    assert call[0] == '(' && r[i + |m.name|] == call[0];
    WordAt(r, i, m.name);
    ArgumentsEnd(r, i + |m.name|, m.args);
    CallAtEnd(r, i, m.name, call);
  }

  lemma ChainStep(r: string, i: nat, ms: seq<Modifier>)
    requires i <= |r| && r[i..] == Chain(ms) && ms != []
    ensures
      var k := i + |ModifierText(ms[0])|;
      At(r, i, ModifierText(ms[0])) &&
      if ms[1..] == [] then k == |r| else k < |r| && r[k] == '.' && r[k + 1..] == Chain(ms[1..])
  {
    var text, more, k := ModifierText(ms[0]), Modifiers(ms[1..]), i + |ModifierText(ms[0])|;
    assert r[i..k] == r[i..][..|text|] == text;
    assert r[k..] == r[i..][|text|..] == more;
    if ms[1..] != [] {
      assert more == "." + Chain(ms[1..]);
      assert r[k] == r[k..][0] && r[k + 1..] == r[k..][1..];
    }
  }

  lemma CallsReadStep(r: string, i: nat, call: Call, k: nat)
    requires i <= |r| && WordPrefix(r[i..]) != "" && CallAt(r, i) == (call, k) && k <= |r|
    ensures ReadCalls(r, i) == [call] + ReadCalls(r, if k < |r| && r[k] == '.' then k + 1 else k)
  {
  }

  lemma CallsReadOne(r: string, i: nat, m: Modifier, k: nat, next: nat)
    requires IsName(m.name) && AllPrintable(m.args) && At(r, i, ModifierText(m))
    requires k == i + |ModifierText(m)| && next == if k < |r| && r[k] == '.' then k + 1 else k
    ensures next <= |r| && ReadCalls(r, i) == [CallOf(m)] + ReadCalls(r, next)
  {
    CallReadBack(r, i, m);
    CallsReadStep(r, i, CallOf(m), k);
  }

  lemma {:induction false} CallsRead(r: string, i: nat, ms: seq<Modifier>)
    requires PrintableModifiers(ms) && i <= |r| && r[i..] == Chain(ms)
    ensures ReadCalls(r, i) == Calls(ms)
    decreases |ms|
  {
    if ms != [] {
      var rest, k := ms[1..], i + |ModifierText(ms[0])|;
      ChainStep(r, i, ms);
      var next := if rest == [] then k else k + 1;
      assert rest == [] ==> r[k..] == "";
      CallsRead(r, next, rest);
      assert PrintableModifier(ms[0]);
      CallsReadOne(r, i, ms[0], k, next);
    }
  }

  lemma {:induction false} CallsChecked(ms: seq<Modifier>)
    ensures CheckCalls(Calls(ms)) == Checked(ms, Ok(Calls(ms)))
    decreases |ms|
  {
    if ms != [] {
      CallsChecked(ms[1..]);
      assert Calls(ms)[1..] == Calls(ms[1..]);
    }
  }

  lemma ObjectModifiersRoundTrip(r: string, i: nat, ms: seq<Modifier>)
    requires PrintableModifiers(ms) && i <= |r| && r[i..] == Chain(ms)
    ensures ParseObjectModifiers(r, i) == Checked(ms, Ok(ms))
  {
    CallsRead(r, i, ms);
    CallsChecked(ms);
    CallsRoundTrip(ms);
  }

  // ---------------------------------------------------------------- printed types

  /** Text that splits off as one property, and whose brackets balance whether quotes are heeded or not. */
  ghost predicate Tidy(s: string) { Solid(s) && Neutral(s, 0) && Balanced(s) }

  lemma ObjectShape(content: string)
    requires Neutral(content, 1) && Balanced(content)
    ensures Tidy(ObjectText(content))
  {
    var braces := "{" + content + "}";
    NeutralWrap('{', content, '}');
    BalancedBraces(content);
    NeutralWeaken(braces, 0, 1);
    NeutralWrap('(', braces, ')');
    BalancedCall(braces);
    Prefixed("z.object", "(" + braces + ")");
    assert ObjectText(content) == "z.object" + ("(" + braces + ")");
  }

  lemma ArrayShape(content: string)
    requires Neutral(content, 0) && Balanced(content)
    ensures Tidy(ArrayText(content))
  {
    NeutralWeaken(content, 0, 1);
    NeutralWrap('(', content, ')');
    BalancedCall(content);
    Prefixed("z.array", "(" + content + ")");
    assert ArrayText(content) == "z.array" + ("(" + content + ")");
  }

  /** Words and dots in front change nothing. */
  lemma Prefixed(p: string, s: string)
    requires p != "" && forall i :: 0 <= i < |p| ==> IsWordChar(p[i]) || p[i] in {'.', ':'}
    requires Neutral(s, 0) && Balanced(s) && (s == "" || !IsSpace(s[|s| - 1]))
    ensures Tidy(p + s)
  {
    NeutralPlain(p);
    BalancedPlain(p);
    NeutralConcat(p, s, 0);
    BalancedConcat(p, s);
  }

  lemma WithModifiersShape(s: string, ms: seq<Modifier>)
    requires Tidy(s) && PrintableModifiers(ms)
    ensures Tidy(s + Modifiers(ms))
  {
    ModifiersShape(ms);
    NeutralConcat(s, Modifiers(ms), 0);
    BalancedConcat(s, Modifiers(ms));
  }

  lemma BaseShape(base: string, args: Option<seq<Arg>>)
    requires IsName(base) && (args.Some? ==> PrintableArgs(args.value))
    ensures Tidy(BaseText(base, args)) && '.' !in BaseText(base, args)
  {
    if args.Some? {
      CallShape(base, args.value);
    } else {
      NameShape(base);
      FlatIsBalanced(base);
      assert base + "" == base;
    }
  }

  lemma {:induction false} PrintShape(t: TypeInfo)
    requires Printable(t)
    ensures Tidy(Print(t))
    decreases t, 0
  {
    match t
    case Scalar(base, args, ms) =>
      BaseShape(base, args);
      WithModifiersShape(BaseText(base, args), ms);
      Prefixed("z.", BaseText(base, args) + Modifiers(ms));
    case Nested(fields, ms) =>
      FieldsShape(fields);
      ObjectShape(PrintFields(fields));
      WithModifiersShape(ObjectText(PrintFields(fields)), ms);
    case ObjectArray(fields, ms) =>
      FieldsShape(fields);
      ObjectShape(PrintFields(fields));
      ArrayShape(ObjectText(PrintFields(fields)));
      WithModifiersShape(ArrayText(ObjectText(PrintFields(fields))), ms);
    case SimpleArray(inner, ms) =>
      PrintShape(inner);
      ArrayShape(Print(inner));
      WithModifiersShape(ArrayText(Print(inner)), ms);
  }

  lemma PropertyShape(key: string, value: string)
    requires IsName(key) && Tidy(value)
    ensures Tidy(key + ":" + value)
  {
    Prefixed(key + ":", value);
  }

  lemma {:induction false} PropertiesShape(fields: Record)
    requires PrintableFields(fields)
    ensures forall i :: 0 <= i < |PropertyTexts(fields)| ==> Tidy(PropertyTexts(fields)[i])
    decreases fields, 1
  {
    match fields
    case Empty =>
    case Entry(key, value, rest) =>
      PrintShape(value);
      PropertyShape(key, Print(value));
      PropertiesShape(rest);
  }

  lemma {:induction false} JoinBalanced(texts: seq<string>)
    requires forall i :: 0 <= i < |texts| ==> Balanced(texts[i])
    ensures Balanced(Join(texts, ','))
    decreases |texts|
  {
    if texts == [] {
      BalancedPlain("");
    } else if |texts| >= 2 {
      JoinBalanced(texts[1..]);
      BalancedPlain(",");
      BalancedConcat(texts[0], ",");
      BalancedConcat(texts[0] + ",", Join(texts[1..], ','));
    }
  }

  lemma {:induction false} FieldsShape(fields: Record)
    requires PrintableFields(fields)
    ensures Neutral(PrintFields(fields), 1) && Balanced(PrintFields(fields))
    decreases fields, 2
  {
    PropertiesShape(fields);
    JoinNeutral(PropertyTexts(fields));
    JoinBalanced(PropertyTexts(fields));
  }

  /** The printed properties of an object are split where they were joined. */
  lemma FieldsSplit(fields: Record)
    requires PrintableFields(fields)
    ensures SplitPieces(PrintFields(fields)) == PropertyTexts(fields)
  {
    PropertiesShape(fields);
    forall p | p in PropertyTexts(fields) ensures IsPiece(p) {
      assert Tidy(p);
    }
    SplitJoin(PropertyTexts(fields));
  }

  // ---------------------------------------------------------------- reading types back

  lemma TrimsCons(head: string, tail: seq<string>)
    requires Trim(head) == head && Trims(tail) == tail
    ensures Trims([head] + tail) == [head] + tail
  {
    assert ([head] + tail)[1..] == tail;
  }

  lemma TrimmedParts(text: string, texts: seq<string>)
    requires Trim(text) == text && Trims(texts) == texts
    ensures var parts := ["z", text] + texts; Trims(parts) == parts && parts[0] == "z" && parts[1] == text && parts[2..] == texts
  {
    TrimTrimmed("z");
    TrimsCons(text, texts);
    TrimsCons("z", [text] + texts);
    assert ["z"] + ([text] + texts) == ["z", text] + texts;
  }

  lemma ScalarParts(s: string, text: string, texts: seq<string>, base: string, args: Option<string>, ms: seq<Modifier>)
    requires SplitOn(s, '.') == ["z", text] + texts && Trim(text) == text && Trims(texts) == texts
    requires MatchCall(text) == Some(Call(base, args)) && ParseChain(texts, false) == Ok(ms)
    ensures ParseScalar(s) == Ok(Scalar(base, if args.Some? then Some(ParseArguments(args.value)) else None, ms))
  {
    TrimmedParts(text, texts);
  }

  lemma BehindZ(rest: string)
    ensures SplitOn("z." + rest, '.') == ["z"] + SplitOn(rest, '.')
  {
    SplitOnFirst("z", rest, '.');
    assert "z" + "." + rest == "z." + rest;
  }

  lemma ScalarSplit(base: string, args: Option<seq<Arg>>, ms: seq<Modifier>)
    requires IsName(base) && (args.Some? ==> PrintableArgs(args.value)) && PrintableModifiers(ms)
    ensures SplitOn(Print(Scalar(base, args, ms)), '.') == ["z", BaseText(base, args)] + ModifierTexts(ms)
  {
    var text := BaseText(base, args);
    assert '.' !in text by { BaseShape(base, args); }
    SplitModifiers(text, ms);
    BehindZ(text + Modifiers(ms));
    assert ["z"] + ([text] + ModifierTexts(ms)) == ["z", text] + ModifierTexts(ms);
  }

  lemma BaseMatches(base: string, args: Option<seq<Arg>>)
    requires IsName(base) && (args.Some? ==> PrintableArgs(args.value))
    ensures MatchCall(BaseText(base, args)) == Some(Call(base, if args.Some? then Some(ArgsText(args.value)) else None))
  {
    if args.Some? {
      CallMatches(base, args.value);
    } else {
      NameMatches(base);
      assert base + "" == base;
    }
  }

  lemma ScalarRoundTrip(base: string, args: Option<seq<Arg>>, ms: seq<Modifier>)
    requires IsName(base) && (args.Some? ==> PrintableArgs(args.value)) && PrintableModifiers(ms)
    ensures ParseScalar(Print(Scalar(base, args, ms))) == Ok(Scalar(base, args, ms))
  {
    var text := BaseText(base, args);
    ScalarSplit(base, args, ms);
    assert Trim(text) == text by { BaseShape(base, args); TrimTrimmed(text); }
    ChainRoundTrip(ms, false);
    BaseMatches(base, args);
    if args.Some? { ArgumentsRoundTrip(args.value); }
    ScalarParts(Print(Scalar(base, args, ms)), text, ModifierTexts(ms), base, if args.Some? then Some(ArgsText(args.value)) else None, ms);
  }

  lemma WordOfCall(s: string, w: string)
    requires IsName(w) && StartsWith(s, "z." + w + "(")
    ensures WordPrefix(s[2..]) == w
  {
    var start := "z." + w + "(";
    assert s == s[..|start|] + s[|start|..];
    assert s[2..] == w + ("(" + s[|start|..]);
    WordPrefixOf(w, "(" + s[|start|..]);
  }

  lemma WordOfScalar(base: string, args: Option<seq<Arg>>, ms: seq<Modifier>)
    requires IsName(base)
    ensures WordPrefix(Print(Scalar(base, args, ms))[2..]) == base
  {
    var s, text := Print(Scalar(base, args, ms)), BaseText(base, args);
    assert s[2..2 + |base|] == base;
    assert |text| > |base| ==> s[2 + |base|] == '(';
    assert |text| == |base| && 2 + |base| < |s| ==> s[2 + |base|] == Modifiers(ms)[0] == '.';
    WordAt(s, 2, base);
  }

  lemma OtherWord(s: string, word: string, w: string)
    requires |s| >= 2 && WordPrefix(s[2..]) == word != w && IsName(w)
    ensures !StartsWith(s, "z." + w + "(")
  {
    if StartsWith(s, "z." + w + "(") { WordOfCall(s, w); }
  }

  lemma OtherWords(s: string, word: string)
    requires |s| >= 2 && WordPrefix(s[2..]) == word && word != "object" && word != "array"
    ensures !StartsWith(s, "z.object(") && !StartsWith(s, "z.array(")
  {
    assert IsName("object") && IsName("array");
    OtherWord(s, word, "object");
    OtherWord(s, word, "array");
    assert "z." + "object" + "(" == "z.object(" && "z." + "array" + "(" == "z.array(";
  }

  /** A scalar does not look like an object or an array. */
  lemma ScalarStart(base: string, args: Option<seq<Arg>>, ms: seq<Modifier>)
    requires IsName(base) && base != "object" && base != "array"
    ensures
      var s := Print(Scalar(base, args, ms));
      !StartsWith(s, "z.object(") && !StartsWith(s, "z.array(")
  {
    WordOfScalar(base, args, ms);
    OtherWords(Print(Scalar(base, args, ms)), base);
  }

  lemma Starts(content: string, behind: string)
    ensures StartsWith(ObjectText(content) + behind, "z.object(")
    ensures StartsWith(ArrayText(content) + behind, "z.array(") && !StartsWith(ArrayText(content) + behind, "z.object(")
  {
    assert (ObjectText(content) + behind)[..9] == "z.object(";
    assert (ArrayText(content) + behind)[..8] == "z.array(";
    assert (ArrayText(content) + behind)[2] == 'a';
    assert "z.object("[2] == 'o';
  }

  function AsObject(parsed: Result<Record, Error>, ms: seq<Modifier>): Result<TypeInfo, Error> {
    if parsed.Ok? then Ok(Nested(parsed.value, ms)) else Err(parsed.error)
  }

  function AsArray(parsed: Result<TypeInfo, Error>, ms: seq<Modifier>): Result<TypeInfo, Error> {
    if parsed.Ok? && ms != [] then Ok(WithModifiers(parsed.value, ms)) else parsed
  }

  /** What the parser does once it knows where the object ends and what is behind it. */
  lemma ObjectAndBehind(s: string, text: string, behind: string, content: string, ms: seq<Modifier>)
    requires StartsWith(s, "z.object(") && |text| <= |s| && s[..|text|] == text && s[|text|..] == behind
    requires if ms == [] then behind == "" && s == text else StartsWith(behind, ".")
    ensures
      FindObjectClose(s, 8, 0, 0, false) == Some(|text|) && ObjectContent(text) == Some(content) &&
      (ms != [] ==> ParseObjectModifiers(behind, 1) == Checked(ms, Ok(ms))) ==>
      ParseZodType(s) == Checked(ms, AsObject(ParseObjectProperties(content), ms))
  {
  }

  lemma ObjectModifiers(ms: seq<Modifier>)
    requires ms != [] && PrintableModifiers(ms)
    ensures StartsWith(Modifiers(ms), ".") && ParseObjectModifiers(Modifiers(ms), 1) == Checked(ms, Ok(ms))
  {
    assert Modifiers(ms)[..1] == "." && Modifiers(ms)[1..] == Chain(ms);
    ObjectModifiersRoundTrip(Modifiers(ms), 1, ms);
  }

  /** An object is read by its content and its modifiers. */
  lemma ObjectParts(content: string, ms: seq<Modifier>)
    requires Balanced(content) && PrintableModifiers(ms)
    ensures ParseZodType(ObjectText(content) + Modifiers(ms)) == Checked(ms, AsObject(ParseObjectProperties(content), ms))
  {
    var text, behind := ObjectText(content), Modifiers(ms);
    var s := text + behind;
    Starts(content, behind);
    CloseOfObject(content, behind);
    if ms != [] { ObjectModifiers(ms); }
    assert ObjectContent(text) == Some(content) by {
      ObjectContentOf(content, "");
      assert text + "" == text;
    }
    assert s[|text|..] == behind && s[..|text|] == text && (behind == "" ==> s == text);
    ObjectAndBehind(s, text, behind, content, ms);
  }

  lemma CloseOfArray(content: string, behind: string)
    requires Balanced(content)
    ensures
      var s := ArrayText(content) + behind;
      FindClose(s, 7, 0) == Some(|ArrayText(content)|) && s[..|ArrayText(content)|] == ArrayText(content) && s[|ArrayText(content)|..] == behind
  {
    var s, call := ArrayText(content) + behind, "(" + content + ")";
    assert s[7..7 + |call|] == call;
    CloseOfCall(s, 7, content);
  }

  lemma ArrayModifiers(ms: seq<Modifier>)
    requires ms != [] && PrintableModifiers(ms)
    ensures StartsWith(Modifiers(ms), ".") && ParseChain(SplitOn(Modifiers(ms)[1..], '.'), true) == Checked(ms, Ok(ms))
  {
    assert Modifiers(ms)[..1] == "." && Modifiers(ms)[1..] == Chain(ms);
    SplitChain(ms);
    ChainRoundTrip(ms, true);
  }

  /** An array is read by its content and its modifiers. */
  lemma ArrayParts(content: string, ms: seq<Modifier>)
    requires Balanced(content) && PrintableModifiers(ms)
    ensures ParseZodType(ArrayText(content) + Modifiers(ms)) == Checked(ms, AsArray(ParseArray(ArrayText(content)), ms))
  {
    Starts(content, Modifiers(ms));
    CloseOfArray(content, Modifiers(ms));
    if ms == [] {
      assert ArrayText(content) + Modifiers(ms) == ArrayText(content);
    } else {
      ArrayModifiers(ms);
    }
  }

  /** The record with the entries of another behind its own. */
  function Append(r: Record, more: Record): Record {
    match r
    case Empty => more
    case Entry(key, value, rest) => Entry(key, value, Append(rest, more))
  }

  predicate Disjoint(r: Record, more: Record) {
    match more
    case Empty => true
    case Entry(key, _, rest) => !HasKey(r, key) && Disjoint(r, rest)
  }

  lemma {:induction false} PutNew(r: Record, key: string, value: TypeInfo)
    requires !HasKey(r, key)
    ensures Put(r, key, value) == Append(r, Entry(key, value, Empty))
  {
    if r.Entry? { PutNew(r.rest, key, value); }
  }

  lemma {:induction false} AppendAppend(a: Record, b: Record, c: Record)
    ensures Append(Append(a, b), c) == Append(a, Append(b, c))
  {
    if a.Entry? { AppendAppend(a.rest, b, c); }
  }

  lemma {:induction false} HasKeyAppend(a: Record, b: Record, key: string)
    ensures HasKey(Append(a, b), key) == (HasKey(a, key) || HasKey(b, key))
  {
    if a.Entry? { HasKeyAppend(a.rest, b, key); }
  }

  lemma {:induction false} DisjointGrows(r: Record, key: string, value: TypeInfo, more: Record)
    requires Disjoint(r, more) && !HasKey(more, key)
    ensures Disjoint(Append(r, Entry(key, value, Empty)), more)
  {
    if more.Entry? {
      HasKeyAppend(r, Entry(key, value, Empty), more.key);
      DisjointGrows(r, key, value, more.rest);
    }
  }

  lemma {:induction false} AppendEmpty(r: Record)
    ensures Append(r, Empty) == r
  {
    if r.Entry? { AppendEmpty(r.rest); }
  }

  lemma {:induction false} DisjointEmpty(r: Record)
    ensures Disjoint(Empty, r)
  {
    if r.Entry? { DisjointEmpty(r.rest); }
  }

  lemma {:induction false} ColonAt(key: string, rest: string)
    requires ':' !in key
    ensures IndexOf(key + ":" + rest, ':') == Some(|key|)
    decreases |key|
  {
    var s := key + ":" + rest;
    if key != "" {
      assert key[0] in key && s[1..] == key[1..] + ":" + rest;
      ColonAt(key[1..], rest);
    }
  }

  lemma {:induction false} NoQuotes(s: string)
    requires forall i :: 0 <= i < |s| ==> !IsQuote(s[i])
    ensures WithoutQuotes(s) == s
    decreases |s|
  {
    if s != "" {
      NoQuotes(s[1..]);
      assert [s[0]] + s[1..] == s;
    }
  }

  lemma PropertyParts(key: string, text: string)
    requires IsName(key) && Solid(text)
    ensures
      var p := key + ":" + text;
      IndexOf(p, ':') == Some(|key|) && WithoutQuotes(Trim(p[..|key|])) == key && Trim(p[|key| + 1..]) == text
  {
    var p := key + ":" + text;
    forall i | 0 <= i < |key| ensures key[i] != ':' && !IsQuote(key[i]) { assert IsWordChar(key[i]); }
    ColonAt(key, text);
    NameShape(key);
    TrimTrimmed(key);
    TrimTrimmed(text);
    NoQuotes(key);
    assert p[..|key|] == key && p[|key| + 1..] == text;
  }

  /** The record with one printed property read: appended, unless its name cannot be assigned. */
  function WithProperty(record: Record, key: string, value: TypeInfo): Record {
    if key == PROTO then record else Append(record, Entry(key, value, Empty))
  }

  /** What the parser does with a piece once its key and its type text are known. */
  lemma PieceStep(p: string, n: nat, key: string, text: string, pieces: seq<string>, record: Record, bound: nat)
    requires key != "" && IndexOf(p, ':') == Some(n) && n < |p|
    requires WithoutQuotes(Trim(p[..n])) == key && Trim(p[n + 1..]) == text
    requires |p| <= bound && forall q :: q in pieces ==> |q| <= bound
    ensures
      var parsed := ParseZodType(text);
      ParsePieces([p] + pieces, record, bound) ==
      if parsed.Ok? then ParsePieces(pieces, Assigned(record, key, parsed.value), bound) else Err(parsed.error)
  {
    var all := [p] + pieces;
    assert all[0] == p && all[1..] == pieces;
    assert Trim(all[0][n + 1..]) == text && WithoutQuotes(Trim(all[0][..n])) == key;
  }

  lemma PropertyStep(key: string, text: string, pieces: seq<string>, record: Record, bound: nat)
    requires IsName(key) && !HasKey(record, key) && Solid(text)
    requires |key + ":" + text| <= bound && forall p :: p in pieces ==> |p| <= bound
    ensures
      var parsed := ParseZodType(text);
      ParsePieces([key + ":" + text] + pieces, record, bound) ==
      if parsed.Ok? then ParsePieces(pieces, WithProperty(record, key, parsed.value), bound) else Err(parsed.error)
  {
    PropertyParts(key, text);
    PieceStep(key + ":" + text, |key|, key, text, pieces, record, bound);
    if ParseZodType(text).Ok? { PutNew(record, key, ParseZodType(text).value); }
  }

  lemma WithPropertyAppends(record: Record, key: string, value: TypeInfo, rest: Record)
    ensures
      Append(WithProperty(record, key, Kept(value)), KeptFields(rest)) == Append(record, KeptFields(Entry(key, value, rest)))
  {
    AppendAppend(record, Entry(key, Kept(value), Empty), KeptFields(rest));
  }

  lemma {:induction false} PropertiesRoundTrip(fields: Record, record: Record, bound: nat)
    requires PrintableFields(fields) && Disjoint(record, fields)
    requires forall p :: p in PropertyTexts(fields) ==> |p| <= bound
    ensures
      var r := ParsePieces(PropertyTexts(fields), record, bound);
      if AcceptsFields(fields) then r == Ok(Append(record, KeptFields(fields))) else r.Err? && BlamesFields(fields, r.error)
    decreases fields, 0
  {
    match fields
    case Empty => AppendEmpty(record);
    case Entry(key, value, rest) =>
      PrintShape(value);
      TypeRoundTrip(value);
      var pieces := PropertyTexts(rest);
      assert PropertyTexts(fields) == [key + ":" + Print(value)] + pieces;
      assert key + ":" + Print(value) in PropertyTexts(fields);
      PropertyStep(key, Print(value), pieces, record, bound);
      if Accepts(value) {
        DisjointGrows(record, key, Kept(value), rest);
        PropertiesRoundTrip(rest, WithProperty(record, key, Kept(value)), bound);
        WithPropertyAppends(record, key, value, rest);
      }
  }

  /** The printed properties of an object come back, but for those named `__proto__`, unless one is refused. */
  lemma {:induction false} FieldsRoundTrip(fields: Record)
    requires PrintableFields(fields)
    ensures FieldsReadAs(fields, ParseObjectProperties(PrintFields(fields)))
    decreases fields, 1
  {
    var content := PrintFields(fields);
    FieldsSplit(fields);
    PiecesAreShort(content, ' ', "", 0, None);
    DisjointEmpty(fields);
    PropertiesRoundTrip(fields, Empty, |content|);
  }

  /** An array whose object has been read: its properties are checked. */
  function AsObjectArray(parsed: Result<Record, Error>): Result<TypeInfo, Error> {
    if parsed.Err? then Err(parsed.error)
    else if ValidateFields(parsed.value).Err? then Err(ValidateFields(parsed.value).error)
    else Ok(ObjectArray(parsed.value, []))
  }

  /** An object in an array: its properties are read and checked, its modifiers are dropped. */
  lemma ObjectInArray(fields: Record, inner: seq<Modifier>)
    requires PrintableFields(fields) && PrintableModifiers(inner)
    ensures
      ParseArray(ArrayText(ObjectText(PrintFields(fields)) + Modifiers(inner))) ==
      AsObjectArray(ParseObjectProperties(PrintFields(fields)))
  {
    var content := PrintFields(fields);
    var text := ObjectText(content) + Modifiers(inner);
    FieldsShape(fields);
    ObjectShape(content);
    WithModifiersShape(ObjectText(content), inner);
    ArrayContentOf(text);
    Starts(content, Modifiers(inner));
    ModifiersShape(inner);
    ObjectContentOf(content, Modifiers(inner));
  }

  lemma NotAnObject(t: TypeInfo)
    requires Printable(t) && !t.Nested?
    ensures !StartsWith(Print(t), "z.object(")
  {
    match t
    case Scalar(base, args, ms) => ScalarStart(base, args, ms);
    case ObjectArray(fields, ms) => Starts(ObjectText(PrintFields(fields)), Modifiers(ms));
    case SimpleArray(inner, ms) => Starts(Print(inner), Modifiers(ms));
  }

  function AsSimpleArray(parsed: Result<TypeInfo, Error>): Result<TypeInfo, Error> {
    if parsed.Ok? then Ok(SimpleArray(parsed.value, [])) else parsed
  }

  lemma TypeInArray(inner: TypeInfo)
    requires Printable(inner) && !inner.Nested?
    ensures ParseArray(ArrayText(Print(inner))) == AsSimpleArray(ParseZodType(Print(inner)))
  {
    PrintShape(inner);
    ArrayContentOf(Print(inner));
    NotAnObject(inner);
  }

  lemma ScalarType(base: string, args: Option<seq<Arg>>, ms: seq<Modifier>)
    requires Printable(Scalar(base, args, ms))
    ensures ParseZodType(Print(Scalar(base, args, ms))) == Ok(Scalar(base, args, ms))
  {
    ScalarRoundTrip(base, args, ms);
    ScalarStart(base, args, ms);
  }

  /** An object with its modifiers, once its properties have been read. */
  lemma ObjectReadsAs(fields: Record, ms: seq<Modifier>, parsed: Result<Record, Error>)
    requires FieldsReadAs(fields, parsed)
    ensures ReadsAs(Nested(fields, ms), Checked(ms, AsObject(parsed, ms)))
  {
    FirstBadIs(ms);
  }

  lemma ObjectArrayReadsAs(fields: Record, ms: seq<Modifier>, parsed: Result<Record, Error>)
    requires FieldsReadAs(fields, parsed)
    ensures ReadsAs(ObjectArray(fields, ms), Checked(ms, AsArray(AsObjectArray(parsed), ms)))
  {
    FirstBadIs(ms);
    FieldsValidate(fields);
  }

  lemma SimpleArrayReadsAs(inner: TypeInfo, ms: seq<Modifier>, parsed: Result<TypeInfo, Error>)
    requires ReadsAs(inner, parsed)
    ensures ReadsAs(SimpleArray(inner, ms), Checked(ms, AsArray(AsSimpleArray(parsed), ms)))
  {
    FirstBadIs(ms);
  }

  /**
   Parsing a printed type gives the type back, but for properties named `__proto__`, exactly when the parser's list
   allows what it checks; otherwise the error names something that is not in the list.
   */
  lemma {:induction false} TypeRoundTrip(t: TypeInfo)
    requires Printable(t)
    ensures ReadsAs(t, ParseZodType(Print(t)))
    decreases t, 2
  {
    match t
    case Scalar(base, args, ms) => ScalarType(base, args, ms);
    case Nested(fields, ms) =>
      FieldsShape(fields);
      FieldsRoundTrip(fields);
      ObjectParts(PrintFields(fields), ms);
      ObjectReadsAs(fields, ms, ParseObjectProperties(PrintFields(fields)));
    case ObjectArray(fields, ms) =>
      ObjectBalanced(fields, []);
      FieldsRoundTrip(fields);
      ObjectInArray(fields, []);
      assert ObjectText(PrintFields(fields)) + Modifiers([]) == ObjectText(PrintFields(fields));
      ArrayParts(ObjectText(PrintFields(fields)), ms);
      ObjectArrayReadsAs(fields, ms, ParseObjectProperties(PrintFields(fields)));
    case SimpleArray(inner, ms) =>
      PrintShape(inner);
      TypeRoundTrip(inner);
      TypeInArray(inner);
      ArrayParts(Print(inner), ms);
      SimpleArrayReadsAs(inner, ms, ParseZodType(Print(inner)));
  }

  /** A printed type comes back as it was exactly when it is accepted and no property at any depth is named `__proto__`. */
  lemma TypeComesBackExactlyWhen(t: TypeInfo)
    requires Printable(t)
    ensures ParseZodType(Print(t)).Ok? <==> Accepts(t)
    ensures ParseZodType(Print(t)) == Ok(t) <==> Accepts(t) && NoProto(t)
  {
    TypeRoundTrip(t);
    KeptIsWhole(t);
  }

  /** A printed schema comes back the same way; modifiers of the top-level object are dropped, and not checked. */
  lemma SchemaRoundTrip(fields: Record, ms: seq<Modifier>)
    requires PrintableFields(fields) && PrintableModifiers(ms)
    ensures FieldsReadAs(fields, ParseSchemaStructure(ObjectText(PrintFields(fields)) + Modifiers(ms)))
    ensures
      ParseSchemaStructure(ObjectText(PrintFields(fields)) + Modifiers(ms)) == Ok(fields) <==>
      AcceptsFields(fields) && NoProtoFields(fields)
  {
    Starts(PrintFields(fields), Modifiers(ms));
    ModifiersShape(ms);
    ObjectContentOf(PrintFields(fields), Modifiers(ms));
    FieldsRoundTrip(fields);
    KeptFieldsAreWhole(fields);
  }

  /** A property of that name is lost. */
  lemma ProtoIsLost()
    ensures
      var fields := Entry(PROTO, Scalar("string", Some([]), []), Empty);
      PrintableFields(fields) && ParseSchemaStructure(ObjectText(PrintFields(fields))) == Ok(Empty)
  {
    var fields := Entry(PROTO, Scalar("string", Some([]), []), Empty);
    assert Printable(fields.value) && IsName(PROTO);
    SchemaRoundTrip(fields, []);
    assert ObjectText(PrintFields(fields)) + Modifiers([]) == ObjectText(PrintFields(fields));
  }

  lemma ObjectBalanced(fields: Record, ms: seq<Modifier>)
    requires PrintableFields(fields) && PrintableModifiers(ms)
    ensures Balanced(ObjectText(PrintFields(fields)) + Modifiers(ms))
  {
    FieldsShape(fields);
    ObjectShape(PrintFields(fields));
    WithModifiersShape(ObjectText(PrintFields(fields)), ms);
  }

  /** An object in an array comes back without its modifiers, and is accepted as if it had none. */
  lemma ModifiersInArrayAreLost(fields: Record, inner: seq<Modifier>, outer: seq<Modifier>)
    requires PrintableFields(fields) && PrintableModifiers(inner) && PrintableModifiers(outer)
    ensures ReadsAs(ObjectArray(fields, outer), ParseZodType(Print(SimpleArray(Nested(fields, inner), outer))))
  {
    ObjectBalanced(fields, inner);
    FieldsRoundTrip(fields);
    ObjectInArray(fields, inner);
    ArrayParts(ObjectText(PrintFields(fields)) + Modifiers(inner), outer);
    ObjectArrayReadsAs(fields, outer, ParseObjectProperties(PrintFields(fields)));
  }

  const ROWS: Record :=
    Entry("rows", ObjectArray(Entry("x", Scalar("string", Some([]), [Modifier("regex", [Str("a")])]), Empty), []), Empty)

  /** A modifier that is not in the list is refused in an array of objects. */
  lemma RefusedExample()
    ensures PrintableFields(ROWS) && ParseSchemaStructure(ObjectText(PrintFields(ROWS))) == Err(UnsupportedModifier("regex"))
  {
    var x := ROWS.value.fields.value;
    OnlyRegex(x);
    InRows(x);
    SchemaRoundTrip(ROWS, []);
    assert ObjectText(PrintFields(ROWS)) + Modifiers([]) == ObjectText(PrintFields(ROWS));
  }

  /** The only property of the objects in an array decides. */
  lemma InRows(x: TypeInfo)
    requires Printable(x) && !AllowedType(x)
    ensures
      var rows := Entry("rows", ObjectArray(Entry("x", x, Empty), []), Empty);
      PrintableFields(rows) && !AcceptsFields(rows) && forall e :: BlamesFields(rows, e) ==> Blames(x, e)
  {
    var inside := Entry("x", x, Empty);
    assert PrintableFields(inside) && !AllowedFields(inside);
    forall e | BlamesFields(Entry("rows", ObjectArray(inside, []), Empty), e) ensures Blames(x, e) { OnlyIn(x, e); }
  }

  lemma OnlyIn(x: TypeInfo, e: Error)
    requires BlamesFields(Entry("rows", ObjectArray(Entry("x", x, Empty), []), Empty), e)
    ensures Blames(x, e)
  {
    assert !BlamesFields(Empty, e) && !BlamesModifier([], e);
    assert Blames(ObjectArray(Entry("x", x, Empty), []), e);
    assert BlamesFields(Entry("x", x, Empty), e);
  }

  lemma OnlyRegex(x: TypeInfo)
    requires x == Scalar("string", Some([]), [Modifier("regex", [Str("a")])])
    ensures Printable(x) && Accepts(x) && !AllowedType(x) && forall e :: Blames(x, e) ==> e == UnsupportedModifier("regex")
  {
    AllowedAre("regex");
    AllowedAre("string");
    assert PrintableModifier(x.modifiers[0]) && !IsAllowed(x.modifiers[0].name);
  }
}
