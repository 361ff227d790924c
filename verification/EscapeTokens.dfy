/**
 Escaping for JSON text: seven characters are swapped for token words by whole-string
 replacements made one after the other, and swapped back the same way.
 */
module EscapeTokens {

  const COUNT: nat := 7

  /** A position in the table. */
  type Row = k: nat | k < COUNT

  /** A number of rows. */
  type Rows = n: nat | n <= COUNT

  /** The characters of the source's table, in its order. */
  function Escaped(k: Row): char {
    ['\"', '\n', '\U{0008}', '\U{000C}', '\r', '\t', '\\'][k]
  }

  /** The token words of the source's table, in its order. */
  function Token(k: Row): string {
    match k
    case 0 => "FLOWISE_DOUBLE_QUOTE"
    case 1 => "FLOWISE_NEWLINE"
    case 2 => "FLOWISE_BACKSPACE"
    case 3 => "FLOWISE_FORM_FEED"
    case 4 => "FLOWISE_CARRIAGE_RETURN"
    case 5 => "FLOWISE_TAB"
    case _ => "FLOWISE_BACKSLASH"
  }

  predicate StartsWith(s: string, prefix: string) {
    |prefix| <= |s| && s[..|prefix|] == prefix
  }

  /** Left-to-right replacement of every non-overlapping occurrence of `pattern`. */
  function ReplaceAll(s: string, pattern: string, text: string): string
    requires pattern != ""
    decreases |s|
  {
    if s == "" then ""
    else if StartsWith(s, pattern) then text + ReplaceAll(s[|pattern|..], pattern, text)
    else s[..1] + ReplaceAll(s[1..], pattern, text)
  }

  /** The string after the first `n` replacements. */
  function Replaced(input: string, reverse: bool, n: Rows): string {
    if n == 0 then input
    else
      var before := Replaced(input, reverse, n - 1);
      if reverse then ReplaceAll(before, Token(n - 1), [Escaped(n - 1)])
      else ReplaceAll(before, [Escaped(n - 1)], Token(n - 1))
  }

  function Escape(s: string): string { Replaced(s, false, COUNT) }

  function Unescape(s: string): string { Replaced(s, true, COUNT) }

  method HandleEscapesJSONParse(input: string, reverse: bool) returns (output: string)
    ensures output == if reverse then Unescape(input) else Escape(input)
  {
    output := input;
    for k := 0 to COUNT
      invariant output == Replaced(input, reverse, k)
    {
      output := if reverse then ReplaceAll(output, Token(k), [Escaped(k)]) else ReplaceAll(output, [Escaped(k)], Token(k));
    }
  }

  // ---------------------------------------------------------------- the token words

  /** Position of a character in the table, or COUNT when it is not an escaped character. */
  function IndexOf(c: char): (k: nat)
    ensures k <= COUNT
    ensures k < COUNT ==> Escaped(k) == c
    ensures k == COUNT ==> forall m: nat :: m < COUNT ==> Escaped(m) != c
    ensures forall m: nat :: m < COUNT && Escaped(m) == c ==> m == k
  {
    if c == '\"' then 0 else if c == '\n' then 1 else if c == '\U{0008}' then 2 else if c == '\U{000C}' then 3
    else if c == '\r' then 4 else if c == '\t' then 5 else if c == '\\' then 6 else COUNT
  }

  /** A word that begins with FL and in which no later position could begin such a word. */
  ghost predicate TokenLike(w: string) {
    |w| > 1 && w[0] == 'F' && w[1] == 'L' &&
    forall p :: 1 <= p < |w| && w[p] == 'F' ==> p + 1 < |w| && w[p + 1] != 'L'
  }

  /** All tokens begin with the same word, and F comes again in two of them only, before O. */
  lemma TokenShape(k: Row)
    ensures TokenLike(Token(k))
  {
    var w := Token(k);
    assert w[..8] == "FLOWISE_";
    forall p | 1 <= p < |w| && w[p] == 'F' ensures p + 1 < |w| && w[p + 1] != 'L' {
      assert p >= 8 && k == 3;
    }
  }

  predicate IsTokenChar(c: char) { 'A' <= c <= 'Z' || c == '_' }

  lemma TokenIsUpper(k: Row)
    ensures forall p :: 0 <= p < |Token(k)| ==> IsTokenChar(Token(k)[p])
  {
  }

  lemma TokenIsPlain(k: Row)
    ensures forall p :: 0 <= p < |Token(k)| ==> IndexOf(Token(k)[p]) == COUNT
  {
    TokenIsUpper(k);
    forall p | 0 <= p < |Token(k)| ensures IndexOf(Token(k)[p]) == COUNT {
      assert IsTokenChar(Token(k)[p]);
    }
  }

  lemma TokenLacksEscaped(k: Row, j: Row)
    ensures Escaped(j) !in Token(k)
  {
    TokenIsPlain(k);
    forall p | 0 <= p < |Token(k)| ensures Token(k)[p] != Escaped(j) {
      assert IndexOf(Token(k)[p]) == COUNT;
    }
  }

  /** No token is a prefix of another. */
  lemma TokensDiffer(k: Row, m: Row) returns (d: nat)
    requires k != m
    ensures d < |Token(k)| && d < |Token(m)| && Token(k)[d] != Token(m)[d]
  {
    d := if {k, m} == {2, 6} then 13 else 8;
  }

  lemma StartsChar(s: string, w: string, i: nat)
    requires i < |w|
    ensures StartsWith(s, w) ==> i < |s| && s[i] == w[i]
  {
    if StartsWith(s, w) { assert s[..|w|][i] == s[i]; }
  }

  lemma StartsTail(s: string, w: string)
    requires w != ""
    ensures StartsWith(s, w) <==> s != "" && s[0] == w[0] && StartsWith(s[1..], w[1..])
  {
    StartsChar(s, w, 0);
    if s != "" {
      if |w| <= |s| {
        assert s[..|w|][1..] == s[1..][..|w| - 1];
        assert w == [w[0]] + w[1..];
        assert s[..|w|] == [s[0]] + s[1..][..|w| - 1];
      }
    }
  }

  // ---------------------------------------------------------------- encodings

  /** The characters of the table from `lo` up to `hi` written as tokens, all others kept. */
  function Encode(s: string, lo: nat, hi: Rows): string {
    if s == "" then "" else EncodeChar(s[0], lo, hi) + Encode(s[1..], lo, hi)
  }

  function EncodeChar(c: char, lo: nat, hi: Rows): (r: string)
    ensures r != ""
  {
    if lo <= IndexOf(c) < hi then Token(IndexOf(c)) else [c]
  }

  ghost predicate OccursAt(s: string, word: string, i: nat) { i <= |s| && StartsWith(s[i..], word) }

  /** No token word occurs anywhere in `s`. */
  ghost predicate NoTokens(s: string) {
    forall k: nat, i: nat :: k < COUNT ==> !OccursAt(s, Token(k), i)
  }

  /** A character other than the pattern's is copied. */
  lemma ReplaceSkips(c: char, rest: string, k: Row)
    requires c != Escaped(k)
    ensures ReplaceAll([c] + rest, [Escaped(k)], Token(k)) == [c] + ReplaceAll(rest, [Escaped(k)], Token(k))
  {
    var s := [c] + rest;
    assert s[..1] == [c] && s[1..] == rest;
    assert s[..1][0] != [Escaped(k)][0];
  }

  lemma Regroup(x: string, t: string)
    requires x != ""
    ensures [x[0]] + (x[1..] + t) == x + t
  {
  }

  lemma {:induction false} ConcatReplaceChar(x: string, t: string, k: Row)
    requires Escaped(k) !in x
    ensures ReplaceAll(x + t, [Escaped(k)], Token(k)) == x + ReplaceAll(t, [Escaped(k)], Token(k))
    decreases |x|
  {
    if x == "" {
      assert x + t == t;
    } else {
      assert x[0] in x && forall c :: c in x[1..] ==> c in x;
      ConcatReplaceChar(x[1..], t, k);
      ReplaceSkips(x[0], x[1..] + t, k);
      Regroup(x, t);
      Regroup(x, ReplaceAll(t, [Escaped(k)], Token(k)));
    }
  }

  /** One forward replacement encodes one more character of the table; token text is never touched. */
  lemma {:induction false} EscapeStep(s: string, j: Row)
    ensures ReplaceAll(Encode(s, 0, j), [Escaped(j)], Token(j)) == Encode(s, 0, j + 1)
    decreases |s|
  {
    if s != "" {
      var head, tail := EncodeChar(s[0], 0, j), Encode(s[1..], 0, j);
      EscapeStep(s[1..], j);
      if s[0] == Escaped(j) {
        assert head == [Escaped(j)] && (head + tail)[..1] == head && (head + tail)[1..] == tail;
      } else {
        if IndexOf(s[0]) < j { TokenLacksEscaped(IndexOf(s[0]), j); }
        ConcatReplaceChar(head, tail, j);
      }
    }
  }

  lemma {:induction false} EscapePrefix(s: string, n: Rows)
    ensures Replaced(s, false, n) == Encode(s, 0, n)
    decreases n
  {
    if n == 0 {
      EncodeNone(s, 0, 0);
    } else {
      EscapePrefix(s, n - 1);
      EscapeStep(s, n - 1);
    }
  }

  lemma {:induction false} EncodeNone(s: string, lo: nat, hi: Rows)
    requires hi <= lo
    ensures Encode(s, lo, hi) == s
    decreases |s|
  {
    if s != "" { EncodeNone(s[1..], lo, hi); }
  }

  /** Escaping, although sequential, is the simultaneous character-by-character encoding, on every string. */
  lemma EscapeIsEncode(s: string)
    ensures Escape(s) == Encode(s, 0, COUNT)
  {
    EscapePrefix(s, COUNT);
  }

  // ---------------------------------------------------------------- undoing it

  lemma NoTokensTail(s: string)
    requires NoTokens(s) && s != ""
    ensures NoTokens(s[1..])
  {
    forall k: nat, i: nat | k < COUNT ensures !OccursAt(s[1..], Token(k), i) {
      assert !OccursAt(s, Token(k), i + 1);
      assert i <= |s[1..]| ==> s[1..][i..] == s[i + 1..];
    }
  }

  /** Inside the encoding, a proper tail of a token can only be matched by plain text. */
  lemma {:induction false} TailIsPlain(s: string, lo: nat, w: string)
    requires forall p :: 0 <= p < |w| && w[p] == 'F' ==> p + 1 < |w| && w[p + 1] != 'L'
    requires StartsWith(Encode(s, lo, COUNT), w)
    ensures StartsWith(s, w)
    decreases |w|
  {
    if w != "" {
      var e := Encode(s, lo, COUNT);
      StartsTail(e, w);
      StartsTail(s, w);
      var k := IndexOf(s[0]);
      if lo <= k < COUNT {
        TokenShape(k);
        assert e[1] == Token(k)[1];
        StartsChar(e, w, 1);
      } else {
        assert e[1..] == Encode(s[1..], lo, COUNT);
        TailIsPlain(s[1..], lo, w[1..]);
      }
    }
  }

  lemma NoMatchInside(a: string, b: string, d: nat, p: nat, t: string)
    requires TokenLike(a) && TokenLike(b) && d < |a| && d < |b| && a[d] != b[d]
    requires p < |b|
    ensures !StartsWith(b[p..] + t, a)
  {
    var x := b[p..] + t;
    StartsChar(x, a, 0);
    StartsChar(x, a, 1);
    StartsChar(x, a, d);
    assert x[0] == b[p];
    assert p + 1 < |b| ==> x[1] == b[p + 1];
    assert p == 0 ==> x[d] == b[d];
  }

  /** A token matches nowhere inside another token, whatever follows it. */
  lemma {:induction false} SkipToken(a: string, b: string, d: nat, p: nat, t: string, text: string)
    requires TokenLike(a) && TokenLike(b) && d < |a| && d < |b| && a[d] != b[d]
    requires p <= |b|
    ensures ReplaceAll(b[p..] + t, a, text) == b[p..] + ReplaceAll(t, a, text)
    decreases |b| - p
  {
    var x := b[p..] + t;
    if p == |b| {
      assert x == t;
    } else {
      NoMatchInside(a, b, d, p, t);
      assert x[1..] == b[p + 1..] + t && x[..1] == [b[p]] && b[p..] == [b[p]] + b[p + 1..];
      SkipToken(a, b, d, p + 1, t, text);
    }
  }

  lemma PlainNoMatch(s: string, j: Row)
    requires s != "" && !(j <= IndexOf(s[0]) < COUNT) && NoTokens(s)
    ensures !StartsWith(Encode(s, j, COUNT), Token(j))
  {
    var e, w := Encode(s, j, COUNT), Token(j);
    TokenShape(j);
    assert s[0..] == s;
    assert !OccursAt(s, w, 0);
    StartsTail(e, w);
    StartsTail(s, w);
    assert e[0] == s[0] && e[1..] == Encode(s[1..], j, COUNT);
    if StartsWith(e[1..], w[1..]) {
      TailIsPlain(s[1..], j, w[1..]);
    }
  }

  /** One backward replacement decodes exactly the tokens the encoding put in. */
  lemma {:induction false} UnescapeStep(s: string, j: Row)
    requires NoTokens(s)
    ensures ReplaceAll(Encode(s, j, COUNT), Token(j), [Escaped(j)]) == Encode(s, j + 1, COUNT)
    decreases |s|
  {
    if s != "" {
      var k := IndexOf(s[0]);
      var head, tail := EncodeChar(s[0], j, COUNT), Encode(s[1..], j, COUNT);
      NoTokensTail(s);
      UnescapeStep(s[1..], j);
      TokenShape(j);
      if k == j {
        assert (head + tail)[..|head|] == Token(j) && (head + tail)[|head|..] == tail;
      } else if j < k < COUNT {
        assert Token(k)[0..] == Token(k);
        TokenShape(k);
        var d := TokensDiffer(j, k);
        SkipToken(Token(j), Token(k), d, 0, tail, [Escaped(j)]);
      } else {
        PlainNoMatch(s, j);
        assert (head + tail)[1..] == tail && (head + tail)[..1] == head;
      }
    }
  }

  lemma {:induction false} UnescapePrefix(s: string, n: Rows)
    requires NoTokens(s)
    ensures Replaced(Encode(s, 0, COUNT), true, n) == Encode(s, n, COUNT)
    decreases n
  {
    if n > 0 {
      UnescapePrefix(s, n - 1);
      UnescapeStep(s, n - 1);
    }
  }

  // ---------------------------------------------------------------- what unescaping leaves behind

  /** Text without the new character at the front of the output was already at the front of the input. */
  lemma {:induction false} FrontWasThere(x: string, a: string, c: char, w: string)
    requires a != "" && c !in w
    requires StartsWith(ReplaceAll(x, a, [c]), w)
    ensures StartsWith(x, w)
    decreases |x|
  {
    if w != "" {
      var r := ReplaceAll(x, a, [c]);
      StartsTail(r, w);
      StartsTail(x, w);
      assert x != "" && !StartsWith(x, a);
      assert r[1..] == ReplaceAll(x[1..], a, [c]);
      FrontWasThere(x[1..], a, c, w[1..]);
    }
  }

  /** A replacement by a character outside word `w` clears `a` and brings no absent word `w` back. */
  lemma {:induction false} ReplacementClears(x: string, a: string, c: char, w: string, i: nat)
    requires a != "" && w != "" && c !in w
    requires w == a || forall m: nat :: !OccursAt(x, w, m)
    ensures !OccursAt(ReplaceAll(x, a, [c]), w, i)
    decreases |x|, i
  {
    var r := ReplaceAll(x, a, [c]);
    if i == 0 {
      assert r[0..] == r && x[0..] == x;
      assert OccursAt(x, w, 0) <==> StartsWith(x, w);
      StartsChar(r, w, 0);
      if StartsWith(r, w) { FrontWasThere(x, a, c, w); }
    } else if x != "" {
      var n := if StartsWith(x, a) then |a| else 1;
      var rest := ReplaceAll(x[n..], a, [c]);
      assert r[1..] == rest;
      assert i <= |r| ==> r[i..] == rest[i - 1..];
      forall m: nat | w != a ensures !OccursAt(x[n..], w, m) {
        assert !OccursAt(x, w, n + m);
        assert m <= |x[n..]| ==> x[n..][m..] == x[n + m..];
      }
      ReplacementClears(x[n..], a, c, w, i - 1);
    }
  }

  lemma {:induction false} UnescapeClears(x: string, n: nat, j: nat)
    requires j < n <= COUNT
    ensures forall i: nat :: !OccursAt(Replaced(x, true, n), Token(j), i)
    decreases n
  {
    if j < n - 1 { UnescapeClears(x, n - 1, j); }
    forall i: nat ensures !OccursAt(Replaced(x, true, n), Token(j), i) {
      TokenShape(j);
      TokenLacksEscaped(j, n - 1);
      ReplacementClears(Replaced(x, true, n - 1), Token(n - 1), Escaped(n - 1), Token(j), i);
    }
  }

  /** No token word survives unescaping, whatever the input. */
  lemma UnescapeLeavesNoTokens(x: string)
    ensures NoTokens(Unescape(x))
  {
    forall k: nat, i: nat | k < COUNT ensures !OccursAt(Unescape(x), Token(k), i) {
      UnescapeClears(x, COUNT, k);
    }
  }

  /** Escaping is undone exactly on the strings that contain none of the seven token words. */
  lemma RoundTrip(s: string)
    ensures Unescape(Escape(s)) == s <==> NoTokens(s)
  {
    EscapeIsEncode(s);
    UnescapeLeavesNoTokens(Escape(s));
    if NoTokens(s) {
      UnescapePrefix(s, COUNT);
      EncodeNone(s, COUNT, COUNT);
    }
  }

  // ---------------------------------------------------------------- the other order

  lemma {:induction false} EncodeConcat(x: string, y: string)
    ensures Encode(x + y, 0, COUNT) == Encode(x, 0, COUNT) + Encode(y, 0, COUNT)
    decreases |x|
  {
    if x == "" {
      assert x + y == y;
    } else {
      assert (x + y)[1..] == x[1..] + y;
      EncodeConcat(x[1..], y);
    }
  }

  lemma {:induction false} EncodePlain(x: string)
    requires forall p :: 0 <= p < |x| ==> IndexOf(x[p]) == COUNT
    ensures Encode(x, 0, COUNT) == x
    decreases |x|
  {
    if x != "" { EncodePlain(x[1..]); }
  }

  lemma EncodeCons(c: char, rest: string)
    ensures Encode([c] + rest, 0, COUNT) == EncodeChar(c, 0, COUNT) + Encode(rest, 0, COUNT)
  {
    assert ([c] + rest)[1..] == rest;
  }

  /** What stands for each character in escaped text. */
  function Written(c: char): string {
    match c
    case '\"' => "FLOWISE_DOUBLE_QUOTE"
    case '\n' => "FLOWISE_NEWLINE"
    case '\U{0008}' => "FLOWISE_BACKSPACE"
    case '\U{000C}' => "FLOWISE_FORM_FEED"
    case '\r' => "FLOWISE_CARRIAGE_RETURN"
    case '\t' => "FLOWISE_TAB"
    case '\\' => "FLOWISE_BACKSLASH"
    case _ => [c]
  }

  lemma EncodeWrites(c: char)
    ensures Encode([c], 0, COUNT) == Written(c)
  {
    assert [c][1..] == "" && EncodeChar(c, 0, COUNT) + "" == EncodeChar(c, 0, COUNT);
  }

  /** Escaping goes character by character and, with the empty text, this fixes it: which word stands for which character. */
  lemma EscapeWrites(x: string, c: char, y: string)
    ensures Escape("") == ""
    ensures Escape(x + [c] + y) == Escape(x) + Written(c) + Escape(y)
  {
    EscapeIsEncode("");
    EscapeIsEncode(x);
    EscapeIsEncode(y);
    EscapeIsEncode(x + [c] + y);
    EncodeConcat(x + [c], y);
    EncodeConcat(x, [c]);
    EncodeWrites(c);
  }

  lemma EncodeToken(k: Row, rest: string)
    ensures Encode(Token(k) + rest, 0, COUNT) == Encode([Escaped(k)] + rest, 0, COUNT)
  {
    TokenIsPlain(k);
    EncodePlain(Token(k));
    EncodeConcat(Token(k), rest);
    EncodeCons(Escaped(k), rest);
  }

  lemma {:induction false} EncodeIgnoresReplacement(x: string, k: Row)
    ensures Encode(ReplaceAll(x, Token(k), [Escaped(k)]), 0, COUNT) == Encode(x, 0, COUNT)
    decreases |x|
  {
    if x == "" {
    } else if StartsWith(x, Token(k)) {
      var rest := x[|Token(k)|..];
      assert x == Token(k) + rest;
      EncodeToken(k, rest);
      EncodeIgnoresReplacement(rest, k);
      EncodeCons(Escaped(k), rest);
      EncodeCons(Escaped(k), ReplaceAll(rest, Token(k), [Escaped(k)]));
    } else {
      assert x[..1] == [x[0]] && x == [x[0]] + x[1..];
      EncodeIgnoresReplacement(x[1..], k);
      EncodeCons(x[0], x[1..]);
      EncodeCons(x[0], ReplaceAll(x[1..], Token(k), [Escaped(k)]));
    }
  }

  /** Unescaping first changes nothing that escaping would not have done: on every string. */
  lemma EscapeAfterUnescape(s: string)
    ensures Escape(Unescape(s)) == Escape(s)
  {
    EscapeIsEncode(s);
    EscapeIsEncode(Unescape(s));
    for n := 0 to COUNT
      invariant Encode(Replaced(s, true, n), 0, COUNT) == Encode(s, 0, COUNT)
    {
      EncodeIgnoresReplacement(Replaced(s, true, n), n);
    }
  }

  // ---------------------------------------------------------------- nested values

  /** A JavaScript value as the handler sees it: strings, objects and arrays, and everything else. */
  datatype Value =
    | Str(text: string)
    | Arr(items: seq<Value>)
    | Obj(entries: seq<(string, Value)>)
    | Other(id: int)

  /** Strings are rewritten at any depth; keys and all other values stay. */
  function HandleEscapeCharacters(input: Value, reverse: bool): Value {
    match input
    case Str(text) => Str(if reverse then Unescape(text) else Escape(text))
    case Arr(items) => Arr(seq(|items|, i requires 0 <= i < |items| => HandleEscapeCharacters(items[i], reverse)))
    case Obj(entries) =>
      Obj(seq(|entries|, i requires 0 <= i < |entries| => (entries[i].0, HandleEscapeCharacters(entries[i].1, reverse))))
    case Other(_) => input
  }

  ghost predicate AllNoTokens(v: Value) {
    match v
    case Str(text) => NoTokens(text)
    case Arr(items) => forall i :: 0 <= i < |items| ==> AllNoTokens(items[i])
    case Obj(entries) => forall i :: 0 <= i < |entries| ==> AllNoTokens(entries[i].1)
    case Other(_) => true
  }

  /** The round trip for nested objects and arrays: it holds exactly when no string value contains a token. */
  lemma {:induction false} NestedRoundTrip(v: Value)
    ensures HandleEscapeCharacters(HandleEscapeCharacters(v, false), true) == v <==> AllNoTokens(v)
  {
    var once := HandleEscapeCharacters(v, false);
    var twice := HandleEscapeCharacters(once, true);
    match v
    case Str(text) => RoundTrip(text);
    case Arr(items) =>
      forall i | 0 <= i < |items|
        ensures twice.items[i] == items[i] <==> AllNoTokens(items[i])
      {
        NestedRoundTrip(items[i]);
      }
      assert twice == v <==> twice.items == items;
    case Obj(entries) =>
      forall i | 0 <= i < |entries|
        ensures twice.entries[i] == entries[i] <==> AllNoTokens(entries[i].1)
      {
        NestedRoundTrip(entries[i].1);
      }
      assert twice == v <==> twice.entries == entries;
    case Other(_) =>
  }
}
