/** The string operations and patterns the schema parser is made of, as explicit scans. */
module SchemaText {
  import opened Common

  predicate IsSpace(c: char) {
    '\t' <= c <= '\r' || c == ' ' || c == '\U{00A0}' || c == '\U{1680}' || '\U{2000}' <= c <= '\U{200A}' ||
    c == '\U{2028}' || c == '\U{2029}' || c == '\U{202F}' || c == '\U{205F}' || c == '\U{3000}' || c == '\U{FEFF}'
  }

  predicate IsWordChar(c: char) { 'a' <= c <= 'z' || 'A' <= c <= 'Z' || '0' <= c <= '9' || c == '_' }

  predicate IsDigit(c: char) { '0' <= c <= '9' }

  predicate IsLineEnd(c: char) { c in {'\n', '\r', '\U{2028}', '\U{2029}'} }

  predicate IsQuote(c: char) { c == '\"' || c == '\'' }

  function TrimStart(s: string): string {
    if s != "" && IsSpace(s[0]) then TrimStart(s[1..]) else s
  }

  function TrimEnd(s: string): string {
    if s != "" && IsSpace(s[|s| - 1]) then TrimEnd(s[..|s| - 1]) else s
  }

  function Trim(s: string): string { TrimEnd(TrimStart(s)) }

  lemma {:induction false} TrimShortens(s: string)
    ensures |TrimStart(s)| <= |s| && |TrimEnd(s)| <= |s|
    decreases |s|
  {
    if s != "" && IsSpace(s[0]) { TrimShortens(s[1..]); }
    if s != "" && IsSpace(s[|s| - 1]) { TrimShortens(s[..|s| - 1]); }
  }

  lemma TrimLength(s: string)
    ensures |Trim(s)| <= |s|
  {
    TrimShortens(s);
    TrimShortens(TrimStart(s));
  }

  /** No space at either end. */
  predicate Trimmed(s: string) { s == "" || (!IsSpace(s[0]) && !IsSpace(s[|s| - 1])) }

  lemma TrimTrimmed(s: string)
    requires Trimmed(s)
    ensures Trim(s) == s
  {
  }

  predicate StartsWith(s: string, prefix: string) { |prefix| <= |s| && s[..|prefix|] == prefix }

  predicate EndsWith(s: string, c: char) { s != "" && s[|s| - 1] == c }

  function IndexOf(s: string, c: char): Option<nat> {
    if s == "" then None
    else if s[0] == c then Some(0)
    else
      var i := IndexOf(s[1..], c);
      if i.Some? then Some(i.value + 1) else None
  }

  lemma {:induction false} IndexOfInside(s: string, c: char)
    ensures IndexOf(s, c).Some? ==> IndexOf(s, c).value < |s|
    decreases |s|
  {
    if s != "" { IndexOfInside(s[1..], c); }
  }

  function WordPrefix(s: string): string {
    if s != "" && IsWordChar(s[0]) then [s[0]] + WordPrefix(s[1..]) else ""
  }

  lemma {:induction false} WordPrefixInside(s: string)
    ensures |WordPrefix(s)| <= |s|
    decreases |s|
  {
    if s != "" && IsWordChar(s[0]) { WordPrefixInside(s[1..]); }
  }

  predicate AllDigits(s: string) { s != "" && forall i :: 0 <= i < |s| ==> IsDigit(s[i]) }

  /** The pieces between the occurrences of a separator. */
  function SplitOn(s: string, c: char): (r: seq<string>)
    ensures r != []
  {
    if s == "" then [""]
    else
      var rest := SplitOn(s[1..], c);
      if s[0] == c then [""] + rest else [[s[0]] + rest[0]] + rest[1..]
  }

  function WithoutQuotes(s: string): string {
    if s == "" then "" else (if IsQuote(s[0]) then "" else [s[0]]) + WithoutQuotes(s[1..])
  }

  /** One quote dropped at each end, if there is one. */
  function Unquoted(s: string): string {
    var t := if s != "" && IsQuote(s[0]) then s[1..] else s;
    if t != "" && IsQuote(t[|t| - 1]) then t[..|t| - 1] else t
  }

  /** The decimal number written by a string of digits. */
  function ToNumber(s: string): nat
    requires forall i :: 0 <= i < |s| ==> IsDigit(s[i])
  {
    if s == "" then 0
    else
      assert IsDigit(s[|s| - 1]);
      10 * ToNumber(s[..|s| - 1]) + (s[|s| - 1] as int - '0' as int)
  }

  /** A word, alone or followed by one argument list that ends the text: `^(\w+)(\(.*\))?$`. */
  datatype Call = Call(name: string, args: Option<string>)

  function MatchCall(s: string): Option<Call> {
    var name := WordPrefix(s);
    WordPrefixInside(s);
    var rest := s[|name|..];
    if name == "" then None
    else if rest == "" then Some(Call(name, None))
    else if |rest| >= 2 && rest[0] == '(' && rest[|rest| - 1] == ')' && forall i :: 0 <= i < |rest| ==> !IsLineEnd(rest[i]) then
      Some(Call(name, Some(rest)))
    else None
  }

  /** The last closing brace that is followed by spaces and a closing parenthesis. */
  function LastClose(s: string): Option<nat> {
    if s == "" then None
    else
      var later := LastClose(s[1..]);
      if later.Some? then Some(later.value + 1)
      else if s[0] == '}' && StartsWith(TrimStart(s[1..]), ")") then Some(0)
      else None
  }

  lemma {:induction false} LastCloseInside(s: string)
    ensures LastClose(s).Some? ==> LastClose(s).value < |s|
    decreases |s|
  {
    if s != "" { LastCloseInside(s[1..]); }
  }

  /** The text between the braces of the leftmost object call, up to its last closing: `z\.object\(\s*\{([\s\S]*)\}\s*\)`. */
  function ObjectContent(s: string): (r: Option<string>)
    ensures r.Some? ==> |r.value| < |s|
    decreases |s|
  {
    if s == "" then None
    else if StartsWith(s, "z.object(") then
      var body := TrimStart(s[9..]);
      TrimShortens(s[9..]);
      LastCloseInside(if body == "" then "" else body[1..]);
      if body != "" && body[0] == '{' && LastClose(body[1..]).Some? then Some(body[1..][..LastClose(body[1..]).value])
      else ObjectContent(s[1..])
    else ObjectContent(s[1..])
  }

  /** The text inside the leftmost array call that the final parenthesis closes: `z\.array\(\s*([\s\S]*)\s*\)$`, trimmed. */
  function ArrayContent(s: string): (r: Option<string>)
    ensures r.Some? ==> |r.value| < |s|
    decreases |s|
  {
    if s == "" then None
    else if StartsWith(s, "z.array(") && |s| >= 9 && s[|s| - 1] == ')' then
      TrimLength(s[8..|s| - 1]);
      Some(Trim(s[8..|s| - 1]))
    else ArrayContent(s[1..])
  }
}
