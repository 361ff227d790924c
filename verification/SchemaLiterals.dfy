/** Object literals as arguments, `default({key: value})`: printed ones are read back entry by entry. */
module SchemaLiterals {
  import opened Common
  import opened SchemaText
  import opened SchemaParser
  import opened SchemaSplitting
  import opened SchemaPrinter
  import opened SchemaRoundTrip

  function EntryText(e: (string, Arg)): string { e.0 + ":" + ArgText(e.1) }

  function EntryTexts(entries: seq<(string, Arg)>): seq<string> {
    if entries == [] then [] else [EntryText(entries[0])] + EntryTexts(entries[1..])
  }

  function LiteralText(entries: seq<(string, Arg)>): string { "{" + Join(EntryTexts(entries), ',') + "}" }

  predicate PlainEntry(e: (string, Arg)) { IsName(e.0) && e.0 != PROTO && PrintableArg(e.1) }

  /** Keys are distinct words other than `__proto__`; values are numbers, strings and lists of strings. */
  predicate PlainEntries(entries: seq<(string, Arg)>) {
    (forall i :: 0 <= i < |entries| ==> PlainEntry(entries[i])) &&
    forall i, j :: 0 <= i < j < |entries| ==> entries[i].0 != entries[j].0
  }

  lemma EntryShape(e: (string, Arg))
    requires PlainEntry(e)
    ensures Solid(EntryText(e)) && Neutral(EntryText(e), 0)
  {
    NameShape(e.0);
    ArgShape(e.1);
    NeutralPlain(":");
    NeutralConcat(e.0, ":", 0);
    NeutralConcat(e.0 + ":", ArgText(e.1), 0);
  }

  lemma {:induction false} EntriesShape(entries: seq<(string, Arg)>)
    requires forall i :: 0 <= i < |entries| ==> PlainEntry(entries[i])
    ensures |EntryTexts(entries)| == |entries|
    ensures forall i :: 0 <= i < |entries| ==> Solid(EntryTexts(entries)[i]) && IsPiece(EntryTexts(entries)[i])
    decreases |entries|
  {
    if entries != [] {
      assert PlainEntry(entries[0]);
      EntryShape(entries[0]);
      EntriesShape(entries[1..]);
    }
  }

  lemma ValueReads(a: Arg)
    requires PrintableArg(a)
    ensures Trim(ArgText(a)) == ArgText(a) && LiteralValue(ArgText(a)) == a
  {
    ArgShape(a);
    TrimTrimmed(ArgText(a));
    match a
    case Num(n) =>
      PrintNatDigits(n);
      assert IsDigit(PrintNat(n)[0]);
    case Str(s) => UnquotedQuoted(s);
    case List(items) =>
      InnerOf('[', Join(QuotedAll(items), ','), ']');
      ItemsRoundTrip(items, ' ');
  }

  lemma EntryParts(e: (string, Arg))
    requires PlainEntry(e)
    ensures
      var s, n := EntryText(e), |e.0|;
      n < |s| && IndexOf(s, ':') == Some(n) && WithoutQuotes(Trim(s[..n])) == e.0 && LiteralValue(Trim(s[n + 1..])) == e.1
  {
    ValueReads(e.1);
    ArgShape(e.1);
    PropertyParts(e.0, ArgText(e.1));
  }

  predicate Without(entries: seq<(string, Arg)>, key: string) { forall i :: 0 <= i < |entries| ==> entries[i].0 != key }

  lemma {:induction false} PutAppends(entries: seq<(string, Arg)>, key: string, value: Arg)
    requires Without(entries, key)
    ensures PutEntry(entries, key, value) == entries + [(key, value)]
    decreases |entries|
  {
    if entries != [] {
      PutAppends(entries[1..], key, value);
      assert entries + [(key, value)] == [entries[0]] + (entries[1..] + [(key, value)]);
    }
  }

  lemma EntryStep(e: (string, Arg), pieces: seq<string>, done: seq<(string, Arg)>)
    requires PlainEntry(e) && Without(done, e.0) && pieces != [] && pieces[0] == EntryText(e)
    ensures LiteralEntries(pieces, done) == LiteralEntries(pieces[1..], done + [e])
  {
    EntryParts(e);
    PutAppends(done, e.0, e.1);
  }

  lemma TextsFrom(all: seq<(string, Arg)>, n: nat)
    requires n < |all|
    ensures
      var texts := EntryTexts(all[n..]);
      texts != [] && texts[0] == EntryText(all[n]) && texts[1..] == EntryTexts(all[n + 1..])
  {
    assert all[n..][0] == all[n] && all[n..][1..] == all[n + 1..];
  }

  /** The entry at `n` is read behind those before it. */
  lemma EntryRead(all: seq<(string, Arg)>, n: nat)
    requires PlainEntries(all) && n < |all|
    ensures LiteralEntries(EntryTexts(all[n..]), all[..n]) == LiteralEntries(EntryTexts(all[n + 1..]), all[..n + 1])
  {
    TextsFrom(all, n);
    assert all[..n] + [all[n]] == all[..n + 1];
    EntryStep(all[n], EntryTexts(all[n..]), all[..n]);
  }

  lemma {:induction false} EntriesRead(all: seq<(string, Arg)>, n: nat)
    requires PlainEntries(all) && n <= |all|
    ensures LiteralEntries(EntryTexts(all[n..]), all[..n]) == all
    decreases |all| - n
  {
    if n == |all| {
      assert all[n..] == [] && all[..n] == all;
    } else {
      EntryRead(all, n);
      EntriesRead(all, n + 1);
    }
  }

  lemma EntriesSplit(entries: seq<(string, Arg)>)
    requires PlainEntries(entries)
    ensures
      var content := Join(EntryTexts(entries), ',');
      Trim(content) == content && (content == "" <==> entries == []) && SplitPieces(content) == EntryTexts(entries)
  {
    EntriesShape(entries);
    var texts := EntryTexts(entries);
    if entries != [] { JoinShape(texts, ','); }
    TrimTrimmed(Join(texts, ','));
    SplitJoin(texts);
  }

  lemma InBraces(content: string)
    requires Trim(content) == content
    ensures
      ParseComplexArguments("(" + ("{" + content + "}") + ")") ==
      [Literal(if content == "" then [] else LiteralEntries(SplitPieces(content), []))]
  {
    var inner := "{" + content + "}";
    InnerOf('(', inner, ')');
    InnerOf('{', content, '}');
    TrimTrimmed(inner);
  }

  /** A printed object literal is read back entry by entry. */
  lemma LiteralRoundTrip(entries: seq<(string, Arg)>)
    requires PlainEntries(entries)
    ensures ParseComplexArguments("(" + LiteralText(entries) + ")") == [Literal(entries)]
  {
    EntriesSplit(entries);
    InBraces(Join(EntryTexts(entries), ','));
    EntriesRead(entries, 0);
    assert entries[..0] == [] && entries[0..] == entries;
  }
}
