/**
 Properties written with spaces around their parts, with keys in quotes and with keys that come again:
 the parser reads what the properties say, and the last one of a key counts.
 */
module SchemaLayout {
  import opened Common
  import opened SchemaText
  import opened SchemaParser
  import opened SchemaSplitting
  import opened SchemaPrinter
  import opened SchemaRoundTrip

  /** A property as written: `quote` is a quote of either kind or nothing, the other texts are spaces. */
  datatype Property = Property(before: string, quote: string, key: string, middle: string, gap: string, value: TypeInfo, after: string)

  ghost predicate WellWritten(p: Property) {
    AllSpaces(p.before) && AllSpaces(p.middle) && AllSpaces(p.gap) && AllSpaces(p.after) && p.quote in ["", "\"", "\'"] &&
    IsName(p.key) && Printable(p.value)
  }

  function KeyText(p: Property): string { p.quote + p.key + p.quote }

  function Core(p: Property): string { KeyText(p) + p.middle + ":" + (p.gap + Print(p.value)) }

  function Written(p: Property): string { p.before + Core(p) + p.after }

  function WrittenAll(ps: seq<Property>): seq<string> { if ps == [] then [] else [Written(ps[0])] + WrittenAll(ps[1..]) }

  function Cores(ps: seq<Property>): seq<string> { if ps == [] then [] else [Core(ps[0])] + Cores(ps[1..]) }

  // ---------------------------------------------------------------- what the properties say

  /** The value last given to a key, if any: `__proto__` takes none. */
  function LastValue(ps: seq<Property>, key: string): Option<TypeInfo> {
    if ps == [] || key == PROTO then None
    else if ps[|ps| - 1].key == key then Some(Kept(ps[|ps| - 1].value))
    else LastValue(ps[..|ps| - 1], key)
  }

  function Lookup(r: Record, key: string): Option<TypeInfo> {
    match r
    case Empty => None
    case Entry(k, v, rest) => if k == key then Some(v) else Lookup(rest, key)
  }

  ghost predicate DistinctKeys(r: Record) { r.Entry? ==> !HasKey(r.rest, r.key) && DistinctKeys(r.rest) }

  /** Reading succeeds exactly when every value is accepted; then each key has the value last given to it, and once only. */
  ghost predicate ReadsProperties(ps: seq<Property>, r: Result<Record, Error>) {
    if forall p :: p in ps ==> Accepts(p.value) then
      r.Ok? && DistinctKeys(r.value) && forall key :: Lookup(r.value, key) == LastValue(ps, key)
    else r.Err? && exists p :: p in ps && Blames(p.value, r.error)
  }

  // ---------------------------------------------------------------- the text of one property

  lemma SpacesNeutral(s: string)
    requires AllSpaces(s)
    ensures Neutral(s, 0) && ':' !in s && forall i :: 0 <= i < |s| ==> !IsQuote(s[i])
  {
    forall i | 0 <= i < |s| ensures IsPlainChar(s[i]) && s[i] != ':' { assert IsSpace(s[i]); }
    NeutralPlain(s);
  }

  /** A key as written: its name comes back, and nothing in it splits or trims. */
  ghost predicate KeyLike(s: string, key: string) {
    Solid(s) && Neutral(s, 0) && ':' !in s && WithoutQuotes(s) == key
  }

  lemma PlainKey(key: string)
    requires IsName(key)
    ensures KeyLike(key, key) && forall i :: 0 <= i < |key| ==> !IsQuote(key[i]) && key[i] != '\\'
  {
    NameShape(key);
    forall i | 0 <= i < |key| ensures key[i] != ':' && !IsQuote(key[i]) && key[i] != '\\' { assert IsWordChar(key[i]); }
    NoQuotes(key);
  }

  lemma QuotedKey(key: string, q: char)
    requires IsName(key) && IsQuote(q)
    ensures KeyLike([q] + key + [q], key)
  {
    PlainKey(key);
    NeutralQuoted(key, q);
    QuotesDrop(q, key);
  }

  lemma KeyShape(p: Property)
    requires WellWritten(p)
    ensures KeyLike(KeyText(p), p.key)
  {
    if p.quote == "" {
      PlainKey(p.key);
      assert KeyText(p) == p.key;
    } else {
      QuotedKey(p.key, p.quote[0]);
      assert p.quote == [p.quote[0]];
    }
  }

  lemma {:induction false} QuotesDrop(q: char, s: string)
    requires IsQuote(q) && WithoutQuotes(s) == s
    ensures WithoutQuotes([q] + s + [q]) == s
  {
    WithoutQuotesConcat([q] + s, [q]);
    WithoutQuotesConcat([q], s);
    assert [q][1..] == "" && WithoutQuotes([q]) == "";
    assert "" + s == s && s + "" == s;
  }

  lemma {:induction false} WithoutQuotesConcat(a: string, b: string)
    ensures WithoutQuotes(a + b) == WithoutQuotes(a) + WithoutQuotes(b)
    decreases |a|
  {
    if a == "" {
      assert a + b == b;
    } else {
      assert (a + b)[1..] == a[1..] + b;
      WithoutQuotesConcat(a[1..], b);
    }
  }

  lemma ValueShape(p: Property)
    requires WellWritten(p)
    ensures Solid(Print(p.value)) && Neutral(p.gap + Print(p.value), 0)
  {
    PrintShape(p.value);
    SpacesNeutral(p.gap);
    NeutralConcat(p.gap, Print(p.value), 0);
  }

  lemma CoreShape(p: Property)
    requires WellWritten(p)
    ensures Solid(Core(p)) && Neutral(Core(p), 0)
  {
    KeyShape(p);
    ValueShape(p);
    SpacesNeutral(p.middle);
    NeutralConcat(KeyText(p), p.middle, 0);
    NeutralPlain(":");
    NeutralConcat(KeyText(p) + p.middle, ":", 0);
    NeutralConcat(KeyText(p) + p.middle + ":", p.gap + Print(p.value), 0);
  }

  lemma WrittenShape(p: Property)
    requires WellWritten(p)
    ensures Neutral(Written(p), 0) && Trim(Written(p)) == Core(p) && Core(p) != ""
  {
    CoreShape(p);
    SpacesNeutral(p.before);
    SpacesNeutral(p.after);
    NeutralConcat(p.before, Core(p), 0);
    NeutralConcat(p.before + Core(p), p.after, 0);
    TrimDrops(p.before, Core(p), p.after);
  }

  lemma FrontPart(p: Property)
    requires WellWritten(p)
    ensures var front := KeyText(p) + p.middle; ':' !in front && WithoutQuotes(Trim(front)) == p.key
  {
    KeyShape(p);
    SpacesNeutral(p.middle);
    assert "" + KeyText(p) + p.middle == KeyText(p) + p.middle;
    TrimDrops("", KeyText(p), p.middle);
  }

  lemma BehindPart(p: Property)
    requires WellWritten(p)
    ensures Trim(p.gap + Print(p.value)) == Print(p.value)
  {
    ValueShape(p);
    assert p.gap + Print(p.value) + "" == p.gap + Print(p.value);
    TrimDrops(p.gap, Print(p.value), "");
  }

  /** The text before and behind the first colon. */
  lemma CoreParts(p: Property)
    requires WellWritten(p)
    ensures
      var n := |KeyText(p) + p.middle|;
      n < |Core(p)| && IndexOf(Core(p), ':') == Some(n) && WithoutQuotes(Trim(Core(p)[..n])) == p.key &&
      Trim(Core(p)[n + 1..]) == Print(p.value)
  {
    FrontPart(p);
    BehindPart(p);
    SplitAtColon(KeyText(p) + p.middle, p.gap + Print(p.value));
  }

  lemma SplitAtColon(front: string, behind: string)
    requires ':' !in front
    ensures
      var s := front + ":" + behind;
      IndexOf(s, ':') == Some(|front|) && s[..|front|] == front && s[|front| + 1..] == behind
  {
    ColonAt(front, behind);
  }

  lemma {:induction false} WrittenSplit(ps: seq<Property>)
    requires forall p :: p in ps ==> WellWritten(p)
    ensures forall s :: s in WrittenAll(ps) ==> Neutral(s, 0) && Trim(s) != ""
    ensures TrimAll(WrittenAll(ps)) == Cores(ps)
    decreases |ps|
  {
    if ps != [] {
      assert ps == [ps[0]] + ps[1..];
      WrittenShape(ps[0]);
      WrittenSplit(ps[1..]);
    }
  }

  // ---------------------------------------------------------------- assignment

  lemma {:induction false} PutLookup(r: Record, key: string, value: TypeInfo, other: string)
    ensures Lookup(Put(r, key, value), other) == if other == key then Some(value) else Lookup(r, other)
    ensures HasKey(Put(r, key, value), other) <==> other == key || HasKey(r, other)
    decreases r
  {
    if r.Entry? && r.key != key { PutLookup(r.rest, key, value, other); }
  }

  lemma {:induction false} PutDistinct(r: Record, key: string, value: TypeInfo)
    requires DistinctKeys(r)
    ensures DistinctKeys(Put(r, key, value))
    decreases r
  {
    if r.Entry? && r.key != key {
      PutDistinct(r.rest, key, value);
      PutLookup(r.rest, key, value, r.key);
    }
  }

  /** The record holds what these properties say. */
  ghost predicate Holds(r: Record, ps: seq<Property>) {
    DistinctKeys(r) && forall key :: Lookup(r, key) == LastValue(ps, key)
  }

  lemma AssignedHolds(r: Record, ps: seq<Property>, p: Property)
    requires Holds(r, ps)
    ensures Holds(Assigned(r, p.key, Kept(p.value)), ps + [p])
  {
    var all := ps + [p];
    assert all[..|all| - 1] == ps;
    if p.key != PROTO { PutDistinct(r, p.key, Kept(p.value)); }
    forall key ensures Lookup(Assigned(r, p.key, Kept(p.value)), key) == LastValue(all, key) {
      PutLookup(r, p.key, Kept(p.value), key);
    }
  }

  lemma CoreStep(p: Property, pieces: seq<string>, record: Record, bound: nat)
    requires WellWritten(p) && |Core(p)| <= bound && forall s :: s in pieces ==> |s| <= bound
    ensures
      var parsed := ParseZodType(Print(p.value));
      ParsePieces([Core(p)] + pieces, record, bound) ==
      if parsed.Ok? then ParsePieces(pieces, Assigned(record, p.key, parsed.value), bound) else Err(parsed.error)
  {
    CoreParts(p);
    PieceStep(Core(p), |KeyText(p) + p.middle|, p.key, Print(p.value), pieces, record, bound);
  }

  /** One more property read, or refused. */
  lemma CoreReads(p: Property, pieces: seq<string>, record: Record, bound: nat)
    requires WellWritten(p) && |Core(p)| <= bound && forall s :: s in pieces ==> |s| <= bound
    ensures
      var r := ParsePieces([Core(p)] + pieces, record, bound);
      if Accepts(p.value) then r == ParsePieces(pieces, Assigned(record, p.key, Kept(p.value)), bound)
      else r.Err? && Blames(p.value, r.error)
  {
    CoreStep(p, pieces, record, bound);
    TypeRoundTrip(p.value);
  }

  /** The properties assigned in order. */
  function AssignAll(r: Record, ps: seq<Property>): Record
    decreases |ps|
  {
    if ps == [] then r else AssignAll(Assigned(r, ps[0].key, Kept(ps[0].value)), ps[1..])
  }

  lemma {:induction false} AssignAllHolds(r: Record, done: seq<Property>, ps: seq<Property>)
    requires Holds(r, done)
    ensures Holds(AssignAll(r, ps), done + ps)
    decreases |ps|
  {
    if ps == [] {
      assert done + ps == done;
    } else {
      AssignedHolds(r, done, ps[0]);
      AssignAllHolds(Assigned(r, ps[0].key, Kept(ps[0].value)), done + [ps[0]], ps[1..]);
      assert done + ps == (done + [ps[0]]) + ps[1..];
    }
  }

  predicate AcceptsAll(ps: seq<Property>) { ps == [] || (Accepts(ps[0].value) && AcceptsAll(ps[1..])) }

  predicate BlamesOne(ps: seq<Property>, e: Error)
    decreases |ps|
  {
    ps != [] && (Blames(ps[0].value, e) || BlamesOne(ps[1..], e))
  }

  lemma {:induction false} AcceptsAllIs(ps: seq<Property>)
    ensures AcceptsAll(ps) <==> forall p :: p in ps ==> Accepts(p.value)
    decreases |ps|
  {
    if ps != [] {
      assert ps == [ps[0]] + ps[1..];
      AcceptsAllIs(ps[1..]);
    }
  }

  lemma {:induction false} BlamesOneIs(ps: seq<Property>, e: Error)
    requires BlamesOne(ps, e)
    ensures exists p :: p in ps && Blames(p.value, e)
    decreases |ps|
  {
    if !Blames(ps[0].value, e) { BlamesOneIs(ps[1..], e); }
  }

  predicate AllWithin(pieces: seq<string>, bound: nat) { forall s :: s in pieces ==> |s| <= bound }

  lemma {:induction false} CoresRead(ps: seq<Property>, record: Record, bound: nat)
    requires AllWithin(Cores(ps), bound) && forall p :: p in ps ==> WellWritten(p)
    ensures
      var r := ParsePieces(Cores(ps), record, bound);
      if AcceptsAll(ps) then r == Ok(AssignAll(record, ps)) else r.Err? && BlamesOne(ps, r.error)
    decreases |ps|
  {
    if ps != [] {
      var p, rest := ps[0], ps[1..];
      assert p in ps && Cores(ps)[0] == Core(p) && Cores(ps)[1..] == Cores(rest);
      assert Core(p) in Cores(ps);
      CoreReads(p, Cores(rest), record, bound);
      if Accepts(p.value) { CoresRead(rest, Assigned(record, p.key, Kept(p.value)), bound); }
    }
  }

  lemma PiecesOf(ps: seq<Property>)
    requires forall p :: p in ps ==> WellWritten(p)
    ensures
      var content := Join(WrittenAll(ps), ',');
      SplitPieces(content) == Cores(ps) && AllWithin(Cores(ps), |content|)
  {
    var content := Join(WrittenAll(ps), ',');
    WrittenSplit(ps);
    SplitLooseJoin(WrittenAll(ps));
    PiecesAreShort(content, ' ', "", 0, None);
  }

  /** However the properties of an object are laid out, the parser reads what they say. */
  lemma LayoutIsFree(ps: seq<Property>)
    requires forall p :: p in ps ==> WellWritten(p)
    ensures ReadsProperties(ps, ParseObjectProperties(Join(WrittenAll(ps), ',')))
  {
    PiecesOf(ps);
    var none: seq<Property> := [];
    assert none + ps == ps;
    CoresRead(ps, Empty, |Join(WrittenAll(ps), ',')|);
    AcceptsAllIs(ps);
    if AcceptsAll(ps) {
      AssignAllHolds(Empty, none, ps);
    } else {
      BlamesOneIs(ps, ParseObjectProperties(Join(WrittenAll(ps), ',')).error);
    }
  }
}
