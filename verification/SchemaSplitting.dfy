/** Splitting undoes joining: what the comma splitter does on text with balanced brackets and closed quotes. */
module SchemaSplitting {
  import opened Common
  import opened SchemaText
  import opened SchemaParser

  /**
   The bracket depth and open quote after reading `s`, or None if a bracket closes that was not open
   or a comma stands outside all brackets and quotes.
   */
  function RunTo(s: string, prev: char, depth: nat, quote: Option<char>): Option<(nat, Option<char>)>
    decreases |s|
  {
    if s == "" then Some((depth, quote))
    else
      var c, rest := s[0], s[1..];
      if quote.None? && IsQuote(c) then RunTo(rest, c, depth, Some(c))
      else if quote == Some(c) && prev != '\\' then RunTo(rest, c, depth, None)
      else if quote.None? && IsOpening(c) then RunTo(rest, c, depth + 1, None)
      else if quote.None? && IsClosing(c) then if depth == 0 then None else RunTo(rest, c, depth - 1, None)
      else if quote.None? && c == ',' && depth == 0 then None
      else RunTo(rest, c, depth, quote)
  }

  function LastChar(s: string, prev: char): char { if s == "" then prev else s[|s| - 1] }

  /** Text that runs through is taken into the current piece as a whole. */
  lemma {:induction false} SplitThrough(s: string, rest: string, prev: char, current: string, depth: nat, quote: Option<char>)
    requires RunTo(s, prev, depth, quote).Some?
    ensures
      var (d, q) := RunTo(s, prev, depth, quote).value;
      SplitFrom(s + rest, prev, current, depth, quote) == SplitFrom(rest, LastChar(s, prev), current + s, d, q)
    decreases |s|
  {
    if s == "" {
      assert s + rest == rest && current + s == current;
    } else {
      var c, tail := s[0], s[1..];
      assert (s + rest)[0] == c && (s + rest)[1..] == tail + rest;
      assert (current + [c]) + tail == current + s;
      assert LastChar(tail, c) == LastChar(s, prev);
      if quote.None? && IsQuote(c) { SplitThrough(tail, rest, c, current + [c], depth, Some(c)); }
      else if quote == Some(c) && prev != '\\' { SplitThrough(tail, rest, c, current + [c], depth, None); }
      else if quote.None? && IsOpening(c) { SplitThrough(tail, rest, c, current + [c], depth + 1, None); }
      else if quote.None? && IsClosing(c) { SplitThrough(tail, rest, c, current + [c], depth - 1, None); }
      else { SplitThrough(tail, rest, c, current + [c], depth, quote); }
    }
  }

  /** A piece: trimmed, not empty, brackets balanced, quotes closed, no comma outside them. */
  ghost predicate IsPiece(s: string) { s != "" && Trimmed(s) && RunTo(s, ' ', 0, None) == Some((0, None)) }

  function Join(pieces: seq<string>, separator: char): string {
    if pieces == [] then ""
    else if |pieces| == 1 then pieces[0]
    else pieces[0] + [separator] + Join(pieces[1..], separator)
  }

  /** Outside a string the character before does not matter. */
  lemma {:induction false} PrevUnused(s: string, p: char, q: char, current: string, depth: int)
    ensures SplitFrom(s, p, current, depth, None) == SplitFrom(s, q, current, depth, None)
    ensures depth >= 0 ==> RunTo(s, p, depth, None) == RunTo(s, q, depth, None)
  {
  }

  lemma LooseOnly(piece: string)
    requires RunTo(piece, ' ', 0, None) == Some((0, None)) && Trim(piece) != ""
    ensures SplitPieces(piece) == [Trim(piece)]
  {
    SplitThrough(piece, "", ' ', "", 0, None);
    assert "" + piece == piece && piece + "" == piece;
  }

  lemma LooseFirst(piece: string, rest: string)
    requires RunTo(piece, ' ', 0, None) == Some((0, None))
    ensures SplitPieces(piece + ("," + rest)) == [Trim(piece)] + SplitPieces(rest)
  {
    SplitThrough(piece, "," + rest, ' ', "", 0, None);
    PrevUnused(rest, ',', ' ', "", 0);
    assert "" + piece == piece && ("," + rest)[1..] == rest;
  }

  /** Splitting undoes joining, for any list of pieces. */
  lemma {:induction false} SplitJoin(pieces: seq<string>)
    requires forall p :: p in pieces ==> IsPiece(p)
    ensures SplitPieces(Join(pieces, ',')) == pieces
    decreases |pieces|
  {
    if pieces == [] {
      assert Trim("") == "";
    } else {
      var piece := pieces[0];
      assert piece in pieces && pieces == [piece] + pieces[1..];
      if |pieces| == 1 {
        TrimTrimmed(piece);
        LooseOnly(piece);
      } else {
        var rest := Join(pieces[1..], ',');
        assert Join(pieces, ',') == piece + ("," + rest);
        TrimTrimmed(piece);
        LooseFirst(piece, rest);
        SplitJoin(pieces[1..]);
      }
    }
  }

  // ---------------------------------------------------------------- building neutral text

  /** Read at any depth from `least` on, the text gives the depth back and leaves no quote open. */
  ghost predicate Neutral(s: string, least: nat) {
    forall prev: char, depth: nat :: depth >= least ==> RunTo(s, prev, depth, None) == Some((depth, None))
  }

  lemma {:induction false} RunConcat(a: string, b: string, prev: char, depth: nat, quote: Option<char>)
    requires RunTo(a, prev, depth, quote).Some?
    ensures
      var (d, q) := RunTo(a, prev, depth, quote).value;
      RunTo(a + b, prev, depth, quote) == RunTo(b, LastChar(a, prev), d, q)
    decreases |a|
  {
    if a == "" {
      assert a + b == b;
    } else {
      var c, tail := a[0], a[1..];
      assert (a + b)[0] == c && (a + b)[1..] == tail + b;
      assert LastChar(tail, c) == LastChar(a, prev);
      if quote.None? && IsQuote(c) { RunConcat(tail, b, c, depth, Some(c)); }
      else if quote == Some(c) && prev != '\\' { RunConcat(tail, b, c, depth, None); }
      else if quote.None? && IsOpening(c) { RunConcat(tail, b, c, depth + 1, None); }
      else if quote.None? && IsClosing(c) { RunConcat(tail, b, c, depth - 1, None); }
      else { RunConcat(tail, b, c, depth, quote); }
    }
  }

  lemma NeutralConcat(a: string, b: string, least: nat)
    requires Neutral(a, least) && Neutral(b, least)
    ensures Neutral(a + b, least)
  {
    forall prev: char, depth: nat | depth >= least ensures RunTo(a + b, prev, depth, None) == Some((depth, None)) {
      RunConcat(a, b, prev, depth, None);
    }
  }

  lemma NeutralWeaken(s: string, a: nat, b: nat)
    requires Neutral(s, a) && a <= b
    ensures Neutral(s, b)
  {
  }

  lemma NeutralWrap(open: char, s: string, close: char)
    requires IsOpening(open) && IsClosing(close) && Neutral(s, 1)
    ensures Neutral([open] + s + [close], 0)
  {
    forall prev: char, depth: nat ensures RunTo([open] + s + [close], prev, depth, None) == Some((depth, None)) {
      var whole := [open] + (s + [close]);
      assert [open] + s + [close] == whole && whole[1..] == s + [close];
      RunConcat(s, [close], open, depth + 1, None);
      assert [close][1..] == "";
    }
  }

  predicate IsPlainChar(c: char) { !IsQuote(c) && !IsOpening(c) && !IsClosing(c) && c != ',' }

  lemma {:induction false} NeutralPlain(s: string)
    requires forall i :: 0 <= i < |s| ==> IsPlainChar(s[i])
    ensures Neutral(s, 0)
    decreases |s|
  {
    if s != "" {
      NeutralPlain(s[1..]);
      assert IsPlainChar(s[0]);
    }
  }

  lemma NeutralComma()
    ensures Neutral(",", 1)
  {
    assert ","[1..] == "";
  }

  /** Every `q` in the text stands behind a backslash, and the text does not end in one. */
  predicate ClosedBy(s: string, q: char) {
    (forall i :: 0 <= i < |s| && s[i] == q ==> i > 0 && s[i - 1] == '\\') && (s != "" ==> s[|s| - 1] != '\\')
  }

  lemma {:induction false} RunInString(s: string, i: nat, q: char, depth: nat)
    requires i <= |s| && q != '\\' && ClosedBy(s, q)
    ensures RunTo(s[i..] + [q], if i == 0 then q else s[i - 1], depth, Some(q)) == Some((depth, None))
    decreases |s| - i
  {
    var x := s[i..] + [q];
    if i == |s| {
      assert x == [q] && x[1..] == "";
    } else {
      assert x[0] == s[i] && x[1..] == s[i + 1..] + [q];
      RunInString(s, i + 1, q, depth);
    }
  }

  /** Text in quotes of one kind, with that quote only behind backslashes, is neutral, whatever commas or brackets it holds. */
  lemma NeutralQuoted(s: string, q: char)
    requires IsQuote(q) && ClosedBy(s, q)
    ensures Neutral([q] + s + [q], 0)
  {
    forall prev: char, depth: nat ensures RunTo([q] + s + [q], prev, depth, None) == Some((depth, None)) {
      var x := [q] + (s + [q]);
      assert [q] + s + [q] == x && x[0] == q && x[1..] == s + [q] && s[0..] == s;
      RunInString(s, 0, q, depth);
    }
  }

  /** Spaces around a piece are dropped. */
  ghost predicate AllSpaces(s: string) { forall i :: 0 <= i < |s| ==> IsSpace(s[i]) }

  lemma {:induction false} TrimStartDrops(a: string, t: string)
    requires AllSpaces(a) && t != "" && !IsSpace(t[0])
    ensures TrimStart(a + t) == t
    decreases |a|
  {
    if a == "" {
      assert a + t == t;
    } else {
      assert (a + t)[1..] == a[1..] + t;
      TrimStartDrops(a[1..], t);
    }
  }

  lemma {:induction false} TrimEndDrops(t: string, b: string)
    requires AllSpaces(b) && t != "" && !IsSpace(t[|t| - 1])
    ensures TrimEnd(t + b) == t
    decreases |b|
  {
    if b == "" {
      assert t + b == t;
    } else {
      var n := |b| - 1;
      assert (t + b)[..|t + b| - 1] == t + b[..n];
      TrimEndDrops(t, b[..n]);
    }
  }

  /** Trimming takes the spaces at both ends away and nothing else. */
  lemma TrimDrops(a: string, t: string, b: string)
    requires AllSpaces(a) && AllSpaces(b) && t != "" && Trimmed(t)
    ensures Trim(a + t + b) == t
  {
    assert a + t + b == a + (t + b);
    TrimStartDrops(a, t + b);
    TrimEndDrops(t, b);
  }

  function TrimAll(pieces: seq<string>): seq<string> {
    if pieces == [] then [] else [Trim(pieces[0])] + TrimAll(pieces[1..])
  }

  /** Splitting undoes joining up to the spaces around the pieces. */
  lemma {:induction false} SplitLooseJoin(pieces: seq<string>)
    requires forall p :: p in pieces ==> Neutral(p, 0) && Trim(p) != ""
    ensures SplitPieces(Join(pieces, ',')) == TrimAll(pieces)
    decreases |pieces|
  {
    if pieces == [] {
      assert Trim("") == "";
    } else {
      var piece := pieces[0];
      assert piece in pieces && pieces == [piece] + pieces[1..];
      if |pieces| == 1 {
        LooseOnly(piece);
        assert TrimAll(pieces[1..]) == [];
      } else {
        var rest := Join(pieces[1..], ',');
        assert Join(pieces, ',') == piece + ("," + rest);
        LooseFirst(piece, rest);
        SplitLooseJoin(pieces[1..]);
      }
    }
  }
}
