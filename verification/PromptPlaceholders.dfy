/** What the brace scanner finds, by position in the text: the contents of every matched pair of unescaped braces. */
module PromptPlaceholders {
  import opened PromptVariables

  /** A brace counts unless a backslash stands right before it. */
  ghost predicate Live(s: string, i: nat)
    requires i < |s|
  {
    IsBrace(s[i]) && (i > 0 ==> s[i - 1] != '\\')
  }

  ghost function Weight(s: string, i: nat): int
    requires i < |s|
  {
    if !Live(s, i) then 0 else if s[i] == '{' then 1 else -1
  }

  /** Unescaped opening braces less unescaped closing braces from `i` up to `j`. */
  ghost function Height(s: string, i: nat, j: nat): int
    requires i <= j <= |s|
  {
    if i == j then 0 else Height(s, i, j - 1) + Weight(s, j - 1)
  }

  ghost predicate Opens(s: string, i: nat) { i < |s| && Live(s, i) && s[i] == '{' }

  ghost predicate Closes(s: string, j: nat) { j < |s| && Live(s, j) && s[j] == '}' }

  /** No closing brace between `i` and `j` reaches back before `i`. */
  ghost predicate NeverBelow(s: string, i: nat, j: nat)
    requires i <= j <= |s|
  {
    forall k: nat :: i <= k <= j ==> Height(s, i, k) >= 0
  }

  /** The braces at `i` and `j` belong together: the text between is balanced. */
  ghost predicate Pairs(s: string, i: nat, j: nat) {
    i < j && Opens(s, i) && Closes(s, j) && Height(s, i + 1, j) == 0 && NeverBelow(s, i + 1, j)
  }

  lemma {:induction false} HeightSplits(s: string, i: nat, k: nat, j: nat)
    requires i <= k <= j <= |s|
    ensures Height(s, i, j) == Height(s, i, k) + Height(s, k, j)
    decreases j - k
  {
    if k < j { HeightSplits(s, i, k, j - 1); }
  }

  lemma InnerPairFalls(s: string, i: nat, k: nat, j: nat)
    requires i < k < j && Opens(s, k) && Closes(s, j) && Height(s, k + 1, j) == 0
    ensures Height(s, i + 1, j) == Height(s, i + 1, k) + 1
  {
    HeightSplits(s, i + 1, k + 1, j);
  }

  /** A closing brace has at most one partner. */
  lemma PartnerIsUnique(s: string, i: nat, k: nat, j: nat)
    requires Pairs(s, i, j) && Pairs(s, k, j)
    ensures i == k
  {
    if i < k { InnerPairFalls(s, i, k, j); }
    if k < i { InnerPairFalls(s, k, i, j); }
  }

  ghost predicate IsNamed(s: string, i: nat, j: nat) { Pairs(s, i, j) && ':' !in s[i + 1..j] }

  /** The variable that ends at `j`, if any: the text of a pair that closes there and holds no colon. */
  ghost function NameAt(s: string, j: nat): seq<string> {
    if exists i: nat :: IsNamed(s, i, j) then
      var i: nat :| IsNamed(s, i, j);
      [s[i + 1..j]]
    else []
  }

  ghost function NamesFrom(s: string, j: nat): seq<string>
    requires j <= |s|
    decreases |s| - j
  {
    if j == |s| then [] else NameAt(s, j) + NamesFrom(s, j + 1)
  }

  // ---------------------------------------------------------------- the scanner

  ghost predicate IsOpen(s: string, start: nat, above: nat, i: nat) {
    0 < start <= i <= |s| && Opens(s, start - 1) && Height(s, start, i) == above && NeverBelow(s, start, i)
  }

  ghost predicate Behind(starts: seq<nat>, i: nat) { forall k :: 0 <= k < |starts| ==> starts[k] <= i }

  /** At `i`, the placeholders still open begin at `starts`, outermost first, and every other one is settled. */
  ghost predicate Opened(s: string, starts: seq<nat>, i: nat) {
    Behind(starts, i) && i <= |s| &&
    (forall k :: 0 <= k < |starts| ==> IsOpen(s, starts[k], |starts| - 1 - k, i)) &&
    (forall q: nat {:trigger NeverBelow(s, q, i)} :: 0 < q <= i && Opens(s, q - 1) && NeverBelow(s, q, i) ==> q in starts)
  }

  lemma OpenStep(s: string, start: nat, above: nat, i: nat)
    requires i < |s| && IsOpen(s, start, above, i) && above + Weight(s, i) >= 0
    ensures IsOpen(s, start, above + Weight(s, i), i + 1)
  {
    assert Height(s, start, i + 1) == above + Weight(s, i);
  }

  lemma NeverBelowBefore(s: string, start: nat, i: nat)
    requires start <= i < |s| && NeverBelow(s, start, i + 1)
    ensures NeverBelow(s, start, i)
  {
  }

  lemma OpenedCopies(s: string, starts: seq<nat>, i: nat)
    requires i < |s| && Opened(s, starts, i) && (Live(s, i) ==> s[i] == '}' && starts == [])
    ensures Opened(s, starts, i + 1)
  {
    forall k | 0 <= k < |starts| ensures IsOpen(s, starts[k], |starts| - 1 - k, i + 1) {
      OpenStep(s, starts[k], |starts| - 1 - k, i);
    }
    forall q: nat | 0 < q <= i + 1 && Opens(s, q - 1) && NeverBelow(s, q, i + 1) ensures q in starts {
      NeverBelowBefore(s, q, i);
    }
  }

  lemma OpenedOpens(s: string, starts: seq<nat>, i: nat)
    requires Opened(s, starts, i) && Opens(s, i)
    ensures Opened(s, starts + [i + 1], i + 1)
  {
    var longer := starts + [i + 1];
    forall k | 0 <= k < |longer| ensures IsOpen(s, longer[k], |longer| - 1 - k, i + 1) {
      if k < |starts| { OpenStep(s, starts[k], |starts| - 1 - k, i); }
    }
    forall q: nat | 0 < q <= i + 1 && Opens(s, q - 1) && NeverBelow(s, q, i + 1) ensures q in longer {
      if q <= i { NeverBelowBefore(s, q, i); }
    }
  }

  lemma OpenedCloses(s: string, starts: seq<nat>, i: nat)
    requires Opened(s, starts, i) && Closes(s, i) && starts != []
    ensures Opened(s, starts[..|starts| - 1], i + 1) && Pairs(s, starts[|starts| - 1] - 1, i)
  {
    var top := |starts| - 1;
    var rest := starts[..top];
    assert IsOpen(s, starts[top], 0, i);
    assert Height(s, starts[top], i + 1) == -1;
    forall k | 0 <= k < |rest| ensures IsOpen(s, rest[k], |rest| - 1 - k, i + 1) {
      OpenStep(s, starts[k], |starts| - 1 - k, i);
    }
    forall q: nat | 0 < q <= i + 1 && Opens(s, q - 1) && NeverBelow(s, q, i + 1) ensures q in rest {
      assert q != i + 1 && q != starts[top];
      NeverBelowBefore(s, q, i);
      assert q in starts && starts == rest + [starts[top]];
    }
  }

  /** A pair that closes at `i` is the innermost open one. */
  lemma PartnerIsTop(s: string, starts: seq<nat>, p: nat, i: nat)
    requires Opened(s, starts, i) && Pairs(s, p, i)
    ensures starts != [] && starts[|starts| - 1] == p + 1
  {
    assert p + 1 in starts;
    var k :| 0 <= k < |starts| && starts[k] == p + 1;
    assert IsOpen(s, starts[k], |starts| - 1 - k, i);
  }

  lemma NameOfTop(s: string, starts: seq<nat>, i: nat)
    requires Opened(s, starts, i) && Closes(s, i) && starts != []
    ensures 0 < starts[|starts| - 1] <= i && NameAt(s, i) == Emit(s[starts[|starts| - 1]..i])
  {
    var start := starts[|starts| - 1];
    OpenedCloses(s, starts, i);
    forall p: nat | IsNamed(s, p, i) ensures p == start - 1 { PartnerIsTop(s, starts, p, i); }
    if ':' !in s[start..i] { assert IsNamed(s, start - 1, i); }
  }

  lemma NoName(s: string, starts: seq<nat>, i: nat)
    requires i < |s| && Opened(s, starts, i) && (Closes(s, i) ==> starts == [])
    ensures NameAt(s, i) == []
  {
    forall p: nat ensures !IsNamed(s, p, i) {
      if IsNamed(s, p, i) { PartnerIsTop(s, starts, p, i); }
    }
  }

  lemma PassesOver(s: string, starts: seq<nat>, i: nat)
    requires i < |s| && Opened(s, starts, i) && (Live(s, i) ==> s[i] == '}' && starts == [])
    ensures Opened(s, starts, i + 1) && NamesFrom(s, i) == NamesFrom(s, i + 1)
  {
    OpenedCopies(s, starts, i);
    NoName(s, starts, i);
  }

  lemma PassesEscaped(s: string, starts: seq<nat>, i: nat)
    requires i + 1 < |s| && Opened(s, starts, i) && s[i] == '\\'
    ensures Opened(s, starts, i + 2) && NamesFrom(s, i) == NamesFrom(s, i + 2)
  {
    PassesOver(s, starts, i);
    PassesOver(s, starts, i + 1);
  }

  lemma PassesOpening(s: string, starts: seq<nat>, i: nat)
    requires Opened(s, starts, i) && Opens(s, i)
    ensures Opened(s, starts + [i + 1], i + 1) && NamesFrom(s, i) == NamesFrom(s, i + 1)
  {
    OpenedOpens(s, starts, i);
    NoName(s, starts, i);
  }

  lemma PassesClosing(s: string, starts: seq<nat>, i: nat)
    requires Opened(s, starts, i) && Closes(s, i) && starts != []
    ensures
      var top := |starts| - 1;
      Opened(s, starts[..top], i + 1) && 0 < starts[top] <= i && NamesFrom(s, i) == Emit(s[starts[top]..i]) + NamesFrom(s, i + 1)
  {
    OpenedCloses(s, starts, i);
    NameOfTop(s, starts, i);
  }

  /** Read from `i` with these placeholders open, the scanner finds what the positions say. */
  ghost predicate Finds(s: string, starts: seq<nat>, i: nat) {
    i <= |s| && Behind(starts, i) && Scan(s[i..], FramesAt(s, starts, i)) == NamesFrom(s, i)
  }

  lemma {:induction false} FindsEscaped(s: string, starts: seq<nat>, i: nat)
    requires Opened(s, starts, i) && i + 1 < |s| && s[i] == '\\' && IsBrace(s[i + 1])
    ensures Finds(s, starts, i)
    decreases |s| - i, 0
  {
    PassesEscaped(s, starts, i);
    ScanFindsFrom(s, starts, i + 2);
    StepEscaped(s, starts, i);
  }

  lemma {:induction false} FindsOpening(s: string, starts: seq<nat>, i: nat)
    requires Opened(s, starts, i) && Opens(s, i)
    ensures Finds(s, starts, i)
    decreases |s| - i, 0
  {
    PassesOpening(s, starts, i);
    ScanFindsFrom(s, starts + [i + 1], i + 1);
    StepOpen(s, starts, i);
  }

  lemma {:induction false} FindsClosing(s: string, starts: seq<nat>, i: nat)
    requires Opened(s, starts, i) && Closes(s, i) && starts != []
    ensures Finds(s, starts, i)
    decreases |s| - i, 0
  {
    PassesClosing(s, starts, i);
    ScanFindsFrom(s, starts[..|starts| - 1], i + 1);
    StepClose(s, starts, i);
  }

  lemma {:induction false} FindsOther(s: string, starts: seq<nat>, i: nat)
    requires Opened(s, starts, i) && i < |s| && !(s[i] == '\\' && i + 1 < |s| && IsBrace(s[i + 1]))
    requires (IsBrace(s[i]) ==> Live(s, i)) && (Live(s, i) ==> s[i] == '}' && starts == [])
    ensures Finds(s, starts, i)
    decreases |s| - i, 0
  {
    PassesOver(s, starts, i);
    ScanFindsFrom(s, starts, i + 1);
    StepOther(s, starts, i);
  }

  /** From a position at which no brace is escaped, it does. */
  lemma {:induction false} ScanFindsFrom(s: string, starts: seq<nat>, i: nat)
    requires Opened(s, starts, i) && (i < |s| && IsBrace(s[i]) ==> Live(s, i))
    ensures Finds(s, starts, i)
    decreases |s| - i, 1
  {
    if i == |s| {
    } else if s[i] == '\\' && i + 1 < |s| && IsBrace(s[i + 1]) {
      FindsEscaped(s, starts, i);
    } else if s[i] == '{' {
      FindsOpening(s, starts, i);
    } else if s[i] == '}' && starts != [] {
      FindsClosing(s, starts, i);
    } else {
      FindsOther(s, starts, i);
    }
  }

  /** On every text, the variables are the contents without a colon of the matched pairs, by their closing brace. */
  lemma ScannerFindsPairs(s: string)
    ensures Scan(s, []) == NamesFrom(s, 0)
  {
    ScanFindsFrom(s, [], 0);
    assert s[0..] == s && FramesAt(s, [], 0) == [];
  }
}
