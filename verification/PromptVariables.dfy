/**
 Prompt variables: the brace scanner `getInputVariables` and the brace rewriter
 `transformBracesWithColon`, which must not disturb it.
 */
module PromptVariables {

  predicate IsBrace(c: char) { c == '{' || c == '}' }

  /** Appends `text` to every open frame: a frame is the text read since its opening brace. */
  function Grow(frames: seq<string>, text: string): seq<string> {
    seq(|frames|, i requires 0 <= i < |frames| => frames[i] + text)
  }

  /** A finished placeholder counts as a variable unless it contains a colon. */
  function Emit(body: string): seq<string> {
    if ':' in body then [] else [body]
  }

  /** What the scanner collects from `s` when the placeholders in `frames` are still open. */
  function Scan(s: string, frames: seq<string>): seq<string> {
    if s == "" then []
    else if |s| > 1 && s[0] == '\\' && IsBrace(s[1]) then Scan(s[2..], Grow(frames, s[..2]))
    else if s[0] == '{' then Scan(s[1..], Grow(frames, "{") + [""])
    else if s[0] == '}' && |frames| > 0 then
      Emit(frames[|frames| - 1]) + Scan(s[1..], Grow(frames[..|frames| - 1], "}"))
    else Scan(s[1..], Grow(frames, s[..1]))
  }

  ghost function FramesAt(s: string, starts: seq<nat>, i: nat): seq<string>
    requires i <= |s| && forall k :: 0 <= k < |starts| ==> starts[k] <= i
  {
    seq(|starts|, k requires 0 <= k < |starts| => s[starts[k]..i])
  }

  lemma FramesStep(s: string, starts: seq<nat>, i: nat, j: nat)
    requires i <= j <= |s| && forall k :: 0 <= k < |starts| ==> starts[k] <= i
    ensures FramesAt(s, starts, j) == Grow(FramesAt(s, starts, i), s[i..j])
  {
    forall k | 0 <= k < |starts|
      ensures s[starts[k]..j] == s[starts[k]..i] + s[i..j]
    {
    }
  }

  lemma StepEscaped(s: string, starts: seq<nat>, i: nat)
    requires i + 1 < |s| && forall k :: 0 <= k < |starts| ==> starts[k] <= i
    requires s[i] == '\\' && IsBrace(s[i + 1])
    ensures Scan(s[i..], FramesAt(s, starts, i)) == Scan(s[i + 2..], FramesAt(s, starts, i + 2))
  {
    FramesStep(s, starts, i, i + 2);
    assert s[i..][2..] == s[i + 2..] && s[i..][..2] == s[i..i + 2];
  }

  lemma FramesPush(s: string, starts: seq<nat>, i: nat)
    requires i <= |s| && forall k :: 0 <= k < |starts| ==> starts[k] <= i
    ensures FramesAt(s, starts + [i], i) == FramesAt(s, starts, i) + [""]
  {
    var longer := starts + [i];
    forall k | 0 <= k < |longer| ensures FramesAt(s, longer, i)[k] == (FramesAt(s, starts, i) + [""])[k] {
      assert longer[k] == if k < |starts| then starts[k] else i;
      assert s[i..i] == "";
    }
  }

  lemma StepOpen(s: string, starts: seq<nat>, i: nat)
    requires i < |s| && s[i] == '{' && forall k :: 0 <= k < |starts| ==> starts[k] <= i
    ensures Scan(s[i..], FramesAt(s, starts, i)) == Scan(s[i + 1..], FramesAt(s, starts + [i + 1], i + 1))
  {
    FramesStep(s, starts, i, i + 1);
    assert s[i..][1..] == s[i + 1..] && s[i..i + 1] == "{";
    FramesPush(s, starts, i + 1);
  }

  lemma StepClose(s: string, starts: seq<nat>, i: nat)
    requires i < |s| && s[i] == '}' && starts != [] && forall k :: 0 <= k < |starts| ==> starts[k] <= i
    ensures
      var top := |starts| - 1;
      Scan(s[i..], FramesAt(s, starts, i)) ==
      Emit(s[starts[top]..i]) + Scan(s[i + 1..], FramesAt(s, starts[..top], i + 1))
  {
    var top := |starts| - 1;
    FramesStep(s, starts[..top], i, i + 1);
    assert s[i..][1..] == s[i + 1..] && s[i..i + 1] == "}";
    assert FramesAt(s, starts, i)[..top] == FramesAt(s, starts[..top], i);
  }

  lemma StepOther(s: string, starts: seq<nat>, i: nat)
    requires i < |s| && forall k :: 0 <= k < |starts| ==> starts[k] <= i
    requires !(s[i] == '\\' && i + 1 < |s| && IsBrace(s[i + 1]))
    requires s[i] != '{' && (s[i] == '}' ==> starts == [])
    ensures Scan(s[i..], FramesAt(s, starts, i)) == Scan(s[i + 1..], FramesAt(s, starts, i + 1))
  {
    FramesStep(s, starts, i, i + 1);
    assert s[i..][1..] == s[i + 1..] && s[i..][..1] == s[i..i + 1];
  }

  /** Reading the rest of the text from position `i` completes the variables found so far. */
  ghost predicate Pending(s: string, starts: seq<nat>, i: nat, found: seq<string>) {
    i <= |s| &&
    (forall k :: 0 <= k < |starts| ==> starts[k] <= i) &&
    found + Scan(s[i..], FramesAt(s, starts, i)) == Scan(s, [])
  }

  lemma PendingStart(s: string)
    ensures Pending(s, [], 0, [])
  {
    assert s[0..] == s && FramesAt(s, [], 0) == [];
  }

  lemma PendingClose(s: string, starts: seq<nat>, i: nat, found: seq<string>)
    requires Pending(s, starts, i, found) && i < |s| && s[i] == '}' && starts != []
    ensures
      var top := |starts| - 1;
      Pending(s, starts[..top], i + 1, found + Emit(s[starts[top]..i]))
  {
    StepClose(s, starts, i);
    var top := |starts| - 1;
    var v, rest := Emit(s[starts[top]..i]), Scan(s[i + 1..], FramesAt(s, starts[..top], i + 1));
    assert found + (v + rest) == (found + v) + rest;
  }

  lemma PendingStep(s: string, starts: seq<nat>, i: nat, found: seq<string>)
    requires Pending(s, starts, i, found) && i < |s|
    ensures
      if s[i] == '\\' && i + 1 < |s| && IsBrace(s[i + 1]) then Pending(s, starts, i + 2, found)
      else if s[i] == '{' then Pending(s, starts + [i + 1], i + 1, found)
      else (s[i] == '}' && starts != []) || Pending(s, starts, i + 1, found)
  {
    if s[i] == '\\' && i + 1 < |s| && IsBrace(s[i + 1]) {
      StepEscaped(s, starts, i);
    } else if s[i] == '{' {
      StepOpen(s, starts, i);
    } else if !(s[i] == '}' && starts != []) {
      StepOther(s, starts, i);
    }
  }

  /** The source's scanner: a stack of start positions and an index that skips escaped braces. */
  method GetInputVariables(paramValue: string) returns (inputVariables: seq<string>)
    ensures inputVariables == Scan(paramValue, [])
  {
    var variableStack: seq<nat> := [];
    inputVariables := [];
    var i := 0;
    PendingStart(paramValue);
    while i < |paramValue|
      invariant Pending(paramValue, variableStack, i, inputVariables)
    {
      var c := paramValue[i];
      PendingStep(paramValue, variableStack, i, inputVariables);
      if c == '\\' && i + 1 < |paramValue| && IsBrace(paramValue[i + 1]) {
        i := i + 2;
        continue;
      }
      if c == '{' {
        variableStack := variableStack + [i + 1];
      }
      if c == '}' && |variableStack| > 0 {
        PendingClose(paramValue, variableStack, i, inputVariables);
        var top := |variableStack| - 1;
        inputVariables := inputVariables + Emit(paramValue[variableStack[top]..i]);
        variableStack := variableStack[..top];
      }
      i := i + 1;
    }
  }

  /** Length of the longest brace-free prefix. */
  function PlainLength(s: string): (n: nat)
    ensures n <= |s|
    ensures forall k :: 0 <= k < n ==> !IsBrace(s[k])
    ensures n < |s| ==> IsBrace(s[n])
  {
    if s == "" || IsBrace(s[0]) then 0 else 1 + PlainLength(s[1..])
  }

  /** `s` starts with a single-brace placeholder; `afterOpen` says an opening brace stands just before `s`. */
  predicate StartsPlaceholder(s: string, afterOpen: bool) {
    s != "" && s[0] == '{' && !afterOpen &&
    var n := PlainLength(s[1..]);
    n + 1 < |s| && s[n + 1] == '}' && (n + 2 == |s| || s[n + 2] != '}')
  }

  /** The rewriter's single left-to-right pass over the non-overlapping matches. */
  function Rewrite(s: string, afterOpen: bool): string
    decreases |s|
  {
    if s == "" then ""
    else if StartsPlaceholder(s, afterOpen) then
      var n := PlainLength(s[1..]);
      var body := s[1..n + 1];
      (if ':' in body then "{{" + body + "}}" else "{" + body + "}") + Rewrite(s[n + 2..], false)
    else s[..1] + Rewrite(s[1..], s[0] == '{')
  }

  function TransformBracesWithColon(input: string): string { Rewrite(input, false) }

  // ---------------------------------------------------------------- simulation

  ghost predicate SameFrame(f: string, g: string) { f == g || (':' in f && ':' in g) }

  /** Two stacks that no later step can tell apart: equal frames, or frames that both hold a colon. */
  ghost predicate SameFrames(a: seq<string>, b: seq<string>) {
    |a| == |b| && forall i :: 0 <= i < |a| ==> SameFrame(a[i], b[i])
  }

  /** The body's last character is a backslash, so the brace behind it is escaped. */
  ghost predicate EndsEscaped(body: string) { body != "" && body[|body| - 1] == '\\' }

  /** The stack after reading `text`, whose net effect is to close one placeholder or none. */
  ghost function After(frames: seq<string>, closes: bool, text: string): seq<string> {
    if closes && frames != [] then Grow(frames[..|frames| - 1], text) else Grow(frames, text)
  }

  ghost predicate Plain(body: string) { forall k :: 0 <= k < |body| ==> !IsBrace(body[k]) }

  lemma GrowTwice(frames: seq<string>, x: string, y: string)
    ensures Grow(Grow(frames, x), y) == Grow(frames, x + y)
  {
    forall i | 0 <= i < |frames| ensures (frames[i] + x) + y == frames[i] + (x + y) {}
  }

  lemma AfterGrow(frames: seq<string>, closes: bool, x: string, y: string)
    ensures After(Grow(frames, x), closes, y) == After(frames, closes, x + y)
  {
    GrowTwice(frames, x, y);
    if frames != [] {
      var init := frames[..|frames| - 1];
      GrowTwice(init, x, y);
      assert Grow(frames, x)[..|frames| - 1] == Grow(init, x);
    }
  }

  lemma ScanPlainChar(s: string, frames: seq<string>)
    requires s != "" && !IsBrace(s[0]) && !(s[0] == '\\' && |s| > 1 && IsBrace(s[1]))
    ensures Scan(s, frames) == Scan(s[1..], Grow(frames, s[..1]))
  {
  }

  lemma ScanBodyChar(body: string, t: string, frames: seq<string>)
    requires Plain(body) && body != "" && body != "\\"
    ensures Scan(body + "}" + t, frames) == Scan(body[1..] + "}" + t, Grow(frames, body[..1]))
  {
    var s := body + "}" + t;
    assert s[1..] == body[1..] + "}" + t && s[..1] == body[..1];
    ScanPlainChar(s, frames);
  }

  /** Reading a brace-free text and its closing brace emits at most the placeholder it closes. */
  lemma {:induction false} ScanBody(body: string, t: string, frames: seq<string>)
    requires Plain(body)
    ensures
      var closes := !EndsEscaped(body);
      Scan(body + "}" + t, frames) ==
      (if closes && frames != [] then Emit(frames[|frames| - 1] + body) else []) + Scan(t, After(frames, closes, body + "}"))
    decreases |body|
  {
    var s := body + "}" + t;
    if body == "" {
      assert s[1..] == t && s[..1] == "}" && "" + "}" == "}";
      if frames != [] {
        assert frames[|frames| - 1] + body == frames[|frames| - 1];
      }
    } else if body == "\\" {
      assert s[2..] == t && s[..2] == body + "}";
    } else {
      var head, tail := body[..1], body[1..];
      ScanBodyChar(body, t, frames);
      ScanBody(tail, t, Grow(frames, head));
      assert After(Grow(frames, head), !EndsEscaped(body), tail + "}") == After(frames, !EndsEscaped(body), body + "}") by {
        AfterGrow(frames, !EndsEscaped(body), head, tail + "}");
        assert head + (tail + "}") == body + "}";
      }
      if frames != [] {
        assert (frames[|frames| - 1] + head) + tail == frames[|frames| - 1] + body;
      }
    }
  }

  lemma SameFramesGrow(a: seq<string>, b: seq<string>, x: string, y: string)
    requires SameFrames(a, b)
    requires x == y || (':' in x && ':' in y)
    ensures SameFrames(Grow(a, x), Grow(b, y))
  {
  }

  /** A doubled placeholder `{body}}` leaves the frames as one brace pair would, and emits nothing. */
  lemma ScanDoubled(body: string, u: string, frames: seq<string>)
    requires Plain(body) && ':' in body
    ensures Scan("{" + body + "}}" + u, frames) == Scan(u, After(frames, !EndsEscaped(body), "{" + body + "}}"))
  {
    var inner := Grow(frames, "{") + [""];
    var s := "{" + body + "}}" + u;
    var tail := "}" + u;
    assert s[1..] == body + "}" + tail;
    assert Scan(s, frames) == Scan(s[1..], inner);
    ScanBody(body, tail, inner);
    var text := "{" + (body + "}");
    assert text + "}" == "{" + body + "}}";
    GrowTwice(frames, "{", body + "}");
    assert "" + body == body && "" + (body + "}") == body + "}";
    if EndsEscaped(body) {
      assert After(inner, false, body + "}") == Grow(frames, text) + [body + "}"];
      CloseInner(frames, text, body + "}", u);
    } else {
      assert After(inner, true, body + "}") == Grow(frames, text) by {
        assert inner[..|frames|] == Grow(frames, "{");
      }
      CloseLast(frames, text, u);
    }
  }

  /** The second closing brace, when the first one was escaped. */
  lemma CloseInner(frames: seq<string>, text: string, top: string, u: string)
    requires ':' in top
    ensures Scan("}" + u, Grow(frames, text) + [top]) == Scan(u, Grow(frames, text + "}"))
  {
    assert ("}" + u)[1..] == u;
    GrowTwice(frames, text, "}");
    assert (Grow(frames, text) + [top])[..|frames|] == Grow(frames, text);
  }

  /** The second closing brace, over frames that all end in `text`. */
  lemma CloseLast(frames: seq<string>, text: string, u: string)
    requires ':' in text
    ensures Scan("}" + u, Grow(frames, text)) == Scan(u, After(frames, true, text + "}"))
  {
    var s, left := "}" + u, Grow(frames, text);
    assert s[1..] == u && s[..1] == "}";
    if frames != [] {
      var init := frames[..|frames| - 1];
      GrowTwice(init, text, "}");
      assert left[..|left| - 1] == Grow(init, text);
      assert left[|left| - 1] == frames[|frames| - 1] + text;
    }
  }

  /** Past one placeholder that gets doubled: `body}` on the left, `{body}}` on the right. */
  lemma DoubledPlaceholder(body: string, t: string, u: string, a: seq<string>, b: seq<string>)
    requires Plain(body) && ':' in body && SameFrames(a, b)
    ensures
      var closes := !EndsEscaped(body);
      var a', b' := After(a, closes, body + "}"), After(b, closes, "{" + body + "}}");
      SameFrames(a', b') &&
      Scan(body + "}" + t, a) == Scan(t, a') &&
      Scan("{" + body + "}}" + u, b) == Scan(u, b')
  {
    ScanBody(body, t, a);
    ScanDoubled(body, u, b);
    SameFramesGrow(a, b, body + "}", "{" + body + "}}");
    if a != [] {
      assert ':' in a[|a| - 1] + body;
      SameFramesGrow(a[..|a| - 1], b[..|b| - 1], body + "}", "{" + body + "}}");
    }
  }

  /** A brace-free text and its closing brace are copied unchanged. */
  lemma {:induction false} RewriteCopies(body: string, t: string, afterOpen: bool)
    requires Plain(body)
    ensures Rewrite(body + "}" + t, afterOpen) == body + "}" + Rewrite(t, false)
    decreases |body|
  {
    var s := body + "}" + t;
    if body == "" {
      assert s[1..] == t && s[..1] == "}";
    } else {
      assert s[1..] == body[1..] + "}" + t && s[..1] == body[..1];
      RewriteCopies(body[1..], t, false);
      assert body == body[..1] + body[1..];
    }
  }

  lemma RewritePlain(s: string, afterOpen: bool, body: string, t: string)
    requires StartsPlaceholder(s, afterOpen) && ':' !in body
    requires var n := PlainLength(s[1..]); body == s[1..n + 1] && t == s[n + 2..]
    ensures Rewrite(s, afterOpen) == "{" + body + "}" + Rewrite(t, false)
  {
  }

  lemma RegroupPlain(body: string, u: string)
    ensures "{" + body + "}" + u == "{" + (body + "}" + u)
  {
  }

  lemma CopyPlain(rest: string, body: string, t: string)
    requires Plain(body) && |body| < |rest| && rest[..|body|] == body && rest[|body|] == '}' && rest[|body| + 1..] == t
    ensures Rewrite(rest, true) == body + "}" + Rewrite(t, false)
  {
    assert rest == body + "}" + t;
    RewriteCopies(body, t, true);
  }

  /** A placeholder without a colon is copied. */
  lemma RewriteKeepsPlain(s: string, afterOpen: bool)
    requires StartsPlaceholder(s, afterOpen) && ':' !in s[1..PlainLength(s[1..]) + 1]
    ensures Rewrite(s, afterOpen) == s[..1] + Rewrite(s[1..], s[0] == '{')
  {
    var n := PlainLength(s[1..]);
    var body, t := s[1..n + 1], s[n + 2..];
    RewritePlain(s, afterOpen, body, t);
    CopyPlain(s[1..], body, t);
    RegroupPlain(body, Rewrite(t, false));
  }

  /** Only a placeholder holding a colon makes the rewriter do anything but copy one character. */
  lemma RewriteStep(s: string, afterOpen: bool)
    requires s != ""
    ensures
      var n := PlainLength(s[1..]);
      (StartsPlaceholder(s, afterOpen) && ':' in s[1..n + 1]) ||
      Rewrite(s, afterOpen) == s[..1] + Rewrite(s[1..], s[0] == '{')
  {
    if StartsPlaceholder(s, afterOpen) {
      if ':' !in s[1..PlainLength(s[1..]) + 1] { RewriteKeepsPlain(s, afterOpen); }
    }
  }

  /** The simulation: from indistinguishable stacks, the rewritten text yields the same variables. */
  lemma {:induction false} RewriteSimulates(s: string, afterOpen: bool, a: seq<string>, b: seq<string>)
    requires SameFrames(a, b)
    ensures Scan(Rewrite(s, afterOpen), b) == Scan(s, a)
    decreases |s|
  {
    if s == "" {
    } else if |s| > 1 && s[0] == '\\' && IsBrace(s[1]) {
      SimulatesEscape(s, afterOpen, a, b);
    } else {
      RewriteStep(s, afterOpen);
      var n := PlainLength(s[1..]);
      if StartsPlaceholder(s, afterOpen) && ':' in s[1..n + 1] {
        SameFramesGrow(a, b, "{", "{");
        SimulatesPlaceholder(s, Grow(a, "{") + [""], Grow(b, "{") + [""]);
      } else {
        SimulatesCopy(s, afterOpen, a, b);
      }
    }
  }

  /** An escaped brace is skipped. */
  lemma SkipsEscape(c: char, u: string, frames: seq<string>)
    requires u != "" && IsBrace(c) && u[0] == c
    ensures Scan("\\" + u, frames) == Scan(u[1..], Grow(frames, "\\" + [c]))
  {
    var s := "\\" + u;
    assert s[2..] == u[1..] && s[..2] == "\\" + [c];
  }

  lemma RewriteOfEscape(s: string, afterOpen: bool)
    requires |s| > 1 && s[0] == '\\'
    ensures s == "\\" + s[1..] && Rewrite(s, afterOpen) == "\\" + Rewrite(s[1..], false)
  {
    assert s[..1] == "\\";
  }

  /** Both runs skip an escaped brace, which may be the one a placeholder match starts at. */
  lemma {:induction false} SimulatesEscape(s: string, afterOpen: bool, a: seq<string>, b: seq<string>)
    requires |s| > 1 && s[0] == '\\' && IsBrace(s[1]) && SameFrames(a, b)
    ensures Scan(Rewrite(s, afterOpen), b) == Scan(s, a)
    decreases |s|, 0
  {
    var rest, c := s[1..], s[1];
    var skipped := "\\" + [c];
    var a', b' := Grow(a, skipped), Grow(b, skipped);
    var u := Rewrite(rest, false);
    RewriteOfEscape(s, afterOpen);
    RewriteStep(rest, false);
    RewriteKeepsFirst(rest);
    SkipsEscape(c, rest, a);
    SkipsEscape(c, u, b);
    SameFramesGrow(a, b, skipped, skipped);
    if StartsPlaceholder(rest, false) && ':' in rest[1..PlainLength(rest[1..]) + 1] {
      SimulatesPlaceholder(rest, a', b');
    } else {
      assert u[1..] == Rewrite(rest[1..], rest[0] == '{');
      RewriteSimulates(rest[1..], rest[0] == '{', a', b');
    }
  }

  lemma DoubledTail(body: string, u: string)
    ensures ("{{" + (body + ("}}" + u)))[1..] == "{" + body + "}}" + u
  {
    var x := "{" + ("{" + body + "}}" + u);
    assert "{{" + (body + ("}}" + u)) == x && x[1..] == "{" + body + "}}" + u;
  }

  /** Both runs have just passed the opening brace of a placeholder that gets doubled. */
  lemma {:induction false} SimulatesPlaceholder(s: string, a: seq<string>, b: seq<string>)
    requires StartsPlaceholder(s, false) && ':' in s[1..PlainLength(s[1..]) + 1]
    requires SameFrames(a, b)
    ensures Rewrite(s, false) != ""
    ensures Scan(Rewrite(s, false)[1..], b) == Scan(s[1..], a)
    decreases |s|, 0
  {
    var n := PlainLength(s[1..]);
    var body, t := s[1..n + 1], s[n + 2..];
    var u := Rewrite(t, false);
    assert s[1..] == body + "}" + t;
    RewriteOpens(s, false, body, t);
    DoubledTail(body, u);
    DoubledPlaceholder(body, t, u, a, b);
    var closes := !EndsEscaped(body);
    RewriteSimulates(t, false, After(a, closes, body + "}"), After(b, closes, "{" + body + "}}"));
  }

  /** Both runs read the same unescaped character. */
  lemma {:induction false} SimulatesCopy(s: string, afterOpen: bool, a: seq<string>, b: seq<string>)
    requires s != "" && !(|s| > 1 && s[0] == '\\' && IsBrace(s[1]))
    requires Rewrite(s, afterOpen) == s[..1] + Rewrite(s[1..], s[0] == '{')
    requires SameFrames(a, b)
    ensures Scan(Rewrite(s, afterOpen), b) == Scan(s, a)
    decreases |s|, 0
  {
    var c := s[..1];
    var u := Rewrite(s[1..], s[0] == '{');
    assert (c + u)[1..] == u;
    if s[0] == '{' {
      assert c == "{";
      SameFramesGrow(a, b, c, c);
      RewriteSimulates(s[1..], true, Grow(a, c) + [""], Grow(b, c) + [""]);
    } else if s[0] == '}' && |a| > 0 {
      assert SameFrame(a[|a| - 1], b[|b| - 1]);
      SameFramesGrow(a[..|a| - 1], b[..|b| - 1], c, c);
      assert c == "}" && Emit(a[|a| - 1]) == Emit(b[|b| - 1]);
      RewriteSimulates(s[1..], false, Grow(a[..|a| - 1], c), Grow(b[..|b| - 1], c));
    } else {
      if s[0] == '\\' && |s| > 1 { RewriteKeepsFirst(s[1..]); }
      SameFramesGrow(a, b, c, c);
      RewriteSimulates(s[1..], false, Grow(a, c), Grow(b, c));
    }
  }

  lemma RewriteKeepsFirst(s: string)
    requires s != ""
    ensures Rewrite(s, false) != "" && Rewrite(s, false)[0] == s[0]
  {
  }

  /** Doubling braces around colon content never changes the extracted variables, for any text. */
  lemma TransformKeepsVariables(s: string)
    ensures Scan(TransformBracesWithColon(s), []) == Scan(s, [])
  {
    RewriteSimulates(s, false, [], []);
  }

  // ------------------------------------- what the rewriter does, brace by brace

  ghost function CloserOf(s: string, i: nat): nat
    requires i < |s|
  {
    i + 1 + PlainLength(s[i + 1..])
  }

  /** The opening brace at `i` is single, its text holds a colon and no brace, and its closing brace is single. */
  ghost predicate OpensColonText(s: string, i: nat) {
    i < |s| && s[i] == '{' && (i > 0 ==> s[i - 1] != '{') &&
    var j := CloserOf(s, i);
    j < |s| && s[j] == '}' && (j + 1 < |s| ==> s[j + 1] != '}') && ':' in s[i + 1..j]
  }

  ghost predicate ClosesColonText(s: string, j: nat) {
    exists i: nat :: i < j && OpensColonText(s, i) && CloserOf(s, i) == j
  }

  ghost predicate IsDoubled(s: string, i: nat) { OpensColonText(s, i) || ClosesColonText(s, i) }

  /** `s` from `i` on, with the braces around colon text doubled and everything else kept. */
  ghost function Doubled(s: string, i: nat): string
    requires i <= |s|
    decreases |s| - i
  {
    if i == |s| then "" else (if IsDoubled(s, i) then [s[i], s[i]] else [s[i]]) + Doubled(s, i + 1)
  }

  /** No placeholder that opens before `i` is still open at `i`. */
  ghost predicate BetweenMatches(s: string, i: nat) {
    forall k: nat :: k < i && OpensColonText(s, k) ==> CloserOf(s, k) < i
  }

  lemma OnlyBracesDoubled(s: string, i: nat)
    requires i < |s| && IsDoubled(s, i)
    ensures IsBrace(s[i])
  {
  }

  lemma DoubledCopiesAt(s: string, i: nat)
    requires i < |s| && !IsDoubled(s, i)
    ensures Doubled(s, i) == [s[i]] + Doubled(s, i + 1)
  {
  }

  lemma SliceHead(s: string, i: nat, j: nat, rest: string)
    requires i < j <= |s|
    ensures [s[i]] + (s[i + 1..j] + rest) == s[i..j] + rest
  {
    assert s[i..j] == [s[i]] + s[i + 1..j];
  }

  lemma {:induction false} DoubledCopies(s: string, i: nat, j: nat)
    requires i <= j <= |s| && forall k :: i <= k < j ==> !IsDoubled(s, k)
    ensures Doubled(s, i) == s[i..j] + Doubled(s, j)
    decreases j - i
  {
    if i < j {
      DoubledCopies(s, i + 1, j);
      DoubledCopiesAt(s, i);
      SliceHead(s, i, j, Doubled(s, j));
    } else {
      assert s[i..j] == "";
    }
  }

  lemma BodyIsPlain(s: string, i: nat)
    requires i < |s|
    ensures CloserOf(s, i) <= |s| && forall m :: i < m < CloserOf(s, i) ==> !IsBrace(s[m])
  {
    var text := s[i + 1..];
    forall m | i < m < CloserOf(s, i) ensures !IsBrace(s[m]) {
      assert text[m - i - 1] == s[m];
    }
  }

  /** Two placeholders that both hold colon text do not overlap. */
  lemma MatchesDisjoint(s: string, i: nat, k: nat)
    requires OpensColonText(s, i) && OpensColonText(s, k) && i < k
    ensures CloserOf(s, i) < k
  {
    BodyIsPlain(s, i);
  }

  lemma DoubledPlaceholderAt(s: string, i: nat)
    requires OpensColonText(s, i)
    ensures
      var j := CloserOf(s, i);
      Doubled(s, i) == "{{" + (s[i + 1..j] + ("}}" + Doubled(s, j + 1)))
  {
    var j := CloserOf(s, i);
    BodyIsPlain(s, i);
    forall k | i + 1 <= k < j ensures !IsDoubled(s, k) {
      if IsDoubled(s, k) { OnlyBracesDoubled(s, k); }
    }
    DoubledCopies(s, i + 1, j);
    assert IsDoubled(s, i) && ClosesColonText(s, j) && IsDoubled(s, j);
  }

  lemma BetweenNext(s: string, i: nat)
    requires i < |s| && BetweenMatches(s, i)
    ensures if OpensColonText(s, i) then BetweenMatches(s, CloserOf(s, i) + 1) else BetweenMatches(s, i + 1) && !IsDoubled(s, i)
  {
    if OpensColonText(s, i) {
      var j := CloserOf(s, i);
      forall k: nat | k < j + 1 && OpensColonText(s, k) ensures CloserOf(s, k) < j + 1 {
        if i < k { MatchesDisjoint(s, i, k); }
      }
    }
  }

  /** The pass and the positional definition agree on where a doubled placeholder starts. */
  lemma SamePlaceholder(s: string, i: nat)
    requires i < |s|
    ensures
      var rest, afterOpen, n := s[i..], i > 0 && s[i - 1] == '{', PlainLength(s[i + 1..]);
      rest[1..] == s[i + 1..] &&
      (OpensColonText(s, i) <==> StartsPlaceholder(rest, afterOpen) && ':' in rest[1..n + 1]) &&
      (OpensColonText(s, i) ==> rest[1..n + 1] == s[i + 1..CloserOf(s, i)] && rest[n + 2..] == s[CloserOf(s, i) + 1..])
  {
    var rest, n := s[i..], PlainLength(s[i + 1..]);
    assert rest[1..] == s[i + 1..];
    assert rest[1..n + 1] == s[i + 1..i + 1 + n];
    if n + 2 <= |rest| {
      assert rest[n + 2..] == s[i + n + 2..];
    }
  }

  lemma RewriteOpens(s: string, afterOpen: bool, body: string, t: string)
    requires StartsPlaceholder(s, afterOpen) && ':' in body
    requires var n := PlainLength(s[1..]); body == s[1..n + 1] && t == s[n + 2..]
    ensures Rewrite(s, afterOpen) == "{{" + (body + ("}}" + Rewrite(t, false)))
  {
    assert "{{" + body + "}}" + Rewrite(t, false) == "{{" + (body + ("}}" + Rewrite(t, false)));
  }

  lemma RewriteAt(s: string, i: nat)
    requires OpensColonText(s, i)
    ensures
      var j := CloserOf(s, i);
      Rewrite(s[i..], i > 0 && s[i - 1] == '{') == "{{" + (s[i + 1..j] + ("}}" + Rewrite(s[j + 1..], false)))
  {
    var rest, afterOpen, body, t := PlaceholderAt(s, i);
    RewriteOpens(rest, afterOpen, body, t);
  }

  /** The placeholder at `i`, as the pass finds it. */
  lemma PlaceholderAt(s: string, i: nat) returns (rest: string, afterOpen: bool, body: string, t: string)
    requires OpensColonText(s, i)
    ensures rest == s[i..] && afterOpen == (i > 0 && s[i - 1] == '{')
    ensures body == s[i + 1..CloserOf(s, i)] && t == s[CloserOf(s, i) + 1..]
    ensures StartsPlaceholder(rest, afterOpen) && ':' in body
    ensures var n := PlainLength(rest[1..]); body == rest[1..n + 1] && t == rest[n + 2..]
  {
    SamePlaceholder(s, i);
    rest, afterOpen := s[i..], i > 0 && s[i - 1] == '{';
    body, t := s[i + 1..CloserOf(s, i)], s[CloserOf(s, i) + 1..];
  }

  lemma RewriteCopiesAt(s: string, i: nat)
    requires i < |s| && !OpensColonText(s, i)
    ensures Rewrite(s[i..], i > 0 && s[i - 1] == '{') == [s[i]] + Rewrite(s[i + 1..], s[i] == '{')
  {
    SamePlaceholder(s, i);
    RewriteStep(s[i..], i > 0 && s[i - 1] == '{');
    assert s[i..][..1] == [s[i]];
  }

  lemma DoublesPlaceholder(s: string, i: nat, j: nat)
    requires OpensColonText(s, i) && j == CloserOf(s, i) && Rewrite(s[j + 1..], false) == Doubled(s, j + 1)
    ensures Rewrite(s[i..], i > 0 && s[i - 1] == '{') == Doubled(s, i)
  {
    RewriteAt(s, i);
    DoubledPlaceholderAt(s, i);
  }

  lemma DoublesCopy(s: string, i: nat)
    requires i < |s| && !OpensColonText(s, i) && !IsDoubled(s, i) && Rewrite(s[i + 1..], s[i] == '{') == Doubled(s, i + 1)
    ensures Rewrite(s[i..], i > 0 && s[i - 1] == '{') == Doubled(s, i)
  {
    RewriteCopiesAt(s, i);
    DoubledCopiesAt(s, i);
  }

  /** The single pass doubles exactly the braces the positional definition picks out. */
  lemma {:induction false} RewriteDoubles(s: string, i: nat)
    requires i <= |s| && BetweenMatches(s, i)
    ensures Rewrite(s[i..], i > 0 && s[i - 1] == '{') == Doubled(s, i)
    decreases |s| - i
  {
    if i == |s| {
      assert s[i..] == "";
    } else {
      BetweenNext(s, i);
      if OpensColonText(s, i) {
        var j := CloserOf(s, i);
        RewriteDoubles(s, j + 1);
        DoublesPlaceholder(s, i, j);
      } else {
        RewriteDoubles(s, i + 1);
        DoublesCopy(s, i);
      }
    }
  }

  /** The rewriter's output, stated without its pass: colon placeholders doubled, all other text kept. */
  lemma TransformDoublesColonBraces(s: string)
    ensures TransformBracesWithColon(s) == Doubled(s, 0)
  {
    assert s[0..] == s;
    RewriteDoubles(s, 0);
  }
}
