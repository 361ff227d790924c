/**
 Escaping in place, `iterateEscapesJSONParse`: a recursion that overwrites the string properties of
 objects which may be shared. An array is an object whose keys are its positions.
 */
module EscapeInPlace {
  import opened EscapeTokens

  /** A property value: text, a reference to another object, or anything else. */
  datatype Slot = Text(text: string) | Ref(id: nat) | Plain(tag: int)

  type Entries = seq<(string, Slot)>

  /** References point forward, so the object graph has no cycle; objects may be shared. */
  ghost predicate Acyclic(heap: seq<Entries>) {
    forall k, i :: 0 <= k < |heap| && 0 <= i < |heap[k]| && heap[k][i].1.Ref? ==> k < heap[k][i].1.id < |heap|
  }

  function Converted(text: string, reverse: bool): string { if reverse then Unescape(text) else Escape(text) }

  function RewrittenSlot(s: Slot, reverse: bool): Slot { if s.Text? then Text(Converted(s.text, reverse)) else s }

  /** All string properties of one object converted. */
  function Rewritten(e: Entries, reverse: bool): Entries {
    seq(|e|, i requires 0 <= i < |e| => (e[i].0, RewrittenSlot(e[i].1, reverse)))
  }

  /** Object `k` is `from` or is found by following references of its first `n` properties. */
  ghost predicate ReachedBy(heap: seq<Entries>, from: nat, n: nat, k: nat)
    requires Acyclic(heap) && from < |heap| && n <= |heap[from]|
    decreases |heap| - from, n
  {
    n > 0 &&
    (ReachedBy(heap, from, n - 1, k) ||
     (heap[from][n - 1].1.Ref? && Reaches(heap, heap[from][n - 1].1.id, k)))
  }

  ghost predicate Reaches(heap: seq<Entries>, from: nat, k: nat)
    requires Acyclic(heap) && from < |heap|
    decreases |heap| - from, |heap[from]| + 1
  {
    k == from || ReachedBy(heap, from, |heap[from]|, k)
  }

  /** The same references at the same places. */
  ghost predicate SameRefs(a: seq<Entries>, b: seq<Entries>) {
    |a| == |b| && forall k :: 0 <= k < |a| ==> SameShape(a[k], b[k])
  }

  ghost predicate SameShape(a: Entries, b: Entries) {
    |a| == |b| && forall i :: 0 <= i < |a| ==> (a[i].1.Ref? || b[i].1.Ref? ==> a[i].1 == b[i].1)
  }

  lemma {:induction false} SameReachedBy(a: seq<Entries>, b: seq<Entries>, from: nat, n: nat, k: nat)
    requires Acyclic(a) && Acyclic(b) && SameRefs(a, b) && from < |a| && n <= |a[from]|
    ensures SameShape(a[from], b[from])
    ensures ReachedBy(a, from, n, k) == ReachedBy(b, from, n, k)
    decreases |a| - from, n
  {
    assert SameShape(a[from], b[from]);
    if n > 0 {
      SameReachedBy(a, b, from, n - 1, k);
      if a[from][n - 1].1.Ref? { SameReaches(a, b, a[from][n - 1].1.id, k); }
    }
  }

  lemma {:induction false} SameReaches(a: seq<Entries>, b: seq<Entries>, from: nat, k: nat)
    requires Acyclic(a) && Acyclic(b) && SameRefs(a, b) && from < |a|
    ensures Reaches(a, from, k) == Reaches(b, from, k)
    decreases |a| - from, |a[from]| + 1
  {
    assert SameShape(a[from], b[from]);
    SameReachedBy(a, b, from, |a[from]|, k);
  }

  lemma {:induction false} ReachedLater(heap: seq<Entries>, from: nat, n: nat, k: nat)
    requires Acyclic(heap) && from < |heap| && n <= |heap[from]|
    ensures ReachedBy(heap, from, n, k) ==> from < k < |heap|
    decreases |heap| - from, n
  {
    if n > 0 {
      ReachedLater(heap, from, n - 1, k);
      if heap[from][n - 1].1.Ref? {
        var next := heap[from][n - 1].1.id;
        ReachedLater(heap, next, |heap[next]|, k);
        assert Reaches(heap, next, k) ==> next <= k < |heap|;
      }
    }
  }

  // ---------------------------------------------------------------- converting twice

  ghost predicate Absent(s: string, word: string) { forall i: nat :: !OccursAt(s, word, i) }

  lemma AbsentTail(s: string, word: string)
    requires s != "" && Absent(s, word)
    ensures Absent(s[1..], word) && !StartsWith(s, word)
  {
    assert !OccursAt(s, word, 0) && s[0..] == s;
    forall i: nat ensures !OccursAt(s[1..], word, i) {
      assert !OccursAt(s, word, i + 1);
      assert i <= |s[1..]| ==> s[1..][i..] == s[i + 1..];
    }
  }

  lemma {:induction false} NothingToReplace(s: string, pattern: string, text: string)
    requires pattern != "" && Absent(s, pattern)
    ensures ReplaceAll(s, pattern, text) == s
    decreases |s|
  {
    if s != "" {
      AbsentTail(s, pattern);
      NothingToReplace(s[1..], pattern, text);
    }
  }

  lemma {:induction false} UnescapePlain(s: string, n: nat)
    requires n <= COUNT && NoTokens(s)
    ensures Replaced(s, true, n) == s
    decreases n
  {
    if n > 0 {
      UnescapePlain(s, n - 1);
      TokenShape(n - 1);
      assert Absent(s, Token(n - 1));
      NothingToReplace(s, Token(n - 1), [Escaped(n - 1)]);
    }
  }

  lemma {:induction false} EncodedIsPlain(s: string)
    ensures forall p :: 0 <= p < |Encode(s, 0, COUNT)| ==> IndexOf(Encode(s, 0, COUNT)[p]) == COUNT
    decreases |s|
  {
    if s != "" {
      EncodedIsPlain(s[1..]);
      if IndexOf(s[0]) < COUNT { TokenIsPlain(IndexOf(s[0])); }
    }
  }

  /** Converting a second time changes nothing, in either direction. */
  lemma ConvertedTwice(s: string, reverse: bool)
    ensures Converted(Converted(s, reverse), reverse) == Converted(s, reverse)
  {
    if reverse {
      UnescapeLeavesNoTokens(s);
      UnescapePlain(Unescape(s), COUNT);
    } else {
      EscapeIsEncode(s);
      EscapeIsEncode(Escape(s));
      EncodedIsPlain(s);
      EncodePlain(Escape(s));
    }
  }

  lemma RewrittenTwice(e: Entries, reverse: bool)
    ensures Rewritten(Rewritten(e, reverse), reverse) == Rewritten(e, reverse)
  {
    forall i | 0 <= i < |e| && e[i].1.Text? ensures Converted(Converted(e[i].1.text, reverse), reverse) == Converted(e[i].1.text, reverse) {
      ConvertedTwice(e[i].1.text, reverse);
    }
  }

  // ---------------------------------------------------------------- the recursion

  /** Exactly the objects found from `from` are converted, each once in effect, however often it is shared. */
  ghost predicate RewrittenFrom(before: seq<Entries>, after: seq<Entries>, reverse: bool, from: nat)
    requires Acyclic(before) && from < |before|
  {
    |after| == |before| &&
    forall k: nat :: k < |before| ==> after[k] == if Reaches(before, from, k) then Rewritten(before[k], reverse) else before[k]
  }

  /** After `n` properties: their texts are converted, and so is everything they lead to. */
  ghost predicate Progress(start: seq<Entries>, now: seq<Entries>, reverse: bool, input: nat, n: nat)
    requires Acyclic(start) && input < |start| && n <= |start[input]|
  {
    |now| == |start| && now[input] == RewrittenUpTo(start[input], reverse, n) &&
    forall k: nat :: k < |start| && k != input ==>
      now[k] == if ReachedBy(start, input, n, k) then Rewritten(start[k], reverse) else start[k]
  }

  function RewrittenUpTo(e: Entries, reverse: bool, n: nat): Entries {
    seq(|e|, i requires 0 <= i < |e| => if i < n then (e[i].0, RewrittenSlot(e[i].1, reverse)) else e[i])
  }

  lemma ProgressKeepsRefs(start: seq<Entries>, now: seq<Entries>, reverse: bool, input: nat, n: nat)
    requires Acyclic(start) && input < |start| && n <= |start[input]| && Progress(start, now, reverse, input, n)
    ensures SameRefs(start, now) && Acyclic(now)
  {
    forall k | 0 <= k < |start| ensures SameShape(start[k], now[k]) {
      if k == input {
        assert now[k] == RewrittenUpTo(start[k], reverse, n);
      } else {
        assert now[k] == Rewritten(start[k], reverse) || now[k] == start[k];
      }
    }
    forall k, i | 0 <= k < |now| && 0 <= i < |now[k]| && now[k][i].1.Ref? ensures k < now[k][i].1.id < |now| {
      assert SameShape(start[k], now[k]);
      assert start[k][i].1 == now[k][i].1;
    }
  }

  lemma ProgressStart(start: seq<Entries>, reverse: bool, input: nat)
    requires Acyclic(start) && input < |start|
    ensures Progress(start, start, reverse, input, 0)
  {
    assert RewrittenUpTo(start[input], reverse, 0) == start[input];
  }

  lemma PropertyStep(start: seq<Entries>, mid: seq<Entries>, now: seq<Entries>, reverse: bool, input: nat, i: nat)
    requires Acyclic(start) && input < |start| && i < |start[input]| && !start[input][i].1.Ref?
    requires Progress(start, mid, reverse, input, i)
    requires now == mid[input := mid[input][i := (start[input][i].0, RewrittenSlot(start[input][i].1, reverse))]]
    ensures Progress(start, now, reverse, input, i + 1)
  {
    assert now[input] == RewrittenUpTo(start[input], reverse, i + 1);
    forall k: nat | k < |start| && k != input
      ensures now[k] == if ReachedBy(start, input, i + 1, k) then Rewritten(start[k], reverse) else start[k]
    {
      assert ReachedBy(start, input, i + 1, k) == ReachedBy(start, input, i, k);
    }
  }

  lemma SameSlot(heap: seq<Entries>, k: nat, i: nat)
    requires k < |heap| && i < |heap[k]|
    ensures heap[k := heap[k][i := (heap[k][i].0, heap[k][i].1)]] == heap
  {
    assert heap[k][i := heap[k][i]] == heap[k];
  }

  /** Another object after a reference was followed: converted at most once in effect. */
  lemma RefTouches(start: seq<Entries>, mid: seq<Entries>, now: seq<Entries>, reverse: bool, input: nat, i: nat, k: nat)
    requires Acyclic(start) && input < |start| && i < |start[input]| && start[input][i].1.Ref?
    requires Progress(start, mid, reverse, input, i) && Acyclic(mid) && SameRefs(start, mid)
    requires RewrittenFrom(mid, now, reverse, start[input][i].1.id)
    requires k < |start| && k != input
    ensures now[k] == if ReachedBy(start, input, i + 1, k) then Rewritten(start[k], reverse) else start[k]
  {
    var id := start[input][i].1.id;
    SameReaches(start, mid, id, k);
    RewrittenTwice(start[k], reverse);
    assert ReachedBy(start, input, i + 1, k) <==> ReachedBy(start, input, i, k) || Reaches(start, id, k);
  }

  /** The object itself is not found from a reference it holds. */
  lemma RefMissesItself(start: seq<Entries>, mid: seq<Entries>, reverse: bool, input: nat, i: nat)
    requires Acyclic(mid) && Acyclic(start) && |mid| == |start| && input < |start| && i < |start[input]| && start[input][i].1.Ref?
    ensures !Reaches(mid, start[input][i].1.id, input)
    ensures RewrittenUpTo(start[input], reverse, i + 1) == RewrittenUpTo(start[input], reverse, i)
  {
    var id := start[input][i].1.id;
    ReachedLater(mid, id, |mid[id]|, input);
  }

  lemma RefStep(start: seq<Entries>, mid: seq<Entries>, now: seq<Entries>, reverse: bool, input: nat, i: nat)
    requires Acyclic(start) && input < |start| && i < |start[input]| && start[input][i].1.Ref?
    requires Progress(start, mid, reverse, input, i) && Acyclic(mid)
    requires RewrittenFrom(mid, now, reverse, start[input][i].1.id)
    ensures Progress(start, now, reverse, input, i + 1)
  {
    ProgressKeepsRefs(start, mid, reverse, input, i);
    RefMissesItself(start, mid, reverse, input, i);
    forall k: nat | k < |start| && k != input
      ensures now[k] == if ReachedBy(start, input, i + 1, k) then Rewritten(start[k], reverse) else start[k]
    {
      RefTouches(start, mid, now, reverse, input, i, k);
    }
  }

  lemma ProgressEnd(start: seq<Entries>, now: seq<Entries>, reverse: bool, input: nat)
    requires Acyclic(start) && input < |start| && Progress(start, now, reverse, input, |start[input]|)
    ensures RewrittenFrom(start, now, reverse, input)
  {
    assert RewrittenUpTo(start[input], reverse, |start[input]|) == Rewritten(start[input], reverse);
  }

  class Store {
    var heap: seq<Entries>

    constructor (heap: seq<Entries>)
      ensures this.heap == heap
    {
      this.heap := heap;
    }

    /** Overwrites the string properties of an object and of everything it refers to. */
    method IterateEscapesJSONParse(input: nat, reverse: bool)
      requires Acyclic(heap) && input < |heap|
      modifies this
      ensures Acyclic(heap) && RewrittenFrom(old(heap), heap, reverse, input)
      decreases |heap| - input, 1
    {
      ghost var start := heap;
      ProgressStart(start, reverse, input);
      var n := |heap[input]|;
      for i := 0 to n
        invariant Acyclic(heap) && Progress(start, heap, reverse, input, i)
      {
        Property(start, input, i, reverse);
      }
      ProgressEnd(start, heap, reverse, input);
    }

    /** The body of the loop over the properties; `start` is the heap before the loop. */
    method Property(ghost start: seq<Entries>, input: nat, i: nat, reverse: bool)
      requires Acyclic(start) && input < |start| && i < |start[input]|
      requires Acyclic(heap) && Progress(start, heap, reverse, input, i)
      modifies this
      ensures Acyclic(heap) && Progress(start, heap, reverse, input, i + 1)
      decreases |heap| - input, 0
    {
      ghost var mid := heap;
      assert heap[input][i] == start[input][i];
      match heap[input][i].1
      case Text(text) =>
        var output := HandleEscapesJSONParse(text, reverse);
        heap := heap[input := heap[input][i := (heap[input][i].0, Text(output))]];
        PropertyStep(start, mid, heap, reverse, input, i);
      case Ref(id) =>
        IterateEscapesJSONParse(id, reverse);
        RefStep(start, mid, heap, reverse, input, i);
      case Plain(_) =>
        SameSlot(mid, input, i);
        PropertyStep(start, mid, heap, reverse, input, i);
      ProgressKeepsRefs(start, heap, reverse, input, i + 1);
    }
  }

  // ---------------------------------------------------------------- the value an object stands for

  ghost function SlotView(heap: seq<Entries>, s: Slot, above: nat): Value
    requires Acyclic(heap) && above < |heap| && (s.Ref? ==> above < s.id < |heap|)
    decreases |heap| - above, 0
  {
    match s
    case Text(text) => Str(text)
    case Ref(id) => View(heap, id)
    case Plain(tag) => Other(tag)
  }

  /** The nested value read from an object. */
  ghost function View(heap: seq<Entries>, k: nat): Value
    requires Acyclic(heap) && k < |heap|
    decreases |heap| - k, 1
  {
    Obj(seq(|heap[k]|, i requires 0 <= i < |heap[k]| => (heap[k][i].0, SlotView(heap, heap[k][i].1, k))))
  }

  lemma {:induction false} ReachedThrough(heap: seq<Entries>, from: nat, i: nat, n: nat, k: nat)
    requires Acyclic(heap) && from < |heap| && i < n <= |heap[from]| && heap[from][i].1.Ref?
    requires Reaches(heap, heap[from][i].1.id, k)
    ensures ReachedBy(heap, from, n, k)
    decreases n
  {
    if i < n - 1 { ReachedThrough(heap, from, i, n - 1, k); }
  }

  lemma {:induction false} ViewRewritten(before: seq<Entries>, after: seq<Entries>, reverse: bool, k: nat)
    requires Acyclic(before) && Acyclic(after) && |after| == |before| && k < |before|
    requires forall j: nat :: j < |before| && Reaches(before, k, j) ==> after[j] == Rewritten(before[j], reverse)
    ensures View(after, k) == HandleEscapeCharacters(View(before, k), reverse)
    decreases |before| - k
  {
    var e := before[k];
    assert Reaches(before, k, k) && after[k] == Rewritten(e, reverse);
    forall i | 0 <= i < |e|
      ensures SlotView(after, after[k][i].1, k) == HandleEscapeCharacters(SlotView(before, e[i].1, k), reverse)
    {
      if e[i].1.Ref? {
        forall j: nat | j < |before| && Reaches(before, e[i].1.id, j) ensures Reaches(before, k, j) {
          ReachedThrough(before, k, i, |e|, j);
        }
        ViewRewritten(before, after, reverse, e[i].1.id);
      }
    }
    var x, y := View(after, k), HandleEscapeCharacters(View(before, k), reverse);
    assert x.entries == y.entries;
  }

  /** In place and with sharing, the value read from the object is the converted value. */
  lemma InPlaceIsNested(before: seq<Entries>, after: seq<Entries>, reverse: bool, input: nat)
    requires Acyclic(before) && Acyclic(after) && input < |before| && RewrittenFrom(before, after, reverse, input)
    ensures View(after, input) == HandleEscapeCharacters(View(before, input), reverse)
  {
    ViewRewritten(before, after, reverse, input);
  }

  /** Escaping and unescaping an object in place gives its value back exactly when no text in it holds a token word. */
  lemma InPlaceRoundTrip(a: seq<Entries>, b: seq<Entries>, c: seq<Entries>, input: nat)
    requires Acyclic(a) && Acyclic(b) && Acyclic(c) && input < |a|
    requires RewrittenFrom(a, b, false, input) && RewrittenFrom(b, c, true, input)
    ensures View(c, input) == View(a, input) <==> AllNoTokens(View(a, input))
  {
    InPlaceIsNested(a, b, false, input);
    InPlaceIsNested(b, c, true, input);
    NestedRoundTrip(View(a, input));
  }
}
