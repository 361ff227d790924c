/**
 The edges of the generated flow, `updateEdges`: unknown edges go, indices of hidden edges are
 collected once per reason and spliced out from the back, so an edge hidden for two reasons is
 listed twice, and the handles of gates and conditions are renamed.
 */
module FlowEdges {
  import opened Common
  import opened FlowOrder
  import opened FlowSearch

  /** The first node of an id, as an array search finds it. */
  function Find(nodes: seq<Node>, id: string): Option<Node> {
    if nodes == [] then None else if nodes[0].id == id then Some(nodes[0]) else Find(nodes[1..], id)
  }

  predicate HiddenAtSource(nodes: seq<Node>, e: Edge) {
    var n := Find(nodes, e.source);
    n.Some? && n.value.hideOutput
  }

  predicate HiddenAtTarget(nodes: seq<Node>, e: Edge) {
    var n := Find(nodes, e.target);
    n.Some? && n.value.hideInput
  }

  predicate Known(nodes: seq<Node>, e: Edge) { Find(nodes, e.source).Some? || Find(nodes, e.target).Some? }

  function KnownEdges(nodes: seq<Node>, edges: seq<Edge>): seq<Edge> {
    if edges == [] then [] else (if Known(nodes, edges[0]) then [edges[0]] else []) + KnownEdges(nodes, edges[1..])
  }

  /** The entries one edge puts on the delete list: one for each reason it is hidden. */
  function Entries(nodes: seq<Node>, e: Edge, i: nat): seq<nat> {
    (if HiddenAtSource(nodes, e) then [i] else []) + (if HiddenAtTarget(nodes, e) then [i] else [])
  }

  /** The delete list of `edges` when the first of them has index `from`. */
  function DeleteList(nodes: seq<Node>, edges: seq<Edge>, from: nat): seq<nat>
    decreases |edges|
  {
    if edges == [] then [] else Entries(nodes, edges[0], from) + DeleteList(nodes, edges[1..], from + 1)
  }

  /** Removes one element; an index past the end removes nothing. */
  function Splice(edges: seq<Edge>, i: nat): seq<Edge> {
    if i < |edges| then edges[..i] + edges[i + 1..] else edges
  }

  /** Splices the listed indices out, last first. */
  function SpliceAll(edges: seq<Edge>, indices: seq<nat>): seq<Edge>
    decreases |indices|
  {
    if indices == [] then edges
    else SpliceAll(Splice(edges, indices[|indices| - 1]), indices[..|indices| - 1])
  }

  lemma DeleteListStep(nodes: seq<Node>, edges: seq<Edge>, i: nat, found: seq<nat>)
    requires i < |edges|
    ensures
      found + DeleteList(nodes, edges[i..], i) ==
      (found + Entries(nodes, edges[i], i)) + DeleteList(nodes, edges[i + 1..], i + 1)
  {
    assert edges[i..][0] == edges[i] && edges[i..][1..] == edges[i + 1..];
  }

  method CollectHidden(edges: seq<Edge>, nodes: seq<Node>) returns (indexToDelete: seq<nat>)
    ensures indexToDelete == DeleteList(nodes, edges, 0)
  {
    indexToDelete := [];
    assert edges[0..] == edges;
    for i := 0 to |edges|
      invariant indexToDelete + DeleteList(nodes, edges[i..], i) == DeleteList(nodes, edges, 0)
    {
      DeleteListStep(nodes, edges, i, indexToDelete);
      ghost var next := indexToDelete + Entries(nodes, edges[i], i);
      if HiddenAtSource(nodes, edges[i]) {
        indexToDelete := indexToDelete + [i];
      }
      if HiddenAtTarget(nodes, edges[i]) {
        indexToDelete := indexToDelete + [i];
      }
      assert indexToDelete == next;
    }
    assert edges[|edges|..] == [];
  }

  method SpliceOut(edges: seq<Edge>, indexToDelete: seq<nat>) returns (kept: seq<Edge>)
    ensures kept == SpliceAll(edges, indexToDelete)
  {
    kept := edges;
    var left := |indexToDelete|;
    assert indexToDelete[..left] == indexToDelete;
    while left > 0
      invariant left <= |indexToDelete|
      invariant SpliceAll(kept, indexToDelete[..left]) == SpliceAll(edges, indexToDelete)
    {
      left := left - 1;
      ghost var indices := indexToDelete[..left + 1];
      assert indices[..left] == indexToDelete[..left] && indices[left] == indexToDelete[left];
      kept := Splice(kept, indexToDelete[left]);
    }
    assert indexToDelete[..0] == [];
  }

  method DropHiddenEdges(edges: seq<Edge>, nodes: seq<Node>) returns (kept: seq<Edge>)
    ensures kept == Kept(nodes, edges)
  {
    var known := KnownEdges(nodes, edges);
    var indexToDelete := CollectHidden(known, nodes);
    kept := SpliceOut(known, indexToDelete);
    SplicedIsSurvivors(nodes, known);
  }

  // ---------------------------------------------------------------- what survives

  predicate Visible(nodes: seq<Node>, e: Edge) { !HiddenAtSource(nodes, e) && !HiddenAtTarget(nodes, e) }

  predicate HiddenTwice(nodes: seq<Node>, e: Edge) { HiddenAtSource(nodes, e) && HiddenAtTarget(nodes, e) }

  function VisibleEdges(nodes: seq<Node>, edges: seq<Edge>): seq<Edge> {
    if edges == [] then [] else (if Visible(nodes, edges[0]) then [edges[0]] else []) + VisibleEdges(nodes, edges[1..])
  }

  /** What is left in fact: an edge hidden twice takes the next surviving edge with it. */
  function Survivors(nodes: seq<Node>, edges: seq<Edge>): seq<Edge> {
    if edges == [] then []
    else
      var rest := Survivors(nodes, edges[1..]);
      if Visible(nodes, edges[0]) then [edges[0]] + rest
      else if HiddenTwice(nodes, edges[0]) && rest != [] then rest[1..]
      else rest
  }

  /** The edges that are neither unknown nor spliced out. */
  function Kept(nodes: seq<Node>, edges: seq<Edge>): seq<Edge> { Survivors(nodes, KnownEdges(nodes, edges)) }

  lemma {:induction false} SpliceConcat(edges: seq<Edge>, a: seq<nat>, b: seq<nat>)
    ensures SpliceAll(edges, a + b) == SpliceAll(SpliceAll(edges, b), a)
    decreases |b|
  {
    if b == [] {
      assert a + b == a;
    } else {
      var last, init := b[|b| - 1], b[..|b| - 1];
      assert (a + b)[|a + b| - 1] == last && (a + b)[..|a + b| - 1] == a + init;
      SpliceConcat(Splice(edges, last), a, init);
    }
  }

  function Shifted(indices: seq<nat>, offset: nat): seq<nat> {
    seq(|indices|, i requires 0 <= i < |indices| => indices[i] + offset)
  }

  lemma SpliceTail(e: Edge, edges: seq<Edge>, i: nat)
    ensures Splice([e] + edges, i + 1) == [e] + Splice(edges, i)
  {
    if i < |edges| {
      assert ([e] + edges)[..i + 1] == [e] + edges[..i];
      assert ([e] + edges)[i + 2..] == edges[i + 1..];
    }
  }

  lemma ShiftedLast(indices: seq<nat>, offset: nat)
    requires indices != []
    ensures
      var n, shifted := |indices| - 1, Shifted(indices, offset);
      |shifted| == n + 1 && shifted[n] == indices[n] + offset && shifted[..n] == Shifted(indices[..n], offset)
  {
  }

  /** Splicing behind an edge leaves that edge alone. */
  lemma {:induction false} SpliceBehind(e: Edge, edges: seq<Edge>, indices: seq<nat>)
    ensures SpliceAll([e] + edges, Shifted(indices, 1)) == [e] + SpliceAll(edges, indices)
    decreases |indices|
  {
    if indices != [] {
      var n := |indices| - 1;
      ShiftedLast(indices, 1);
      SpliceTail(e, edges, indices[n]);
      SpliceBehind(e, Splice(edges, indices[n]), indices[..n]);
    }
  }

  lemma ShiftedConcat(a: seq<nat>, b: seq<nat>, offset: nat)
    ensures Shifted(a + b, offset) == Shifted(a, offset) + Shifted(b, offset)
  {
  }

  lemma EntriesShift(nodes: seq<Node>, e: Edge, from: nat, more: nat)
    ensures Entries(nodes, e, from + more) == Shifted(Entries(nodes, e, from), more)
  {
  }

  lemma {:induction false} DeleteListShifts(nodes: seq<Node>, edges: seq<Edge>, from: nat, more: nat)
    ensures DeleteList(nodes, edges, from + more) == Shifted(DeleteList(nodes, edges, from), more)
    decreases |edges|
  {
    if edges != [] {
      DeleteListShifts(nodes, edges[1..], from + 1, more);
      EntriesShift(nodes, edges[0], from, more);
      ShiftedConcat(Entries(nodes, edges[0], from), DeleteList(nodes, edges[1..], from + 1), more);
    }
  }

  /** The index loop computes the survivors. */
  lemma {:induction false} SplicedIsSurvivors(nodes: seq<Node>, edges: seq<Edge>)
    ensures SpliceAll(edges, DeleteList(nodes, edges, 0)) == Survivors(nodes, edges)
    decreases |edges|
  {
    if edges != [] {
      var e, rest := edges[0], edges[1..];
      SplicedIsSurvivors(nodes, rest);
      TailSpliced(nodes, e, rest);
      assert edges == [e] + rest;
      SpliceConcat(edges, Entries(nodes, e, 0), DeleteList(nodes, rest, 1));
      EntriesSpliced(nodes, e, Survivors(nodes, rest));
    }
  }

  lemma TailSpliced(nodes: seq<Node>, e: Edge, rest: seq<Edge>)
    ensures SpliceAll([e] + rest, DeleteList(nodes, rest, 1)) == [e] + SpliceAll(rest, DeleteList(nodes, rest, 0))
  {
    DeleteListShifts(nodes, rest, 0, 1);
    assert DeleteList(nodes, rest, 1) == Shifted(DeleteList(nodes, rest, 0), 1);
    SpliceBehind(e, rest, DeleteList(nodes, rest, 0));
  }

  lemma EntriesSpliced(nodes: seq<Node>, e: Edge, left: seq<Edge>)
    ensures
      SpliceAll([e] + left, Entries(nodes, e, 0)) ==
      if Visible(nodes, e) then [e] + left else if HiddenTwice(nodes, e) && left != [] then left[1..] else left
  {
    var entries := Entries(nodes, e, 0);
    assert Splice([e] + left, 0) == left;
    if HiddenTwice(nodes, e) {
      assert entries == [0, 0] && entries[..1] == [0] && entries[1] == 0;
      SpliceFirst(left);
    } else if !Visible(nodes, e) {
      assert entries == [0];
      SpliceFirst([e] + left);
    }
  }

  lemma SpliceFirst(edges: seq<Edge>)
    ensures SpliceAll(edges, [0]) == if edges != [] then edges[1..] else edges
  {
    var one := [0 as nat];
    assert one[..0] == [];
  }

  /** An edge hidden for both reasons stands before a visible edge. */
  ghost predicate LosesVisible(nodes: seq<Node>, edges: seq<Edge>) {
    exists i, j :: 0 <= i < j < |edges| && HiddenTwice(nodes, edges[i]) && Visible(nodes, edges[j])
  }

  lemma {:induction false} SurvivorsAtMost(nodes: seq<Node>, edges: seq<Edge>)
    ensures |Survivors(nodes, edges)| <= |VisibleEdges(nodes, edges)|
    decreases |edges|
  {
    if edges != [] { SurvivorsAtMost(nodes, edges[1..]); }
  }

  lemma {:induction false} NoneVisible(nodes: seq<Node>, edges: seq<Edge>)
    ensures VisibleEdges(nodes, edges) == [] <==> forall j :: 0 <= j < |edges| ==> !Visible(nodes, edges[j])
    decreases |edges|
  {
    if edges != [] {
      NoneVisible(nodes, edges[1..]);
      assert edges == [edges[0]] + edges[1..];
      if VisibleEdges(nodes, edges) == [] {
        forall j | 0 <= j < |edges| ensures !Visible(nodes, edges[j]) {
          if j > 0 { assert edges[j] == edges[1..][j - 1]; }
        }
      }
    }
  }

  /** Exactly the hidden edges go, unless an edge hidden for both reasons stands before a visible one. */
  lemma {:induction false} DropsExactlyHidden(nodes: seq<Node>, edges: seq<Edge>)
    ensures Survivors(nodes, edges) == VisibleEdges(nodes, edges) <==> !LosesVisible(nodes, edges)
    decreases |edges|
  {
    if edges != [] {
      var e, rest := edges[0], edges[1..];
      DropsExactlyHidden(nodes, rest);
      SurvivorsAtMost(nodes, rest);
      NoneVisible(nodes, rest);
      LosesStep(nodes, edges);
      var s, v := Survivors(nodes, rest), VisibleEdges(nodes, rest);
      if Visible(nodes, e) {
        assert ([e] + s)[1..] == s && ([e] + v)[1..] == v;
      } else if HiddenTwice(nodes, e) && s != [] {
        assert |s[1..]| < |v|;
      } else if HiddenTwice(nodes, e) {
        assert s == v <==> v == [];
      }
    }
  }

  lemma LosesStep(nodes: seq<Node>, edges: seq<Edge>)
    requires edges != []
    ensures
      LosesVisible(nodes, edges) <==>
      LosesVisible(nodes, edges[1..]) ||
      (HiddenTwice(nodes, edges[0]) && exists j :: 0 <= j < |edges[1..]| && Visible(nodes, edges[1..][j]))
  {
    var rest := edges[1..];
    if i, j :| 0 <= i < j < |edges| && HiddenTwice(nodes, edges[i]) && Visible(nodes, edges[j]) {
      assert edges[j] == rest[j - 1];
      if i > 0 { assert edges[i] == rest[i - 1]; }
    }
    if i, j :| 0 <= i < j < |rest| && HiddenTwice(nodes, rest[i]) && Visible(nodes, rest[j]) {
      assert edges[i + 1] == rest[i] && edges[j + 1] == rest[j];
    }
    if j :| 0 <= j < |rest| && HiddenTwice(nodes, edges[0]) && Visible(nodes, rest[j]) {
      assert edges[j + 1] == rest[j];
    }
  }

  /** Nothing is dropped exactly when every edge touches a node and none is hidden. */
  lemma {:induction false} KeepsAllExactlyWhen(nodes: seq<Node>, edges: seq<Edge>)
    ensures |Kept(nodes, edges)| <= |edges|
    ensures Kept(nodes, edges) == edges <==> forall e :: e in edges ==> Known(nodes, e) && Visible(nodes, e)
    decreases |edges|
  {
    if edges != [] {
      var e, rest := edges[0], edges[1..];
      KeepsAllExactlyWhen(nodes, rest);
      assert edges == [e] + rest;
      KeptStep(nodes, edges);
    }
  }

  lemma KeptStep(nodes: seq<Node>, edges: seq<Edge>)
    requires edges != []
    ensures
      var e, rest := edges[0], Kept(nodes, edges[1..]);
      if Known(nodes, e) && Visible(nodes, e) then Kept(nodes, edges) == [e] + rest else |Kept(nodes, edges)| <= |rest|
  {
    var known := KnownEdges(nodes, edges[1..]);
    var none: seq<Edge> := [];
    assert ([edges[0]] + known)[1..] == known && none + known == known;
  }

  /** An edge between hidden handles takes the visible edge behind it along. */
  lemma HiddenTakesNext(nodes: seq<Node>, e: Edge, f: Edge, rest: seq<Edge>)
    requires Known(nodes, e) && HiddenTwice(nodes, e) && Known(nodes, f) && Visible(nodes, f)
    ensures Kept(nodes, [e, f] + rest) == Kept(nodes, rest)
  {
    var behind := [f] + rest;
    assert ([e, f] + rest)[1..] == behind && behind[1..] == rest;
    KeptStep(nodes, behind);
    var known := KnownEdges(nodes, behind);
    assert KnownEdges(nodes, [e, f] + rest) == [e] + known && ([e] + known)[1..] == known;
  }

  const LOSING_NODES: seq<Node> := [Node("a", AGENT, [], None, true, true), Node("b", AGENT, [], None, false, false)]

  const LOSING_EDGES: seq<Edge> := [Edge("a", "", "a"), Edge("b", "", "b")]

  /** Two edges of which the hidden one takes the visible one along. */
  lemma VisibleEdgeLost()
    ensures VisibleEdges(LOSING_NODES, LOSING_EDGES) == [Edge("b", "", "b")]
    ensures Kept(LOSING_NODES, LOSING_EDGES) == []
  {
    assert LOSING_NODES[1..] == [LOSING_NODES[1]];
    assert Find(LOSING_NODES, "a") == Some(LOSING_NODES[0]) && Find(LOSING_NODES, "b") == Some(LOSING_NODES[1]);
    HiddenTakesNext(LOSING_NODES, LOSING_EDGES[0], LOSING_EDGES[1], []);
    assert LOSING_EDGES == [LOSING_EDGES[0], LOSING_EDGES[1]] + [];
    assert LOSING_EDGES[1..] == [LOSING_EDGES[1]] && LOSING_EDGES[1..][1..] == [];
    assert VisibleEdges(LOSING_NODES, LOSING_EDGES[1..]) == [LOSING_EDGES[1]];
    assert !Visible(LOSING_NODES, LOSING_EDGES[0]);
  }

  /** The first node of this id. */
  ghost predicate FirstNode(nodes: seq<Node>, id: string, k: nat) {
    k < |nodes| && nodes[k].id == id && forall j :: 0 <= j < k ==> nodes[j].id != id
  }

  lemma {:induction false} FindIs(nodes: seq<Node>, id: string)
    ensures forall k: nat :: FirstNode(nodes, id, k) ==> Find(nodes, id) == Some(nodes[k])
    ensures Find(nodes, id).Some? ==> exists k: nat :: FirstNode(nodes, id, k)
    decreases |nodes|
  {
    if nodes != [] {
      var rest := nodes[1..];
      FindIs(rest, id);
      if nodes[0].id == id {
        assert FirstNode(nodes, id, 0);
      } else {
        forall k: nat | FirstNode(nodes, id, k) ensures Find(nodes, id) == Some(nodes[k]) {
          assert nodes[k] == rest[k - 1] && FirstNode(rest, id, k - 1);
        }
        if Find(rest, id).Some? {
          var k: nat :| FirstNode(rest, id, k);
          assert FirstNode(nodes, id, k + 1);
        }
      }
    }
  }

  /** An edge is known if a node stands at either end, and hidden if the first node at an end hides that handle. */
  lemma KnownAndHiddenAre(nodes: seq<Node>, e: Edge)
    ensures Known(nodes, e) <==> exists n :: n in nodes && (n.id == e.source || n.id == e.target)
    ensures HiddenAtSource(nodes, e) <==> exists k: nat :: FirstNode(nodes, e.source, k) && nodes[k].hideOutput
    ensures HiddenAtTarget(nodes, e) <==> exists k: nat :: FirstNode(nodes, e.target, k) && nodes[k].hideInput
  {
    FindIs(nodes, e.source);
    FindIs(nodes, e.target);
    if Find(nodes, e.source).Some? {
      var k: nat :| FirstNode(nodes, e.source, k);
      assert nodes[k] in nodes;
    }
    if Find(nodes, e.target).Some? {
      var k: nat :| FirstNode(nodes, e.target, k);
      assert nodes[k] in nodes;
    }
    forall n | n in nodes ensures Find(nodes, n.id).Some? { FoundIfThere(nodes, n); }
  }

  lemma {:induction false} FoundIfThere(nodes: seq<Node>, n: Node)
    requires n in nodes
    ensures Find(nodes, n.id).Some?
    decreases |nodes|
  {
    if nodes[0].id != n.id { FoundIfThere(nodes[1..], n); }
  }

  // ---------------------------------------------------------------- handles

  /** The first occurrence of `word` replaced. */
  function ReplaceFirst(s: string, word: string, c: char): string
    requires word != ""
  {
    if word <= s then [c] + s[|word|..] else if s == "" then "" else [s[0]] + ReplaceFirst(s[1..], word, c)
  }

  /** Nodes with several outputs are recognised by their ids. */
  predicate IsMultiOutput(id: string) {
    Includes(id, "conditionAgentflow") || Includes(id, "conditionAgentAgentflow") || Includes(id, GATE)
  }

  function Renamed(e: Edge): Edge {
    if !IsMultiOutput(e.source) then e
    else if Includes(e.sourceHandle, "true") then e.(sourceHandle := ReplaceFirst(e.sourceHandle, "true", '0'))
    else if Includes(e.sourceHandle, "false") then e.(sourceHandle := ReplaceFirst(e.sourceHandle, "false", '1'))
    else e
  }

  function RenamedAll(edges: seq<Edge>): seq<Edge> {
    if edges == [] then [] else [Renamed(edges[0])] + RenamedAll(edges[1..])
  }

  /** The edges of the finished flow, and those that the validator reads. */
  function Updated(nodes: seq<Node>, edges: seq<Edge>): seq<Edge> { RenamedAll(Kept(nodes, edges)) }

  lemma RenamedStep(edges: seq<Edge>, i: nat, done: seq<Edge>)
    requires i < |edges|
    ensures done + RenamedAll(edges[i..]) == (done + [Renamed(edges[i])]) + RenamedAll(edges[i + 1..])
  {
    assert edges[i..][0] == edges[i] && edges[i..][1..] == edges[i + 1..];
  }

  method UpdateEdges(edges: seq<Edge>, nodes: seq<Node>) returns (updated: seq<Edge>)
    ensures updated == Updated(nodes, edges)
    ensures
      var kept := Kept(nodes, edges);
      |updated| == |kept| && forall i :: 0 <= i < |kept| ==> RenamedTo(kept[i], updated[i])
  {
    var kept := DropHiddenEdges(edges, nodes);
    updated := [];
    assert kept[0..] == kept;
    for i := 0 to |kept|
      invariant updated + RenamedAll(kept[i..]) == RenamedAll(kept)
    {
      RenamedStep(kept, i, updated);
      var edge := kept[i];
      if IsMultiOutput(edge.source) {
        if Includes(edge.sourceHandle, "true") {
          edge := edge.(sourceHandle := ReplaceFirst(edge.sourceHandle, "true", '0'));
        } else if Includes(edge.sourceHandle, "false") {
          edge := edge.(sourceHandle := ReplaceFirst(edge.sourceHandle, "false", '1'));
        }
      }
      updated := updated + [edge];
    }
    assert kept[|kept|..] == [];
    RenamedAllAre(kept);
  }

  /** The word occurs at two places. */
  predicate Twice(s: string, word: string) {
    exists i :: 0 <= i < |s| && word <= s[i..] && Includes(s[i + 1..], word)
  }

  lemma IncludesStep(s: string, word: string)
    requires word != ""
    ensures Includes(s, word) <==> word <= s || (s != "" && Includes(s[1..], word))
  {
    if i :| 0 <= i <= |s| && word <= s[i..] {
      if i == 0 { assert s[0..] == s; } else { assert s[i..] == s[1..][i - 1..]; }
    }
    if word <= s { assert s[0..] == s; }
    if s != "" {
      if i :| 0 <= i <= |s[1..]| && word <= s[1..][i..] { assert s[i + 1..] == s[1..][i..]; }
    }
  }

  lemma TwiceStep(s: string, word: string)
    requires word != "" && s != ""
    ensures Twice(s, word) <==> (word <= s && Includes(s[1..], word)) || Twice(s[1..], word)
  {
    var rest := s[1..];
    if i :| 0 <= i < |s| && word <= s[i..] && Includes(s[i + 1..], word) {
      if i == 0 { assert s[0..] == s; } else { assert s[i..] == rest[i - 1..] && s[i + 1..] == rest[i..]; }
    }
    if word <= s && Includes(rest, word) { assert s[0..] == s && s[0 + 1..] == rest; }
    if i :| 0 <= i < |rest| && word <= rest[i..] && Includes(rest[i + 1..], word) {
      assert s[i + 1..] == rest[i..] && s[i + 2..] == rest[i + 1..];
    }
  }

  /** A replacement by a foreign character makes no new beginning. */
  lemma {:induction false} NoNewStart(s: string, word: string, c: char, w: string)
    requires word != "" && c !in w && w <= ReplaceFirst(s, word, c)
    ensures w <= s
    decreases |s|
  {
    var r := ReplaceFirst(s, word, c);
    if w != "" {
      assert w[0] == r[0] && w[0] in w;
      assert r[1..] == ReplaceFirst(s[1..], word, c) && w[1..] <= r[1..];
      NoNewStart(s[1..], word, c, w[1..]);
      assert w == [w[0]] + w[1..] && s == [s[0]] + s[1..];
    }
  }

  lemma {:induction false} NoNewWord(s: string, word: string, c: char, w: string)
    requires word != "" && w != "" && c !in w && Includes(ReplaceFirst(s, word, c), w)
    ensures Includes(s, w)
    decreases |s|
  {
    var r := ReplaceFirst(s, word, c);
    IncludesStep(r, w);
    IncludesStep(s, w);
    if w <= r {
      NoNewStart(s, word, c, w);
    } else if word <= s {
      assert r[1..] == s[|word|..];
      IncludesLater(s, |word|, w);
    } else {
      assert r[1..] == ReplaceFirst(s[1..], word, c);
      NoNewWord(s[1..], word, c, w);
    }
  }

  lemma IncludesLater(s: string, n: nat, w: string)
    requires n <= |s| && Includes(s[n..], w)
    ensures Includes(s, w)
  {
    var i :| 0 <= i <= |s[n..]| && w <= s[n..][i..];
    assert s[n..][i..] == s[n + i..];
  }

  lemma NotTwice(s: string)
    requires !Includes(s, "true")
    ensures !Twice(s, "true")
  {
  }

  lemma TrueBehindTrue(s: string)
    requires "true" <= s
    ensures Includes(s[1..], "true") <==> Includes(s[4..], "true")
  {
    assert s[1..][1..] == s[2..] && s[2..][1..] == s[3..] && s[3..][1..] == s[4..];
    assert s[1] == "true"[1] && s[2] == "true"[2] && s[3] == "true"[3];
    IncludesStep(s[1..], "true");
    IncludesStep(s[2..], "true");
    IncludesStep(s[3..], "true");
  }

  /** The text begins with the word: it is there twice exactly when what follows has it. */
  lemma StillTrueBehind(s: string)
    requires "true" <= s
    ensures Twice(s, "true") <==> Includes(s[4..], "true")
  {
    TwiceStep(s, "true");
    TrueBehindTrue(s);
    if !Includes(s[1..], "true") { NotTwice(s[1..]); }
  }

  lemma NoTrueInFront(s: string)
    requires !("true" <= s)
    ensures !("true" <= ReplaceFirst(s, "true", '0'))
  {
    var r := ReplaceFirst(s, "true", '0');
    if "true" <= r { NoNewStart(s, "true", '0', "true"); }
  }

  /** After the first `true` is renamed, there is still one exactly when there were two. */
  lemma {:induction false} StillTrue(s: string)
    ensures Includes(ReplaceFirst(s, "true", '0'), "true") <==> Twice(s, "true")
    decreases |s|
  {
    var r := ReplaceFirst(s, "true", '0');
    if s == "" {
    } else {
      IncludesStep(r, "true");
      if "true" <= s {
        StillTrueBehind(s);
        assert r[1..] == s[4..] && r[0] == '0';
      } else {
        NoTrueInFront(s);
        TwiceStep(s, "true");
        StillTrue(s[1..]);
        assert r[1..] == ReplaceFirst(s[1..], "true", '0');
      }
    }
  }

  /** A renamed edge counts as an approved branch exactly when it did and had a second `true`, or kept its name. */
  lemma RenamedTrue(e: Edge)
    ensures Includes(Renamed(e).sourceHandle, "true") <==>
      if IsMultiOutput(e.source) then Twice(e.sourceHandle, "true") else Includes(e.sourceHandle, "true")
  {
    var h := e.sourceHandle;
    if IsMultiOutput(e.source) {
      if Includes(h, "true") {
        StillTrue(h);
      } else {
        NotTwice(h);
        if Includes(h, "false") && Includes(Renamed(e).sourceHandle, "true") { NoNewWord(h, "false", '1', "true"); }
      }
    }
  }

  /** The word occurs at `i` and nowhere before. */
  predicate FirstAt(s: string, word: string, i: nat) {
    i <= |s| && word <= s[i..] && forall j :: 0 <= j < i ==> !(word <= s[j..])
  }

  lemma {:induction false} ReplacedAt(s: string, word: string, c: char, i: nat)
    requires word != "" && FirstAt(s, word, i)
    ensures i + |word| <= |s| && ReplaceFirst(s, word, c) == s[..i] + [c] + s[i + |word|..]
    decreases |s|
  {
    if i == 0 {
      assert s[0..] == s && s[..0] == "" && "" + [c] == [c];
    } else {
      var rest := s[1..];
      assert s[0..] == s && rest[i - 1..] == s[i..];
      forall j | 0 <= j < i - 1 ensures !(word <= rest[j..]) { assert rest[j..] == s[j + 1..]; }
      ReplacedAt(rest, word, c, i - 1);
      assert [s[0]] + rest[..i - 1] == s[..i] && rest[i - 1 + |word|..] == s[i + |word|..];
      Regroup(s[0], rest[..i - 1], c, s[i + |word|..]);
    }
  }

  lemma Regroup(first: char, a: string, c: char, b: string)
    ensures [first] + (a + [c] + b) == ([first] + a) + [c] + b
  {
  }

  lemma ReplacedIn(before: string, word: string, behind: string, c: char)
    requires word != "" && FirstAt(before + word + behind, word, |before|)
    ensures ReplaceFirst(before + word + behind, word, c) == before + [c] + behind
  {
    var s := before + word + behind;
    ReplacedAt(s, word, c, |before|);
    assert s[..|before|] == before && s[|before| + |word|..] == behind;
  }

  lemma FirstAtIncludes(s: string, word: string, i: nat)
    requires word != ""
    ensures FirstAt(s, word, i) ==> Includes(s, word)
  {
  }

  /** The first edge with its handle renamed: the first `true` is now `0`, else the first `false` is now `1`. */
  ghost predicate RenamedTo(e: Edge, r: Edge) {
    var gate := exists word :: word in {"conditionAgentflow", "conditionAgentAgentflow", "humanInputAgentflow"} && Includes(e.source, word);
    var h := e.sourceHandle;
    r.source == e.source && r.target == e.target &&
    (!gate || !(Includes(h, "true") || Includes(h, "false")) ==> r == e) &&
    (gate ==> forall i: nat :: FirstAt(h, "true", i) ==> i + 4 <= |h| && r.sourceHandle == h[..i] + "0" + h[i + 4..]) &&
    (gate && !Includes(h, "true") ==> forall i: nat :: FirstAt(h, "false", i) ==> i + 5 <= |h| && r.sourceHandle == h[..i] + "1" + h[i + 5..])
  }

  lemma RenamedIs(e: Edge)
    ensures RenamedTo(e, Renamed(e))
  {
    var h := e.sourceHandle;
    var words := {"conditionAgentflow", "conditionAgentAgentflow", "humanInputAgentflow"};
    assert IsMultiOutput(e.source) <==> exists word :: word in words && Includes(e.source, word) by {
      assert "conditionAgentflow" in words && "conditionAgentAgentflow" in words && GATE in words;
    }
    forall i: nat | FirstAt(h, "true", i) ensures i + 4 <= |h| && ReplaceFirst(h, "true", '0') == h[..i] + "0" + h[i + 4..] {
      ReplacedAt(h, "true", '0', i);
    }
    forall i: nat | FirstAt(h, "false", i) ensures i + 5 <= |h| && ReplaceFirst(h, "false", '1') == h[..i] + "1" + h[i + 5..] {
      ReplacedAt(h, "false", '1', i);
    }
  }

  /** Every edge left comes back renamed, in order. */
  lemma {:induction false} RenamedAllAre(edges: seq<Edge>)
    ensures |RenamedAll(edges)| == |edges| && forall i :: 0 <= i < |edges| ==> RenamedTo(edges[i], RenamedAll(edges)[i])
    decreases |edges|
  {
    if edges != [] {
      RenamedIs(edges[0]);
      RenamedAllAre(edges[1..]);
      forall i | 0 < i < |edges| ensures RenamedTo(edges[i], RenamedAll(edges)[i]) { assert edges[i] == edges[1..][i - 1]; }
    }
  }

  /** The approved and the rejected branch of a gate leave it by different handles. */
  lemma BranchesStayApart(approved: Edge, rejected: Edge, before: string, behind: string)
    requires IsMultiOutput(approved.source) && rejected.source == approved.source
    requires approved.sourceHandle == before + "true" + behind && FirstAt(approved.sourceHandle, "true", |before|)
    requires rejected.sourceHandle == before + "false" + behind && FirstAt(rejected.sourceHandle, "false", |before|)
    requires !Includes(rejected.sourceHandle, "true")
    ensures Renamed(approved).sourceHandle == before + "0" + behind && Renamed(rejected).sourceHandle == before + "1" + behind
    ensures Renamed(approved).sourceHandle != Renamed(rejected).sourceHandle
  {
    FirstAtIncludes(approved.sourceHandle, "true", |before|);
    FirstAtIncludes(rejected.sourceHandle, "false", |before|);
    ReplacedIn(before, "true", behind, '0');
    ReplacedIn(before, "false", behind, '1');
    assert (before + "0" + behind)[|before|] != (before + "1" + behind)[|before|];
  }

  // ---------------------------------------------------------------- tools do not matter

  lemma {:induction false} FindOnSkeleton(a: seq<Node>, b: seq<Node>, id: string)
    requires SameSkeleton(a, b)
    ensures
      var x, y := Find(a, id), Find(b, id);
      (x.Some? <==> y.Some?) && (x.Some? ==> SameButTools(x.value, y.value))
    decreases |a|
  {
    if a != [] && a[0].id != id {
      assert SameSkeleton(a[1..], b[1..]);
      FindOnSkeleton(a[1..], b[1..], id);
    }
  }

  lemma {:induction false} KeptOnSkeleton(a: seq<Node>, b: seq<Node>, edges: seq<Edge>)
    requires SameSkeleton(a, b)
    ensures KnownEdges(a, edges) == KnownEdges(b, edges) && Survivors(a, edges) == Survivors(b, edges)
    decreases |edges|
  {
    if edges != [] {
      FindOnSkeleton(a, b, edges[0].source);
      FindOnSkeleton(a, b, edges[0].target);
      KeptOnSkeleton(a, b, edges[1..]);
    }
  }

  lemma UpdatedOnSkeleton(a: seq<Node>, b: seq<Node>, edges: seq<Edge>)
    requires SameSkeleton(a, b)
    ensures Kept(a, edges) == Kept(b, edges) && Updated(a, edges) == Updated(b, edges)
  {
    KeptOnSkeleton(a, b, edges);
    KeptOnSkeleton(a, b, KnownEdges(a, edges));
  }
}
