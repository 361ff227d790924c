/**
 Tool selection for a generated flow: `generateSelectedTools` rewrites the nodes in array order
 while `findProposingAgentTools` reads them, and `validateAndRepairFlow` checks the outcome.
 The language model is an arbitrary oracle.
 */
module FlowGenerator {
  import opened Common
  import opened FlowOrder
  import opened FlowSearch

  /** The model's answer for the node at an index: a list of tool names, or nothing usable. */
  type Oracle = nat -> Option<seq<string>>

  /** The node at index `i` after its turn in the loop. */
  function Selected(nodes: seq<Node>, edges: seq<Edge>, oracle: Oracle, i: nat): Node
    requires i < |nodes|
  {
    var node := nodes[i];
    var proposing := ProposingTools(node.id, nodes, edges);
    var answer := oracle(i);
    if node.name == AGENT then
      if proposing != [] then node.(agentTools := node.agentTools + proposing)
      else if answer.Some? then node.(agentTools := node.agentTools + answer.value)
      else node
    else if node.name == TOOL then
      if |proposing| == 1 then node.(boundTool := Some(proposing[0]))
      else if answer.Some? && answer.value != [] then node.(boundTool := Some(answer.value[0]))
      else node
    else node
  }

  /** The nodes when the first `i` of them have had their turn. */
  function After(nodes: seq<Node>, edges: seq<Edge>, oracle: Oracle, i: nat): (r: seq<Node>)
    requires i <= |nodes|
    ensures |r| == |nodes|
  {
    if i == 0 then nodes
    else
      var before := After(nodes, edges, oracle, i - 1);
      before[i - 1 := Selected(before, edges, oracle, i - 1)]
  }

  /** The source's loop, writing into the node array. */
  method GenerateSelectedTools(nodes: array<Node>, edges: seq<Edge>, oracle: Oracle)
    modifies nodes
    ensures nodes[..] == After(old(nodes[..]), edges, oracle, nodes.Length)
  {
    for i := 0 to nodes.Length
      invariant nodes[..] == After(old(nodes[..]), edges, oracle, i)
    {
      ghost var before := nodes[..];
      var node := nodes[i];
      if node.name == AGENT {
        var proposing, _ := FindProposingAgentTools(node, nodes[..], edges);
        if |proposing| > 0 {
          nodes[i] := node.(agentTools := node.agentTools + proposing);
        } else {
          var tools := oracle(i);
          if tools.Some? && |tools.value| > 0 {
            nodes[i] := node.(agentTools := node.agentTools + tools.value);
          }
        }
      } else if node.name == TOOL {
        var proposing, _ := FindProposingAgentTools(node, nodes[..], edges);
        if |proposing| == 1 {
          nodes[i] := node.(boundTool := Some(proposing[0]));
        } else {
          var tools := oracle(i);
          if tools.Some? && |tools.value| > 0 {
            nodes[i] := node.(boundTool := Some(tools.value[0]));
          }
        }
      }
      EmptyAnswer(before, edges, oracle, i);
      assert nodes[..] == before[i := Selected(before, edges, oracle, i)];
    }
  }

  lemma EmptyAnswer(nodes: seq<Node>, edges: seq<Edge>, oracle: Oracle, i: nat)
    requires i < |nodes|
    ensures oracle(i) == Some([]) && nodes[i].name == AGENT && ProposingTools(nodes[i].id, nodes, edges) == [] ==>
              Selected(nodes, edges, oracle, i) == nodes[i]
  {
    assert nodes[i].agentTools + [] == nodes[i].agentTools;
  }

  // ---------------------------------------------------------------- what processing leaves alone

  lemma {:induction false} AfterKeeps(nodes: seq<Node>, edges: seq<Edge>, oracle: Oracle, i: nat, j: nat)
    requires i <= j <= |nodes|
    ensures
      var a, b := After(nodes, edges, oracle, i), After(nodes, edges, oracle, j);
      SameSkeleton(a, b) && forall k :: 0 <= k < |nodes| && (k < i || j <= k) ==> a[k] == b[k]
    decreases j - i
  {
    if i < j { AfterKeeps(nodes, edges, oracle, i, j - 1); }
  }

  /** What can be reached backwards from `from` in the graph without `start`. */
  ghost function Reached(edges: seq<Edge>, start: string, from: string): iset<string> {
    iset v: string | IsReached(edges, start, from, v)
  }

  lemma ReachedIsClosed(edges: seq<Edge>, start: string, from: string)
    ensures from == start || from in Reached(edges, start, from)
    ensures forall e :: e in edges && e.target in Reached(edges, start, from) ==> e.source == start || e.source in Reached(edges, start, from)
  {
    assert from != start ==> Within(edges, start, from, 0, from);
    forall e | e in edges && e.target in Reached(edges, start, from) && e.source != start
      ensures e.source in Reached(edges, start, from)
    {
      var n: nat :| Within(edges, start, from, n, e.target);
      assert Within(edges, start, from, n + 1, e.source);
    }
  }

  /** The walk depends only on the nodes it can reach. */
  lemma {:induction false} WalkAgrees(a: seq<Node>, b: seq<Node>, edges: seq<Edge>, start: string, reached: iset<string>, visited: set<string>, queue: seq<string>)
    requires start in visited && forall v :: v in queue ==> v == start || v in reached
    requires forall e :: e in edges && e.target in reached ==> e.source == start || e.source in reached
    requires forall v :: v in reached ==> ToolsOf(a, v) == ToolsOf(b, v)
    ensures Walk(a, edges, visited, queue) == Walk(b, edges, visited, queue)
    decreases |queue| + Unfollowed(edges, visited)
  {
    if queue != [] {
      var id := queue[0];
      if id in visited {
        WalkAgrees(a, b, edges, start, reached, visited, queue[1..]);
      } else if ToolsOf(a, id) == [] {
        FollowOnce(edges, visited, id);
        SourcesAre(edges, id);
        WalkAgrees(a, b, edges, start, reached, visited + {id}, queue[1..] + Sources(edges, id));
      }
    }
  }

  // ---------------------------------------------------------------- order

  /** Node `i` passes the shape test, and the agent `j` behind it in the array is reached from it backwards. */
  ghost predicate LateAgent(nodes: seq<Node>, edges: seq<Edge>, i: nat, j: nat, n: nat) {
    i < j < |nodes| && nodes[j].name == AGENT && Latest(nodes, j) &&
    var inbound := FirstInbound(edges, nodes[i].id);
    inbound.Some? && HasShape(nodes, inbound.value) && Within(edges, nodes[i].id, inbound.value.source, n, nodes[j].id)
  }

  /** No agent that node `i` can see stands behind it; other nodes, and cycles, do not matter. */
  ghost predicate Settled(nodes: seq<Node>, edges: seq<Edge>, i: nat) {
    forall j: nat, n: nat :: !LateAgent(nodes, edges, i, j, n)
  }

  lemma LateInBoth(a: seq<Node>, b: seq<Node>, edges: seq<Edge>, i: nat, j: nat, n: nat)
    requires SameSkeleton(a, b) && LateAgent(a, edges, i, j, n)
    ensures LateAgent(b, edges, i, j, n)
  {
    LatestInBoth(a, b, j);
    SameShapeTest(a, b, FirstInbound(edges, a[i].id).value);
  }

  /** Whether a node is settled is a matter of ids, names, edges and positions alone. */
  lemma SettledInBoth(a: seq<Node>, b: seq<Node>, edges: seq<Edge>, i: nat)
    requires SameSkeleton(a, b) && i < |a|
    ensures Settled(a, edges, i) <==> Settled(b, edges, i)
  {
    forall j: nat, n: nat ensures LateAgent(a, edges, i, j, n) <==> LateAgent(b, edges, i, j, n) {
      if LateAgent(a, edges, i, j, n) { LateInBoth(a, b, edges, i, j, n); }
      if LateAgent(b, edges, i, j, n) { LateInBoth(b, a, edges, i, j, n); }
    }
  }

  /** What a settled node sees does not depend on the nodes from its own index on. */
  lemma SeesOnlyEarlier(a: seq<Node>, b: seq<Node>, edges: seq<Edge>, i: nat)
    requires SameSkeleton(a, b) && i < |a| && Settled(a, edges, i)
    requires forall k :: 0 <= k < i ==> a[k] == b[k]
    ensures ProposingTools(a[i].id, a, edges) == ProposingTools(a[i].id, b, edges)
  {
    var id := a[i].id;
    var inbound := FirstInbound(edges, id);
    if inbound.Some? {
      SameShapeTest(a, b, inbound.value);
      if HasShape(a, inbound.value) {
        var from := inbound.value.source;
        var reached := Reached(edges, id, from);
        forall v | v in reached ensures ToolsOf(a, v) == ToolsOf(b, v) {
          var n: nat :| Within(edges, id, from, n, v);
          forall k: nat | k < |a| && Latest(a, k) && a[k].id == v && a[k].name == AGENT ensures a[k] == b[k] {
            assert v != id;
            assert !LateAgent(a, edges, i, k, n);
          }
          ToolsAgree(a, b, v);
        }
        ReachedIsClosed(edges, id, from);
        WalkAgrees(a, b, edges, id, reached, {id}, [from]);
      }
    }
  }

  /** What node `i` saw on its turn is what the finished flow shows. */
  ghost predicate FinalOnTurn(nodes: seq<Node>, edges: seq<Edge>, oracle: Oracle, i: nat)
    requires i < |nodes|
  {
    ProposingTools(nodes[i].id, After(nodes, edges, oracle, i), edges) ==
    ProposingTools(nodes[i].id, After(nodes, edges, oracle, |nodes|), edges)
  }

  /** Every later turn leaves the proposing tools of a settled node as they were on its turn. */
  lemma ProposalsAreFinal(nodes: seq<Node>, edges: seq<Edge>, oracle: Oracle, i: nat)
    requires i < |nodes| && Settled(nodes, edges, i)
    ensures FinalOnTurn(nodes, edges, oracle, i)
  {
    var onTurn, final := After(nodes, edges, oracle, i), After(nodes, edges, oracle, |nodes|);
    AfterKeeps(nodes, edges, oracle, 0, i);
    AfterKeeps(nodes, edges, oracle, i, |nodes|);
    SettledInBoth(nodes, onTurn, edges, i);
    SeesOnlyEarlier(onTurn, final, edges, i);
  }

  // ---------------------------------------------------------------- the converse

  /** No agent has selected a tool yet. */
  ghost predicate Untooled(nodes: seq<Node>) { forall k :: 0 <= k < |nodes| ==> nodes[k].agentTools == [] }

  lemma {:induction false} UntooledWalk(nodes: seq<Node>, edges: seq<Edge>, visited: set<string>, queue: seq<string>)
    requires Untooled(nodes)
    ensures Walk(nodes, edges, visited, queue) == []
    decreases |queue| + Unfollowed(edges, visited)
  {
    if queue != [] {
      var id := queue[0];
      if id in visited {
        UntooledWalk(nodes, edges, visited, queue[1..]);
      } else {
        if NodeById(nodes, id).Some? { var k := NodeByIdFinds(nodes, id); }
        FollowOnce(edges, visited, id);
        UntooledWalk(nodes, edges, visited + {id}, queue[1..] + Sources(edges, id));
      }
    }
  }

  /** The model answers nothing, except one tool for the node at `j`. */
  function OnlyFor(j: nat, tool: string): Oracle { k => if k == j then Some([tool]) else None }

  lemma UntooledSees(nodes: seq<Node>, edges: seq<Edge>, id: string)
    requires Untooled(nodes)
    ensures ProposingTools(id, nodes, edges) == []
  {
    var inbound := FirstInbound(edges, id);
    if inbound.Some? { UntooledWalk(nodes, edges, {id}, [inbound.value.source]); }
  }

  lemma {:induction false} SilentUntil(nodes: seq<Node>, edges: seq<Edge>, j: nat, tool: string, k: nat)
    requires Untooled(nodes) && k <= j < |nodes|
    ensures After(nodes, edges, OnlyFor(j, tool), k) == nodes
    decreases k
  {
    if k > 0 {
      SilentUntil(nodes, edges, j, tool, k - 1);
      UntooledSees(nodes, edges, nodes[k - 1].id);
      assert Selected(nodes, edges, OnlyFor(j, tool), k - 1) == nodes[k - 1];
    }
  }

  lemma ToolIsSelected(nodes: seq<Node>, edges: seq<Edge>, j: nat, tool: string)
    requires Untooled(nodes) && j < |nodes| && nodes[j].name == AGENT
    ensures Selected(nodes, edges, OnlyFor(j, tool), j) == nodes[j].(agentTools := [tool])
  {
    UntooledSees(nodes, edges, nodes[j].id);
    var none: seq<string> := [];
    assert none + [tool] == [tool];
  }

  lemma ToolArrives(nodes: seq<Node>, edges: seq<Edge>, j: nat, tool: string)
    requires Untooled(nodes) && j < |nodes| && nodes[j].name == AGENT && Latest(nodes, j) && tool != ""
    ensures ToolsOf(After(nodes, edges, OnlyFor(j, tool), |nodes|), nodes[j].id) == [tool]
  {
    var oracle := OnlyFor(j, tool);
    var final := After(nodes, edges, oracle, |nodes|);
    SilentUntil(nodes, edges, j, tool, j);
    ToolIsSelected(nodes, edges, j, tool);
    FinalNode(nodes, edges, oracle, j);
    AfterKeeps(nodes, edges, oracle, 0, |nodes|);
    LatestInBoth(nodes, final, j);
    NodeByIdAt(final, j);
    OneTool(tool);
  }

  /** A late agent makes a node's proposals change: nothing on its turn, a tool in the finished flow. */
  lemma LateAgentShows(nodes: seq<Node>, edges: seq<Edge>, i: nat, j: nat, n: nat)
    requires Untooled(nodes) && LateAgent(nodes, edges, i, j, n)
    ensures !FinalOnTurn(nodes, edges, OnlyFor(j, "x"), i)
  {
    var oracle, id := OnlyFor(j, "x"), nodes[i].id;
    var final, inbound := After(nodes, edges, oracle, |nodes|), FirstInbound(edges, id);
    SilentUntil(nodes, edges, j, "x", i);
    UntooledWalk(nodes, edges, {id}, [inbound.value.source]);
    ToolArrives(nodes, edges, j, "x");
    AfterKeeps(nodes, edges, oracle, 0, |nodes|);
    SameShapeTest(nodes, final, inbound.value);
    EmptyExactlyWhen(id, final, edges);
  }

  /**
   From agents without tools, what a node sees on its turn is final for every answer of the model if and
   only if no agent that it can reach backwards stands behind it in the array.
   */
  lemma FinalExactlyWhen(nodes: seq<Node>, edges: seq<Edge>, i: nat)
    requires i < |nodes| && Untooled(nodes)
    ensures (forall oracle: Oracle :: FinalOnTurn(nodes, edges, oracle, i)) <==> Settled(nodes, edges, i)
  {
    if Settled(nodes, edges, i) {
      forall oracle: Oracle ensures FinalOnTurn(nodes, edges, oracle, i) { ProposalsAreFinal(nodes, edges, oracle, i); }
    } else {
      var j: nat, n: nat :| LateAgent(nodes, edges, i, j, n);
      LateAgentShows(nodes, edges, i, j, n);
    }
  }

  /** What was selected before the loop does not change the answer: it is the same over all starting tools. */
  lemma FinalFromAnyTools(nodes: seq<Node>, edges: seq<Edge>, i: nat)
    requires i < |nodes|
    ensures
      (forall start: seq<Node>, oracle: Oracle :: SameSkeleton(nodes, start) ==> FinalOnTurn(start, edges, oracle, i)) <==>
      Settled(nodes, edges, i)
  {
    if Settled(nodes, edges, i) {
      forall start: seq<Node>, oracle: Oracle | SameSkeleton(nodes, start) ensures FinalOnTurn(start, edges, oracle, i) {
        SettledInBoth(nodes, start, edges, i);
        ProposalsAreFinal(start, edges, oracle, i);
      }
    } else {
      var bare := seq(|nodes|, k requires 0 <= k < |nodes| => nodes[k].(agentTools := []));
      FinalExactlyWhen(bare, edges, i);
      if Settled(bare, edges, i) { SettledInBoth(bare, nodes, edges, i); }
      assert SameSkeleton(nodes, bare);
    }
  }

  /** A node's only change is the one on its turn. */
  lemma FinalNode(nodes: seq<Node>, edges: seq<Edge>, oracle: Oracle, i: nat)
    requires i < |nodes|
    ensures
      var onTurn, final := After(nodes, edges, oracle, i), After(nodes, edges, oracle, |nodes|);
      onTurn[i] == nodes[i] && final[i] == Selected(onTurn, edges, oracle, i)
  {
    AfterKeeps(nodes, edges, oracle, 0, i);
    AfterKeeps(nodes, edges, oracle, i + 1, |nodes|);
  }

  /** The model's answer, or no tools. */
  function Answer(oracle: Oracle, i: nat): seq<string> { if oracle(i).Some? then oracle(i).value else [] }

  /**
   What the finished flow shows decides a settled node: an agent has its own tools followed by those it can reuse,
   or failing these by the answer; a tool node has the only tool it can reuse, or failing that the first answer.
   */
  lemma SettledNodeIs(nodes: seq<Node>, edges: seq<Edge>, oracle: Oracle, i: nat)
    requires i < |nodes| && Settled(nodes, edges, i)
    ensures
      var final := After(nodes, edges, oracle, |nodes|);
      var reused, answer := ProposingTools(nodes[i].id, final, edges), Answer(oracle, i);
      final[i] ==
        if nodes[i].name == AGENT then nodes[i].(agentTools := nodes[i].agentTools + if reused == [] then answer else reused)
        else if nodes[i].name == TOOL && |reused| == 1 then nodes[i].(boundTool := Some(reused[0]))
        else if nodes[i].name == TOOL && answer != [] then nodes[i].(boundTool := Some(answer[0]))
        else nodes[i]
  {
    FinalNode(nodes, edges, oracle, i);
    ProposalsAreFinal(nodes, edges, oracle, i);
    assert nodes[i].agentTools + [] == nodes[i].agentTools;
  }
}
