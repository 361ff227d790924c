/**
 The generated flow from its tools to its warnings: `generateSelectedTools` reads the edges as they
 were drawn, `updateEdges` drops and renames some, and check 2 of `validateAndRepairFlow` repeats the
 search on what is left.
 */
module FlowCheck {
  import opened Common
  import opened FlowEdges
  import opened FlowGenerator
  import opened FlowOrder
  import opened FlowSearch

  // ---------------------------------------------------------------- check 2

  /** The bound tool is not among the tools its proposing agent selected. */
  predicate Mismatched(nodes: seq<Node>, edges: seq<Edge>, i: nat)
    requires i < |nodes|
  {
    var node := nodes[i];
    var proposing := ProposingTools(node.id, nodes, edges);
    node.name == TOOL && proposing != [] && node.boundTool.Some? && node.boundTool.value != "" &&
    node.boundTool.value !in proposing
  }

  /** The positions below `n` that are flagged. */
  function Flagged(flags: seq<bool>, n: nat): seq<nat>
    requires n <= |flags|
  {
    if n == 0 then [] else Flagged(flags, n - 1) + if flags[n - 1] then [n - 1] else []
  }

  function Mismatches(nodes: seq<Node>, edges: seq<Edge>): seq<bool> {
    seq(|nodes|, i requires 0 <= i < |nodes| => Mismatched(nodes, edges, i))
  }

  /** Check 2 of the validator: the indices of the tool nodes it warns about. */
  method MismatchWarnings(nodes: seq<Node>, edges: seq<Edge>) returns (warnings: seq<nat>)
    ensures warnings == Flagged(Mismatches(nodes, edges), |nodes|)
  {
    warnings := [];
    for i := 0 to |nodes|
      invariant warnings == Flagged(Mismatches(nodes, edges), i)
    {
      var node := nodes[i];
      if node.name != TOOL { continue; }
      var proposing, _ := FindProposingAgentTools(node, nodes, edges);
      if |proposing| > 0 && node.boundTool.Some? && node.boundTool.value != "" && node.boundTool.value !in proposing {
        warnings := warnings + [i];
      }
    }
  }

  lemma {:induction false} FlaggedIff(flags: seq<bool>, n: nat)
    requires n <= |flags|
    ensures forall i: nat :: i in Flagged(flags, n) <==> i < n && flags[i]
    decreases n
  {
    if n > 0 { FlaggedIff(flags, n - 1); }
  }

  lemma WarnedIffMismatched(nodes: seq<Node>, edges: seq<Edge>)
    ensures forall i: nat :: i in Flagged(Mismatches(nodes, edges), |nodes|) <==> i < |nodes| && Mismatched(nodes, edges, i)
  {
    var flags := Mismatches(nodes, edges);
    FlaggedIff(flags, |nodes|);
    forall i: nat | i < |nodes| ensures flags[i] == Mismatched(nodes, edges, i) {}
  }

  /** Tools are selected, edges updated, and the flow is checked on the updated edges. */
  method GenerateFlow(nodes: array<Node>, edges: seq<Edge>, oracle: Oracle) returns (updated: seq<Edge>, warnings: seq<nat>)
    modifies nodes
    ensures nodes[..] == After(old(nodes[..]), edges, oracle, nodes.Length)
    ensures updated == Updated(nodes[..], edges)
    ensures forall i: nat :: i in warnings <==> i < nodes.Length && Mismatched(nodes[..], updated, i)
  {
    GenerateSelectedTools(nodes, edges, oracle);
    updated := UpdateEdges(edges, nodes[..]);
    warnings := MismatchWarnings(nodes[..], updated);
    WarnedIffMismatched(nodes[..], updated);
  }

  // ---------------------------------------------------------------- the search on updated edges

  lemma {:induction false} RenamedSources(edges: seq<Edge>, id: string)
    ensures Sources(RenamedAll(edges), id) == Sources(edges, id)
    ensures
      var before, after := FirstInbound(edges, id), FirstInbound(RenamedAll(edges), id);
      if before.None? then after.None? else after == Some(Renamed(before.value))
    decreases |edges|
  {
    if edges != [] {
      var rest := RenamedAll(edges[1..]);
      assert ([Renamed(edges[0])] + rest)[1..] == rest;
      RenamedSources(edges[1..], id);
    }
  }

  lemma {:induction false} RenamedUnfollowed(edges: seq<Edge>, visited: set<string>)
    ensures Unfollowed(RenamedAll(edges), visited) == Unfollowed(edges, visited)
    decreases |edges|
  {
    if edges != [] {
      var rest := RenamedAll(edges[1..]);
      assert ([Renamed(edges[0])] + rest)[1..] == rest;
      RenamedUnfollowed(edges[1..], visited);
    }
  }

  /** A walk never looks at handles. */
  lemma {:induction false} RenamedOrder(nodes: seq<Node>, edges: seq<Edge>, visited: set<string>, queue: seq<string>)
    ensures Order(nodes, RenamedAll(edges), visited, queue) == Order(nodes, edges, visited, queue)
    decreases |queue| + Unfollowed(edges, visited)
  {
    if queue != [] {
      var id := queue[0];
      if id in visited {
        RenamedOrder(nodes, edges, visited, queue[1..]);
      } else {
        FollowOnce(edges, visited, id);
        RenamedSources(edges, id);
        RenamedOrder(nodes, edges, visited + {id}, queue[1..] + Sources(edges, id));
      }
    }
  }

  /** The first edge left into the node passes the shape test under its new handle. */
  predicate StillFed(nodes: seq<Node>, edges: seq<Edge>, id: string) {
    var inbound := FirstInbound(Kept(nodes, edges), id);
    inbound.Some? && HasShape(nodes, Renamed(inbound.value))
  }

  /** Renaming cuts a gate's approved branch off, unless its handle had two `true`s or its id hides that it is a gate. */
  lemma StillFedExactlyWhen(nodes: seq<Node>, edges: seq<Edge>, id: string)
    ensures
      var inbound := FirstInbound(Kept(nodes, edges), id);
      StillFed(nodes, edges, id) <==>
      inbound.Some? && HasShape(nodes, inbound.value) &&
      (IsAgent(nodes, inbound.value.source) || !IsMultiOutput(inbound.value.source) || Twice(inbound.value.sourceHandle, "true"))
  {
    var inbound := FirstInbound(Kept(nodes, edges), id);
    if inbound.Some? {
      RenamedTrue(inbound.value);
      if !Includes(inbound.value.sourceHandle, "true") { NotTwice(inbound.value.sourceHandle); }
    }
  }

  /** What the check's search meets: what the loop's search would meet on the edges left, or nothing after renaming. */
  lemma CheckSees(nodes: seq<Node>, edges: seq<Edge>, id: string)
    ensures
      var kept := Kept(nodes, edges);
      Seen(id, nodes, Updated(nodes, edges)) == if StillFed(nodes, edges, id) then Seen(id, nodes, kept) else []
  {
    var kept := Kept(nodes, edges);
    var inbound := FirstInbound(kept, id);
    RenamedSources(kept, id);
    StillFedExactlyWhen(nodes, edges, id);
    if inbound.Some? { RenamedOrder(nodes, kept, {id}, [inbound.value.source]); }
  }

  // ---------------------------------------------------------------- when the check warns

  /** On every flow: the bound tool is missing from the first tools that the search meets over the edges left. */
  lemma ChecksFirstTools(nodes: seq<Node>, edges: seq<Edge>, i: nat)
    requires i < |nodes|
    ensures
      var node := nodes[i];
      var tools := FirstTools(nodes, Seen(node.id, nodes, Kept(nodes, edges)));
      Mismatched(nodes, Updated(nodes, edges), i) <==>
      node.name == TOOL && StillFed(nodes, edges, node.id) && tools != [] &&
      node.boundTool.Some? && node.boundTool.value != "" && node.boundTool.value !in tools
  {
    CheckSees(nodes, edges, nodes[i].id);
    ProposesFirstTools(nodes[i].id, nodes, Updated(nodes, edges));
  }

  /** When the dropped edges do not change what a node meets, the check repeats the verdict on the loop's edges, or is silent. */
  lemma ChecksLoopEdges(nodes: seq<Node>, edges: seq<Edge>, i: nat)
    requires i < |nodes| && Seen(nodes[i].id, nodes, Kept(nodes, edges)) == Seen(nodes[i].id, nodes, edges)
    ensures Mismatched(nodes, Updated(nodes, edges), i) <==> StillFed(nodes, edges, nodes[i].id) && Mismatched(nodes, edges, i)
  {
    ChecksFirstTools(nodes, edges, i);
    ProposesFirstTools(nodes[i].id, nodes, edges);
  }

  /** A tool node behind an approval gate is never warned about, whatever tools the flow holds. */
  lemma GateFedIsSilent(nodes: seq<Node>, edges: seq<Edge>, i: nat)
    requires
      i < |nodes| &&
      var inbound := FirstInbound(Kept(nodes, edges), nodes[i].id);
      inbound.Some? && !IsAgent(nodes, inbound.value.source) &&
      Includes(inbound.value.source, GATE) && !Twice(inbound.value.sourceHandle, "true")
    ensures !Mismatched(nodes, Updated(nodes, edges), i)
  {
    StillFedExactlyWhen(nodes, edges, nodes[i].id);
    ChecksFirstTools(nodes, edges, i);
  }

  /** The verdict on a finished run. */
  ghost predicate Warned(nodes: seq<Node>, edges: seq<Edge>, oracle: Oracle, i: nat)
    requires i < |nodes|
  {
    var final := After(nodes, edges, oracle, |nodes|);
    Mismatched(final, Updated(final, edges), i)
  }

  /** On the loop's own edges: a settled tool node that saw one tool ends bound to it and still sees just that tool. */
  lemma SingleProposalIsBound(nodes: seq<Node>, edges: seq<Edge>, oracle: Oracle, i: nat)
    requires i < |nodes| && Settled(nodes, edges, i) && nodes[i].name == TOOL
    requires |ProposingTools(nodes[i].id, After(nodes, edges, oracle, i), edges)| == 1
    ensures
      var final := After(nodes, edges, oracle, |nodes|);
      var proposed := ProposingTools(nodes[i].id, After(nodes, edges, oracle, i), edges);
      final[i].boundTool == Some(proposed[0]) &&
      ProposingTools(nodes[i].id, final, edges) == proposed &&
      !Mismatched(final, edges, i)
  {
    ProposalsAreFinal(nodes, edges, oracle, i);
    FinalNode(nodes, edges, oracle, i);
  }

  /** On the loop's own edges: a settled tool node is mismatched exactly when it was offered several tools and got another. */
  lemma MismatchedOnLoopEdges(nodes: seq<Node>, edges: seq<Edge>, oracle: Oracle, i: nat)
    requires i < |nodes| && Settled(nodes, edges, i) && nodes[i].name == TOOL
    ensures
      var final := After(nodes, edges, oracle, |nodes|);
      var proposed := ProposingTools(nodes[i].id, After(nodes, edges, oracle, i), edges);
      var answer := oracle(i);
      var bound := if answer.Some? && answer.value != [] then Some(answer.value[0]) else nodes[i].boundTool;
      Mismatched(final, edges, i) <==>
        |proposed| > 1 && bound.Some? && bound.value != "" && bound.value !in proposed
  {
    ProposalsAreFinal(nodes, edges, oracle, i);
    FinalNode(nodes, edges, oracle, i);
  }

  /**
   When the dropped edges do not change the agents that a settled tool node meets, it is warned about exactly
   when it is still fed after renaming, was offered several tools and is bound to another.
   */
  lemma WarnsExactlyWhen(nodes: seq<Node>, edges: seq<Edge>, oracle: Oracle, i: nat)
    requires i < |nodes| && Settled(nodes, edges, i) && nodes[i].name == TOOL
    requires Seen(nodes[i].id, nodes, Kept(nodes, edges)) == Seen(nodes[i].id, nodes, edges)
    ensures
      var proposed := ProposingTools(nodes[i].id, After(nodes, edges, oracle, i), edges);
      var answer := oracle(i);
      var bound := if answer.Some? && answer.value != [] then Some(answer.value[0]) else nodes[i].boundTool;
      Warned(nodes, edges, oracle, i) <==>
      StillFed(nodes, edges, nodes[i].id) && |proposed| > 1 && bound.Some? && bound.value != "" && bound.value !in proposed
  {
    var final, id := After(nodes, edges, oracle, |nodes|), nodes[i].id;
    MismatchedOnLoopEdges(nodes, edges, oracle, i);
    AfterKeeps(nodes, edges, oracle, 0, |nodes|);
    StillFedOnSkeleton(nodes, final, edges, id);
    SeenOnSkeleton(nodes, final, edges, id);
    SeenOnSkeleton(nodes, final, Kept(nodes, edges), id);
    ChecksLoopEdges(final, edges, i);
  }

  lemma StillFedOnSkeleton(a: seq<Node>, b: seq<Node>, edges: seq<Edge>, id: string)
    requires SameSkeleton(a, b)
    ensures Kept(a, edges) == Kept(b, edges) && StillFed(a, edges, id) == StillFed(b, edges, id)
  {
    UpdatedOnSkeleton(a, b, edges);
    var inbound := FirstInbound(Kept(a, edges), id);
    if inbound.Some? { SameShapeTest(a, b, Renamed(inbound.value)); }
  }

  /** With every edge known and none hidden, that is the case for every node. */
  lemma NothingDropped(nodes: seq<Node>, edges: seq<Edge>, id: string)
    requires forall e :: e in edges ==> Known(nodes, e) && Visible(nodes, e)
    ensures Seen(id, nodes, Kept(nodes, edges)) == Seen(id, nodes, edges)
  {
    KeepsAllExactlyWhen(nodes, edges);
  }

  // ---------------------------------------------------------------- which nodes can be warned about

  /** After `i` turns: tools are `x`s, at least two, for every agent so far, and tool nodes so far are bound to something else. */
  ghost predicate Stocked(nodes: seq<Node>, i: nat) {
    forall k :: 0 <= k < |nodes| ==>
      (nodes[k].agentTools == [] || AllX(nodes[k].agentTools)) &&
      (k < i && nodes[k].name == AGENT ==> nodes[k].agentTools != []) && (k < i && nodes[k].name == TOOL ==> nodes[k].boundTool == Some("z"))
  }

  ghost predicate AllX(tools: seq<string>) { |tools| > 1 && forall t :: t in tools ==> t == "x" }

  lemma {:induction false} NonEmptyAll(tools: seq<string>)
    requires forall t :: t in tools ==> t != ""
    ensures NonEmpty(tools) == tools
    decreases |tools|
  {
    if tools != [] {
      assert tools == [tools[0]] + tools[1..] && tools[0] in tools;
      forall t | t in tools[1..] ensures t != "" { assert t in tools; }
      NonEmptyAll(tools[1..]);
    }
  }

  lemma StockedTools(nodes: seq<Node>, i: nat, id: string)
    requires Stocked(nodes, i)
    ensures ToolsOf(nodes, id) == [] || AllX(ToolsOf(nodes, id))
    ensures i == |nodes| && IsAgent(nodes, id) ==> ToolsOf(nodes, id) != []
  {
    if NodeById(nodes, id).Some? {
      var k := NodeByIdFinds(nodes, id);
      NonEmptyAll(nodes[k].agentTools);
    }
  }

  lemma StockedProposes(nodes: seq<Node>, edges: seq<Edge>, i: nat, id: string)
    requires Stocked(nodes, i)
    ensures
      var tools := ProposingTools(id, nodes, edges);
      (tools == [] || AllX(tools)) && (i == |nodes| && Seen(id, nodes, edges) != [] ==> tools != [])
  {
    ProposesFirstTools(id, nodes, edges);
    SeenIsDistinct(id, nodes, edges);
    var seen := Seen(id, nodes, edges);
    if seen != [] { StockedTools(nodes, i, seen[0]); }
    if ProposingTools(id, nodes, edges) != [] {
      var k := FirstToolsFrom(nodes, seen);
      StockedTools(nodes, i, seen[k]);
    }
  }

  /** Two `x`s for every agent that asks, and `z` for every tool node. */
  function Generous(nodes: seq<Node>): Oracle { (k: nat) => if k < |nodes| && nodes[k].name == AGENT then Some(["x", "x"]) else Some(["z"]) }

  lemma SameAnswer(nodes: seq<Node>, before: seq<Node>, i: nat)
    requires SameSkeleton(nodes, before) && i < |nodes|
    ensures Generous(nodes)(i) == if before[i].name == AGENT then Some(["x", "x"]) else Some(["z"])
  {
  }

  lemma {:induction false} StaysStocked(nodes: seq<Node>, edges: seq<Edge>, i: nat)
    requires Untooled(nodes) && i <= |nodes|
    ensures Stocked(After(nodes, edges, Generous(nodes), i), i)
    decreases i
  {
    if i > 0 {
      StaysStocked(nodes, edges, i - 1);
      var before := After(nodes, edges, Generous(nodes), i - 1);
      AfterKeeps(nodes, edges, Generous(nodes), 0, i - 1);
      SameAnswer(nodes, before, i - 1);
      StockedTurn(before, edges, Generous(nodes), i - 1);
    }
  }

  lemma StockedTurn(nodes: seq<Node>, edges: seq<Edge>, oracle: Oracle, i: nat)
    requires i < |nodes| && Stocked(nodes, i)
    requires oracle(i) == if nodes[i].name == AGENT then Some(["x", "x"]) else Some(["z"])
    ensures Stocked(nodes[i := Selected(nodes, edges, oracle, i)], i + 1)
  {
    StockedProposes(nodes, edges, i, nodes[i].id);
  }

  /**
   From agents without tools, the check warns about a node for some answers of the model: exactly when it is a
   tool node whose search over the updated edges meets an agent.
   */
  lemma CanWarnExactlyWhen(nodes: seq<Node>, edges: seq<Edge>, i: nat)
    requires i < |nodes| && Untooled(nodes)
    ensures
      (exists oracle: Oracle :: Warned(nodes, edges, oracle, i)) <==>
      nodes[i].name == TOOL && Seen(nodes[i].id, nodes, Updated(nodes, edges)) != []
  {
    forall oracle: Oracle | Warned(nodes, edges, oracle, i)
      ensures nodes[i].name == TOOL && Seen(nodes[i].id, nodes, Updated(nodes, edges)) != []
    {
      WarnedSees(nodes, edges, oracle, i);
    }
    if nodes[i].name == TOOL && Seen(nodes[i].id, nodes, Updated(nodes, edges)) != [] {
      GenerousIsWarned(nodes, edges, i);
    }
  }

  /** No other node is ever warned about, whatever tools it starts with. */
  lemma WarnedSees(nodes: seq<Node>, edges: seq<Edge>, oracle: Oracle, i: nat)
    requires i < |nodes| && Warned(nodes, edges, oracle, i)
    ensures nodes[i].name == TOOL && Seen(nodes[i].id, nodes, Updated(nodes, edges)) != []
  {
    var final := After(nodes, edges, oracle, |nodes|);
    AfterKeeps(nodes, edges, oracle, 0, |nodes|);
    UpdatedOnSkeleton(nodes, final, edges);
    SeenOnSkeleton(nodes, final, Updated(nodes, edges), nodes[i].id);
    ProposesFirstTools(nodes[i].id, final, Updated(nodes, edges));
  }

  lemma GenerousIsWarned(nodes: seq<Node>, edges: seq<Edge>, i: nat)
    requires i < |nodes| && Untooled(nodes) && nodes[i].name == TOOL && Seen(nodes[i].id, nodes, Updated(nodes, edges)) != []
    ensures Warned(nodes, edges, Generous(nodes), i)
  {
    var final := After(nodes, edges, Generous(nodes), |nodes|);
    StaysStocked(nodes, edges, |nodes|);
    AfterKeeps(nodes, edges, Generous(nodes), 0, |nodes|);
    UpdatedOnSkeleton(nodes, final, edges);
    SeenOnSkeleton(nodes, final, Updated(nodes, edges), nodes[i].id);
    StockedProposes(final, Updated(nodes, edges), |nodes|, nodes[i].id);
  }

  // ---------------------------------------------------------------- the loop's search and the check's

  /** The loop and the check see the same tools, whatever tools the nodes hold, exactly when they meet the same agents in the same order. */
  lemma SeesTheSameExactlyWhen(nodes: seq<Node>, edges: seq<Edge>, id: string)
    ensures
      (forall held: seq<Node> :: SameSkeleton(nodes, held) ==>
        ProposingTools(id, held, edges) == ProposingTools(id, held, Updated(held, edges))) <==>
      Seen(id, nodes, edges) == Seen(id, nodes, Updated(nodes, edges))
  {
    var a, b := Seen(id, nodes, edges), Seen(id, nodes, Updated(nodes, edges));
    SeenIsDistinct(id, nodes, edges);
    SeenIsDistinct(id, nodes, Updated(nodes, edges));
    SameToolsExactlyWhen(nodes, a, b);
    forall held: seq<Node> | SameSkeleton(nodes, held)
      ensures ProposingTools(id, held, edges) == FirstTools(held, a) && ProposingTools(id, held, Updated(held, edges)) == FirstTools(held, b)
    {
      BothSearches(nodes, held, edges, id);
    }
  }

  lemma BothSearches(nodes: seq<Node>, held: seq<Node>, edges: seq<Edge>, id: string)
    requires SameSkeleton(nodes, held)
    ensures ProposingTools(id, held, edges) == FirstTools(held, Seen(id, nodes, edges))
    ensures ProposingTools(id, held, Updated(held, edges)) == FirstTools(held, Seen(id, nodes, Updated(nodes, edges)))
  {
    UpdatedOnSkeleton(nodes, held, edges);
    SeenOnSkeleton(nodes, held, edges, id);
    SeenOnSkeleton(nodes, held, Updated(nodes, edges), id);
    ProposesFirstTools(id, held, edges);
    ProposesFirstTools(id, held, Updated(held, edges));
  }

  /** The node is bound to one of the tools that the loop's search gives it. */
  ghost predicate BoundToProposed(nodes: seq<Node>, edges: seq<Edge>, i: nat)
    requires i < |nodes|
  {
    nodes[i].boundTool.Some? && nodes[i].boundTool.value in ProposingTools(nodes[i].id, nodes, edges)
  }

  /** No two agents are met in one order by the loop's search and in the other by the check's. */
  ghost predicate Aligned(nodes: seq<Node>, edges: seq<Edge>, id: string) {
    forall x, y :: !Inverted(Seen(id, nodes, edges), Seen(id, nodes, Updated(nodes, edges)), x, y)
  }

  /** Following the proposals never draws a warning, whatever tools the nodes hold, exactly when no two agents change order. */
  lemma FollowingIsSilentExactlyWhen(nodes: seq<Node>, edges: seq<Edge>, i: nat)
    requires i < |nodes| && nodes[i].name == TOOL
    ensures
      (forall held: seq<Node> :: SameSkeleton(nodes, held) && BoundToProposed(held, edges, i) ==> !Mismatched(held, Updated(held, edges), i)) <==>
      Aligned(nodes, edges, nodes[i].id)
  {
    var id := nodes[i].id;
    var a, b := Seen(id, nodes, edges), Seen(id, nodes, Updated(nodes, edges));
    SeenIsDistinct(id, nodes, edges);
    SeenIsDistinct(id, nodes, Updated(nodes, edges));
    NoContradictionExactlyWhen(nodes, a, b);
    if Aligned(nodes, edges, id) {
      forall held: seq<Node> | SameSkeleton(nodes, held) && BoundToProposed(held, edges, i) ensures !Mismatched(held, Updated(held, edges), i) {
        BothSearches(nodes, held, edges, id);
      }
    } else {
      var held: seq<Node> :| SameSkeleton(nodes, held) && Contradicts(FirstTools(held, a), FirstTools(held, b));
      var bound := Contradicted(nodes, held, edges, i);
      assert SameSkeleton(nodes, bound) && BoundToProposed(bound, edges, i) && Mismatched(bound, Updated(bound, edges), i);
    }
  }

  lemma Contradicted(nodes: seq<Node>, held: seq<Node>, edges: seq<Edge>, i: nat) returns (bound: seq<Node>)
    requires i < |nodes| && nodes[i].name == TOOL && SameSkeleton(nodes, held)
    requires
      var id := nodes[i].id;
      Contradicts(FirstTools(held, Seen(id, nodes, edges)), FirstTools(held, Seen(id, nodes, Updated(nodes, edges))))
    ensures SameSkeleton(nodes, bound) && BoundToProposed(bound, edges, i) && Mismatched(bound, Updated(bound, edges), i)
  {
    var id := nodes[i].id;
    var a, b := Seen(id, nodes, edges), Seen(id, nodes, Updated(nodes, edges));
    var t :| t in FirstTools(held, a) && t !in FirstTools(held, b);
    bound := held[i := held[i].(boundTool := Some(t))];
    SameAgentsShow(held, bound, a);
    SameAgentsShow(held, bound, b);
    BothSearches(nodes, bound, edges, id);
    FirstToolsNamed(held, a);
  }

  /** Only the tools of agents matter to a search. */
  lemma {:induction false} SameAgentsShow(a: seq<Node>, b: seq<Node>, ids: seq<string>)
    requires SameSkeleton(a, b) && forall k :: 0 <= k < |a| && a[k].name == AGENT ==> a[k].agentTools == b[k].agentTools
    ensures FirstTools(a, ids) == FirstTools(b, ids)
    decreases |ids|
  {
    if ids != [] {
      SameName(a, b, ids[0]);
      if NodeById(a, ids[0]).Some? {
        var k := NodeByIdFinds(a, ids[0]);
        LatestInBoth(a, b, k);
        NodeByIdAt(b, k);
      }
      SameAgentsShow(a, b, ids[1..]);
    }
  }

  lemma {:induction false} NonEmptyNamed(tools: seq<string>)
    ensures "" !in NonEmpty(tools)
    decreases |tools|
  {
    if tools != [] { NonEmptyNamed(tools[1..]); }
  }

  lemma {:induction false} FirstToolsNamed(nodes: seq<Node>, ids: seq<string>)
    ensures "" !in FirstTools(nodes, ids)
    decreases |ids|
  {
    if ids != [] {
      var node := NodeById(nodes, ids[0]);
      if node.Some? { NonEmptyNamed(node.value.agentTools); }
      FirstToolsNamed(nodes, ids[1..]);
    }
  }

  /** Over whole runs: a settled tool node bound to a tool it was offered on its turn is not warned about. */
  lemma FollowingRunIsSilent(nodes: seq<Node>, edges: seq<Edge>, oracle: Oracle, i: nat)
    requires i < |nodes| && nodes[i].name == TOOL && Settled(nodes, edges, i) && Aligned(nodes, edges, nodes[i].id)
    requires
      var bound := After(nodes, edges, oracle, |nodes|)[i].boundTool;
      bound.Some? && bound.value in ProposingTools(nodes[i].id, After(nodes, edges, oracle, i), edges)
    ensures !Warned(nodes, edges, oracle, i)
  {
    var final := After(nodes, edges, oracle, |nodes|);
    ProposalsAreFinal(nodes, edges, oracle, i);
    AfterKeeps(nodes, edges, oracle, 0, |nodes|);
    FollowingIsSilentExactlyWhen(nodes, edges, i);
    assert BoundToProposed(final, edges, i);
  }

  /** No agent is itself fed by an agent or a gate, so none copies tools on its turn. */
  ghost predicate NoneCopies(nodes: seq<Node>, edges: seq<Edge>) {
    forall k :: 0 <= k < |nodes| && nodes[k].name == AGENT ==> Seen(nodes[k].id, nodes, edges) == []
  }

  /** The node saw one proposed tool on its turn. */
  ghost predicate SawOne(nodes: seq<Node>, edges: seq<Edge>, oracle: Oracle, i: nat)
    requires i < |nodes|
  {
    |ProposingTools(nodes[i].id, After(nodes, edges, oracle, i), edges)| == 1
  }

  /**
   Over whole runs from agents without tools, where none copies: a settled tool node that saw one tool is never
   warned about, for any answers of the model, exactly when no two agents change order.
   */
  lemma SingleIsSilentExactlyWhen(nodes: seq<Node>, edges: seq<Edge>, i: nat)
    requires i < |nodes| && nodes[i].name == TOOL && Settled(nodes, edges, i) && Untooled(nodes) && NoneCopies(nodes, edges)
    ensures
      (forall oracle: Oracle :: SawOne(nodes, edges, oracle, i) ==> !Warned(nodes, edges, oracle, i)) <==>
      Aligned(nodes, edges, nodes[i].id)
  {
    var id := nodes[i].id;
    if Aligned(nodes, edges, id) {
      forall oracle: Oracle | SawOne(nodes, edges, oracle, i) ensures !Warned(nodes, edges, oracle, i) {
        SingleProposalIsBound(nodes, edges, oracle, i);
        FollowingRunIsSilent(nodes, edges, oracle, i);
      }
    } else {
      var x, y :| Inverted(Seen(id, nodes, edges), Seen(id, nodes, Updated(nodes, edges)), x, y);
      InvertedIsWarned(nodes, edges, i, x, y);
    }
  }

  /** One tool for each agent in `tools`, and no answer to anyone else. */
  function Answers(nodes: seq<Node>, tools: map<string, string>): Oracle {
    (k: nat) => if k < |nodes| && nodes[k].name == AGENT && nodes[k].id in tools then Some([tools[nodes[k].id]]) else None
  }

  /** Agents that do not copy end with the tools that the model gives them. */
  lemma AnswersArrive(nodes: seq<Node>, edges: seq<Edge>, tools: map<string, string>, k: nat)
    requires Untooled(nodes) && NoneCopies(nodes, edges) && k < |nodes| && nodes[k].name == AGENT
    ensures After(nodes, edges, Answers(nodes, tools), |nodes|)[k].agentTools == Equipped(nodes, tools)[k].agentTools
  {
    var oracle := Answers(nodes, tools);
    var onTurn := After(nodes, edges, oracle, k);
    FinalNode(nodes, edges, oracle, k);
    AfterKeeps(nodes, edges, oracle, 0, k);
    SeenOnSkeleton(nodes, onTurn, edges, nodes[k].id);
    ProposesFirstTools(nodes[k].id, onTurn, edges);
    if nodes[k].id in tools {
      var none: seq<string> := [];
      assert none + [tools[nodes[k].id]] == [tools[nodes[k].id]];
    }
  }

  /** One tool for each of the two agents: the loop binds the node to the first, and the check finds the second. */
  lemma InvertedIsWarned(nodes: seq<Node>, edges: seq<Edge>, i: nat, x: string, y: string)
    requires i < |nodes| && nodes[i].name == TOOL && Settled(nodes, edges, i) && Untooled(nodes) && NoneCopies(nodes, edges)
    requires Inverted(Seen(nodes[i].id, nodes, edges), Seen(nodes[i].id, nodes, Updated(nodes, edges)), x, y)
    ensures
      var oracle := Answers(nodes, map[x := "x", y := "y"]);
      SawOne(nodes, edges, oracle, i) && Warned(nodes, edges, oracle, i)
  {
    var id, tools := nodes[i].id, map[x := "x", y := "y"];
    var oracle := Answers(nodes, tools);
    var final := After(nodes, edges, oracle, |nodes|);
    InvertedShows(nodes, edges, id, x, y);
    AfterKeeps(nodes, edges, oracle, 0, |nodes|);
    BothSearches(nodes, final, edges, id);
    ProposalsAreFinal(nodes, edges, oracle, i);
    SingleProposalIsBound(nodes, edges, oracle, i);
  }

  lemma InvertedShows(nodes: seq<Node>, edges: seq<Edge>, id: string, x: string, y: string)
    requires Untooled(nodes) && NoneCopies(nodes, edges)
    requires Inverted(Seen(id, nodes, edges), Seen(id, nodes, Updated(nodes, edges)), x, y)
    ensures
      var final := After(nodes, edges, Answers(nodes, map[x := "x", y := "y"]), |nodes|);
      FirstTools(final, Seen(id, nodes, edges)) == ["x"] && FirstTools(final, Seen(id, nodes, Updated(nodes, edges))) == ["y"]
  {
    var tools := map[x := "x", y := "y"];
    SeenIsDistinct(id, nodes, edges);
    SeenIsDistinct(id, nodes, Updated(nodes, edges));
    var start := TwoAgents(nodes, x, y);
    AnswersShow(nodes, edges, tools, Seen(id, nodes, edges));
    AnswersShow(nodes, edges, tools, Seen(id, nodes, Updated(nodes, edges)));
  }

  lemma AnswersShow(nodes: seq<Node>, edges: seq<Edge>, tools: map<string, string>, ids: seq<string>)
    requires Untooled(nodes) && NoneCopies(nodes, edges)
    ensures FirstTools(After(nodes, edges, Answers(nodes, tools), |nodes|), ids) == FirstTools(Equipped(nodes, tools), ids)
  {
    var start, final := Equipped(nodes, tools), After(nodes, edges, Answers(nodes, tools), |nodes|);
    AfterKeeps(nodes, edges, Answers(nodes, tools), 0, |nodes|);
    forall k | 0 <= k < |nodes| && nodes[k].name == AGENT ensures start[k].agentTools == final[k].agentTools {
      AnswersArrive(nodes, edges, tools, k);
    }
    SameAgentsShow(start, final, ids);
  }
}
