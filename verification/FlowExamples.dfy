/** Runs of the generator in which the loop's search and the check's disagree. */
module FlowExamples {
  import opened Common
  import opened FlowCheck
  import opened FlowEdges
  import opened FlowGenerator
  import opened FlowOrder
  import opened FlowSearch

  /** A node that hides no handle and is bound to no tool. */
  function Shown(id: string, name: string, tools: seq<string>): Node { Node(id, name, tools, None, false, false) }

  lemma {:induction false} FindShown(nodes: seq<Node>, id: string)
    requires forall k :: 0 <= k < |nodes| ==> !nodes[k].hideInput && !nodes[k].hideOutput
    ensures
      var n := Find(nodes, id);
      (n.Some? ==> !n.value.hideInput && !n.value.hideOutput) && forall k :: 0 <= k < |nodes| && nodes[k].id == id ==> n.Some?
    decreases |nodes|
  {
    if nodes != [] && nodes[0].id != id {
      FindShown(nodes[1..], id);
      forall k | 0 <= k < |nodes| && nodes[k].id == id ensures Find(nodes, id).Some? { assert nodes[k] == nodes[1..][k - 1]; }
    }
  }

  /** Edges between nodes that hide nothing are all kept. */
  lemma ShownEdges(nodes: seq<Node>, edges: seq<Edge>)
    requires forall k :: 0 <= k < |nodes| ==> !nodes[k].hideInput && !nodes[k].hideOutput
    requires forall e :: e in edges ==> exists k :: 0 <= k < |nodes| && nodes[k].id == e.source
    ensures Kept(nodes, edges) == edges
  {
    forall e | e in edges ensures Known(nodes, e) && Visible(nodes, e) {
      FindShown(nodes, e.source);
      FindShown(nodes, e.target);
    }
    KeepsAllExactlyWhen(nodes, edges);
  }

  lemma QuietTurn(nodes: seq<Node>, edges: seq<Edge>, oracle: Oracle, i: nat)
    requires i < |nodes|
    requires nodes[i].name !in {AGENT, TOOL} || (oracle(i) == None && ProposingTools(nodes[i].id, nodes, edges) == [])
    ensures Selected(nodes, edges, oracle, i) == nodes[i]
  {
  }

  /** Turns that change nothing. */
  lemma {:induction false} QuietTurns(nodes: seq<Node>, edges: seq<Edge>, oracle: Oracle, k: nat)
    requires k <= |nodes| && forall i: nat :: i < k ==> Selected(nodes, edges, oracle, i) == nodes[i]
    ensures After(nodes, edges, oracle, k) == nodes
    decreases k
  {
    if k > 0 { QuietTurns(nodes, edges, oracle, k - 1); }
  }

  lemma OneEdge(e: Edge)
    ensures forall id :: Sources([e], id) == if e.target == id then [e.source] else []
    ensures forall id :: FirstInbound([e], id) == if e.target == id then Some(e) else None
  {
    assert [e][1..] == [];
    forall id ensures Sources([e], id) == if e.target == id then [e.source] else [] {
      assert Sources([e][1..], id) == [];
    }
  }

  // ---------------------------------------------------------------- a gate

  const GATED: seq<Node> :=
    [Shown("agentAgentflow_0", AGENT, ["x", "y"]), Shown("humanInputAgentflow_0", GATE, []), Shown("toolAgentflow_0", TOOL, [])]

  const GATED_EDGES: seq<Edge> :=
    [Edge("agentAgentflow_0", "", "humanInputAgentflow_0"), Edge("humanInputAgentflow_0", "true", "toolAgentflow_0")]

  /** Behind an approval gate, a tool from elsewhere goes unnoticed: the gate's handle is renamed before the check. */
  lemma GateExample(oracle: Oracle)
    requires oracle(0) == None && oracle(2) == Some(["z"])
    ensures
      Settled(GATED, GATED_EDGES, 2) && Mismatched(After(GATED, GATED_EDGES, oracle, 3), GATED_EDGES, 2) &&
      !Warned(GATED, GATED_EDGES, oracle, 2)
  {
    GatedTurns(oracle);
    GatedProposes();
    MismatchedOnLoopEdges(GATED, GATED_EDGES, oracle, 2);
    AfterKeeps(GATED, GATED_EDGES, oracle, 0, 3);
    GatedIsSilent(After(GATED, GATED_EDGES, oracle, 3));
  }

  lemma GatedTurns(oracle: Oracle)
    requires oracle(0) == None
    ensures After(GATED, GATED_EDGES, oracle, 2) == GATED
  {
    GatedProposes();
    forall i: nat | i < 2 ensures Selected(GATED, GATED_EDGES, oracle, i) == GATED[i] { QuietTurn(GATED, GATED_EDGES, oracle, i); }
    QuietTurns(GATED, GATED_EDGES, oracle, 2);
  }

  lemma GatedIsSilent(final: seq<Node>)
    requires SameSkeleton(GATED, final)
    ensures !Mismatched(final, Updated(final, GATED_EDGES), 2)
  {
    GatedKept();
    UpdatedOnSkeleton(GATED, final, GATED_EDGES);
    SameName(GATED, final, "humanInputAgentflow_0");
    NodeByIdAt(GATED, 1);
    GateFedIsSilent(final, GATED_EDGES, 2);
  }

  lemma GatedProposes()
    ensures ProposingTools("toolAgentflow_0", GATED, GATED_EDGES) == ["x", "y"] && ProposingTools("agentAgentflow_0", GATED, GATED_EDGES) == []
  {
    GatedEdges();
    NodeByIdAt(GATED, 0);
    NodeByIdAt(GATED, 1);
    TwoTools("x", "y");
    assert Includes("true", "true") by { assert "true" <= "true"[0..]; }
    var visited := {"toolAgentflow_0"};
    WalkPasses(GATED, GATED_EDGES, visited, "humanInputAgentflow_0", "agentAgentflow_0");
    assert "agentAgentflow_0" !in visited + {"humanInputAgentflow_0"};
  }

  lemma TwoTools(a: string, b: string)
    requires a != "" && b != ""
    ensures NonEmpty([a, b]) == [a, b]
  {
    assert [a, b][1..] == [b];
    OneTool(b);
  }

  lemma GatedEdges()
    ensures FirstInbound(GATED_EDGES, "toolAgentflow_0") == Some(GATED_EDGES[1]) && FirstInbound(GATED_EDGES, "agentAgentflow_0") == None
    ensures Sources(GATED_EDGES, "humanInputAgentflow_0") == ["agentAgentflow_0"]
  {
    var rest := GATED_EDGES[1..];
    assert rest == [GATED_EDGES[1]];
    OneEdge(GATED_EDGES[1]);
    assert Sources(rest, "humanInputAgentflow_0") == [];
  }

  lemma GatedKept()
    ensures
      var inbound := FirstInbound(Kept(GATED, GATED_EDGES), "toolAgentflow_0");
      inbound == Some(GATED_EDGES[1]) && Includes(inbound.value.source, GATE) && !Twice(inbound.value.sourceHandle, "true")
  {
    GatedEdges();
    assert GATED[0].id == GATED_EDGES[0].source && GATED[1].id == GATED_EDGES[1].source;
    ShownEdges(GATED, GATED_EDGES);
    assert GATE <= "humanInputAgentflow_0"[0..];
  }

  /** The walk passes an unvisited node without tools. */
  lemma WalkPasses(nodes: seq<Node>, edges: seq<Edge>, visited: set<string>, id: string, next: string)
    requires id !in visited && ToolsOf(nodes, id) == [] && Sources(edges, id) == [next]
    ensures Walk(nodes, edges, visited, [id]) == Walk(nodes, edges, visited + {id}, [next])
  {
    assert [id][1..] + [next] == [next];
  }

  // ---------------------------------------------------------------- a lost edge

  const LOST: seq<Node> :=
    [Node("startAgentflow_0", "startAgentflow", [], None, true, false), Node("loopAgentflow_0", "loopAgentflow", [], None, false, true),
     Shown("b", AGENT, ["y"]), Shown("c", AGENT, ["z"]), Shown("t", TOOL, [])]

  const LOST_EDGES: seq<Edge> := [Edge("loopAgentflow_0", "", "startAgentflow_0"), Edge("b", "", "t"), Edge("c", "", "t")]

  /** A single proposal is followed and warned about: the edge it came over was dropped along with a hidden one. */
  lemma LostEdgeExample(oracle: Oracle)
    requires oracle(2) == None && oracle(3) == None
    ensures
      Settled(LOST, LOST_EDGES, 4) && SawOne(LOST, LOST_EDGES, oracle, 4) &&
      After(LOST, LOST_EDGES, oracle, 5)[4].boundTool == Some("y") && Warned(LOST, LOST_EDGES, oracle, 4)
  {
    LostProposes(LOST);
    LostTurns(LOST, LOST_EDGES, oracle);
    LostBound(oracle);
    LostChecked(After(LOST, LOST_EDGES, oracle, 5));
  }

  lemma LostTurns(nodes: seq<Node>, edges: seq<Edge>, oracle: Oracle)
    requires |nodes| == 5 && nodes[0].name !in {AGENT, TOOL} && nodes[1].name !in {AGENT, TOOL}
    requires ProposingTools(nodes[2].id, nodes, edges) == [] && ProposingTools(nodes[3].id, nodes, edges) == []
    requires oracle(2) == None && oracle(3) == None
    ensures After(nodes, edges, oracle, 4) == nodes
  {
    forall i: nat | i < 4 ensures Selected(nodes, edges, oracle, i) == nodes[i] { QuietTurn(nodes, edges, oracle, i); }
    QuietTurns(nodes, edges, oracle, 4);
  }

  lemma LostBound(oracle: Oracle)
    requires After(LOST, LOST_EDGES, oracle, 4) == LOST
    ensures After(LOST, LOST_EDGES, oracle, 5) == LOST[4 := LOST[4].(boundTool := Some("y"))]
  {
    LostProposes(LOST);
    assert Selected(LOST, LOST_EDGES, oracle, 4) == LOST[4].(boundTool := Some("y"));
  }

  lemma LostChecked(final: seq<Node>)
    requires |final| == 5 && final[..4] == LOST[..4] && final[4] == LOST[4].(boundTool := Some("y"))
    ensures Mismatched(final, Updated(final, LOST_EDGES), 4)
  {
    LostKept();
    assert forall k :: 0 <= k < 4 ==> final[k] == final[..4][k] == LOST[..4][k];
    UpdatedOnSkeleton(LOST, final, LOST_EDGES);
    LostProposes(final);
    ProposesFirstTools("t", final, [LOST_EDGES[2]]);
    StillFedExactlyWhen(final, LOST_EDGES, "t");
    ChecksFirstTools(final, LOST_EDGES, 4);
  }

  lemma LostProposes(nodes: seq<Node>)
    requires |nodes| == 5 && nodes[..4] == LOST[..4] && nodes[4].id == "t"
    ensures ProposingTools("t", nodes, LOST_EDGES) == ["y"] && ProposingTools("t", nodes, [LOST_EDGES[2]]) == ["z"]
    ensures ProposingTools("b", nodes, LOST_EDGES) == [] && ProposingTools("c", nodes, LOST_EDGES) == []
    ensures IsAgent(nodes, "c")
  {
    assert nodes[2] == nodes[..4][2] && nodes[3] == nodes[..4][3];
    NodeByIdAt(nodes, 2);
    NodeByIdAt(nodes, 3);
    OneTool("y");
    OneTool("z");
    assert LOST_EDGES[1..][0] == LOST_EDGES[1] && LOST_EDGES[1..][1..] == [LOST_EDGES[2]];
    OneEdge(LOST_EDGES[2]);
    assert FirstInbound([LOST_EDGES[2]], "t") == Some(LOST_EDGES[2]);
    assert FirstInbound([LOST_EDGES[2]], "b") == None && FirstInbound([LOST_EDGES[2]], "c") == None;
    assert FirstInbound(LOST_EDGES[1..], "b") == None && FirstInbound(LOST_EDGES[1..], "c") == None;
  }

  lemma LostKept()
    ensures Kept(LOST, LOST_EDGES) == [LOST_EDGES[2]]
  {
    var last := [LOST_EDGES[2]];
    LostFinds();
    assert LOST_EDGES == [LOST_EDGES[0], LOST_EDGES[1]] + last;
    HiddenTakesNext(LOST, LOST_EDGES[0], LOST_EDGES[1], last);
    KeepsAllExactlyWhen(LOST, last);
  }

  lemma LostFinds()
    ensures Find(LOST, "startAgentflow_0") == Some(LOST[0]) && Find(LOST, "loopAgentflow_0") == Some(LOST[1])
    ensures Find(LOST, "b") == Some(LOST[2]) && Find(LOST, "c") == Some(LOST[3]) && Find(LOST, "t") == Some(LOST[4])
  {
    assert LOST[1..][0] == LOST[1] && LOST[1..][1..] == LOST[2..] && LOST[2..][1..] == LOST[3..] && LOST[3..][1..] == LOST[4..];
    assert Find(LOST[4..], "t") == Some(LOST[4]);
    assert Find(LOST[3..], "c") == Some(LOST[3]) && Find(LOST[3..], "t") == Some(LOST[4]);
    assert Find(LOST[2..], "b") == Some(LOST[2]) && Find(LOST[2..], "c") == Some(LOST[3]) && Find(LOST[2..], "t") == Some(LOST[4]);
    assert Find(LOST[1..], "b") == Some(LOST[2]) && Find(LOST[1..], "c") == Some(LOST[3]) && Find(LOST[1..], "t") == Some(LOST[4]);
  }

  // ---------------------------------------------------------------- a late agent

  const LATE: seq<Node> :=
    [Shown("t", TOOL, []), Shown("b", AGENT, []), Shown("l", "llmAgentflow", []), Shown("a", AGENT, ["x"])]

  const LATE_BOUND: seq<Node> := [Node("t", TOOL, [], Some("x"), false, false)] + LATE[1..]

  const LATE_DONE: seq<Node> :=
    [Node("t", TOOL, [], Some("x"), false, false), Shown("b", AGENT, ["y"]), Shown("l", "llmAgentflow", []), Shown("a", AGENT, ["x"])]

  const LATE_EDGES: seq<Edge> := [Edge("b", "", "t"), Edge("l", "", "b"), Edge("a", "", "l")]

  /**
   The order matters: here a tool node stands before its agent, is bound to a farther agent's tool,
   and is then contradicted by the tool its own agent gets later.
   */
  lemma UnorderedExample(oracle: Oracle)
    requires oracle(1) == Some(["y"]) && oracle(3) == None
    ensures
      LateAgent(LATE, LATE_EDGES, 0, 1, 0) && |ProposingTools("t", LATE, LATE_EDGES)| == 1 &&
      Warned(LATE, LATE_EDGES, oracle, 0)
  {
    ExampleTurns(oracle);
    ExampleFirst();
    ExampleLast(LATE_DONE);
    AfterFour(LATE, LATE_BOUND, LATE_DONE, LATE_DONE, LATE_DONE, LATE_EDGES, oracle);
    LateChecked();
  }

  lemma LateChecked()
    ensures Mismatched(LATE_DONE, Updated(LATE_DONE, LATE_EDGES), 0)
  {
    assert LATE_DONE[1].id == "b" && LATE_DONE[2].id == "l" && LATE_DONE[3].id == "a";
    ShownEdges(LATE_DONE, LATE_EDGES);
    ExampleLast(LATE_DONE);
    ChecksLoopEdges(LATE_DONE, LATE_EDGES, 0);
  }

  lemma ExampleTurns(oracle: Oracle)
    requires oracle(1) == Some(["y"]) && oracle(3) == None
    ensures LATE_BOUND == LATE[0 := Selected(LATE, LATE_EDGES, oracle, 0)]
    ensures LATE_DONE == LATE_BOUND[1 := Selected(LATE_BOUND, LATE_EDGES, oracle, 1)]
    ensures LATE_DONE == LATE_DONE[2 := Selected(LATE_DONE, LATE_EDGES, oracle, 2)]
    ensures LATE_DONE == LATE_DONE[3 := Selected(LATE_DONE, LATE_EDGES, oracle, 3)]
  {
    ExampleFirst();
    ExampleTurnOne(oracle);
    ExampleLast(LATE_DONE);
  }

  lemma ExampleTurnOne(oracle: Oracle)
    requires oracle(1) == Some(["y"])
    ensures LATE_DONE == LATE_BOUND[1 := Selected(LATE_BOUND, LATE_EDGES, oracle, 1)]
  {
    ExampleSecond(LATE_BOUND);
    var none: seq<string> := [];
    assert none + ["y"] == ["y"];
    assert LATE_BOUND == [LATE_DONE[0], LATE[1], LATE[2], LATE[3]];
  }

  lemma AfterFour(s0: seq<Node>, s1: seq<Node>, s2: seq<Node>, s3: seq<Node>, s4: seq<Node>, edges: seq<Edge>, oracle: Oracle)
    requires |s0| == |s1| == |s2| == |s3| == |s4| == 4
    requires s1 == s0[0 := Selected(s0, edges, oracle, 0)] && s2 == s1[1 := Selected(s1, edges, oracle, 1)]
    requires s3 == s2[2 := Selected(s2, edges, oracle, 2)] && s4 == s3[3 := Selected(s3, edges, oracle, 3)]
    ensures After(s0, edges, oracle, 4) == s4
  {
    assert After(s0, edges, oracle, 0) == s0;
    assert After(s0, edges, oracle, 1) == s1;
    assert After(s0, edges, oracle, 2) == s2;
    assert After(s0, edges, oracle, 3) == s3;
  }

  lemma ExampleTools()
    ensures ToolsOf(LATE, "a") == ["x"] && ToolsOf(LATE, "l") == [] && ToolsOf(LATE, "b") == []
    ensures HasShape(LATE, Edge("b", "", "t"))
  {
    NodeByIdAt(LATE, 1);
    NodeByIdAt(LATE, 2);
    NodeByIdAt(LATE, 3);
    OneTool("x");
  }

  /** At its turn the tool node sees only the far agent's tool. */
  lemma ExampleFirst()
    ensures ProposingTools("t", LATE, LATE_EDGES) == ["x"]
  {
    ExampleSources(LATE_EDGES);
    ExampleTools();
    WalkPasses(LATE, LATE_EDGES, {"t"}, "b", "l");
    WalkPasses(LATE, LATE_EDGES, {"t"} + {"b"}, "l", "a");
    assert "a" !in {"t"} + {"b"} + {"l"};
  }

  /** The near agent is not fed by an agent or a gate, so it asks the model. */
  lemma ExampleSecond(nodes: seq<Node>)
    requires |nodes| == 4 && nodes[0].id == "t" && nodes[1..] == LATE[1..]
    ensures ProposingTools("b", nodes, LATE_EDGES) == []
  {
    ExampleSources(LATE_EDGES);
    assert nodes[1] == nodes[1..][0] && nodes[2] == nodes[1..][1] && nodes[3] == nodes[1..][2];
    NodeByIdAt(nodes, 2);
  }

  /** Afterwards the near agent's tool hides the far one's. */
  lemma ExampleLast(nodes: seq<Node>)
    requires |nodes| == 4 && nodes[0].id == "t" && nodes[1] == Shown("b", AGENT, ["y"])
    requires nodes[2] == LATE[2] && nodes[3] == LATE[3]
    ensures ProposingTools("t", nodes, LATE_EDGES) == ["y"] && ProposingTools("a", nodes, LATE_EDGES) == []
  {
    ExampleSources(LATE_EDGES);
    NodeByIdAt(nodes, 1);
    assert NonEmpty(["y"]) == ["y"];
    assert Walk(nodes, LATE_EDGES, {"t"}, ["b"]) == ["y"];
  }

  lemma ExampleSources(edges: seq<Edge>)
    requires edges == [Edge("b", "", "t"), Edge("l", "", "b"), Edge("a", "", "l")]
    ensures Sources(edges, "b") == ["l"] && Sources(edges, "l") == ["a"] && Sources(edges, "a") == []
    ensures FirstInbound(edges, "t") == Some(edges[0]) && FirstInbound(edges, "b") == Some(edges[1]) && FirstInbound(edges, "a") == None
  {
    var e1, e2 := edges[1..], edges[1..][1..];
    assert e1 == [Edge("l", "", "b"), Edge("a", "", "l")] && e2 == [Edge("a", "", "l")];
    OneEdge(e2[0]);
    assert Sources(e2, "b") == [] && Sources(e2, "l") == ["a"] && Sources(e2, "a") == [];
    assert Sources(e1, "b") == ["l"] && Sources(e1, "l") == ["a"] && Sources(e1, "a") == [];
    assert FirstInbound(e2, "a") == None && FirstInbound(e1, "a") == None;
  }
}
