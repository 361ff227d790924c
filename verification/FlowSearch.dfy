/**
 Finding the agent whose tools an execute step must reuse: a breadth-first walk against the edges
 of a possibly cyclic graph, `findProposingAgentTools`.
 */
module FlowSearch {
  import opened Common

  /** A flow node: id, component name, the tools its agent selected, the tool it is bound to, and its hidden handles. */
  datatype Node = Node(id: string, name: string, agentTools: seq<string>, boundTool: Option<string>, hideInput: bool, hideOutput: bool)

  datatype Edge = Edge(source: string, sourceHandle: string, target: string)

  const AGENT := "agentAgentflow"
  const TOOL := "toolAgentflow"
  const GATE := "humanInputAgentflow"

  /** The node of an id in a map built from the list: a later node with the same id wins. */
  function NodeById(nodes: seq<Node>, id: string): Option<Node> {
    if nodes == [] then None
    else if nodes[|nodes| - 1].id == id then Some(nodes[|nodes| - 1])
    else NodeById(nodes[..|nodes| - 1], id)
  }

  /** The non-empty tool names, in order. */
  function NonEmpty(tools: seq<string>): seq<string> {
    if tools == [] then [] else (if tools[0] == "" then [] else [tools[0]]) + NonEmpty(tools[1..])
  }

  function ToolsOf(nodes: seq<Node>, id: string): seq<string> {
    var node := NodeById(nodes, id);
    if node.Some? && node.value.name == AGENT then NonEmpty(node.value.agentTools) else []
  }

  function FirstInbound(edges: seq<Edge>, id: string): Option<Edge> {
    if edges == [] then None else if edges[0].target == id then Some(edges[0]) else FirstInbound(edges[1..], id)
  }

  predicate Includes(s: string, word: string) {
    exists i :: 0 <= i <= |s| && word <= s[i..]
  }

  /** The node is fed by an agent, or by the approved branch of a human approval gate. */
  predicate HasShape(nodes: seq<Node>, inbound: Edge) {
    var source := NodeById(nodes, inbound.source);
    source.Some? && (source.value.name == AGENT || (source.value.name == GATE && Includes(inbound.sourceHandle, "true")))
  }

  function Sources(edges: seq<Edge>, target: string): seq<string> {
    if edges == [] then []
    else (if edges[0].target == target then [edges[0].source] else []) + Sources(edges[1..], target)
  }

  /** Edges that have not been followed yet. */
  function Unfollowed(edges: seq<Edge>, visited: set<string>): nat {
    if edges == [] then 0 else (if edges[0].target in visited then 0 else 1) + Unfollowed(edges[1..], visited)
  }

  lemma {:induction false} FollowOnce(edges: seq<Edge>, visited: set<string>, id: string)
    requires id !in visited
    ensures |Sources(edges, id)| + Unfollowed(edges, visited + {id}) == Unfollowed(edges, visited)
    decreases |edges|
  {
    if edges != [] { FollowOnce(edges[1..], visited, id); }
  }

  lemma {:induction false} UnfollowedBound(edges: seq<Edge>, visited: set<string>)
    ensures Unfollowed(edges, visited) <= |edges|
    decreases |edges|
  {
    if edges != [] { UnfollowedBound(edges[1..], visited); }
  }

  /** The walk from a queue: the tools of the first unvisited tool-bearing agent that is dequeued. */
  function Walk(nodes: seq<Node>, edges: seq<Edge>, visited: set<string>, queue: seq<string>): seq<string>
    decreases |queue| + Unfollowed(edges, visited)
  {
    if queue == [] then []
    else if queue[0] in visited then Walk(nodes, edges, visited, queue[1..])
    else if ToolsOf(nodes, queue[0]) != [] then ToolsOf(nodes, queue[0])
    else
      FollowOnce(edges, visited, queue[0]);
      Walk(nodes, edges, visited + {queue[0]}, queue[1..] + Sources(edges, queue[0]))
  }

  function ProposingTools(id: string, nodes: seq<Node>, edges: seq<Edge>): seq<string> {
    var inbound := FirstInbound(edges, id);
    if inbound.None? || !HasShape(nodes, inbound.value) then []
    else Walk(nodes, edges, {id}, [inbound.value.source])
  }

  method FindProposingAgentTools(node: Node, nodes: seq<Node>, edges: seq<Edge>) returns (tools: seq<string>, dequeues: nat)
    ensures tools == ProposingTools(node.id, nodes, edges)
    ensures dequeues <= |edges| + 1
  {
    dequeues := 0;
    var inbound := FirstInbound(edges, node.id);
    if inbound.None? { return [], dequeues; }
    if !HasShape(nodes, inbound.value) { return [], dequeues; }
    var visited := {node.id};
    var queue := [inbound.value.source];
    UnfollowedBound(edges, visited);
    while |queue| > 0
      invariant Walk(nodes, edges, visited, queue) == ProposingTools(node.id, nodes, edges)
      invariant dequeues + |queue| + Unfollowed(edges, visited) <= |edges| + 1
      decreases |queue| + Unfollowed(edges, visited)
    {
      var currentId := queue[0];
      queue := queue[1..];
      dequeues := dequeues + 1;
      if currentId in visited { continue; }
      FollowOnce(edges, visited, currentId);
      visited := visited + {currentId};
      tools := ToolsOf(nodes, currentId);
      if |tools| > 0 { return; }
      queue := queue + Sources(edges, currentId);
    }
    tools := [];
  }

  // ---------------------------------------------------------------- distance

  /** `id` is at most `n` steps against the edges from `from`, in the graph without `start`. */
  ghost predicate Within(edges: seq<Edge>, start: string, from: string, n: nat, id: string) {
    id != start &&
    if n == 0 then id == from
    else Within(edges, start, from, n - 1, id) ||
         exists e :: e in edges && e.source == id && Within(edges, start, from, n - 1, e.target)
  }

  /** An agent with tools at distance `d`, with none closer. */
  ghost predicate Nearest(nodes: seq<Node>, edges: seq<Edge>, start: string, from: string, d: nat, id: string) {
    Within(edges, start, from, d, id) && ToolsOf(nodes, id) != [] &&
    forall m: nat, other :: m < d && Within(edges, start, from, m, other) ==> ToolsOf(nodes, other) == []
  }

  ghost predicate NoneReachable(nodes: seq<Node>, edges: seq<Edge>, start: string, from: string) {
    forall n: nat, id :: Within(edges, start, from, n, id) ==> ToolsOf(nodes, id) == []
  }

  /** What is true whenever the queue is `level` (distance `d`) followed by `next` (distance `d + 1`). */
  ghost predicate Frontier(nodes: seq<Node>, edges: seq<Edge>, start: string, from: string,
      visited: set<string>, level: seq<string>, next: seq<string>, d: nat)
  {
    && start in visited
    && (forall v :: v in level && v != start ==> Within(edges, start, from, d, v))
    && (forall v :: v in next && v != start ==> Within(edges, start, from, d + 1, v))
    && (forall v :: Within(edges, start, from, d, v) ==> v in visited || v in level)
    && (d > 0 ==> forall v :: Within(edges, start, from, d - 1, v) ==> v in visited)
    && (forall v, e :: v in visited && v != start && e in edges && e.target == v ==>
          e.source in visited || e.source in level || e.source in next)
    && (forall v :: v in visited && v != start ==> ToolsOf(nodes, v) == [])
  }

  lemma {:induction false} SourcesAre(edges: seq<Edge>, target: string)
    ensures forall s :: s in Sources(edges, target) <==> exists e :: e in edges && e.target == target && e.source == s
    decreases |edges|
  {
    if edges != [] {
      SourcesAre(edges[1..], target);
      assert edges == [edges[0]] + edges[1..];
    }
  }

  lemma {:induction false} WithinGrows(edges: seq<Edge>, start: string, from: string, m: nat, n: nat, id: string)
    requires m <= n && Within(edges, start, from, m, id)
    ensures Within(edges, start, from, n, id)
    decreases n - m
  {
    if m < n { WithinGrows(edges, start, from, m, n - 1, id); }
  }

  /** The walk finds a nearest tool-bearing agent, or there is none. */
  ghost predicate Correct(nodes: seq<Node>, edges: seq<Edge>, start: string, from: string, tools: seq<string>) {
    if tools == [] then NoneReachable(nodes, edges, start, from)
    else exists d: nat, id :: Nearest(nodes, edges, start, from, d, id) && tools == ToolsOf(nodes, id)
  }

  /** A level that is used up: the next one takes its place. */
  lemma NextLevel(nodes: seq<Node>, edges: seq<Edge>, start: string, from: string, visited: set<string>, next: seq<string>, d: nat)
    requires Frontier(nodes, edges, start, from, visited, [], next, d)
    ensures Frontier(nodes, edges, start, from, visited, next, [], d + 1)
  {
    forall v | Within(edges, start, from, d + 1, v) ensures v in visited || v in next {
      if !Within(edges, start, from, d, v) {
        var e :| e in edges && e.source == v && Within(edges, start, from, d, e.target);
        assert e.target in visited;
      }
    }
  }

  lemma Exhausted(nodes: seq<Node>, edges: seq<Edge>, start: string, from: string, visited: set<string>, d: nat)
    requires Frontier(nodes, edges, start, from, visited, [], [], d)
    ensures NoneReachable(nodes, edges, start, from)
  {
    forall n: nat, id | Within(edges, start, from, n, id) ensures ToolsOf(nodes, id) == [] {
      ClosedReaches(nodes, edges, start, from, visited, d, n, id);
    }
  }

  lemma {:induction false} ClosedReaches(nodes: seq<Node>, edges: seq<Edge>, start: string, from: string, visited: set<string>, d: nat, n: nat, id: string)
    requires Frontier(nodes, edges, start, from, visited, [], [], d) && Within(edges, start, from, n, id)
    ensures id in visited && id != start
    decreases n
  {
    if n <= d {
      WithinGrows(edges, start, from, n, d, id);
    } else if Within(edges, start, from, n - 1, id) {
      ClosedReaches(nodes, edges, start, from, visited, d, n - 1, id);
    } else {
      var e :| e in edges && e.source == id && Within(edges, start, from, n - 1, e.target);
      ClosedReaches(nodes, edges, start, from, visited, d, n - 1, e.target);
    }
  }

  lemma Expand(nodes: seq<Node>, edges: seq<Edge>, start: string, from: string,
      visited: set<string>, level: seq<string>, next: seq<string>, d: nat)
    requires Frontier(nodes, edges, start, from, visited, level, next, d) && level != []
    requires level[0] in visited || ToolsOf(nodes, level[0]) == []
    ensures
      var id := level[0];
      if id in visited then Frontier(nodes, edges, start, from, visited, level[1..], next, d)
      else Frontier(nodes, edges, start, from, visited + {id}, level[1..], next + Sources(edges, id), d)
  {
    var id := level[0];
    assert level == [id] + level[1..];
    if id !in visited {
      SourcesAre(edges, id);
      var more := Sources(edges, id);
      forall v | v in next + more && v != start ensures Within(edges, start, from, d + 1, v) {
        if v !in next {
          var e :| e in edges && e.target == id && e.source == v;
          assert Within(edges, start, from, d, e.target);
        }
      }
    }
  }

  lemma {:induction false} WalkIsCorrect(nodes: seq<Node>, edges: seq<Edge>, start: string, from: string,
      visited: set<string>, level: seq<string>, next: seq<string>, d: nat)
    requires Frontier(nodes, edges, start, from, visited, level, next, d)
    ensures Correct(nodes, edges, start, from, Walk(nodes, edges, visited, level + next))
    decreases |level| + |next| + Unfollowed(edges, visited), |next|
  {
    var queue := level + next;
    if queue == [] {
      Exhausted(nodes, edges, start, from, visited, d);
    } else if level == [] {
      NextLevel(nodes, edges, start, from, visited, next, d);
      assert next + [] == queue;
      WalkIsCorrect(nodes, edges, start, from, visited, next, [], d + 1);
    } else {
      var id := level[0];
      assert queue[0] == id && queue[1..] == level[1..] + next;
      if id !in visited && ToolsOf(nodes, id) != [] {
        NearestFound(nodes, edges, start, from, visited, level, next, d);
      } else {
        Expand(nodes, edges, start, from, visited, level, next, d);
        if id in visited {
          WalkIsCorrect(nodes, edges, start, from, visited, level[1..], next, d);
        } else {
          FollowOnce(edges, visited, id);
          assert queue[1..] + Sources(edges, id) == level[1..] + (next + Sources(edges, id));
          WalkIsCorrect(nodes, edges, start, from, visited + {id}, level[1..], next + Sources(edges, id), d);
        }
      }
    }
  }

  lemma NearestFound(nodes: seq<Node>, edges: seq<Edge>, start: string, from: string,
      visited: set<string>, level: seq<string>, next: seq<string>, d: nat)
    requires Frontier(nodes, edges, start, from, visited, level, next, d)
    requires level != [] && level[0] !in visited && ToolsOf(nodes, level[0]) != []
    ensures Nearest(nodes, edges, start, from, d, level[0])
  {
    forall m: nat, other | m < d && Within(edges, start, from, m, other) ensures ToolsOf(nodes, other) == [] {
      CloserIsBare(nodes, edges, start, from, visited, level, next, d, m, other);
    }
  }

  lemma CloserIsBare(nodes: seq<Node>, edges: seq<Edge>, start: string, from: string,
      visited: set<string>, level: seq<string>, next: seq<string>, d: nat, m: nat, id: string)
    requires Frontier(nodes, edges, start, from, visited, level, next, d) && m < d && Within(edges, start, from, m, id)
    ensures ToolsOf(nodes, id) == []
  {
    WithinGrows(edges, start, from, m, d - 1, id);
    assert id in visited && id != start;
  }

  /**
   On any graph: nothing when the shape test fails, and otherwise the tools of a tool-bearing agent at
   minimum backward distance in the graph without the start node, or nothing exactly when there is none.
   */
  lemma ProposingToolsAreNearest(id: string, nodes: seq<Node>, edges: seq<Edge>)
    ensures
      var inbound := FirstInbound(edges, id);
      var tools := ProposingTools(id, nodes, edges);
      if inbound.None? || !HasShape(nodes, inbound.value) then tools == []
      else Correct(nodes, edges, id, inbound.value.source, tools)
  {
    var inbound := FirstInbound(edges, id);
    if inbound.Some? && HasShape(nodes, inbound.value) {
      var from := inbound.value.source;
      assert [from] + [] == [from];
      WalkIsCorrect(nodes, edges, id, from, {id}, [from], [], 0);
    }
  }

  /** Empty exactly when the shape test fails or no tool-bearing agent is upstream. */
  lemma EmptyExactlyWhen(id: string, nodes: seq<Node>, edges: seq<Edge>)
    ensures
      var inbound := FirstInbound(edges, id);
      ProposingTools(id, nodes, edges) == [] <==>
        inbound.None? || !HasShape(nodes, inbound.value) || NoneReachable(nodes, edges, id, inbound.value.source)
  {
    ProposingToolsAreNearest(id, nodes, edges);
    var inbound := FirstInbound(edges, id);
    var tools := ProposingTools(id, nodes, edges);
    if tools != [] {
      var d: nat, v :| Nearest(nodes, edges, id, inbound.value.source, d, v);
      assert Within(edges, id, inbound.value.source, d, v);
    }
  }

  /** Empty tool names are passed over and the others keep their order: with the empty list, this fixes the result. */
  lemma {:induction false} NonEmptyKeepsOrder(before: seq<string>, tool: string, behind: seq<string>)
    ensures NonEmpty(before + [tool] + behind) == NonEmpty(before) + (if tool == "" then [] else [tool]) + NonEmpty(behind)
    decreases |before|
  {
    var all := before + [tool] + behind;
    if before == [] {
      assert all[0] == tool && all[1..] == behind;
    } else {
      assert all[1..] == before[1..] + [tool] + behind;
      NonEmptyKeepsOrder(before[1..], tool, behind);
    }
  }
}
