/**
 What a search against the edges meets, and in which order, apart from the tools that the nodes hold:
 the search returns the tools of the first agent in that order that has any.
 */
module FlowOrder {
  import opened Common
  import opened FlowSearch

  // ---------------------------------------------------------------- flows that differ in their tools

  /** No later node bears the same id: this is the node that the id stands for. */
  ghost predicate Latest(nodes: seq<Node>, j: nat)
    requires j < |nodes|
  {
    forall k :: j < k < |nodes| ==> nodes[k].id != nodes[j].id
  }

  /** The same flow, whatever tools its nodes hold. */
  ghost predicate SameSkeleton(a: seq<Node>, b: seq<Node>) {
    |a| == |b| && forall i :: 0 <= i < |a| ==> SameButTools(a[i], b[i])
  }

  ghost predicate SameButTools(a: Node, b: Node) { b == a.(agentTools := b.agentTools, boundTool := b.boundTool) }

  lemma {:induction false} NodeByIdAt(nodes: seq<Node>, i: nat)
    requires i < |nodes| && Latest(nodes, i)
    ensures NodeById(nodes, nodes[i].id) == Some(nodes[i])
    decreases |nodes|
  {
    var last := |nodes| - 1;
    if i < last {
      var init := nodes[..last];
      assert init[i] == nodes[i] && forall k :: 0 <= k < last ==> init[k] == nodes[k];
      NodeByIdAt(init, i);
    }
  }

  lemma {:induction false} NodeByIdFinds(nodes: seq<Node>, id: string) returns (j: nat)
    requires NodeById(nodes, id).Some?
    ensures j < |nodes| && nodes[j].id == id && Latest(nodes, j) && NodeById(nodes, id) == Some(nodes[j])
    decreases |nodes|
  {
    var last := |nodes| - 1;
    if nodes[last].id == id {
      j := last;
    } else {
      var init := nodes[..last];
      j := NodeByIdFinds(init, id);
      assert forall k :: 0 <= k < last ==> init[k] == nodes[k];
    }
  }

  lemma {:induction false} SameName(a: seq<Node>, b: seq<Node>, id: string)
    requires SameSkeleton(a, b)
    ensures
      var x, y := NodeById(a, id), NodeById(b, id);
      (x.Some? <==> y.Some?) && (x.Some? ==> x.value.name == y.value.name)
    decreases |a|
  {
    if a != [] && a[|a| - 1].id != id {
      var n := |a| - 1;
      assert SameSkeleton(a[..n], b[..n]);
      SameName(a[..n], b[..n], id);
    }
  }

  /** Two states of a flow show the same tools at an id unless they differ in an agent that the id stands for. */
  lemma ToolsAgree(a: seq<Node>, b: seq<Node>, id: string)
    requires SameSkeleton(a, b)
    requires forall k: nat :: k < |a| && Latest(a, k) && a[k].id == id && a[k].name == AGENT ==> a[k] == b[k]
    ensures ToolsOf(a, id) == ToolsOf(b, id)
  {
    SameName(a, b, id);
    if NodeById(a, id).Some? {
      var k := NodeByIdFinds(a, id);
      LatestInBoth(a, b, k);
      NodeByIdAt(b, k);
    }
  }

  lemma SameShapeTest(a: seq<Node>, b: seq<Node>, inbound: Edge)
    requires SameSkeleton(a, b)
    ensures HasShape(a, inbound) == HasShape(b, inbound)
  {
    SameName(a, b, inbound.source);
  }

  lemma LatestInBoth(a: seq<Node>, b: seq<Node>, j: nat)
    requires SameSkeleton(a, b) && j < |a| && Latest(a, j)
    ensures Latest(b, j)
  {
    forall k | j < k < |b| ensures b[k].id != b[j].id { assert a[k].id != a[j].id; }
  }

  // ---------------------------------------------------------------- the order of the walk

  predicate IsAgent(nodes: seq<Node>, id: string) {
    var node := NodeById(nodes, id);
    node.Some? && node.value.name == AGENT
  }

  /** The agents in the order in which a walk that never stops dequeues them. */
  function Order(nodes: seq<Node>, edges: seq<Edge>, visited: set<string>, queue: seq<string>): seq<string>
    decreases |queue| + Unfollowed(edges, visited)
  {
    if queue == [] then []
    else if queue[0] in visited then Order(nodes, edges, visited, queue[1..])
    else
      FollowOnce(edges, visited, queue[0]);
      (if IsAgent(nodes, queue[0]) then [queue[0]] else []) +
      Order(nodes, edges, visited + {queue[0]}, queue[1..] + Sources(edges, queue[0]))
  }

  function FirstTools(nodes: seq<Node>, ids: seq<string>): seq<string> {
    if ids == [] then [] else if ToolsOf(nodes, ids[0]) != [] then ToolsOf(nodes, ids[0]) else FirstTools(nodes, ids[1..])
  }

  lemma {:induction false} WalkIsFirstTools(nodes: seq<Node>, edges: seq<Edge>, visited: set<string>, queue: seq<string>)
    ensures Walk(nodes, edges, visited, queue) == FirstTools(nodes, Order(nodes, edges, visited, queue))
    decreases |queue| + Unfollowed(edges, visited)
  {
    if queue != [] {
      var id := queue[0];
      if id in visited {
        WalkIsFirstTools(nodes, edges, visited, queue[1..]);
      } else {
        FollowOnce(edges, visited, id);
        var none: seq<string> := [];
        var rest := Order(nodes, edges, visited + {id}, queue[1..] + Sources(edges, id));
        assert ([id] + rest)[1..] == rest && none + rest == rest;
        if ToolsOf(nodes, id) == [] { WalkIsFirstTools(nodes, edges, visited + {id}, queue[1..] + Sources(edges, id)); }
      }
    }
  }

  /** The agents that the search from a node meets, in order: none when the shape test fails. */
  function Seen(id: string, nodes: seq<Node>, edges: seq<Edge>): seq<string> {
    var inbound := FirstInbound(edges, id);
    if inbound.None? || !HasShape(nodes, inbound.value) then [] else Order(nodes, edges, {id}, [inbound.value.source])
  }

  lemma ProposesFirstTools(id: string, nodes: seq<Node>, edges: seq<Edge>)
    ensures ProposingTools(id, nodes, edges) == FirstTools(nodes, Seen(id, nodes, edges))
  {
    var inbound := FirstInbound(edges, id);
    if inbound.Some? && HasShape(nodes, inbound.value) { WalkIsFirstTools(nodes, edges, {id}, [inbound.value.source]); }
  }

  lemma {:induction false} OrderOnSkeleton(a: seq<Node>, b: seq<Node>, edges: seq<Edge>, visited: set<string>, queue: seq<string>)
    requires SameSkeleton(a, b)
    ensures Order(a, edges, visited, queue) == Order(b, edges, visited, queue)
    decreases |queue| + Unfollowed(edges, visited)
  {
    if queue != [] {
      var id := queue[0];
      if id in visited {
        OrderOnSkeleton(a, b, edges, visited, queue[1..]);
      } else {
        FollowOnce(edges, visited, id);
        SameName(a, b, id);
        OrderOnSkeleton(a, b, edges, visited + {id}, queue[1..] + Sources(edges, id));
      }
    }
  }

  lemma SeenOnSkeleton(a: seq<Node>, b: seq<Node>, edges: seq<Edge>, id: string)
    requires SameSkeleton(a, b)
    ensures Seen(id, a, edges) == Seen(id, b, edges)
  {
    var inbound := FirstInbound(edges, id);
    if inbound.Some? {
      SameShapeTest(a, b, inbound.value);
      OrderOnSkeleton(a, b, edges, {id}, [inbound.value.source]);
    }
  }

  ghost predicate Distinct(ids: seq<string>) { forall i, j :: 0 <= i < j < |ids| ==> ids[i] != ids[j] }

  lemma {:induction false} OrderIsDistinct(nodes: seq<Node>, edges: seq<Edge>, visited: set<string>, queue: seq<string>)
    ensures
      var order := Order(nodes, edges, visited, queue);
      Distinct(order) && forall id :: id in order ==> id !in visited && IsAgent(nodes, id)
    decreases |queue| + Unfollowed(edges, visited)
  {
    if queue != [] {
      var id := queue[0];
      if id in visited {
        OrderIsDistinct(nodes, edges, visited, queue[1..]);
      } else {
        FollowOnce(edges, visited, id);
        OrderIsDistinct(nodes, edges, visited + {id}, queue[1..] + Sources(edges, id));
      }
    }
  }

  lemma SeenIsDistinct(id: string, nodes: seq<Node>, edges: seq<Edge>)
    ensures Distinct(Seen(id, nodes, edges)) && forall v :: v in Seen(id, nodes, edges) ==> v != id && IsAgent(nodes, v)
  {
    var inbound := FirstInbound(edges, id);
    if inbound.Some? { OrderIsDistinct(nodes, edges, {id}, [inbound.value.source]); }
  }

  // ---------------------------------------------------------------- handing out tools

  /** The flow with these tools at the ids in `tools`, and none elsewhere. */
  function Equipped(nodes: seq<Node>, tools: map<string, string>): seq<Node> {
    seq(|nodes|, k requires 0 <= k < |nodes| =>
      nodes[k].(agentTools := if nodes[k].id in tools then [tools[nodes[k].id]] else []))
  }

  lemma EquippedTools(nodes: seq<Node>, tools: map<string, string>, id: string)
    ensures SameSkeleton(nodes, Equipped(nodes, tools))
    ensures ToolsOf(Equipped(nodes, tools), id) ==
      if IsAgent(nodes, id) && id in tools && tools[id] != "" then [tools[id]] else []
  {
    var start := Equipped(nodes, tools);
    SameName(nodes, start, id);
    if NodeById(start, id).Some? {
      var k := NodeByIdFinds(start, id);
      if id in tools { OneTool(tools[id]); }
    }
  }

  lemma OneTool(tool: string)
    ensures NonEmpty([tool]) == if tool == "" then [] else [tool]
  {
    var none: seq<string> := [];
    assert [tool][1..] == none && [tool] + none == [tool];
  }

  ghost predicate OnlyAt(nodes: seq<Node>, x: string) {
    ToolsOf(nodes, x) != [] && forall y :: y != x ==> ToolsOf(nodes, y) == []
  }

  lemma EquippedAt(nodes: seq<Node>, x: string) returns (start: seq<Node>)
    requires IsAgent(nodes, x)
    ensures SameSkeleton(nodes, start) && OnlyAt(start, x) && ToolsOf(start, x) == ["x"]
  {
    start := Equipped(nodes, map[x := "x"]);
    forall y ensures ToolsOf(start, y) == if y == x then ["x"] else [] { EquippedTools(nodes, map[x := "x"], y); }
    EquippedTools(nodes, map[x := "x"], x);
  }

  /** `x` stands before `y` in the list. */
  ghost predicate Precedes(ids: seq<string>, x: string, y: string) { exists i, j :: 0 <= i < j < |ids| && ids[i] == x && ids[j] == y }

  /** The first agent with tools decides. */
  lemma {:induction false} FirstToolsAt(nodes: seq<Node>, ids: seq<string>, x: string)
    requires x in ids && ToolsOf(nodes, x) != []
    requires forall y :: y in ids && y != x && ToolsOf(nodes, y) != [] ==> !Precedes(ids, y, x)
    ensures FirstTools(nodes, ids) == ToolsOf(nodes, x)
    decreases |ids|
  {
    if ids[0] != x {
      assert ids == [ids[0]] + ids[1..];
      var j :| 0 <= j < |ids| && ids[j] == x;
      assert Precedes(ids, ids[0], x);
      forall y | y in ids[1..] && y != x && ToolsOf(nodes, y) != [] ensures !Precedes(ids[1..], y, x) {
        PrecedesBehind(ids, y, x);
      }
      FirstToolsAt(nodes, ids[1..], x);
    }
  }

  lemma PrecedesBehind(ids: seq<string>, x: string, y: string)
    requires ids != []
    ensures Precedes(ids[1..], x, y) ==> Precedes(ids, x, y)
  {
    if i, j :| 0 <= i < j < |ids[1..]| && ids[1..][i] == x && ids[1..][j] == y {
      assert ids[i + 1] == x && ids[j + 1] == y;
    }
  }

  /** The agent whose tools come first, if any has tools. */
  lemma {:induction false} FirstToolsFrom(nodes: seq<Node>, ids: seq<string>) returns (k: nat)
    requires FirstTools(nodes, ids) != []
    ensures k < |ids| && FirstTools(nodes, ids) == ToolsOf(nodes, ids[k])
    ensures forall i :: 0 <= i < k ==> ToolsOf(nodes, ids[i]) == []
    decreases |ids|
  {
    if ToolsOf(nodes, ids[0]) != [] {
      k := 0;
    } else {
      var m := FirstToolsFrom(nodes, ids[1..]);
      k := m + 1;
      forall i | 1 <= i < k ensures ToolsOf(nodes, ids[i]) == [] { assert ids[i] == ids[1..][i - 1]; }
    }
  }

  /** Tools at one agent only show exactly when the search meets that agent. */
  lemma {:induction false} OnlyToolsShow(nodes: seq<Node>, ids: seq<string>, x: string)
    requires OnlyAt(nodes, x)
    ensures FirstTools(nodes, ids) == if x in ids then ToolsOf(nodes, x) else []
    decreases |ids|
  {
    if ids != [] {
      assert ids == [ids[0]] + ids[1..];
      OnlyToolsShow(nodes, ids[1..], x);
    }
  }

  ghost predicate IsReached(edges: seq<Edge>, start: string, from: string, v: string) {
    exists n: nat :: Within(edges, start, from, n, v)
  }

  lemma ReachedShows(nodes: seq<Node>, edges: seq<Edge>, start: string, from: string, x: string)
    requires OnlyAt(nodes, x)
    ensures NoneReachable(nodes, edges, start, from) <==> !IsReached(edges, start, from, x)
  {
  }

  /** The search meets exactly the agents that can be reached backwards once the shape test is passed. */
  lemma SeenExactly(nodes: seq<Node>, edges: seq<Edge>, id: string, x: string)
    ensures
      var inbound := FirstInbound(edges, id);
      x in Seen(id, nodes, edges) <==>
      IsAgent(nodes, x) && inbound.Some? && HasShape(nodes, inbound.value) && IsReached(edges, id, inbound.value.source, x)
  {
    SeenIsDistinct(id, nodes, edges);
    var inbound := FirstInbound(edges, id);
    if IsAgent(nodes, x) && inbound.Some? && HasShape(nodes, inbound.value) {
      var start := EquippedAt(nodes, x);
      assert x in Seen(id, nodes, edges) <==> ProposingTools(id, start, edges) != [] by {
        OnlyToolsShow(start, Seen(id, start, edges), x);
        ProposesFirstTools(id, start, edges);
        SeenOnSkeleton(nodes, start, edges, id);
      }
      SameShapeTest(nodes, start, inbound.value);
      EmptyExactlyWhen(id, start, edges);
      ReachedShows(start, edges, id, inbound.value.source, x);
    }
  }

  // ---------------------------------------------------------------- two searches compared

  /** Tools at two agents only: the one that comes first shows. */
  lemma TwoAgents(nodes: seq<Node>, x: string, y: string) returns (start: seq<Node>)
    requires x != y && IsAgent(nodes, x) && IsAgent(nodes, y)
    ensures start == Equipped(nodes, map[x := "x", y := "y"]) && SameSkeleton(nodes, start)
    ensures forall ids :: x in ids && !Precedes(ids, y, x) ==> FirstTools(start, ids) == ["x"]
    ensures forall ids :: y in ids && !Precedes(ids, x, y) ==> FirstTools(start, ids) == ["y"]
  {
    var tools := map[x := "x", y := "y"];
    start := Equipped(nodes, tools);
    forall v ensures ToolsOf(start, v) == if v == x then ["x"] else if v == y then ["y"] else [] { EquippedTools(nodes, tools, v); }
    EquippedTools(nodes, tools, x);
    forall ids | x in ids && !Precedes(ids, y, x) ensures FirstTools(start, ids) == ["x"] { FirstToolsAt(start, ids, x); }
    forall ids | y in ids && !Precedes(ids, x, y) ensures FirstTools(start, ids) == ["y"] { FirstToolsAt(start, ids, y); }
  }

  /** Where two distinct lists part. */
  lemma {:induction false} PartAt(a: seq<string>, b: seq<string>) returns (k: nat)
    requires a != b
    ensures k <= |a| && k <= |b| && a[..k] == b[..k]
    ensures (k < |a| || k < |b|) && (k < |a| && k < |b| ==> a[k] != b[k])
    decreases |a|
  {
    if a == [] || b == [] || a[0] != b[0] {
      k := 0;
    } else {
      assert a == [a[0]] + a[1..] && b == [b[0]] + b[1..];
      var m := PartAt(a[1..], b[1..]);
      assert a[..m + 1] == [a[0]] + a[1..][..m] && b[..m + 1] == [b[0]] + b[1..][..m];
      k := m + 1;
    }
  }

  lemma OneAgent(nodes: seq<Node>, x: string) returns (start: seq<Node>)
    requires IsAgent(nodes, x)
    ensures SameSkeleton(nodes, start)
    ensures forall ids :: FirstTools(start, ids) == if x in ids then ["x"] else []
  {
    start := EquippedAt(nodes, x);
    forall ids ensures FirstTools(start, ids) == if x in ids then ["x"] else [] { OnlyToolsShow(start, ids, x); }
  }

  /** Two lists of agents give the same tools, whatever tools the nodes hold, exactly when they are equal. */
  lemma SameToolsExactlyWhen(nodes: seq<Node>, a: seq<string>, b: seq<string>)
    requires Distinct(a) && Distinct(b) && forall v :: v in a || v in b ==> IsAgent(nodes, v)
    ensures (forall start: seq<Node> :: SameSkeleton(nodes, start) ==> FirstTools(start, a) == FirstTools(start, b)) <==> a == b
  {
    if a != b {
      var k := PartAt(a, b);
      if k < |a| && k < |b| {
        assert !Precedes(a, b[k], a[k]) by { BehindThePart(a, b, k); }
        assert !Precedes(b, a[k], b[k]) by { BehindThePart(b, a, k); }
        var start := TwoAgents(nodes, a[k], b[k]);
        assert FirstTools(start, a) == ["x"] && FirstTools(start, b) == ["y"];
      } else if k < |a| {
        NotInPrefix(a, b, k);
        var start := OneAgent(nodes, a[k]);
        assert FirstTools(start, a) != FirstTools(start, b);
      } else {
        NotInPrefix(b, a, k);
        var start := OneAgent(nodes, b[k]);
        assert FirstTools(start, a) != FirstTools(start, b);
      }
    }
  }

  lemma BehindThePart(a: seq<string>, b: seq<string>, k: nat)
    requires Distinct(a) && Distinct(b) && k < |a| && k < |b| && a[..k] == b[..k]
    ensures !Precedes(a, b[k], a[k])
  {
    forall i | 0 <= i < k ensures a[i] == b[i] { assert a[..k][i] == b[..k][i]; }
  }

  lemma NotInPrefix(a: seq<string>, b: seq<string>, k: nat)
    requires Distinct(a) && k == |b| < |a| && a[..k] == b[..k]
    ensures a[k] !in b
  {
    forall i | 0 <= i < k ensures a[i] == b[i] { assert a[..k][i] == b[..k][i]; }
  }

  /** A pair of agents in opposite order: `x` comes first, if not alone, in `a`, and `y` in `b`. */
  ghost predicate Inverted(a: seq<string>, b: seq<string>, x: string, y: string) {
    x != y && x in a && y in b && !Precedes(a, y, x) && !Precedes(b, x, y)
  }

  /** Some of the tools that the first list gives are missing from those that the second gives. */
  ghost predicate Contradicts(a: seq<string>, b: seq<string>) { b != [] && exists t :: t in a && t !in b }

  /** The second list never contradicts the first, whatever tools the nodes hold, exactly when no pair is inverted. */
  lemma NoContradictionExactlyWhen(nodes: seq<Node>, a: seq<string>, b: seq<string>)
    requires Distinct(a) && Distinct(b) && forall v :: v in a || v in b ==> IsAgent(nodes, v)
    ensures
      (forall start: seq<Node> :: SameSkeleton(nodes, start) ==> !Contradicts(FirstTools(start, a), FirstTools(start, b))) <==>
      forall x, y :: !Inverted(a, b, x, y)
  {
    if x, y :| Inverted(a, b, x, y) {
      var start := TwoAgents(nodes, x, y);
      assert FirstTools(start, a) == ["x"] && FirstTools(start, b) == ["y"];
      assert "x" in FirstTools(start, a);
      assert Contradicts(FirstTools(start, a), FirstTools(start, b));
    } else {
      forall start: seq<Node> | SameSkeleton(nodes, start) ensures !Contradicts(FirstTools(start, a), FirstTools(start, b)) {
        AlignedAgree(start, a, b);
      }
    }
  }

  lemma AlignedAgree(nodes: seq<Node>, a: seq<string>, b: seq<string>)
    requires Distinct(a) && Distinct(b) && forall x, y :: !Inverted(a, b, x, y)
    ensures !Contradicts(FirstTools(nodes, a), FirstTools(nodes, b))
  {
    if FirstTools(nodes, a) != [] && FirstTools(nodes, b) != [] {
      var k := FirstToolsFrom(nodes, a);
      var m := FirstToolsFrom(nodes, b);
      assert !Inverted(a, b, a[k], b[m]) && !Precedes(a, b[m], a[k]) && !Precedes(b, a[k], b[m]);
    }
  }
}
