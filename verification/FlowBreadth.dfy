/**
 The search for proposing tools without its queue: nodes come up breadth first, those behind a node
 in the order of the edges, and the tools of the first one that has any are the answer.
 */
module FlowBreadth {
  import opened Common
  import opened FlowOrder
  import opened FlowSearch

  /** Edge `k` leads back from the node at `m` to one that has not come up yet. */
  ghost predicate Leads(edges: seq<Edge>, avoid: set<string>, ids: seq<string>, m: nat, k: nat) {
    m < |ids| && k < |edges| && edges[k].target == ids[m] && edges[k].source !in avoid
  }

  /** The first such edge of the first node that has one. */
  ghost predicate LeadsFirst(edges: seq<Edge>, avoid: set<string>, ids: seq<string>, m: nat, k: nat) {
    Leads(edges, avoid, ids, m, k) &&
    forall m': nat, k': nat :: Leads(edges, avoid, ids, m', k') ==> m < m' || (m == m' && k <= k')
  }

  ghost predicate IsNext(edges: seq<Edge>, avoid: set<string>, ids: seq<string>, id: string) {
    exists m: nat, k: nat :: LeadsFirst(edges, avoid, ids, m, k) && edges[k].source == id
  }

  ghost predicate NoneLeft(edges: seq<Edge>, avoid: set<string>, ids: seq<string>) {
    forall m: nat, k: nat :: !Leads(edges, avoid, ids, m, k)
  }

  /** What is not visited again: the start of the search and what has come up. */
  ghost function Met(start: string, ids: seq<string>): set<string> { {start} + set id | id in ids }

  ghost predicate InOrder(edges: seq<Edge>, start: string, ids: seq<string>, n: nat)
    requires n < |ids|
  {
    IsNext(edges, Met(start, ids[..n]), ids[..n], ids[n])
  }

  /** All nodes behind `from`, in breadth-first order. */
  ghost predicate BreadthFirst(edges: seq<Edge>, start: string, from: string, ids: seq<string>) {
    if from == start then ids == []
    else
      ids != [] && ids[0] == from && (forall n :: 0 < n < |ids| ==> InOrder(edges, start, ids, n)) &&
      NoneLeft(edges, Met(start, ids), ids)
  }

  // ---------------------------------------------------------------- there is one such order

  lemma NextIsUnique(edges: seq<Edge>, avoid: set<string>, ids: seq<string>, x: string, y: string)
    requires IsNext(edges, avoid, ids, x) && IsNext(edges, avoid, ids, y)
    ensures x == y
  {
    var m: nat, k: nat :| LeadsFirst(edges, avoid, ids, m, k) && edges[k].source == x;
    var m': nat, k': nat :| LeadsFirst(edges, avoid, ids, m', k') && edges[k'].source == y;
    assert Leads(edges, avoid, ids, m, k) && Leads(edges, avoid, ids, m', k');
  }

  lemma NextMeansMore(edges: seq<Edge>, avoid: set<string>, ids: seq<string>, x: string)
    requires IsNext(edges, avoid, ids, x)
    ensures !NoneLeft(edges, avoid, ids)
  {
    var m: nat, k: nat :| LeadsFirst(edges, avoid, ids, m, k) && edges[k].source == x;
    assert Leads(edges, avoid, ids, m, k);
  }

  lemma {:induction false} SamePrefix(edges: seq<Edge>, start: string, from: string, a: seq<string>, b: seq<string>, n: nat)
    requires from != start && BreadthFirst(edges, start, from, a) && BreadthFirst(edges, start, from, b)
    requires n <= |a|
    ensures n <= |b| && a[..n] == b[..n]
    decreases n
  {
    if n == 1 {
      assert a[..1] == [from] && b[..1] == [from];
    } else if n > 1 {
      SamePrefix(edges, start, from, a, b, n - 1);
      assert InOrder(edges, start, a, n - 1);
      if |b| == n - 1 {
        assert b[..n - 1] == b;
        NextMeansMore(edges, Met(start, b), b, a[n - 1]);
        assert false;
      }
      assert InOrder(edges, start, b, n - 1);
      NextIsUnique(edges, Met(start, a[..n - 1]), a[..n - 1], a[n - 1], b[n - 1]);
      assert a[..n] == a[..n - 1] + [a[n - 1]] && b[..n] == b[..n - 1] + [b[n - 1]];
    }
  }

  /** The law fixes the order. */
  lemma BreadthFirstIsUnique(edges: seq<Edge>, start: string, from: string, a: seq<string>, b: seq<string>)
    requires BreadthFirst(edges, start, from, a) && BreadthFirst(edges, start, from, b)
    ensures a == b
  {
    if from != start {
      SamePrefix(edges, start, from, a, b, |a|);
      SamePrefix(edges, start, from, b, a, |b|);
      assert a[..|a|] == a && b[..|b|] == b;
    }
  }

  // ---------------------------------------------------------------- the queue keeps it

  /** Everything a walk dequeues for the first time, in order. */
  function Visits(edges: seq<Edge>, visited: set<string>, queue: seq<string>): seq<string>
    decreases |queue| + Unfollowed(edges, visited)
  {
    if queue == [] then []
    else if queue[0] in visited then Visits(edges, visited, queue[1..])
    else
      FollowOnce(edges, visited, queue[0]);
      [queue[0]] + Visits(edges, visited + {queue[0]}, queue[1..] + Sources(edges, queue[0]))
  }

  /** The sources behind each of the nodes, as the walk enqueues them. */
  function Backlog(edges: seq<Edge>, ids: seq<string>): seq<string> {
    if ids == [] then [] else Sources(edges, ids[0]) + Backlog(edges, ids[1..])
  }

  lemma {:induction false} BacklogGrows(edges: seq<Edge>, ids: seq<string>, id: string)
    ensures Backlog(edges, ids + [id]) == Backlog(edges, ids) + Sources(edges, id)
    decreases |ids|
  {
    if ids == [] {
      assert [id][1..] == [] && ids + [id] == [id];
      assert Sources(edges, id) + [] == Sources(edges, id);
    } else {
      assert (ids + [id])[1..] == ids[1..] + [id];
      BacklogGrows(edges, ids[1..], id);
    }
  }

  lemma {:induction false} FirstSource(edges: seq<Edge>, avoid: set<string>, target: string, gone: seq<string>, id: string) returns (k: nat)
    requires gone + [id] <= Sources(edges, target) && id !in avoid && forall v :: v in gone ==> v in avoid
    ensures k < |edges| && edges[k].target == target && edges[k].source == id
    ensures forall j :: 0 <= j < k && edges[j].target == target ==> edges[j].source in avoid
    decreases |edges|
  {
    var rest := edges[1..];
    if edges[0].target == target {
      assert Sources(edges, target)[0] == edges[0].source && (gone + [id])[0] == edges[0].source;
      assert Sources(edges, target)[1..] == Sources(rest, target);
    }
    if edges[0].target == target && gone == [] {
      k := 0;
    } else {
      var left := if edges[0].target == target then gone[1..] else gone;
      assert edges[0].target == target ==> (gone + [id])[1..] == left + [id] && gone[0] in gone;
      var j := FirstSource(rest, avoid, target, left, id);
      k := j + 1;
    }
  }

  lemma {:induction false} AllSourcesIn(edges: seq<Edge>, avoid: set<string>, target: string)
    requires forall v :: v in Sources(edges, target) ==> v in avoid
    ensures forall k :: 0 <= k < |edges| && edges[k].target == target ==> edges[k].source in avoid
  {
    SourcesAre(edges, target);
    forall k | 0 <= k < |edges| && edges[k].target == target ensures edges[k].source in avoid {
      assert edges[k] in edges && edges[k].source in Sources(edges, target);
    }
  }

  lemma LeadsShift(edges: seq<Edge>, avoid: set<string>, ids: seq<string>, m: nat, k: nat)
    requires ids != [] && m > 0
    ensures Leads(edges, avoid, ids, m, k) <==> Leads(edges, avoid, ids[1..], m - 1, k)
  {
  }

  /** The first entry of the backlog that is not to be avoided is the source of the first edge that leads on. */
  lemma {:induction false} FirstOfBacklog(edges: seq<Edge>, avoid: set<string>, ids: seq<string>, gone: seq<string>, id: string) returns (m: nat, k: nat)
    requires gone + [id] <= Backlog(edges, ids) && id !in avoid && forall v :: v in gone ==> v in avoid
    ensures LeadsFirst(edges, avoid, ids, m, k) && edges[k].source == id
    decreases |ids|
  {
    var first, rest := Sources(edges, ids[0]), ids[1..];
    var all := first + Backlog(edges, rest);
    assert forall i :: 0 <= i < |gone| ==> gone[i] in gone;
    if |gone| < |first| {
      assert (gone + [id])[..|gone| + 1] == all[..|gone| + 1] == first[..|gone| + 1];
      m := 0;
      k := FirstSource(edges, avoid, ids[0], gone, id);
    } else {
      assert first == all[..|first|] == (gone + [id])[..|first|] == gone[..|first|];
      AllSourcesIn(edges, avoid, ids[0]);
      var left := gone[|first|..];
      assert all[|first|..] == Backlog(edges, rest) && (gone + [id])[|first|..] == left + [id];
      var n: nat;
      n, k := FirstOfBacklog(edges, avoid, rest, left, id);
      m := n + 1;
      LeadsShift(edges, avoid, ids, m, k);
      forall m': nat, k': nat | Leads(edges, avoid, ids, m', k') ensures m < m' || (m == m' && k <= k') {
        if m' > 0 { LeadsShift(edges, avoid, ids, m', k'); }
      }
    }
  }

  lemma {:induction false} BacklogUsedUp(edges: seq<Edge>, avoid: set<string>, ids: seq<string>)
    requires forall v :: v in Backlog(edges, ids) ==> v in avoid
    ensures NoneLeft(edges, avoid, ids)
    decreases |ids|
  {
    if ids != [] {
      AllSourcesIn(edges, avoid, ids[0]);
      BacklogUsedUp(edges, avoid, ids[1..]);
      forall m: nat, k: nat ensures !Leads(edges, avoid, ids, m, k) {
        if m > 0 { LeadsShift(edges, avoid, ids, m, k); }
      }
    }
  }

  /** What the walk makes of a queue, once these nodes have come up. */
  ghost predicate Continues(edges: seq<Edge>, start: string, done: seq<string>, ids: seq<string>) {
    done <= ids && (forall n :: |done| <= n < |ids| ==> InOrder(edges, start, ids, n)) && NoneLeft(edges, Met(start, ids), ids)
  }

  lemma {:induction false} VisitsContinue(edges: seq<Edge>, start: string, done: seq<string>, gone: seq<string>, queue: seq<string>)
    requires Backlog(edges, done) == gone + queue && forall v :: v in gone ==> v in Met(start, done)
    ensures Continues(edges, start, done, done + Visits(edges, Met(start, done), queue))
    decreases |queue| + Unfollowed(edges, Met(start, done))
  {
    var met := Met(start, done);
    if queue == [] {
      assert gone + queue == gone && done + [] == done;
      BacklogUsedUp(edges, met, done);
    } else if queue[0] in met {
      assert gone + queue == (gone + [queue[0]]) + queue[1..];
      VisitsContinue(edges, start, done, gone + [queue[0]], queue[1..]);
    } else {
      ContinuesNew(edges, start, done, gone, queue);
    }
  }

  lemma NewInOrder(edges: seq<Edge>, start: string, done: seq<string>, gone: seq<string>, queue: seq<string>, ids: seq<string>)
    requires Backlog(edges, done) == gone + queue && forall v :: v in gone ==> v in Met(start, done)
    requires queue != [] && queue[0] !in Met(start, done) && done + [queue[0]] <= ids
    ensures InOrder(edges, start, ids, |done|)
  {
    var n := |done|;
    assert ids[..n + 1] == done + [queue[0]];
    assert ids[..n] == done && ids[n] == queue[0];
    assert gone + [queue[0]] <= gone + queue;
    var m, k := FirstOfBacklog(edges, Met(start, done), done, gone, queue[0]);
  }

  lemma ContinuesEarlier(edges: seq<Edge>, start: string, done: seq<string>, id: string, ids: seq<string>)
    requires Continues(edges, start, done + [id], ids) && InOrder(edges, start, ids, |done|)
    ensures Continues(edges, start, done, ids)
  {
    assert done <= done + [id];
  }

  /** The backlog once the front of the queue has come up. */
  lemma BacklogMoves(edges: seq<Edge>, done: seq<string>, gone: seq<string>, queue: seq<string>)
    requires Backlog(edges, done) == gone + queue && queue != []
    ensures Backlog(edges, done + [queue[0]]) == (gone + [queue[0]]) + (queue[1..] + Sources(edges, queue[0]))
  {
    BacklogGrows(edges, done, queue[0]);
    Regroup(gone, queue, Sources(edges, queue[0]));
  }

  lemma Regroup(a: seq<string>, b: seq<string>, c: seq<string>)
    requires b != []
    ensures (a + b) + c == (a + [b[0]]) + (b[1..] + c)
  {
  }

  lemma {:induction false} ContinuesNew(edges: seq<Edge>, start: string, done: seq<string>, gone: seq<string>, queue: seq<string>)
    requires Backlog(edges, done) == gone + queue && forall v :: v in gone ==> v in Met(start, done)
    requires queue != [] && queue[0] !in Met(start, done)
    ensures Continues(edges, start, done, done + Visits(edges, Met(start, done), queue))
    decreases |queue| + Unfollowed(edges, Met(start, done)), 0
  {
    var met, id := Met(start, done), queue[0];
    var more := queue[1..] + Sources(edges, id);
    FollowOnce(edges, met, id);
    assert Met(start, done + [id]) == met + {id};
    BacklogMoves(edges, done, gone, queue);
    VisitsContinue(edges, start, done + [id], gone + [id], more);
    var ids := (done + [id]) + Visits(edges, met + {id}, more);
    assert ids == done + Visits(edges, met, queue);
    NewInOrder(edges, start, done, gone, queue, ids);
    ContinuesEarlier(edges, start, done, id, ids);
  }

  /** The walk visits breadth first. */
  lemma VisitsAreBreadthFirst(edges: seq<Edge>, start: string, from: string)
    ensures BreadthFirst(edges, start, from, Visits(edges, {start}, [from]))
  {
    var none: seq<string> := [];
    assert [from][1..] == none;
    if from != start {
      var queue := none + Sources(edges, from);
      FollowOnce(edges, {start}, from);
      BacklogGrows(edges, none, from);
      assert Met(start, [from]) == {start} + {from} && none + [from] == [from];
      assert Backlog(edges, [from]) == none + queue;
      VisitsContinue(edges, start, [from], none, queue);
    }
  }

  // ---------------------------------------------------------------- the search

  /** The first node of a list that shows tools is the one at `i`. */
  ghost predicate ShowsFirst(nodes: seq<Node>, ids: seq<string>, i: nat) {
    i < |ids| && ToolsOf(nodes, ids[i]) != [] && forall k :: 0 <= k < i ==> ToolsOf(nodes, ids[k]) == []
  }

  ghost predicate GivesFirst(nodes: seq<Node>, ids: seq<string>, tools: seq<string>) {
    if tools == [] then forall id :: id in ids ==> ToolsOf(nodes, id) == []
    else exists i: nat :: ShowsFirst(nodes, ids, i) && tools == ToolsOf(nodes, ids[i])
  }

  lemma GivesBehind(nodes: seq<Node>, id: string, ids: seq<string>, tools: seq<string>)
    requires ToolsOf(nodes, id) == [] && GivesFirst(nodes, ids, tools)
    ensures GivesFirst(nodes, [id] + ids, tools)
  {
    if tools != [] {
      var i: nat :| ShowsFirst(nodes, ids, i) && tools == ToolsOf(nodes, ids[i]);
      assert ShowsFirst(nodes, [id] + ids, i + 1);
    }
  }

  lemma {:induction false} WalkGivesFirst(nodes: seq<Node>, edges: seq<Edge>, visited: set<string>, queue: seq<string>)
    ensures GivesFirst(nodes, Visits(edges, visited, queue), Walk(nodes, edges, visited, queue))
    decreases |queue| + Unfollowed(edges, visited)
  {
    if queue != [] {
      var id := queue[0];
      if id in visited {
        WalkGivesFirst(nodes, edges, visited, queue[1..]);
      } else {
        FollowOnce(edges, visited, id);
        var more := queue[1..] + Sources(edges, id);
        if ToolsOf(nodes, id) == [] {
          WalkGivesFirst(nodes, edges, visited + {id}, more);
          GivesBehind(nodes, id, Visits(edges, visited + {id}, more), Walk(nodes, edges, visited + {id}, more));
        } else {
          assert ShowsFirst(nodes, Visits(edges, visited, queue), 0);
        }
      }
    }
  }

  /** The first edge into a node. */
  ghost predicate FirstInto(edges: seq<Edge>, id: string, k: nat) {
    k < |edges| && edges[k].target == id && forall j :: 0 <= j < k ==> edges[j].target != id
  }

  lemma {:induction false} FirstInboundIs(edges: seq<Edge>, id: string)
    ensures forall k: nat :: FirstInto(edges, id, k) ==> FirstInbound(edges, id) == Some(edges[k])
    ensures FirstInbound(edges, id).Some? ==> exists k: nat :: FirstInto(edges, id, k)
    decreases |edges|
  {
    if edges != [] {
      var rest := edges[1..];
      FirstInboundIs(rest, id);
      if edges[0].target == id {
        assert FirstInto(edges, id, 0);
      } else {
        forall k: nat | FirstInto(edges, id, k) ensures FirstInbound(edges, id) == Some(edges[k]) {
          assert edges[k] == rest[k - 1] && FirstInto(rest, id, k - 1);
        }
        if FirstInbound(rest, id).Some? {
          var k: nat :| FirstInto(rest, id, k);
          assert FirstInto(edges, id, k + 1);
        }
      }
    }
  }

  /**
   The search without its queue: if the first edge into the node passes the shape test, the answer is that of the
   first node with tools, breadth first from the edge's source; otherwise there is none.
   */
  lemma SearchIsBreadthFirst(id: string, nodes: seq<Node>, edges: seq<Edge>)
    ensures
      forall k: nat, ids :: FirstInto(edges, id, k) && HasShape(nodes, edges[k]) && BreadthFirst(edges, id, edges[k].source, ids) ==>
        GivesFirst(nodes, ids, ProposingTools(id, nodes, edges))
    ensures
      ProposingTools(id, nodes, edges) != [] ==> exists k: nat :: FirstInto(edges, id, k) && HasShape(nodes, edges[k])
  {
    FirstInboundIs(edges, id);
    forall k: nat, ids | FirstInto(edges, id, k) && HasShape(nodes, edges[k]) && BreadthFirst(edges, id, edges[k].source, ids)
      ensures GivesFirst(nodes, ids, ProposingTools(id, nodes, edges))
    {
      var from := edges[k].source;
      VisitsAreBreadthFirst(edges, id, from);
      BreadthFirstIsUnique(edges, id, from, ids, Visits(edges, {id}, [from]));
      WalkGivesFirst(nodes, edges, {id}, [from]);
    }
  }
}
