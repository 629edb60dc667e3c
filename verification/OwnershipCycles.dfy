/**
 The depth-first search for circular control in the ownership graph
 (backend/src/ownership/ownership.service.ts:746-767).
 */
module OwnershipCycles {
  import opened Sequences
  import opened OwnershipGraph

  ghost predicate HasEdge(edges: seq<Edge>, a: string, b: string) {
    exists e :: e in edges && e.from == a && e.to == b
  }

  ghost predicate IsPath(edges: seq<Edge>, p: seq<string>) {
    forall i :: 0 <= i < |p| - 1 ==> HasEdge(edges, p[i], p[i + 1])
  }

  ghost predicate IsCycle(edges: seq<Edge>, p: seq<string>) {
    p != [] && IsPath(edges, p) && HasEdge(edges, p[|p| - 1], p[0])
  }

  ghost predicate OnCycle(edges: seq<Edge>, node: string) {
    exists p :: IsCycle(edges, p) && p[0] == node
  }

  function Next(adjacency: map<string, seq<string>>, node: string): seq<string> {
    if node in adjacency then adjacency[node] else []
  }

  ghost predicate Represents(adjacency: map<string, seq<string>>, edges: seq<Edge>) {
    forall a, b :: b in Next(adjacency, a) <==> HasEdge(edges, a, b)
  }

  method BuildAdjacency(edges: seq<Edge>) returns (adjacency: map<string, seq<string>>)
    ensures Represents(adjacency, edges)
  {
    adjacency := map[];
    for i := 0 to |edges|
      invariant Represents(adjacency, edges[..i])
    {
      var e := edges[i];
      ghost var before := adjacency;
      adjacency := adjacency[e.from := Next(adjacency, e.from) + [e.to]];
      forall a, b
        ensures b in Next(adjacency, a) <==> HasEdge(edges[..i + 1], a, b)
      {
        OneMoreEdge(edges, i, a, b);
        assert b in Next(before, a) <==> HasEdge(edges[..i], a, b);
      }
    }
    assert edges[..|edges|] == edges;
  }

  lemma OneMoreEdge(edges: seq<Edge>, i: nat, a: string, b: string)
    requires i < |edges|
    ensures HasEdge(edges[..i + 1], a, b) <==> HasEdge(edges[..i], a, b) || (edges[i].from == a && edges[i].to == b)
  {
    assert edges[..i + 1] == edges[..i] + [edges[i]];
  }

  /** Everything a finished node leads to is reported or was finished before it. */
  ghost predicate Topological(edges: seq<Edge>, finished: seq<string>, cycleNodes: set<string>) {
    forall i, b :: 0 <= i < |finished| && HasEdge(edges, finished[i], b) ==> b in cycleNodes || b in finished[..i]
  }

  /** The cycle starts at the `i`-th discovered node, and none of its nodes was discovered before. */
  ghost predicate FirstOn(edges: seq<Edge>, order: seq<string>, i: nat, p: seq<string>) {
    p != [] && i < |order| && IsCycle(edges, p) && p[0] == order[i] && forall n :: n in p ==> n !in order[..i]
  }

  /** The node was the first to be discovered of all the nodes of some cycle. */
  ghost predicate StartsCycle(edges: seq<Edge>, order: seq<string>, node: string) {
    exists i: nat, p :: FirstOn(edges, order, i, p) && p != [] && p[0] == node
  }

  /** The nodes were discovered in the order of the path. */
  ghost predicate InOrder(order: seq<string>, path: seq<string>) {
    forall i, k, m :: 0 <= k <= m < |path| && 0 <= i < |order| && order[i] == path[k] ==> path[m] !in order[..i]
  }

  /** How far the search is: the nodes in the order they were discovered, and as they were finished. */
  datatype Progress = Progress(order: seq<string>, finished: seq<string>)

  /** What the search knows: the stack is the current path, the rest of `visited` is finished. */
  ghost predicate Searching(edges: seq<Edge>, visited: set<string>, stack: set<string>, cycleNodes: set<string>,
                            path: seq<string>, now: Progress) {
    && IsPath(edges, path)
    && (forall n :: n in stack <==> n in path)
    && (forall n :: n in visited <==> n in path || n in now.finished)
    && (forall n :: n in path ==> n !in now.finished)
    && Topological(edges, now.finished, cycleNodes)
    && Reports(edges, visited, cycleNodes, path, now)
  }

  /** Reported are first nodes of cycles; of the finished ones, all of these. */
  ghost predicate Reports(edges: seq<Edge>, visited: set<string>, cycleNodes: set<string>,
                          path: seq<string>, now: Progress) {
    && Distinct(now.order) && InOrder(now.order, path)
    && (forall n :: n in visited <==> n in now.order)
    && (forall n :: n in cycleNodes ==> n in visited && StartsCycle(edges, now.order, n))
    && (forall i: nat, p :: FirstOn(edges, now.order, i, p) && p != [] && p[0] in now.finished ==> p[0] in cycleNodes)
  }

  lemma ClosingEdge(edges: seq<Edge>, path: seq<string>, order: seq<string>, node: string)
    requires IsPath(edges, path) && node in path && HasEdge(edges, path[|path| - 1], node)
    requires node in order && InOrder(order, path)
    ensures StartsCycle(edges, order, node)
  {
    hide HasEdge;
    var k :| 0 <= k < |path| && path[k] == node;
    var i: nat :| 0 <= i < |order| && order[i] == node;
    var p := path[k..];
    forall n | n in p ensures n !in order[..i] {
      var m :| 0 <= m < |p| && p[m] == n;
      assert path[k + m] == n;
    }
    assert FirstOn(edges, order, i, p);
  }

  /** What was discovered first stays so when another node is discovered. */
  lemma Discovered(edges: seq<Edge>, visited: set<string>, cycleNodes: set<string>, path: seq<string>,
                   now: Progress, node: string)
    requires Reports(edges, visited, cycleNodes, path, now) && node !in visited && node !in now.finished
    requires forall n :: n in path ==> n in visited
    ensures Reports(edges, visited + {node}, cycleNodes, path + [node], now.(order := now.order + [node]))
  {
    hide IsCycle;
    var order' := now.order + [node];
    assert forall i :: 0 <= i <= |now.order| ==> order'[..i] == now.order[..i];
    forall n | n in cycleNodes ensures StartsCycle(edges, order', n) {
      var i: nat, p :| FirstOn(edges, now.order, i, p) && p != [] && p[0] == n;
      assert FirstOn(edges, order', i, p);
    }
    forall i: nat, p | FirstOn(edges, order', i, p) && p != [] && p[0] in now.finished
      ensures p[0] in cycleNodes
    {
      assert i < |now.order|;
      assert FirstOn(edges, now.order, i, p);
    }
  }

  lemma PathExtends(edges: seq<Edge>, path: seq<string>, node: string)
    requires IsPath(edges, path) && (path != [] ==> HasEdge(edges, path[|path| - 1], node))
    ensures IsPath(edges, path + [node])
  {
  }

  lemma FinishedExtends(edges: seq<Edge>, finished: seq<string>, cycleNodes: set<string>, node: string)
    requires Topological(edges, finished, cycleNodes)
    requires forall b :: HasEdge(edges, node, b) ==> b in cycleNodes || b in finished
    ensures Topological(edges, finished + [node], cycleNodes)
  {
    forall i, b | 0 <= i < |finished + [node]| && HasEdge(edges, (finished + [node])[i], b)
      ensures b in cycleNodes || b in (finished + [node])[..i]
    {
      if i < |finished| {
        assert (finished + [node])[..i] == finished[..i];
      } else {
        assert (finished + [node])[..i] == finished;
      }
    }
  }

  /** When all that `x` and the finished nodes lead to is reported or finished, a cycle through `x` gets it reported. */
  lemma {:induction false} RingCloses(edges: seq<Edge>, finished: seq<string>, cycleNodes: set<string>,
                                      x: string, p: seq<string>, j: nat)
    requires Topological(edges, finished, cycleNodes) && x !in finished
    requires forall b :: HasEdge(edges, x, b) ==> b in cycleNodes || b in finished
    requires IsCycle(edges, p) && p[0] == x && j < |p| && (j == 0 || p[j] in finished)
    requires forall n :: n in p && n in cycleNodes ==> n == x || n in finished
    ensures x in cycleNodes
    decreases |p| - j
  {
    var b := if j == |p| - 1 then p[0] else p[j + 1];
    assert HasEdge(edges, p[j], b) && b in p;
    if j > 0 {
      var i :| 0 <= i < |finished| && finished[i] == p[j];
      assert b in cycleNodes || b in finished[..i];
    }
    hide HasEdge;
    if x !in cycleNodes {
      assert b in finished;
      RingCloses(edges, finished, cycleNodes, x, p, j + 1);
    }
  }

  /** A node that is done: if a cycle was first entered at it, it has been reported. */
  lemma Finished(edges: seq<Edge>, visited: set<string>, stack: set<string>, cycleNodes: set<string>,
                 path: seq<string>, now: Progress, node: string)
    requires Searching(edges, visited, stack, cycleNodes, path + [node], now) && node !in path
    requires forall b :: HasEdge(edges, node, b) ==> b in cycleNodes || b in now.finished
    ensures Searching(edges, visited, stack - {node}, cycleNodes, path, now.(finished := now.finished + [node]))
  {
    hide IsCycle, HasEdge, StartsCycle;
    var here := path + [node];
    assert here[|path|] == node && forall k :: 0 <= k < |path| ==> here[k] == path[k];
    assert forall n :: n in here <==> n in path || n == node;
    FinishedExtends(edges, now.finished, cycleNodes, node);
    forall i: nat, p | FirstOn(edges, now.order, i, p) && p != [] && p[0] == node
      ensures node in cycleNodes
    {
      forall n | n in p && n in cycleNodes ensures n == node || n in now.finished {
        if k :| 0 <= k < |path| && path[k] == n {
          var m :| 0 <= m < |now.order| && now.order[m] == n;
          assert here[k] == n && now.order[i] == node;
          EarlierOnPath(now.order, here, k, |path|, m, i);
        }
      }
      RingCloses(edges, now.finished, cycleNodes, node, p, 0);
    }
  }

  lemma EarlierOnPath(order: seq<string>, path: seq<string>, k: nat, m: nat, i: nat, j: nat)
    requires InOrder(order, path) && k < m < |path| && i < |order| && j < |order|
    requires order[i] == path[k] && order[j] == path[m] && path[k] != path[m]
    ensures path[k] in order[..j]
  {
    assert path[m] !in order[..i];
    assert i < j;
    assert order[..j][i] == path[k];
  }

  lemma LeadsInto(edges: seq<Edge>, adjacency: map<string, seq<string>>, node: string, i: nat, all: set<string>)
    requires Represents(adjacency, edges) && i < |Next(adjacency, node)| && forall e :: e in edges ==> e.to in all
    ensures HasEdge(edges, node, Next(adjacency, node)[i]) && Next(adjacency, node)[i] in all
  {
    assert Next(adjacency, node)[i] in Next(adjacency, node);
  }

  lemma NextFinished(edges: seq<Edge>, adjacency: map<string, seq<string>>, cycleNodes: set<string>,
                     finished: seq<string>, node: string)
    requires Represents(adjacency, edges)
    requires var next := Next(adjacency, node);
             forall j :: 0 <= j < |next| ==> next[j] in cycleNodes || next[j] in finished
    ensures forall b :: HasEdge(edges, node, b) ==> b in cycleNodes || b in finished
  {
    hide HasEdge;
    assert forall b :: HasEdge(edges, node, b) ==> b in Next(adjacency, node);
  }

  lemma Closing(edges: seq<Edge>, visited: set<string>, stack: set<string>, cycleNodes: set<string>,
                path: seq<string>, now: Progress, node: string)
    requires Searching(edges, visited, stack, cycleNodes, path, now) && node in stack
    requires path != [] ==> HasEdge(edges, path[|path| - 1], node)
    ensures Searching(edges, visited, stack, cycleNodes + {node}, path, now) && path != [] && node in visited
  {
    hide FirstOn, StartsCycle, IsPath, HasEdge, InOrder;
    ClosingEdge(edges, path, now.order, node);
  }

  lemma Seen(edges: seq<Edge>, visited: set<string>, stack: set<string>, cycleNodes: set<string>,
             path: seq<string>, now: Progress, node: string)
    requires Searching(edges, visited, stack, cycleNodes, path, now) && node in visited && node !in stack
    ensures node in now.finished
  {
  }

  lemma Entering(edges: seq<Edge>, visited: set<string>, stack: set<string>, cycleNodes: set<string>,
                 path: seq<string>, now: Progress, node: string)
    requires Searching(edges, visited, stack, cycleNodes, path, now) && node !in visited
    requires path != [] ==> HasEdge(edges, path[|path| - 1], node)
    ensures Searching(edges, visited + {node}, stack + {node}, cycleNodes, path + [node],
                      now.(order := now.order + [node]))
    ensures node !in path && (path + [node])[|path + [node]| - 1] == node
  {
    hide Topological, Reports, IsPath, HasEdge;
    PathExtends(edges, path, node);
    Discovered(edges, visited, cycleNodes, path, now, node);
  }

  method Walk(ghost edges: seq<Edge>, adjacency: map<string, seq<string>>, node: string, visited: set<string>,
              stack: set<string>, cycleNodes: set<string>, ghost path: seq<string>, ghost now: Progress,
              ghost all: set<string>)
    returns (visited': set<string>, cycleNodes': set<string>, ghost now': Progress)
    requires Represents(adjacency, edges) && node in all && forall e :: e in edges ==> e.to in all
    requires Searching(edges, visited, stack, cycleNodes, path, now)
    requires path != [] ==> HasEdge(edges, path[|path| - 1], node)
    ensures Searching(edges, visited', stack, cycleNodes', path, now')
    ensures visited <= visited' && cycleNodes <= cycleNodes' && node in visited'
    ensures node in cycleNodes' || node in now'.finished
    ensures forall n :: n in now.finished ==> n in now'.finished
    ensures now.order <= now'.order
    decreases all - visited
  {
    hide *;
    visited', cycleNodes', now' := visited, cycleNodes, now;
    if node in stack {
      Closing(edges, visited, stack, cycleNodes, path, now, node);
      cycleNodes' := cycleNodes + {node};
      return;
    }
    if node in visited {
      Seen(edges, visited, stack, cycleNodes, path, now, node);
      return;
    }
    Entering(edges, visited, stack, cycleNodes, path, now, node);
    visited' := visited + {node};
    ghost var here := path + [node];
    now' := now.(order := now.order + [node]);
    var next := Next(adjacency, node);
    for i := 0 to |next|
      invariant Searching(edges, visited', stack + {node}, cycleNodes', here, now')
      invariant visited + {node} <= visited' && cycleNodes <= cycleNodes'
      invariant forall n :: n in now.finished ==> n in now'.finished
      invariant now.order <= now'.order
      invariant forall j :: 0 <= j < i ==> next[j] in cycleNodes' || next[j] in now'.finished
    {
      LeadsInto(edges, adjacency, node, i, all);
      visited', cycleNodes', now' :=
        Walk(edges, adjacency, next[i], visited', stack + {node}, cycleNodes', here, now', all);
    }
    NextFinished(edges, adjacency, cycleNodes', now'.finished, node);
    Finished(edges, visited', stack + {node}, cycleNodes', path, now', node);
    assert stack + {node} - {node} == stack;
    now' := now'.(finished := now'.finished + [node]);
  }

  /** No node of the path or cycle is reported. */
  ghost predicate Missed(cycleNodes: set<string>, p: seq<string>) {
    forall n :: n in p ==> n !in cycleNodes
  }

  /** Along a path without reported nodes the finishing index falls with every edge. */
  lemma {:induction false} EarlierAlong(edges: seq<Edge>, finished: seq<string>, cycleNodes: set<string>,
                                        p: seq<string>, i: nat)
    returns (j: nat)
    requires Topological(edges, finished, cycleNodes) && IsPath(edges, p) && p != [] && Missed(cycleNodes, p)
    requires i < |finished| && finished[i] == p[0]
    ensures j <= i && finished[j] == p[|p| - 1]
    decreases |p|
  {
    if |p| == 1 {
      return i;
    }
    assert HasEdge(edges, p[0], p[1]) && p[1] !in cycleNodes;
    var k :| 0 <= k < i && finished[k] == p[1];
    j := EarlierAlong(edges, finished, cycleNodes, p[1..], k);
  }

  lemma {:induction false} NoFinishedCycle(edges: seq<Edge>, finished: seq<string>, cycleNodes: set<string>,
                                           p: seq<string>, i: nat)
    requires Topological(edges, finished, cycleNodes) && IsCycle(edges, p) && Missed(cycleNodes, p)
    requires i < |finished| && finished[i] == p[0]
    ensures false
    decreases i
  {
    var j := EarlierAlong(edges, finished, cycleNodes, p, i);
    assert HasEdge(edges, finished[j], p[0]) && p[0] !in cycleNodes;
    var k :| 0 <= k < j && finished[k] == p[0];
    NoFinishedCycle(edges, finished, cycleNodes, p, k);
  }

  /** Every cycle through a finished node has a reported node. */
  lemma FinishedCycleIsReported(edges: seq<Edge>, finished: seq<string>, cycleNodes: set<string>, p: seq<string>)
    requires Topological(edges, finished, cycleNodes) && IsCycle(edges, p) && p[0] in finished
    ensures exists n :: n in p && n in cycleNodes
  {
    if Missed(cycleNodes, p) {
      var i :| 0 <= i < |finished| && finished[i] == p[0];
      NoFinishedCycle(edges, finished, cycleNodes, p, i);
    }
  }

  /**
   The reported nodes are exactly those that were the first to be discovered of all the nodes of
   some directed cycle; so every cycle through a listed node has at least one of its nodes reported.
   */
  method DetectCycleNodes(nodes: seq<Node>, edges: seq<Edge>)
    returns (cycleNodes: set<string>, ghost order: seq<string>)
    ensures Distinct(order) && forall n :: n in nodes ==> n.id in order
    ensures forall n :: n in cycleNodes <==> StartsCycle(edges, order, n)
    ensures forall n :: n in cycleNodes ==> OnCycle(edges, n)
    ensures forall p :: IsCycle(edges, p) && HasNode(nodes, p[0]) ==> exists n :: n in p && n in cycleNodes
  {
    hide HasEdge, IsPath, Represents, Topological, FirstOn, InOrder, StartsCycle, OnCycle;
    var adjacency := BuildAdjacency(edges);
    ghost var all := (set n | n in nodes :: n.id) + (set e | e in edges :: e.to);
    var visited: set<string> := {};
    ghost var now := Progress([], []);
    cycleNodes := {};
    NothingSearched(edges);
    for i := 0 to |nodes|
      invariant Searching(edges, visited, {}, cycleNodes, [], now)
      invariant forall j :: 0 <= j < i ==> nodes[j].id in visited
    {
      visited, cycleNodes, now := Walk(edges, adjacency, nodes[i].id, visited, {}, cycleNodes, [], now, all);
    }
    order := now.order;
    AllReported(edges, cycleNodes, now);
    forall p | IsCycle(edges, p) && HasNode(nodes, p[0])
      ensures exists n :: n in p && n in cycleNodes
    {
      FinishedCycleIsReported(edges, now.finished, cycleNodes, p);
    }
  }

  lemma NothingSearched(edges: seq<Edge>)
    ensures Searching(edges, {}, {}, {}, [], Progress([], []))
  {
  }

  lemma AllReported(edges: seq<Edge>, cycleNodes: set<string>, now: Progress)
    requires forall n :: n in cycleNodes ==> StartsCycle(edges, now.order, n)
    requires forall n :: n in now.order ==> n in now.finished
    requires forall i: nat, p :: FirstOn(edges, now.order, i, p) && p != [] && p[0] in now.finished ==>
               p[0] in cycleNodes
    ensures forall n :: n in cycleNodes <==> StartsCycle(edges, now.order, n)
    ensures forall n :: n in cycleNodes ==> OnCycle(edges, n)
  {
  }
}
