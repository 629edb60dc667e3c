/**
 What the breadth-first graph contains: exactly the companies within four steps are
 expanded, each link into one of them is one edge, and every edge joins listed nodes.
 (backend/src/ownership/ownership.service.ts:367-421)
 */
module OwnershipGraphShape {
  import opened Sequences
  import opened Strings
  import opened OwnershipLinks
  import opened OwnershipSubgraph
  import opened OwnershipGraph

  /** The companies exactly `d` steps above the root, or fewer. */
  ghost predicate AtDistance(links: seq<Link>, root: string, v: Visit) {
    v.org in Reach(links, root, v.depth) && (v.depth > 0 ==> v.org !in Reach(links, root, v.depth - 1))
  }

  /**
   The search at level `d`: the first `k` queued companies are at level `d`, the others one
   further; everything within `d` steps has been expanded or is among the first `k`.
   */
  ghost predicate Level(links: seq<Link>, root: string, queue: seq<Visit>, visited: set<string>, d: nat, k: nat) {
    LevelDepths(queue, d, k) && LevelOrgs(links, root, Orgs(queue[..k]), Orgs(queue[k..]), visited, d)
  }

  ghost predicate LevelDepths(queue: seq<Visit>, d: nat, k: nat) {
    && k <= |queue|
    && (forall v :: v in queue[..k] ==> v.depth == d)
    && (forall v :: v in queue[k..] ==> v.depth == d + 1)
  }

  ghost predicate LevelOrgs(links: seq<Link>, root: string, near: set<string>, far: set<string>, visited: set<string>,
                            d: nat)
  {
    && near <= Reach(links, root, d)
    && far <= Reach(links, root, d + 1)
    && visited <= Reach(links, root, d)
    && (d > 0 ==> Reach(links, root, d - 1) <= visited)
    && Reach(links, root, d) <= visited + near
    && Above(links, visited) <= visited + near + far
  }

  lemma AboveOfOne(links: seq<Link>, org: string, depth: nat)
    ensures Above(links, {org}) == Orgs(NextVisits(Owners(links, org), depth))
  {
    var owners := Owners(links, org);
    NextVisitsAre(owners, depth);
    FilterMembers(OwnedBy(org), links);
    forall p | p in Above(links, {org})
      ensures p in Orgs(NextVisits(owners, depth))
    {
      var l :| l in links && HasParent(l) && Digits(l.ownedOrganisationNumber) != "" &&
               Digits(l.ownedOrganisationNumber) in {org} && Parent(l) == p;
      assert l in owners;
    }
  }

  lemma AboveUnion(links: seq<Link>, a: set<string>, b: set<string>)
    ensures Above(links, a + b) == Above(links, a) + Above(links, b)
  {
  }

  lemma AboveOfReached(links: seq<Link>, root: string, d: nat, org: string)
    requires org in Reach(links, root, d)
    ensures Above(links, {org}) <= Reach(links, root, d + 1)
  {
    var near := Reach(links, root, d);
    assert near == near + {org};
    AboveUnion(links, near, {org});
  }

  lemma {:induction false} DeepQueueExpandsNothing(links: seq<Link>, queue: seq<Visit>, visited: set<string>)
    requires forall v :: v in queue ==> v.depth > MAX_GRAPH_DEPTH
    ensures ExpandOrder(links, queue, visited) == []
    decreases |queue|
  {
    if queue != [] {
      Expanding(links, queue, visited);
      DeepQueueExpandsNothing(links, queue[1..], visited);
    }
  }

  lemma {:induction false} ReachSettles(links: seq<Link>, root: string, d: nat, n: nat)
    requires d <= n && Above(links, Reach(links, root, d)) <= Reach(links, root, d)
    ensures Reach(links, root, n) == Reach(links, root, d)
  {
    hide Above;
    if d < n {
      ReachSettles(links, root, d, n - 1);
    }
  }

  lemma SplitQueue(queue: seq<Visit>, k: nat, more: seq<Visit>)
    requires 0 < k <= |queue|
    ensures Orgs(queue[..k]) == {queue[0].org} + Orgs((queue[1..] + more)[..k - 1])
    ensures Orgs((queue[1..] + more)[k - 1..]) == Orgs(queue[k..]) + Orgs(more)
  {
    var rest := queue[1..];
    assert queue[..k] == [queue[0]] + rest[..k - 1] && (rest + more)[..k - 1] == rest[..k - 1];
    assert (rest + more)[k - 1..] == queue[k..] + more;
    OrgsConcat([queue[0]], rest[..k - 1]);
    OrgsConcat(queue[k..], more);
  }

  lemma SplitDepths(queue: seq<Visit>, d: nat, k: nat, more: seq<Visit>)
    requires 0 < k && LevelDepths(queue, d, k) && forall v :: v in more ==> v.depth == d + 1
    ensures LevelDepths(queue[1..] + more, d, k - 1)
  {
    var rest := queue[1..];
    assert queue[..k] == [queue[0]] + rest[..k - 1] && (rest + more)[..k - 1] == rest[..k - 1];
    assert (rest + more)[k - 1..] == queue[k..] + more;
  }

  lemma SkippedVisit(links: seq<Link>, root: string, queue: seq<Visit>, visited: set<string>, d: nat, k: nat)
    requires Level(links, root, queue, visited, d, k) && k > 0 && queue[0].org in visited
    ensures Level(links, root, queue[1..], visited, d, k - 1)
  {
    hide Above, Reach, Orgs;
    SplitQueue(queue, k, []);
    SplitDepths(queue, d, k, []);
    assert queue[1..] + [] == queue[1..] && Orgs([]) == {} by { NoOrgs(); }
  }

  lemma NoOrgs()
    ensures Orgs([]) == {}
  {
  }

  lemma ExpandedOrgs(links: seq<Link>, root: string, org: string, near: set<string>, far: set<string>,
                     visited: set<string>, d: nat)
    requires LevelOrgs(links, root, {org} + near, far, visited, d)
    ensures LevelOrgs(links, root, near, far + Above(links, {org}), visited + {org}, d)
  {
    assert org in {org} + near;
    AboveOfReached(links, root, d, org);
    AboveUnion(links, visited, {org});
    hide Above, Reach;
  }

  lemma ExpandedVisit(links: seq<Link>, root: string, queue: seq<Visit>, visited: set<string>, d: nat, k: nat)
    requires Level(links, root, queue, visited, d, k) && k > 0
    ensures Level(links, root, queue[1..] + NextVisits(Owners(links, queue[0].org), d + 1),
                  visited + {queue[0].org}, d, k - 1)
  {
    hide Above, Reach, NextVisits, Owners, Orgs, LevelOrgs, LevelDepths;
    LevelBounds(links, root, queue, visited, d, k);
    var org := queue[0].org;
    var more := NextVisits(Owners(links, org), d + 1);
    NextVisitsAre(Owners(links, org), d + 1);
    AboveOfOne(links, org, d + 1);
    SplitQueue(queue, k, more);
    SplitDepths(queue, d, k, more);
    ExpandedOrgs(links, root, org, Orgs((queue[1..] + more)[..k - 1]), Orgs(queue[k..]), visited, d);
  }

  lemma NextLevel(links: seq<Link>, root: string, queue: seq<Visit>, visited: set<string>, d: nat)
    requires Level(links, root, queue, visited, d, 0)
    ensures visited == Reach(links, root, d)
    ensures Level(links, root, queue, visited, d + 1, |queue|)
  {
    hide Above;
    assert queue[..0] == [] && queue[0..] == queue && queue[..|queue|] == queue && queue[|queue|..] == [];
    assert Orgs([]) == {};
    ReachMonotone(links, root, d, d + 1);
  }

  /** `order` expands what is left of the companies within four steps, each once, at its distance. */
  ghost predicate Covers(links: seq<Link>, root: string, order: seq<Visit>, visited: set<string>) {
    && visited + Orgs(order) == Reach(links, root, MAX_GRAPH_DEPTH)
    && (forall v :: v in order ==> v.org !in visited && AtDistance(links, root, v))
    && (forall i, j :: 0 <= i < j < |order| ==> order[i].org != order[j].org)
  }

  lemma CoversCons(links: seq<Link>, root: string, v: Visit, order: seq<Visit>, visited: set<string>)
    requires Covers(links, root, order, visited + {v.org}) && v.org !in visited && AtDistance(links, root, v)
    ensures Covers(links, root, [v] + order, visited)
  {
    hide Reach;
    OrgsConcat([v], order);
    assert Orgs([v]) == {v.org};
    forall i, j | 0 <= i < j < |[v] + order|
      ensures ([v] + order)[i].org != ([v] + order)[j].org
    {
      assert order[j - 1] in order;
    }
  }

  lemma FirstIsAtDistance(links: seq<Link>, root: string, queue: seq<Visit>, visited: set<string>, d: nat, k: nat)
    requires Level(links, root, queue, visited, d, k) && k > 0 && queue[0].org !in visited
    ensures queue[0].depth == d && AtDistance(links, root, queue[0])
  {
    assert queue[0] in queue[..k];
  }

  lemma FarQueueIsDeep(links: seq<Link>, root: string, queue: seq<Visit>, visited: set<string>)
    requires Level(links, root, queue, visited, MAX_GRAPH_DEPTH, 0)
    ensures Covers(links, root, ExpandOrder(links, queue, visited), visited)
  {
    NextLevel(links, root, queue, visited, MAX_GRAPH_DEPTH);
    assert queue[0..] == queue;
    DeepQueueExpandsNothing(links, queue, visited);
    NoOrgs();
  }

  lemma {:induction false} ExpandsTheRest(links: seq<Link>, root: string, queue: seq<Visit>, visited: set<string>,
                                          d: nat, k: nat)
    requires Level(links, root, queue, visited, d, k) && d <= MAX_GRAPH_DEPTH
    ensures Covers(links, root, ExpandOrder(links, queue, visited), visited)
    decreases Pending(links, queue, visited), |queue|, if k == 0 then 1 else 0
  {
    hide Reach, Above, NextVisits, Owners, Pending, Covers, AtDistance, Orgs, LevelDepths, LevelOrgs;
    if k == 0 {
      NextLevel(links, root, queue, visited, d);
      if queue == [] {
        SearchEnds(links, root, visited, d);
      } else if d == MAX_GRAPH_DEPTH {
        FarQueueIsDeep(links, root, queue, visited);
      } else {
        ExpandsTheRest(links, root, queue, visited, d + 1, |queue|);
      }
    } else {
      assert |queue| > 0 by { LevelBounds(links, root, queue, visited, d, k); }
      Expanding(links, queue, visited);
      var v := queue[0];
      if v.org in visited {
        SkippedVisit(links, root, queue, visited, d, k);
        ExpandsTheRest(links, root, queue[1..], visited, d, k - 1);
      } else {
        FirstIsAtDistance(links, root, queue, visited, d, k);
        ExpandedVisit(links, root, queue, visited, d, k);
        var queue' := queue[1..] + NextVisits(Owners(links, v.org), d + 1);
        ExpandsTheRest(links, root, queue', visited + {v.org}, d, k - 1);
        CoversCons(links, root, v, ExpandOrder(links, queue', visited + {v.org}), visited);
      }
    }
  }

  lemma LevelBounds(links: seq<Link>, root: string, queue: seq<Visit>, visited: set<string>, d: nat, k: nat)
    requires Level(links, root, queue, visited, d, k)
    ensures k <= |queue|
  {
  }

  lemma SearchEnds(links: seq<Link>, root: string, visited: set<string>, d: nat)
    requires Level(links, root, [], visited, d, 0) && d <= MAX_GRAPH_DEPTH
    ensures Covers(links, root, ExpandOrder(links, [], visited), visited)
  {
    NoOrgs();
    NextLevel(links, root, [], visited, d);
    ReachSettles(links, root, d, MAX_GRAPH_DEPTH);
  }

  /** The expanded companies are exactly those within four steps, each once, at their distance. */
  lemma ExpandsExactlyWithinFour(links: seq<Link>, root: string)
    ensures Covers(links, root, Order(links, root), {})
  {
    var queue := [Visit(root, 0)];
    assert Orgs(queue[..1]) == {root} && Orgs(queue[1..]) == {} && queue[..1] == queue;
    ExpandsTheRest(links, root, queue, {}, 0, 1);
  }

  // --- Edges ---

  /** The edge a link into a company within reach becomes. */
  function EdgeFor(l: Link, root: string): Edge {
    var org := Digits(l.ownedOrganisationNumber);
    Edge(l.id, OwnerId(l), CompanyId(org), l.ownershipPercentage, l.controlPercentage, org == root)
  }

  /** A link into one of `orgs`. */
  ghost predicate LinkInto(links: seq<Link>, orgs: set<string>, l: Link) {
    l in links && Digits(l.ownedOrganisationNumber) != "" && Digits(l.ownedOrganisationNumber) in orgs
  }

  lemma DirectMeansRoot(links: seq<Link>, root: string, v: Visit)
    requires AtDistance(links, root, v)
    ensures v.depth == 0 <==> v.org == root
  {
    hide Above;
    if v.depth > 0 {
      ReachMonotone(links, root, 0, v.depth - 1);
      assert Reach(links, root, 0) == {root};
    }
  }

  lemma {:induction false} EdgesIntoAre(owners: seq<Link>, v: Visit)
    ensures forall i :: 0 <= i < |owners| ==> EdgesInto(owners, v)[i] == EdgeOf(owners[i], v)
  {
    if owners != [] {
      EdgesIntoAre(owners[..|owners| - 1], v);
    }
  }

  lemma LinkIntoUnion(links: seq<Link>, a: set<string>, b: set<string>)
    ensures forall l :: LinkInto(links, a + b, l) <==> LinkInto(links, a, l) || LinkInto(links, b, l)
  {
  }

  lemma {:induction false} EdgesOfAre(links: seq<Link>, root: string, order: seq<Visit>)
    requires forall v :: v in order ==> AtDistance(links, root, v)
    ensures forall e :: e in EdgesOf(links, order) ==>
              exists l :: LinkInto(links, Orgs(order), l) && e == EdgeFor(l, root)
    ensures forall l :: LinkInto(links, Orgs(order), l) ==> EdgeFor(l, root) in EdgesOf(links, order)
  {
    hide LinkInto, AtDistance, EdgeFor;
    if order == [] {
      NoLinkInto(links);
    } else {
      var before, v := order[..|order| - 1], order[|order| - 1];
      assert order == before + [v] && v in order;
      EdgesOfAre(links, root, before);
      OrgsConcat(before, [v]);
      LinkIntoUnion(links, Orgs(before), {v.org});
      assert Orgs([v]) == {v.org};
      DirectMeansRoot(links, root, v);
      EdgesIntoOne(links, root, v);
    }
  }

  lemma NoLinkInto(links: seq<Link>)
    ensures forall l :: !LinkInto(links, Orgs([]), l)
  {
  }

  lemma EdgesIntoOne(links: seq<Link>, root: string, v: Visit)
    requires v.depth == 0 <==> v.org == root
    ensures forall e :: e in EdgesInto(Owners(links, v.org), v) ==>
              exists l :: LinkInto(links, {v.org}, l) && e == EdgeFor(l, root)
    ensures forall l :: LinkInto(links, {v.org}, l) ==> EdgeFor(l, root) in EdgesInto(Owners(links, v.org), v)
  {
    var owners := Owners(links, v.org);
    OwnersAreLinksInto(links, root, v);
    EdgesIntoAre(owners, v);
    hide Owners, LinkInto, EdgeFor, EdgeOf;
    forall l | LinkInto(links, {v.org}, l)
      ensures EdgeFor(l, root) in EdgesInto(owners, v)
    {
      var i :| 0 <= i < |owners| && owners[i] == l;
      assert EdgesInto(owners, v)[i] == EdgeFor(l, root);
    }
    forall e | e in EdgesInto(owners, v)
      ensures exists l :: LinkInto(links, {v.org}, l) && e == EdgeFor(l, root)
    {
      var i :| 0 <= i < |owners| && EdgesInto(owners, v)[i] == e;
      assert owners[i] in owners;
    }
  }

  lemma OwnersAreLinksInto(links: seq<Link>, root: string, v: Visit)
    requires v.depth == 0 <==> v.org == root
    ensures forall l :: l in Owners(links, v.org) <==> LinkInto(links, {v.org}, l)
    ensures forall l :: l in Owners(links, v.org) ==> EdgeFor(l, root) == EdgeOf(l, v)
  {
    FilterMembers(OwnedBy(v.org), links);
  }

  ghost predicate EdgeIdsDistinct(edges: seq<Edge>) {
    forall i, j :: 0 <= i < j < |edges| ==> edges[i].id != edges[j].id
  }

  lemma {:induction false} EdgesOfDistinct(links: seq<Link>, root: string, order: seq<Visit>)
    requires UniqueIds(links) && forall v :: v in order ==> AtDistance(links, root, v)
    requires forall i, j :: 0 <= i < j < |order| ==> order[i].org != order[j].org
    ensures EdgeIdsDistinct(EdgesOf(links, order))
  {
    hide LinkInto, EdgeFor, AtDistance, UniqueIds;
    if order != [] {
      var before, v := order[..|order| - 1], order[|order| - 1];
      assert order == before + [v] && v in order;
      EdgesOfDistinct(links, root, before);
      EdgesOfAre(links, root, before);
      DirectMeansRoot(links, root, v);
      EdgesIntoOne(links, root, v);
      EdgesIntoDistinct(links, v);
      assert v.org !in Orgs(before);
      forall e, f | e in EdgesOf(links, before) && f in EdgesInto(Owners(links, v.org), v)
        ensures e.id != f.id
      {
        var l :| LinkInto(links, Orgs(before), l) && e == EdgeFor(l, root);
        var k :| LinkInto(links, {v.org}, k) && f == EdgeFor(k, root);
        DifferentTargets(links, Orgs(before), v.org, l, k, root);
      }
      EdgeIdsConcat(EdgesOf(links, before), EdgesInto(Owners(links, v.org), v));
    }
  }

  lemma DifferentTargets(links: seq<Link>, orgs: set<string>, org: string, l: Link, k: Link, root: string)
    requires UniqueIds(links) && LinkInto(links, orgs, l) && LinkInto(links, {org}, k) && org !in orgs
    ensures EdgeFor(l, root).id != EdgeFor(k, root).id
  {
  }

  lemma EdgeIdsConcat(a: seq<Edge>, b: seq<Edge>)
    requires EdgeIdsDistinct(a) && EdgeIdsDistinct(b) && forall e, f :: e in a && f in b ==> e.id != f.id
    ensures EdgeIdsDistinct(a + b)
  {
    forall i, j | 0 <= i < j < |a + b| ensures (a + b)[i].id != (a + b)[j].id {
      if i < |a| <= j {
        assert a[i] in a && b[j - |a|] in b;
      }
    }
  }

  lemma EdgesIntoDistinct(links: seq<Link>, v: Visit)
    requires UniqueIds(links)
    ensures EdgeIdsDistinct(EdgesInto(Owners(links, v.org), v))
  {
    EdgesIntoAre(Owners(links, v.org), v);
    FilterUniqueIds(OwnedBy(v.org), links);
  }

  /**
   Each link into a company within four steps is one edge, direct exactly when it is into the
   root; there are no others.
   */
  lemma EdgesAreTheLinksInReach(links: seq<Link>, root: string)
    requires UniqueIds(links)
    ensures EdgeIdsDistinct(EdgesOf(links, Order(links, root)))
    ensures forall l :: LinkInto(links, Reach(links, root, MAX_GRAPH_DEPTH), l) ==>
              EdgeFor(l, root) in EdgesOf(links, Order(links, root))
    ensures forall e :: e in EdgesOf(links, Order(links, root)) ==>
              exists l :: LinkInto(links, Reach(links, root, MAX_GRAPH_DEPTH), l) && e == EdgeFor(l, root)
  {
    hide Reach, EdgesOf, ExpandOrder, LinkInto, EdgeFor, AtDistance;
    var order := Order(links, root);
    ExpandsExactlyWithinFour(links, root);
    assert {} + Orgs(order) == Orgs(order);
    EdgesOfAre(links, root, order);
    EdgesOfDistinct(links, root, order);
  }

  // --- Nodes ---

  ghost predicate NodeIdsDistinct(nodes: seq<Node>) {
    forall i, j :: 0 <= i < j < |nodes| ==> nodes[i].id != nodes[j].id
  }

  /** `nodes` lists both ends of every edge. */
  ghost predicate ListsEnds(nodes: seq<Node>, edges: seq<Edge>) {
    forall e :: e in edges ==> HasNode(nodes, e.from) && HasNode(nodes, e.to)
  }

  /** Every node but the root is an end of an edge. */
  ghost predicate OnlyEnds(nodes: seq<Node>, edges: seq<Edge>, root: string) {
    forall n :: n in nodes ==> n.id == CompanyId(root) || exists e :: e in edges && (e.from == n.id || e.to == n.id)
  }

  lemma AddedNode(nodes: seq<Node>, n: Node)
    ensures forall id :: HasNode(AddNode(nodes, n), id) <==> HasNode(nodes, id) || id == n.id
    ensures NodeIdsDistinct(nodes) ==> NodeIdsDistinct(AddNode(nodes, n))
  {
    var after := AddNode(nodes, n);
    if !HasNode(nodes, n.id) {
      assert after[|nodes|] == n && n in after;
      assert forall m :: m in nodes ==> m in after;
    }
  }

  lemma {:induction false} NodesAroundAre(nodes: seq<Node>, owners: seq<Link>, v: Visit)
    ensures NodeIdsDistinct(nodes) ==> NodeIdsDistinct(NodesAround(nodes, owners, v))
    ensures forall id :: HasNode(NodesAround(nodes, owners, v), id) <==>
              HasNode(nodes, id) || exists e :: e in EdgesInto(owners, v) && (e.from == id || e.to == id)
  {
    hide HasNode, NodeIdsDistinct;
    if owners != [] {
      var n := |owners| - 1;
      NodesAroundAre(nodes, owners[..n], v);
      var before := NodesAround(nodes, owners[..n], v);
      var edge := EdgeOf(owners[n], v);
      AddedNode(before, OwnerNode(owners[n]));
      AddedNode(AddNode(before, OwnerNode(owners[n])), TargetNode(owners[n], v.org));
      assert edge in EdgesInto(owners, v);
      assert forall e :: e in EdgesInto(owners[..n], v) ==> e in EdgesInto(owners, v);
      assert forall e :: e in EdgesInto(owners, v) ==> e in EdgesInto(owners[..n], v) || e == edge;
    }
  }

  lemma {:induction false} NodesOfAre(links: seq<Link>, root: string, order: seq<Visit>)
    ensures NodeIdsDistinct(NodesOf(links, root, order))
    ensures forall id :: HasNode(NodesOf(links, root, order), id) <==>
              id == CompanyId(root) || exists e :: e in EdgesOf(links, order) && (e.from == id || e.to == id)
  {
    if order == [] {
      assert RootNode(root) in NodesOf(links, root, order);
    } else {
      hide HasNode, NodeIdsDistinct, Owners;
      var before, v := order[..|order| - 1], order[|order| - 1];
      NodesOfAre(links, root, before);
      NodesAroundAre(NodesOf(links, root, before), Owners(links, v.org), v);
      var old', more := EdgesOf(links, before), EdgesInto(Owners(links, v.org), v);
      assert forall e :: e in old' + more <==> e in old' || e in more;
    }
  }

  /** Every edge joins two listed nodes, no node is listed twice, and nothing else but the root is listed. */
  lemma NodesAreTheEnds(links: seq<Link>, root: string)
    ensures NodeIdsDistinct(NodesOf(links, root, Order(links, root)))
    ensures ListsEnds(NodesOf(links, root, Order(links, root)), EdgesOf(links, Order(links, root)))
    ensures OnlyEnds(NodesOf(links, root, Order(links, root)), EdgesOf(links, Order(links, root)), root)
  {
    var order := Order(links, root);
    hide Order, NodesOf, EdgesOf;
    NodesOfAre(links, root, order);
    forall n | n in NodesOf(links, root, order)
      ensures HasNode(NodesOf(links, root, order), n.id)
    {
    }
  }

  // --- Dependence on the links ---

  lemma {:induction false} OrderAgrees(a: seq<Link>, b: seq<Link>, root: string, queue: seq<Visit>,
                                       visited: set<string>)
    requires SameOwners(a, b, root, MAX_GRAPH_DEPTH)
    requires forall v :: v in queue ==> v.org in Reach(a, root, v.depth)
    ensures ExpandOrder(a, queue, visited) == ExpandOrder(b, queue, visited)
    decreases Pending(a, queue, visited), |queue|
  {
    hide Reach, Owners, SameOwners, Pending;
    if queue != [] {
      Expanding(a, queue, visited);
      Expanding(b, queue, visited);
      var v := queue[0];
      if v.depth > MAX_GRAPH_DEPTH || v.org in visited {
        OrderAgrees(a, b, root, queue[1..], visited);
      } else {
        OwnersAgree(a, b, root, v);
        var more := NextVisits(Owners(a, v.org), v.depth + 1);
        NextInReach(a, root, v);
        OrderAgrees(a, b, root, queue[1..] + more, visited + {v.org});
      }
    }
  }

  lemma OwnersAgree(a: seq<Link>, b: seq<Link>, root: string, v: Visit)
    requires SameOwners(a, b, root, MAX_GRAPH_DEPTH) && v.org in Reach(a, root, v.depth) && v.depth <= MAX_GRAPH_DEPTH
    ensures Owners(a, v.org) == Owners(b, v.org)
  {
    ReachMonotone(a, root, v.depth, MAX_GRAPH_DEPTH);
  }

  lemma NextInReach(links: seq<Link>, root: string, v: Visit)
    requires v.org in Reach(links, root, v.depth)
    ensures forall w :: w in NextVisits(Owners(links, v.org), v.depth + 1) ==> w.org in Reach(links, root, w.depth)
  {
    NextVisitsAre(Owners(links, v.org), v.depth + 1);
    forall w | w in NextVisits(Owners(links, v.org), v.depth + 1)
      ensures w.org in Reach(links, root, w.depth)
    {
      var l :| l in Owners(links, v.org) && HasParent(l) && w.org == Parent(l);
      ReachStep(links, root, v.depth, v.org, l);
    }
  }

  lemma {:induction false} GraphAgrees(a: seq<Link>, b: seq<Link>, root: string, order: seq<Visit>)
    requires forall v :: v in order ==> Owners(a, v.org) == Owners(b, v.org)
    ensures EdgesOf(a, order) == EdgesOf(b, order) && NodesOf(a, root, order) == NodesOf(b, root, order)
  {
    hide Owners;
    if order != [] {
      assert forall v :: v in order[..|order| - 1] ==> v in order;
      GraphAgrees(a, b, root, order[..|order| - 1]);
    }
  }

  /** The graph depends only on the owners of companies within four steps. */
  lemma GraphDependsOnFourSteps(a: seq<Link>, b: seq<Link>, root: string)
    requires SameOwners(a, b, root, MAX_GRAPH_DEPTH)
    ensures Order(a, root) == Order(b, root)
    ensures EdgesOf(a, Order(a, root)) == EdgesOf(b, Order(b, root))
    ensures NodesOf(a, root, Order(a, root)) == NodesOf(b, root, Order(b, root))
  {
    hide Owners, EdgesOf, NodesOf, ExpandOrder, Above;
    OrderAgrees(a, b, root, [Visit(root, 0)], {});
    ExpandsExactlyWithinFour(a, root);
    var order := Order(a, root);
    assert forall v :: v in order ==> v.org in Orgs(order);
    GraphAgrees(a, b, root, order);
  }
}
