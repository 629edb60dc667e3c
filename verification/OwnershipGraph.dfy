/**
 The node and edge graph around a company, built breadth first and cut off after four
 steps (backend/src/ownership/ownership.service.ts:357-421).
 */
module OwnershipGraph {
  import opened Wrappers
  import opened Sequences
  import opened Strings
  import opened OwnershipLinks
  import opened OwnershipAggregates

  const MAX_GRAPH_DEPTH: nat := 4

  datatype Node = Node(id: string, caption: string, nodeType: OwnerType,
                       organisationNumber: Option<string>, personnummer: Option<string>)

  datatype Edge = Edge(id: string, from: string, to: string, ownershipPercentage: Option<real>,
                       controlPercentage: Option<real>, direct: bool)

  datatype Visit = Visit(org: string, depth: nat)

  function CompanyId(org: string): string { "company:" + org }

  function OwnerId(l: Link): string {
    if l.ownerType.Person? then "person:" + l.ownerPersonnummer.GetOr(l.ownerName)
    else CompanyId(Digits(l.ownerOrganisationNumber.GetOr("")))
  }

  function RootNode(root: string): Node {
    Node(CompanyId(root), root, Company, Some(root), None)
  }

  function OwnerNode(l: Link): Node {
    Node(OwnerId(l), l.ownerName, l.ownerType, l.ownerOrganisationNumber, l.ownerPersonnummer)
  }

  function TargetNode(l: Link, org: string): Node {
    Node(CompanyId(org), if l.ownedCompanyName != "" then l.ownedCompanyName else org, Company, Some(org), None)
  }

  function EdgeOf(l: Link, v: Visit): Edge {
    Edge(l.id, OwnerId(l), CompanyId(v.org), l.ownershipPercentage, l.controlPercentage, v.depth == 0)
  }

  /** The nodes are an insertion-ordered map by id. */
  predicate HasNode(nodes: seq<Node>, id: string) { exists n :: n in nodes && n.id == id }

  function AddNode(nodes: seq<Node>, n: Node): seq<Node> {
    if HasNode(nodes, n.id) then nodes else nodes + [n]
  }

  /** The edges into one expanded company. */
  function EdgesInto(owners: seq<Link>, v: Visit): (r: seq<Edge>)
    ensures |r| == |owners|
  {
    if owners == [] then [] else EdgesInto(owners[..|owners| - 1], v) + [EdgeOf(owners[|owners| - 1], v)]
  }

  function NodesAround(nodes: seq<Node>, owners: seq<Link>, v: Visit): seq<Node> {
    if owners == [] then nodes else
      var l := owners[|owners| - 1];
      AddNode(AddNode(NodesAround(nodes, owners[..|owners| - 1], v), OwnerNode(l)), TargetNode(l, v.org))
  }

  function NextVisits(owners: seq<Link>, depth: nat): seq<Visit> {
    if owners == [] then [] else
      var l := owners[|owners| - 1];
      NextVisits(owners[..|owners| - 1], depth) + if HasParent(l) then [Visit(Parent(l), depth)] else []
  }

  ghost function Orgs(queue: seq<Visit>): set<string> {
    set v | v in queue :: v.org
  }

  ghost function AllParents(links: seq<Link>): set<string> {
    set l | l in links :: Parent(l)
  }

  /** The companies still to be expanded, at most: the termination measure of the search. */
  ghost function Pending(links: seq<Link>, queue: seq<Visit>, visited: set<string>): set<string> {
    Orgs(queue) + AllParents(links) - visited
  }

  lemma {:induction false} NextVisitsAre(owners: seq<Link>, depth: nat)
    ensures forall v :: v in NextVisits(owners, depth) ==>
              v.depth == depth && exists l :: l in owners && HasParent(l) && v.org == Parent(l)
    ensures forall l :: l in owners && HasParent(l) ==> Parent(l) in Orgs(NextVisits(owners, depth))
  {
    if owners != [] {
      var n := |owners| - 1;
      assert owners == owners[..n] + [owners[n]];
      NextVisitsAre(owners[..n], depth);
      forall l | l in owners && HasParent(l)
        ensures Parent(l) in Orgs(NextVisits(owners, depth))
      {
        if l in owners[..n] {
          var v :| v in NextVisits(owners[..n], depth) && v.org == Parent(l);
          assert v in NextVisits(owners, depth);
        } else {
          assert Visit(Parent(l), depth) in NextVisits(owners, depth);
        }
      }
    }
  }

  lemma OrgsConcat(a: seq<Visit>, b: seq<Visit>)
    ensures Orgs(a + b) == Orgs(a) + Orgs(b)
  {
  }

  lemma Expanding(links: seq<Link>, queue: seq<Visit>, visited: set<string>)
    requires queue != []
    ensures Pending(links, queue[1..], visited) <= Pending(links, queue, visited)
    ensures queue[0].org !in visited ==>
              Pending(links, queue[1..] + NextVisits(Owners(links, queue[0].org), queue[0].depth + 1),
                      visited + {queue[0].org})
                < Pending(links, queue, visited)
  {
    assert queue == [queue[0]] + queue[1..];
    OrgsConcat([queue[0]], queue[1..]);
    var owners := Owners(links, queue[0].org);
    NextVisitsAre(owners, queue[0].depth + 1);
    FilterMembers(OwnedBy(queue[0].org), links);
    OrgsConcat(queue[1..], NextVisits(owners, queue[0].depth + 1));
    assert queue[0].org in Orgs([queue[0]]);
  }

  /** The companies whose owners become edges, in the order they are taken from the queue. */
  ghost function ExpandOrder(links: seq<Link>, queue: seq<Visit>, visited: set<string>): seq<Visit>
    decreases Pending(links, queue, visited), |queue|
  {
    if queue == [] then [] else
      hide Owners, NextVisits, Pending;
      Expanding(links, queue, visited);
      var next := queue[0];
      if next.depth > MAX_GRAPH_DEPTH || next.org in visited then ExpandOrder(links, queue[1..], visited)
      else
        [next] + ExpandOrder(links, queue[1..] + NextVisits(Owners(links, next.org), next.depth + 1),
                             visited + {next.org})
  }

  ghost function EdgesOf(links: seq<Link>, order: seq<Visit>): seq<Edge> {
    if order == [] then [] else
      var v := order[|order| - 1];
      EdgesOf(links, order[..|order| - 1]) + EdgesInto(Owners(links, v.org), v)
  }

  ghost function NodesOf(links: seq<Link>, root: string, order: seq<Visit>): seq<Node> {
    if order == [] then [RootNode(root)] else
      var v := order[|order| - 1];
      NodesAround(NodesOf(links, root, order[..|order| - 1]), Owners(links, v.org), v)
  }

  ghost function Order(links: seq<Link>, root: string): seq<Visit> {
    ExpandOrder(links, [Visit(root, 0)], {})
  }

  lemma SnocOrder(links: seq<Link>, root: string, order: seq<Visit>, v: Visit)
    ensures EdgesOf(links, order + [v]) == EdgesOf(links, order) + EdgesInto(Owners(links, v.org), v)
    ensures NodesOf(links, root, order + [v]) == NodesAround(NodesOf(links, root, order), Owners(links, v.org), v)
  {
    assert (order + [v])[..|order|] == order;
  }

  lemma NoOwnersListed(v: Visit, nodes: seq<Node>)
    ensures NodesAround(nodes, [], v) == nodes && EdgesInto([], v) == [] && NextVisits([], v.depth + 1) == []
  {
  }

  lemma OneMoreOwnerListed(owners: seq<Link>, i: nat, v: Visit, nodes: seq<Node>)
    requires i < |owners|
    ensures NodesAround(nodes, owners[..i + 1], v) ==
            AddNode(AddNode(NodesAround(nodes, owners[..i], v), OwnerNode(owners[i])), TargetNode(owners[i], v.org))
    ensures EdgesInto(owners[..i + 1], v) == EdgesInto(owners[..i], v) + [EdgeOf(owners[i], v)]
    ensures NextVisits(owners[..i + 1], v.depth + 1) == NextVisits(owners[..i], v.depth + 1) +
              if HasParent(owners[i]) then [Visit(Parent(owners[i]), v.depth + 1)] else []
  {
    hide AddNode, OwnerNode, TargetNode, EdgeOf, HasParent, Parent;
    assert owners[..i + 1][..i] == owners[..i];
  }

  /** Listing the owners of one company: its edges, the nodes they touch, and the companies to visit next. */
  method ListOwners(directOwners: seq<Link>, v: Visit, nodes: seq<Node>, edges: seq<Edge>, queue: seq<Visit>)
    returns (nodes': seq<Node>, edges': seq<Edge>, queue': seq<Visit>)
    ensures nodes' == NodesAround(nodes, directOwners, v)
    ensures edges' == edges + EdgesInto(directOwners, v)
    ensures queue' == queue + NextVisits(directOwners, v.depth + 1)
  {
    hide NodesAround, EdgesInto, NextVisits, AddNode, OwnerNode, TargetNode, EdgeOf, Digits;
    NoOwnersListed(v, nodes);
    nodes', edges', queue' := nodes, edges, queue;
    for i := 0 to |directOwners|
      invariant nodes' == NodesAround(nodes, directOwners[..i], v)
      invariant edges' == edges + EdgesInto(directOwners[..i], v)
      invariant queue' == queue + NextVisits(directOwners[..i], v.depth + 1)
    {
      var link := directOwners[i];
      OneMoreOwnerListed(directOwners, i, v, nodes);
      nodes' := AddNode(nodes', OwnerNode(link));
      nodes' := AddNode(nodes', TargetNode(link, v.org));
      edges' := edges' + [EdgeOf(link, v)];
      if HasParent(link) {
        queue' := queue' + [Visit(Digits(link.ownerOrganisationNumber.value), v.depth + 1)];
      }
    }
    assert directOwners[..|directOwners|] == directOwners;
  }

  method BuildGraph(ownedBy: map<string, seq<Link>>, ghost links: seq<Link>, rootOrg: string)
    returns (nodes: seq<Node>, edges: seq<Edge>)
    requires Indexes(ownedBy, links)
    ensures nodes == NodesOf(links, rootOrg, Order(links, rootOrg))
    ensures edges == EdgesOf(links, Order(links, rootOrg))
  {
    hide NodesOf, EdgesOf, NodesAround, EdgesInto, NextVisits, Owners, Pending;
    nodes, edges := [RootNode(rootOrg)], [];
    var queue := [Visit(rootOrg, 0)];
    var visited: set<string> := {};
    ghost var done: seq<Visit> := [];
    NothingListed(links, rootOrg);
    while |queue| > 0
      invariant Order(links, rootOrg) == done + ExpandOrder(links, queue, visited)
      invariant nodes == NodesOf(links, rootOrg, done) && edges == EdgesOf(links, done)
      decreases Pending(links, queue, visited), |queue|
    {
      var next := queue[0];
      Expanding(links, queue, visited);
      queue := queue[1..];
      if next.depth > MAX_GRAPH_DEPTH || next.org in visited {
        continue;
      }
      visited := visited + {next.org};
      SnocOrder(links, rootOrg, done, next);
      done := done + [next];
      nodes, edges, queue := ListOwners(Lookup(ownedBy, next.org), next, nodes, edges, queue);
    }
    assert done + [] == done;
  }

  lemma NothingListed(links: seq<Link>, root: string)
    ensures NodesOf(links, root, []) == [RootNode(root)] && EdgesOf(links, []) == []
  {
  }
}
