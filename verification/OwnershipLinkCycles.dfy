/**
 Circular control at the level of ownership links: the cycles the graph can show are those
 whose companies all lie within the four steps that make edges
 (backend/src/ownership/ownership.service.ts:384-418, 746-767).
 */
module OwnershipLinkCycles {
  import opened Strings
  import opened OwnershipLinks
  import opened OwnershipGraph
  import opened OwnershipGraphShape
  import opened OwnershipCycles

  function OwnedOrg(l: Link): string { Digits(l.ownedOrganisationNumber) }

  /** The next position around a ring of `n`. */
  function Succ(n: nat, i: nat): nat
    requires i < n
  {
    if i == n - 1 then 0 else i + 1
  }

  /** The company owned through the `i`-th link is the owner of the next one, around the ring. */
  ghost predicate HandsOn(c: seq<Link>, i: nat)
    requires i < |c|
  {
    OwnedOrg(c[i]) == Parent(c[Succ(|c|, i)])
  }

  /** Links between companies among `orgs`, each handing on to the next and the last to the first. */
  ghost predicate IsLinkCycle(links: seq<Link>, orgs: set<string>, c: seq<Link>) {
    && c != []
    && (forall i :: 0 <= i < |c| ==> LinkInto(links, orgs, c[i]) && c[i].ownerType.Company?)
    && (forall i :: 0 <= i < |c| ==> HandsOn(c, i))
  }

  ghost predicate HasLinkCycle(links: seq<Link>, root: string) {
    exists c :: IsLinkCycle(links, Reach(links, root, MAX_GRAPH_DEPTH), c)
  }

  /** The link goes from node `a` to node `b`. */
  ghost predicate Joins(links: seq<Link>, root: string, a: string, b: string, l: Link) {
    LinkInto(links, Reach(links, root, MAX_GRAPH_DEPTH), l) && OwnerId(l) == a && CompanyId(OwnedOrg(l)) == b
  }

  lemma EdgesAreLinks(links: seq<Link>, root: string, a: string, b: string)
    requires UniqueIds(links)
    ensures HasEdge(EdgesOf(links, Order(links, root)), a, b) <==> exists l :: Joins(links, root, a, b, l)
  {
    hide Reach, EdgesOf, Order, OwnerId, CompanyId, UniqueIds, EdgeIdsDistinct;
    var edges := EdgesOf(links, Order(links, root));
    EdgesAreTheLinksInReach(links, root);
    if HasEdge(edges, a, b) {
      var e :| e in edges && e.from == a && e.to == b;
      var l :| LinkInto(links, Reach(links, root, MAX_GRAPH_DEPTH), l) && e == EdgeFor(l, root);
      assert Joins(links, root, a, b, l);
    }
    if l :| Joins(links, root, a, b, l) {
      assert EdgeFor(l, root) in edges;
    }
  }

  lemma NodeIds(l: Link, org: string)
    ensures OwnerId(l) == CompanyId(org) <==> l.ownerType.Company? && Parent(l) == org
  {
    var id := CompanyId(org);
    assert id[0] == 'c' && id[8..] == org;
    if l.ownerType.Person? {
      assert OwnerId(l)[0] == 'p';
    } else {
      assert OwnerId(l) == CompanyId(Parent(l)) && CompanyId(Parent(l))[8..] == Parent(l);
    }
  }

  /** The links along a path of the graph. */
  lemma {:induction false} LinksAlong(links: seq<Link>, root: string, p: seq<string>) returns (c: seq<Link>)
    requires UniqueIds(links) && p != [] && IsPath(EdgesOf(links, Order(links, root)), p)
    ensures |c| == |p| - 1 && forall i :: 0 <= i < |c| ==> Joins(links, root, p[i], p[i + 1], c[i])
  {
    hide Joins, HasEdge, UniqueIds, EdgesOf, Order;
    if |p| == 1 {
      c := [];
    } else {
      var before := p[..|p| - 1];
      c := LinksAlong(links, root, before);
      EdgesAreLinks(links, root, p[|p| - 2], p[|p| - 1]);
      var l :| Joins(links, root, p[|p| - 2], p[|p| - 1], l);
      c := c + [l];
    }
  }

  lemma LinksOfCycle(links: seq<Link>, root: string, p: seq<string>) returns (c: seq<Link>)
    requires UniqueIds(links) && IsCycle(EdgesOf(links, Order(links, root)), p)
    ensures IsLinkCycle(links, Reach(links, root, MAX_GRAPH_DEPTH), c)
  {
    hide HasEdge, UniqueIds, EdgesOf, Order, OwnerId, CompanyId, Reach, LinkInto, Parent, OwnedOrg;
    var n := |p|;
    c := LinksAlong(links, root, p);
    EdgesAreLinks(links, root, p[n - 1], p[0]);
    var l :| Joins(links, root, p[n - 1], p[0], l);
    c := c + [l];
    forall i | 0 <= i < n ensures Joins(links, root, p[i], p[Succ(n, i)], c[i]) {}
    RingOfLinks(links, root, p, c);
  }

  lemma RingOfLinks(links: seq<Link>, root: string, p: seq<string>, c: seq<Link>)
    requires p != [] && |c| == |p| && forall i :: 0 <= i < |p| ==> Joins(links, root, p[i], p[Succ(|p|, i)], c[i])
    ensures IsLinkCycle(links, Reach(links, root, MAX_GRAPH_DEPTH), c)
  {
    hide OwnerId, CompanyId, Reach, LinkInto, Parent, OwnedOrg;
    var n := |p|;
    forall i | 0 <= i < n ensures HandsOn(c, i) && c[Succ(n, i)].ownerType.Company? {
      NodeIds(c[Succ(n, i)], OwnedOrg(c[i]));
      assert Joins(links, root, p[i], p[Succ(n, i)], c[i]);
    }
    forall i | 0 <= i < n ensures c[i].ownerType.Company? {
      assert Succ(n, if i == 0 then n - 1 else i - 1) == i;
    }
  }

  lemma CycleOfLinks(links: seq<Link>, root: string, c: seq<Link>) returns (p: seq<string>)
    requires UniqueIds(links) && IsLinkCycle(links, Reach(links, root, MAX_GRAPH_DEPTH), c)
    ensures IsCycle(EdgesOf(links, Order(links, root)), p)
    ensures |p| == |c| && forall i :: 0 <= i < |c| ==> p[i] == OwnerId(c[i])
  {
    hide HasEdge, UniqueIds, EdgesOf, Order, OwnerId, CompanyId, Reach, LinkInto, Parent, OwnedOrg;
    p := seq(|c|, i requires 0 <= i < |c| => OwnerId(c[i]));
    forall i | 0 <= i < |c| ensures HasEdge(EdgesOf(links, Order(links, root)), p[i], p[Succ(|c|, i)]) {
      assert HandsOn(c, i);
      NodeIds(c[Succ(|c|, i)], OwnedOrg(c[i]));
      assert Joins(links, root, p[i], p[Succ(|c|, i)], c[i]);
      EdgesAreLinks(links, root, p[i], p[Succ(|c|, i)]);
    }
    forall i | 0 <= i < |p| - 1 ensures HasEdge(EdgesOf(links, Order(links, root)), p[i], p[i + 1]) {
      assert Succ(|c|, i) == i + 1;
    }
    assert Succ(|c|, |c| - 1) == 0;
  }

  /** The graph shows a cycle of links, and each of its nodes is a company owned by one of them. */
  lemma CycleOfOwned(links: seq<Link>, root: string, c: seq<Link>) returns (p: seq<string>)
    requires UniqueIds(links) && IsLinkCycle(links, Reach(links, root, MAX_GRAPH_DEPTH), c)
    ensures IsCycle(EdgesOf(links, Order(links, root)), p)
    ensures forall n :: n in p ==> exists l :: l in c && CompanyId(OwnedOrg(l)) == n
  {
    hide UniqueIds, EdgesOf, Order, OwnerId, CompanyId, Reach, LinkInto, Parent, OwnedOrg, IsCycle;
    p := CycleOfLinks(links, root, c);
    forall n | n in p ensures exists l :: l in c && CompanyId(OwnedOrg(l)) == n {
      var i :| 0 <= i < |p| && p[i] == n;
      var before := if i == 0 then |c| - 1 else i - 1;
      assert Succ(|c|, before) == i && HandsOn(c, before);
      NodeIds(c[i], OwnedOrg(c[before]));
      assert c[before] in c;
    }
  }

  /** The graph has a cycle exactly when some cycle of ownership links has all its companies within four steps. */
  lemma GraphCyclesAreLinkCycles(links: seq<Link>, root: string)
    requires UniqueIds(links)
    ensures (exists p :: IsCycle(EdgesOf(links, Order(links, root)), p)) <==> HasLinkCycle(links, root)
  {
    hide IsCycle, IsLinkCycle, UniqueIds, EdgesOf, Order, Reach;
    if p :| IsCycle(EdgesOf(links, Order(links, root)), p) {
      var c := LinksOfCycle(links, root, p);
    }
    if c :| IsLinkCycle(links, Reach(links, root, MAX_GRAPH_DEPTH), c) {
      var p := CycleOfLinks(links, root, c);
    }
  }
}
