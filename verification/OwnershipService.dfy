/**
 The whole ownership request: loading only the reachable links must give the same
 answer as reading every current link of the tenant.
 (backend/src/ownership/ownership.service.ts:336-560, 728-767)
 */
module OwnershipService {
  import opened Wrappers
  import opened Sequences
  import opened Strings
  import opened OwnershipLinks
  import opened OwnershipSubgraph
  import opened OwnershipChains
  import opened OwnershipAggregates
  import opened OwnershipControlPaths
  import opened OwnershipPathSums
  import opened OwnershipPathCap
  import opened OwnershipPathDedupe
  import opened OwnershipGraph
  import opened OwnershipGraphShape
  import opened OwnershipRows
  import opened OwnershipCycles
  import opened OwnershipLinkCycles
  import opened OwnershipPunctuation

  datatype Answer = Answer(nodes: seq<Node>, edges: seq<Edge>, owners: seq<Aggregate>, controlPaths: seq<ControlPath>)

  /** The simple form: the answer read off a full list of links. */
  ghost function AnswerFrom(links: seq<Link>, root: string): Answer {
    Answer(NodesOf(links, root, Order(links, root)), EdgesOf(links, Order(links, root)),
           DerivedOwners(links, root), AllPaths(links, root))
  }

  /** The answer to a tenant's request. */
  ghost function AnswerFor(table: seq<Link>, tenantId: string, organisationNumber: string): Answer {
    AnswerFrom(Loaded(table, tenantId), Digits(organisationNumber))
  }

  /** A row of another tenant, or one that was retired. */
  predicate Foreign(l: Link, tenantId: string) {
    l.tenantId != tenantId || !l.isCurrent
  }

  /** Such a row makes no difference, wherever it stands in the table. */
  lemma ForeignRowIsUnseen(a: seq<Link>, l: Link, b: seq<Link>, tenantId: string, organisationNumber: string)
    requires Foreign(l, tenantId)
    ensures AnswerFor(a + [l] + b, tenantId, organisationNumber) == AnswerFor(a + b, tenantId, organisationNumber)
  {
    hide AnswerFrom, Digits;
    FilterConcat(LiveFor(tenantId), a + [l], b);
    FilterConcat(LiveFor(tenantId), a, [l]);
    FilterConcat(LiveFor(tenantId), a, b);
    FilterNone(LiveFor(tenantId), [l]);
    assert Live(a, tenantId) + [] == Live(a, tenantId);
  }

  /** What is left of a table without other tenants' and retired rows. */
  ghost function Own(table: seq<Link>, tenantId: string): seq<Link> {
    if table == [] then [] else
      var l := table[|table| - 1];
      Own(table[..|table| - 1], tenantId) + if Foreign(l, tenantId) then [] else [l]
  }

  /** Nothing else is looked at: the answer is that of the tenant's own current rows alone. */
  lemma {:induction false} OnlyOwnRowsMatter(table: seq<Link>, rest: seq<Link>, tenantId: string,
                                             organisationNumber: string)
    ensures AnswerFor(table + rest, tenantId, organisationNumber)
         == AnswerFor(Own(table, tenantId) + rest, tenantId, organisationNumber)
  {
    hide AnswerFor, Foreign;
    if table == [] {
      assert table + rest == Own(table, tenantId) + rest;
    } else {
      var before, l := table[..|table| - 1], table[|table| - 1];
      assert table + rest == before + [l] + rest && table + rest == before + ([l] + rest);
      assert Own(before, tenantId) + ([l] + rest) == Own(before, tenantId) + [l] + rest;
      if Foreign(l, tenantId) {
        ForeignRowIsUnseen(before, l, rest, tenantId, organisationNumber);
        OnlyOwnRowsMatter(before, rest, tenantId, organisationNumber);
        assert Own(table, tenantId) == Own(before, tenantId);
      } else {
        OnlyOwnRowsMatter(before, [l] + rest, tenantId, organisationNumber);
        assert Own(table, tenantId) == Own(before, tenantId) + [l];
      }
    }
  }

  /**
   Tenants are kept apart: two tables with the same current rows of the tenant, in the same
   order, give one answer, whatever other tenants' or retired rows they hold.
   */
  lemma TenantsAreApart(a: seq<Link>, b: seq<Link>, tenantId: string, organisationNumber: string)
    requires Own(a, tenantId) == Own(b, tenantId)
    ensures AnswerFor(a, tenantId, organisationNumber) == AnswerFor(b, tenantId, organisationNumber)
  {
    hide AnswerFor, Own;
    assert a + [] == a && b + [] == b;
    OnlyOwnRowsMatter(a, [], tenantId, organisationNumber);
    OnlyOwnRowsMatter(b, [], tenantId, organisationNumber);
  }

  /** No part of the answer looks further than the owners of companies six steps away. */
  const HORIZON: nat := 6

  lemma {:induction false} SameOwnersNearer(a: seq<Link>, b: seq<Link>, root: string, n: nat, m: nat)
    requires SameOwners(a, b, root, m) && n <= m
    ensures SameOwners(a, b, root, n)
  {
    ReachMonotone(a, root, n, m);
  }

  lemma AnswerLooksSixStepsUp(a: seq<Link>, b: seq<Link>, root: string)
    requires SameOwners(a, b, root, HORIZON)
    ensures AnswerFrom(a, root) == AnswerFrom(b, root)
  {
    hide SameOwners, Reach, Order, NodesOf, EdgesOf, Chains, Recorded, Credit, Records;
    RootReached(a, root);
    SameOwnersNearer(a, b, root, MAX_GRAPH_DEPTH, HORIZON);
    GraphDependsOnFourSteps(a, b, root);
    ChainsAgree(a, b, root, HORIZON, root, 0, TRAVERSE_CHAIN_LENGTH);
    RecordedAgree(a, b, root, HORIZON, root, 0, WALK_CHAIN_LENGTH, 0);
  }

  /** What was loaded gives the same answer as all canonically stored live links. */
  lemma LoadedGivesSameAnswer(links: seq<Link>, live: seq<Link>, root: string)
    requires AllDigits(root) && HoldsOwnersOf(links, live, QueriedOrgs(live, root))
    ensures AnswerFrom(links, root) == AnswerFrom(Canonical(live), root)
  {
    hide AnswerFrom, Reach, SameOwners, HoldsOwnersOf, QueriedOrgs;
    LoadedLinksSuffice(links, live, root);
    SameOwnersNearer(Canonical(live), links, root, HORIZON, SUBGRAPH_MAX_WAVES - 1);
    AnswerLooksSixStepsUp(Canonical(live), links, root);
  }

  lemma CleanNumbersGiveFullAnswer(live: seq<Link>, root: string)
    requires !HasPunctuatedLink(live, root, HORIZON)
    ensures AnswerFrom(Canonical(live), root) == AnswerFrom(live, root)
  {
    hide AnswerFrom, HasPunctuatedLink, SameOwners;
    CanonicalIsEnough(live, root, HORIZON);
    AnswerLooksSixStepsUp(Canonical(live), live, root);
  }

  /**
   `getOwnershipGraph`: computed from the loaded subgraph alone, the answer is the one all
   the tenant's canonically stored current links give. It is the one all its current links
   give exactly when no link stored with punctuation lies where the answer looks. Read off
   the table: the edges are the tenant's current rows about companies within four steps,
   every node but the subject's tells of such a row, and the owners and control paths are
   read off lines of such rows from the subject up to a person.
   */
  method GetOwnershipGraph(table: seq<Link>, tenantId: string, organisationNumber: string) returns (answer: Answer)
    requires UniqueIds(table) && PlainIds(table)
    ensures answer == AnswerFor(table, tenantId, organisationNumber)
    ensures answer == AnswerFrom(Canonical(Live(table, tenantId)), Digits(organisationNumber))
    ensures answer == AnswerFrom(Live(table, tenantId), Digits(organisationNumber))
       <==> !LosesPunctuated(Live(table, tenantId), Digits(organisationNumber))
    ensures !HasPunctuatedLink(Live(table, tenantId), Digits(organisationNumber), HORIZON) ==>
              answer == AnswerFrom(Live(table, tenantId), Digits(organisationNumber))
    ensures ShowsRows(table, tenantId, Digits(organisationNumber), answer)
    ensures ShowsLines(table, tenantId, Digits(organisationNumber), answer)
  {
    hide *;
    var rootOrg := Digits(organisationNumber);
    var links, _, _ := CollectRelevantOwnershipLinks(table, tenantId, rootOrg);
    LoadedLinksAreRows(links, table, tenantId, rootOrg);
    var ownedBy := BuildOwnedByMap(links);
    var nodes, edges := BuildGraph(ownedBy, links, rootOrg);
    var owners := Traverse(ownedBy, links, rootOrg, 100.0, 100.0, 0, []);
    var controlPaths := WalkUp(ownedBy, links, rootOrg, 100.0, 100.0, [], 0, []);
    var deduped := DedupeControlPaths(controlPaths);
    PathsAreRecords(links, rootOrg);
    DedupeRemovesNothing(links, rootOrg);
    answer := Answer(nodes, edges, owners, deduped);
    ComputedAnswer(links, rootOrg, answer);
    LoadedGivesSameAnswer(links, Live(table, tenantId), rootOrg);
    LiveUniqueIds(table, tenantId);
    AnswerIsFullExactly(Live(table, tenantId), rootOrg);
    if !HasPunctuatedLink(Live(table, tenantId), rootOrg, HORIZON) {
      CleanNumbersGiveFullAnswer(Live(table, tenantId), rootOrg);
    }
    AnswerOfRows(table, tenantId, organisationNumber);
  }

  /** The graph shows the tenant's current rows about companies within four steps, and nothing else. */
  ghost predicate ShowsRows(table: seq<Link>, tenantId: string, root: string, answer: Answer) {
    && EdgeIdsDistinct(answer.edges)
    && (forall e :: e in answer.edges <==>
          exists l :: IsRow(table, tenantId, l) && Within(table, tenantId, root, 4, l.ownedOrganisationNumber)
                      && e == Shown(l, root))
    && NodeIdsDistinct(answer.nodes) && Subject(root) in answer.nodes
    && (forall e :: e in answer.edges ==> HasNode(answer.nodes, e.from) && HasNode(answer.nodes, e.to))
    && (forall n :: n in answer.nodes && n != Subject(root) ==>
          exists l :: IsRow(table, tenantId, l) && Within(table, tenantId, root, 4, l.ownedOrganisationNumber)
                      && Tells(n, l))
  }

  /** Owners and control paths are the lines of the tenant's current rows, the paths as far as their cap allows. */
  ghost predicate ShowsLines(table: seq<Link>, tenantId: string, root: string, answer: Answer) {
    && KeysUnique(answer.owners)
    && (forall a :: a in answer.owners ==>
          exists c :: |c| <= 6 && IsLine(table, tenantId, root, c) && Names(a, c))
    && (forall c :: |c| <= 6 && IsLine(table, tenantId, root, c) ==>
          exists a :: a in answer.owners && a.key == KeyAt(c))
    && (forall p :: p in answer.controlPaths ==>
          |p.steps| <= 7 && IsLine(table, tenantId, root, p.steps) && PathOf(p, p.steps))
    && (|answer.controlPaths| < 40 ==> forall c :: |c| <= 7 && IsLine(table, tenantId, root, c) ==>
          exists p :: p in answer.controlPaths && p.steps == c)
    && KeptBeside(answer.controlPaths)
  }

  lemma AnswerOfRows(table: seq<Link>, tenantId: string, organisationNumber: string)
    requires UniqueIds(table)
    ensures AnswerFor(table, tenantId, organisationNumber)
         == AnswerFrom(Canonical(Live(table, tenantId)), Digits(organisationNumber))
    ensures ShowsRows(table, tenantId, Digits(organisationNumber), AnswerFor(table, tenantId, organisationNumber))
    ensures ShowsLines(table, tenantId, Digits(organisationNumber), AnswerFor(table, tenantId, organisationNumber))
  {
    hide NodesOf, EdgesOf, Order, DerivedOwners, AllPaths, UniqueIds, Live, Canonical, Digits, EdgeIdsDistinct,
         IsRow, Within, IsLine, KeysUnique, KeptBeside, NodeIdsDistinct, HasNode, Shown, Subject, Tells, Names,
         KeyAt, PathOf;
    var root := Digits(organisationNumber);
    EdgesAreRows(table, tenantId, root);
    NodesAreOfRows(table, tenantId, root);
    OwnersAreEnds(table, tenantId, root);
    PathsAreLines(table, tenantId, root);
    LoadedUnique(table, tenantId);
    BeyondTheCap(Loaded(table, tenantId), root);
  }

  lemma PathsAreRecords(links: seq<Link>, root: string)
    ensures AllPaths(links, root) == [] + Records([], 100.0, 100.0, Recorded(links, root, WALK_CHAIN_LENGTH, 0))
  {
  }

  lemma ComputedAnswer(links: seq<Link>, root: string, answer: Answer)
    requires answer.nodes == NodesOf(links, root, Order(links, root))
             && answer.edges == EdgesOf(links, Order(links, root))
    requires answer.owners == Credit([], Chains(links, root, TRAVERSE_CHAIN_LENGTH), 100.0, 100.0)
    requires answer.controlPaths == AllPaths(links, root)
    ensures answer == AnswerFrom(links, root)
  {
  }

  lemma LoadedLinksAreRows(links: seq<Link>, table: seq<Link>, tenantId: string, root: string)
    requires UniqueIds(table) && PlainIds(table)
    requires HoldsOwnersOf(links, Live(table, tenantId), QueriedOrgs(Live(table, tenantId), root))
    ensures UniqueIds(links) && PlainIds(links)
  {
    hide QueriedOrgs;
    var live := Live(table, tenantId);
    FilterMembers(LiveFor(tenantId), table);
    FilterUniqueIds(LiveFor(tenantId), table);
    forall l | l in links ensures '>' !in l.id { assert l in live; }
    forall i, j | 0 <= i < j < |links| ensures links[i].id != links[j].id {
      assert links[i] in live && links[j] in live;
      if links[i] == links[j] {
        var here := StoredAs(links[i].ownedOrganisationNumber);
        RepeatSurvives(here, links, i, j);
        FilterUniqueIds(here, live);
      }
    }
  }

  /**
   A punctuated link into a company within the four steps that make edges is always lost:
   the full list has an edge for it, the loaded links do not.
   */
  lemma PunctuatedLinkIsLost(live: seq<Link>, root: string)
    requires UniqueIds(live) && HasPunctuatedLink(live, root, MAX_GRAPH_DEPTH)
    ensures AnswerFrom(Canonical(live), root).edges != AnswerFrom(live, root).edges
  {
    var l :| l in live && !IsCanonical(l) && Digits(l.ownedOrganisationNumber) != "" &&
             Digits(l.ownedOrganisationNumber) in Reach(Canonical(live), root, MAX_GRAPH_DEPTH);
    FilterMembers(IsCanonical, live);
    CanonicalReach(live, root, MAX_GRAPH_DEPTH);
    EdgesAreTheLinksInReach(live, root);
    FilterUniqueIds(IsCanonical, live);
    assert LinkInto(live, Reach(live, root, MAX_GRAPH_DEPTH), l);
    if AnswerFrom(Canonical(live), root).edges == AnswerFrom(live, root).edges {
      EdgeNeedsItsLink(live, root, l);
    }
  }

  lemma EdgeNeedsItsLink(live: seq<Link>, root: string, l: Link)
    requires UniqueIds(live) && l in live && UniqueIds(Canonical(live))
    requires EdgeFor(l, root) in EdgesOf(Canonical(live), Order(Canonical(live), root))
    ensures IsCanonical(l)
  {
    hide Reach, EdgesOf, Digits, Order;
    FilterMembers(IsCanonical, live);
    EdgesAreTheLinksInReach(Canonical(live), root);
    var k :| LinkInto(Canonical(live), Reach(Canonical(live), root, MAX_GRAPH_DEPTH), k)
        && EdgeFor(l, root) == EdgeFor(k, root);
    assert k in live && k.id == l.id;
  }

  /** The graph is that of all links exactly when no punctuated link is within the four steps that make edges. */
  lemma GraphIsFullExactly(live: seq<Link>, root: string)
    requires UniqueIds(live)
    ensures AnswerFrom(Canonical(live), root).nodes == AnswerFrom(live, root).nodes
         && AnswerFrom(Canonical(live), root).edges == AnswerFrom(live, root).edges
       <==> !HasPunctuatedLink(live, root, MAX_GRAPH_DEPTH)
  {
    hide Canonical, HasPunctuatedLink, SameOwners, NodesOf, EdgesOf, Order, DerivedOwners, AllPaths, UniqueIds;
    CanonicalIsEnough(live, root, MAX_GRAPH_DEPTH);
    if HasPunctuatedLink(live, root, MAX_GRAPH_DEPTH) {
      PunctuatedLinkIsLost(live, root);
    } else {
      GraphDependsOnFourSteps(Canonical(live), live, root);
    }
  }

  /** A punctuated link lies into a company within four steps, or on a credited chain, or on a recorded path. */
  ghost predicate LosesPunctuated(live: seq<Link>, root: string) {
    || HasPunctuatedLink(live, root, MAX_GRAPH_DEPTH)
    || HasPunctuatedChain(live, root, TRAVERSE_CHAIN_LENGTH)
    || RecordsPunctuated(live, root)
  }

  /** The loaded links give the whole answer exactly when no punctuated link lies where it looks. */
  lemma AnswerIsFullExactly(live: seq<Link>, root: string)
    requires UniqueIds(live)
    ensures AnswerFrom(Canonical(live), root) == AnswerFrom(live, root) <==> !LosesPunctuated(live, root)
  {
    hide Canonical, NodesOf, EdgesOf, Order, DerivedOwners, AllPaths, UniqueIds,
         HasPunctuatedLink, HasPunctuatedChain, RecordsPunctuated;
    GraphIsFullExactly(live, root);
    OwnersKeptExactly(live, root);
    PathsKeptExactly(live, root);
  }

  /**
   With fewer than 40 paths: when none is into a company within four steps, or on any chain of
   at most seven links.
   */
  lemma SmallAnswerIsFullExactly(live: seq<Link>, root: string)
    requires UniqueIds(live) && |AllPaths(live, root)| < MAX_PATH_RECORDS
    ensures AnswerFrom(Canonical(live), root) == AnswerFrom(live, root)
       <==> !HasPunctuatedLink(live, root, MAX_GRAPH_DEPTH) && !HasPunctuatedChain(live, root, WALK_CHAIN_LENGTH)
  {
    hide AnswerFrom, Canonical, AllPaths, UniqueIds, HasPunctuatedLink, RecordsPunctuated, IsChain, IsPlain;
    AnswerIsFullExactly(live, root);
    FewPathsKeptExactly(live, root);
  }

  /** The sole owner of 5560001234, filed under "556000-1234". */
  const PUNCTUATED_OWNER := Link("1", "t", true, Person, "A", None, Some("191212121212"), "556000-1234", "C",
                                 Some(100.0), None)

  /** All of the company's answer is lost: its edge, its owner and its control path. */
  lemma PunctuatedNumberIsMissed()
    ensures var live, root := [PUNCTUATED_OWNER], "5560001234";
            && AnswerFrom(Canonical(live), root).edges != AnswerFrom(live, root).edges
            && AnswerFrom(Canonical(live), root).owners != AnswerFrom(live, root).owners
            && AnswerFrom(Canonical(live), root).controlPaths != AnswerFrom(live, root).controlPaths
  {
    var live, root := [PUNCTUATED_OWNER], "5560001234";
    PunctuatedOwnerFacts();
    hide *;
    PunctuatedLinkIsLost(live, root);
    OwnersKeptExactly(live, root);
    PathsKeptExactly(live, root);
    LookInside(Canonical(live), root);
    LookInside(live, root);
  }

  lemma LookInside(links: seq<Link>, root: string)
    ensures AnswerFrom(links, root).owners == DerivedOwners(links, root)
            && AnswerFrom(links, root).controlPaths == AllPaths(links, root)
  {
  }

  lemma PunctuatedOwnerFacts()
    ensures var live, root := [PUNCTUATED_OWNER], "5560001234";
            && UniqueIds(live) && HasPunctuatedLink(live, root, MAX_GRAPH_DEPTH)
            && HasPunctuatedChain(live, root, TRAVERSE_CHAIN_LENGTH) && RecordsPunctuated(live, root)
  {
    hide Recorded, Chains, Credit, Records;
    var l, live, root := PUNCTUATED_OWNER, [PUNCTUATED_OWNER], "5560001234";
    PunctuatedDigits();
    RootReached(Canonical(live), root);
    ReachMonotone(Canonical(live), root, 0, MAX_GRAPH_DEPTH);
    assert l in live && !IsCanonical(l);
    assert Owners(live, root) == [l];
    assert IsChain(live, root, [l]) && l in [l] && !IsPlain([l]);
    ChainsThroughOne(live, root, l, WALK_CHAIN_LENGTH);
    RecordedComplete(live, root, WALK_CHAIN_LENGTH, 0);
    assert [l] in Recorded(live, root, WALK_CHAIN_LENGTH, 0);
  }

  lemma PunctuatedDigits()
    ensures Digits("556000-1234") == "5560001234"
  {
    hide Digits;
    DigitsConcat("556000", "-1234");
    DigitsFirst("-1234");
    assert "556000" + "-1234" == "556000-1234" && "-1234"[1..] == "1234" && "556000" + "1234" == "5560001234";
    assert Digits("556000") == "556000" && Digits("1234") == "1234";
  }

  lemma {:induction false} CanonicalReach(live: seq<Link>, root: string, n: nat)
    ensures Reach(Canonical(live), root, n) <= Reach(live, root, n)
  {
    hide Above, Canonical;
    if n > 0 {
      CanonicalReach(live, root, n - 1);
      CanonicalAbove(live, Reach(Canonical(live), root, n - 1), Reach(live, root, n - 1));
    }
  }

  lemma CanonicalAbove(live: seq<Link>, a: set<string>, b: set<string>)
    requires a <= b
    ensures Above(Canonical(live), a) <= Above(live, b)
  {
    FilterMembers(IsCanonical, live);
  }

  /**
   Circular control: every cycle of the answer's graph, and every cycle of ownership links
   whose companies all lie within four steps, has one of its companies reported; each
   reported node lies on a cycle and was the first of it that the search came to.
   */
  method CycleNodesOf(answer: Answer, ghost links: seq<Link>, ghost root: string)
    returns (cycleNodes: set<string>, ghost order: seq<string>)
    requires answer == AnswerFrom(links, root)
    ensures Distinct(order) && forall n :: n in answer.nodes ==> n.id in order
    ensures forall n :: n in cycleNodes <==> StartsCycle(answer.edges, order, n)
    ensures forall n :: n in cycleNodes ==> OnCycle(answer.edges, n)
    ensures forall p :: IsCycle(answer.edges, p) ==> exists n :: n in p && n in cycleNodes
    ensures UniqueIds(links) ==> forall c :: IsLinkCycle(links, Reach(links, root, MAX_GRAPH_DEPTH), c) ==>
              exists l :: l in c && CompanyId(OwnedOrg(l)) in cycleNodes
    ensures UniqueIds(links) ==> (cycleNodes != {} <==> HasLinkCycle(links, root))
  {
    hide *;
    cycleNodes, order := DetectCycleNodes(answer.nodes, answer.edges);
    GraphOf(links, root);
    NodesAreTheEnds(links, root);
    forall p | IsCycle(answer.edges, p)
      ensures exists n :: n in p && n in cycleNodes
    {
      CycleIsListed(answer.nodes, answer.edges, p);
    }
    if UniqueIds(links) {
      forall c | IsLinkCycle(links, Reach(links, root, MAX_GRAPH_DEPTH), c)
        ensures exists l :: l in c && CompanyId(OwnedOrg(l)) in cycleNodes
      {
        var p := CycleOfOwned(links, root, c);
        var n :| n in p && n in cycleNodes;
      }
      GraphCyclesAreLinkCycles(links, root);
      if n :| n in cycleNodes {
        CycleOf(answer.edges, n);
      }
    }
  }

  lemma GraphOf(links: seq<Link>, root: string)
    ensures AnswerFrom(links, root).nodes == NodesOf(links, root, Order(links, root))
            && AnswerFrom(links, root).edges == EdgesOf(links, Order(links, root))
  {
  }

  lemma CycleOf(edges: seq<Edge>, n: string)
    requires OnCycle(edges, n)
    ensures exists p :: IsCycle(edges, p)
  {
  }

  lemma CycleIsListed(nodes: seq<Node>, edges: seq<Edge>, p: seq<string>)
    requires ListsEnds(nodes, edges) && IsCycle(edges, p)
    ensures HasNode(nodes, p[0])
  {
    CycleEnds(edges, p);
  }

  lemma CycleEnds(edges: seq<Edge>, p: seq<string>)
    requires IsCycle(edges, p)
    ensures exists e :: e in edges && e.to == p[0]
  {
  }
}
