/**
 The ownership answer told from the rows of the table alone: which rows of `ownership_links`
 a tenant's request may show, and what each of them becomes in the answer.
 (backend/src/ownership/ownership.service.ts:77-101, 357-421, 495-560)
 */
module OwnershipRows {
  import opened Wrappers
  import opened Sequences
  import opened Strings
  import opened OwnershipLinks
  import opened OwnershipSubgraph
  import opened OwnershipChains
  import opened OwnershipAggregates
  import opened OwnershipMass
  import opened OwnershipControlPaths
  import opened OwnershipPathSums
  import opened OwnershipGraph
  import opened OwnershipGraphShape

  /** The tenant's rows `c` lead from `org` up to a person. */
  ghost predicate IsLine(table: seq<Link>, tenantId: string, org: string, c: seq<Link>) {
    && c != [] && c[0].ownedOrganisationNumber == org
    && (forall i :: 0 <= i < |c| ==> IsRow(table, tenantId, c[i]))
    && (forall i :: 0 <= i < |c| - 1 ==> OwnerIs(c[i], c[i + 1].ownedOrganisationNumber))
    && c[|c| - 1].ownerType == Person
  }

  /** How a row's owner is named in the graph. */
  function From(l: Link): string {
    if l.ownerType == Person
    then "person:" + if l.ownerPersonnummer.Some? then l.ownerPersonnummer.value else l.ownerName
    else "company:" + if l.ownerOrganisationNumber.Some? then Digits(l.ownerOrganisationNumber.value) else ""
  }

  /** The edge of a row. */
  function Shown(l: Link, root: string): Edge {
    Edge(l.id, From(l), "company:" + l.ownedOrganisationNumber, l.ownershipPercentage, l.controlPercentage,
         l.ownedOrganisationNumber == root)
  }

  /** The node tells of the row's owner, or of the company the row is about. */
  predicate Tells(n: Node, l: Link) {
    || n == Node(From(l), l.ownerName, l.ownerType, l.ownerOrganisationNumber, l.ownerPersonnummer)
    || (&& n.id == "company:" + l.ownedOrganisationNumber && n.nodeType == Company
        && n.organisationNumber == Some(l.ownedOrganisationNumber) && n.personnummer == None
        && n.caption == if l.ownedCompanyName == "" then l.ownedOrganisationNumber else l.ownedCompanyName)
  }

  // --- Rows and the links the engine speaks of ---

  function Loaded(table: seq<Link>, tenantId: string): seq<Link> {
    Canonical(Live(table, tenantId))
  }

  lemma LoadedAreRows(table: seq<Link>, tenantId: string, l: Link)
    ensures l in Loaded(table, tenantId) && Digits(l.ownedOrganisationNumber) != "" <==> IsRow(table, tenantId, l)
    ensures IsRow(table, tenantId, l) ==> Digits(l.ownedOrganisationNumber) == l.ownedOrganisationNumber
  {
    FilterMember(IsCanonical, Live(table, tenantId), l);
    FilterMember(LiveFor(tenantId), table, l);
  }

  /** The companies within `n` steps are those that rows lead up to. */
  lemma {:induction false} ReachIsWithin(table: seq<Link>, tenantId: string, root: string, n: nat, org: string)
    ensures org in Reach(Loaded(table, tenantId), root, n) <==> Within(table, tenantId, root, n, org)
  {
    hide Digits, Parent, HasParent, Loaded, IsRow, OwnerIs;
    var links := Loaded(table, tenantId);
    if n == 0 {
      RootWithin(table, tenantId, root);
    } else {
      if org in Reach(links, root, n - 1) {
        ReachIsWithin(table, tenantId, root, n - 1, org);
        WithinMore(table, tenantId, root, n - 1, org);
      } else if org in Reach(links, root, n) {
        var l :| l in links && HasParent(l) && Digits(l.ownedOrganisationNumber) != "" &&
                 Digits(l.ownedOrganisationNumber) in Reach(links, root, n - 1) && Parent(l) == org;
        LoadedAreRows(table, tenantId, l);
        ReachIsWithin(table, tenantId, root, n - 1, l.ownedOrganisationNumber);
        OwnerIsParent(l, org);
        StepWithin(table, tenantId, root, n - 1, l, org);
      }
      if up :| |up| <= n && LeadsUp(table, tenantId, root, org, up) {
        ClimbReaches(table, tenantId, root, n, org, up);
      }
    }
  }

  lemma {:induction false} ClimbReaches(table: seq<Link>, tenantId: string, root: string, n: nat, org: string,
                                        up: seq<Link>)
    requires |up| <= n && LeadsUp(table, tenantId, root, org, up)
    ensures org in Reach(Loaded(table, tenantId), root, n)
  {
    hide Digits, Parent, HasParent, Loaded, IsRow, OwnerIs, Reach;
    if up == [] {
      ReachMonotone(Loaded(table, tenantId), root, 0, n);
      RootReached(Loaded(table, tenantId), root);
    } else {
      var l := up[|up| - 1];
      ClimbReaches(table, tenantId, root, n - 1, l.ownedOrganisationNumber, up[..|up| - 1]);
      LoadedAreRows(table, tenantId, l);
      OwnerIsParent(l, org);
      OwnersMember(Loaded(table, tenantId), l.ownedOrganisationNumber, l);
      ReachStep(Loaded(table, tenantId), root, n - 1, l.ownedOrganisationNumber, l);
    }
  }

  lemma RootReached(links: seq<Link>, root: string)
    ensures root in Reach(links, root, 0)
  {
  }

  lemma {:induction false} ChainsAreLines(table: seq<Link>, tenantId: string, org: string, c: seq<Link>)
    ensures IsChain(Loaded(table, tenantId), org, c) <==> IsLine(table, tenantId, org, c)
    decreases |c|
  {
    hide Digits, Parent, HasParent, Loaded, IsRow, OwnerIs;
    var links := Loaded(table, tenantId);
    if c != [] {
      OwnersMember(links, org, c[0]);
      LoadedAreRows(table, tenantId, c[0]);
      if |c| > 1 {
        ChainsAreLines(table, tenantId, Parent(c[0]), c[1..]);
        OwnerIsParent(c[0], c[1].ownedOrganisationNumber);
        OwnerIsCompany(c[0], c[1].ownedOrganisationNumber);
        LineFirst(table, tenantId, org, c);
        OwnersOfNobody(links);
        NoParent(table, tenantId, c[0], c[1]);
      }
    }
  }

  lemma OwnerIsCompany(l: Link, org: string)
    ensures OwnerIs(l, org) ==> l.ownerType.Company?
  {
  }

  lemma NoParent(table: seq<Link>, tenantId: string, l: Link, above: Link)
    ensures IsRow(table, tenantId, above) && Parent(l) == above.ownedOrganisationNumber ==> HasParent(l)
  {
  }

  lemma LineFirst(table: seq<Link>, tenantId: string, org: string, c: seq<Link>)
    requires |c| > 1
    ensures IsLine(table, tenantId, org, c) <==>
            && c[0].ownedOrganisationNumber == org && IsRow(table, tenantId, c[0])
            && OwnerIs(c[0], c[1].ownedOrganisationNumber)
            && IsLine(table, tenantId, c[1].ownedOrganisationNumber, c[1..])
  {
    hide IsRow, OwnerIs;
    var rest := c[1..];
    if IsLine(table, tenantId, org, c) {
      assert forall i :: 0 <= i < |rest| ==> rest[i] == c[i + 1];
    } else if IsLine(table, tenantId, c[1].ownedOrganisationNumber, rest) {
      assert forall i :: 1 <= i < |c| ==> c[i] == rest[i - 1];
      assert forall i :: 1 <= i < |c| - 1 ==> c[i + 1] == rest[i];
    }
  }

  // --- The graph ---

  lemma ShownIs(table: seq<Link>, tenantId: string, l: Link, root: string)
    requires IsRow(table, tenantId, l)
    ensures EdgeFor(l, root) == Shown(l, root)
  {
    LoadedAreRows(table, tenantId, l);
  }

  /** Each row into a company within four steps is one edge, with the row's fields; there are no others. */
  lemma EdgesAreRows(table: seq<Link>, tenantId: string, root: string)
    requires UniqueIds(table)
    ensures var edges := EdgesOf(Loaded(table, tenantId), Order(Loaded(table, tenantId), root));
            && EdgeIdsDistinct(edges)
            && forall e :: e in edges <==>
                 exists l :: IsRow(table, tenantId, l) && Within(table, tenantId, root, 4, l.ownedOrganisationNumber)
                             && e == Shown(l, root)
  {
    hide *;
    var links := Loaded(table, tenantId);
    var edges := EdgesOf(links, Order(links, root));
    LoadedUnique(table, tenantId);
    EdgesAreTheLinksInReach(links, root);
    forall e | e in edges
      ensures exists l :: IsRow(table, tenantId, l) && Within(table, tenantId, root, 4, l.ownedOrganisationNumber)
                          && e == Shown(l, root)
    {
      var l :| LinkInto(links, Reach(links, root, MAX_GRAPH_DEPTH), l) && e == EdgeFor(l, root);
      IntoReachIsRow(table, tenantId, root, l);
      ShownIs(table, tenantId, l, root);
    }
    forall l | IsRow(table, tenantId, l) && Within(table, tenantId, root, 4, l.ownedOrganisationNumber)
      ensures Shown(l, root) in edges
    {
      IntoReachIsRow(table, tenantId, root, l);
      ShownIs(table, tenantId, l, root);
    }
  }

  lemma LoadedUnique(table: seq<Link>, tenantId: string)
    requires UniqueIds(table)
    ensures UniqueIds(Loaded(table, tenantId))
  {
    LiveUniqueIds(table, tenantId);
    FilterUniqueIds(IsCanonical, Live(table, tenantId));
  }

  lemma IntoReachIsRow(table: seq<Link>, tenantId: string, root: string, l: Link)
    ensures LinkInto(Loaded(table, tenantId), Reach(Loaded(table, tenantId), root, MAX_GRAPH_DEPTH), l) <==>
            IsRow(table, tenantId, l) && Within(table, tenantId, root, 4, l.ownedOrganisationNumber)
  {
    hide Digits, Reach, Within, IsRow, Loaded;
    LoadedAreRows(table, tenantId, l);
    ReachIsWithin(table, tenantId, root, 4, l.ownedOrganisationNumber);
  }

  ghost predicate TellsOfOwner(links: seq<Link>, order: seq<Visit>, n: Node) {
    exists l, v :: v in order && OneEnd(links, v, l, n)
  }

  /** The node is an end of a link into the company visited. */
  ghost predicate OneEnd(links: seq<Link>, v: Visit, l: Link, n: Node) {
    l in Owners(links, v.org) && (n == OwnerNode(l) || n == TargetNode(l, v.org))
  }

  lemma {:induction false} NodesAroundTell(nodes: seq<Node>, owners: seq<Link>, v: Visit)
    ensures forall n :: n in nodes ==> n in NodesAround(nodes, owners, v)
    ensures forall n :: n in NodesAround(nodes, owners, v) ==>
              n in nodes || exists l :: l in owners && (n == OwnerNode(l) || n == TargetNode(l, v.org))
  {
    hide HasNode, OwnerNode, TargetNode;
    if owners != [] {
      NodesAroundTell(nodes, owners[..|owners| - 1], v);
      assert owners == owners[..|owners| - 1] + [owners[|owners| - 1]];
    }
  }

  lemma {:induction false} NodesTell(links: seq<Link>, root: string, order: seq<Visit>)
    ensures RootNode(root) in NodesOf(links, root, order)
    ensures forall n :: n in NodesOf(links, root, order) ==> n == RootNode(root) || TellsOfOwner(links, order, n)
  {
    hide HasNode, OwnerNode, TargetNode, RootNode, Owners, TellsOfOwner;
    if order != [] {
      var before, v := order[..|order| - 1], order[|order| - 1];
      NodesTell(links, root, before);
      NodesAroundTell(NodesOf(links, root, before), Owners(links, v.org), v);
      forall n | n in NodesOf(links, root, order) && n != RootNode(root)
        ensures TellsOfOwner(links, order, n)
      {
        assert order == before + [v];
        TellsStill(links, before, v, n);
        assert forall l :: l in Owners(links, v.org) && (n == OwnerNode(l) || n == TargetNode(l, v.org)) ==>
                 OneEnd(links, v, l, n);
      }
    }
  }

  lemma TellsStill(links: seq<Link>, before: seq<Visit>, v: Visit, n: Node)
    ensures TellsOfOwner(links, before, n) ==> TellsOfOwner(links, before + [v], n)
    ensures (exists l :: OneEnd(links, v, l, n)) ==> TellsOfOwner(links, before + [v], n)
  {
    hide OneEnd;
    if l :| OneEnd(links, v, l, n) {
      assert v in before + [v];
    }
  }

  lemma NodeTells(table: seq<Link>, tenantId: string, l: Link, n: Node)
    requires IsRow(table, tenantId, l) && (n == OwnerNode(l) || n == TargetNode(l, l.ownedOrganisationNumber))
    ensures Tells(n, l)
  {
  }

  /** The root is listed, every other node tells of a row, and the ids listed are the ends of the edges. */
  lemma NodesAreOfRows(table: seq<Link>, tenantId: string, root: string)
    ensures var links := Loaded(table, tenantId);
            var nodes, edges := NodesOf(links, root, Order(links, root)), EdgesOf(links, Order(links, root));
            && NodeIdsDistinct(nodes) && Subject(root) in nodes
            && (forall e :: e in edges ==> HasNode(nodes, e.from) && HasNode(nodes, e.to))
            && forall n :: n in nodes && n != Subject(root) ==>
                 exists l :: IsRow(table, tenantId, l) && Within(table, tenantId, root, 4, l.ownedOrganisationNumber)
                             && Tells(n, l)
  {
    hide *;
    var links := Loaded(table, tenantId);
    var order := Order(links, root);
    var nodes := NodesOf(links, root, order);
    NodesAreListed(links, root);
    NodesTell(links, root, order);
    assert RootNode(root) == Subject(root) by { SubjectIs(root); }
    ExpandsExactlyWithinFour(links, root);
    forall n | n in nodes && n != Subject(root)
      ensures exists l :: IsRow(table, tenantId, l) && Within(table, tenantId, root, 4, l.ownedOrganisationNumber)
                          && Tells(n, l)
    {
      var l := ToldByRow(table, tenantId, root, order, n);
    }
  }

  /** The subject company's own node. */
  function Subject(root: string): Node {
    Node("company:" + root, root, Company, Some(root), None)
  }

  lemma SubjectIs(root: string)
    ensures RootNode(root) == Subject(root)
  {
  }

  lemma NodesAreListed(links: seq<Link>, root: string)
    ensures var nodes, edges := NodesOf(links, root, Order(links, root)), EdgesOf(links, Order(links, root));
            && NodeIdsDistinct(nodes)
            && forall e :: e in edges ==> HasNode(nodes, e.from) && HasNode(nodes, e.to)
  {
    hide NodesOf, EdgesOf, Order, HasNode, NodeIdsDistinct;
    NodesAreTheEnds(links, root);
  }

  lemma ToldByRow(table: seq<Link>, tenantId: string, root: string, order: seq<Visit>, n: Node) returns (l: Link)
    requires Covers(Loaded(table, tenantId), root, order, {}) && TellsOfOwner(Loaded(table, tenantId), order, n)
    ensures IsRow(table, tenantId, l) && Within(table, tenantId, root, 4, l.ownedOrganisationNumber) && Tells(n, l)
  {
    hide Reach, IsRow, Within, Loaded, Owners, OwnerNode, TargetNode, Tells, Digits;
    var links := Loaded(table, tenantId);
    var k, v :| v in order && OneEnd(links, v, k, n);
    l := k;
    OwnersMember(links, v.org, l);
    LoadedAreRows(table, tenantId, l);
    assert v.org in Orgs(order);
    ReachIsWithin(table, tenantId, root, 4, v.org);
    NodeTells(table, tenantId, l, n);
  }

  // --- Owners ---

  /** Each aggregate is a person at the end of one of the chains, and each such person is listed. */
  ghost predicate ListsEndsOf(aggregates: seq<Aggregate>, chains: seq<Chain>) {
    && (forall j :: 0 <= j < |aggregates| ==> NamesOne(aggregates[j], chains))
    && (forall c :: c in chains ==> HasKey(aggregates, KeyAt(c)))
  }

  ghost predicate NamesOne(a: Aggregate, chains: seq<Chain>) {
    exists c :: c in chains && Names(a, c)
  }

  ghost predicate HasKey(aggregates: seq<Aggregate>, key: string) {
    exists a :: a in aggregates && a.key == key
  }

  /** Crediting chains lists the persons at their ends. */
  lemma {:induction false} CreditedAreEnds(chains: seq<Chain>, own: real, ctrl: real)
    requires forall c :: c in chains ==> c != []
    ensures ListsEndsOf(Credit([], chains, own, ctrl), chains)
  {
    hide OwnAlong, ControlAlong, Upsert, Names, KeyAt, HasKey, NamesOne;
    if chains != [] {
      var n := |chains| - 1;
      var before, c := chains[..n], chains[n];
      assert chains == before + [c] && c in chains;
      assert forall d :: d in before ==> d in chains;
      CreditedAreEnds(before, own, ctrl);
      OneMoreEnd(Credit([], before, own, ctrl), before, c, OwnAlong(own, c), ControlAlong(ctrl, c));
    }
  }

  lemma OneMoreEnd(was: seq<Aggregate>, before: seq<Chain>, c: Chain, own: real, ctrl: real)
    requires c != [] && ListsEndsOf(was, before)
    ensures ListsEndsOf(Upsert(was, c[|c| - 1], own, ctrl), before + [c])
  {
    hide KeyAt, Upsert;
    var now := Upsert(was, c[|c| - 1], own, ctrl);
    UpsertLists(was, c, own, ctrl);
    forall j | 0 <= j < |now| ensures NamesOne(now[j], before + [c]) {
      if j < |was| {
        var d :| d in before && Names(was[j], d);
        assert Names(now[j], d) && d in before + [c];
      } else {
        assert c in before + [c];
      }
    }
    forall d | d in before + [c] ensures HasKey(now, KeyAt(d)) {
      if d in before {
        var b :| b in was && b.key == KeyAt(d);
        var j :| 0 <= j < |was| && was[j] == b;
        assert now[j] in now;
      }
    }
  }

  /** The key of the person a line ends at. */
  function KeyAt(c: seq<Link>): string {
    if c == [] then "" else PersonKey(c[|c| - 1].ownerPersonnummer, c[|c| - 1].ownerName)
  }

  /** The aggregate is the person at the end of the line, named as in its last row. */
  predicate Names(a: Aggregate, c: seq<Link>) {
    && c != [] && a.key == KeyAt(c)
    && a.name == c[|c| - 1].ownerName && a.personnummer == c[|c| - 1].ownerPersonnummer
  }

  lemma UpsertLists(was: seq<Aggregate>, c: Chain, own: real, ctrl: real)
    requires c != []
    ensures var now := Upsert(was, c[|c| - 1], own, ctrl);
            && |was| <= |now| <= |was| + 1 && HasKey(now, KeyAt(c))
            && (forall j :: 0 <= j < |was| ==> now[j].key == was[j].key && now[j].name == was[j].name
                                               && now[j].personnummer == was[j].personnummer)
            && (|was| < |now| ==> Names(now[|was|], c))
  {
    hide PersonKey;
    var l := c[|c| - 1];
    var i, now := IndexOf(was, OwnerKey(l)), Upsert(was, l, own, ctrl);
    assert now[i].key == OwnerKey(l) && now[i] in now;
  }

  lemma OwnersOfChains(links: seq<Link>, root: string)
    ensures DerivedOwners(links, root) == Credit([], Chains(links, root, TRAVERSE_CHAIN_LENGTH), 100.0, 100.0)
  {
  }

  /** The owners listed are exactly the persons at the ends of lines of at most six rows, each once. */
  lemma OwnersAreEnds(table: seq<Link>, tenantId: string, root: string)
    ensures var owners := DerivedOwners(Loaded(table, tenantId), root);
            && KeysUnique(owners)
            && (forall a :: a in owners ==> exists c :: |c| <= 6 && IsLine(table, tenantId, root, c) && Names(a, c))
            && forall c :: |c| <= 6 && IsLine(table, tenantId, root, c) ==>
                 exists a :: a in owners && a.key == KeyAt(c)
  {
    hide Chains, IsChain, IsLine, Names, KeyAt, Credit, Loaded, KeysUnique, DerivedOwners;
    var links := Loaded(table, tenantId);
    var chains := Chains(links, root, TRAVERSE_CHAIN_LENGTH);
    ChainsNonEmpty(links, root, TRAVERSE_CHAIN_LENGTH);
    CreditedAreEnds(chains, 100.0, 100.0);
    CreditIsPathSum(chains, 100.0, 100.0, "");
    OwnersOfChains(links, root);
    forall c ensures c in chains <==> |c| <= 6 && IsLine(table, tenantId, root, c) {
      ChainsExact(links, root, TRAVERSE_CHAIN_LENGTH, c);
      ChainsAreLines(table, tenantId, root, c);
    }
  }

  /**
   Two rows name one person exactly when both carry the same ten or more digits, or neither has
   ten and the names match.
   */
  lemma OnePersonExactly(l: Link, k: Link)
    ensures OwnerKey(l) == OwnerKey(k) <==>
            var d, e := Digits(l.ownerPersonnummer.GetOr("")), Digits(k.ownerPersonnummer.GetOr(""));
            if |d| >= 10 || |e| >= 10 then d == e else SameName(Trim(l.ownerName), Trim(k.ownerName))
  {
    hide Digits, Trim, LowerChar;
    var d, e := Digits(l.ownerPersonnummer.GetOr("")), Digits(k.ownerPersonnummer.GetOr(""));
    var m, n := "name:" + Lower(Trim(l.ownerName)), "name:" + Lower(Trim(k.ownerName));
    assert m[0] == n[0] == 'n' && m[5..] == Lower(Trim(l.ownerName)) && n[5..] == Lower(Trim(k.ownerName));
    assert !IsDigit('n');
    assert |d| >= 10 ==> d[0] in d && IsDigit(d[0]);
    assert |e| >= 10 ==> e[0] in e && IsDigit(e[0]);
    SameNameExactly(Trim(l.ownerName), Trim(k.ownerName));
  }

  /** The names are the same letter by letter, up to case. */
  predicate SameName(a: string, b: string) {
    |a| == |b| && forall i :: 0 <= i < |a| ==> LowerChar(a[i]) == LowerChar(b[i])
  }

  lemma SameNameExactly(a: string, b: string)
    ensures Lower(a) == Lower(b) <==> SameName(a, b)
  {
    hide LowerChar;
    var la, lb := Lower(a), Lower(b);
    if la == lb {
      assert forall i :: 0 <= i < |a| ==> la[i] == LowerChar(a[i]) && lb[i] == LowerChar(b[i]);
    }
  }

  // --- Control paths ---

  /** A stored percentage as a factor; nothing stored, or nothing positive, counts as zero. */
  function Factor(pct: Option<real>): real {
    if pct.Some? && pct.value > 0.0 then pct.value / 100.0 else 0.0
  }

  /** What is left of the whole after following the rows, by ownership. */
  ghost function OwnShare(c: seq<Link>): real {
    if c == [] then 100.0 else OwnShare(c[..|c| - 1]) * Factor(c[|c| - 1].ownershipPercentage)
  }

  /** The same by control, a row without a positive control percentage counting by its ownership. */
  ghost function ControlShare(c: seq<Link>): real {
    if c == [] then 100.0 else
      var l := c[|c| - 1];
      ControlShare(c[..|c| - 1]) *
      if Factor(l.controlPercentage) > 0.0 then Factor(l.controlPercentage) else Factor(l.ownershipPercentage)
  }

  /** The path records these rows, with their weights. */
  ghost predicate PathOf(p: ControlPath, c: seq<Link>) {
    && p.steps == c && p.own == OwnShare(c) && p.ctrl == ControlShare(c)
    && (p.hasUnknownEdgeWeights <==> exists l :: l in c && Weightless(l))
  }

  /** Nothing positive is stored about the row's ownership or control. */
  predicate Weightless(l: Link) {
    Factor(l.ownershipPercentage) == 0.0 && Factor(l.controlPercentage) == 0.0
  }

  lemma {:induction false} WalkOnce(own: real, ctrl: real, c: Chain, l: Link)
    ensures WalkOwn(own, c + [l]) == WalkOwn(own, c) * Factor(l.ownershipPercentage)
    ensures WalkControl(ctrl, c + [l]) == WalkControl(ctrl, c) *
            if Factor(l.controlPercentage) > 0.0 then Factor(l.controlPercentage) else Factor(l.ownershipPercentage)
    decreases |c|
  {
    FactorsAre(l);
    if c == [] {
      assert c + [l] == [l] && [l][1..] == [];
    } else {
      assert (c + [l])[1..] == c[1..] + [l];
      hide OwnFactor, ControlFactor, Factor, Weigh;
      WalkOnce(Weigh(own, OwnFactor(c[0])), Weigh(ctrl, ControlFactor(c[0])), c[1..], l);
    }
  }

  lemma FactorsAre(l: Link)
    ensures OwnFactor(l) == Factor(l.ownershipPercentage)
    ensures ControlFactor(l) ==
            if Factor(l.controlPercentage) > 0.0 then Factor(l.controlPercentage) else Factor(l.ownershipPercentage)
    ensures WeightComplete(l) <==> !Weightless(l)
  {
  }

  lemma {:induction false} SharesAre(c: Chain)
    ensures WalkOwn(100.0, c) == OwnShare(c) && WalkControl(100.0, c) == ControlShare(c)
  {
    hide WalkOwn, WalkControl, Factor;
    if c != [] {
      SharesAre(c[..|c| - 1]);
      WalkOnce(100.0, 100.0, c[..|c| - 1], c[|c| - 1]);
      assert c == c[..|c| - 1] + [c[|c| - 1]];
    } else {
      NothingWalked();
    }
  }

  lemma NothingWalked()
    ensures WalkOwn(100.0, []) == WalkControl(100.0, []) == 100.0
  {
  }

  lemma RecordIsPath(c: Chain)
    ensures PathOf(Record([], 100.0, 100.0, c), c)
  {
    SharesAre(c);
    hide OwnShare, ControlShare, WalkOwn, WalkControl, Factor, WeightComplete, Weightless;
    assert [] + c == c;
    forall l ensures WeightComplete(l) <==> !Weightless(l) {
      FactorsAre(l);
    }
  }

  /**
   Every control path records at most seven of the tenant's rows that lead from the subject up
   to a person, with their weights; below 40 paths all such lines are recorded.
   */
  lemma PathsAreLines(table: seq<Link>, tenantId: string, root: string)
    ensures var paths := AllPaths(Loaded(table, tenantId), root);
            && (forall p :: p in paths ==>
                  |p.steps| <= 7 && IsLine(table, tenantId, root, p.steps) && PathOf(p, p.steps))
            && (|paths| < 40 ==> forall c :: |c| <= 7 && IsLine(table, tenantId, root, c) ==>
                  exists p :: p in paths && p.steps == c)
  {
    hide Recorded, Chains, IsChain, IsLine, PathOf, AllPaths, Record, Loaded;
    var links := Loaded(table, tenantId);
    var chains := Recorded(links, root, WALK_CHAIN_LENGTH, 0);
    var paths := AllPaths(links, root);
    RecordsAre(links, root);
    forall p | p in paths
      ensures |p.steps| <= 7 && IsLine(table, tenantId, root, p.steps) && PathOf(p, p.steps)
    {
      var i :| 0 <= i < |paths| && paths[i] == p;
      assert chains[i] in chains;
      RecordedAreChains(links, root, WALK_CHAIN_LENGTH, 0, chains[i]);
      ChainsAreLines(table, tenantId, root, chains[i]);
      RecordIsPath(chains[i]);
      StepsOf(chains[i]);
    }
    if |paths| < 40 {
      FewRecordsMeansAll(links, root);
      forall c | |c| <= 7 && IsLine(table, tenantId, root, c)
        ensures exists p :: p in paths && p.steps == c
      {
        ChainsAreLines(table, tenantId, root, c);
        ChainsExact(links, root, WALK_CHAIN_LENGTH, c);
        var i :| 0 <= i < |chains| && chains[i] == c;
        StepsOf(c);
        assert paths[i] in paths;
      }
    }
  }

  lemma RecordsAre(links: seq<Link>, root: string)
    ensures var chains, paths := Recorded(links, root, WALK_CHAIN_LENGTH, 0), AllPaths(links, root);
            |paths| == |chains| && forall i :: 0 <= i < |paths| ==> paths[i] == Record([], 100.0, 100.0, chains[i])
  {
  }

  lemma StepsOf(c: Chain)
    ensures Record([], 100.0, 100.0, c).steps == c
  {
  }
}
