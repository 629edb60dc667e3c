/**
 The rows of `ownership_links` and how the ownership engine reads them
 (backend/src/ownership/ownership.service.ts). The table is a sequence in the
 order of the program's queries, newest `createdAt` first.
 */
module OwnershipLinks {
  import opened Wrappers
  import opened Sequences
  import opened Strings

  datatype OwnerType = Person | Company

  datatype Link = Link(
    id: string,
    tenantId: string,
    isCurrent: bool,
    ownerType: OwnerType,
    ownerName: string,
    ownerOrganisationNumber: Option<string>,
    ownerPersonnummer: Option<string>,
    ownedOrganisationNumber: string,
    ownedCompanyName: string,
    ownershipPercentage: Option<real>,
    controlPercentage: Option<real>)

  /** A link whose owner is a company with a stored, non-empty organisation number. */
  predicate HasParent(l: Link) {
    l.ownerType.Company? && l.ownerOrganisationNumber.GetOr("") != ""
  }

  /** The owning company's number; empty when there is nothing to follow. */
  function Parent(l: Link): string {
    if HasParent(l) then Digits(l.ownerOrganisationNumber.value) else ""
  }

  ghost predicate UniqueIds(links: seq<Link>) {
    forall i, j :: 0 <= i < j < |links| ==> links[i].id != links[j].id
  }

  function LiveFor(tenantId: string): Link -> bool {
    (l: Link) => l.tenantId == tenantId && l.isCurrent
  }

  /** The tenant's current links: what "every link" means for one request. */
  function Live(table: seq<Link>, tenantId: string): seq<Link> {
    Filter(LiveFor(tenantId), table)
  }

  function StoredAs(org: string): Link -> bool {
    (l: Link) => l.ownedOrganisationNumber == org
  }

  function OwnedBy(org: string): Link -> bool {
    (l: Link) => org != "" && Digits(l.ownedOrganisationNumber) == org
  }

  /** `ownedByMap.get(org) ?? []`: the direct owners of `org` among `links`. */
  function Owners(links: seq<Link>, org: string): seq<Link> {
    Filter(OwnedBy(org), links)
  }

  lemma OwnersMember(links: seq<Link>, org: string, l: Link)
    ensures l in Owners(links, org) <==>
            l in links && org != "" && Digits(l.ownedOrganisationNumber) == org
  {
    FilterMember(OwnedBy(org), links, l);
  }

  lemma OwnersOfNobody(links: seq<Link>)
    ensures Owners(links, "") == []
  {
    FilterNone(OwnedBy(""), links);
  }

  /** The companies one step above the companies in `orgs`. */
  ghost function Above(links: seq<Link>, orgs: set<string>): set<string> {
    set l | l in links && HasParent(l) && Digits(l.ownedOrganisationNumber) != "" &&
            Digits(l.ownedOrganisationNumber) in orgs :: Parent(l)
  }

  /** The companies at most `n` steps above `root`. */
  ghost function Reach(links: seq<Link>, root: string, n: nat): set<string> {
    if n == 0 then {root} else
      Reach(links, root, n - 1) + Above(links, Reach(links, root, n - 1))
  }

  lemma {:induction false} ReachMonotone(links: seq<Link>, root: string, m: nat, n: nat)
    requires m <= n
    ensures Reach(links, root, m) <= Reach(links, root, n)
  {
    hide Above;
    if m < n {
      ReachMonotone(links, root, m, n - 1);
    }
  }

  lemma ReachStep(links: seq<Link>, root: string, n: nat, org: string, l: Link)
    requires org in Reach(links, root, n) && l in Owners(links, org) && HasParent(l)
    ensures Parent(l) in Reach(links, root, n + 1)
  {
    OwnersMember(links, org, l);
    assert Parent(l) in Above(links, Reach(links, root, n));
  }

  /** Two link tables that list the same owners, in the same order, for every company within `n` steps. */
  ghost predicate SameOwners(a: seq<Link>, b: seq<Link>, root: string, n: nat) {
    forall org :: org in Reach(a, root, n) ==> Owners(a, org) == Owners(b, org)
  }

  lemma AboveFollowsOwners(a: seq<Link>, b: seq<Link>, orgs: set<string>)
    requires forall org :: org in orgs ==> Owners(a, org) == Owners(b, org)
    ensures Above(a, orgs) <= Above(b, orgs)
  {
    forall p | p in Above(a, orgs)
      ensures p in Above(b, orgs)
    {
      var l :| l in a && HasParent(l) && Digits(l.ownedOrganisationNumber) != "" &&
               Digits(l.ownedOrganisationNumber) in orgs && Parent(l) == p;
      OwnersMember(a, Digits(l.ownedOrganisationNumber), l);
      OwnersMember(b, Digits(l.ownedOrganisationNumber), l);
    }
  }

  lemma SameAbove(a: seq<Link>, b: seq<Link>, orgs: set<string>)
    requires forall org :: org in orgs ==> Owners(a, org) == Owners(b, org)
    ensures Above(a, orgs) == Above(b, orgs)
  {
    AboveFollowsOwners(a, b, orgs);
    AboveFollowsOwners(b, a, orgs);
  }

  lemma {:induction false} SameReach(a: seq<Link>, b: seq<Link>, root: string, n: nat, k: nat)
    requires SameOwners(a, b, root, n) && k <= n + 1
    ensures Reach(a, root, k) == Reach(b, root, k)
  {
    hide Above;
    if k > 0 {
      SameReach(a, b, root, n, k - 1);
      var near := Reach(a, root, k - 1);
      assert forall org :: org in near ==> Owners(a, org) == Owners(b, org) by {
        ReachMonotone(a, root, k - 1, n);
      }
      SameAbove(a, b, near);
      assert Reach(a, root, k) == near + Above(a, near);
      assert Reach(b, root, k) == near + Above(b, near);
    }
  }

  // --- The rows of one tenant, and the companies they lead up to ---

  /** A current row of the tenant about a company, its number stored as digits. */
  ghost predicate IsRow(table: seq<Link>, tenantId: string, l: Link) {
    && l in table && l.tenantId == tenantId && l.isCurrent
    && l.ownedOrganisationNumber != "" && AllDigits(l.ownedOrganisationNumber)
  }

  /** The row's owner is the company `org`: its stored number, digits only. */
  predicate OwnerIs(l: Link, org: string) {
    && l.ownerType == Company && l.ownerOrganisationNumber.Some?
    && l.ownerOrganisationNumber.value != "" && Digits(l.ownerOrganisationNumber.value) == org
  }

  /** The tenant's rows `up` lead from `root` up to `org`, one step each. */
  ghost predicate LeadsUp(table: seq<Link>, tenantId: string, root: string, org: string, up: seq<Link>)
    decreases |up|
  {
    if up == [] then org == root else
      var l := up[|up| - 1];
      && IsRow(table, tenantId, l) && OwnerIs(l, org)
      && LeadsUp(table, tenantId, root, l.ownedOrganisationNumber, up[..|up| - 1])
  }

  /** `org` can be reached from `root` by at most `n` of the tenant's rows. */
  ghost predicate Within(table: seq<Link>, tenantId: string, root: string, n: nat, org: string) {
    exists up :: |up| <= n && LeadsUp(table, tenantId, root, org, up)
  }

  lemma OwnerIsParent(l: Link, org: string)
    ensures OwnerIs(l, org) <==> HasParent(l) && Parent(l) == org
  {
  }
}
