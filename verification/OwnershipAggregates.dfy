/**
 `traverse`: each person's effective ownership and control, summed over all chains
 of at most six links, and the bound those sums obey.
 (backend/src/ownership/ownership.service.ts:103-127, 348-355, 423-453, 470-472)
 */
module OwnershipAggregates {
  import opened Wrappers
  import opened Sequences
  import opened Strings
  import opened OwnershipLinks
  import opened OwnershipChains

  const MAX_TRAVERSE_DEPTH: nat := 5
  const TRAVERSE_CHAIN_LENGTH: nat := 6

  /** `normalisePersonKey` */
  function PersonKey(personnummer: Option<string>, name: string): string {
    var d := Digits(personnummer.GetOr(""));
    if |d| >= 10 then d else "name:" + Lower(Trim(name))
  }

  function OwnerKey(l: Link): string {
    PersonKey(l.ownerPersonnummer, l.ownerName)
  }

  function OwnPct(l: Link): real {
    l.ownershipPercentage.GetOr(0.0)
  }

  /** `linkNumericControlPct`: an unknown control share falls back to the ownership share. */
  function ControlPct(l: Link): real {
    if l.controlPercentage.Some? then l.controlPercentage.value else OwnPct(l)
  }

  /** The share `pct` percent takes of an amount. */
  function Share(amount: real, pct: real): real {
    amount * pct / 100.0
  }

  datatype Aggregate = Aggregate(key: string, name: string, personnummer: Option<string>,
                                 ownership: real, control: real, paths: nat)

  function IndexOf(aggregates: seq<Aggregate>, key: string): (i: nat)
    ensures i <= |aggregates|
    ensures i < |aggregates| ==> aggregates[i].key == key
    ensures forall j :: 0 <= j < i ==> aggregates[j].key != key
  {
    if aggregates == [] || aggregates[0].key == key then 0 else 1 + IndexOf(aggregates[1..], key)
  }

  ghost predicate KeysUnique(aggregates: seq<Aggregate>) {
    forall i, j :: 0 <= i < j < |aggregates| ==> aggregates[i].key != aggregates[j].key
  }

  /** One chain reaching a person: the insertion-ordered map entry of that person grows. */
  function Upsert(aggregates: seq<Aggregate>, l: Link, own: real, ctrl: real): seq<Aggregate> {
    var i := IndexOf(aggregates, OwnerKey(l));
    if i < |aggregates| then
      var a := aggregates[i];
      aggregates[i := a.(ownership := a.ownership + own, control := a.control + ctrl, paths := a.paths + 1)]
    else
      aggregates + [Aggregate(OwnerKey(l), l.ownerName, l.ownerPersonnummer, own, ctrl, 1)]
  }

  /** What a chain passes on of a starting amount of ownership, and of control. */
  ghost function OwnAlong(mul: real, c: Chain): real
    decreases |c|
  {
    if c == [] then mul else OwnAlong(Share(mul, OwnPct(c[0])), c[1..])
  }

  ghost function ControlAlong(mul: real, c: Chain): real
    decreases |c|
  {
    if c == [] then mul else ControlAlong(Share(mul, ControlPct(c[0])), c[1..])
  }

  /** Crediting every chain to the person at its end, in order. */
  ghost function Credit(aggregates: seq<Aggregate>, chains: seq<Chain>, own: real, ctrl: real): seq<Aggregate> {
    if chains == [] then aggregates else
      var before := Credit(aggregates, chains[..|chains| - 1], own, ctrl);
      var c := chains[|chains| - 1];
      if c == [] then before else Upsert(before, c[|c| - 1], OwnAlong(own, c), ControlAlong(ctrl, c))
  }

  lemma {:induction false} CreditConcat(aggregates: seq<Aggregate>, a: seq<Chain>, b: seq<Chain>, own: real, ctrl: real)
    ensures Credit(aggregates, a + b, own, ctrl) == Credit(Credit(aggregates, a, own, ctrl), b, own, ctrl)
  {
    if b == [] {
      assert a + b == a;
    } else {
      assert (a + b)[..|a + b| - 1] == a + b[..|b| - 1];
      CreditConcat(aggregates, a, b[..|b| - 1], own, ctrl);
    }
  }

  lemma AlongPrefixed(l: Link, c: Chain, own: real, ctrl: real)
    ensures OwnAlong(own, [l] + c) == OwnAlong(Share(own, OwnPct(l)), c)
    ensures ControlAlong(ctrl, [l] + c) == ControlAlong(Share(ctrl, ControlPct(l)), c)
  {
    hide Share;
    assert ([l] + c)[1..] == c;
  }

  lemma {:induction false} CreditPrefixed(aggregates: seq<Aggregate>, l: Link, chains: seq<Chain>, own: real,
                                          ctrl: real)
    requires forall c :: c in chains ==> c != []
    ensures Credit(aggregates, Prefixed(l, chains), own, ctrl) ==
            Credit(aggregates, chains, Share(own, OwnPct(l)), Share(ctrl, ControlPct(l)))
  {
    hide OwnAlong, ControlAlong, Upsert, OwnPct, ControlPct, Share;
    if chains != [] {
      var n := |chains| - 1;
      assert Prefixed(l, chains)[..n] == Prefixed(l, chains[..n]);
      assert forall c :: c in chains[..n] ==> c in chains;
      CreditPrefixed(aggregates, l, chains[..n], own, ctrl);
      var c := chains[n];
      assert c in chains;
      assert Prefixed(l, chains)[n] == [l] + c;
      AlongPrefixed(l, c, own, ctrl);
      assert ([l] + c)[|c|] == c[|c| - 1];
    }
  }

  lemma ChainsNonEmpty(links: seq<Link>, org: string, n: nat)
    ensures forall c :: c in Chains(links, org, n) ==> c != []
  {
    forall c | c in Chains(links, org, n) ensures c != [] { ChainsExact(links, org, n, c); }
  }

  /** `ownedByMap` lists, for every company, its owners among `links`. */
  ghost predicate Indexes(ownedBy: map<string, seq<Link>>, links: seq<Link>) {
    forall org :: Lookup(ownedBy, org) == Owners(links, org)
  }

  function Lookup(ownedBy: map<string, seq<Link>>, org: string): seq<Link> {
    if org in ownedBy then ownedBy[org] else []
  }

  lemma OneMoreLink(links: seq<Link>, i: nat, org: string)
    requires i < |links|
    ensures Owners(links[..i + 1], org) ==
            Owners(links[..i], org) +
            if org != "" && Digits(links[i].ownedOrganisationNumber) == org then [links[i]] else []
  {
    assert links[..i + 1] == links[..i] + [links[i]];
    FilterConcat(OwnedBy(org), links[..i], [links[i]]);
  }

  lemma NoLinks()
    ensures forall org :: Owners([], org) == []
  {
  }

  method BuildOwnedByMap(links: seq<Link>) returns (ownedBy: map<string, seq<Link>>)
    ensures Indexes(ownedBy, links)
  {
    hide Owners, Digits;
    NoLinks();
    ownedBy := map[];
    for i := 0 to |links|
      invariant Indexes(ownedBy, links[..i])
    {
      var link := links[i];
      var owned := Digits(link.ownedOrganisationNumber);
      ghost var before := ownedBy;
      if owned != "" {
        ownedBy := ownedBy[owned := Lookup(ownedBy, owned) + [link]];
      }
      forall org ensures Lookup(ownedBy, org) == Owners(links[..i + 1], org) {
        OneMoreLink(links, i, org);
        assert Lookup(before, org) == Owners(links[..i], org);
      }
    }
    assert links[..|links|] == links;
  }

  lemma NoOwners(links: seq<Link>, aggregates: seq<Aggregate>, own: real, ctrl: real)
    ensures Credit(aggregates, [], own, ctrl) == aggregates
    ensures forall n: nat :: n > 0 ==> ChainsThrough(links, [], n) == []
  {
  }

  /** The recursive walk: afterwards every chain found is credited to the person it ends at. */
  method Traverse(ownedBy: map<string, seq<Link>>, ghost links: seq<Link>, org: string, ownershipMul: real,
                  controlMul: real, depth: nat, aggregates: seq<Aggregate>)
    returns (aggregates': seq<Aggregate>)
    requires Indexes(ownedBy, links) && depth <= TRAVERSE_CHAIN_LENGTH
    ensures aggregates' ==
            Credit(aggregates, Chains(links, org, TRAVERSE_CHAIN_LENGTH - depth), ownershipMul, controlMul)
    decreases TRAVERSE_CHAIN_LENGTH - depth
  {
    hide Credit, ChainsThrough, ChainsVia, Owners, Digits, Upsert, OwnAlong, ControlAlong, Share;
    NoOwners(links, aggregates, ownershipMul, controlMul);
    aggregates' := aggregates;
    if depth > MAX_TRAVERSE_DEPTH {
      return;
    }
    var directOwners := Lookup(ownedBy, org);
    ghost var n := TRAVERSE_CHAIN_LENGTH - depth;
    for i := 0 to |directOwners|
      invariant aggregates' ==
                Credit(aggregates, ChainsThrough(links, directOwners[..i], n), ownershipMul, controlMul)
    {
      var link := directOwners[i];
      var nextOwnership := Share(ownershipMul, OwnPct(link));
      var nextControl := Share(controlMul, ControlPct(link));
      OneMoreOwner(links, directOwners, i, n);
      CreditConcat(aggregates, ChainsThrough(links, directOwners[..i], n), ChainsVia(links, link, n), ownershipMul,
                   controlMul);
      CreditVia(aggregates', links, link, n, ownershipMul, controlMul);
      if link.ownerType.Person? {
        aggregates' := Upsert(aggregates', link, nextOwnership, nextControl);
      } else if HasParent(link) {
        aggregates' := Traverse(ownedBy, links, Digits(link.ownerOrganisationNumber.value), nextOwnership, nextControl,
                                depth + 1, aggregates');
      }
    }
    assert directOwners[..|directOwners|] == directOwners;
  }

  lemma {:induction false} OneMoreOwner(links: seq<Link>, owners: seq<Link>, i: nat, n: nat)
    requires n > 0 && i < |owners|
    ensures ChainsThrough(links, owners[..i + 1], n) ==
            ChainsThrough(links, owners[..i], n) + ChainsVia(links, owners[i], n)
  {
    if i == 0 {
      assert owners[..1] == [owners[0]];
    } else {
      assert owners[..i + 1][1..] == owners[1..][..i] && owners[..i][1..] == owners[1..][..i - 1];
      OneMoreOwner(links, owners[1..], i - 1, n);
    }
  }

  lemma CreditVia(aggregates: seq<Aggregate>, links: seq<Link>, l: Link, n: nat, own: real, ctrl: real)
    requires n > 0
    ensures Credit(aggregates, ChainsVia(links, l, n), own, ctrl) ==
            (if l.ownerType.Person? then Upsert(aggregates, l, Share(own, OwnPct(l)), Share(ctrl, ControlPct(l)))
             else if HasParent(l) then
               Credit(aggregates, Chains(links, Parent(l), n - 1), Share(own, OwnPct(l)), Share(ctrl, ControlPct(l)))
             else aggregates)
  {
    if l.ownerType.Person? {
      assert OwnAlong(own, [l]) == Share(own, OwnPct(l));
      assert ControlAlong(ctrl, [l]) == Share(ctrl, ControlPct(l));
    } else if HasParent(l) {
      ChainsNonEmpty(links, Parent(l), n - 1);
      CreditPrefixed(aggregates, l, Chains(links, Parent(l), n - 1), own, ctrl);
    } else {
      NoChainsAboveNobody(links, n - 1);
    }
  }
}
