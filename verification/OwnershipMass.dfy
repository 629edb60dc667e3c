/**
 What `traverse` adds up to: each person's total is the sum over the chains ending at
 them, and the totals of all persons together never exceed the whole company.
 (backend/src/ownership/ownership.service.ts:423-453, 470-472)
 */
module OwnershipMass {
  import opened Sequences
  import opened OwnershipLinks
  import opened OwnershipChains
  import opened OwnershipAggregates

  function OwnershipOf(aggregates: seq<Aggregate>, key: string): real {
    var i := IndexOf(aggregates, key);
    if i < |aggregates| then aggregates[i].ownership else 0.0
  }

  function ControlOf(aggregates: seq<Aggregate>, key: string): real {
    var i := IndexOf(aggregates, key);
    if i < |aggregates| then aggregates[i].control else 0.0
  }

  function PathsOf(aggregates: seq<Aggregate>, key: string): nat {
    var i := IndexOf(aggregates, key);
    if i < |aggregates| then aggregates[i].paths else 0
  }

  /** The chain ends at the person with this key. */
  predicate EndsAt(c: Chain, key: string) {
    c != [] && OwnerKey(c[|c| - 1]) == key
  }

  /** The total of `value` over the chains. */
  ghost function Total(chains: seq<Chain>, value: Chain -> real): real {
    if chains == [] then 0.0 else Total(chains[..|chains| - 1], value) + value(chains[|chains| - 1])
  }

  ghost function OwnValue(own: real): Chain -> real {
    (c: Chain) => OwnAlong(own, c)
  }

  ghost function ControlValue(ctrl: real): Chain -> real {
    (c: Chain) => ControlAlong(ctrl, c)
  }

  function For(key: string): Chain -> bool {
    (c: Chain) => EndsAt(c, key)
  }

  lemma {:induction false} TotalConcat(a: seq<Chain>, b: seq<Chain>, value: Chain -> real)
    ensures Total(a + b, value) == Total(a, value) + Total(b, value)
  {
    if b == [] {
      assert a + b == a;
    } else {
      assert (a + b)[..|a + b| - 1] == a + b[..|b| - 1];
      TotalConcat(a, b[..|b| - 1], value);
    }
  }

  lemma IndexIsUnique(aggregates: seq<Aggregate>, i: nat)
    requires KeysUnique(aggregates) && i < |aggregates|
    ensures IndexOf(aggregates, aggregates[i].key) == i
  {
  }

  lemma UpsertAdds(aggregates: seq<Aggregate>, l: Link, own: real, ctrl: real, key: string)
    requires KeysUnique(aggregates)
    ensures KeysUnique(Upsert(aggregates, l, own, ctrl))
    ensures OwnershipOf(Upsert(aggregates, l, own, ctrl), key) ==
            OwnershipOf(aggregates, key) + if OwnerKey(l) == key then own else 0.0
    ensures ControlOf(Upsert(aggregates, l, own, ctrl), key) ==
            ControlOf(aggregates, key) + if OwnerKey(l) == key then ctrl else 0.0
    ensures PathsOf(Upsert(aggregates, l, own, ctrl), key) ==
            PathsOf(aggregates, key) + if OwnerKey(l) == key then 1 else 0
  {
    var after := Upsert(aggregates, l, own, ctrl);
    var i := IndexOf(aggregates, OwnerKey(l));
    assert after[i].key == OwnerKey(l);
    IndexIsUnique(after, i);
    var j := IndexOf(aggregates, key);
    if j < |aggregates| {
      assert after[j].key == key;
      IndexIsUnique(after, j);
    } else if OwnerKey(l) != key {
      assert forall k :: 0 <= k < |after| ==> after[k].key != key;
      assert IndexOf(after, key) == |after|;
    }
  }

  /**
   Per person, `traverse` sums: ownership and control are the totals over the chains that
   end at the person, `paths` is how many there are.
   */
  lemma {:induction false} CreditIsPathSum(chains: seq<Chain>, own: real, ctrl: real, key: string)
    requires forall c :: c in chains ==> c != []
    ensures KeysUnique(Credit([], chains, own, ctrl))
    ensures OwnershipOf(Credit([], chains, own, ctrl), key) == Total(Filter(For(key), chains), OwnValue(own))
    ensures ControlOf(Credit([], chains, own, ctrl), key) == Total(Filter(For(key), chains), ControlValue(ctrl))
    ensures PathsOf(Credit([], chains, own, ctrl), key) == |Filter(For(key), chains)|
  {
    hide OwnAlong, ControlAlong, Upsert, OwnerKey, OwnershipOf, ControlOf, PathsOf;
    if chains == [] {
      NobodyYet(key);
    } else {
      var n := |chains| - 1;
      var before, c := chains[..n], chains[n];
      assert forall d :: d in before ==> d in chains;
      CreditIsPathSum(before, own, ctrl, key);
      assert chains == before + [c] && c in chains;
      FilterConcat(For(key), before, [c]);
      TotalConcat(Filter(For(key), before), Filter(For(key), [c]), OwnValue(own));
      TotalConcat(Filter(For(key), before), Filter(For(key), [c]), ControlValue(ctrl));
      TotalOfOne(c, key, own, ctrl);
      UpsertAdds(Credit([], before, own, ctrl), c[|c| - 1], OwnAlong(own, c), ControlAlong(ctrl, c), key);
    }
  }

  lemma NobodyYet(key: string)
    ensures OwnershipOf([], key) == 0.0 && ControlOf([], key) == 0.0 && PathsOf([], key) == 0
  {
  }

  lemma TotalOfOne(c: Chain, key: string, own: real, ctrl: real)
    requires c != []
    ensures Filter(For(key), [c]) == if OwnerKey(c[|c| - 1]) == key then [c] else []
    ensures Total([c], OwnValue(own)) == OwnAlong(own, c)
    ensures Total([c], ControlValue(ctrl)) == ControlAlong(ctrl, c)
    ensures Total([], OwnValue(own)) == Total([], ControlValue(ctrl)) == 0.0
  {
  }

  // --- Conservation ---

  ghost function Mass(aggregates: seq<Aggregate>): real {
    if aggregates == [] then 0.0 else
      Mass(aggregates[..|aggregates| - 1]) + aggregates[|aggregates| - 1].ownership
  }

  lemma {:induction false} MassOfUpdate(aggregates: seq<Aggregate>, i: nat, a: Aggregate)
    requires i < |aggregates|
    ensures Mass(aggregates[i := a]) == Mass(aggregates) - aggregates[i].ownership + a.ownership
  {
    var n := |aggregates| - 1;
    if i < n {
      assert aggregates[i := a][..n] == aggregates[..n][i := a];
      MassOfUpdate(aggregates[..n], i, a);
    } else {
      assert aggregates[i := a][..n] == aggregates[..n];
    }
  }

  lemma MassOfUpsert(aggregates: seq<Aggregate>, l: Link, own: real, ctrl: real)
    ensures Mass(Upsert(aggregates, l, own, ctrl)) == Mass(aggregates) + own
  {
    hide OwnerKey;
    var i := IndexOf(aggregates, OwnerKey(l));
    if i < |aggregates| {
      var a := aggregates[i];
      MassOfUpdate(aggregates, i,
                   a.(ownership := a.ownership + own, control := a.control + ctrl, paths := a.paths + 1));
    } else {
      assert Upsert(aggregates, l, own, ctrl)[..|aggregates|] == aggregates;
    }
  }

  lemma {:induction false} MassOfCredit(chains: seq<Chain>, own: real, ctrl: real)
    requires forall c :: c in chains ==> c != []
    ensures Mass(Credit([], chains, own, ctrl)) == Total(chains, OwnValue(own))
  {
    hide OwnAlong, ControlAlong, Upsert;
    if chains != [] {
      var n := |chains| - 1;
      var c := chains[n];
      assert forall d :: d in chains[..n] ==> d in chains;
      assert c in chains;
      MassOfCredit(chains[..n], own, ctrl);
      MassOfUpsert(Credit([], chains[..n], own, ctrl), c[|c| - 1], OwnAlong(own, c), ControlAlong(ctrl, c));
    }
  }

  ghost predicate NonNegative(links: seq<Link>) {
    forall l :: l in links ==> OwnPct(l) >= 0.0
  }

  ghost function PctTotal(owners: seq<Link>): real {
    if owners == [] then 0.0 else OwnPct(owners[0]) + PctTotal(owners[1..])
  }

  /** No company has more than 100 percent of owners. */
  ghost predicate NotOversubscribed(links: seq<Link>) {
    NonNegative(links) && forall org :: PctTotal(Owners(links, org)) <= 100.0
  }

  lemma {:induction false} TotalPrefixed(l: Link, chains: seq<Chain>, own: real)
    ensures Total(Prefixed(l, chains), OwnValue(own)) == Total(chains, OwnValue(Share(own, OwnPct(l))))
  {
    hide Share, OwnPct, OwnAlong;
    if chains != [] {
      var n := |chains| - 1;
      assert Prefixed(l, chains)[..n] == Prefixed(l, chains[..n]);
      TotalPrefixed(l, chains[..n], own);
      AlongPrefixed(l, chains[n], own, 0.0);
    }
  }

  /** However long the chains and however cyclic the links, a company passes on at most what it holds. */
  lemma {:induction false} ChainsPassOnAtMost(links: seq<Link>, org: string, n: nat, own: real)
    requires NotOversubscribed(links) && own >= 0.0
    ensures 0.0 <= Total(Chains(links, org, n), OwnValue(own)) <= own
    decreases n, 0
  {
    if n > 0 {
      var owners := Owners(links, org);
      FilterMembers(OwnedBy(org), links);
      OwnersPassOnAtMost(links, owners, n, own);
      ShareBound(own, PctTotal(owners));
    }
  }

  lemma {:induction false} OwnersPassOnAtMost(links: seq<Link>, owners: seq<Link>, n: nat, own: real)
    requires NotOversubscribed(links) && own >= 0.0 && n > 0 && forall l :: l in owners ==> l in links
    ensures 0.0 <= Total(ChainsThrough(links, owners, n), OwnValue(own)) <= Share(own, PctTotal(owners))
    decreases n - 1, 2, |owners|
  {
    hide Share, OwnAlong, Owners, OwnPct, ChainsVia, NotOversubscribed;
    if owners == [] {
      ShareSplits(own, 0.0, 0.0);
    } else {
      var l := owners[0];
      OwnersPassOnAtMost(links, owners[1..], n, own);
      TotalConcat(ChainsVia(links, l, n), ChainsThrough(links, owners[1..], n), OwnValue(own));
      assert l in links;
      ShareSplits(own, OwnPct(l), PctTotal(owners[1..]));
      ViaPassesOnAtMost(links, l, n, own);
    }
  }

  lemma {:induction false} ViaPassesOnAtMost(links: seq<Link>, l: Link, n: nat, own: real)
    requires NotOversubscribed(links) && own >= 0.0 && n > 0 && l in links
    ensures 0.0 <= Total(ChainsVia(links, l, n), OwnValue(own)) <= Share(own, OwnPct(l))
    decreases n - 1, 1
  {
    hide Share, OwnAlong, OwnPct, Chains, Prefixed, Total;
    ShareSplits(own, OwnPct(l), 0.0);
    if l.ownerType.Person? {
      TotalOfOne([l], OwnerKey(l), own, 0.0);
      AlongOne(l, own);
    } else {
      TotalPrefixed(l, Chains(links, Parent(l), n - 1), own);
      ChainsPassOnAtMost(links, Parent(l), n - 1, Share(own, OwnPct(l)));
    }
  }

  lemma AlongOne(l: Link, own: real)
    ensures OwnAlong(own, [l]) == Share(own, OwnPct(l))
  {
  }

  lemma ShareSplits(own: real, a: real, b: real)
    ensures Share(own, a + b) == Share(own, a) + Share(own, b)
    ensures own >= 0.0 && a >= 0.0 ==> Share(own, a) >= 0.0
  {
  }

  lemma ShareBound(own: real, pct: real)
    requires own >= 0.0 && pct <= 100.0
    ensures Share(own, pct) <= own
  {
    assert own * pct <= own * 100.0;
  }

  /** The ownership threshold of the `ubos` filter. */
  predicate OwnsAQuarter(a: Aggregate) {
    a.ownership >= 25.0
  }

  lemma {:induction false} QuartersNeedMass(aggregates: seq<Aggregate>)
    requires forall a :: a in aggregates ==> a.ownership >= 0.0
    ensures |Filter(OwnsAQuarter, aggregates)| as real * 25.0 <= Mass(aggregates)
  {
    if aggregates != [] {
      var n := |aggregates| - 1;
      var before := aggregates[..n];
      assert aggregates == before + [aggregates[n]];
      assert forall a :: a in before ==> a in aggregates;
      QuartersNeedMass(before);
      FilterConcat(OwnsAQuarter, before, [aggregates[n]]);
    }
  }

  lemma {:induction false} CreditsAreNonNegative(links: seq<Link>, chains: seq<Chain>, own: real, ctrl: real)
    requires NonNegative(links) && own >= 0.0
    requires forall c :: c in chains ==> c != [] && forall l :: l in c ==> l in links
    ensures forall a :: a in Credit([], chains, own, ctrl) ==> a.ownership >= 0.0
  {
    if chains != [] {
      var n := |chains| - 1;
      var c := chains[n];
      assert forall d :: d in chains[..n] ==> d in chains;
      assert c in chains;
      CreditsAreNonNegative(links, chains[..n], own, ctrl);
      AlongIsNonNegative(links, c, own);
    }
  }

  lemma {:induction false} AlongIsNonNegative(links: seq<Link>, c: Chain, own: real)
    requires NonNegative(links) && own >= 0.0 && forall l :: l in c ==> l in links
    ensures OwnAlong(own, c) >= 0.0
    decreases |c|
  {
    if c != [] {
      ShareSplits(own, OwnPct(c[0]), 0.0);
      AlongIsNonNegative(links, c[1..], Share(own, OwnPct(c[0])));
    }
  }

  lemma {:induction false} ChainLinksAreLinks(links: seq<Link>, org: string, c: Chain)
    requires IsChain(links, org, c)
    ensures forall l :: l in c ==> l in links
    decreases |c|
  {
    OwnersMember(links, org, c[0]);
    if |c| > 1 {
      ChainLinksAreLinks(links, Parent(c[0]), c[1..]);
    }
  }

  /**
   Derived ownership over all persons sums to at most 100, cyclic graphs included, so at
   most four persons can reach 25 percent through chains.
   */
  lemma OwnershipIsConserved(links: seq<Link>, org: string, n: nat)
    requires NotOversubscribed(links)
    ensures 0.0 <= Mass(Credit([], Chains(links, org, n), 100.0, 100.0)) <= 100.0
    ensures |Filter(OwnsAQuarter, Credit([], Chains(links, org, n), 100.0, 100.0))| <= 4
  {
    hide Chains, IsChain, Credit, Mass, Total, Filter, OwnAlong;
    var chains := Chains(links, org, n);
    var aggregates := Credit([], chains, 100.0, 100.0);
    forall c | c in chains
      ensures c != [] && forall l :: l in c ==> l in links
    {
      ChainsNonEmpty(links, org, n);
      ChainsExact(links, org, n, c);
      ChainLinksAreLinks(links, org, c);
    }
    ChainsPassOnAtMost(links, org, n, 100.0);
    MassOfCredit(chains, 100.0, 100.0);
    CreditsAreNonNegative(links, chains, 100.0, 100.0);
    QuartersNeedMass(aggregates);
  }
}
