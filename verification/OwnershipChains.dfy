/**
 Chains of ownership above a company, the two walks over them (`traverse`, `walkUp`)
 and what the walks add up to.
 */
module OwnershipChains {
  import opened Sequences
  import opened Strings
  import opened OwnershipLinks

  /** Links from a company upward, each owned by the next one's subject, ending at a person. */
  type Chain = seq<Link>

  ghost predicate IsChain(links: seq<Link>, org: string, c: Chain)
    decreases |c|
  {
    && c != []
    && c[0] in Owners(links, org)
    && if |c| == 1 then c[0].ownerType.Person? else
         c[0].ownerType.Company? && IsChain(links, Parent(c[0]), c[1..])
  }

  /** All chains of at most `n` links above `org`, depth first. */
  ghost function Chains(links: seq<Link>, org: string, n: nat): seq<Chain>
    decreases n, 0
  {
    if n == 0 then [] else ChainsThrough(links, Owners(links, org), n)
  }

  ghost function ChainsThrough(links: seq<Link>, owners: seq<Link>, n: nat): seq<Chain>
    requires n > 0
    decreases n - 1, 2, |owners|
  {
    if owners == [] then [] else
      ChainsVia(links, owners[0], n) + ChainsThrough(links, owners[1..], n)
  }

  ghost function ChainsVia(links: seq<Link>, l: Link, n: nat): seq<Chain>
    requires n > 0
    decreases n - 1, 1
  {
    if l.ownerType.Person? then [[l]] else Prefixed(l, Chains(links, Parent(l), n - 1))
  }

  ghost function Prefixed(l: Link, chains: seq<Chain>): (r: seq<Chain>)
    ensures |r| == |chains|
  {
    seq(|chains|, i requires 0 <= i < |chains| => [l] + chains[i])
  }

  lemma PrefixedMember(l: Link, chains: seq<Chain>, c: Chain)
    ensures c in Prefixed(l, chains) <==> c != [] && c[0] == l && c[1..] in chains
  {
    if c != [] && c[0] == l && c[1..] in chains {
      var i :| 0 <= i < |chains| && chains[i] == c[1..];
      assert Prefixed(l, chains)[i] == c;
    }
    if c in Prefixed(l, chains) {
      var i :| 0 <= i < |chains| && Prefixed(l, chains)[i] == c;
      assert c[1..] == chains[i];
    }
  }

  /** The enumeration finds every chain of at most `n` links, and nothing else. */
  lemma {:induction false} ChainsExact(links: seq<Link>, org: string, n: nat, c: Chain)
    ensures c in Chains(links, org, n) <==> IsChain(links, org, c) && |c| <= n
    decreases n, 0
  {
    if n > 0 {
      ChainsThroughExact(links, Owners(links, org), n, c);
    }
  }

  lemma {:induction false} ChainsThroughExact(links: seq<Link>, owners: seq<Link>, n: nat, c: Chain)
    requires n > 0
    ensures c in ChainsThrough(links, owners, n) <==>
            c != [] && c[0] in owners && |c| <= n &&
            if |c| == 1 then c[0].ownerType.Person? else
              c[0].ownerType.Company? && IsChain(links, Parent(c[0]), c[1..])
    decreases n - 1, 2, |owners|
  {
    if owners != [] {
      ChainsThroughExact(links, owners[1..], n, c);
      ChainsViaExact(links, owners[0], n, c);
    }
  }

  lemma {:induction false} ChainsViaExact(links: seq<Link>, l: Link, n: nat, c: Chain)
    requires n > 0
    ensures c in ChainsVia(links, l, n) <==>
            c != [] && c[0] == l && |c| <= n &&
            if |c| == 1 then l.ownerType.Person? else
              l.ownerType.Company? && IsChain(links, Parent(l), c[1..])
    decreases n - 1, 1
  {
    hide Chains, Prefixed;
    if l.ownerType.Person? {
      assert c == [l] <==> c != [] && c[0] == l && |c| == 1;
    } else {
      PrefixedMember(l, Chains(links, Parent(l), n - 1), c);
      if c != [] {
        ChainsExact(links, Parent(l), n - 1, c[1..]);
      }
    }
  }

  /** No chain is enumerated twice. */
  lemma {:induction false} ChainsDistinct(links: seq<Link>, org: string, n: nat)
    requires Distinct(links)
    ensures Distinct(Chains(links, org, n))
    decreases n, 0
  {
    if n > 0 {
      FilterDistinct(OwnedBy(org), links);
      ChainsThroughDistinct(links, Owners(links, org), n);
    }
  }

  lemma {:induction false} ChainsThroughDistinct(links: seq<Link>, owners: seq<Link>, n: nat)
    requires n > 0 && Distinct(links) && Distinct(owners)
    ensures Distinct(ChainsThrough(links, owners, n))
    decreases n - 1, 2, |owners|
  {
    if owners != [] {
      var first, rest := ChainsVia(links, owners[0], n), ChainsThrough(links, owners[1..], n);
      ChainsThroughDistinct(links, owners[1..], n);
      if owners[0].ownerType.Company? {
        ChainsDistinct(links, Parent(owners[0]), n - 1);
        PrefixedDistinct(owners[0], Chains(links, Parent(owners[0]), n - 1));
      }
      forall c | c in first
        ensures c !in rest
      {
        ChainsViaExact(links, owners[0], n, c);
        ChainsThroughExact(links, owners[1..], n, c);
      }
      DistinctConcat(first, rest);
    }
  }

  lemma PrefixedDistinct(l: Link, chains: seq<Chain>)
    requires Distinct(chains)
    ensures Distinct(Prefixed(l, chains))
  {
    var r := Prefixed(l, chains);
    assert forall i :: 0 <= i < |r| ==> r[i][1..] == chains[i];
  }

  /** `a` stands before `b` in the table. */
  ghost predicate Before(links: seq<Link>, a: Link, b: Link) {
    exists i, j :: 0 <= i < j < |links| && links[i] == a && links[j] == b
  }

  /** Where the chains part, the first one takes the row that stands before. */
  ghost predicate Precedes(links: seq<Link>, c: Chain, d: Chain)
    decreases |c|
  {
    c != [] && d != [] && if c[0] == d[0] then Precedes(links, c[1..], d[1..]) else Before(links, c[0], d[0])
  }

  ghost predicate Ordered(links: seq<Link>, owners: seq<Link>) {
    forall i, j :: 0 <= i < j < |owners| ==> Before(links, owners[i], owners[j])
  }

  ghost predicate InWalkingOrder(links: seq<Link>, chains: seq<Chain>) {
    forall i, j :: 0 <= i < j < |chains| ==> Precedes(links, chains[i], chains[j])
  }

  lemma {:induction false} FilterOrdered(p: Link -> bool, links: seq<Link>)
    ensures Ordered(links, Filter(p, links))
  {
    hide Filter, Before;
    if links == [] {
      FilterNone(p, links);
    } else {
      var rest := links[1..];
      FilterOrdered(p, rest);
      FilterMembers(p, rest);
      FilterFirst(p, links);
      var kept := Filter(p, rest);
      forall i, j | 0 <= i < j < |kept| ensures Before(links, kept[i], kept[j]) {
        BeforeStill(links, kept[i], kept[j]);
      }
      forall j | 0 <= j < |kept| ensures Before(links, links[0], kept[j]) {
        assert kept[j] in kept;
        FirstIsBefore(links, kept[j]);
      }
    }
  }

  lemma BeforeStill(links: seq<Link>, a: Link, b: Link)
    requires links != [] && Before(links[1..], a, b)
    ensures Before(links, a, b)
  {
    var i, j :| 0 <= i < j < |links[1..]| && links[1..][i] == a && links[1..][j] == b;
    assert links[i + 1] == a && links[j + 1] == b;
  }

  lemma FirstIsBefore(links: seq<Link>, b: Link)
    requires links != [] && b in links[1..]
    ensures Before(links, links[0], b)
  {
    var j :| 0 <= j < |links[1..]| && links[1..][j] == b;
    assert links[j + 1] == b;
  }

  lemma OrderedConcat(links: seq<Link>, a: seq<Chain>, b: seq<Chain>)
    requires InWalkingOrder(links, a) && InWalkingOrder(links, b)
    requires forall c, d :: c in a && d in b ==> Precedes(links, c, d)
    ensures InWalkingOrder(links, a + b)
  {
    hide Precedes;
    forall i, j | 0 <= i < j < |a + b| ensures Precedes(links, (a + b)[i], (a + b)[j]) {
      if i < |a| <= j {
        assert a[i] in a && b[j - |a|] in b;
      }
    }
  }

  lemma PrefixedOrdered(links: seq<Link>, l: Link, chains: seq<Chain>)
    requires InWalkingOrder(links, chains)
    ensures InWalkingOrder(links, Prefixed(l, chains))
  {
    var r := Prefixed(l, chains);
    assert forall i :: 0 <= i < |r| ==> r[i] != [] && r[i][0] == l && r[i][1..] == chains[i];
  }

  /** Both walks take the chains in the order of the table: by the first row in which they differ. */
  lemma {:induction false} ChainsInOrder(links: seq<Link>, org: string, n: nat)
    requires Distinct(links)
    ensures InWalkingOrder(links, Chains(links, org, n))
    decreases n, 0
  {
    if n > 0 {
      FilterOrdered(OwnedBy(org), links);
      FilterDistinct(OwnedBy(org), links);
      ChainsThroughInOrder(links, Owners(links, org), n);
    }
  }

  lemma {:induction false} ChainsThroughInOrder(links: seq<Link>, owners: seq<Link>, n: nat)
    requires n > 0 && Distinct(links) && Distinct(owners) && Ordered(links, owners)
    ensures InWalkingOrder(links, ChainsThrough(links, owners, n))
    decreases n - 1, 2, |owners|
  {
    hide Before, Precedes, InWalkingOrder;
    if owners == [] {
      NoneInOrder(links);
    } else {
      var l := owners[0];
      var first, rest := ChainsVia(links, l, n), ChainsThrough(links, owners[1..], n);
      ChainsThroughInOrder(links, owners[1..], n);
      ChainsViaInOrder(links, l, n);
      forall c, d | c in first && d in rest
        ensures Precedes(links, c, d)
      {
        ChainsViaExact(links, l, n, c);
        ChainsThroughExact(links, owners[1..], n, d);
        var j :| 0 <= j < |owners[1..]| && owners[1..][j] == d[0];
        assert Before(links, l, owners[j + 1]);
        PartAtOnce(links, c, d);
      }
      OrderedConcat(links, first, rest);
    }
  }

  lemma NoneInOrder(links: seq<Link>)
    ensures InWalkingOrder(links, [])
  {
  }

  lemma PartAtOnce(links: seq<Link>, c: Chain, d: Chain)
    requires c != [] && d != [] && c[0] != d[0] && Before(links, c[0], d[0])
    ensures Precedes(links, c, d)
  {
  }

  lemma {:induction false} ChainsViaInOrder(links: seq<Link>, l: Link, n: nat)
    requires n > 0 && Distinct(links)
    ensures InWalkingOrder(links, ChainsVia(links, l, n))
    decreases n - 1, 1
  {
    hide Precedes, Prefixed, Chains;
    if l.ownerType.Company? {
      ChainsInOrder(links, Parent(l), n - 1);
      PrefixedOrdered(links, l, Chains(links, Parent(l), n - 1));
    }
  }

  /** The enumeration depends only on the owners of companies fewer than `n` steps away. */
  lemma {:induction false} ChainsAgree(a: seq<Link>, b: seq<Link>, root: string, m: nat, org: string, k: nat, n: nat)
    requires SameOwners(a, b, root, m) && org in Reach(a, root, k) && k + n <= m + 1
    ensures Chains(a, org, n) == Chains(b, org, n)
    decreases n, 0
  {
    if n > 0 {
      ReachMonotone(a, root, k, m);
      ChainsThroughAgree(a, b, root, m, org, k, Owners(a, org), n);
    }
  }

  lemma {:induction false} ChainsThroughAgree(a: seq<Link>, b: seq<Link>, root: string, m: nat, org: string, k: nat,
                                              owners: seq<Link>, n: nat)
    requires SameOwners(a, b, root, m) && org in Reach(a, root, k) && 0 < n && k + n <= m + 1
    requires forall l :: l in owners ==> l in Owners(a, org)
    ensures ChainsThrough(a, owners, n) == ChainsThrough(b, owners, n)
    decreases n - 1, 2, |owners|
  {
    hide Reach, Owners, SameOwners, Digits;
    if owners != [] {
      var l := owners[0];
      if HasParent(l) {
        ReachStep(a, root, k, org, l);
        ChainsAgree(a, b, root, m, Parent(l), k + 1, n - 1);
      } else if l.ownerType.Company? {
        NoChainsAboveNobody(a, n - 1);
        NoChainsAboveNobody(b, n - 1);
      }
      ChainsThroughAgree(a, b, root, m, org, k, owners[1..], n);
    }
  }

  lemma NoChainsAboveNobody(links: seq<Link>, n: nat)
    ensures Chains(links, "", n) == []
  {
    OwnersOfNobody(links);
  }
}
