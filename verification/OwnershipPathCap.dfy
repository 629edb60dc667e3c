/**
 Which control paths are kept when there are more than 40: the cap is looked at only on entering
 a company, so the walk still lists the persons who directly own a company it is in.
 (backend/src/ownership/ownership.service.ts:495-560)
 */
module OwnershipPathCap {
  import opened Sequences
  import opened OwnershipLinks
  import opened OwnershipChains
  import opened OwnershipAggregates
  import opened OwnershipControlPaths
  import opened OwnershipPathSums

  /** The chain ends at a person who owns one of the companies along `last`. */
  predicate IsBeside(c: Chain, last: Chain) {
    c != [] && c[..|c| - 1] <= last
  }

  function Beside(last: Chain): Chain -> bool {
    (c: Chain) => IsBeside(c, last)
  }

  /** The first `k` chains, and of the others those that end beside the `k`-th. */
  ghost function Cut(chains: seq<Chain>, k: nat): seq<Chain>
    requires k > 0
  {
    if |chains| <= k then chains else chains[..k] + Filter(Beside(chains[k - 1]), chains[k..])
  }

  lemma PrefixedIsBeside(l: Link, c: Chain, last: Chain)
    ensures c != [] ==> (IsBeside([l] + c, [l] + last) <==> IsBeside(c, last))
  {
    if c != [] {
      var a, b := ([l] + c)[..|c|], [l] + last;
      assert a == [l] + c[..|c| - 1];
      if a <= b {
        assert c[..|c| - 1] == a[1..] && last == b[1..];
      }
    }
  }

  lemma BesideBoth(l: Link, c: Chain, last: Chain)
    requires c != []
    ensures Beside([l] + last)([l] + c) <==> Beside(last)(c)
  {
    PrefixedIsBeside(l, c, last);
  }

  /** Filtering and prefixing by one link commute. */
  lemma {:induction false} PrefixedFilter(l: Link, chains: seq<Chain>, last: Chain)
    requires forall c :: c in chains ==> c != []
    ensures Filter(Beside([l] + last), Prefixed(l, chains)) == Prefixed(l, Filter(Beside(last), chains))
  {
    hide IsBeside, Filter, Beside;
    if chains == [] {
      FilterNone(Beside([l] + last), Prefixed(l, chains));
      FilterNone(Beside(last), chains);
    } else {
      assert chains[0] in chains && forall c :: c in chains[1..] ==> c in chains;
      assert Prefixed(l, chains)[1..] == Prefixed(l, chains[1..]) && Prefixed(l, chains)[0] == [l] + chains[0];
      PrefixedFilter(l, chains[1..], last);
      BesideBoth(l, chains[0], last);
      FilterFirst(Beside([l] + last), Prefixed(l, chains));
      FilterFirst(Beside(last), chains);
      PrefixedOnto(l, chains[0], Filter(Beside(last), chains[1..]));
    }
  }

  lemma PrefixedOnto(l: Link, c: Chain, chains: seq<Chain>)
    ensures Prefixed(l, [c] + chains) == [[l] + c] + Prefixed(l, chains)
  {
  }

  lemma PrefixedCut(l: Link, chains: seq<Chain>, k: nat)
    requires k > 0 && forall c :: c in chains ==> c != []
    ensures Prefixed(l, Cut(chains, k)) == Cut(Prefixed(l, chains), k)
  {
    hide Filter;
    if |chains| > k {
      var kept := Filter(Beside(chains[k - 1]), chains[k..]);
      assert Prefixed(l, chains)[..k] == Prefixed(l, chains[..k]);
      assert Prefixed(l, chains)[k..] == Prefixed(l, chains[k..]);
      assert forall c :: c in chains[k..] ==> c in chains;
      PrefixedFilter(l, chains[k..], chains[k - 1]);
      PrefixedConcat(l, chains[..k], kept);
    }
  }

  lemma PrefixedConcat(l: Link, a: seq<Chain>, b: seq<Chain>)
    ensures Prefixed(l, a + b) == Prefixed(l, a) + Prefixed(l, b)
  {
  }

  /** The cut falls among the later chains. */
  lemma CutLater(a: seq<Chain>, b: seq<Chain>, k: nat)
    requires |a| < k
    ensures Cut(a + b, k) == a + Cut(b, k - |a|)
  {
    var m := k - |a|;
    if |b| > m {
      assert (a + b)[..k] == a + b[..m] && (a + b)[k..] == b[m..] && (a + b)[k - 1] == b[m - 1];
    }
  }

  /** The cut falls among the earlier chains. */
  lemma CutEarlier(a: seq<Chain>, b: seq<Chain>, k: nat)
    requires 0 < k <= |a|
    ensures Cut(a + b, k) == Cut(a, k) + Filter(Beside(a[k - 1]), b)
  {
    hide Filter;
    assert (a + b)[..k] == a[..k] && (a + b)[k..] == a[k..] + b && (a + b)[k - 1] == a[k - 1];
    FilterConcat(Beside(a[k - 1]), a[k..], b);
    FilterNone(Beside(a[k - 1]), []);
    if |a| == k {
      assert a[..k] == a && a[k..] == [] && [] + Filter(Beside(a[k - 1]), b) == Filter(Beside(a[k - 1]), b);
      if b == [] {
        assert a + b == a;
      }
    }
  }

  lemma CutIsLong(chains: seq<Chain>, k: nat)
    requires k > 0
    ensures |chains| >= k ==> |Cut(chains, k)| >= k
    ensures |chains| <= k ==> Cut(chains, k) == chains
  {
  }

  /** No chain through a company ends beside a chain through another owner; a person's own link always does. */
  lemma BesideAnother(links: seq<Link>, l: Link, n: nat, last: Chain)
    requires n > 0 && last != [] && last[0] != l
    ensures Filter(Beside(last), ChainsVia(links, l, n)) == if l.ownerType.Person? then [[l]] else []
  {
    hide Chains;
    if l.ownerType.Person? {
      assert [l][..0] == [];
      FilterAll(Beside(last), [[l]]);
    } else {
      var up := Chains(links, Parent(l), n - 1);
      ChainsNonEmpty(links, Parent(l), n - 1);
      forall c | c in Prefixed(l, up) ensures !IsBeside(c, last) {
        PrefixedMember(l, up, c);
        assert c[1..] != [] && c[..|c| - 1][0] == l;
      }
      FilterNone(Beside(last), Prefixed(l, up));
    }
  }

  lemma {:induction false} RecordedFrom(links: seq<Link>, org: string, n: nat, have: nat)
    requires Distinct(links) && have < MAX_PATH_RECORDS
    ensures Recorded(links, org, n, have) == Cut(Chains(links, org, n), MAX_PATH_RECORDS - have)
    decreases n, 0
  {
    if n > 0 {
      FilterDistinct(OwnedBy(org), links);
      RecordedThroughFrom(links, Owners(links, org), n, have);
    }
  }

  lemma {:induction false} RecordedThroughFrom(links: seq<Link>, owners: seq<Link>, n: nat, have: nat)
    requires n > 0 && Distinct(links) && Distinct(owners) && have < MAX_PATH_RECORDS
    ensures RecordedThrough(links, owners, n, have)
         == Cut(ChainsThrough(links, owners, n), MAX_PATH_RECORDS - have)
    decreases n - 1, 2, |owners|
  {
    hide *;
    var k := MAX_PATH_RECORDS - have;
    if owners == [] {
      NothingThrough(links, n, have);
      CutIsLong([], k);
    } else {
      var m := |owners| - 1;
      var l := owners[m];
      assert owners[..m + 1] == owners;
      OneMoreOwner(links, owners, m, n);
      OneMoreRecorded(links, owners, m, n, have);
      OwnersBefore(owners);
      RecordedThroughFrom(links, owners[..m], n, have);
      var before, via := ChainsThrough(links, owners[..m], n), ChainsVia(links, l, n);
      CutIsLong(before, k);
      if |before| < k {
        RecordedViaFrom(links, l, n, have + |before|);
        CutLater(before, via, k);
      } else {
        assert before[k - 1] in before;
        ChainsThroughExact(links, owners[..m], n, before[k - 1]);
        BesideAnother(links, l, n, before[k - 1]);
        NothingEntered(links, l, n, have + |Cut(before, k)|);
        CutEarlier(before, via, k);
      }
    }
  }

  lemma NothingThrough(links: seq<Link>, n: nat, have: nat)
    requires n > 0
    ensures RecordedThrough(links, [], n, have) == [] && ChainsThrough(links, [], n) == []
  {
  }

  lemma OwnersBefore(owners: seq<Link>)
    requires owners != [] && Distinct(owners)
    ensures Distinct(owners[..|owners| - 1]) && owners[|owners| - 1] !in owners[..|owners| - 1]
  {
  }

  /** Past the cap no company is entered. */
  lemma NothingEntered(links: seq<Link>, l: Link, n: nat, have: nat)
    requires n > 0 && have >= MAX_PATH_RECORDS
    ensures RecordedVia(links, l, n, have) == if l.ownerType.Person? then [[l]] else []
  {
  }

  lemma {:induction false} RecordedViaFrom(links: seq<Link>, l: Link, n: nat, have: nat)
    requires n > 0 && Distinct(links) && have < MAX_PATH_RECORDS
    ensures RecordedVia(links, l, n, have) == Cut(ChainsVia(links, l, n), MAX_PATH_RECORDS - have)
    decreases n - 1, 1
  {
    if l.ownerType.Company? {
      hide Cut, Prefixed;
      RecordedFrom(links, Parent(l), n - 1, have);
      ChainsNonEmpty(links, Parent(l), n - 1);
      PrefixedCut(l, Chains(links, Parent(l), n - 1), MAX_PATH_RECORDS - have);
    }
  }

  /**
   The walk keeps the first 40 chains of at most seven links, in walking order, and of the
   others exactly those whose person directly owns a company along the 40th.
   */
  lemma RecordedIsCut(links: seq<Link>, root: string)
    requires UniqueIds(links)
    ensures Recorded(links, root, 7, 0) == Cut(Chains(links, root, 7), 40)
  {
    hide Recorded, Chains, Cut;
    assert Distinct(links);
    RecordedFrom(links, root, 7, 0);
  }

  /** Past the 40th path there are only those that end beside it. */
  ghost predicate KeptBeside(paths: seq<ControlPath>) {
    forall i :: 40 <= i < |paths| ==> IsBeside(paths[i].steps, paths[39].steps)
  }

  lemma BeyondTheCap(links: seq<Link>, root: string)
    requires UniqueIds(links)
    ensures KeptBeside(AllPaths(links, root))
  {
    hide Recorded, Chains, IsBeside;
    RecordedIsCut(links, root);
    var chains, kept := Chains(links, root, 7), Recorded(links, root, 7, 0);
    if |chains| > 40 {
      var rest := Filter(Beside(chains[39]), chains[40..]);
      FilterMembers(Beside(chains[39]), chains[40..]);
      forall i | 40 <= i < |kept| ensures IsBeside(kept[i], kept[39]) {
        assert kept[i] == rest[i - 40] && rest[i - 40] in rest;
      }
    }
    StepsAre(links, root);
  }

  lemma StepsAre(links: seq<Link>, root: string)
    ensures var paths, kept := AllPaths(links, root), Recorded(links, root, 7, 0);
            |paths| == |kept| && forall i :: 0 <= i < |paths| ==> paths[i].steps == kept[i]
  {
    hide Recorded;
    assert forall c: Chain :: [] + c == c;
  }
}
