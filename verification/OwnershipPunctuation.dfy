/**
 Exactly what is lost when only canonically stored links are loaded: the chains that pass a
 link whose owned number is stored with punctuation
 (backend/src/ownership/ownership.service.ts:76-79, 350-356, 425-453, 498-550).
 */
module OwnershipPunctuation {
  import opened Sequences
  import opened OwnershipLinks
  import opened OwnershipSubgraph
  import opened OwnershipChains
  import opened OwnershipAggregates
  import opened OwnershipMass
  import opened OwnershipControlPaths
  import opened OwnershipPathSums

  /** Every link of the chain is stored canonically. */
  predicate IsPlain(c: Chain) { forall l :: l in c ==> IsCanonical(l) }

  function Plain(): Chain -> bool {
    (c: Chain) => IsPlain(c)
  }

  // --- Chains ---

  lemma CanonicalOwners(live: seq<Link>, org: string)
    ensures Owners(Canonical(live), org) == Filter(IsCanonical, Owners(live, org))
  {
    FilterCommutes(OwnedBy(org), IsCanonical, live);
  }

  lemma {:induction false} PlainPrefixed(l: Link, chains: seq<Chain>)
    ensures Filter(Plain(), Prefixed(l, chains)) == if IsCanonical(l) then Prefixed(l, Filter(Plain(), chains)) else []
  {
    hide IsCanonical, IsPlain, Filter, Prefixed;
    PrefixedOnto(l, chains);
    if chains == [] {
      FilterNone(Plain(), chains);
    } else {
      PlainPrefixed(l, chains[1..]);
      FilterOnto(Plain(), [l] + chains[0], Prefixed(l, chains[1..]));
      FilterFirst(Plain(), chains);
      PlainOnto(l, chains[0]);
      PrefixedOnto(l, Filter(Plain(), chains));
      assert ([chains[0]] + Filter(Plain(), chains[1..]))[1..] == Filter(Plain(), chains[1..]);
    }
  }

  lemma PrefixedOnto(l: Link, chains: seq<Chain>)
    ensures Prefixed(l, chains) == if chains == [] then [] else [[l] + chains[0]] + Prefixed(l, chains[1..])
  {
  }

  lemma PlainOnto(l: Link, c: Chain)
    ensures IsPlain([l] + c) <==> IsCanonical(l) && IsPlain(c)
  {
    if IsPlain([l] + c) {
      assert l in [l] + c && forall k :: k in c ==> k in [l] + c;
    }
  }

  /** The chains of the canonical links are the plain ones among all chains, in the same order. */
  lemma {:induction false} CanonicalChains(live: seq<Link>, org: string, n: nat)
    ensures Chains(Canonical(live), org, n) == Filter(Plain(), Chains(live, org, n))
    decreases n, 0
  {
    if n == 0 {
      FilterNone(Plain(), []);
    } else {
      CanonicalOwners(live, org);
      CanonicalChainsThrough(live, Owners(live, org), n);
    }
  }

  lemma {:induction false} CanonicalChainsThrough(live: seq<Link>, owners: seq<Link>, n: nat)
    requires n > 0
    ensures ChainsThrough(Canonical(live), Filter(IsCanonical, owners), n)
         == Filter(Plain(), ChainsThrough(live, owners, n))
    decreases n - 1, 2, |owners|
  {
    hide Canonical, IsCanonical, Chains, ChainsVia;
    if owners != [] {
      var l := owners[0];
      CanonicalChainsThrough(live, owners[1..], n);
      FilterConcat(Plain(), ChainsVia(live, l, n), ChainsThrough(live, owners[1..], n));
      CanonicalChainsVia(live, l, n);
      FilterFirst(IsCanonical, owners);
      if IsCanonical(l) {
        assert ([l] + Filter(IsCanonical, owners[1..]))[1..] == Filter(IsCanonical, owners[1..]);
      }
    }
  }

  lemma {:induction false} CanonicalChainsVia(live: seq<Link>, l: Link, n: nat)
    requires n > 0
    ensures Filter(Plain(), ChainsVia(live, l, n)) == if IsCanonical(l) then ChainsVia(Canonical(live), l, n) else []
    decreases n - 1, 1
  {
    hide Canonical, IsCanonical, Chains;
    if l.ownerType.Person? {
      PlainOnto(l, []);
      assert [l] + [] == [l];
      FilterOnto(Plain(), [l], []);
      assert [[l]] + [] == [[l]];
    } else {
      CanonicalChains(live, Parent(l), n - 1);
      PlainPrefixed(l, Chains(live, Parent(l), n - 1));
    }
  }

  /** Some ownership chain of at most `n` links passes a punctuated link. */
  ghost predicate HasPunctuatedChain(live: seq<Link>, root: string, n: nat) {
    exists c :: IsChain(live, root, c) && |c| <= n && !IsPlain(c)
  }

  lemma PlainChains(live: seq<Link>, root: string, n: nat)
    ensures HasPunctuatedChain(live, root, n) <==> exists c :: c in Chains(live, root, n) && !IsPlain(c)
  {
    hide IsChain, Chains, IsPlain;
    if HasPunctuatedChain(live, root, n) {
      var c :| IsChain(live, root, c) && |c| <= n && !IsPlain(c);
      ChainsExact(live, root, n, c);
    }
    if c :| c in Chains(live, root, n) && !IsPlain(c) {
      ChainsExact(live, root, n, c);
    }
  }

  lemma ChainsKeptExactly(live: seq<Link>, root: string, n: nat)
    ensures |Chains(Canonical(live), root, n)| <= |Chains(live, root, n)|
    ensures |Chains(Canonical(live), root, n)| == |Chains(live, root, n)| <==> !HasPunctuatedChain(live, root, n)
    ensures Chains(Canonical(live), root, n) == Chains(live, root, n) <==> !HasPunctuatedChain(live, root, n)
  {
    hide Canonical, Chains, IsPlain, HasPunctuatedChain;
    CanonicalChains(live, root, n);
    PlainChains(live, root, n);
    KeptExactly(Plain(), Chains(live, root, n));
  }

  // --- Derived owners ---

  function TotalPaths(aggregates: seq<Aggregate>): nat {
    if aggregates == [] then 0 else TotalPaths(aggregates[..|aggregates| - 1]) + aggregates[|aggregates| - 1].paths
  }

  lemma {:induction false} OneMorePath(aggregates: seq<Aggregate>, i: nat, a: Aggregate)
    requires i < |aggregates| && a.paths == aggregates[i].paths + 1
    ensures TotalPaths(aggregates[i := a]) == TotalPaths(aggregates) + 1
  {
    var n := |aggregates| - 1;
    if i < n {
      OneMorePath(aggregates[..n], i, a);
      assert aggregates[i := a][..n] == aggregates[..n][i := a];
    } else {
      assert aggregates[i := a][..n] == aggregates[..n];
    }
  }

  lemma UpsertCounts(aggregates: seq<Aggregate>, l: Link, own: real, ctrl: real)
    ensures TotalPaths(Upsert(aggregates, l, own, ctrl)) == TotalPaths(aggregates) + 1
  {
    hide OwnerKey;
    var i := IndexOf(aggregates, OwnerKey(l));
    if i < |aggregates| {
      OneMorePath(aggregates, i, Upsert(aggregates, l, own, ctrl)[i]);
    } else {
      assert Upsert(aggregates, l, own, ctrl)[..|aggregates|] == aggregates;
    }
  }

  /** All persons' `paths` together count the chains. */
  lemma {:induction false} PathsCountChains(chains: seq<Chain>, own: real, ctrl: real)
    requires forall c :: c in chains ==> c != []
    ensures TotalPaths(Credit([], chains, own, ctrl)) == |chains|
  {
    hide Upsert, OwnAlong, ControlAlong, TotalPaths;
    if chains == [] {
      NoPaths();
    } else {
      var n := |chains| - 1;
      var c := chains[n];
      assert c in chains && forall d :: d in chains[..n] ==> d in chains;
      PathsCountChains(chains[..n], own, ctrl);
      UpsertCounts(Credit([], chains[..n], own, ctrl), c[|c| - 1], OwnAlong(own, c), ControlAlong(ctrl, c));
    }
  }

  lemma NoPaths()
    ensures TotalPaths([]) == 0
  {
  }

  /** The derived owners are those of all links exactly when no chain that is credited passes a punctuated link. */
  lemma OwnersKeptExactly(live: seq<Link>, root: string)
    ensures DerivedOwners(Canonical(live), root) == DerivedOwners(live, root)
       <==> !HasPunctuatedChain(live, root, TRAVERSE_CHAIN_LENGTH)
  {
    hide Chains, Canonical, Credit, HasPunctuatedChain;
    ChainsKeptExactly(live, root, TRAVERSE_CHAIN_LENGTH);
    ChainsNonEmpty(live, root, TRAVERSE_CHAIN_LENGTH);
    ChainsNonEmpty(Canonical(live), root, TRAVERSE_CHAIN_LENGTH);
    PathsCountChains(Chains(live, root, TRAVERSE_CHAIN_LENGTH), 100.0, 100.0);
    PathsCountChains(Chains(Canonical(live), root, TRAVERSE_CHAIN_LENGTH), 100.0, 100.0);
  }

  // --- Control paths ---

  ghost predicate AllPlain(chains: seq<Chain>) {
    forall c :: c in chains ==> IsPlain(c)
  }

  lemma AllPlainConcat(a: seq<Chain>, b: seq<Chain>)
    ensures AllPlain(a + b) <==> AllPlain(a) && AllPlain(b)
  {
    hide IsPlain;
    if AllPlain(a + b) {
      assert forall c :: c in a ==> c in a + b;
      assert forall c :: c in b ==> c in a + b;
    }
  }

  lemma AllPlainPrefixed(l: Link, chains: seq<Chain>)
    ensures AllPlain(Prefixed(l, chains)) <==> chains == [] || (IsCanonical(l) && AllPlain(chains))
  {
    hide IsPlain, IsCanonical;
    var r := Prefixed(l, chains);
    forall i | 0 <= i < |r| ensures IsPlain(r[i]) <==> IsCanonical(l) && IsPlain(chains[i]) {
      PlainOnto(l, chains[i]);
    }
    if AllPlain(r) {
      forall c | c in chains ensures IsCanonical(l) && IsPlain(c) {
        var i :| 0 <= i < |chains| && chains[i] == c;
        assert r[i] in r;
      }
      if chains != [] {
        assert chains[0] in chains;
      }
    }
  }

  /**
   If the walk over all links records plain chains only, cap and all, the walk over the
   canonical ones records the same.
   */
  lemma {:induction false} PlainRecords(live: seq<Link>, org: string, n: nat, have: nat)
    requires AllPlain(Recorded(live, org, n, have))
    ensures Recorded(Canonical(live), org, n, have) == Recorded(live, org, n, have)
    decreases n, 0
  {
    hide AllPlain, Canonical, Owners;
    if n > 0 && have < MAX_PATH_RECORDS {
      CanonicalOwners(live, org);
      PlainRecordsThrough(live, Owners(live, org), n, have);
    }
  }

  lemma {:induction false} PlainRecordsThrough(live: seq<Link>, owners: seq<Link>, n: nat, have: nat)
    requires n > 0 && AllPlain(RecordedThrough(live, owners, n, have))
    ensures RecordedThrough(Canonical(live), Filter(IsCanonical, owners), n, have)
         == RecordedThrough(live, owners, n, have)
    decreases n - 1, 2, |owners|
  {
    hide AllPlain, Canonical, IsCanonical, RecordedVia, RecordedThrough, Filter;
    if owners == [] {
      FilterNone(IsCanonical, owners);
      NothingRecorded(live, [], 0.0, 0.0, have);
      NothingRecorded(Canonical(live), [], 0.0, 0.0, have);
    } else {
      var m := |owners| - 1;
      var l, kept := owners[m], Filter(IsCanonical, owners[..m]);
      var before := RecordedThrough(live, owners[..m], n, have);
      LastRecorded(live, owners[..m], l, n, have);
      LastRecorded(Canonical(live), kept, l, n, have);
      assert owners == owners[..m] + [l];
      AllPlainConcat(before, RecordedVia(live, l, n, have + |before|));
      PlainRecordsThrough(live, owners[..m], n, have);
      PlainRecordsVia(live, l, n, have + |before|);
      FilterConcat(IsCanonical, owners[..m], [l]);
      if IsCanonical(l) {
        FilterAll(IsCanonical, [l]);
      } else {
        FilterNone(IsCanonical, [l]);
        assert kept + [] == kept && before + [] == before;
      }
    }
  }

  lemma LastRecorded(links: seq<Link>, owners: seq<Link>, l: Link, n: nat, have: nat)
    requires n > 0
    ensures var before := RecordedThrough(links, owners, n, have);
            RecordedThrough(links, owners + [l], n, have) == before + RecordedVia(links, l, n, have + |before|)
  {
    hide RecordedThrough, RecordedVia;
    var all := owners + [l];
    OneMoreRecorded(links, all, |owners|, n, have);
    assert all[..|owners|] == owners && all[..|owners| + 1] == all;
  }

  lemma {:induction false} PlainRecordsVia(live: seq<Link>, l: Link, n: nat, have: nat)
    requires n > 0 && AllPlain(RecordedVia(live, l, n, have))
    ensures if IsCanonical(l) then RecordedVia(Canonical(live), l, n, have) == RecordedVia(live, l, n, have)
            else RecordedVia(live, l, n, have) == []
    decreases n - 1, 1
  {
    hide Canonical, IsCanonical, Recorded;
    if l.ownerType.Person? {
      assert [l] in RecordedVia(live, l, n, have) && l in [l];
    } else {
      AllPlainPrefixed(l, Recorded(live, Parent(l), n - 1, have));
      if Recorded(live, Parent(l), n - 1, have) == [] {
        assert AllPlain([]);
      }
      PlainRecords(live, Parent(l), n - 1, have);
    }
  }

  lemma CanonicalRecordsArePlain(live: seq<Link>, root: string, n: nat, have: nat)
    ensures AllPlain(Recorded(Canonical(live), root, n, have))
  {
    hide Recorded, IsChain;
    FilterMembers(IsCanonical, live);
    forall c | c in Recorded(Canonical(live), root, n, have) ensures IsPlain(c) {
      RecordedAreChains(Canonical(live), root, n, have, c);
      ChainLinksAreLinks(Canonical(live), root, c);
    }
  }

  lemma PathsTellChains(a: seq<Chain>, b: seq<Chain>)
    ensures Records([], 100.0, 100.0, a) == Records([], 100.0, 100.0, b) <==> a == b
  {
    hide WalkOwn, WalkControl, SomeIncomplete;
    var ra, rb := Records([], 100.0, 100.0, a), Records([], 100.0, 100.0, b);
    if ra == rb {
      assert |a| == |ra| == |rb| == |b|;
      forall i | 0 <= i < |a| ensures a[i] == b[i] {
        assert ra[i].steps == [] + a[i] && rb[i].steps == [] + b[i];
        assert [] + a[i] == a[i] && [] + b[i] == b[i];
      }
    }
  }

  /** A path the walk records over all links passes a punctuated link. */
  ghost predicate RecordsPunctuated(live: seq<Link>, root: string) {
    exists c :: c in Recorded(live, root, WALK_CHAIN_LENGTH, 0) && !IsPlain(c)
  }

  /** The control paths are those of all links exactly when none of those passes a punctuated link, cap or no cap. */
  lemma PathsKeptExactly(live: seq<Link>, root: string)
    ensures AllPaths(Canonical(live), root) == AllPaths(live, root) <==> !RecordsPunctuated(live, root)
  {
    hide Recorded, Records, Canonical, IsPlain;
    PathsTellChains(Recorded(Canonical(live), root, WALK_CHAIN_LENGTH, 0), Recorded(live, root, WALK_CHAIN_LENGTH, 0));
    CanonicalRecordsArePlain(live, root, WALK_CHAIN_LENGTH, 0);
    if AllPlain(Recorded(live, root, WALK_CHAIN_LENGTH, 0)) {
      PlainRecords(live, root, WALK_CHAIN_LENGTH, 0);
    }
  }

  /** While no path is cut off, that is when no chain of at most seven links does. */
  lemma FewPathsKeptExactly(live: seq<Link>, root: string)
    requires |AllPaths(live, root)| < MAX_PATH_RECORDS
    ensures RecordsPunctuated(live, root) <==> HasPunctuatedChain(live, root, WALK_CHAIN_LENGTH)
  {
    hide Recorded, Records, Chains, IsPlain, HasPunctuatedChain;
    FewRecordsMeansAll(live, root);
    PlainChains(live, root, WALK_CHAIN_LENGTH);
  }
}
