/**
 Agreement between the two walks: `traverse` totals are the sums over the recorded
 control paths, and exactly when the control totals differ.
 (backend/src/ownership/ownership.service.ts:425-453, 498-560)
 */
module OwnershipPathSums {
  import opened Wrappers
  import opened Sequences
  import opened Strings
  import opened OwnershipLinks
  import opened OwnershipChains
  import opened OwnershipAggregates
  import opened OwnershipMass
  import opened OwnershipControlPaths

  predicate ShortPathOf(key: string, p: ControlPath) {
    |p.steps| <= TRAVERSE_CHAIN_LENGTH && EndsAt(p.steps, key)
  }

  /** The recorded ownership of one person over paths short enough for `traverse`. */
  function PathOwnTotal(paths: seq<ControlPath>, key: string): real {
    if paths == [] then 0.0 else
      PathOwnTotal(paths[..|paths| - 1], key) +
      if ShortPathOf(key, paths[|paths| - 1]) then paths[|paths| - 1].own else 0.0
  }

  function PathControlTotal(paths: seq<ControlPath>, key: string): real {
    if paths == [] then 0.0 else
      PathControlTotal(paths[..|paths| - 1], key) +
      if ShortPathOf(key, paths[|paths| - 1]) then paths[|paths| - 1].ctrl else 0.0
  }

  function PathCount(paths: seq<ControlPath>, key: string): nat {
    if paths == [] then 0 else
      PathCount(paths[..|paths| - 1], key) + if ShortPathOf(key, paths[|paths| - 1]) then 1 else 0
  }

  predicate AtMost(n: nat, c: Chain) { |c| <= n }

  function NoLongerThan(n: nat): Chain -> bool { (c: Chain) => AtMost(n, c) }

  /** The chains of at most `m` links are the short ones among the chains of at most `n`, in the same order. */
  lemma {:induction false} ChainsByLength(links: seq<Link>, org: string, m: nat, n: nat)
    requires m <= n
    ensures Filter(NoLongerThan(m), Chains(links, org, n)) == Chains(links, org, m)
    decreases n, 0
  {
    if m == 0 {
      ChainsNonEmpty(links, org, n);
      FilterNone(NoLongerThan(0), Chains(links, org, n));
    } else {
      ChainsThroughByLength(links, Owners(links, org), m, n);
    }
  }

  lemma {:induction false} ChainsThroughByLength(links: seq<Link>, owners: seq<Link>, m: nat, n: nat)
    requires 0 < m <= n
    ensures Filter(NoLongerThan(m), ChainsThrough(links, owners, n)) == ChainsThrough(links, owners, m)
    decreases n - 1, 2, |owners|
  {
    hide Owners, Chains;
    if owners != [] {
      FilterConcat(NoLongerThan(m), ChainsVia(links, owners[0], n), ChainsThrough(links, owners[1..], n));
      ChainsThroughByLength(links, owners[1..], m, n);
      if owners[0].ownerType.Company? {
        ChainsByLength(links, Parent(owners[0]), m - 1, n - 1);
        PrefixedByLength(owners[0], Chains(links, Parent(owners[0]), n - 1), m);
      } else {
        FilterAll(NoLongerThan(m), [[owners[0]]]);
      }
    }
  }

  lemma {:induction false} PrefixedByLength(l: Link, chains: seq<Chain>, m: nat)
    requires 0 < m
    ensures Filter(NoLongerThan(m), Prefixed(l, chains)) == Prefixed(l, Filter(NoLongerThan(m - 1), chains))
  {
    if chains != [] {
      assert Prefixed(l, chains) == [[l] + chains[0]] + Prefixed(l, chains[1..]);
      PrefixedByLength(l, chains[1..], m);
      assert Filter(NoLongerThan(m), Prefixed(l, chains)) ==
        (if |chains[0]| <= m - 1 then [[l] + chains[0]] else []) + Filter(NoLongerThan(m), Prefixed(l, chains[1..]));
    }
  }

  lemma {:induction false} FilterTwice(p: Chain -> bool, q: Chain -> bool, r: Chain -> bool, s: seq<Chain>)
    requires forall c :: r(c) <==> p(c) && q(c)
    ensures Filter(p, Filter(q, s)) == Filter(r, s)
  {
    if s != [] {
      FilterTwice(p, q, r, s[1..]);
      FilterConcat(p, if q(s[0]) then [s[0]] else [], Filter(q, s[1..]));
    }
  }

  function ShortFor(key: string): Chain -> bool {
    (c: Chain) => |c| <= TRAVERSE_CHAIN_LENGTH && EndsAt(c, key)
  }

  ghost function WalkOwnValue(own: real): Chain -> real {
    (c: Chain) => WalkOwn(own, c)
  }

  ghost function WalkControlValue(ctrl: real): Chain -> real {
    (c: Chain) => WalkControl(ctrl, c)
  }

  lemma {:induction false} RecordTotals(chains: seq<Chain>, key: string)
    ensures PathOwnTotal(Records([], 100.0, 100.0, chains), key)
         == Total(Filter(ShortFor(key), chains), WalkOwnValue(100.0))
    ensures PathControlTotal(Records([], 100.0, 100.0, chains), key) ==
            Total(Filter(ShortFor(key), chains), WalkControlValue(100.0))
    ensures PathCount(Records([], 100.0, 100.0, chains), key) == |Filter(ShortFor(key), chains)|
  {
    hide WalkOwn, WalkControl, EndsAt, SomeIncomplete, Filter, Total;
    if chains == [] {
      NoRecords(key);
    } else {
      var n := |chains| - 1;
      var before, c := chains[..n], chains[n];
      assert chains == before + [c] && [] + c == c;
      assert Records([], 100.0, 100.0, chains)[..n] == Records([], 100.0, 100.0, before);
      RecordTotals(before, key);
      FilterConcat(ShortFor(key), before, [c]);
      TotalConcat(Filter(ShortFor(key), before), Filter(ShortFor(key), [c]), WalkOwnValue(100.0));
      TotalConcat(Filter(ShortFor(key), before), Filter(ShortFor(key), [c]), WalkControlValue(100.0));
      WalkTotalOfOne(c, key);
    }
  }

  lemma NoRecords(key: string)
    ensures Filter(ShortFor(key), []) == []
            && Total([], WalkOwnValue(100.0)) == Total([], WalkControlValue(100.0)) == 0.0
  {
  }

  lemma WalkTotalOfOne(c: Chain, key: string)
    ensures Filter(ShortFor(key), [c]) == if |c| <= TRAVERSE_CHAIN_LENGTH && EndsAt(c, key) then [c] else []
    ensures Total([c], WalkOwnValue(100.0)) == WalkOwn(100.0, c)
    ensures Total([c], WalkControlValue(100.0)) == WalkControl(100.0, c)
    ensures Total([], WalkOwnValue(100.0)) == Total([], WalkControlValue(100.0)) == 0.0
  {
  }

  lemma ShareIsWeight(amount: real, l: Link)
    requires OwnPct(l) >= 0.0
    ensures Share(amount, OwnPct(l)) == Weigh(amount, OwnFactor(l))
  {
  }

  lemma {:induction false} SameOwnership(links: seq<Link>, c: Chain, own: real)
    requires NonNegative(links) && forall l :: l in c ==> l in links
    ensures OwnAlong(own, c) == WalkOwn(own, c)
    decreases |c|
  {
    if c != [] {
      ShareIsWeight(own, c[0]);
      SameOwnership(links, c[1..], Share(own, OwnPct(c[0])));
    }
  }

  lemma {:induction false} TotalAgrees(chains: seq<Chain>, f: Chain -> real, g: Chain -> real)
    requires forall c :: c in chains ==> f(c) == g(c)
    ensures Total(chains, f) == Total(chains, g)
  {
    if chains != [] {
      assert forall c :: c in chains[..|chains| - 1] ==> c in chains;
      TotalAgrees(chains[..|chains| - 1], f, g);
    }
  }

  /** All control paths of a company, when the cap was not reached. */
  ghost function AllPaths(links: seq<Link>, root: string): seq<ControlPath> {
    Records([], 100.0, 100.0, Recorded(links, root, WALK_CHAIN_LENGTH, 0))
  }

  ghost function DerivedOwners(links: seq<Link>, root: string): seq<Aggregate> {
    Credit([], Chains(links, root, TRAVERSE_CHAIN_LENGTH), 100.0, 100.0)
  }

  /** A caller can tell from the result that no path was cut off: fewer than 40 records. */
  lemma FewRecordsMeansAll(links: seq<Link>, root: string)
    requires |AllPaths(links, root)| < MAX_PATH_RECORDS
    ensures Recorded(links, root, WALK_CHAIN_LENGTH, 0) == Chains(links, root, WALK_CHAIN_LENGTH)
  {
    RecordedReachesCap(links, root, WALK_CHAIN_LENGTH, 0);
  }

  /** The short recorded chains of one person are the chains `traverse` credits to them. */
  lemma ShortRecords(links: seq<Link>, root: string, key: string)
    requires Recorded(links, root, WALK_CHAIN_LENGTH, 0) == Chains(links, root, WALK_CHAIN_LENGTH)
    ensures Filter(ShortFor(key), Recorded(links, root, WALK_CHAIN_LENGTH, 0)) ==
            Filter(For(key), Chains(links, root, TRAVERSE_CHAIN_LENGTH))
  {
    hide Recorded, Chains;
    var n: nat, m: nat := WALK_CHAIN_LENGTH, TRAVERSE_CHAIN_LENGTH;
    ChainsByLength(links, root, m, n);
    FilterTwice(For(key), NoLongerThan(m), ShortFor(key), Chains(links, root, n));
  }

  lemma ChainsOfOneAreLinks(links: seq<Link>, root: string, n: nat, key: string)
    ensures forall c :: c in Filter(For(key), Chains(links, root, n)) ==> c != [] && forall l :: l in c ==> l in links
  {
    FilterMembers(For(key), Chains(links, root, n));
    forall c | c in Chains(links, root, n)
      ensures c != [] && forall l :: l in c ==> l in links
    {
      ChainsExact(links, root, n, c);
      ChainLinksAreLinks(links, root, c);
    }
  }

  /** With non-negative weights and no path cut off, ownership and path counts of the two walks agree. */
  lemma PathSumAgreement(links: seq<Link>, root: string, key: string)
    requires NonNegative(links)
    requires Recorded(links, root, WALK_CHAIN_LENGTH, 0) == Chains(links, root, WALK_CHAIN_LENGTH)
    ensures OwnershipOf(DerivedOwners(links, root), key) == PathOwnTotal(AllPaths(links, root), key)
    ensures PathsOf(DerivedOwners(links, root), key) == PathCount(AllPaths(links, root), key)
  {
    hide Recorded, Chains, Credit, Records, OwnershipOf, PathsOf, PathOwnTotal, PathCount, Filter, Total, For, ShortFor;
    hide WalkOwn, OwnAlong;
    var n: nat := TRAVERSE_CHAIN_LENGTH;
    var chains := Chains(links, root, n);
    ChainsNonEmpty(links, root, n);
    CreditIsPathSum(chains, 100.0, 100.0, key);
    RecordTotals(Recorded(links, root, WALK_CHAIN_LENGTH, 0), key);
    ShortRecords(links, root, key);
    ChainsOfOneAreLinks(links, root, n, key);
    forall c | c in Filter(For(key), chains)
      ensures OwnValue(100.0)(c) == WalkOwnValue(100.0)(c)
    {
      SameOwnership(links, c, 100.0);
    }
    TotalAgrees(Filter(For(key), chains), OwnValue(100.0), WalkOwnValue(100.0));
  }

  // --- Control: where the walks differ ---

  /** A control share of exactly zero beside a real ownership share. */
  predicate ControlWaived(l: Link) {
    l.controlPercentage == Some(0.0) && OwnPct(l) > 0.0
  }

  ghost predicate WeightsNonNegative(links: seq<Link>) {
    NonNegative(links) && forall l :: l in links ==> ControlPct(l) >= 0.0
  }

  /** A chain on which `walkUp` sees control that `traverse` does not. */
  predicate ControlDisputed(c: Chain) {
    (exists l :: l in c && ControlWaived(l)) && (forall l :: l in c ==> ControlFactor(l) > 0.0)
  }

  lemma {:induction false} ControlStaysPositive(c: Chain, ctrl: real)
    requires forall l :: l in c ==> ControlFactor(l) >= 0.0
    requires ctrl >= 0.0
    ensures WalkControl(ctrl, c) >= 0.0
    ensures WalkControl(ctrl, c) > 0.0 <==> ctrl > 0.0 && forall l :: l in c ==> ControlFactor(l) > 0.0
    decreases |c|
  {
    if c != [] {
      var next := Weigh(ctrl, ControlFactor(c[0]));
      assert c == [c[0]] + c[1..];
      WeighSign(ctrl, ControlFactor(c[0]));
      ControlStaysPositive(c[1..], next);
    }
  }

  lemma WeighSign(amount: real, factor: real)
    requires amount >= 0.0 && factor >= 0.0
    ensures Weigh(amount, factor) >= 0.0 && (Weigh(amount, factor) > 0.0 <==> amount > 0.0 && factor > 0.0)
  {
    if amount > 0.0 && factor > 0.0 {
      assert amount * factor > 0.0;
    }
  }

  lemma {:induction false} NothingFromNothing(c: Chain)
    ensures ControlAlong(0.0, c) == 0.0
    decreases |c|
  {
    if c != [] {
      NothingFromNothing(c[1..]);
    }
  }

  lemma ControlStep(ctrl: real, l: Link)
    requires OwnPct(l) >= 0.0 && ControlPct(l) >= 0.0 && ctrl >= 0.0
    ensures ControlFactor(l) >= 0.0
    ensures if ControlWaived(l) then Share(ctrl, ControlPct(l)) == 0.0
            else Share(ctrl, ControlPct(l)) == Weigh(ctrl, ControlFactor(l))
  {
  }

  /** Along one chain `walkUp` never reports less control, and they differ exactly on disputed chains. */
  lemma {:induction false} ControlAlongChain(c: Chain, ctrl: real)
    requires ctrl > 0.0 && forall l :: l in c ==> OwnPct(l) >= 0.0 && ControlPct(l) >= 0.0
    ensures ControlAlong(ctrl, c) <= WalkControl(ctrl, c)
    ensures ControlAlong(ctrl, c) == WalkControl(ctrl, c) <==> !ControlDisputed(c)
    decreases |c|
  {
    if c != [] {
      hide Share, Weigh, ControlPct, OwnPct, ControlFactor, ControlWaived;
      var l := c[0];
      assert c == [l] + c[1..] && l in c;
      forall k | k in c ensures ControlFactor(k) >= 0.0 { ControlStep(1.0, k); }
      ControlStep(ctrl, l);
      WeighSign(ctrl, ControlFactor(l));
      ControlStaysPositive(c, ctrl);
      if ControlWaived(l) {
        NothingFromNothing(c[1..]);
      } else if ControlFactor(l) == 0.0 {
        NothingFromNothing(c[1..]);
      } else {
        ControlAlongChain(c[1..], Weigh(ctrl, ControlFactor(l)));
      }
    }
  }

  lemma {:induction false} TotalOrder(chains: seq<Chain>, f: Chain -> real, g: Chain -> real)
    requires forall c :: c in chains ==> f(c) <= g(c)
    ensures Total(chains, f) <= Total(chains, g)
    ensures Total(chains, f) == Total(chains, g) <==> forall c :: c in chains ==> f(c) == g(c)
  {
    if chains != [] {
      var before, last := chains[..|chains| - 1], chains[|chains| - 1];
      assert chains == before + [last];
      TotalOrder(before, f, g);
    }
  }

  /**
   A person's control by `traverse` never exceeds the recorded paths' control, and equals it
   exactly when none of their chains is disputed.
   */
  lemma ControlSumAgreement(links: seq<Link>, root: string, key: string)
    requires WeightsNonNegative(links)
    requires Recorded(links, root, WALK_CHAIN_LENGTH, 0) == Chains(links, root, WALK_CHAIN_LENGTH)
    ensures ControlOf(DerivedOwners(links, root), key) <= PathControlTotal(AllPaths(links, root), key)
    ensures ControlOf(DerivedOwners(links, root), key) == PathControlTotal(AllPaths(links, root), key) <==>
            forall c :: IsChain(links, root, c) && |c| <= TRAVERSE_CHAIN_LENGTH && EndsAt(c, key) ==>
              !ControlDisputed(c)
  {
    hide Recorded, Chains, IsChain, Credit, Records, ControlOf, PathControlTotal, Filter, Total, ShortFor;
    hide WalkControl, ControlAlong, ControlDisputed;
    var n: nat := TRAVERSE_CHAIN_LENGTH;
    var chains := Chains(links, root, n);
    var mine := Filter(For(key), chains);
    ChainsNonEmpty(links, root, n);
    CreditIsPathSum(chains, 100.0, 100.0, key);
    RecordTotals(Recorded(links, root, WALK_CHAIN_LENGTH, 0), key);
    ShortRecords(links, root, key);
    ChainsOfOneAreLinks(links, root, n, key);
    forall c | c in mine
      ensures ControlValue(100.0)(c) <= WalkControlValue(100.0)(c)
      ensures ControlValue(100.0)(c) == WalkControlValue(100.0)(c) <==> !ControlDisputed(c)
    {
      ControlAlongChain(c, 100.0);
    }
    TotalOrder(mine, ControlValue(100.0), WalkControlValue(100.0));
    FilterMembers(For(key), chains);
    forall c
      ensures c in mine <==> IsChain(links, root, c) && |c| <= n && EndsAt(c, key)
    {
      ChainsExact(links, root, n, c);
    }
  }

  /** A sole owner whose control share is waived: `traverse` gives them less control than `walkUp`. */
  lemma WaivedOwnerDisputed(l: Link, root: string)
    requires l.ownerType.Person? && ControlWaived(l)
    requires root != "" && Digits(l.ownedOrganisationNumber) == root
    ensures ControlOf(DerivedOwners([l], root), OwnerKey(l)) < PathControlTotal(AllPaths([l], root), OwnerKey(l))
  {
    hide Digits, OwnerKey;
    assert Owners([l], root) == [l];
    assert IsChain([l], root, [l]) && EndsAt([l], OwnerKey(l));
    ChainsThroughOne([l], root, l, WALK_CHAIN_LENGTH);
    RecordedComplete([l], root, WALK_CHAIN_LENGTH, 0);
    assert ControlDisputed([l]) by { assert l in [l] && forall k :: k in [l] ==> k == l; }
    hide *;
    SoleOwnerWeights(l);
    ControlSumAgreement([l], root, OwnerKey(l));
  }

  lemma SoleOwnerWeights(l: Link)
    requires ControlWaived(l)
    ensures WeightsNonNegative([l])
  {
  }

  /** A person holding all shares of company 5560000000 with a recorded control share of zero. */
  const ZERO_CONTROL_OWNER := Link("1", "t", true, Person, "A", None, Some("191212121212"), "5560000000", "C",
                                   Some(100.0), Some(0.0))

  lemma ControlCanDiffer()
    ensures ControlOf(DerivedOwners([ZERO_CONTROL_OWNER], "5560000000"), OwnerKey(ZERO_CONTROL_OWNER)) !=
            PathControlTotal(AllPaths([ZERO_CONTROL_OWNER], "5560000000"), OwnerKey(ZERO_CONTROL_OWNER))
  {
    hide Recorded, Chains, Credit, Records, ControlOf, PathControlTotal, OwnerKey;
    WaivedOwnerDisputed(ZERO_CONTROL_OWNER, "5560000000");
  }

  lemma ChainsThroughOne(links: seq<Link>, org: string, l: Link, n: nat)
    requires n > 0 && Owners(links, org) == [l] && l.ownerType.Person?
    ensures Chains(links, org, n) == [[l]]
  {
    assert ChainsThrough(links, [l], n) == ChainsVia(links, l, n) + ChainsThrough(links, [], n);
  }
}
