/**
 `walkUp`: the control paths from persons down to the subject company, their dedupe, and
 how they agree with the sums of `traverse`.
 (backend/src/ownership/ownership.service.ts:129-133, 495-560)
 */
module OwnershipControlPaths {
  import opened Sequences
  import opened Strings
  import opened OwnershipLinks
  import opened OwnershipChains
  import opened OwnershipAggregates

  const MAX_PATH_RECORDS: nat := 40
  const MAX_WALK_DEPTH: nat := 6
  const WALK_CHAIN_LENGTH: nat := 7

  /** `edgeWeightsComplete` */
  predicate WeightComplete(l: Link) {
    || (l.ownershipPercentage.Some? && l.ownershipPercentage.value > 0.0)
    || (ControlKnown(l) && ControlPct(l) > 0.0)
  }

  predicate ControlKnown(l: Link) {
    l.controlPercentage.Some? || l.ownershipPercentage.Some?
  }

  function OwnFactor(l: Link): real {
    if OwnPct(l) > 0.0 then OwnPct(l) / 100.0 else 0.0
  }

  /** Unlike `traverse`, a control share of zero falls back to the ownership share here. */
  function ControlFactor(l: Link): real {
    if ControlPct(l) > 0.0 then ControlPct(l) / 100.0 else OwnFactor(l)
  }

  function Weigh(amount: real, factor: real): real {
    amount * factor
  }

  datatype ControlPath = ControlPath(steps: seq<Link>, own: real, ctrl: real, hasUnknownEdgeWeights: bool)

  predicate SomeIncomplete(c: Chain) {
    exists l :: l in c && !WeightComplete(l)
  }

  ghost function WalkOwn(cum: real, c: Chain): real
    decreases |c|
  {
    if c == [] then cum else WalkOwn(Weigh(cum, OwnFactor(c[0])), c[1..])
  }

  ghost function WalkControl(cum: real, c: Chain): real
    decreases |c|
  {
    if c == [] then cum else WalkControl(Weigh(cum, ControlFactor(c[0])), c[1..])
  }

  /** The record of a chain whose first links `walked` were already followed, with their weights. */
  ghost function Record(walked: Chain, own: real, ctrl: real, c: Chain): ControlPath {
    ControlPath(walked + c, WalkOwn(own, c), WalkControl(ctrl, c), SomeIncomplete(walked + c))
  }

  ghost function Records(walked: Chain, own: real, ctrl: real, chains: seq<Chain>): seq<ControlPath> {
    seq(|chains|, i requires 0 <= i < |chains| => Record(walked, own, ctrl, chains[i]))
  }

  /**
   The chains recorded above `org` when `have` records exist on entry: the cap is looked
   at only on entering a company, so it can be passed while its owners are listed.
   */
  ghost function Recorded(links: seq<Link>, org: string, n: nat, have: nat): seq<Chain>
    decreases n, 0
  {
    if n == 0 || have >= MAX_PATH_RECORDS then [] else RecordedThrough(links, Owners(links, org), n, have)
  }

  ghost function RecordedThrough(links: seq<Link>, owners: seq<Link>, n: nat, have: nat): seq<Chain>
    requires n > 0
    decreases n - 1, 2, |owners|
  {
    if owners == [] then [] else
      var before := RecordedThrough(links, owners[..|owners| - 1], n, have);
      before + RecordedVia(links, owners[|owners| - 1], n, have + |before|)
  }

  ghost function RecordedVia(links: seq<Link>, l: Link, n: nat, have: nat): seq<Chain>
    requires n > 0
    decreases n - 1, 1
  {
    if l.ownerType.Person? then [[l]] else Prefixed(l, Recorded(links, Parent(l), n - 1, have))
  }

  lemma RecordsConcat(walked: Chain, own: real, ctrl: real, a: seq<Chain>, b: seq<Chain>)
    ensures Records(walked, own, ctrl, a + b) == Records(walked, own, ctrl, a) + Records(walked, own, ctrl, b)
  {
  }

  lemma RecordPrefixed(walked: Chain, own: real, ctrl: real, l: Link, c: Chain)
    ensures Record(walked, own, ctrl, [l] + c)
         == Record(walked + [l], Weigh(own, OwnFactor(l)), Weigh(ctrl, ControlFactor(l)), c)
  {
    hide OwnFactor, ControlFactor, Weigh;
    assert walked + ([l] + c) == walked + [l] + c;
    assert ([l] + c)[1..] == c && ([l] + c)[0] == l;
  }

  lemma RecordsVia(links: seq<Link>, walked: Chain, own: real, ctrl: real, l: Link, n: nat, have: nat)
    requires n > 0
    ensures Records(walked, own, ctrl, RecordedVia(links, l, n, have)) ==
            (if l.ownerType.Person? then
               [ControlPath(walked + [l], Weigh(own, OwnFactor(l)), Weigh(ctrl, ControlFactor(l)),
                            SomeIncomplete(walked + [l]))]
             else
               Records(walked + [l], Weigh(own, OwnFactor(l)), Weigh(ctrl, ControlFactor(l)),
                       Recorded(links, Parent(l), n - 1, have)))
    ensures l.ownerType.Company? && Parent(l) == "" ==> RecordedVia(links, l, n, have) == []
  {
    hide OwnFactor, ControlFactor, Weigh, SomeIncomplete;
    if l.ownerType.Person? {
      RecordPrefixed(walked, own, ctrl, l, []);
      assert [l] + [] == [l] && walked + [l] + [] == walked + [l];
    } else {
      OwnersOfNobody(links);
      var up := Recorded(links, Parent(l), n - 1, have);
      forall i | 0 <= i < |up|
        ensures Record(walked, own, ctrl, Prefixed(l, up)[i]) ==
                Record(walked + [l], Weigh(own, OwnFactor(l)), Weigh(ctrl, ControlFactor(l)), up[i])
      {
        RecordPrefixed(walked, own, ctrl, l, up[i]);
      }
    }
  }

  lemma NothingRecorded(links: seq<Link>, walked: Chain, own: real, ctrl: real, have: nat)
    ensures Records(walked, own, ctrl, []) == []
    ensures forall n: nat :: n > 0 ==> RecordedThrough(links, [], n, have) == []
  {
  }

  lemma OneMoreRecorded(links: seq<Link>, owners: seq<Link>, i: nat, n: nat, have: nat)
    requires n > 0 && i < |owners|
    ensures var before := RecordedThrough(links, owners[..i], n, have);
            RecordedThrough(links, owners[..i + 1], n, have) ==
            before + RecordedVia(links, owners[i], n, have + |before|)
  {
    assert owners[..i + 1][..i] == owners[..i];
  }

  method WalkUp(ownedBy: map<string, seq<Link>>, ghost links: seq<Link>, ownedOrgDigits: string, cumOwn: real,
                cumCtrl: real, chain: Chain, depth: nat, controlPaths: seq<ControlPath>)
    returns (controlPaths': seq<ControlPath>)
    requires Indexes(ownedBy, links) && depth <= WALK_CHAIN_LENGTH
    ensures controlPaths' == controlPaths +
              Records(chain, cumOwn, cumCtrl,
                      Recorded(links, ownedOrgDigits, WALK_CHAIN_LENGTH - depth, |controlPaths|))
    decreases WALK_CHAIN_LENGTH - depth
  {
    hide Records, RecordedThrough, RecordedVia, Owners, Digits, OwnFactor, ControlFactor, Weigh;
    NothingRecorded(links, chain, cumOwn, cumCtrl, |controlPaths|);
    controlPaths' := controlPaths;
    if depth > MAX_WALK_DEPTH || |controlPaths| >= MAX_PATH_RECORDS {
      return;
    }
    var directOwners := Lookup(ownedBy, ownedOrgDigits);
    ghost var n := WALK_CHAIN_LENGTH - depth;
    ghost var have := |controlPaths|;
    for i := 0 to |directOwners|
      invariant controlPaths' == controlPaths +
                  Records(chain, cumOwn, cumCtrl, RecordedThrough(links, directOwners[..i], n, have))
    {
      var link := directOwners[i];
      var nextOwn := Weigh(cumOwn, OwnFactor(link));
      var nextCtrl := Weigh(cumCtrl, ControlFactor(link));
      var nextChain := chain + [link];
      ghost var before := RecordedThrough(links, directOwners[..i], n, have);
      OneMoreRecorded(links, directOwners, i, n, have);
      RecordsVia(links, chain, cumOwn, cumCtrl, link, n, have + |before|);
      RecordsConcat(chain, cumOwn, cumCtrl, before, RecordedVia(links, link, n, have + |before|));
      RecordsLength(chain, cumOwn, cumCtrl, before);
      if link.ownerType.Person? {
        controlPaths' := controlPaths' + [ControlPath(nextChain, nextOwn, nextCtrl, SomeIncomplete(nextChain))];
      } else if HasParent(link) {
        var parent := Digits(link.ownerOrganisationNumber.value);
        if parent != "" {
          controlPaths' := WalkUp(ownedBy, links, parent, nextOwn, nextCtrl, nextChain, depth + 1, controlPaths');
        }
      }
    }
    assert directOwners[..|directOwners|] == directOwners;
  }

  lemma RecordsLength(walked: Chain, own: real, ctrl: real, chains: seq<Chain>)
    ensures |Records(walked, own, ctrl, chains)| == |chains|
  {
  }

  // --- What is recorded ---

  /** Every record is a chain, cap or no cap. */
  lemma {:induction false} RecordedAreChains(links: seq<Link>, org: string, n: nat, have: nat, c: Chain)
    requires c in Recorded(links, org, n, have)
    ensures IsChain(links, org, c) && |c| <= n
    decreases n, 0
  {
    RecordedThroughAreChains(links, Owners(links, org), n, have, c);
  }

  lemma {:induction false} RecordedThroughAreChains(links: seq<Link>, owners: seq<Link>, n: nat, have: nat, c: Chain)
    requires n > 0 && c in RecordedThrough(links, owners, n, have)
    ensures c != [] && c[0] in owners && |c| <= n
    ensures if |c| == 1 then c[0].ownerType.Person? else c[0].ownerType.Company? && IsChain(links, Parent(c[0]), c[1..])
    decreases n - 1, 2, |owners|
  {
    var m := |owners| - 1;
    var before := RecordedThrough(links, owners[..m], n, have);
    assert owners == owners[..m] + [owners[m]];
    if c in before {
      RecordedThroughAreChains(links, owners[..m], n, have, c);
    } else {
      RecordedViaAreChains(links, owners[m], n, have + |before|, c);
    }
  }

  lemma {:induction false} RecordedViaAreChains(links: seq<Link>, l: Link, n: nat, have: nat, c: Chain)
    requires n > 0 && c in RecordedVia(links, l, n, have)
    ensures c != [] && c[0] == l && |c| <= n
    ensures if |c| == 1 then l.ownerType.Person? else l.ownerType.Company? && IsChain(links, Parent(l), c[1..])
    decreases n - 1, 1
  {
    if l.ownerType.Company? {
      PrefixedMember(l, Recorded(links, Parent(l), n - 1, have), c);
      RecordedAreChains(links, Parent(l), n - 1, have, c[1..]);
    }
  }

  /** No chain is recorded twice. */
  lemma {:induction false} RecordedDistinct(links: seq<Link>, org: string, n: nat, have: nat)
    requires Distinct(links)
    ensures Distinct(Recorded(links, org, n, have))
    decreases n, 0
  {
    if n > 0 && have < MAX_PATH_RECORDS {
      FilterDistinct(OwnedBy(org), links);
      RecordedThroughDistinct(links, Owners(links, org), n, have);
    }
  }

  lemma {:induction false} RecordedViaDistinct(links: seq<Link>, l: Link, n: nat, have: nat)
    requires n > 0 && Distinct(links)
    ensures Distinct(RecordedVia(links, l, n, have))
    decreases n - 1, 1
  {
    hide Recorded, Prefixed;
    if !l.ownerType.Person? {
      RecordedDistinct(links, Parent(l), n - 1, have);
      PrefixedDistinct(l, Recorded(links, Parent(l), n - 1, have));
    }
  }

  lemma {:induction false} RecordedThroughDistinct(links: seq<Link>, owners: seq<Link>, n: nat, have: nat)
    requires n > 0 && Distinct(links) && Distinct(owners)
    ensures Distinct(RecordedThrough(links, owners, n, have))
    decreases n - 1, 2, |owners|
  {
    hide RecordedVia, IsChain;
    if owners != [] {
      var m := |owners| - 1;
      var before := RecordedThrough(links, owners[..m], n, have);
      var via := RecordedVia(links, owners[m], n, have + |before|);
      RecordedThroughDistinct(links, owners[..m], n, have);
      RecordedViaDistinct(links, owners[m], n, have + |before|);
      forall c | c in before ensures c !in via {
        RecordedThroughAreChains(links, owners[..m], n, have, c);
        if c in via {
          RecordedViaAreChains(links, owners[m], n, have + |before|, c);
          assert false;
        }
      }
      DistinctConcat(before, via);
    }
  }

  /** If all chains fit under the cap, exactly all chains are recorded, in walking order. */
  lemma {:induction false} RecordedComplete(links: seq<Link>, org: string, n: nat, have: nat)
    requires have + |Chains(links, org, n)| <= MAX_PATH_RECORDS
    ensures Recorded(links, org, n, have) == Chains(links, org, n)
    decreases n, 0
  {
    if n > 0 {
      RecordedThroughComplete(links, Owners(links, org), n, have);
    }
  }

  lemma {:induction false} RecordedThroughComplete(links: seq<Link>, owners: seq<Link>, n: nat, have: nat)
    requires n > 0 && have + |ChainsThrough(links, owners, n)| <= MAX_PATH_RECORDS
    ensures RecordedThrough(links, owners, n, have) == ChainsThrough(links, owners, n)
    decreases n - 1, 2, |owners|
  {
    hide Prefixed, Owners, Chains, Recorded;
    if owners != [] {
      var m := |owners| - 1;
      OneMoreOwner(links, owners, m, n);
      assert owners[..m + 1] == owners;
      RecordedThroughComplete(links, owners[..m], n, have);
      var before := ChainsThrough(links, owners[..m], n);
      if owners[m].ownerType.Company? {
        RecordedComplete(links, Parent(owners[m]), n - 1, have + |before|);
      }
    }
  }

  /** The walk never stops short of the cap while chains are left. */
  lemma {:induction false} RecordedReachesCap(links: seq<Link>, org: string, n: nat, have: nat)
    ensures have + |Recorded(links, org, n, have)| >= MAX_PATH_RECORDS
            || Recorded(links, org, n, have) == Chains(links, org, n)
    decreases n, 0
  {
    if n > 0 && have < MAX_PATH_RECORDS {
      RecordedThroughReachesCap(links, Owners(links, org), n, have);
    }
  }

  lemma {:induction false} RecordedThroughReachesCap(links: seq<Link>, owners: seq<Link>, n: nat, have: nat)
    requires n > 0
    ensures || have + |RecordedThrough(links, owners, n, have)| >= MAX_PATH_RECORDS
            || RecordedThrough(links, owners, n, have) == ChainsThrough(links, owners, n)
    decreases n - 1, 2, |owners|
  {
    if owners != [] {
      var m := |owners| - 1;
      OneMoreOwner(links, owners, m, n);
      assert owners[..m + 1] == owners;
      RecordedThroughReachesCap(links, owners[..m], n, have);
      var before := RecordedThrough(links, owners[..m], n, have);
      if owners[m].ownerType.Company? {
        RecordedReachesCap(links, Parent(owners[m]), n - 1, have + |before|);
      }
    }
  }

  /** What is recorded depends only on the owners of companies fewer than `n` steps away. */
  lemma {:induction false} RecordedAgree(a: seq<Link>, b: seq<Link>, root: string, m: nat, org: string, k: nat,
                                         n: nat, have: nat)
    requires SameOwners(a, b, root, m) && org in Reach(a, root, k) && k + n <= m + 1
    ensures Recorded(a, org, n, have) == Recorded(b, org, n, have)
    decreases n, 0
  {
    if n > 0 {
      ReachMonotone(a, root, k, m);
      RecordedThroughAgree(a, b, root, m, org, k, Owners(a, org), n, have);
    }
  }

  lemma {:induction false} RecordedThroughAgree(a: seq<Link>, b: seq<Link>, root: string, m: nat, org: string, k: nat,
                                                owners: seq<Link>, n: nat, have: nat)
    requires SameOwners(a, b, root, m) && org in Reach(a, root, k) && 0 < n && k + n <= m + 1
    requires forall l :: l in owners ==> l in Owners(a, org)
    ensures RecordedThrough(a, owners, n, have) == RecordedThrough(b, owners, n, have)
    decreases n - 1, 2, |owners|
  {
    hide Reach, Owners, SameOwners, Digits, Recorded, Prefixed;
    if owners != [] {
      var l := owners[|owners| - 1];
      assert l in owners && forall k :: k in owners[..|owners| - 1] ==> k in owners;
      RecordedThroughAgree(a, b, root, m, org, k, owners[..|owners| - 1], n, have);
      var have' := have + |RecordedThrough(a, owners[..|owners| - 1], n, have)|;
      if HasParent(l) {
        ReachStep(a, root, k, org, l);
        RecordedAgree(a, b, root, m, Parent(l), k + 1, n - 1, have');
      } else if l.ownerType.Company? {
        NothingRecordedAboveNobody(a, n - 1, have');
        NothingRecordedAboveNobody(b, n - 1, have');
      }
    }
  }

  lemma NothingRecordedAboveNobody(links: seq<Link>, n: nat, have: nat)
    ensures Recorded(links, "", n, have) == []
  {
    OwnersOfNobody(links);
  }
}
