/**
 How many alerts one detection pass creates: the clock moves on during a pass, so it depends
 on how long the pass takes (backend/src/monitoring/monitoring.service.ts:183-192, 274-345).
 */
module AlertPasses {
  import opened Wrappers
  import opened Strings
  import opened Alerts
  import opened AlertRuns

  /** The candidate a new alert was created from, at the reading it was considered at. */
  lemma {:induction false} CreatorOf(alerts: seq<Alert>, candidates: seq<Candidate>, clock: nat -> int, i: nat)
    returns (k: nat)
    requires |alerts| <= i < |AfterPass(alerts, candidates, clock)|
    ensures k < |candidates| && AfterPass(alerts, candidates, clock)[i] == AlertOf(candidates[k], clock(k))
    ensures |AfterPass(alerts, candidates[..k], clock)| == i
  {
    hide AfterCandidate, AlertOf;
    var n := |candidates| - 1;
    var before := AfterPass(alerts, candidates[..n], clock);
    CandidateAddsAtMostOne(before, candidates[n], clock(n));
    if i < |before| {
      k := CreatorOf(alerts, candidates[..n], clock, i);
      assert candidates[..n][..k] == candidates[..k];
    } else {
      k := n;
    }
  }

  /** No candidate is considered more than its cooldown after an earlier one. */
  ghost predicate NoLongerThanCooldowns(candidates: seq<Candidate>, clock: nat -> int) {
    forall k, m :: 0 <= k < m < |candidates| ==> clock(m) - clock(k) <= candidates[m].cooldownMinutes * MS_PER_MINUTE
  }

  /** The pass creates at most one alert for a subscription, type and organisation. */
  ghost predicate CreatesAtMostOneEach(run: seq<Activity>, candidates: seq<Candidate>, clock: nat -> int) {
    var before, after := AlertsAfter(run), AfterPass(AlertsAfter(run), candidates, clock);
    forall i, j :: |before| <= i < j < |after| && SameSubjectAs(after[i], after[j]) ==>
      after[i].organisationNumber.GetOr("") != after[j].organisationNumber.GetOr("")
  }

  /**
   Two alerts of one subscription, type and organisation created in a pass lie more than the
   cooldown apart, so a pass no longer than the cooldowns creates at most one of each.
   */
  lemma OneAlertPerPass(run: seq<Activity>, candidates: seq<Candidate>, clock: nat -> int)
    requires NoLongerThanCooldowns(candidates, clock)
    ensures CreatesAtMostOneEach(run, candidates, clock)
  {
    hide AfterPass, AlertsAfter, AlertOf;
    var before, after := AlertsAfter(run), AfterPass(AlertsAfter(run), candidates, clock);
    CooldownAndDedupeHold(run);
    PassKeepsInv(before, candidates, clock);
    forall i, j | |before| <= i < j < |after| && SameSubjectAs(after[i], after[j])
      ensures after[i].organisationNumber.GetOr("") != after[j].organisationNumber.GetOr("")
    {
      var k := CreatorOf(before, candidates, clock, i);
      var m := CreatorOf(before, candidates, clock, j);
      if m <= k {
        PassGrows(before, candidates, clock, m, k);
      }
      AlertOfIsStamped(candidates[k], clock(k));
      AlertOfIsStamped(candidates[m], clock(m));
      assert Spaced(after[i], after[j]);
    }
  }

  lemma AlertOfIsStamped(c: Candidate, now: int)
    ensures AlertOf(c, now).createdAt == now
            && AlertOf(c, now).detection == Some(Detection(c.dedupeKey, c.cooldownMinutes))
  {
  }

  ghost predicate AllCoolFor(candidates: seq<Candidate>, minutes: int) {
    forall c :: c in candidates ==> c.cooldownMinutes == minutes
  }

  /**
   With one cooldown throughout, every pass of `n` candidates creates at most one alert of each
   subscription, type and organisation exactly when it is no longer than that cooldown.
   */
  lemma OneAlertPerPassExactly(n: nat, minutes: int, clock: nat -> int)
    requires n >= 2 && forall k: nat, m: nat :: k < m < n ==> clock(k) <= clock(m)
    ensures (forall run, candidates :: |candidates| == n && AllCoolFor(candidates, minutes) ==>
               CreatesAtMostOneEach(run, candidates, clock))
       <==> clock(n - 1) - clock(0) <= minutes * MS_PER_MINUTE
  {
    hide CreatesAtMostOneEach;
    if clock(n - 1) - clock(0) <= minutes * MS_PER_MINUTE {
      forall run, candidates | |candidates| == n && AllCoolFor(candidates, minutes)
        ensures CreatesAtMostOneEach(run, candidates, clock)
      {
        ShortPass(candidates, minutes, clock);
        OneAlertPerPass(run, candidates, clock);
      }
    } else {
      LongPassCreatesTwo(n, minutes, clock);
    }
  }

  lemma ShortPass(candidates: seq<Candidate>, minutes: int, clock: nat -> int)
    requires |candidates| >= 2 && AllCoolFor(candidates, minutes)
    requires forall k: nat, m: nat :: k < m < |candidates| ==> clock(k) <= clock(m)
    requires clock(|candidates| - 1) - clock(0) <= minutes * MS_PER_MINUTE
    ensures NoLongerThanCooldowns(candidates, clock)
  {
    forall k, m | 0 <= k < m < |candidates|
      ensures clock(m) - clock(k) <= candidates[m].cooldownMinutes * MS_PER_MINUTE
    {
      assert candidates[m] in candidates;
      assert k > 0 ==> clock(0) <= clock(k);
      assert m < |candidates| - 1 ==> clock(m) <= clock(|candidates| - 1);
    }
  }

  // --- Each pass ---

  /** All candidates are for one subscription, type and organisation, with one cooldown. */
  ghost predicate OneTarget(candidates: seq<Candidate>, minutes: int) {
    && AllCoolFor(candidates, minutes)
    && forall c, d :: c in candidates && d in candidates ==>
         SameSubject(AlertOf(c, 0), d) && c.organisationNumber.GetOr("") == d.organisationNumber.GetOr("")
  }

  /** No candidate mentions a later one's key. */
  ghost predicate KeysApart(candidates: seq<Candidate>) {
    forall k, m :: 0 <= k < m < |candidates| ==> !IsDuplicate(AlertOf(candidates[k], 0), candidates[m])
  }

  /** How the first candidate's alert acts on a later candidate: by its cooldown alone. */
  lemma FirstActs(candidates: seq<Candidate>, minutes: int, created: int, m: nat, now: int)
    requires OneTarget(candidates, minutes) && KeysApart(candidates) && 0 < m < |candidates|
    ensures var first := AlertOf(candidates[0], created);
            && !IsDuplicate(first, candidates[m])
            && (InCooldown(first, candidates[m], now) <==> now - created <= minutes * MS_PER_MINUTE)
  {
    hide ILike;
    assert candidates[0] in candidates && candidates[m] in candidates;
    assert !IsDuplicate(AlertOf(candidates[0], 0), candidates[m]);
    assert SameSubject(AlertOf(candidates[0], 0), candidates[m]);
  }

  lemma FirstIsCreated(alerts: seq<Alert>, candidates: seq<Candidate>, clock: nat -> int)
    requires candidates != [] && !Suppressed(alerts, candidates[0], clock(0))
    ensures AfterPass(alerts, candidates[..1], clock) == alerts + [AlertOf(candidates[0], clock(0))]
  {
    hide Suppressed, AlertOf;
    assert candidates[..1][..0] == [];
  }

  lemma {:induction false} OthersWait(alerts: seq<Alert>, candidates: seq<Candidate>, minutes: int, clock: nat -> int,
                                      m: nat)
    requires OneTarget(candidates, minutes) && KeysApart(candidates) && 1 <= m <= |candidates|
    requires !Suppressed(alerts, candidates[0], clock(0))
    requires forall k: nat :: k < m ==> clock(k) - clock(0) <= minutes * MS_PER_MINUTE
    ensures AfterPass(alerts, candidates[..m], clock) == alerts + [AlertOf(candidates[0], clock(0))]
  {
    hide OneTarget, KeysApart, AlertOf, InCooldown, IsDuplicate;
    if m == 1 {
      FirstIsCreated(alerts, candidates, clock);
    } else {
      OthersWait(alerts, candidates, minutes, clock, m - 1);
      var before := AfterPass(alerts, candidates[..m - 1], clock);
      assert candidates[..m][..m - 1] == candidates[..m - 1];
      FirstActs(candidates, minutes, clock(0), m - 1, clock(m - 1));
      assert InCooldown(before[|alerts|], candidates[m - 1], clock(m - 1));
    }
  }

  lemma LastIsCreated(alerts: seq<Alert>, candidates: seq<Candidate>, minutes: int, clock: nat -> int)
    requires |candidates| >= 2 && OneTarget(candidates, minutes) && KeysApart(candidates)
    requires forall k :: 0 <= k < |candidates| ==> !Suppressed(alerts, candidates[k], clock(k))
    requires clock(|candidates| - 1) - clock(0) > minutes * MS_PER_MINUTE
    ensures |AfterPass(alerts, candidates, clock)| >= |alerts| + 2
  {
    hide OneTarget, KeysApart, AlertOf, InCooldown, IsDuplicate;
    var n := |candidates| - 1;
    var before := AfterPass(alerts, candidates[..n], clock);
    FirstIsCreated(alerts, candidates, clock);
    PassGrows(alerts, candidates, clock, 1, n);
    FirstActs(candidates, minutes, clock(0), n, clock(n));
    if |before| == |alerts| + 1 {
      assert before == alerts + [AlertOf(candidates[0], clock(0))];
    }
  }

  /**
   A pass over proposals of one subscription, type and organisation, none of which is stored
   or in cooldown beforehand, creates at most one alert exactly when it is no longer than the
   cooldown.
   */
  lemma OnePassExactly(alerts: seq<Alert>, candidates: seq<Candidate>, minutes: int, clock: nat -> int)
    requires |candidates| >= 2 && OneTarget(candidates, minutes) && KeysApart(candidates)
    requires forall k: nat, m: nat :: k < m < |candidates| ==> clock(k) <= clock(m)
    requires forall k :: 0 <= k < |candidates| ==> !Suppressed(alerts, candidates[k], clock(k))
    ensures |AfterPass(alerts, candidates, clock)| <= |alerts| + 1
       <==> clock(|candidates| - 1) - clock(0) <= minutes * MS_PER_MINUTE
  {
    hide OneTarget, KeysApart, AfterPass, Suppressed;
    var n := |candidates|;
    if clock(n - 1) - clock(0) <= minutes * MS_PER_MINUTE {
      forall k: nat | k < n ensures clock(k) - clock(0) <= minutes * MS_PER_MINUTE {
        assert k < n - 1 ==> clock(k) <= clock(n - 1);
      }
      OthersWait(alerts, candidates, minutes, clock, n);
      assert candidates[..n] == candidates;
    } else {
      LastIsCreated(alerts, candidates, minutes, clock);
    }
  }

  /** Proposals of one subscription, type and organisation, from different events. */
  function Proposal(id: string, minutes: int): (c: Candidate)
    ensures |c.payloadText| == |c.dedupeKey| == 17 + |id|
  {
    CandidateFor("t", Subscription("s", Some("5560000000"), ["ownership.change"], minutes, 10.0), "5560000000",
                 "ownership.change", id, PayloadRest("", ""))
  }

  function Ones(n: nat): string { seq(n, _ => '1') }

  /** The events 1, 11, 111 and so on. */
  function Burst(n: nat, minutes: int): seq<Candidate> {
    seq(n, k requires 0 <= k < n => Proposal(Ones(k + 1), minutes))
  }

  lemma TooShort(text: string, needle: string)
    requires |text| < |needle|
    ensures !ILike(text, needle)
  {
  }

  lemma BurstFits(n: nat, minutes: int)
    ensures OneTarget(Burst(n, minutes), minutes) && KeysApart(Burst(n, minutes))
  {
    hide ILike, PayloadText;
    var burst := Burst(n, minutes);
    forall c | c in burst
      ensures c.tenantId == "t" && c.subscriptionId == "s" && c.alertType == "ownership.change"
      ensures c.organisationNumber == Some("5560000000") && c.cooldownMinutes == minutes
    {
      var k :| 0 <= k < n && burst[k] == c;
    }
    forall k, m | 0 <= k < m < n ensures !IsDuplicate(AlertOf(burst[k], 0), burst[m]) {
      TooShort(burst[k].payloadText, burst[m].dedupeKey);
    }
  }

  lemma LongPassCreatesTwo(n: nat, minutes: int, clock: nat -> int)
    requires n >= 2 && clock(n - 1) - clock(0) > minutes * MS_PER_MINUTE
    ensures |Burst(n, minutes)| == n && AllCoolFor(Burst(n, minutes), minutes)
    ensures |AfterPass([], Burst(n, minutes), clock)| >= 2
    ensures !CreatesAtMostOneEach([], Burst(n, minutes), clock)
  {
    hide AfterPass, KeysApart, Proposal;
    var burst := Burst(n, minutes);
    BurstFits(n, minutes);
    forall k | 0 <= k < n ensures !Suppressed([], burst[k], clock(k)) {}
    LastIsCreated([], burst, minutes, clock);
    var after := AfterPass([], burst, clock);
    var k := CreatorOf([], burst, clock, 0);
    var m := CreatorOf([], burst, clock, 1);
    assert burst[k] in burst && burst[m] in burst;
    assert SameSubject(AlertOf(burst[k], 0), burst[m]);
    assert AlertsAfter([]) == [] && SameSubjectAs(after[0], after[1]);
  }

  /** A subscription without cooldown, and two ownership events of its company. */
  const IMPATIENT := Subscription("s", Some("5560000000"), ["ownership.change"], 0, 10.0)
  const TWO_EVENTS := [ChangeEvent("1", "5560000000", "owner", PayloadRest("", "")),
                       ChangeEvent("11", "5560000000", "owner", PayloadRest("", ""))]

  /** One pass that reads the clock a millisecond apart for the two events creates two alerts. */
  lemma NoCooldownCreatesTwo()
    ensures |AfterPass([], Candidates("t", [IMPATIENT], TWO_EVENTS, []), k => k)| == 2
  {
    hide Candidates, AfterPass, Proposal;
    ImpatientProposals();
    assert Ones(1) == "1" && Ones(2) == "11";
    assert Burst(2, 0) == [Proposal("1", 0), Proposal("11", 0)];
    LongPassCreatesTwo(2, 0, k => k);
    NoMoreThanProposed([], Burst(2, 0), k => k);
  }

  lemma {:induction false} NoMoreThanProposed(alerts: seq<Alert>, candidates: seq<Candidate>, clock: nat -> int)
    ensures |AfterPass(alerts, candidates, clock)| <= |alerts| + |candidates|
  {
    hide Suppressed;
    if candidates != [] {
      NoMoreThanProposed(alerts, candidates[..|candidates| - 1], clock);
    }
  }

  lemma ImpatientProposals()
    ensures Candidates("t", [IMPATIENT], TWO_EVENTS, []) == [Proposal("1", 0), Proposal("11", 0)]
  {
    hide Candidates, SubscriptionCandidates, EventCandidates, CandidateFor, NormalizeOrg, Subscribed,
         AlertTypeForAttribute;
    var events, org := TWO_EVENTS, "5560000000";
    OwnerMeansOwnership();
    ImpatientSubscribes();
    EmptyProposals("t", IMPATIENT, org, [], []);
    NextEvent("t", IMPATIENT, org, events, 0);
    NextEvent("t", IMPATIENT, org, events, 1);
    assert events[..0] == [] && events[..2] == events;
    NothingProposed([], "t", [], [], [], k => 0);
    NextSubscription("t", [IMPATIENT], 0, events, []);
    assert [IMPATIENT][..1] == [IMPATIENT] && [IMPATIENT][..0] == [];
  }

  lemma LowerCaseKept(s: string)
    requires forall i :: 0 <= i < |s| ==> LowerChar(s[i]) == s[i]
    ensures Lower(s) == s
  {
  }

  lemma OwnerMeansOwnership()
    ensures AlertTypeForAttribute("owner") == Some("ownership.change")
  {
    LowerCaseKept("owner");
    assert "owner" <= "owner"[0..] && OWNERSHIP_WORDS[0] == "owner";
    assert Contains("owner", OWNERSHIP_WORDS[0]);
  }

  lemma ImpatientSubscribes()
    ensures Subscribed(IMPATIENT, "ownership.change") && !Subscribed(IMPATIENT, "signal.change")
    ensures NormalizeOrg(IMPATIENT.organisationNumber) == Some("5560000000")
  {
    hide Lower, Digits;
    LowerCaseKept("ownership.change");
    assert IMPATIENT.eventTypes[0] == "ownership.change" && "ownership.change"[0] != "signal.change"[0];
    assert Digits("5560000000") == "5560000000";
  }
}
