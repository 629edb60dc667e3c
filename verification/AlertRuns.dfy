/** Cooldown and deduplication over whole runs of detection passes. */
module AlertRuns {
  import opened Wrappers
  import opened Strings
  import opened Alerts

  /** A detection pass, or an alert of other origin. */
  datatype Activity = Pass(candidates: seq<Candidate>, clock: nat -> int) | Recorded(alert: Alert)

  function AlertsAfter(run: seq<Activity>): seq<Alert> {
    if run == [] then [] else
      var before := AlertsAfter(run[..|run| - 1]);
      match run[|run| - 1]
      case Pass(candidates, clock) => AfterPass(before, candidates, clock)
      case Recorded(alert) => before + [alert.(detection := None)]
  }

  ghost predicate SameSubjectAs(a: Alert, b: Alert) {
    a.tenantId == b.tenantId && a.subscriptionId == b.subscriptionId && a.alertType == b.alertType
  }

  /** `b` was detected more than its cooldown after `a`. */
  ghost predicate Spaced(a: Alert, b: Alert) {
    SameSubjectAs(a, b) && a.organisationNumber.GetOr("") == b.organisationNumber.GetOr("") && b.detection.Some? ==>
      b.createdAt - a.createdAt > b.detection.value.cooldownMinutes * MS_PER_MINUTE
  }

  /** The dedupe key `b` was detected under is not in what `a` says. */
  ghost predicate KeyIsNew(a: Alert, b: Alert) {
    SameSubjectAs(a, b) && b.detection.Some? && b.detection.value.dedupeKey != "" ==>
      !ILike(a.payloadText, b.detection.value.dedupeKey)
  }

  ghost predicate Inv(alerts: seq<Alert>) {
    forall i, j :: 0 <= i < j < |alerts| ==> Spaced(alerts[i], alerts[j]) && KeyIsNew(alerts[i], alerts[j])
  }

  lemma CandidateKeepsInv(alerts: seq<Alert>, c: Candidate, now: int)
    requires Inv(alerts)
    ensures Inv(AfterCandidate(alerts, c, now))
  {
    hide ILike;
    if !Suppressed(alerts, c, now) {
      forall i | 0 <= i < |alerts| ensures Spaced(alerts[i], AlertOf(c, now)) && KeyIsNew(alerts[i], AlertOf(c, now)) {
        assert !InCooldown(alerts[i], c, now) && !IsDuplicate(alerts[i], c);
      }
    }
  }

  lemma {:induction false} PassKeepsInv(alerts: seq<Alert>, candidates: seq<Candidate>, clock: nat -> int)
    requires Inv(alerts)
    ensures Inv(AfterPass(alerts, candidates, clock))
  {
    hide Inv, AfterCandidate;
    if candidates != [] {
      var n := |candidates| - 1;
      PassKeepsInv(alerts, candidates[..n], clock);
      CandidateKeepsInv(AfterPass(alerts, candidates[..n], clock), candidates[n], clock(n));
    }
  }

  /**
   Whatever the passes propose and whatever their clocks show: an alert the detector created
   lies more than its cooldown after every earlier alert of its subscription, type and
   organisation, and none of the earlier alerts of its subscription and type mentions its
   dedupe key.
   */
  lemma {:induction false} CooldownAndDedupeHold(run: seq<Activity>)
    ensures Inv(AlertsAfter(run))
  {
    hide AfterPass, Spaced, KeyIsNew;
    if run != [] {
      var n := |run| - 1;
      CooldownAndDedupeHold(run[..n]);
      match run[n]
      case Pass(candidates, clock) => PassKeepsInv(AlertsAfter(run[..n]), candidates, clock);
      case Recorded(alert) =>
        forall a ensures Spaced(a, alert.(detection := None)) && KeyIsNew(a, alert.(detection := None)) {
          NotDetected(a, alert.(detection := None));
        }
    }
  }

  lemma NotDetected(a: Alert, b: Alert)
    requires b.detection.None?
    ensures Spaced(a, b) && KeyIsNew(a, b)
  {
  }

  // --- Dedupe keys ---

  /** The payload mentions the key it was proposed under: so it does for all that a pass proposes. */
  ghost predicate Keyed(c: Candidate) {
    c.dedupeKey != "" && ILike(c.payloadText, c.dedupeKey)
  }

  ghost predicate AllKeyed(candidates: seq<Candidate>) {
    forall i :: 0 <= i < |candidates| ==> Keyed(candidates[i])
  }

  lemma ProposalKeyed(tenantId: string, sub: Subscription, org: string, alertType: string, sourceId: string,
                      rest: PayloadRest)
    ensures Keyed(CandidateFor(tenantId, sub, org, alertType, sourceId, rest))
  {
    hide ILike, PayloadText;
  }

  lemma {:induction false} EventsKeyed(tenantId: string, sub: Subscription, org: string, events: seq<ChangeEvent>)
    ensures AllKeyed(EventCandidates(tenantId, sub, org, events))
  {
    hide Keyed, CandidateFor, AlertTypeForAttribute;
    if events != [] {
      var e := events[|events| - 1];
      EventsKeyed(tenantId, sub, org, events[..|events| - 1]);
      if AlertTypeForAttribute(e.attributeName).Some? {
        ProposalKeyed(tenantId, sub, org, AlertTypeForAttribute(e.attributeName).value, e.id, e.payloadRest);
      }
    }
  }

  lemma {:induction false} SignalsKeyed(tenantId: string, sub: Subscription, org: string, signals: seq<SignalGroup>)
    ensures AllKeyed(SignalCandidates(tenantId, sub, org, signals))
  {
    hide Keyed, CandidateFor;
    if signals != [] {
      var g := signals[|signals| - 1];
      SignalsKeyed(tenantId, sub, org, signals[..|signals| - 1]);
      if |g.rows| > 0 {
        ProposalKeyed(tenantId, sub, org, "signal.change", g.rows[0].id, g.rows[0].payloadRest);
      }
    }
  }

  lemma {:induction false} CandidatesKeyed(tenantId: string, subs: seq<Subscription>, events: seq<ChangeEvent>,
                                           signals: seq<SignalGroup>)
    ensures AllKeyed(Candidates(tenantId, subs, events, signals))
  {
    hide Keyed, EventCandidates, SignalCandidates, NormalizeOrg, Subscribed;
    if subs != [] {
      var sub := subs[|subs| - 1];
      CandidatesKeyed(tenantId, subs[..|subs| - 1], events, signals);
      match NormalizeOrg(sub.organisationNumber)
      case None =>
      case Some(org) =>
        EventsKeyed(tenantId, sub, org, events);
        SignalsKeyed(tenantId, sub, org, signals);
    }
  }

  ghost predicate RunKeyed(run: seq<Activity>) {
    forall i :: 0 <= i < |run| && run[i].Pass? ==> AllKeyed(run[i].candidates)
  }

  /** An alert the detector created mentions the key it was created under. */
  ghost predicate MentionsItsKey(a: Alert) {
    a.detection.Some? ==> a.detection.value.dedupeKey != "" && ILike(a.payloadText, a.detection.value.dedupeKey)
  }

  lemma {:induction false} PassMentionsKeys(alerts: seq<Alert>, candidates: seq<Candidate>, clock: nat -> int)
    requires AllKeyed(candidates) && forall a :: a in alerts ==> MentionsItsKey(a)
    ensures forall a :: a in AfterPass(alerts, candidates, clock) ==> MentionsItsKey(a)
  {
    hide ILike, Suppressed;
    if candidates != [] {
      var before := candidates[..|candidates| - 1];
      PassMentionsKeys(alerts, before, clock);
      assert Keyed(candidates[|candidates| - 1]);
    }
  }

  lemma {:induction false} RunMentionsKeys(run: seq<Activity>)
    requires RunKeyed(run)
    ensures forall a :: a in AlertsAfter(run) ==> MentionsItsKey(a)
  {
    hide AfterPass, ILike, AllKeyed;
    if run != [] {
      var n := |run| - 1;
      RunMentionsKeys(run[..n]);
      if run[n].Pass? {
        PassMentionsKeys(AlertsAfter(run[..n]), run[n].candidates, run[n].clock);
      }
    }
  }

  /** No two detected alerts of a subscription and type share a dedupe key, not even up to case. */
  lemma DedupeKeysDiffer(run: seq<Activity>, i: nat, j: nat)
    requires RunKeyed(run)
    requires var alerts := AlertsAfter(run);
             i < j < |alerts| && SameSubjectAs(alerts[i], alerts[j]) && alerts[i].detection.Some?
             && alerts[j].detection.Some?
    ensures var alerts := AlertsAfter(run);
            Lower(alerts[i].detection.value.dedupeKey) != Lower(alerts[j].detection.value.dedupeKey)
  {
    hide AlertsAfter, Contains, Lower, RunKeyed;
    var alerts := AlertsAfter(run);
    CooldownAndDedupeHold(run);
    RunMentionsKeys(run);
    assert alerts[i] in alerts && alerts[j] in alerts;
    assert MentionsItsKey(alerts[i]) && MentionsItsKey(alerts[j]) && KeyIsNew(alerts[i], alerts[j]);
  }

  // --- What a pass proposes ---

  /** One of the words occurs in the attribute's name, whatever its case. */
  ghost predicate Names(attributeName: string, words: seq<string>) {
    exists w :: w in words && Contains(Lower(attributeName), w)
  }

  /** Ownership words come first, then board words, then filing words. */
  ghost predicate TypeOf(attributeName: string, alertType: string) {
    || (alertType == "ownership.change" && Names(attributeName, OWNERSHIP_WORDS))
    || (alertType == "board.change" && !Names(attributeName, OWNERSHIP_WORDS) && Names(attributeName, BOARD_WORDS))
    || (&& alertType == "filings.change" && !Names(attributeName, OWNERSHIP_WORDS)
        && !Names(attributeName, BOARD_WORDS) && Names(attributeName, FILING_WORDS))
  }

  ghost predicate Wants(sub: Subscription, alertType: string) {
    exists t :: t in sub.eventTypes && Lower(t) == alertType
  }

  /** What is proposed to the subscription about `org`, from that source. */
  ghost predicate Proposed(c: Candidate, tenantId: string, sub: Subscription, org: string, alertType: string,
                           sourceId: string, rest: PayloadRest)
  {
    && c.tenantId == tenantId && c.subscriptionId == sub.id && c.alertType == alertType
    && c.organisationNumber == Some(org) && c.cooldownMinutes == sub.cooldownMinutes
    && c.dedupeKey == alertType + ":" + sourceId && c.payloadText == rest.before + c.dedupeKey + rest.after
  }

  /** The candidate stems from an event of the subscription's organisation, of a type it subscribes to. */
  ghost predicate FromEvent(c: Candidate, tenantId: string, sub: Subscription, org: string, e: ChangeEvent) {
    && e.orgNumber == org && TypeOf(e.attributeName, c.alertType) && Wants(sub, c.alertType)
    && Proposed(c, tenantId, sub, org, c.alertType, e.id, e.payloadRest)
  }

  /** The newest score is the one before it plus or minus the threshold, or beyond that. */
  ghost predicate MovedFar(rows: seq<Signal>, threshold: real) {
    && |rows| >= 2 && rows[0].score.Some? && rows[1].score.Some?
    && var (newest, previous) := (rows[0].score.value, rows[1].score.value);
       newest >= previous + threshold || newest <= previous - threshold
  }

  /** The candidate stems from a signal of the organisation that rose or fell far enough. */
  ghost predicate FromSignal(c: Candidate, tenantId: string, sub: Subscription, org: string, g: SignalGroup) {
    && g.organisationNumber == org && Wants(sub, "signal.change") && MovedFar(g.rows, sub.signalDeltaMin)
    && Proposed(c, tenantId, sub, org, "signal.change", g.rows[0].id, g.rows[0].payloadRest)
  }

  /** The digits of the subscription's number, if there are ten or twelve. */
  ghost predicate Watches(sub: Subscription, org: string) {
    && sub.organisationNumber.Some? && Digits(sub.organisationNumber.value) == org
    && (|org| == 10 || |org| == 12)
  }

  ghost predicate FromSubscription(c: Candidate, tenantId: string, sub: Subscription, events: seq<ChangeEvent>,
                                   signals: seq<SignalGroup>)
  {
    exists org :: Watches(sub, org) &&
      ((exists e :: e in events && FromEvent(c, tenantId, sub, org, e)) ||
       (exists g :: g in signals && FromSignal(c, tenantId, sub, org, g)))
  }

  lemma TypesAre(attributeName: string)
    ensures forall t :: AlertTypeForAttribute(attributeName) == Some(t) <==> TypeOf(attributeName, t)
  {
    hide Contains, Lower;
    assert forall words: seq<string> :: ContainsAny(Lower(attributeName), words) <==> Names(attributeName, words) by {
      forall words: seq<string> ensures ContainsAny(Lower(attributeName), words) <==> Names(attributeName, words) {
        if w :| w in words && Contains(Lower(attributeName), w) {
          var i :| 0 <= i < |words| && words[i] == w;
        }
      }
    }
  }

  lemma WantsAre(sub: Subscription, alertType: string)
    ensures Subscribed(sub, alertType) <==> Wants(sub, alertType)
  {
    hide Lower;
    if t :| t in sub.eventTypes && Lower(t) == alertType {
      var i :| 0 <= i < |sub.eventTypes| && sub.eventTypes[i] == t;
    }
  }

  lemma WatchesAre(sub: Subscription)
    ensures forall org :: NormalizeOrg(sub.organisationNumber) == Some(org) <==> Watches(sub, org)
  {
    assert Digits("") == "";
  }

  lemma ProposedIs(c: Candidate, tenantId: string, sub: Subscription, org: string, alertType: string,
                   sourceId: string, rest: PayloadRest)
    ensures c == CandidateFor(tenantId, sub, org, alertType, sourceId, rest) <==>
            Proposed(c, tenantId, sub, org, alertType, sourceId, rest)
  {
    hide ILike;
  }

  lemma EventIs(c: Candidate, tenantId: string, sub: Subscription, org: string, e: ChangeEvent)
    ensures var mapped := AlertTypeForAttribute(e.attributeName);
            FromEvent(c, tenantId, sub, org, e) <==>
            && e.orgNumber == org && mapped.Some? && Subscribed(sub, mapped.value)
            && c == CandidateFor(tenantId, sub, org, mapped.value, e.id, e.payloadRest)
  {
    hide CandidateFor, AlertTypeForAttribute, Subscribed, TypeOf, Wants;
    TypesAre(e.attributeName);
    WantsAre(sub, c.alertType);
    ProposedIs(c, tenantId, sub, org, c.alertType, e.id, e.payloadRest);
    var mapped := AlertTypeForAttribute(e.attributeName);
    if mapped.Some? {
      WantsAre(sub, mapped.value);
      ProposedIs(c, tenantId, sub, org, mapped.value, e.id, e.payloadRest);
    }
  }

  lemma MovedIs(rows: seq<Signal>, threshold: real)
    ensures Moved(rows, threshold) <==> MovedFar(rows, threshold)
  {
  }

  lemma SignalIs(c: Candidate, tenantId: string, sub: Subscription, org: string, g: SignalGroup)
    ensures FromSignal(c, tenantId, sub, org, g) <==>
            && g.organisationNumber == org && Subscribed(sub, "signal.change") && Moved(g.rows, sub.signalDeltaMin)
            && |g.rows| >= 2
            && c == CandidateFor(tenantId, sub, org, "signal.change", g.rows[0].id, g.rows[0].payloadRest)
  {
    hide CandidateFor, Subscribed, Wants, Proposed;
    WantsAre(sub, "signal.change");
    MovedIs(g.rows, sub.signalDeltaMin);
    if |g.rows| >= 2 {
      ProposedIs(c, tenantId, sub, org, "signal.change", g.rows[0].id, g.rows[0].payloadRest);
    }
  }

  lemma {:induction false} EventsProposeExactly(tenantId: string, sub: Subscription, org: string,
                                                events: seq<ChangeEvent>, c: Candidate)
    ensures c in EventCandidates(tenantId, sub, org, events)
         <==> exists e :: e in events && FromEvent(c, tenantId, sub, org, e)
  {
    hide CandidateFor, AlertTypeForAttribute, Subscribed, FromEvent;
    if events != [] {
      var n := |events| - 1;
      EventIs(c, tenantId, sub, org, events[n]);
      EventsProposeExactly(tenantId, sub, org, events[..n], c);
      assert events == events[..n] + [events[n]];
      if e :| e in events[..n] && FromEvent(c, tenantId, sub, org, e) {
        assert e in events;
      }
      if FromEvent(c, tenantId, sub, org, events[n]) {
        assert events[n] in events;
      }
      if e :| e in events && FromEvent(c, tenantId, sub, org, e) {
        assert e in events[..n] || e == events[n];
      }
    }
  }

  lemma {:induction false} SignalsProposeExactly(tenantId: string, sub: Subscription, org: string,
                                                 signals: seq<SignalGroup>, c: Candidate)
    requires Subscribed(sub, "signal.change")
    ensures c in SignalCandidates(tenantId, sub, org, signals)
         <==> exists g :: g in signals && FromSignal(c, tenantId, sub, org, g)
  {
    hide CandidateFor, Subscribed, FromSignal, Moved;
    if signals != [] {
      var n := |signals| - 1;
      SignalIs(c, tenantId, sub, org, signals[n]);
      if Moved(signals[n].rows, sub.signalDeltaMin) {
        MovedHasRows(signals[n].rows, sub.signalDeltaMin);
      }
      SignalsProposeExactly(tenantId, sub, org, signals[..n], c);
      assert signals == signals[..n] + [signals[n]];
      if g :| g in signals[..n] && FromSignal(c, tenantId, sub, org, g) {
        assert g in signals;
      }
      if FromSignal(c, tenantId, sub, org, signals[n]) {
        assert signals[n] in signals;
      }
      if g :| g in signals && FromSignal(c, tenantId, sub, org, g) {
        assert g in signals[..n] || g == signals[n];
      }
    }
  }

  lemma SubscriptionProposesExactly(tenantId: string, sub: Subscription, events: seq<ChangeEvent>,
                                    signals: seq<SignalGroup>, c: Candidate)
    ensures c in SubscriptionCandidates(tenantId, sub, events, signals)
         <==> FromSubscription(c, tenantId, sub, events, signals)
  {
    hide CandidateFor, Subscribed, AlertTypeForAttribute, NormalizeOrg, EventCandidates, SignalCandidates, Moved,
         Watches, FromEvent, FromSignal;
    WatchesAre(sub);
    match NormalizeOrg(sub.organisationNumber)
    case None =>
    case Some(org) =>
      EventsProposeExactly(tenantId, sub, org, events, c);
      if Subscribed(sub, "signal.change") {
        SignalsProposeExactly(tenantId, sub, org, signals, c);
      } else {
        NotWanted(tenantId, sub, org, signals, c);
      }
  }

  lemma NotWanted(tenantId: string, sub: Subscription, org: string, signals: seq<SignalGroup>, c: Candidate)
    requires !Subscribed(sub, "signal.change")
    ensures !exists g :: g in signals && FromSignal(c, tenantId, sub, org, g)
  {
    WantsAre(sub, "signal.change");
  }

  /** A pass proposes an alert for exactly the events and signals its subscriptions ask for. */
  lemma {:induction false} ProposesExactly(tenantId: string, subs: seq<Subscription>, events: seq<ChangeEvent>,
                                           signals: seq<SignalGroup>, c: Candidate)
    ensures c in Candidates(tenantId, subs, events, signals) <==>
            exists sub :: sub in subs && FromSubscription(c, tenantId, sub, events, signals)
  {
    hide SubscriptionCandidates, FromSubscription;
    if subs != [] {
      var n := |subs| - 1;
      ProposesExactly(tenantId, subs[..n], events, signals, c);
      SubscriptionProposesExactly(tenantId, subs[n], events, signals, c);
      assert subs == subs[..n] + [subs[n]];
      if sub :| sub in subs[..n] && FromSubscription(c, tenantId, sub, events, signals) {
        assert sub in subs;
      }
    }
  }

  lemma CandidateAddsAtMostOne(alerts: seq<Alert>, c: Candidate, now: int)
    ensures AfterCandidate(alerts, c, now) == if Suppressed(alerts, c, now) then alerts else alerts + [AlertOf(c, now)]
  {
  }

  /** A pass only ever adds alerts. */
  lemma {:induction false} PassGrows(alerts: seq<Alert>, candidates: seq<Candidate>, clock: nat -> int, k: nat, m: nat)
    requires k <= m <= |candidates|
    ensures AfterPass(alerts, candidates[..k], clock) <= AfterPass(alerts, candidates[..m], clock)
  {
    hide AfterCandidate;
    if k < m {
      PassGrows(alerts, candidates, clock, k, m - 1);
      assert candidates[..m][..m - 1] == candidates[..m - 1];
      CandidateAddsAtMostOne(AfterPass(alerts, candidates[..m - 1], clock), candidates[m - 1], clock(m - 1));
    }
  }

  // --- Repeating a pass ---

  lemma StaysSuppressed(alerts: seq<Alert>, more: seq<Alert>, c: Candidate, now: int, sooner: int)
    requires Suppressed(alerts, c, now) && alerts <= more && sooner <= now
    ensures Suppressed(more, c, sooner)
  {
    hide IsDuplicate, SameSubject;
    var i :| 0 <= i < |alerts| && (InCooldown(alerts[i], c, now) || IsDuplicate(alerts[i], c));
    assert more[i] == alerts[i];
    assert InCooldown(more[i], c, sooner) || IsDuplicate(more[i], c);
  }

  /** After a candidate has been considered it is suppressed: if by nothing older, then by its own alert. */
  lemma SuppressedAfterwards(alerts: seq<Alert>, c: Candidate, now: int)
    requires Keyed(c)
    ensures Suppressed(AfterCandidate(alerts, c, now), c, now)
  {
    hide ILike;
    if !Suppressed(alerts, c, now) {
      assert IsDuplicate(AfterCandidate(alerts, c, now)[|alerts|], c);
    }
  }

  /** After a pass every candidate has an alert that accounts for it at the moment it was considered. */
  lemma {:induction false} PassSettles(alerts: seq<Alert>, candidates: seq<Candidate>, clock: nat -> int)
    requires AllKeyed(candidates)
    ensures forall k :: 0 <= k < |candidates| ==>
              Suppressed(AfterPass(alerts, candidates, clock), candidates[k], clock(k))
  {
    hide Suppressed, Keyed;
    if candidates != [] {
      var n := |candidates| - 1;
      var before := AfterPass(alerts, candidates[..n], clock);
      PassSettles(alerts, candidates[..n], clock);
      SuppressedAfterwards(before, candidates[n], clock(n));
      forall k | 0 <= k < n ensures Suppressed(AfterPass(alerts, candidates, clock), candidates[k], clock(k)) {
        assert candidates[..n][k] == candidates[k];
        StaysSuppressed(before, AfterPass(alerts, candidates, clock), candidates[k], clock(k), clock(k));
      }
    }
  }

  lemma {:induction false} NothingLeftToCreate(alerts: seq<Alert>, candidates: seq<Candidate>, clock: nat -> int)
    requires forall k :: 0 <= k < |candidates| ==> Suppressed(alerts, candidates[k], clock(k))
    ensures AfterPass(alerts, candidates, clock) == alerts
  {
    hide Suppressed;
    if candidates != [] {
      NothingLeftToCreate(alerts, candidates[..|candidates| - 1], clock);
    }
  }

  /** A second pass over the same data, its clock readings no later than the first pass's, creates nothing. */
  lemma SecondPassCreatesNone(alerts: seq<Alert>, tenantId: string, subs: seq<Subscription>, events: seq<ChangeEvent>,
                              signals: seq<SignalGroup>, clock: nat -> int, again: nat -> int)
    requires forall k: nat :: again(k) <= clock(k)
    ensures var candidates := Candidates(tenantId, subs, events, signals);
            var after := AfterPass(alerts, candidates, clock);
            AfterPass(after, candidates, again) == after
  {
    hide Suppressed, AfterPass, Candidates;
    var candidates := Candidates(tenantId, subs, events, signals);
    var after := AfterPass(alerts, candidates, clock);
    CandidatesKeyed(tenantId, subs, events, signals);
    PassSettles(alerts, candidates, clock);
    forall k | 0 <= k < |candidates| ensures Suppressed(after, candidates[k], again(k)) {
      StaysSuppressed(after, after, candidates[k], clock(k), again(k));
    }
    NothingLeftToCreate(after, candidates, again);
  }

  // --- A later pass ---

  /** No stored alert mentions the candidate's key: it was neither created nor a duplicate. */
  ghost predicate HeldBack(alerts: seq<Alert>, c: Candidate) {
    forall i :: 0 <= i < |alerts| ==> !IsDuplicate(alerts[i], c)
  }

  ghost predicate Cooling(alerts: seq<Alert>, c: Candidate, now: int) {
    exists i :: 0 <= i < |alerts| && InCooldown(alerts[i], c, now)
  }

  lemma SuppressedMeans(alerts: seq<Alert>, c: Candidate, now: int)
    ensures Suppressed(alerts, c, now) <==> !HeldBack(alerts, c) || Cooling(alerts, c, now)
  {
    hide InCooldown, IsDuplicate;
  }

  /** What a pass holds back, it holds back for a cooldown. */
  lemma HeldBackForCooldown(alerts: seq<Alert>, candidates: seq<Candidate>, clock: nat -> int, k: nat)
    requires AllKeyed(candidates) && k < |candidates|
    ensures var after := AfterPass(alerts, candidates, clock);
            HeldBack(after, candidates[k]) ==> Cooling(after, candidates[k], clock(k))
  {
    hide HeldBack, Cooling, AfterPass, Suppressed, Keyed;
    PassSettles(alerts, candidates, clock);
    SuppressedMeans(AfterPass(alerts, candidates, clock), candidates[k], clock(k));
  }

  /**
   A later pass over the same data, at any clock, creates nothing exactly when everything the
   first one held back is still in cooldown as it is considered again.
   */
  lemma LaterPassCreatesNoneExactly(alerts: seq<Alert>, candidates: seq<Candidate>, clock: nat -> int,
                                    again: nat -> int)
    ensures var after := AfterPass(alerts, candidates, clock);
            AfterPass(after, candidates, again) == after <==>
            forall k :: 0 <= k < |candidates| && HeldBack(after, candidates[k]) ==>
              Cooling(after, candidates[k], again(k))
  {
    hide HeldBack, Cooling, AfterPass, Suppressed, AfterCandidate;
    var after := AfterPass(alerts, candidates, clock);
    forall k | 0 <= k < |candidates|
      ensures Suppressed(after, candidates[k], again(k)) <==>
              !HeldBack(after, candidates[k]) || Cooling(after, candidates[k], again(k))
    {
      SuppressedMeans(after, candidates[k], again(k));
    }
    if k :| 0 <= k < |candidates| && !Suppressed(after, candidates[k], again(k)) {
      ReleasedIsCreated(after, candidates, again, k);
    } else {
      NothingLeftToCreate(after, candidates, again);
    }
  }

  /** A candidate that nothing suppresses makes the pass create something, itself if nothing before it. */
  lemma ReleasedIsCreated(alerts: seq<Alert>, candidates: seq<Candidate>, clock: nat -> int, k: nat)
    requires k < |candidates| && !Suppressed(alerts, candidates[k], clock(k))
    ensures |AfterPass(alerts, candidates, clock)| > |alerts|
  {
    hide Suppressed, AfterCandidate;
    var before := AfterPass(alerts, candidates[..k], clock);
    assert candidates[..k + 1][..k] == candidates[..k] && candidates[..|candidates|] == candidates;
    assert AfterPass(alerts, candidates[..k + 1], clock) == AfterCandidate(before, candidates[k], clock(k));
    if |before| == |alerts| {
      assert before == alerts;
    }
    CandidateAddsAtMostOne(before, candidates[k], clock(k));
    PassGrows(alerts, candidates, clock, k + 1, |candidates|);
  }

  /**
   What a later pass creates: only proposals the first pass held back for a cooldown that is
   over now, and each of them unless the later pass has already created one for its
   subscription and type.
   */
  lemma LaterPassCreates(alerts: seq<Alert>, candidates: seq<Candidate>, clock: nat -> int, again: nat -> int, k: nat)
    requires AllKeyed(candidates) && k < |candidates|
    ensures var after := AfterPass(alerts, candidates, clock);
            var before := AfterPass(after, candidates[..k], again);
            var released := HeldBack(after, candidates[k]) && !Cooling(after, candidates[k], again(k));
            && (!Suppressed(before, candidates[k], again(k)) ==> released && Cooling(after, candidates[k], clock(k)))
            && (released && (forall i :: |after| <= i < |before| ==> !SameSubject(before[i], candidates[k])) ==>
                  !Suppressed(before, candidates[k], again(k)))
  {
    hide AfterPass, ILike, Keyed;
    var after := AfterPass(alerts, candidates, clock);
    var before := AfterPass(after, candidates[..k], again);
    HeldBackForCooldown(alerts, candidates, clock, k);
    assert after <= before;
    SuppressedMeans(after, candidates[k], again(k));
    SuppressedMeans(before, candidates[k], again(k));
    if !Suppressed(before, candidates[k], again(k)) {
      forall i | 0 <= i < |after|
        ensures !IsDuplicate(after[i], candidates[k]) && !InCooldown(after[i], candidates[k], again(k))
      {
        assert before[i] == after[i];
      }
    }
  }
}
