/**
 Alert creation with cooldown and deduplication
 (backend/src/monitoring/monitoring.service.ts:30-34, 157-220, 222-345).
 */
module Alerts {
  import opened Wrappers
  import opened Strings

  /** A stored alert. `detection` is what the detector created it from; empty for alerts of other origin. */
  datatype Alert = Alert(
    tenantId: string, subscriptionId: string, alertType: string, organisationNumber: Option<string>,
    payloadText: string, createdAt: int, detection: Option<Detection>)

  datatype Detection = Detection(dedupeKey: string, cooldownMinutes: int)

  /** The input of `createAlertIfMissing`; `payloadText` is its payload as the database casts it to text. */
  datatype Candidate = Candidate(
    tenantId: string, subscriptionId: string, alertType: string, organisationNumber: Option<string>,
    dedupeKey: string, payloadText: string, cooldownMinutes: int)

  const MS_PER_MINUTE: int := 60 * 1000

  /** `CAST(a.payload AS text) ILIKE '%needle%'`, for needles without wildcards. */
  predicate ILike(text: string, needle: string) {
    Contains(Lower(text), Lower(needle))
  }

  predicate SameSubject(a: Alert, c: Candidate) {
    a.tenantId == c.tenantId && a.subscriptionId == c.subscriptionId && a.alertType == c.alertType
  }

  predicate InCooldown(a: Alert, c: Candidate, now: int) {
    && SameSubject(a, c) && a.organisationNumber.GetOr("") == c.organisationNumber.GetOr("")
    && a.createdAt >= now - c.cooldownMinutes * MS_PER_MINUTE
  }

  predicate IsDuplicate(a: Alert, c: Candidate) {
    c.dedupeKey != "" && SameSubject(a, c) && ILike(a.payloadText, c.dedupeKey)
  }

  /** Whether a stored alert keeps the candidate from being created. */
  predicate Suppressed(alerts: seq<Alert>, c: Candidate, now: int) {
    exists i :: 0 <= i < |alerts| && (InCooldown(alerts[i], c, now) || IsDuplicate(alerts[i], c))
  }

  /** An alert of the same subscription, type and organisation no older than the cooldown. */
  ghost predicate Cooling(a: Alert, c: Candidate, now: int) {
    && a.tenantId == c.tenantId && a.subscriptionId == c.subscriptionId && a.alertType == c.alertType
    && (if a.organisationNumber.Some? then a.organisationNumber.value else "")
       == (if c.organisationNumber.Some? then c.organisationNumber.value else "")
    && now - a.createdAt <= c.cooldownMinutes * 60000
  }

  /** An alert of the same subscription and type whose text has the dedupe key in it, up to case. */
  ghost predicate SaysAlready(a: Alert, c: Candidate) {
    && a.tenantId == c.tenantId && a.subscriptionId == c.subscriptionId && a.alertType == c.alertType
    && c.dedupeKey != "" && Contains(Lower(a.payloadText), Lower(c.dedupeKey))
  }

  ghost predicate Carries(a: Alert, c: Candidate, now: int) {
    && a.tenantId == c.tenantId && a.subscriptionId == c.subscriptionId && a.alertType == c.alertType
    && a.organisationNumber == c.organisationNumber && a.payloadText == c.payloadText && a.createdAt == now
    && a.detection == Some(Detection(c.dedupeKey, c.cooldownMinutes))
  }

  lemma HeldBackIs(alerts: seq<Alert>, c: Candidate, now: int)
    ensures Suppressed(alerts, c, now) <==> exists a :: a in alerts && (Cooling(a, c, now) || SaysAlready(a, c))
  {
    hide Contains, Lower;
    if Suppressed(alerts, c, now) {
      var i :| 0 <= i < |alerts| && (InCooldown(alerts[i], c, now) || IsDuplicate(alerts[i], c));
      assert Cooling(alerts[i], c, now) || SaysAlready(alerts[i], c);
    }
    if a :| a in alerts && (Cooling(a, c, now) || SaysAlready(a, c)) {
      var i :| 0 <= i < |alerts| && alerts[i] == a;
      assert InCooldown(alerts[i], c, now) || IsDuplicate(alerts[i], c);
    }
  }

  function AlertOf(c: Candidate, now: int): Alert {
    Alert(c.tenantId, c.subscriptionId, c.alertType, c.organisationNumber, c.payloadText, now,
          Some(Detection(c.dedupeKey, c.cooldownMinutes)))
  }

  function AfterCandidate(alerts: seq<Alert>, c: Candidate, now: int): seq<Alert> {
    if Suppressed(alerts, c, now) then alerts else alerts + [AlertOf(c, now)]
  }

  /** The clock is read anew for every candidate: `clock(k)` is the reading for the k-th. */
  function AfterPass(alerts: seq<Alert>, candidates: seq<Candidate>, clock: nat -> int): (r: seq<Alert>)
    ensures alerts <= r
  {
    if candidates == [] then alerts else
      var n := |candidates| - 1;
      AfterCandidate(AfterPass(alerts, candidates[..n], clock), candidates[n], clock(n))
  }

  // --- What a detection pass looks at ---

  datatype PayloadRest = PayloadRest(before: string, after: string)

  datatype ChangeEvent = ChangeEvent(id: string, orgNumber: string, attributeName: string, payloadRest: PayloadRest)

  /** The signals of one organisation and type, newest first; scores may be missing. */
  datatype SignalGroup = SignalGroup(organisationNumber: string, rows: seq<Signal>)
  datatype Signal = Signal(id: string, score: Option<real>, payloadRest: PayloadRest)

  datatype Subscription = Subscription(
    id: string, organisationNumber: Option<string>, eventTypes: seq<string>, cooldownMinutes: int, signalDeltaMin: real)

  function NormalizeOrg(raw: Option<string>): Option<string> {
    var n := Digits(raw.GetOr(""));
    if |n| == 10 || |n| == 12 then Some(n) else None
  }

  predicate ContainsAny(s: string, words: seq<string>) {
    exists i :: 0 <= i < |words| && Contains(s, words[i])
  }

  const OWNERSHIP_WORDS := ["owner", "ownership", "beneficial", "verklig", "huvudman", "control"]
  const BOARD_WORDS := ["officer", "director", "board", "styrelse", "firmateckn", "funktionar", "funktion\U{00E4}r"]
  const FILING_WORDS := ["arende", "dokument", "document", "filing", "status", "snapshot", "registrering"]

  function AlertTypeForAttribute(attributeName: string): Option<string> {
    var a := Lower(attributeName);
    if ContainsAny(a, OWNERSHIP_WORDS) then Some("ownership.change")
    else if ContainsAny(a, BOARD_WORDS) then Some("board.change")
    else if ContainsAny(a, FILING_WORDS) then Some("filings.change")
    else None
  }

  predicate Subscribed(sub: Subscription, alertType: string) {
    exists i :: 0 <= i < |sub.eventTypes| && Lower(sub.eventTypes[i]) == alertType
  }

  /** The payload as text: the dedupe key is written out somewhere in it. */
  function PayloadText(dedupeKey: string, rest: PayloadRest): (text: string)
    ensures ILike(text, dedupeKey)
  {
    WrittenOut(rest.before, dedupeKey, rest.after);
    rest.before + dedupeKey + rest.after
  }

  lemma WrittenOut(a: string, key: string, b: string)
    ensures a + key + b == a + (key + b) && ILike(a + key + b, key)
  {
    var text := Lower(a + key + b);
    assert Lower(key) <= text[|a|..];
    assert a + key + b == a + (key + b);
  }

  function CandidateFor(tenantId: string, sub: Subscription, org: string, alertType: string, sourceId: string,
                        rest: PayloadRest): Candidate
  {
    var key := alertType + ":" + sourceId;
    Candidate(tenantId, sub.id, alertType, Some(org), key, PayloadText(key, rest), sub.cooldownMinutes)
  }

  function EventCandidates(tenantId: string, sub: Subscription, org: string, events: seq<ChangeEvent>): seq<Candidate> {
    if events == [] then [] else
      var e := events[|events| - 1];
      var mapped := AlertTypeForAttribute(e.attributeName);
      EventCandidates(tenantId, sub, org, events[..|events| - 1]) +
      if e.orgNumber == org && mapped.Some? && Subscribed(sub, mapped.value)
      then [CandidateFor(tenantId, sub, org, mapped.value, e.id, e.payloadRest)] else []
  }

  /** The newest signal moved by at least the threshold against the one before it. */
  predicate Moved(rows: seq<Signal>, threshold: real) {
    && |rows| >= 2 && rows[0].score.Some? && rows[1].score.Some?
    && var delta := rows[0].score.value - rows[1].score.value;
       (if delta < 0.0 then -delta else delta) >= threshold
  }

  function SignalCandidates(tenantId: string, sub: Subscription, org: string, signals: seq<SignalGroup>): seq<Candidate>
  {
    if signals == [] then [] else
      var g := signals[|signals| - 1];
      SignalCandidates(tenantId, sub, org, signals[..|signals| - 1]) +
      if g.organisationNumber == org && Moved(g.rows, sub.signalDeltaMin)
      then [CandidateFor(tenantId, sub, org, "signal.change", g.rows[0].id, g.rows[0].payloadRest)] else []
  }

  function SubscriptionCandidates(tenantId: string, sub: Subscription, events: seq<ChangeEvent>,
                                  signals: seq<SignalGroup>): seq<Candidate>
  {
    match NormalizeOrg(sub.organisationNumber)
    case None => []
    case Some(org) =>
      EventCandidates(tenantId, sub, org, events) +
      if Subscribed(sub, "signal.change") then SignalCandidates(tenantId, sub, org, signals) else []
  }

  /** What a pass proposes, in the order it proposes it. */
  function Candidates(tenantId: string, subs: seq<Subscription>, events: seq<ChangeEvent>,
                      signals: seq<SignalGroup>): seq<Candidate>
  {
    if subs == [] then [] else
      Candidates(tenantId, subs[..|subs| - 1], events, signals) +
      SubscriptionCandidates(tenantId, subs[|subs| - 1], events, signals)
  }

  class MonitoringService {
    var alerts: seq<Alert>

    constructor ()
      ensures alerts == []
    {
      alerts := [];
    }

    method CreateAlertIfMissing(c: Candidate, now: int) returns (created: bool)
      modifies this
      ensures alerts == AfterCandidate(old(alerts), c, now)
      ensures created <==> !Suppressed(old(alerts), c, now)
      ensures created <==> !exists a :: a in old(alerts) && (Cooling(a, c, now) || SaysAlready(a, c))
      ensures created ==> |alerts| == |old(alerts)| + 1 && Carries(alerts[|old(alerts)|], c, now)
    {
      HeldBackIs(alerts, c, now);
      if i :| 0 <= i < |alerts| && InCooldown(alerts[i], c, now) {
        return false;
      }
      if c.dedupeKey != "" {
        if i :| 0 <= i < |alerts| && IsDuplicate(alerts[i], c) {
          return false;
        }
      }
      alerts := alerts + [AlertOf(c, now)];
      return true;
    }

    /** `detectChangesAndCreateAlerts` over the events and signals it has read. */
    method DetectChangesAndCreateAlerts(tenantId: string, subs: seq<Subscription>, events: seq<ChangeEvent>,
                                        signals: seq<SignalGroup>, clock: nat -> int)
      returns (created: nat)
      modifies this
      ensures alerts == AfterPass(old(alerts), Candidates(tenantId, subs, events, signals), clock)
      ensures created == |alerts| - |old(alerts)|
    {
      hide *;
      ghost var before := alerts;
      ghost var done: seq<Candidate> := [];
      created := 0;
      var seen: nat := 0;
      NothingProposed(before, tenantId, subs[..0], events[..0], signals[..0], clock);
      var i := 0;
      while i < |subs|
        invariant 0 <= i <= |subs| && done == Candidates(tenantId, subs[..i], events, signals)
        invariant alerts == AfterPass(before, done, clock) && created == |alerts| - |before| && seen == |done|
      {
        var sub := subs[i];
        ghost var doneBefore := done;
        var org := NormalizeOrg(sub.organisationNumber);
        if org.Some? {
          var j := 0;
          NothingProposed(before, tenantId, subs[..0], events[..0], signals[..0], clock);
          EmptyProposals(tenantId, sub, org.value, events[..0], signals[..0]);
          assert doneBefore + [] == doneBefore;
          while j < |events|
            invariant 0 <= j <= |events| && done == doneBefore + EventCandidates(tenantId, sub, org.value, events[..j])
            invariant alerts == AfterPass(before, done, clock) && created == |alerts| - |before| && seen == |done|
          {
            var evt := events[j];
            var mapped := AlertTypeForAttribute(evt.attributeName);
            NextEvent(tenantId, sub, org.value, events, j);
            if evt.orgNumber == org.value && mapped.Some? && Subscribed(sub, mapped.value) {
              var c := CandidateFor(tenantId, sub, org.value, mapped.value, evt.id, evt.payloadRest);
              OneMoreProposal(before, done, c, clock);
              var ok := CreateAlertIfMissing(c, clock(seen));
              done, seen := done + [c], seen + 1;
              created := if ok then created + 1 else created;
            }
            j := j + 1;
          }
          assert events[..j] == events;
          if Subscribed(sub, "signal.change") {
            ghost var doneEvents := done;
            var k := 0;
            assert doneEvents + [] == doneEvents;
            while k < |signals|
              invariant 0 <= k <= |signals|
                        && done == doneEvents + SignalCandidates(tenantId, sub, org.value, signals[..k])
              invariant alerts == AfterPass(before, done, clock) && created == |alerts| - |before| && seen == |done|
            {
              var g := signals[k];
              NextSignal(tenantId, sub, org.value, signals, k);
              if g.organisationNumber == org.value && Moved(g.rows, sub.signalDeltaMin) {
                MovedHasRows(g.rows, sub.signalDeltaMin);
                var c := CandidateFor(tenantId, sub, org.value, "signal.change", g.rows[0].id, g.rows[0].payloadRest);
                OneMoreProposal(before, done, c, clock);
                var ok := CreateAlertIfMissing(c, clock(seen));
                done, seen := done + [c], seen + 1;
                created := if ok then created + 1 else created;
              }
              k := k + 1;
            }
            assert signals[..k] == signals;
          }
        }
        NextSubscription(tenantId, subs, i, events, signals);
        i := i + 1;
      }
      assert subs[..i] == subs;
    }
  }

  // --- Steps of a pass ---

  lemma NothingProposed(alerts: seq<Alert>, tenantId: string, subs: seq<Subscription>, events: seq<ChangeEvent>,
                        signals: seq<SignalGroup>, clock: nat -> int)
    requires subs == []
    ensures Candidates(tenantId, subs, events, signals) == [] && AfterPass(alerts, [], clock) == alerts
    ensures forall e, s :: Candidates(tenantId, subs, e, s) == []
  {
  }

  lemma EmptyProposals(tenantId: string, sub: Subscription, org: string, events: seq<ChangeEvent>,
                       signals: seq<SignalGroup>)
    requires events == [] && signals == []
    ensures EventCandidates(tenantId, sub, org, events) == [] && SignalCandidates(tenantId, sub, org, signals) == []
  {
  }

  lemma OneMoreProposal(alerts: seq<Alert>, done: seq<Candidate>, c: Candidate, clock: nat -> int)
    ensures AfterPass(alerts, done + [c], clock) == AfterCandidate(AfterPass(alerts, done, clock), c, clock(|done|))
    ensures |AfterPass(alerts, done + [c], clock)| ==
            |AfterPass(alerts, done, clock)| +
              if Suppressed(AfterPass(alerts, done, clock), c, clock(|done|)) then 0 else 1
  {
    hide Suppressed;
    assert (done + [c])[..|done|] == done;
  }

  lemma NextEvent(tenantId: string, sub: Subscription, org: string, events: seq<ChangeEvent>, j: nat)
    requires j < |events|
    ensures var e, mapped := events[j], AlertTypeForAttribute(events[j].attributeName);
            EventCandidates(tenantId, sub, org, events[..j + 1]) == EventCandidates(tenantId, sub, org, events[..j]) +
            if e.orgNumber == org && mapped.Some? && Subscribed(sub, mapped.value)
            then [CandidateFor(tenantId, sub, org, mapped.value, e.id, e.payloadRest)] else []
  {
    hide AlertTypeForAttribute, Subscribed, CandidateFor;
    assert events[..j + 1][..j] == events[..j];
  }

  lemma NextSignal(tenantId: string, sub: Subscription, org: string, signals: seq<SignalGroup>, k: nat)
    requires k < |signals|
    ensures var g := signals[k];
            SignalCandidates(tenantId, sub, org, signals[..k + 1])
              == SignalCandidates(tenantId, sub, org, signals[..k]) +
            if g.organisationNumber == org && Moved(g.rows, sub.signalDeltaMin)
            then (MovedHasRows(g.rows, sub.signalDeltaMin);
                  [CandidateFor(tenantId, sub, org, "signal.change", g.rows[0].id, g.rows[0].payloadRest)]) else []
  {
    hide CandidateFor;
    assert signals[..k + 1][..k] == signals[..k];
  }

  lemma MovedHasRows(rows: seq<Signal>, threshold: real)
    requires Moved(rows, threshold)
    ensures |rows| >= 2
  {
  }

  lemma NextSubscription(tenantId: string, subs: seq<Subscription>, i: nat, events: seq<ChangeEvent>,
                         signals: seq<SignalGroup>)
    requires i < |subs|
    ensures Candidates(tenantId, subs[..i + 1], events, signals)
         == Candidates(tenantId, subs[..i], events, signals) +
           SubscriptionCandidates(tenantId, subs[i], events, signals)
    ensures NormalizeOrg(subs[i].organisationNumber).None? ==>
              SubscriptionCandidates(tenantId, subs[i], events, signals) == []
    ensures NormalizeOrg(subs[i].organisationNumber).Some? ==>
              SubscriptionCandidates(tenantId, subs[i], events, signals)
              == EventCandidates(tenantId, subs[i], NormalizeOrg(subs[i].organisationNumber).value, events) +
                 if Subscribed(subs[i], "signal.change")
                 then SignalCandidates(tenantId, subs[i], NormalizeOrg(subs[i].organisationNumber).value, signals)
                 else []
  {
    hide NormalizeOrg, Subscribed, EventCandidates, SignalCandidates;
    assert subs[..i + 1][..i] == subs[..i];
  }
}
