/**
 Ownership edges read out of a registry organisation item
 (backend/src/ownership/ownership-bv-extract.util.ts:104-207, 232-288). What the item says
 of an owner's name, partner role and stake is given as read; the numbers and their
 fall-backs are modelled.
 */
module OwnershipExtract {
  import opened Wrappers
  import opened Strings
  import opened OwnershipLinks

  /** An `identitet.identitetsbeteckning` and the older top-level field, each if it is a string. */
  datatype Identity = Identity(identitet: Option<string>, legacy: Option<string>)

  datatype Funktionar = Funktionar(identity: Identity, insatsPct: Option<real>, partnerRole: bool, displayName: string)

  datatype Engagement = Malformed | Engagement(funktionar: Option<Funktionar>, organisation: Option<Identity>)

  datatype FiOrganisation = FiOrganisation(id: nat, payloadDay: int, identity: Identity, name: string,
                                           engagements: seq<Engagement>)

  datatype Edge = Edge(
    dedupeKey: string, ownerType: OwnerType, ownerName: string, ownerOrganisationNumber: Option<string>,
    ownerPersonnummer: Option<string>, ownedOrganisationNumber: string, ownedCompanyName: string,
    ownershipPercentage: Option<real>)

  /** `d.length >= 10`, cut to ten digits. */
  function TenDigits(raw: Option<string>): Option<string> {
    if raw.Some? && |Digits(raw.value)| >= 10 then Some(Digits(raw.value)[..10]) else None
  }

  function DigitsOfLength(raw: Option<string>, n: nat): Option<string> {
    if raw.Some? && |Digits(raw.value)| == n then Some(Digits(raw.value)) else None
  }

  function RelatedOrgDigits(organisation: Option<Identity>): Option<string> {
    if organisation.None? then None
    else if TenDigits(organisation.value.identitet).Some? then TenDigits(organisation.value.identitet)
    else TenDigits(organisation.value.legacy)
  }

  function IdentityOrgDigits(f: Funktionar): Option<string> {
    if DigitsOfLength(f.identity.identitet, 12).Some? then None
    else if TenDigits(f.identity.identitet).Some? then TenDigits(f.identity.identitet)
    else DigitsOfLength(f.identity.legacy, 10)
  }

  function IdentityPersonDigits(f: Funktionar): Option<string> {
    if DigitsOfLength(f.identity.identitet, 12).Some? then DigitsOfLength(f.identity.identitet, 12)
    else DigitsOfLength(f.identity.legacy, 12)
  }

  function SubjectOrg(item: FiOrganisation, organisationsnummer: string): string {
    if TenDigits(item.identity.identitet).Some? then TenDigits(item.identity.identitet).value
    else if TenDigits(item.identity.legacy).Some? then TenDigits(item.identity.legacy).value
    else
      var d := Digits(organisationsnummer);
      if d == "" then organisationsnummer else if |d| > 10 then d[..10] else d
  }

  function OwnedName(item: FiOrganisation, organisationsnummer: string): string {
    if item.name != "" then item.name else SubjectOrg(item, organisationsnummer)
  }

  /** The number as template literals print it. */
  function Decimal(n: nat): (s: string)
    ensures s != "" && AllDigits(s)
  {
    var last := [('0' as int + n % 10) as char];
    if n < 10 then last else Decimal(n / 10) + last
  }

  function KeyLead(subject: string): string { "bv.fi.organisationsengagemang|" + subject + "|" }

  function KeyTail(ownerType: OwnerType, org: Option<string>, person: Option<string>, name: string): string {
    (if ownerType.Company? then "company" else "person") + "|" + org.GetOr("") + "|" + person.GetOr("") + "|" + name
  }

  function DedupeKey(subject: string, rank: nat, ownerType: OwnerType, org: Option<string>, person: Option<string>,
                     name: string): string
  {
    KeyLead(subject) + Decimal(rank) + "|" + KeyTail(ownerType, org, person, name)
  }

  /** The edge of the engagement of that rank, if it tells of an owner of the subject. */
  function EdgeOf(raw: Engagement, rank: nat, subject: string, ownedName: string): Option<Edge> {
    if raw.Malformed? || raw.funktionar.None? then None else
      var f := raw.funktionar.value;
      var rel := RelatedOrgDigits(raw.organisation);
      if rel.Some? && rel.value != subject then None
      else if !f.partnerRole && f.insatsPct.None? then None
      else
        var org := IdentityOrgDigits(f);
        var ownerType := if org.Some? then Company else Person;
        var person := if ownerType.Person? then IdentityPersonDigits(f) else None;
        var key := DedupeKey(subject, rank, ownerType, org, person, f.displayName);
        Some(Edge(key, ownerType, f.displayName, org, person, subject, ownedName, f.insatsPct))
  }

  function Edges(engagements: seq<Engagement>, subject: string, ownedName: string): seq<Edge> {
    if engagements == [] then [] else
      var n := |engagements|;
      var edge := EdgeOf(engagements[n - 1], n, subject, ownedName);
      Edges(engagements[..n - 1], subject, ownedName) + if edge.Some? then [edge.value] else []
  }

  /** What the extraction of an item yields. */
  function EdgesOf(item: FiOrganisation, organisationsnummer: string): seq<Edge> {
    Edges(item.engagements, SubjectOrg(item, organisationsnummer), OwnedName(item, organisationsnummer))
  }

  // --- What the item tells, read off its fields ---

  /** The digits of a stored number; none when it is missing. */
  function NumberIn(raw: Option<string>): string {
    if raw.Some? then Digits(raw.value) else ""
  }

  /** `number` is the first ten digits the item gives for itself, or else of the number asked for. */
  ghost predicate IsSubject(item: FiOrganisation, organisationsnummer: string, number: string) {
    var own, legacy, asked := NumberIn(item.identity.identitet), NumberIn(item.identity.legacy),
                              Digits(organisationsnummer);
    if |own| >= 10 then number == own[..10]
    else if |legacy| >= 10 then number == legacy[..10]
    else if |asked| > 10 then number == asked[..10]
    else if asked != "" then number == asked
    else number == organisationsnummer
  }

  /** The related organisation names no number of ten digits, or the subject's. */
  ghost predicate Concerns(organisation: Option<Identity>, subject: string) {
    organisation.Some? ==>
      var own, legacy := NumberIn(organisation.value.identitet), NumberIn(organisation.value.legacy);
      && (|own| >= 10 ==> own[..10] == subject)
      && (|own| < 10 && |legacy| >= 10 ==> legacy[..10] == subject)
  }

  /** The engagement tells of an owner of the subject: a partner, or one with a stake. */
  ghost predicate TellsOwner(raw: Engagement, subject: string) {
    && raw.Engagement? && raw.funktionar.Some?
    && (raw.funktionar.value.partnerRole || raw.funktionar.value.insatsPct.Some?)
    && Concerns(raw.organisation, subject)
  }

  /** The edge identifies its owner as the official's numbers do: twelve digits are a person's. */
  ghost predicate Identifies(e: Edge, f: Funktionar) {
    var own, legacy := NumberIn(f.identity.identitet), NumberIn(f.identity.legacy);
    if |own| == 12 then IsPerson(e, Some(own))
    else if |own| >= 10 then IsCompany(e, own[..10])
    else if |legacy| == 10 then IsCompany(e, legacy)
    else if |legacy| == 12 then IsPerson(e, Some(legacy))
    else IsPerson(e, None)
  }

  ghost predicate IsPerson(e: Edge, number: Option<string>) {
    e.ownerType == Person && e.ownerPersonnummer == number && e.ownerOrganisationNumber == None
  }

  ghost predicate IsCompany(e: Edge, number: string) {
    e.ownerType == Company && e.ownerOrganisationNumber == Some(number) && e.ownerPersonnummer == None
  }

  /** The edge is the one the `k`-th engagement tells of. */
  ghost predicate ToldBy(e: Edge, engagements: seq<Engagement>, subject: string, ownedName: string, k: nat) {
    && 1 <= k <= |engagements| && TellsOwner(engagements[k - 1], subject)
    && var f := engagements[k - 1].funktionar.value;
    && Identifies(e, f) && e.ownerName == f.displayName && e.ownershipPercentage == f.insatsPct
    && e.ownedOrganisationNumber == subject && e.ownedCompanyName == ownedName
    && e.dedupeKey == "bv.fi.organisationsengagemang|" + subject + "|" + Decimal(k) + "|"
       + (if e.ownerType == Person then "person" else "company") + "|" + e.ownerOrganisationNumber.GetOr("") + "|"
       + e.ownerPersonnummer.GetOr("") + "|" + e.ownerName
  }

  /** `ranks` are the ranks of all engagements that tell of an owner, rising, and `out` has the edge of each. */
  ghost predicate ReadOff(out: seq<Edge>, ranks: seq<nat>, engagements: seq<Engagement>, subject: string,
                          ownedName: string)
  {
    && |ranks| == |out| && (forall i, j :: 0 <= i < j < |ranks| ==> ranks[i] < ranks[j])
    && (forall k: nat :: k in ranks <==> 1 <= k <= |engagements| && TellsOwner(engagements[k - 1], subject))
    && (forall i :: 0 <= i < |out| ==> ToldBy(out[i], engagements, subject, ownedName, ranks[i]))
  }

  /**
   `extractOwnershipEdgesFromFiOrganisationRaw`: one edge for each engagement that tells of an
   owner of the subject, in the order of the engagements.
   */
  method ExtractOwnershipEdges(item: FiOrganisation, organisationsnummer: string)
    returns (out: seq<Edge>, ghost ranks: seq<nat>)
    ensures out == EdgesOf(item, organisationsnummer)
    ensures IsSubject(item, organisationsnummer, SubjectOrg(item, organisationsnummer))
    ensures ReadOff(out, ranks, item.engagements, SubjectOrg(item, organisationsnummer),
                    if item.name == "" then SubjectOrg(item, organisationsnummer) else item.name)
    ensures forall i, j :: 0 <= i < j < |out| ==> out[i].dedupeKey != out[j].dedupeKey
  {
    hide EdgeOf, Digits, IsSubject, ReadOff;
    SubjectIsGiven(item, organisationsnummer);
    var subject := SubjectOrg(item, organisationsnummer);
    var ownedCompanyName := OwnedName(item, organisationsnummer);
    out := [];
    var rank := 0;
    while rank < |item.engagements|
      invariant 0 <= rank <= |item.engagements|
      invariant out == Edges(item.engagements[..rank], subject, ownedCompanyName)
    {
      rank := rank + 1;
      assert item.engagements[..rank][..rank - 1] == item.engagements[..rank - 1];
      var edge := EdgeOf(item.engagements[rank - 1], rank, subject, ownedCompanyName);
      if edge.Some? {
        out := out + [edge.value];
      }
    }
    assert item.engagements[..rank] == item.engagements;
    ranks := EdgesExactly(item.engagements, subject, ownedCompanyName);
    DedupeKeysDistinct(item.engagements, subject, ownedCompanyName);
  }

  lemma SubjectIsGiven(item: FiOrganisation, organisationsnummer: string)
    ensures IsSubject(item, organisationsnummer, SubjectOrg(item, organisationsnummer))
  {
    hide Digits;
  }

  lemma RelatedIsConcern(organisation: Option<Identity>, subject: string)
    ensures Concerns(organisation, subject) <==>
            RelatedOrgDigits(organisation).Some? ==> RelatedOrgDigits(organisation).value == subject
  {
    hide Digits;
  }

  lemma OwnerIsIdentified(raw: Engagement, rank: nat, subject: string, ownedName: string)
    ensures var e := EdgeOf(raw, rank, subject, ownedName);
            e.Some? ==> raw.Engagement? && raw.funktionar.Some? && Identifies(e.value, raw.funktionar.value)
  {
    hide Digits, DedupeKey, RelatedOrgDigits;
  }

  lemma KeyIsSpelled(subject: string, rank: nat, ownerType: OwnerType, org: Option<string>, person: Option<string>,
                     name: string)
    ensures DedupeKey(subject, rank, ownerType, org, person, name) ==
            "bv.fi.organisationsengagemang|" + subject + "|" + Decimal(rank) + "|"
            + (if ownerType == Person then "person" else "company") + "|" + org.GetOr("") + "|"
            + person.GetOr("") + "|" + name
  {
    hide Decimal;
  }

  lemma EdgeIsTold(engagements: seq<Engagement>, k: nat, subject: string, ownedName: string)
    requires 1 <= k <= |engagements|
    ensures var e := EdgeOf(engagements[k - 1], k, subject, ownedName);
            && (e.Some? <==> TellsOwner(engagements[k - 1], subject))
            && (e.Some? ==> ToldBy(e.value, engagements, subject, ownedName, k))
  {
    hide Identifies, DedupeKey, RelatedOrgDigits, Concerns, IdentityOrgDigits, IdentityPersonDigits;
    var raw := engagements[k - 1];
    OwnerIsIdentified(raw, k, subject, ownedName);
    var e := EdgeOf(raw, k, subject, ownedName);
    if raw.Engagement? {
      RelatedIsConcern(raw.organisation, subject);
    }
    if e.Some? {
      KeyIsSpelled(subject, k, e.value.ownerType, e.value.ownerOrganisationNumber, e.value.ownerPersonnummer,
                   e.value.ownerName);
    }
  }

  lemma {:induction false} EdgesOwnSubject(engagements: seq<Engagement>, subject: string, ownedName: string)
    ensures forall e :: e in Edges(engagements, subject, ownedName) ==> e.ownedOrganisationNumber == subject
  {
    hide Decimal, DedupeKey, RelatedOrgDigits, IdentityOrgDigits, IdentityPersonDigits;
    if engagements != [] {
      EdgesOwnSubject(engagements[..|engagements| - 1], subject, ownedName);
    }
  }

  /** A company owner has a number of ten digits and no personal number; a person's number, if known, has twelve. */
  ghost predicate OwnerIdentified(e: Edge) {
    match e.ownerType
    case Company =>
      e.ownerPersonnummer.None? && e.ownerOrganisationNumber.Some?
      && |e.ownerOrganisationNumber.value| == 10 && AllDigits(e.ownerOrganisationNumber.value)
    case Person =>
      e.ownerOrganisationNumber.None? &&
      (e.ownerPersonnummer.Some? ==> |e.ownerPersonnummer.value| == 12 && AllDigits(e.ownerPersonnummer.value))
  }

  lemma {:induction false} OwnersAreIdentified(engagements: seq<Engagement>, subject: string, ownedName: string)
    ensures forall e :: e in Edges(engagements, subject, ownedName) ==> OwnerIdentified(e)
  {
    hide DedupeKey, RelatedOrgDigits;
    if engagements != [] {
      OwnersAreIdentified(engagements[..|engagements| - 1], subject, ownedName);
    }
  }

  /** Every engagement that tells of an owner has its edge, in order, and there is no edge without one. */
  lemma {:induction false} EdgesExactly(engagements: seq<Engagement>, subject: string, ownedName: string)
    returns (ranks: seq<nat>)
    ensures ReadOff(Edges(engagements, subject, ownedName), ranks, engagements, subject, ownedName)
  {
    hide EdgeOf, TellsOwner, ToldBy;
    if engagements == [] {
      ranks := [];
    } else {
      var n := |engagements|;
      ranks := EdgesExactly(engagements[..n - 1], subject, ownedName);
      EdgeIsTold(engagements, n, subject, ownedName);
      OneMoreRank(Edges(engagements[..n - 1], subject, ownedName), ranks, engagements, subject, ownedName);
      if EdgeOf(engagements[n - 1], n, subject, ownedName).Some? {
        ranks := ranks + [n];
      }
    }
  }

  lemma OneMoreRank(out: seq<Edge>, ranks: seq<nat>, engagements: seq<Engagement>, subject: string, ownedName: string)
    requires engagements != [] && ReadOff(out, ranks, engagements[..|engagements| - 1], subject, ownedName)
    ensures var n := |engagements|;
            if TellsOwner(engagements[n - 1], subject) then
              forall e :: ToldBy(e, engagements, subject, ownedName, n) ==>
                ReadOff(out + [e], ranks + [n], engagements, subject, ownedName)
            else ReadOff(out, ranks, engagements, subject, ownedName)
  {
    hide TellsOwner, ToldBy;
    var n := |engagements|;
    var before := engagements[..n - 1];
    forall k: nat ensures k in ranks <==> 1 <= k < n && TellsOwner(engagements[k - 1], subject) {
      assert 1 <= k < n ==> before[k - 1] == engagements[k - 1];
    }
    forall i | 0 <= i < |out| ensures ranks[i] < n && ToldBy(out[i], engagements, subject, ownedName, ranks[i]) {
      assert ranks[i] in ranks;
      ToldStill(out[i], engagements, subject, ownedName, ranks[i]);
    }
  }

  lemma ToldStill(e: Edge, engagements: seq<Engagement>, subject: string, ownedName: string, k: nat)
    requires engagements != [] && ToldBy(e, engagements[..|engagements| - 1], subject, ownedName, k)
    ensures ToldBy(e, engagements, subject, ownedName, k)
  {
    hide TellsOwner, Identifies;
    assert engagements[..|engagements| - 1][k - 1] == engagements[k - 1];
  }

  // --- Dedupe keys ---

  function Value(s: string): nat
    requires AllDigits(s)
  {
    if s == "" then 0 else
      assert s[|s| - 1] in s;
      Value(s[..|s| - 1]) * 10 + (s[|s| - 1] as int - '0' as int)
  }

  lemma {:induction false} DecimalReads(n: nat)
    ensures Value(Decimal(n)) == n
  {
    var s := Decimal(n);
    if n < 10 {
      assert s[..0] == "";
    } else {
      DecimalReads(n / 10);
      assert s[..|s| - 1] == Decimal(n / 10);
    }
  }

  /** A digit string ends at the first bar, whatever follows. */
  lemma {:induction false} DigitsEndAtBar(a: string, b: string, x: string, y: string)
    requires AllDigits(a) && AllDigits(b) && a + "|" + x == b + "|" + y
    ensures a == b
  {
    var s := a + "|" + x;
    assert s[|a|] == '|' && s[|b|] == '|';
    if |a| < |b| {
      assert s[|a|] == b[|a|];
      NoBar(b, |a|);
    } else if |b| < |a| {
      assert s[|b|] == a[|b|];
      NoBar(a, |b|);
    } else {
      assert a == s[..|a|] && b == s[..|b|];
    }
  }

  lemma NoBar(s: string, i: nat)
    requires AllDigits(s) && i < |s|
    ensures s[i] != '|'
  {
    assert s[i] in s;
  }

  /** Edges of one subject with different ranks have different keys, whatever their names are. */
  lemma KeysTellRanks(subject: string, k: nat, m: nat, t: OwnerType, u: OwnerType, o: Option<string>, q: Option<string>,
                      p: Option<string>, r: Option<string>, x: string, y: string)
    requires DedupeKey(subject, k, t, o, p, x) == DedupeKey(subject, m, u, q, r, y)
    ensures k == m
  {
    hide Decimal, KeyLead, KeyTail;
    SameTail(KeyLead(subject), Decimal(k), KeyTail(t, o, p, x), Decimal(m), KeyTail(u, q, r, y));
    DigitsEndAtBar(Decimal(k), Decimal(m), KeyTail(t, o, p, x), KeyTail(u, q, r, y));
    DecimalReads(k);
    DecimalReads(m);
  }

  lemma SameTail(lead: string, a: string, x: string, b: string, y: string)
    requires lead + a + "|" + x == lead + b + "|" + y
    ensures a + "|" + x == b + "|" + y
  {
    assert a + "|" + x == (lead + a + "|" + x)[|lead|..];
    assert b + "|" + y == (lead + b + "|" + y)[|lead|..];
  }

  /** Every edge stems from the engagement whose rank its key carries. */
  ghost predicate Ranked(e: Edge, engagements: seq<Engagement>, subject: string, ownedName: string, k: nat) {
    1 <= k <= |engagements| && EdgeOf(engagements[k - 1], k, subject, ownedName) == Some(e)
  }

  lemma {:induction false} EdgeRanks(engagements: seq<Engagement>, subject: string, ownedName: string, e: Edge)
    returns (k: nat)
    requires e in Edges(engagements, subject, ownedName)
    ensures Ranked(e, engagements, subject, ownedName, k)
  {
    hide EdgeOf;
    var n := |engagements|;
    if e in Edges(engagements[..n - 1], subject, ownedName) {
      k := EdgeRanks(engagements[..n - 1], subject, ownedName, e);
    } else {
      k := n;
    }
  }

  lemma RanksTellEdges(engagements: seq<Engagement>, subject: string, ownedName: string, d: Edge, e: Edge, k: nat,
                       m: nat)
    requires Ranked(d, engagements, subject, ownedName, k) && Ranked(e, engagements, subject, ownedName, m)
    ensures d.dedupeKey == e.dedupeKey ==> k == m
  {
    hide DedupeKey, RelatedOrgDigits, IdentityOrgDigits, IdentityPersonDigits;
    if d.dedupeKey == e.dedupeKey {
      KeysTellRanks(subject, k, m, d.ownerType, e.ownerType, d.ownerOrganisationNumber, e.ownerOrganisationNumber,
                    d.ownerPersonnummer, e.ownerPersonnummer, d.ownerName, e.ownerName);
    }
  }

  /** The dedupe keys of one extraction are pairwise distinct. */
  lemma {:induction false} DedupeKeysDistinct(engagements: seq<Engagement>, subject: string, ownedName: string)
    ensures var edges := Edges(engagements, subject, ownedName);
            forall i, j :: 0 <= i < j < |edges| ==> edges[i].dedupeKey != edges[j].dedupeKey
  {
    hide EdgeOf;
    if engagements != [] {
      var n := |engagements|;
      var before := Edges(engagements[..n - 1], subject, ownedName);
      DedupeKeysDistinct(engagements[..n - 1], subject, ownedName);
      var last := EdgeOf(engagements[n - 1], n, subject, ownedName);
      if last.Some? {
        forall i | 0 <= i < |before| ensures before[i].dedupeKey != last.value.dedupeKey {
          var k := EdgeRanks(engagements[..n - 1], subject, ownedName, before[i]);
          assert Ranked(before[i], engagements, subject, ownedName, k);
          assert Ranked(last.value, engagements, subject, ownedName, n);
          RanksTellEdges(engagements, subject, ownedName, before[i], last.value, k, n);
        }
      }
    }
  }
}
