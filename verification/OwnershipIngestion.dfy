/**
 The rebuild of registry-sourced ownership links and its queue
 (backend/src/ownership/ownership-bv-ingestion.service.ts:65-111, 170-274). Row ids are
 positions; a link's number of the owned company and all the edge says sit in `edge`.
 */
module OwnershipIngestion {
  import opened Wrappers
  import opened Sequences
  import opened Strings
  import opened OwnershipExtract

  const BV_SOURCE := "bolagsverket_fi.organisationsengagemang"

  datatype StoredLink = StoredLink(
    tenantId: string, ingestionSource: string, isCurrent: bool, validFrom: int, validTo: Option<int>,
    fiParsedSnapshotId: Option<nat>, edge: Edge)

  datatype IngestRow = IngestRow(tenantId: Option<string>, organisationsnummer: Option<string>, processed: bool)

  /** The latest parsed item of a tenant's organisation, if one was parsed. */
  type Latest = (string, string) -> Option<FiOrganisation>

  /** A current registry-sourced link of the tenant into the organisation. */
  function CurrentInto(tenantId: string, org: string): StoredLink -> bool {
    (l: StoredLink) =>
      && l.tenantId == tenantId && l.edge.ownedOrganisationNumber == org
      && l.isCurrent && l.ingestionSource == BV_SOURCE
  }

  function Retire(l: StoredLink, tenantId: string, org: string, day: int): StoredLink {
    if CurrentInto(tenantId, org)(l) then l.(isCurrent := false, validTo := Some(day)) else l
  }

  function Retired(links: seq<StoredLink>, tenantId: string, org: string, day: int): (r: seq<StoredLink>)
    ensures |r| == |links|
  {
    seq(|links|, i requires 0 <= i < |links| => Retire(links[i], tenantId, org, day))
  }

  function LinkOf(edge: Edge, tenantId: string, item: FiOrganisation): StoredLink {
    StoredLink(tenantId, BV_SOURCE, true, item.payloadDay, None, Some(item.id), edge)
  }

  function LinksOf(edges: seq<Edge>, tenantId: string, item: FiOrganisation): (r: seq<StoredLink>)
    ensures |r| == |edges|
  {
    seq(|edges|, i requires 0 <= i < |edges| => LinkOf(edges[i], tenantId, item))
  }

  /** The table after a rebuild from the item. */
  function Rebuilt(links: seq<StoredLink>, tenantId: string, org: string, item: FiOrganisation): seq<StoredLink> {
    Retired(links, tenantId, org, item.payloadDay) + LinksOf(EdgesOf(item, org), tenantId, item)
  }

  function Synced(links: seq<StoredLink>, tenantId: string, organisationsnummer: string,
                  latest: Latest): seq<StoredLink>
  {
    var safeTenantId, safeOrg := Trim(tenantId), Trim(organisationsnummer);
    if safeTenantId == "" || safeOrg == "" || latest(safeTenantId, safeOrg).None? then links
    else Rebuilt(links, tenantId, safeOrg, latest(safeTenantId, safeOrg).value)
  }

  // --- The queue ---

  /** `TRIM` of the database removes spaces only. */
  predicate AllSpaces(s: string) { forall c :: c in s ==> c == ' ' }

  function Eligible(): IngestRow -> bool {
    (r: IngestRow) =>
      !r.processed && r.tenantId.Some? && r.organisationsnummer.Some? && !AllSpaces(r.organisationsnummer.value)
  }

  /** The oldest eligible rows, at most `n`. */
  function Picked(queue: seq<IngestRow>, n: nat): seq<IngestRow> {
    if queue == [] || n == 0 then []
    else if Eligible()(queue[0]) then [queue[0]] + Picked(queue[1..], n - 1)
    else Picked(queue[1..], n)
  }

  /** The queue with those rows marked processed. */
  function Marked(queue: seq<IngestRow>, n: nat): seq<IngestRow> {
    if queue == [] || n == 0 then queue
    else if Eligible()(queue[0]) then [queue[0].(processed := true)] + Marked(queue[1..], n - 1)
    else [queue[0]] + Marked(queue[1..], n)
  }

  predicate WellFormed(r: IngestRow) {
    Trim(r.tenantId.GetOr("")) != "" && Trim(r.organisationsnummer.GetOr("")) != ""
  }

  /** One picked row: skipped when malformed, without effect when its rebuild throws. */
  function AfterRow(links: seq<StoredLink>, r: IngestRow, latest: Latest, fails: bool): seq<StoredLink> {
    if !WellFormed(r) || fails then links
    else Synced(links, Trim(r.tenantId.GetOr("")), Trim(r.organisationsnummer.GetOr("")), latest)
  }

  function AfterRows(links: seq<StoredLink>, rows: seq<IngestRow>, latest: Latest, fails: nat -> bool): seq<StoredLink>
  {
    if rows == [] then links else
      var n := |rows| - 1;
      AfterRow(AfterRows(links, rows[..n], latest, fails), rows[n], latest, fails(n))
  }

  class OwnershipBvIngestion {
    var queue: seq<IngestRow>
    var links: seq<StoredLink>

    constructor ()
      ensures queue == [] && links == []
    {
      queue, links := [], [];
    }

    /** `syncFromLatestFiSnapshot` */
    method SyncFromLatestFiSnapshot(tenantId: string, organisationsnummer: string, latest: Latest)
      modifies this`links
      ensures links == Synced(old(links), tenantId, organisationsnummer, latest)
      ensures var org := Trim(organisationsnummer);
              links == if Trim(tenantId) == "" || org == "" then old(links)
                       else match latest(Trim(tenantId), org)
                         case None => old(links)
                         case Some(item) => Rebuilt(old(links), tenantId, org, item)
    {
      hide Trim, EdgesOf, SubjectOrg, Retired, LinkOf, IsSubject, ReadOff;
      var safeTenantId, safeOrg := Trim(tenantId), Trim(organisationsnummer);
      if safeTenantId == "" || safeOrg == "" {
        return;
      }
      var fi := latest(safeTenantId, safeOrg);
      if fi.None? {
        return;
      }
      var edges, _ := ExtractOwnershipEdges(fi.value, safeOrg);
      links := Retired(links, tenantId, safeOrg, fi.value.payloadDay);
      ghost var retired := links;
      var k := 0;
      while k < |edges|
        invariant 0 <= k <= |edges| && links == retired + LinksOf(edges, tenantId, fi.value)[..k]
      {
        links := links + [LinkOf(edges[k], tenantId, fi.value)];
        k := k + 1;
      }
      assert LinksOf(edges, tenantId, fi.value)[..k] == LinksOf(edges, tenantId, fi.value);
    }

    /** `drainIngestQueue`: `fails(k)` tells whether the rebuild of the k-th picked row throws. */
    method DrainIngestQueue(batchSize: nat, latest: Latest, fails: nat -> bool) returns (ok: nat)
      modifies this
      ensures queue == Marked(old(queue), batchSize)
      ensures links == AfterRows(old(links), Picked(old(queue), batchSize), latest, fails)
      ensures ok <= |Picked(old(queue), batchSize)| <= batchSize
    {
      hide Picked, Marked, AfterRow, Trim;
      PickedIsBounded(queue, batchSize);
      var rows := Picked(queue, batchSize);
      queue := Marked(queue, batchSize);
      ok := 0;
      var k := 0;
      assert rows[..0] == [];
      while k < |rows|
        invariant 0 <= k <= |rows| && ok <= k && queue == Marked(old(queue), batchSize)
        invariant links == AfterRows(old(links), rows[..k], latest, fails)
      {
        assert rows[..k + 1][..k] == rows[..k];
        ghost var before := links;
        var tenantId, org := Trim(rows[k].tenantId.GetOr("")), Trim(rows[k].organisationsnummer.GetOr(""));
        if tenantId != "" && org != "" && !fails(k) {
          SyncFromLatestFiSnapshot(tenantId, org, latest);
          ok := ok + 1;
        }
        RowStep(before, rows[k], latest, fails(k));
        k := k + 1;
      }
      assert rows[..k] == rows;
    }
  }

  lemma RowStep(links: seq<StoredLink>, r: IngestRow, latest: Latest, fails: bool)
    ensures AfterRow(links, r, latest, fails) ==
            if Trim(r.tenantId.GetOr("")) != "" && Trim(r.organisationsnummer.GetOr("")) != "" && !fails
            then Synced(links, Trim(r.tenantId.GetOr("")), Trim(r.organisationsnummer.GetOr("")), latest) else links
  {
    hide Trim, Synced;
  }

  // --- The rebuild ---

  lemma RetiredConcat(a: seq<StoredLink>, b: seq<StoredLink>, tenantId: string, org: string, day: int)
    ensures Retired(a + b, tenantId, org, day) == Retired(a, tenantId, org, day) + Retired(b, tenantId, org, day)
  {
    hide Retire;
  }

  lemma NoneLeftCurrent(links: seq<StoredLink>, tenantId: string, org: string, day: int)
    ensures forall l :: l in Retired(links, tenantId, org, day) ==> !CurrentInto(tenantId, org)(l)
    ensures Retired(Retired(links, tenantId, org, day), tenantId, org, day) == Retired(links, tenantId, org, day)
  {
  }

  lemma NewLinksOwnSubject(item: FiOrganisation, tenantId: string, org: string)
    ensures forall l :: l in LinksOf(EdgesOf(item, org), tenantId, item) ==>
              l.edge.ownedOrganisationNumber == SubjectOrg(item, org) && l.tenantId == tenantId && l.isCurrent
              && l.ingestionSource == BV_SOURCE
  {
    hide SubjectOrg, OwnedName, Edges;
    EdgesOwnSubject(item.engagements, SubjectOrg(item, org), OwnedName(item, org));
    var links := LinksOf(EdgesOf(item, org), tenantId, item);
    forall l | l in links
      ensures l.edge.ownedOrganisationNumber == SubjectOrg(item, org) && l.tenantId == tenantId && l.isCurrent
              && l.ingestionSource == BV_SOURCE
    {
      var i :| 0 <= i < |links| && links[i] == l;
      assert EdgesOf(item, org)[i] in EdgesOf(item, org);
    }
  }

  /** The item speaks of the organisation it was stored for, or of no owner at all. */
  predicate SpeaksOf(item: FiOrganisation, org: string) {
    EdgesOf(item, org) == [] || SubjectOrg(item, org) == org
  }

  /**
   After a rebuild the current registry-sourced links into the organisation are one per
   extracted edge, in order, exactly when the item's own number is the organisation's (or it
   tells of no owner).
   */
  lemma RebuildIsExact(links: seq<StoredLink>, tenantId: string, org: string, item: FiOrganisation)
    ensures Filter(CurrentInto(tenantId, org), Rebuilt(links, tenantId, org, item))
         == LinksOf(EdgesOf(item, org), tenantId, item)
       <==> SpeaksOf(item, org)
  {
    hide EdgesOf, SubjectOrg, Filter, Retired;
    var p := CurrentInto(tenantId, org);
    var retired, added := Retired(links, tenantId, org, item.payloadDay), LinksOf(EdgesOf(item, org), tenantId, item);
    FilterConcat(p, retired, added);
    NoneLeftCurrent(links, tenantId, org, item.payloadDay);
    FilterNone(p, retired);
    NewLinksOwnSubject(item, tenantId, org);
    if SubjectOrg(item, org) == org {
      FilterAll(p, added);
    } else {
      FilterNone(p, added);
    }
  }

  // --- Items as they are filed ---

  /** The loader files an item under its `identitet` number, or else under its payload's. */
  predicate FiledUnder(item: FiOrganisation, org: string) {
    item.identity.identitet.None? || item.identity.identitet.value == org
  }

  /**
   What a caller can check before asking for an organisation's rebuild: whether its number is
   the one links are made for.
   */
  predicate NumberFits(item: FiOrganisation, org: string) {
    if TenDigits(item.identity.identitet).Some? then |org| == 10 && AllDigits(org)
    else if TenDigits(item.identity.legacy).Some? then org == TenDigits(item.identity.legacy).value
    else Digits(org) == "" || (AllDigits(org) && |org| <= 10)
  }

  lemma FittingNumberIsSubject(item: FiOrganisation, org: string)
    requires FiledUnder(item, org)
    ensures SubjectOrg(item, org) == org <==> NumberFits(item, org)
  {
    hide Digits;
    DigitsAreShorter(org);
    if TenDigits(item.identity.identitet).Some? {
      assert SubjectOrg(item, org) == Digits(org)[..10];
      if SubjectOrg(item, org) == org {
        assert |org| == 10 && Digits(org) == org;
      }
    } else if TenDigits(item.identity.legacy).None? && Digits(org) != "" && SubjectOrg(item, org) == org {
      assert |Digits(org)| <= 10;
    }
  }

  /**
   For an item as it is filed, the rebuild is exact if and only if it tells of no owner or the
   organisation's number fits: ten digits, when the item has an `identitet` of at least ten.
   */
  lemma FiledRebuildIsExact(links: seq<StoredLink>, tenantId: string, org: string, item: FiOrganisation)
    requires FiledUnder(item, org)
    ensures Filter(CurrentInto(tenantId, org), Rebuilt(links, tenantId, org, item))
         == LinksOf(EdgesOf(item, org), tenantId, item)
       <==> EdgesOf(item, org) == [] || NumberFits(item, org)
  {
    hide EdgesOf, SubjectOrg, Filter, Rebuilt, LinksOf, NumberFits, FiledUnder;
    RebuildIsExact(links, tenantId, org, item);
    FittingNumberIsSubject(item, org);
  }

  /** An item with one partner. */
  function OnePartner(identity: Identity): FiOrganisation {
    FiOrganisation(1, 0, identity, "B",
                   [Engagement(Some(Funktionar(Identity(Some("191212121212"), None), None, true, "A")), None)])
  }

  lemma PartnerIsExtracted(identity: Identity, org: string)
    ensures EdgesOf(OnePartner(identity), org) != []
  {
    hide DedupeKey, IdentityOrgDigits, IdentityPersonDigits, SubjectOrg;
    var item := OnePartner(identity);
    var e := EdgeOf(item.engagements[0], 1, SubjectOrg(item, org), OwnedName(item, org));
    assert e.Some?;
  }

  /**
   An item that names company 5560000002 at its top level only is filed under its payload's
   company 5560000001, whose rebuild is then without the partner.
   */
  lemma ForeignItemMisses(links: seq<StoredLink>, tenantId: string)
    ensures var item, org := OnePartner(Identity(None, Some("5560000002"))), "5560000001";
            && FiledUnder(item, org)
            && Filter(CurrentInto(tenantId, org), Rebuilt(links, tenantId, org, item))
               != LinksOf(EdgesOf(item, org), tenantId, item)
  {
    var identity, org := Identity(None, Some("5560000002")), "5560000001";
    PartnerIsExtracted(identity, org);
    ForeignNumber();
    assert FiledUnder(OnePartner(identity), org);
    hide *;
    FiledRebuildIsExact(links, tenantId, org, OnePartner(identity));
  }

  lemma ForeignNumber()
    ensures !NumberFits(OnePartner(Identity(None, Some("5560000002"))), "5560000001")
  {
    hide Digits;
    assert Digits("5560000002") == "5560000002" && "5560000002"[..10] == "5560000002";
    assert "5560000002"[9] != "5560000001"[9];
  }

  /** An item whose `identitet` has the twelve digits it is asked for by misses its partner too. */
  lemma TwelveDigitItemMisses(links: seq<StoredLink>, tenantId: string)
    ensures var item, org := OnePartner(Identity(Some("165560000001"), None)), "165560000001";
            && FiledUnder(item, org)
            && Filter(CurrentInto(tenantId, org), Rebuilt(links, tenantId, org, item))
               != LinksOf(EdgesOf(item, org), tenantId, item)
  {
    var identity, org := Identity(Some("165560000001"), None), "165560000001";
    PartnerIsExtracted(identity, org);
    TwelveDigitsDoNotFit();
    assert FiledUnder(OnePartner(identity), org);
    hide *;
    FiledRebuildIsExact(links, tenantId, org, OnePartner(identity));
  }

  lemma TwelveDigitsDoNotFit()
    ensures !NumberFits(OnePartner(Identity(Some("165560000001"), None)), "165560000001")
  {
    hide Digits;
    assert AllDigits("165560000001");
    assert Digits("165560000001") == "165560000001";
  }

  function CurrentOf(tenantId: string): StoredLink -> bool {
    (l: StoredLink) => l.tenantId == tenantId && l.isCurrent && l.ingestionSource == BV_SOURCE
  }

  lemma AddedRetired(item: FiOrganisation, tenantId: string, org: string)
    ensures var added := LinksOf(EdgesOf(item, org), tenantId, item);
            Filter(CurrentOf(tenantId), Retired(added, tenantId, org, item.payloadDay)) ==
            if SubjectOrg(item, org) == org then [] else added
    ensures Filter(CurrentOf(tenantId), LinksOf(EdgesOf(item, org), tenantId, item))
         == LinksOf(EdgesOf(item, org), tenantId, item)
  {
    hide EdgesOf, SubjectOrg, Filter, LinksOf;
    var added := LinksOf(EdgesOf(item, org), tenantId, item);
    var again := Retired(added, tenantId, org, item.payloadDay);
    NewLinksOwnSubject(item, tenantId, org);
    FilterAll(CurrentOf(tenantId), added);
    assert forall i :: 0 <= i < |added| ==> added[i] in added;
    if SubjectOrg(item, org) == org {
      FilterNone(CurrentOf(tenantId), again);
    } else {
      assert again == added;
    }
  }

  /** A second rebuild from the same item leaves the same current links exactly under the same condition. */
  lemma RebuildIsIdempotent(links: seq<StoredLink>, tenantId: string, org: string, item: FiOrganisation)
    ensures var once := Rebuilt(links, tenantId, org, item);
            Filter(CurrentOf(tenantId), Rebuilt(once, tenantId, org, item)) == Filter(CurrentOf(tenantId), once) <==>
            SpeaksOf(item, org)
  {
    hide EdgesOf, SubjectOrg, Filter, LinksOf, Retired, CurrentInto, CurrentOf;
    var p, day := CurrentOf(tenantId), item.payloadDay;
    var retired, added := Retired(links, tenantId, org, day), LinksOf(EdgesOf(item, org), tenantId, item);
    RetiredConcat(retired, added, tenantId, org, day);
    NoneLeftCurrent(links, tenantId, org, day);
    FilterConcat(p, retired, added);
    FilterConcat(p, retired + Retired(added, tenantId, org, day), added);
    FilterConcat(p, retired, Retired(added, tenantId, org, day));
    AddedRetired(item, tenantId, org);
    SameLength(Filter(p, retired), Filter(p, Retired(added, tenantId, org, day)), added);
  }

  lemma SameLength<T>(a: seq<T>, b: seq<T>, c: seq<T>)
    ensures a + b + c == a + c <==> b == []
  {
    if a + b + c == a + c {
      assert |a + b + c| == |a + c|;
    } else {
      assert b == [] ==> a + b == a;
    }
  }

  /** Not a registry-sourced link of the tenant into either of the two numbers. */
  function Elsewhere(tenantId: string, org: string, subject: string): StoredLink -> bool {
    (l: StoredLink) => l.tenantId != tenantId || l.ingestionSource != BV_SOURCE
                       || (l.edge.ownedOrganisationNumber != org && l.edge.ownedOrganisationNumber != subject)
  }

  /**
   Links of other tenants, sources and companies are untouched; the stored links stay where
   they are, and only the current registry-sourced ones into the organisation are closed, as
   of the item's day; behind them stands one current link for each edge, valid from that day.
   */
  lemma OthersUntouched(links: seq<StoredLink>, tenantId: string, org: string, item: FiOrganisation)
    ensures var elsewhere := Elsewhere(tenantId, org, SubjectOrg(item, org));
            Filter(elsewhere, Rebuilt(links, tenantId, org, item)) == Filter(elsewhere, links)
    ensures forall i :: 0 <= i < |links| && !CurrentInto(tenantId, org)(links[i]) ==>
              Rebuilt(links, tenantId, org, item)[i] == links[i]
    ensures forall i :: 0 <= i < |links| && CurrentInto(tenantId, org)(links[i]) ==>
              Rebuilt(links, tenantId, org, item)[i] == links[i].(isCurrent := false, validTo := Some(item.payloadDay))
    ensures var edges, rebuilt := EdgesOf(item, org), Rebuilt(links, tenantId, org, item);
            && |rebuilt| == |links| + |edges|
            && forall j :: 0 <= j < |edges| ==>
                 var l := rebuilt[|links| + j];
                 && l.edge == edges[j] && l.tenantId == tenantId && l.isCurrent
                 && l.ingestionSource == "bolagsverket_fi.organisationsengagemang"
                 && l.validFrom == item.payloadDay && l.validTo == None && l.fiParsedSnapshotId == Some(item.id)
  {
    hide EdgesOf, SubjectOrg, Filter;
    var p := Elsewhere(tenantId, org, SubjectOrg(item, org));
    var retired, added := Retired(links, tenantId, org, item.payloadDay), LinksOf(EdgesOf(item, org), tenantId, item);
    FilterConcat(p, retired, added);
    NewLinksOwnSubject(item, tenantId, org);
    FilterNone(p, added);
    FilterUnseen(p, retired, links);
    assert Filter(p, retired) + [] == Filter(p, retired);
  }

  /** A twelve-digit own number is cut to ten, so it never equals a stored number of twelve. */
  lemma TwelveDigitsMiss(item: FiOrganisation, org: string)
    requires |org| == 12 && AllDigits(org) && EdgesOf(item, org) != []
    ensures !SpeaksOf(item, org)
  {
    hide EdgesOf;
  }

  // --- Handing over queue rows ---

  lemma {:induction false} PickedIsBounded(queue: seq<IngestRow>, n: nat)
    ensures |Picked(queue, n)| <= n
  {
    if queue != [] && n > 0 {
      PickedIsBounded(queue[1..], if Eligible()(queue[0]) then n - 1 else n);
    }
  }

  /** What is picked and what stays eligible make up what was eligible. */
  lemma {:induction false} PickedOrKept(queue: seq<IngestRow>, n: nat)
    ensures Picked(queue, n) + Filter(Eligible(), Marked(queue, n)) == Filter(Eligible(), queue)
    ensures |Picked(queue, n)| == n || Filter(Eligible(), Marked(queue, n)) == []
  {
    hide Filter, AllSpaces;
    if queue == [] || n == 0 {
      assert Picked(queue, n) + Filter(Eligible(), queue) == Filter(Eligible(), queue);
      FilterNone(Eligible(), []);
    } else if Eligible()(queue[0]) {
      var rest, kept := Picked(queue[1..], n - 1), Marked(queue[1..], n - 1);
      PickedOrKept(queue[1..], n - 1);
      FilterFirst(Eligible(), queue);
      FilterOnto(Eligible(), queue[0].(processed := true), kept);
      assert [queue[0]] + rest + Filter(Eligible(), kept) == [queue[0]] + (rest + Filter(Eligible(), kept));
    } else {
      PickedOrKept(queue[1..], n);
      FilterFirst(Eligible(), queue);
      FilterOnto(Eligible(), queue[0], Marked(queue[1..], n));
    }
  }

  datatype QueueStep = Enqueue(row: IngestRow) | Drain(batchSize: nat)

  function QueueAfter(steps: seq<QueueStep>): seq<IngestRow> {
    if steps == [] then [] else
      var before := QueueAfter(steps[..|steps| - 1]);
      match steps[|steps| - 1]
      case Enqueue(row) => before + [row]
      case Drain(n) => Marked(before, n)
  }

  /** All rows handed over to a rebuild, in order. */
  function HandedOver(steps: seq<QueueStep>): seq<IngestRow> {
    if steps == [] then [] else
      var last := steps[|steps| - 1];
      HandedOver(steps[..|steps| - 1]) +
        if last.Drain? then Picked(QueueAfter(steps[..|steps| - 1]), last.batchSize) else []
  }

  function Enqueued(steps: seq<QueueStep>): seq<IngestRow> {
    if steps == [] then [] else
      var last := steps[|steps| - 1];
      Enqueued(steps[..|steps| - 1]) + if last.Enqueue? then [last.row] else []
  }

  /** Not processed, with a tenant and a number that is more than spaces. */
  ghost predicate Waits(r: IngestRow) {
    && !r.processed && r.tenantId.Some? && r.organisationsnummer.Some?
    && exists c :: c in r.organisationsnummer.value && c != ' '
  }

  lemma EligibleRows(rows: seq<IngestRow>)
    ensures forall r :: r in Filter(Eligible(), rows) <==> r in rows && Waits(r)
  {
    FilterMembers(Eligible(), rows);
  }

  /**
   Every eligible row is handed over at most once, in the order it was enqueued, and the rest
   is still waiting; so a row whose rebuild throws is not tried again.
   */
  lemma {:induction false} HandedOverOnce(steps: seq<QueueStep>)
    ensures HandedOver(steps) + Filter(Eligible(), QueueAfter(steps)) == Filter(Eligible(), Enqueued(steps))
    ensures forall r :: r in HandedOver(steps) + Filter(Eligible(), QueueAfter(steps)) <==>
              r in Enqueued(steps) && Waits(r)
  {
    EligibleRows(Enqueued(steps));
    hide Eligible, Picked, Marked, Filter;
    if steps == [] {
      FilterNone(Eligible(), QueueAfter(steps));
      FilterNone(Eligible(), Enqueued(steps));
    } else {
      var n := |steps| - 1;
      var before, done := QueueAfter(steps[..n]), HandedOver(steps[..n]);
      HandedOverOnce(steps[..n]);
      match steps[n]
      case Enqueue(row) =>
        FilterConcat(Eligible(), before, [row]);
        FilterConcat(Eligible(), Enqueued(steps[..n]), [row]);
        assert done + [] == done;
        assert done + (Filter(Eligible(), before) + Filter(Eligible(), [row]))
            == done + Filter(Eligible(), before) + Filter(Eligible(), [row]);
      case Drain(k) =>
        PickedOrKept(before, k);
        assert Enqueued(steps[..n]) + [] == Enqueued(steps[..n]);
        assert done + Picked(before, k) + Filter(Eligible(), Marked(before, k))
            == done + (Picked(before, k) + Filter(Eligible(), Marked(before, k)));
    }
  }
}
