/**
 The parsed snapshot tables, their loaders and the "latest" views
 (backend/src/migrations/1000000000026-AddBvParsedPayloadTables.ts). A row's id is its
 position in its table; rows are only ever appended.
 */
module BvParsed {
  import opened Wrappers

  /** One company of one tenant: what the read tables are sliced by. */
  datatype Key = Key(tenantId: string, organisationsnummer: string)

  datatype Officer = Officer(identitetsbeteckning: string, roles: seq<string>)
  datatype FiItem = FiItem(ownNumber: Option<string>, core: string, funktionarer: seq<Officer>, rapporter: seq<string>)
  datatype HvdItem = HvdItem(ownNumber: Option<string>, core: string, names: seq<string>)
  datatype Doc = Doc(dokumentId: string, filformat: string)

  /** `content`: an absent member is `None`. */
  datatype Content = Content(organisationInformation: Option<seq<FiItem>>, highValueDataset: Option<seq<HvdItem>>,
                             dokument: Option<seq<Doc>>)

  datatype Raw = Raw(key: Key, providerSource: string, createdAt: int, content: Content)

  datatype Snap<T> = Snap(rawPayloadId: nat, key: Key, payloadCreatedAt: int, sourceIndex: nat, item: T)
  datatype Child<T> = Child(snapshotId: nat, sourceIndex: nat, item: T)

  datatype Parsed = Parsed(
    fi: seq<Snap<FiItem>>,
    funktionarer: seq<Child<Officer>>,
    rapporter: seq<Child<string>>,
    hvd: seq<Snap<HvdItem>>,
    names: seq<Child<string>>,
    lists: seq<Snap<seq<Doc>>>,
    documents: seq<Child<Doc>>)

  const NOTHING_PARSED := Parsed([], [], [], [], [], [], [])

  /** `COALESCE(item's own number, raw.organisationsnummer)` under the raw row's tenant. */
  function ItemKey(raw: Raw, ownNumber: Option<string>): Key {
    Key(raw.key.tenantId, ownNumber.GetOr(raw.key.organisationsnummer))
  }

  // --- Inserting rows ---

  predicate HasSnap<T(==)>(snaps: seq<Snap<T>>, rawPayloadId: nat, sourceIndex: nat) {
    exists s :: s in snaps && s.rawPayloadId == rawPayloadId && s.sourceIndex == sourceIndex
  }

  /** `INSERT … ON CONFLICT (raw_payload_id, source_index) DO NOTHING` */
  function AddSnap<T(==)>(snaps: seq<Snap<T>>, row: Snap<T>): seq<Snap<T>> {
    if HasSnap(snaps, row.rawPayloadId, row.sourceIndex) then snaps else snaps + [row]
  }

  /** The id of the row just inserted or already there. */
  function SnapId<T(==)>(snaps: seq<Snap<T>>, rawPayloadId: nat, sourceIndex: nat): (id: nat)
    requires HasSnap(snaps, rawPayloadId, sourceIndex)
    ensures id < |snaps| && snaps[id].rawPayloadId == rawPayloadId && snaps[id].sourceIndex == sourceIndex
  {
    if snaps[0].rawPayloadId == rawPayloadId && snaps[0].sourceIndex == sourceIndex then 0
    else 1 + SnapId(snaps[1..], rawPayloadId, sourceIndex)
  }

  predicate HasIndex<T(==)>(rows: seq<Child<T>>, snapshotId: nat, sourceIndex: nat) {
    exists r :: r in rows && r.snapshotId == snapshotId && r.sourceIndex == sourceIndex
  }

  /** Inserting a list `WITH ORDINALITY … ON CONFLICT DO NOTHING`. */
  function InsertAbsent<T(==)>(rows: seq<Child<T>>, snapshotId: nat, items: seq<T>): seq<Child<T>> {
    if items == [] then rows else
      var n := |items|;
      var before := InsertAbsent(rows, snapshotId, items[..n - 1]);
      if HasIndex(before, snapshotId, n) then before else before + [Child(snapshotId, n, items[n - 1])]
  }

  /** `COALESCE(max(source_index) + 1, 1)` over the snapshot's rows. */
  function NextIndex<T(==)>(rows: seq<Child<T>>, snapshotId: nat): (n: nat)
    ensures n >= 1
    ensures forall r :: r in rows && r.snapshotId == snapshotId ==> r.sourceIndex < n
    ensures n == 1 || HasIndex(rows, snapshotId, n - 1)
  {
    if rows == [] then 1 else
      var m := |rows| - 1;
      var before := NextIndex(rows[..m], snapshotId);
      assert rows == rows[..m] + [rows[m]];
      if rows[m].snapshotId == snapshotId && rows[m].sourceIndex >= before then
        assert rows[m] in rows;
        rows[m].sourceIndex + 1
      else before
  }

  /** The officers of one snapshot are appended without a conflict clause. */
  function AppendOfficers(rows: seq<Child<Officer>>, snapshotId: nat, officers: seq<Officer>): seq<Child<Officer>> {
    if officers == [] then rows else
      var m := |officers| - 1;
      var before := AppendOfficers(rows, snapshotId, officers[..m]);
      before + [Child(snapshotId, NextIndex(before, snapshotId), officers[m])]
  }

  predicate HasDoc(rows: seq<Child<Doc>>, snapshotId: nat, dokumentId: string) {
    exists r :: r in rows && r.snapshotId == snapshotId && r.item.dokumentId == dokumentId
  }

  /** Documents conflict on their position and on their id. */
  function InsertDocs(rows: seq<Child<Doc>>, snapshotId: nat, docs: seq<Doc>): seq<Child<Doc>> {
    if docs == [] then rows else
      var n := |docs|;
      var before := InsertDocs(rows, snapshotId, docs[..n - 1]);
      if HasIndex(before, snapshotId, n) || HasDoc(before, snapshotId, docs[n - 1].dokumentId) then before
      else before + [Child(snapshotId, n, docs[n - 1])]
  }

  // --- Loaders ---

  function FiRow(id: nat, raw: Raw, item: FiItem, n: nat): Snap<FiItem> {
    Snap(id, ItemKey(raw, item.ownNumber), raw.createdAt, n, item)
  }

  function HvdRow(id: nat, raw: Raw, item: HvdItem, n: nat): Snap<HvdItem> {
    Snap(id, ItemKey(raw, item.ownNumber), raw.createdAt, n, item)
  }

  /** A payload has one document list, under its raw row's company. */
  function ListRow(id: nat, raw: Raw, docs: seq<Doc>): Snap<seq<Doc>> {
    Snap(id, raw.key, raw.createdAt, 1, docs)
  }

  /** One element of `organisationInformation`. */
  function LoadFiItem(p: Parsed, id: nat, raw: Raw, item: FiItem, n: nat): Parsed {
    var fi := AddSnap(p.fi, FiRow(id, raw, item, n));
    assert HasSnap(fi, id, n) by { assert FiRow(id, raw, item, n) in p.fi + [FiRow(id, raw, item, n)]; }
    var snapshotId := SnapId(fi, id, n);
    p.(fi := fi, funktionarer := AppendOfficers(p.funktionarer, snapshotId, item.funktionarer),
       rapporter := InsertAbsent(p.rapporter, snapshotId, item.rapporter))
  }

  function LoadFiItems(p: Parsed, id: nat, raw: Raw, items: seq<FiItem>): Parsed {
    if items == [] then p else
      var n := |items|;
      LoadFiItem(LoadFiItems(p, id, raw, items[..n - 1]), id, raw, items[n - 1], n)
  }

  function LoadHvdItem(p: Parsed, id: nat, raw: Raw, item: HvdItem, n: nat): Parsed {
    var hvd := AddSnap(p.hvd, HvdRow(id, raw, item, n));
    assert HasSnap(hvd, id, n) by { assert HvdRow(id, raw, item, n) in p.hvd + [HvdRow(id, raw, item, n)]; }
    p.(hvd := hvd, names := InsertAbsent(p.names, SnapId(hvd, id, n), item.names))
  }

  function LoadHvdItems(p: Parsed, id: nat, raw: Raw, items: seq<HvdItem>): Parsed {
    if items == [] then p else
      var n := |items|;
      LoadHvdItem(LoadHvdItems(p, id, raw, items[..n - 1]), id, raw, items[n - 1], n)
  }

  function LoadDocs(p: Parsed, id: nat, raw: Raw, docs: seq<Doc>): Parsed {
    var row := ListRow(id, raw, docs);
    var lists := AddSnap(p.lists, row);
    assert HasSnap(lists, id, 1) by { assert row in p.lists + [row]; }
    p.(lists := lists, documents := InsertDocs(p.documents, SnapId(lists, id, 1), docs))
  }

  predicate LoadsFi(raw: Raw) {
    raw.providerSource in ["FI_ORGANISATIONER", "ORCHESTRATED_LOOKUP", "BV_ORCHESTRATED", "bolagsverket"]
  }

  predicate LoadsHvd(raw: Raw) {
    raw.providerSource in ["HVD_ORGANISATIONER", "ORCHESTRATED_LOOKUP", "BV_ORCHESTRATED", "bolagsverket"]
  }

  /** The items each loader finds: none when the loader does not run or the member is absent. */
  function FiItems(raw: Raw): seq<FiItem> {
    if LoadsFi(raw) then raw.content.organisationInformation.GetOr([]) else []
  }

  function HvdItems(raw: Raw): seq<HvdItem> {
    if LoadsHvd(raw) then raw.content.highValueDataset.GetOr([]) else []
  }

  /** `dispatch_raw_payload`, when nothing raises. */
  function Dispatch(p: Parsed, id: nat, raw: Raw): Parsed {
    var loaded := LoadHvdItems(LoadFiItems(p, id, raw, FiItems(raw)), id, raw, HvdItems(raw));
    if raw.content.dokument.Some? then LoadDocs(loaded, id, raw, raw.content.dokument.value) else loaded
  }

  // --- Views ---

  /** `row_number() OVER (PARTITION BY key ORDER BY payload_created_at DESC, id DESC) = 1` */
  function Latest<T>(snaps: seq<Snap<T>>, key: Key): (r: Option<nat>)
    ensures r.Some? ==> r.value < |snaps| && snaps[r.value].key == key
  {
    if snaps == [] then None else
      var m := |snaps| - 1;
      var before := Latest(snaps[..m], key);
      if snaps[m].key == key && (before.None? || snaps[m].payloadCreatedAt >= snaps[before.value].payloadCreatedAt)
      then Some(m) else before
  }

  lemma {:induction false} LatestIsNewest<T>(snaps: seq<Snap<T>>, key: Key)
    ensures Latest(snaps, key).None? <==> forall s :: s in snaps ==> s.key != key
    ensures var r := Latest(snaps, key); r.Some? ==> forall i :: 0 <= i < |snaps| && snaps[i].key == key ==>
              || snaps[i].payloadCreatedAt < snaps[r.value].payloadCreatedAt
              || (snaps[i].payloadCreatedAt == snaps[r.value].payloadCreatedAt && i <= r.value)
  {
    if snaps != [] {
      var m := |snaps| - 1;
      assert snaps == snaps[..m] + [snaps[m]];
      LatestIsNewest(snaps[..m], key);
    }
  }

  /** A child row with its id. */
  datatype Numbered<T> = Numbered(id: nat, row: Child<T>)

  function ChildrenOf<T>(rows: seq<Child<T>>, snapshotId: nat): seq<Numbered<T>> {
    if rows == [] then [] else
      var m := |rows| - 1;
      ChildrenOf(rows[..m], snapshotId) + if rows[m].snapshotId == snapshotId then [Numbered(m, rows[m])] else []
  }

  /** The children of a snapshot are all rows stored under it, each with its id, in table order. */
  lemma {:induction false} ChildrenExactly<T(!new)>(rows: seq<Child<T>>, snapshotId: nat)
    ensures forall i: nat, r :: Numbered(i, r) in ChildrenOf(rows, snapshotId) <==>
              i < |rows| && rows[i] == r && r.snapshotId == snapshotId
    ensures IdsRise(ChildrenOf(rows, snapshotId))
  {
    if rows != [] {
      var m := |rows| - 1;
      var c := ChildrenOf(rows[..m], snapshotId);
      ChildrenExactly(rows[..m], snapshotId);
      assert forall i :: 0 <= i < m ==> rows[..m][i] == rows[i];
      forall j | 0 <= j < |c| ensures c[j].id < m {
        assert Numbered(c[j].id, c[j].row) in c;
      }
    }
  }

  ghost predicate IdsRise<T>(rows: seq<Numbered<T>>) {
    forall j, k :: 0 <= j < k < |rows| ==> rows[j].id < rows[k].id
  }

  function LatestChildren<S, T>(snaps: seq<Snap<S>>, rows: seq<Child<T>>, key: Key): seq<Numbered<T>> {
    var latest := Latest(snaps, key);
    if latest.Some? then ChildrenOf(rows, latest.value) else []
  }

  datatype Overview = Overview(fi: string, hvd: Option<string>)

  /** What the read layer shows of one company. */
  datatype Slice = Slice(overview: seq<Overview>, officers: seq<Numbered<Officer>>, reports: seq<Numbered<string>>,
                         documents: seq<Numbered<Doc>>)

  /** FI latest left-joined with HVD latest of the same tenant and number. */
  function OverviewOf(p: Parsed, key: Key): seq<Overview> {
    var fi := Latest(p.fi, key);
    var hvd := Latest(p.hvd, key);
    if fi.None? then []
       else [Overview(p.fi[fi.value].item.core, if hvd.Some? then Some(p.hvd[hvd.value].item.core) else None)]
  }

  /** The read views (backend/src/migrations/1000000000027-AddBvReadCurrentViews.ts), for one company. */
  function View(p: Parsed, key: Key): Slice {
    Slice(OverviewOf(p, key), LatestChildren(p.fi, p.funktionarer, key), LatestChildren(p.fi, p.rapporter, key),
          LatestChildren(p.lists, p.documents, key))
  }
}
