/**
 What the loaders keep: which companies a payload can touch, which loads can be repeated,
 and how often each officer is stored.
 (backend/src/migrations/1000000000026-AddBvParsedPayloadTables.ts:415-874)
 */
module BvLoaders {
  import opened Sequences
  import opened BvParsed

  // --- Snapshots mirror their payloads ---

  ghost predicate FiFaithful(fi: seq<Snap<FiItem>>, raws: seq<Raw>) {
    forall s :: s in fi ==>
      && s.rawPayloadId < |raws| && 1 <= s.sourceIndex <= |FiItems(raws[s.rawPayloadId])|
      && s == FiRow(s.rawPayloadId, raws[s.rawPayloadId], FiItems(raws[s.rawPayloadId])[s.sourceIndex - 1],
                    s.sourceIndex)
  }

  ghost predicate HvdFaithful(hvd: seq<Snap<HvdItem>>, raws: seq<Raw>) {
    forall s :: s in hvd ==>
      && s.rawPayloadId < |raws| && 1 <= s.sourceIndex <= |HvdItems(raws[s.rawPayloadId])|
      && s == HvdRow(s.rawPayloadId, raws[s.rawPayloadId], HvdItems(raws[s.rawPayloadId])[s.sourceIndex - 1],
                     s.sourceIndex)
  }

  ghost predicate ListsFaithful(lists: seq<Snap<seq<Doc>>>, raws: seq<Raw>) {
    forall s :: s in lists ==>
      && s.rawPayloadId < |raws| && raws[s.rawPayloadId].content.dokument.Some?
      && s == ListRow(s.rawPayloadId, raws[s.rawPayloadId], raws[s.rawPayloadId].content.dokument.value)
  }

  ghost predicate UniqueSnaps<T(!new)>(snaps: seq<Snap<T>>) {
    forall i, j :: 0 <= i < j < |snaps| ==>
      snaps[i].rawPayloadId != snaps[j].rawPayloadId || snaps[i].sourceIndex != snaps[j].sourceIndex
  }

  /** Every snapshot row is the row its payload gives, and the uniqueness constraints hold. */
  ghost predicate Faithful(p: Parsed, raws: seq<Raw>) {
    && FiFaithful(p.fi, raws) && HvdFaithful(p.hvd, raws) && ListsFaithful(p.lists, raws)
    && UniqueSnaps(p.fi) && UniqueSnaps(p.hvd) && UniqueSnaps(p.lists)
  }

  lemma AddSnapUnique<T(!new)>(snaps: seq<Snap<T>>, row: Snap<T>)
    requires UniqueSnaps(snaps)
    ensures UniqueSnaps(AddSnap(snaps, row))
  {
    assert forall i :: 0 <= i < |snaps| ==> snaps[i] in snaps;
  }

  lemma FaithfulLater(p: Parsed, raws: seq<Raw>, raw: Raw)
    requires Faithful(p, raws)
    ensures Faithful(p, raws + [raw])
  {
  }

  lemma FiStepFaithful(p: Parsed, raws: seq<Raw>, id: nat, n: nat)
    requires Faithful(p, raws) && id < |raws| && 1 <= n <= |FiItems(raws[id])|
    ensures Faithful(LoadFiItem(p, id, raws[id], FiItems(raws[id])[n - 1], n), raws)
  {
    hide HvdFaithful, ListsFaithful, AppendOfficers, InsertAbsent, UniqueSnaps, FiItems, SnapId;
    AddSnapUnique(p.fi, FiRow(id, raws[id], FiItems(raws[id])[n - 1], n));
  }

  lemma {:induction false} LoadFiFaithful(p: Parsed, raws: seq<Raw>, id: nat, items: seq<FiItem>)
    requires Faithful(p, raws) && id < |raws| && items <= FiItems(raws[id])
    ensures Faithful(LoadFiItems(p, id, raws[id], items), raws)
  {
    hide Faithful, FiItems, LoadFiItem;
    if items != [] {
      var n := |items|;
      LoadFiFaithful(p, raws, id, items[..n - 1]);
      FiStepFaithful(LoadFiItems(p, id, raws[id], items[..n - 1]), raws, id, n);
    }
  }

  lemma HvdStepFaithful(p: Parsed, raws: seq<Raw>, id: nat, n: nat)
    requires Faithful(p, raws) && id < |raws| && 1 <= n <= |HvdItems(raws[id])|
    ensures Faithful(LoadHvdItem(p, id, raws[id], HvdItems(raws[id])[n - 1], n), raws)
  {
    hide FiFaithful, ListsFaithful, InsertAbsent, UniqueSnaps, HvdItems, SnapId;
    AddSnapUnique(p.hvd, HvdRow(id, raws[id], HvdItems(raws[id])[n - 1], n));
  }

  lemma {:induction false} LoadHvdFaithful(p: Parsed, raws: seq<Raw>, id: nat, items: seq<HvdItem>)
    requires Faithful(p, raws) && id < |raws| && items <= HvdItems(raws[id])
    ensures Faithful(LoadHvdItems(p, id, raws[id], items), raws)
  {
    hide Faithful, HvdItems, LoadHvdItem;
    if items != [] {
      var n := |items|;
      LoadHvdFaithful(p, raws, id, items[..n - 1]);
      HvdStepFaithful(LoadHvdItems(p, id, raws[id], items[..n - 1]), raws, id, n);
    }
  }

  lemma DispatchFaithful(p: Parsed, raws: seq<Raw>, id: nat)
    requires Faithful(p, raws) && id < |raws|
    ensures Faithful(Dispatch(p, id, raws[id]), raws)
  {
    hide LoadFiItems, LoadHvdItems, FiItems, HvdItems, UniqueSnaps, InsertDocs, FiFaithful, HvdFaithful;
    var raw := raws[id];
    LoadFiFaithful(p, raws, id, FiItems(raw));
    var first := LoadFiItems(p, id, raw, FiItems(raw));
    LoadHvdFaithful(first, raws, id, HvdItems(raw));
    if raw.content.dokument.Some? {
      var second := LoadHvdItems(first, id, raw, HvdItems(raw));
      AddSnapUnique(second.lists, ListRow(id, raw, raw.content.dokument.value));
    }
  }

  // --- Which companies a payload touches ---

  /** The companies a payload's snapshots are stored under. */
  ghost function TouchedKeys(raw: Raw): set<Key> {
    (set item | item in FiItems(raw) :: ItemKey(raw, item.ownNumber)) +
    (set item | item in HvdItems(raw) :: ItemKey(raw, item.ownNumber)) +
    (if raw.content.dokument.Some? then {raw.key} else {})
  }

  lemma LatestSkips<T>(snaps: seq<Snap<T>>, row: Snap<T>, key: Key)
    requires row.key != key
    ensures Latest(AddSnap(snaps, row), key) == Latest(snaps, key)
  {
    assert (snaps + [row])[..|snaps|] == snaps;
  }

  lemma {:induction false} InsertAbsentSkips<T>(rows: seq<Child<T>>, snapshotId: nat, items: seq<T>, other: nat)
    requires other != snapshotId
    ensures ChildrenOf(InsertAbsent(rows, snapshotId, items), other) == ChildrenOf(rows, other)
  {
    hide HasIndex;
    if items != [] {
      var before := InsertAbsent(rows, snapshotId, items[..|items| - 1]);
      InsertAbsentSkips(rows, snapshotId, items[..|items| - 1], other);
      assert (before + [Child(snapshotId, |items|, items[|items| - 1])])[..|before|] == before;
    }
  }

  lemma {:induction false} AppendOfficersSkips(rows: seq<Child<Officer>>, snapshotId: nat, officers: seq<Officer>,
                                               other: nat)
    requires other != snapshotId
    ensures ChildrenOf(AppendOfficers(rows, snapshotId, officers), other) == ChildrenOf(rows, other)
  {
    if officers != [] {
      var m := |officers| - 1;
      var before := AppendOfficers(rows, snapshotId, officers[..m]);
      AppendOfficersSkips(rows, snapshotId, officers[..m], other);
      assert (before + [Child(snapshotId, NextIndex(before, snapshotId), officers[m])])[..|before|] == before;
    }
  }

  lemma {:induction false} InsertDocsSkips(rows: seq<Child<Doc>>, snapshotId: nat, docs: seq<Doc>, other: nat)
    requires other != snapshotId
    ensures ChildrenOf(InsertDocs(rows, snapshotId, docs), other) == ChildrenOf(rows, other)
  {
    hide HasIndex, HasDoc;
    if docs != [] {
      var before := InsertDocs(rows, snapshotId, docs[..|docs| - 1]);
      InsertDocsSkips(rows, snapshotId, docs[..|docs| - 1], other);
      assert (before + [Child(snapshotId, |docs|, docs[|docs| - 1])])[..|before|] == before;
    }
  }

  /** Loading a payload leaves the view of every company it does not mention as it was. */
  lemma LoadFiItemFrame(p: Parsed, raws: seq<Raw>, id: nat, item: FiItem, n: nat, key: Key)
    requires Faithful(p, raws) && id < |raws| && 1 <= n <= |FiItems(raws[id])| && FiItems(raws[id])[n - 1] == item
    requires ItemKey(raws[id], item.ownNumber) != key
    ensures View(LoadFiItem(p, id, raws[id], item, n), key) == View(p, key)
  {
    hide Latest, ChildrenOf, AppendOfficers, InsertAbsent, FiItems, HvdFaithful, ListsFaithful, UniqueSnaps;
    var row := FiRow(id, raws[id], item, n);
    var fi := AddSnap(p.fi, row);
    LatestSkips(p.fi, row, key);
    assert row in p.fi + [row];
    var s := SnapId(fi, id, n);
    assert fi[s] in fi && fi[s].key != key;
    var latest := Latest(p.fi, key);
    if latest.Some? {
      assert fi[latest.value] == p.fi[latest.value];
      AppendOfficersSkips(p.funktionarer, s, item.funktionarer, latest.value);
      InsertAbsentSkips(p.rapporter, s, item.rapporter, latest.value);
    }
  }

  lemma {:induction false} LoadFiFrame(p: Parsed, raws: seq<Raw>, id: nat, items: seq<FiItem>, key: Key)
    requires Faithful(p, raws) && id < |raws| && items <= FiItems(raws[id])
    requires forall item :: item in items ==> ItemKey(raws[id], item.ownNumber) != key
    ensures View(LoadFiItems(p, id, raws[id], items), key) == View(p, key)
  {
    hide View, Faithful, LoadFiItem, FiItems;
    if items != [] {
      var n := |items|;
      LoadFiFaithful(p, raws, id, items[..n - 1]);
      LoadFiFrame(p, raws, id, items[..n - 1], key);
      LoadFiItemFrame(LoadFiItems(p, id, raws[id], items[..n - 1]), raws, id, items[n - 1], n, key);
    }
  }

  lemma {:induction false} LoadHvdFrame(p: Parsed, id: nat, raw: Raw, items: seq<HvdItem>, key: Key)
    requires forall item :: item in items ==> ItemKey(raw, item.ownNumber) != key
    ensures View(LoadHvdItems(p, id, raw, items), key) == View(p, key)
  {
    hide Latest, ChildrenOf, InsertAbsent;
    if items != [] {
      var n := |items|;
      LoadHvdFrame(p, id, raw, items[..n - 1], key);
      LatestSkips(LoadHvdItems(p, id, raw, items[..n - 1]).hvd, HvdRow(id, raw, items[n - 1], n), key);
    }
  }

  lemma LoadDocsFrame(p: Parsed, raws: seq<Raw>, id: nat, docs: seq<Doc>, key: Key)
    requires ListsFaithful(p.lists, raws) && id < |raws| && raws[id].key != key
    ensures View(LoadDocs(p, id, raws[id], docs), key) == View(p, key)
  {
    hide Latest, ChildrenOf, InsertDocs;
    var row := ListRow(id, raws[id], docs);
    var lists := AddSnap(p.lists, row);
    LatestSkips(p.lists, row, key);
    assert row in p.lists + [row];
    var s := SnapId(lists, id, 1);
    assert lists[s] in lists && lists[s].key == raws[id].key;
    var latest := Latest(p.lists, key);
    if latest.Some? {
      assert lists[latest.value] == p.lists[latest.value];
      InsertDocsSkips(p.documents, s, docs, latest.value);
    }
  }

  lemma DispatchFrame(p: Parsed, raws: seq<Raw>, id: nat, key: Key)
    requires Faithful(p, raws) && id < |raws| && key !in TouchedKeys(raws[id])
    ensures View(Dispatch(p, id, raws[id]), key) == View(p, key)
  {
    var raw := raws[id];
    hide View, LoadFiItems, LoadHvdItems, LoadDocs, FiItems, HvdItems, ItemKey;
    LoadFiFrame(p, raws, id, FiItems(raw), key);
    var first := LoadFiItems(p, id, raw, FiItems(raw));
    LoadFiFaithful(p, raws, id, FiItems(raw));
    LoadHvdFrame(first, id, raw, HvdItems(raw), key);
    var second := LoadHvdItems(first, id, raw, HvdItems(raw));
    LoadHvdFaithful(first, raws, id, HvdItems(raw));
    if raw.content.dokument.Some? {
      LoadDocsFrame(second, raws, id, raw.content.dokument.value, key);
    }
  }

  // --- Loads that can be repeated ---

  ghost predicate AllPresent<T(!new)>(rows: seq<Child<T>>, snapshotId: nat, n: nat) {
    forall k :: 1 <= k <= n ==> HasIndex(rows, snapshotId, k)
  }

  lemma HasIndexGrows<T(!new)>(rows: seq<Child<T>>, row: Child<T>)
    ensures forall s, k ::
              HasIndex(rows + [row], s, k) <==>
              HasIndex(rows, s, k) || (row.snapshotId == s && row.sourceIndex == k)
  {
    forall s, k
      ensures HasIndex(rows + [row], s, k) <==> HasIndex(rows, s, k) || (row.snapshotId == s && row.sourceIndex == k)
    {
      if HasIndex(rows, s, k) {
        var r :| r in rows && r.snapshotId == s && r.sourceIndex == k;
        assert r in rows + [row];
      } else if row.snapshotId == s && row.sourceIndex == k {
        assert row in rows + [row];
      }
    }
  }

  lemma {:induction false} InsertAbsentKeeps<T(!new)>(rows: seq<Child<T>>, snapshotId: nat, items: seq<T>, s: nat,
                                                      k: nat)
    requires HasIndex(rows, s, k)
    ensures HasIndex(InsertAbsent(rows, snapshotId, items), s, k)
  {
    hide HasIndex;
    if items != [] {
      InsertAbsentKeeps(rows, snapshotId, items[..|items| - 1], s, k);
      HasIndexGrows(InsertAbsent(rows, snapshotId, items[..|items| - 1]),
                    Child(snapshotId, |items|, items[|items| - 1]));
    }
  }

  lemma {:induction false} InsertAbsentFills<T(!new)>(rows: seq<Child<T>>, snapshotId: nat, items: seq<T>)
    ensures AllPresent(InsertAbsent(rows, snapshotId, items), snapshotId, |items|)
  {
    hide HasIndex;
    if items != [] {
      var n := |items|;
      InsertAbsentFills(rows, snapshotId, items[..n - 1]);
      HasIndexGrows(InsertAbsent(rows, snapshotId, items[..n - 1]), Child(snapshotId, n, items[n - 1]));
    }
  }

  lemma {:induction false} InsertAbsentAgain<T(!new)>(rows: seq<Child<T>>, snapshotId: nat, items: seq<T>)
    requires AllPresent(rows, snapshotId, |items|)
    ensures InsertAbsent(rows, snapshotId, items) == rows
  {
    hide HasIndex;
    if items != [] {
      InsertAbsentAgain(rows, snapshotId, items[..|items| - 1]);
    }
  }

  /** Element `n` of the payload is stored with all its names. */
  ghost predicate HvdStored(p: Parsed, id: nat, items: seq<HvdItem>, n: nat)
    requires 1 <= n <= |items|
  {
    HasSnap(p.hvd, id, n) && AllPresent(p.names, SnapId(p.hvd, id, n), |items[n - 1].names|)
  }

  lemma {:induction false} SnapIdStable<T(!new)>(snaps: seq<Snap<T>>, row: Snap<T>, id: nat, n: nat)
    requires HasSnap(snaps, id, n)
    ensures HasSnap(snaps + [row], id, n) && SnapId(snaps + [row], id, n) == SnapId(snaps, id, n)
  {
    var s :| s in snaps && s.rawPayloadId == id && s.sourceIndex == n;
    assert s in snaps + [row] && (snaps + [row])[0] == snaps[0];
    if !(snaps[0].rawPayloadId == id && snaps[0].sourceIndex == n) {
      assert s in snaps[1..];
      assert (snaps + [row])[1..] == snaps[1..] + [row];
      SnapIdStable(snaps[1..], row, id, n);
    }
  }

  lemma {:induction false} LoadHvdStores(p: Parsed, id: nat, raw: Raw, items: seq<HvdItem>, all: seq<HvdItem>)
    requires items <= all
    ensures forall n :: 1 <= n <= |items| ==> HvdStored(LoadHvdItems(p, id, raw, items), id, all, n)
  {
    if items != [] {
      var m := |items|;
      LoadHvdStores(p, id, raw, items[..m - 1], all);
      var before := LoadHvdItems(p, id, raw, items[..m - 1]);
      var after := LoadHvdItems(p, id, raw, items);
      LoadHvdItemStores(before, id, raw, items[m - 1], m, all);
    }
  }

  lemma LoadHvdItemStores(p: Parsed, id: nat, raw: Raw, item: HvdItem, m: nat, all: seq<HvdItem>)
    requires 1 <= m <= |all| && all[m - 1] == item
    requires forall n :: 1 <= n < m ==> HvdStored(p, id, all, n)
    ensures forall n :: 1 <= n <= m ==> HvdStored(LoadHvdItem(p, id, raw, item, m), id, all, n)
  {
    var row := HvdRow(id, raw, item, m);
    var after := LoadHvdItem(p, id, raw, item, m);
    assert row in p.hvd + [row];
    var s := SnapId(after.hvd, id, m);
    InsertAbsentFills(p.names, s, item.names);
    forall n | 1 <= n < m
      ensures HvdStored(after, id, all, n)
    {
      hide HasIndex, HasSnap, InsertAbsent;
      assert HvdStored(p, id, all, n);
      SnapIdStable(p.hvd, row, id, n);
      forall k | 1 <= k <= |all[n - 1].names|
        ensures HasIndex(after.names, SnapId(after.hvd, id, n), k)
      {
        InsertAbsentKeeps(p.names, s, item.names, SnapId(p.hvd, id, n), k);
      }
    }
  }

  lemma {:induction false} LoadHvdAgain(p: Parsed, id: nat, raw: Raw, items: seq<HvdItem>, all: seq<HvdItem>)
    requires items <= all && forall n :: 1 <= n <= |items| ==> HvdStored(p, id, all, n)
    ensures LoadHvdItems(p, id, raw, items) == p
  {
    if items != [] {
      var m := |items|;
      LoadHvdAgain(p, id, raw, items[..m - 1], all);
      assert HvdStored(p, id, all, m);
      InsertAbsentAgain(p.names, SnapId(p.hvd, id, m), items[m - 1].names);
    }
  }

  /** Loading the HVD organisations of a payload twice equals loading them once, from any state. */
  lemma HvdLoadIsIdempotent(p: Parsed, id: nat, raw: Raw)
    ensures LoadHvdItems(LoadHvdItems(p, id, raw, HvdItems(raw)), id, raw, HvdItems(raw))
         == LoadHvdItems(p, id, raw, HvdItems(raw))
  {
    LoadHvdStores(p, id, raw, HvdItems(raw), HvdItems(raw));
    LoadHvdAgain(LoadHvdItems(p, id, raw, HvdItems(raw)), id, raw, HvdItems(raw), HvdItems(raw));
  }

  ghost predicate DocsPresent(rows: seq<Child<Doc>>, snapshotId: nat, docs: seq<Doc>) {
    forall k :: 1 <= k <= |docs| ==> HasIndex(rows, snapshotId, k) || HasDoc(rows, snapshotId, docs[k - 1].dokumentId)
  }

  lemma {:induction false} InsertDocsFills(rows: seq<Child<Doc>>, snapshotId: nat, docs: seq<Doc>)
    ensures DocsPresent(InsertDocs(rows, snapshotId, docs), snapshotId, docs)
  {
    if docs != [] {
      var n := |docs|;
      var before := InsertDocs(rows, snapshotId, docs[..n - 1]);
      var row := Child(snapshotId, n, docs[n - 1]);
      InsertDocsFills(rows, snapshotId, docs[..n - 1]);
      HasIndexGrows(before, row);
      assert forall r :: r in before ==> r in before + [row];
      forall k | 1 <= k <= n
        ensures HasIndex(InsertDocs(rows, snapshotId, docs), snapshotId, k) ||
                HasDoc(InsertDocs(rows, snapshotId, docs), snapshotId, docs[k - 1].dokumentId)
      {
        assert k < n ==> docs[..n - 1][k - 1] == docs[k - 1];
      }
    }
  }

  lemma {:induction false} InsertDocsAgain(rows: seq<Child<Doc>>, snapshotId: nat, docs: seq<Doc>)
    requires DocsPresent(rows, snapshotId, docs)
    ensures InsertDocs(rows, snapshotId, docs) == rows
  {
    hide HasIndex, HasDoc;
    if docs != [] {
      InsertDocsAgain(rows, snapshotId, docs[..|docs| - 1]);
    }
  }

  /** Loading a document list twice equals loading it once, from any state. */
  lemma DocsLoadIsIdempotent(p: Parsed, id: nat, raw: Raw, docs: seq<Doc>)
    ensures LoadDocs(LoadDocs(p, id, raw, docs), id, raw, docs) == LoadDocs(p, id, raw, docs)
  {
    var row := ListRow(id, raw, docs);
    var once := LoadDocs(p, id, raw, docs);
    assert row in p.lists + [row];
    InsertDocsFills(p.documents, SnapId(once.lists, id, 1), docs);
    InsertDocsAgain(once.documents, SnapId(once.lists, id, 1), docs);
  }

  // --- How often an officer is stored ---

  function OfSnapshot<T>(snapshotId: nat): Child<T> -> bool {
    (r: Child<T>) => r.snapshotId == snapshotId
  }

  /** The rows of one snapshot are exactly `list`, numbered from 1. */
  ghost predicate Stores<T(!new)>(rows: seq<Child<T>>, snapshotId: nat, list: seq<T>) {
    Filter(OfSnapshot(snapshotId), rows) == seq(|list|, j requires 0 <= j < |list| => Child(snapshotId, j + 1, list[j]))
  }

  ghost function Repeated<T>(list: seq<T>, times: nat): seq<T> {
    if times == 0 then [] else Repeated(list, times - 1) + list
  }

  lemma NextIndexAfter(rows: seq<Child<Officer>>, snapshotId: nat, list: seq<Officer>)
    requires Stores(rows, snapshotId, list)
    ensures NextIndex(rows, snapshotId) == |list| + 1
  {
    var mine := Filter(OfSnapshot(snapshotId), rows);
    FilterMembers(OfSnapshot(snapshotId), rows);
    if list != [] {
      assert mine[|list| - 1] in mine && mine[|list| - 1].sourceIndex == |list|;
    }
    var n := NextIndex(rows, snapshotId);
    if n > 1 {
      var r :| r in rows && r.snapshotId == snapshotId && r.sourceIndex == n - 1;
      assert r in mine;
    }
  }

  lemma {:induction false} AppendOfficersStores(rows: seq<Child<Officer>>, snapshotId: nat, list: seq<Officer>,
                                                officers: seq<Officer>)
    requires Stores(rows, snapshotId, list)
    ensures Stores(AppendOfficers(rows, snapshotId, officers), snapshotId, list + officers)
  {
    hide Stores, NextIndex;
    if officers == [] {
      assert list + officers == list;
    } else {
      var m := |officers| - 1;
      AppendOfficersStores(rows, snapshotId, list, officers[..m]);
      var before := AppendOfficers(rows, snapshotId, officers[..m]);
      NextIndexAfter(before, snapshotId, list + officers[..m]);
      StoresOneMore(before, snapshotId, list + officers[..m], officers[m]);
      assert list + officers[..m] + [officers[m]] == list + officers;
    }
  }

  lemma StoresOneMore<T(!new)>(rows: seq<Child<T>>, snapshotId: nat, list: seq<T>, item: T)
    requires Stores(rows, snapshotId, list)
    ensures Stores(rows + [Child(snapshotId, |list| + 1, item)], snapshotId, list + [item])
  {
    var row := Child(snapshotId, |list| + 1, item);
    FilterConcat(OfSnapshot(snapshotId), rows, [row]);
    FilterAll(OfSnapshot(snapshotId), [row]);
  }

  lemma {:induction false} AppendOfficersStoresOthers(rows: seq<Child<Officer>>, snapshotId: nat,
                                                      officers: seq<Officer>, other: nat)
    requires other != snapshotId
    ensures Filter(OfSnapshot(other), AppendOfficers(rows, snapshotId, officers)) == Filter(OfSnapshot(other), rows)
  {
    if officers != [] {
      var m := |officers| - 1;
      AppendOfficersStoresOthers(rows, snapshotId, officers[..m], other);
      var before := AppendOfficers(rows, snapshotId, officers[..m]);
      var row := Child(snapshotId, NextIndex(before, snapshotId), officers[m]);
      FilterConcat(OfSnapshot(other), before, [row]);
      FilterNone(OfSnapshot(other), [row]);
    }
  }

  /** How often snapshot `s` has been loaded, when payload `id` is loaded for one more time up to element `n`. */
  ghost function LoadsOf(s: Snap<FiItem>, times: nat -> nat, id: nat, n: nat): nat {
    times(s.rawPayloadId) + if s.rawPayloadId == id && s.sourceIndex <= n then 1 else 0
  }

  /** Each snapshot's officers are stored once per load of its payload, and nobody else's rows exist. */
  ghost predicate OfficersPerLoad(p: Parsed, times: nat -> nat, id: nat, n: nat) {
    && (forall s :: 0 <= s < |p.fi| ==>
          Stores(p.funktionarer, s, Repeated(p.fi[s].item.funktionarer, LoadsOf(p.fi[s], times, id, n))))
    && (forall s :: s >= |p.fi| ==> Stores(p.funktionarer, s, []))
  }

  /** A payload that was loaded has all its snapshots. */
  ghost predicate LoadedAreThere(p: Parsed, raws: seq<Raw>, times: nat -> nat) {
    forall q, n :: 0 <= q < |raws| && times(q) > 0 && 1 <= n <= |FiItems(raws[q])| ==> HasSnap(p.fi, q, n)
  }

  lemma SnapIdIsTheOne(fi: seq<Snap<FiItem>>, s: nat)
    requires UniqueSnaps(fi) && s < |fi|
    ensures HasSnap(fi, fi[s].rawPayloadId, fi[s].sourceIndex) && SnapId(fi, fi[s].rawPayloadId, fi[s].sourceIndex) == s
  {
    assert fi[s] in fi;
  }

  lemma LoadFiItemOfficers(p: Parsed, raws: seq<Raw>, times: nat -> nat, id: nat, n: nat)
    requires Faithful(p, raws) && id < |raws| && 1 <= n <= |FiItems(raws[id])|
    requires OfficersPerLoad(p, times, id, n - 1) && LoadedAreThere(p, raws, times)
    ensures OfficersPerLoad(LoadFiItem(p, id, raws[id], FiItems(raws[id])[n - 1], n), times, id, n)
  {
    hide FiItems, HvdFaithful, ListsFaithful, AppendOfficers, InsertAbsent, Stores, SnapId, Repeated;
    var item := FiItems(raws[id])[n - 1];
    var row := FiRow(id, raws[id], item, n);
    var after := LoadFiItem(p, id, raws[id], item, n);
    AddSnapUnique(p.fi, row);
    assert row in p.fi + [row];
    var mine := SnapId(after.fi, id, n);
    assert mine < |p.fi| ==> p.fi[mine] in p.fi;
    assert after.fi[mine].item == item;
    forall s | s >= 0
      ensures s < |after.fi| ==> Stores(after.funktionarer, s,
                                        Repeated(after.fi[s].item.funktionarer, LoadsOf(after.fi[s], times, id, n)))
      ensures s >= |after.fi| ==> Stores(after.funktionarer, s, [])
    {
      if s == mine {
        StoresOnceMore(p, times, id, n, item, mine);
      } else {
        if s < |after.fi| {
          SnapIdIsTheOne(after.fi, s);
          SnapIdIsTheOne(after.fi, mine);
        }
        StoresSame(p.funktionarer, mine, item.funktionarer, s);
      }
    }
  }

  lemma StoresSame(rows: seq<Child<Officer>>, snapshotId: nat, officers: seq<Officer>, other: nat)
    requires other != snapshotId
    ensures forall list :: Stores(rows, other, list) ==> Stores(AppendOfficers(rows, snapshotId, officers), other, list)
  {
    AppendOfficersStoresOthers(rows, snapshotId, officers, other);
  }

  lemma StoresOnceMore(p: Parsed, times: nat -> nat, id: nat, n: nat, item: FiItem, mine: nat)
    requires n >= 1 && OfficersPerLoad(p, times, id, n - 1)
    requires mine <= |p.fi|
    requires mine < |p.fi| ==> p.fi[mine].rawPayloadId == id && p.fi[mine].sourceIndex == n && p.fi[mine].item == item
    requires mine == |p.fi| ==> times(id) == 0
    ensures Stores(AppendOfficers(p.funktionarer, mine, item.funktionarer), mine,
                   Repeated(item.funktionarer, times(id) + 1))
  {
    hide AppendOfficers, Stores;
    var list := Repeated(item.funktionarer, times(id));
    assert Stores(p.funktionarer, mine, list);
    AppendOfficersStores(p.funktionarer, mine, list, item.funktionarer);
    assert Repeated(item.funktionarer, times(id) + 1) == list + item.funktionarer;
  }

  lemma HasSnapGrows<T(!new)>(snaps: seq<Snap<T>>, row: Snap<T>)
    ensures HasSnap(AddSnap(snaps, row), row.rawPayloadId, row.sourceIndex)
    ensures forall q, n :: HasSnap(snaps, q, n) ==> HasSnap(AddSnap(snaps, row), q, n)
  {
    assert row in snaps + [row];
    assert forall s :: s in snaps ==> s in snaps + [row];
  }

  lemma {:induction false} LoadFiItemsOfficers(p: Parsed, raws: seq<Raw>, times: nat -> nat, id: nat,
                                               items: seq<FiItem>)
    requires Faithful(p, raws) && id < |raws| && items <= FiItems(raws[id])
    requires OfficersPerLoad(p, times, id, 0) && LoadedAreThere(p, raws, times)
    ensures OfficersPerLoad(LoadFiItems(p, id, raws[id], items), times, id, |items|)
    ensures LoadedAreThere(LoadFiItems(p, id, raws[id], items), raws, times)
    ensures forall n :: 1 <= n <= |items| ==> HasSnap(LoadFiItems(p, id, raws[id], items).fi, id, n)
  {
    hide OfficersPerLoad, Faithful, HasSnap, FiItems, AddSnap, AppendOfficers, InsertAbsent;
    if items != [] {
      var n := |items|;
      var before := LoadFiItems(p, id, raws[id], items[..n - 1]);
      LoadFiItemsOfficers(p, raws, times, id, items[..n - 1]);
      LoadFiFaithful(p, raws, id, items[..n - 1]);
      LoadFiItemOfficers(before, raws, times, id, n);
      HasSnapGrows(before.fi, FiRow(id, raws[id], items[n - 1], n));
    }
  }

  /** Between dispatches: each snapshot's officers are stored exactly once per load of its payload. */
  ghost predicate OfficersExact(p: Parsed, raws: seq<Raw>, times: nat -> nat) {
    && LoadedAreThere(p, raws, times)
    && (forall s :: 0 <= s < |p.fi| ==>
          Stores(p.funktionarer, s, Repeated(p.fi[s].item.funktionarer, times(p.fi[s].rawPayloadId))))
    && (forall s :: s >= |p.fi| ==> Stores(p.funktionarer, s, []))
  }

  ghost function OnceMore(times: nat -> nat, id: nat): nat -> nat {
    (q: nat) => times(q) + if q == id then 1 else 0
  }

  lemma DispatchOfficers(p: Parsed, raws: seq<Raw>, times: nat -> nat, id: nat)
    requires Faithful(p, raws) && id < |raws| && OfficersExact(p, raws, times)
    ensures OfficersExact(Dispatch(p, id, raws[id]), raws, OnceMore(times, id))
  {
    hide Stores, Repeated, HasSnap, FiItems, HvdItems, LoadFiItems, HvdFaithful, ListsFaithful, UniqueSnaps;
    var raw, items := raws[id], FiItems(raws[id]);
    forall s | 0 <= s < |p.fi| ensures LoadsOf(p.fi[s], times, id, 0) == times(p.fi[s].rawPayloadId) {
      assert p.fi[s] in p.fi;
    }
    LoadFiItemsOfficers(p, raws, times, id, items);
    LoadFiFaithful(p, raws, id, items);
    var loaded := LoadFiItems(p, id, raw, items);
    forall s | 0 <= s < |loaded.fi|
      ensures LoadsOf(loaded.fi[s], times, id, |items|) == OnceMore(times, id)(loaded.fi[s].rawPayloadId)
    {
      assert loaded.fi[s] in loaded.fi;
    }
    LoadHvdLeavesFi(loaded, id, raw, HvdItems(raw));
  }

  lemma {:induction false} LoadHvdLeavesFi(p: Parsed, id: nat, raw: Raw, items: seq<HvdItem>)
    ensures var after := LoadHvdItems(p, id, raw, items); after.fi == p.fi && after.funktionarer == p.funktionarer
  {
    if items != [] {
      LoadHvdLeavesFi(p, id, raw, items[..|items| - 1]);
    }
  }
}
