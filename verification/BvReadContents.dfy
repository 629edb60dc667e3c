/**
 What the read tables show of a refreshed company, told from the stored payloads: the items of
 the newest parsed payload about it, whole and in order.
 (backend/src/migrations/1000000000026-AddBvParsedPayloadTables.ts:415-874,
 1000000000027-AddBvReadCurrentViews.ts, 1000000000028-BvPipelineQueueServingTables.ts:278-402)
 */
module BvReadContents {
  import opened Sequences
  import opened BvParsed
  import opened BvLoaders
  import opened BvPipeline
  import opened BvPipelineSafety

  // --- Lists stored once ---

  lemma IndicesOf<T(!new)>(rows: seq<Child<T>>, snapshotId: nat, list: seq<T>)
    requires Stores(rows, snapshotId, list)
    ensures forall n: nat :: HasIndex(rows, snapshotId, n) <==> 1 <= n <= |list|
  {
    var mine := Filter(OfSnapshot(snapshotId), rows);
    FilterMembers(OfSnapshot(snapshotId), rows);
    forall n: nat ensures HasIndex(rows, snapshotId, n) <==> 1 <= n <= |list| {
      if 1 <= n <= |list| {
        assert mine[n - 1] in mine && mine[n - 1].sourceIndex == n;
      }
      if r :| r in rows && r.snapshotId == snapshotId && r.sourceIndex == n {
        assert r in mine;
      }
    }
  }

  lemma {:induction false} InsertAbsentStores<T(!new)>(rows: seq<Child<T>>, snapshotId: nat, items: seq<T>)
    requires Stores(rows, snapshotId, [])
    ensures Stores(InsertAbsent(rows, snapshotId, items), snapshotId, items)
  {
    hide Stores, HasIndex;
    if items != [] {
      var n := |items|;
      var before := InsertAbsent(rows, snapshotId, items[..n - 1]);
      InsertAbsentStores(rows, snapshotId, items[..n - 1]);
      IndicesOf(before, snapshotId, items[..n - 1]);
      StoresOneMore(before, snapshotId, items[..n - 1], items[n - 1]);
      assert items[..n - 1] + [items[n - 1]] == items;
    }
  }

  lemma {:induction false} InsertAbsentElsewhere<T(!new)>(rows: seq<Child<T>>, snapshotId: nat, items: seq<T>,
                                                          other: nat)
    requires other != snapshotId
    ensures Filter(OfSnapshot(other), InsertAbsent(rows, snapshotId, items)) == Filter(OfSnapshot(other), rows)
  {
    hide HasIndex;
    if items != [] {
      var before := InsertAbsent(rows, snapshotId, items[..|items| - 1]);
      var row := Child(snapshotId, |items|, items[|items| - 1]);
      InsertAbsentElsewhere(rows, snapshotId, items[..|items| - 1], other);
      FilterConcat(OfSnapshot(other), before, [row]);
      FilterNone(OfSnapshot(other), [row]);
    }
  }

  /** Each snapshot's rows are its item's list, numbered from 1, and there are no others. */
  ghost predicate ListsAll<S(!new), T(!new)>(snaps: seq<Snap<S>>, rows: seq<Child<T>>, list: S -> seq<T>) {
    && (forall s: nat :: s < |snaps| ==> Stores(rows, s, list(snaps[s].item)))
    && (forall s: nat :: s >= |snaps| ==> Stores(rows, s, []))
  }

  lemma NewSnapId<S(!new)>(snaps: seq<Snap<S>>, row: Snap<S>)
    ensures var after := AddSnap(snaps, row);
            && HasSnap(after, row.rawPayloadId, row.sourceIndex)
            && var mine := SnapId(after, row.rawPayloadId, row.sourceIndex);
               if HasSnap(snaps, row.rawPayloadId, row.sourceIndex) then after == snaps && mine < |snaps|
               else after == snaps + [row] && mine == |snaps|
  {
    HasSnapGrows(snaps, row);
    var after := AddSnap(snaps, row);
    var mine := SnapId(after, row.rawPayloadId, row.sourceIndex);
    assert forall i :: 0 <= i < |snaps| ==> snaps[i] in snaps;
  }

  lemma SameRowsStore<T(!new)>(rows: seq<Child<T>>, rows': seq<Child<T>>, s: nat)
    requires Filter(OfSnapshot(s), rows) == Filter(OfSnapshot(s), rows')
    ensures forall list :: Stores(rows, s, list) ==> Stores(rows', s, list)
  {
  }

  /** Storing an item once more changes nothing; storing a new one adds its list. */
  lemma LoadKeepsLists<S(!new), T(!new)>(snaps: seq<Snap<S>>, rows: seq<Child<T>>, list: S -> seq<T>,
                                                 row: Snap<S>)
    requires ListsAll(snaps, rows, list)
    requires forall x :: x in snaps && x.rawPayloadId == row.rawPayloadId && x.sourceIndex == row.sourceIndex ==>
               x.item == row.item
    ensures var after := AddSnap(snaps, row);
            && HasSnap(after, row.rawPayloadId, row.sourceIndex)
            && var mine := SnapId(after, row.rawPayloadId, row.sourceIndex);
               ListsAll(after, InsertAbsent(rows, mine, list(row.item)), list)
  {
    NewSnapId(snaps, row);
    var after := AddSnap(snaps, row);
    var mine := SnapId(after, row.rawPayloadId, row.sourceIndex);
    hide InsertAbsent, HasSnap, SnapId, AddSnap, HasIndex;
    var items := list(row.item);
    if mine < |snaps| {
      assert snaps[mine] in snaps;
      hide Stores;
      IndicesOf(rows, mine, items);
      InsertAbsentAgain(rows, mine, items);
    } else {
      hide Stores;
      InsertAbsentStores(rows, mine, items);
      var rows' := InsertAbsent(rows, mine, items);
      forall s: nat
        ensures s < |after| ==> Stores(rows', s, list(after[s].item))
        ensures s >= |after| ==> Stores(rows', s, [])
      {
        if s != mine {
          InsertAbsentElsewhere(rows, mine, items, s);
          SameRowsStore(rows, rows', s);
        }
      }
    }
  }

  ghost function Reports(): FiItem -> seq<string> { (item: FiItem) => item.rapporter }

  ghost function Names(): HvdItem -> seq<string> { (item: HvdItem) => item.names }

  // --- Documents ---

  /** The row is a document of the list, at its place there, and the first with its id. */
  ghost predicate FirstOfId(r: Child<Doc>, snapshotId: nat, docs: seq<Doc>) {
    && r.snapshotId == snapshotId && 1 <= r.sourceIndex <= |docs| && r.item == docs[r.sourceIndex - 1]
    && forall m :: 0 <= m < r.sourceIndex - 1 ==> docs[m].dokumentId != r.item.dokumentId
  }

  ghost predicate InPlace(rows: seq<Child<Doc>>) {
    forall i, j :: 0 <= i < j < |rows| ==> rows[i].sourceIndex < rows[j].sourceIndex
  }

  /** The snapshot's rows are the documents of the list, in order, without those whose id came before. */
  ghost predicate StoresDocs(rows: seq<Child<Doc>>, snapshotId: nat, docs: seq<Doc>) {
    var mine := Filter(OfSnapshot(snapshotId), rows);
    InPlace(mine) && forall r :: r in mine <==> FirstOfId(r, snapshotId, docs)
  }

  lemma {:induction false} FirstWithId(docs: seq<Doc>, k: nat) returns (m: nat)
    requires k < |docs|
    ensures m <= k && docs[m].dokumentId == docs[k].dokumentId
    ensures forall j :: 0 <= j < m ==> docs[j].dokumentId != docs[m].dokumentId
  {
    if j: nat :| j < k && docs[j].dokumentId == docs[k].dokumentId {
      m := FirstWithId(docs, j);
    } else {
      m := k;
    }
  }

  lemma StoredDocs(rows: seq<Child<Doc>>, snapshotId: nat, docs: seq<Doc>)
    requires StoresDocs(rows, snapshotId, docs)
    ensures forall n: nat :: HasIndex(rows, snapshotId, n) ==> 1 <= n <= |docs|
    ensures forall id :: HasDoc(rows, snapshotId, id) <==> IdSeen(docs, id)
  {
    FilterMembers(OfSnapshot(snapshotId), rows);
    var mine := Filter(OfSnapshot(snapshotId), rows);
    forall r | r in rows && r.snapshotId == snapshotId ensures FirstOfId(r, snapshotId, docs) && r.item in docs {
      assert r in mine;
    }
    forall d | d in docs ensures HasDoc(rows, snapshotId, d.dokumentId) {
      var k: nat :| k < |docs| && docs[k] == d;
      var m := FirstWithId(docs, k);
      var r := Child(snapshotId, m + 1, docs[m]);
      assert FirstOfId(r, snapshotId, docs);
      assert r in mine;
    }
  }

  lemma {:induction false} InsertDocsStores(rows: seq<Child<Doc>>, snapshotId: nat, docs: seq<Doc>)
    requires StoresDocs(rows, snapshotId, [])
    ensures StoresDocs(InsertDocs(rows, snapshotId, docs), snapshotId, docs)
  {
    hide StoresDocs, HasIndex, HasDoc;
    if docs != [] {
      var n := |docs|;
      InsertDocsStores(rows, snapshotId, docs[..n - 1]);
      OneMoreDoc(InsertDocs(rows, snapshotId, docs[..n - 1]), snapshotId, docs);
    }
  }

  lemma OneMoreDoc(before: seq<Child<Doc>>, snapshotId: nat, docs: seq<Doc>)
    requires docs != [] && StoresDocs(before, snapshotId, docs[..|docs| - 1])
    ensures var n := |docs|;
            StoresDocs(if HasIndex(before, snapshotId, n) || HasDoc(before, snapshotId, docs[n - 1].dokumentId)
                       then before else before + [Child(snapshotId, n, docs[n - 1])], snapshotId, docs)
  {
    hide HasIndex, HasDoc, StoresDocs;
    StoredDocs(before, snapshotId, docs[..|docs| - 1]);
    if HasDoc(before, snapshotId, docs[|docs| - 1].dokumentId) {
      RepeatedDoc(before, snapshotId, docs);
    } else {
      NewDoc(before, snapshotId, docs);
    }
  }

  ghost predicate IdSeen(docs: seq<Doc>, id: string) {
    exists d :: d in docs && d.dokumentId == id
  }

  lemma RepeatedDoc(before: seq<Child<Doc>>, snapshotId: nat, docs: seq<Doc>)
    requires docs != [] && StoresDocs(before, snapshotId, docs[..|docs| - 1])
    requires IdSeen(docs[..|docs| - 1], docs[|docs| - 1].dokumentId)
    ensures StoresDocs(before, snapshotId, docs)
  {
    hide FirstOfId, InPlace, Filter, IdSeen;
    forall r ensures FirstOfId(r, snapshotId, docs) <==> FirstOfId(r, snapshotId, docs[..|docs| - 1]) {
      MoreDocs(r, snapshotId, docs);
    }
  }

  lemma NewDoc(before: seq<Child<Doc>>, snapshotId: nat, docs: seq<Doc>)
    requires docs != [] && StoresDocs(before, snapshotId, docs[..|docs| - 1])
    requires !IdSeen(docs[..|docs| - 1], docs[|docs| - 1].dokumentId)
    ensures StoresDocs(before + [Child(snapshotId, |docs|, docs[|docs| - 1])], snapshotId, docs)
  {
    var n, row := |docs|, Child(snapshotId, |docs|, docs[|docs| - 1]);
    FilterConcat(OfSnapshot(snapshotId), before, [row]);
    FilterAll(OfSnapshot(snapshotId), [row]);
    var mine := Filter(OfSnapshot(snapshotId), before);
    forall i | 0 <= i < |mine| ensures mine[i].sourceIndex < n {
      assert mine[i] in mine && FirstOfId(mine[i], snapshotId, docs[..n - 1]);
    }
    hide FirstOfId, Filter, IdSeen;
    forall r ensures FirstOfId(r, snapshotId, docs) <==> FirstOfId(r, snapshotId, docs[..n - 1]) || r == row {
      MoreDocs(r, snapshotId, docs);
    }
  }

  lemma MoreDocs(r: Child<Doc>, snapshotId: nat, docs: seq<Doc>)
    requires docs != []
    ensures var n := |docs|;
            FirstOfId(r, snapshotId, docs) <==>
            || FirstOfId(r, snapshotId, docs[..n - 1])
            || (&& r == Child(snapshotId, n, docs[n - 1])
                && !IdSeen(docs[..n - 1], docs[n - 1].dokumentId))
  {
    var n := |docs|;
    var before := docs[..n - 1];
    assert forall m :: 0 <= m < n - 1 ==> before[m] == docs[m] && docs[m] in before;
    if r == Child(snapshotId, n, docs[n - 1]) && FirstOfId(r, snapshotId, docs) {
      forall d | d in before ensures d.dokumentId != docs[n - 1].dokumentId {
        var m :| 0 <= m < n - 1 && before[m] == d;
      }
    }
  }

  lemma {:induction false} InsertDocsElsewhere(rows: seq<Child<Doc>>, snapshotId: nat, docs: seq<Doc>, other: nat)
    requires other != snapshotId
    ensures Filter(OfSnapshot(other), InsertDocs(rows, snapshotId, docs)) == Filter(OfSnapshot(other), rows)
  {
    hide HasIndex, HasDoc;
    if docs != [] {
      var before := InsertDocs(rows, snapshotId, docs[..|docs| - 1]);
      var row := Child(snapshotId, |docs|, docs[|docs| - 1]);
      InsertDocsElsewhere(rows, snapshotId, docs[..|docs| - 1], other);
      FilterConcat(OfSnapshot(other), before, [row]);
      FilterNone(OfSnapshot(other), [row]);
    }
  }

  ghost predicate ListsDocs(lists: seq<Snap<seq<Doc>>>, rows: seq<Child<Doc>>) {
    && (forall s: nat :: s < |lists| ==> StoresDocs(rows, s, lists[s].item))
    && (forall s: nat :: s >= |lists| ==> StoresDocs(rows, s, []))
  }

  lemma SameRowsStoreDocs(rows: seq<Child<Doc>>, rows': seq<Child<Doc>>, s: nat)
    requires Filter(OfSnapshot(s), rows) == Filter(OfSnapshot(s), rows')
    ensures forall docs :: StoresDocs(rows, s, docs) ==> StoresDocs(rows', s, docs)
  {
    hide FirstOfId, InPlace;
  }

  lemma LoadKeepsDocs(lists: seq<Snap<seq<Doc>>>, rows: seq<Child<Doc>>, row: Snap<seq<Doc>>)
    requires ListsDocs(lists, rows)
    requires forall x :: x in lists && x.rawPayloadId == row.rawPayloadId && x.sourceIndex == row.sourceIndex ==>
               x.item == row.item
    ensures var after := AddSnap(lists, row);
            && HasSnap(after, row.rawPayloadId, row.sourceIndex)
            && ListsDocs(after, InsertDocs(rows, SnapId(after, row.rawPayloadId, row.sourceIndex), row.item))
  {
    NewSnapId(lists, row);
    var after := AddSnap(lists, row);
    var mine := SnapId(after, row.rawPayloadId, row.sourceIndex);
    hide InsertDocs, HasSnap, SnapId, AddSnap, HasIndex, HasDoc;
    if mine < |lists| {
      assert lists[mine] in lists;
      hide StoresDocs;
      StoredDocs(rows, mine, row.item);
      InsertDocsAgain(rows, mine, row.item);
    } else {
      hide StoresDocs;
      InsertDocsStores(rows, mine, row.item);
      var rows' := InsertDocs(rows, mine, row.item);
      forall s: nat
        ensures s < |after| ==> StoresDocs(rows', s, after[s].item)
        ensures s >= |after| ==> StoresDocs(rows', s, [])
      {
        if s != mine {
          InsertDocsElsewhere(rows, mine, row.item, s);
          SameRowsStoreDocs(rows, rows', s);
        }
      }
    }
  }

  // --- One payload ---

  /** All lists are stored once, whole. */
  ghost predicate Whole(p: Parsed) {
    ListsAll(p.fi, p.rapporter, Reports()) && ListsAll(p.hvd, p.names, Names()) && ListsDocs(p.lists, p.documents)
  }

  lemma {:induction false} LoadFiWhole(p: Parsed, raws: seq<Raw>, id: nat, items: seq<FiItem>)
    requires Faithful(p, raws) && id < |raws| && items <= FiItems(raws[id]) && Whole(p)
    ensures Whole(LoadFiItems(p, id, raws[id], items))
  {
    hide Faithful, FiItems, ListsAll, ListsDocs, InsertAbsent, AppendOfficers, AddSnap, SnapId;
    if items != [] {
      var n := |items|;
      var before := LoadFiItems(p, id, raws[id], items[..n - 1]);
      LoadFiWhole(p, raws, id, items[..n - 1]);
      LoadFiFaithful(p, raws, id, items[..n - 1]);
      SameFiItem(before, raws, id, n);
      LoadKeepsLists(before.fi, before.rapporter, Reports(), FiRow(id, raws[id], items[n - 1], n));
    }
  }

  lemma SameFiItem(p: Parsed, raws: seq<Raw>, id: nat, n: nat)
    requires Faithful(p, raws) && id < |raws| && 1 <= n <= |FiItems(raws[id])|
    ensures forall x :: x in p.fi && x.rawPayloadId == id && x.sourceIndex == n ==> x.item == FiItems(raws[id])[n - 1]
  {
    hide FiItems;
  }

  lemma {:induction false} LoadHvdWhole(p: Parsed, raws: seq<Raw>, id: nat, items: seq<HvdItem>)
    requires Faithful(p, raws) && id < |raws| && items <= HvdItems(raws[id]) && Whole(p)
    ensures Whole(LoadHvdItems(p, id, raws[id], items))
  {
    hide Faithful, HvdItems, ListsAll, ListsDocs, InsertAbsent, AddSnap, SnapId;
    if items != [] {
      var n := |items|;
      var before := LoadHvdItems(p, id, raws[id], items[..n - 1]);
      LoadHvdWhole(p, raws, id, items[..n - 1]);
      LoadHvdFaithful(p, raws, id, items[..n - 1]);
      SameHvdItem(before, raws, id, n);
      LoadKeepsLists(before.hvd, before.names, Names(), HvdRow(id, raws[id], items[n - 1], n));
    }
  }

  lemma SameHvdItem(p: Parsed, raws: seq<Raw>, id: nat, n: nat)
    requires Faithful(p, raws) && id < |raws| && 1 <= n <= |HvdItems(raws[id])|
    ensures forall x :: x in p.hvd && x.rawPayloadId == id && x.sourceIndex == n ==> x.item == HvdItems(raws[id])[n - 1]
  {
    hide HvdItems;
  }

  lemma LoadDocsWhole(p: Parsed, raws: seq<Raw>, id: nat)
    requires Faithful(p, raws) && id < |raws| && raws[id].content.dokument.Some? && Whole(p)
    ensures Whole(LoadDocs(p, id, raws[id], raws[id].content.dokument.value))
  {
    hide ListsAll, ListsDocs, InsertDocs, AddSnap, SnapId, FiFaithful, HvdFaithful, UniqueSnaps;
    LoadKeepsDocs(p.lists, p.documents, ListRow(id, raws[id], raws[id].content.dokument.value));
  }

  lemma DispatchWhole(p: Parsed, raws: seq<Raw>, id: nat)
    requires Faithful(p, raws) && id < |raws| && Whole(p)
    ensures Whole(Dispatch(p, id, raws[id]))
  {
    hide Faithful, Whole, LoadFiItems, LoadHvdItems, LoadDocs, FiItems, HvdItems;
    var raw := raws[id];
    LoadFiWhole(p, raws, id, FiItems(raw));
    LoadFiFaithful(p, raws, id, FiItems(raw));
    var first := LoadFiItems(p, id, raw, FiItems(raw));
    LoadHvdWhole(first, raws, id, HvdItems(raw));
    LoadHvdFaithful(first, raws, id, HvdItems(raw));
    if raw.content.dokument.Some? {
      LoadDocsWhole(LoadHvdItems(first, id, raw, HvdItems(raw)), raws, id);
    }
  }

  /** In every reachable state all reports, names and documents are stored once and whole. */
  lemma {:induction false} AlwaysWhole(actions: seq<Action>, s: State)
    requires Reaches(actions, s)
    ensures Whole(s.parsed)
    decreases |actions|
  {
    if actions == [] {
      NothingStored();
    } else {
      hide Whole, Inv, Dispatch, Refreshed;
      var n := |actions| - 1;
      var before :| Reaches(actions[..n], before) && ReferencesHold(before) && Enabled(before, actions[n]) &&
                    s == Exec(before, actions[n]);
      AlwaysWhole(actions[..n], before);
      ReachableInv(actions[..n], before);
      StepWhole(before, actions[n]);
    }
  }

  lemma NothingStored()
    ensures Whole(START.parsed)
  {
    FilterNone(OfSnapshot<string>(0), []);
  }

  lemma StepWhole(s: State, a: Action)
    requires Inv(s) && Enabled(s, a) && Whole(s.parsed)
    ensures Whole(Exec(s, a).parsed)
  {
    hide Whole, Dispatch, Refreshed, Faithful, OfficersExact, OneRefreshPerParse, OneIngestPerRefresh, NeverLost,
         LookupJustified, JobsOk, Eligible;
    if a.AttemptParse? && a.ok {
      DispatchWhole(s.parsed, s.raws, s.parseQueue[a.parseRow].target);
    }
  }
}
