/**
 After a refresh the read tables show, of a company, the newest parsed payload about it: its
 core fields, all its officers and reports in order, and its documents.
 (backend/src/migrations/1000000000026-AddBvParsedPayloadTables.ts:415-874,
 1000000000027-AddBvReadCurrentViews.ts, 1000000000028-BvPipelineQueueServingTables.ts:278-402)
 */
module BvReadTheorems {
  import opened Wrappers
  import opened Sequences
  import opened BvParsed
  import opened BvLoaders
  import opened BvPipeline
  import opened BvPipelineSafety
  import opened BvPipelineTheorems
  import opened BvReadContents

  // --- What a payload tells ---

  /** The companies an item can be about: its own number, or else its payload's, of the payload's tenant. */
  ghost predicate About(raw: Raw, ownNumber: Option<string>, key: Key) {
    && key.tenantId == raw.key.tenantId
    && (ownNumber.Some? ==> key.organisationsnummer == ownNumber.value)
    && (ownNumber.None? ==> key.organisationsnummer == raw.key.organisationsnummer)
  }

  /** The `n`-th organisation of a payload from a source that carries them. */
  ghost predicate FiItemOf(raw: Raw, n: nat, item: FiItem) {
    && (raw.providerSource == "FI_ORGANISATIONER" || Orchestrated(raw))
    && raw.content.organisationInformation.Some?
    && 1 <= n <= |raw.content.organisationInformation.value|
    && item == raw.content.organisationInformation.value[n - 1]
  }

  ghost predicate HvdItemOf(raw: Raw, n: nat, item: HvdItem) {
    && (raw.providerSource == "HVD_ORGANISATIONER" || Orchestrated(raw))
    && raw.content.highValueDataset.Some?
    && 1 <= n <= |raw.content.highValueDataset.value|
    && item == raw.content.highValueDataset.value[n - 1]
  }

  ghost predicate Orchestrated(raw: Raw) {
    || raw.providerSource == "ORCHESTRATED_LOOKUP" || raw.providerSource == "BV_ORCHESTRATED"
    || raw.providerSource == "bolagsverket"
  }

  lemma ItemsAre(raw: Raw)
    ensures forall n: nat, item :: FiItemOf(raw, n, item) <==> 1 <= n <= |FiItems(raw)| && item == FiItems(raw)[n - 1]
    ensures forall n: nat, item :: HvdItemOf(raw, n, item) <==>
              1 <= n <= |HvdItems(raw)| && item == HvdItems(raw)[n - 1]
  {
  }

  /** The payload has been parsed. */
  ghost predicate IsParsed(s: State, q: nat) {
    q < |s.raws| && exists i :: 0 <= i < |s.parseQueue| && s.parseQueue[i].target == q && s.parseQueue[i].status.Done?
  }

  ghost predicate TellsFi(s: State, key: Key, q: nat, n: nat, item: FiItem) {
    q < |s.raws| && IsParsed(s, q) && FiItemOf(s.raws[q], n, item) && About(s.raws[q], item.ownNumber, key)
  }

  ghost predicate TellsHvd(s: State, key: Key, q: nat, n: nat, item: HvdItem) {
    q < |s.raws| && IsParsed(s, q) && HvdItemOf(s.raws[q], n, item) && About(s.raws[q], item.ownNumber, key)
  }

  ghost predicate TellsDocs(s: State, key: Key, q: nat) {
    q < |s.raws| && IsParsed(s, q) && s.raws[q].key == key && s.raws[q].content.dokument.Some?
  }

  // --- Snapshots are the items of parsed payloads ---

  lemma SnapAdded<T(!new)>(snaps: seq<Snap<T>>, row: Snap<T>)
    ensures forall q: nat, n: nat :: HasSnap(AddSnap(snaps, row), q, n) <==>
              HasSnap(snaps, q, n) || (q == row.rawPayloadId && n == row.sourceIndex)
  {
    HasSnapGrows(snaps, row);
    forall q: nat, n: nat | HasSnap(AddSnap(snaps, row), q, n)
      ensures HasSnap(snaps, q, n) || (q == row.rawPayloadId && n == row.sourceIndex)
    {
    }
  }

  lemma {:induction false} FiLoaded(p: Parsed, id: nat, raw: Raw, items: seq<FiItem>)
    ensures var after := LoadFiItems(p, id, raw, items);
            && after.hvd == p.hvd && after.lists == p.lists
            && forall q: nat, n: nat :: HasSnap(after.fi, q, n) <==>
                 HasSnap(p.fi, q, n) || (q == id && 1 <= n <= |items|)
  {
    hide HasSnap, AddSnap, AppendOfficers, InsertAbsent;
    if items != [] {
      var n := |items|;
      FiLoaded(p, id, raw, items[..n - 1]);
      SnapAdded(LoadFiItems(p, id, raw, items[..n - 1]).fi, FiRow(id, raw, items[n - 1], n));
    }
  }

  lemma {:induction false} HvdLoaded(p: Parsed, id: nat, raw: Raw, items: seq<HvdItem>)
    ensures var after := LoadHvdItems(p, id, raw, items);
            && after.fi == p.fi && after.lists == p.lists
            && forall q: nat, n: nat :: HasSnap(after.hvd, q, n) <==>
                 HasSnap(p.hvd, q, n) || (q == id && 1 <= n <= |items|)
  {
    hide HasSnap, AddSnap, InsertAbsent;
    if items != [] {
      var n := |items|;
      HvdLoaded(p, id, raw, items[..n - 1]);
      SnapAdded(LoadHvdItems(p, id, raw, items[..n - 1]).hvd, HvdRow(id, raw, items[n - 1], n));
    }
  }

  lemma DispatchLoaded(p: Parsed, id: nat, raw: Raw)
    ensures var after := Dispatch(p, id, raw);
            && (forall q: nat, n: nat :: HasSnap(after.fi, q, n) <==>
                  HasSnap(p.fi, q, n) || (q == id && 1 <= n <= |FiItems(raw)|))
            && (forall q: nat, n: nat :: HasSnap(after.hvd, q, n) <==>
                  HasSnap(p.hvd, q, n) || (q == id && 1 <= n <= |HvdItems(raw)|))
            && (forall q: nat, n: nat :: HasSnap(after.lists, q, n) <==>
                  HasSnap(p.lists, q, n) || (q == id && n == 1 && raw.content.dokument.Some?))
  {
    hide HasSnap, AddSnap, FiItems, HvdItems, LoadFiItems, LoadHvdItems, InsertDocs;
    FiLoaded(p, id, raw, FiItems(raw));
    var first := LoadFiItems(p, id, raw, FiItems(raw));
    HvdLoaded(first, id, raw, HvdItems(raw));
    var second := LoadHvdItems(first, id, raw, HvdItems(raw));
    if raw.content.dokument.Some? {
      SnapAdded(second.lists, ListRow(id, raw, raw.content.dokument.value));
    }
  }

  /** Every element of a parsed payload has its snapshot, and nothing else has one. */
  ghost predicate Mirrors(s: State) {
    && (forall q: nat, n: nat :: HasSnap(s.parsed.fi, q, n) <==> IsParsed(s, q) && 1 <= n <= |FiItems(s.raws[q])|)
    && (forall q: nat, n: nat :: HasSnap(s.parsed.hvd, q, n) <==> IsParsed(s, q) && 1 <= n <= |HvdItems(s.raws[q])|)
    && (forall q: nat, n: nat :: HasSnap(s.parsed.lists, q, n) <==>
          IsParsed(s, q) && n == 1 && s.raws[q].content.dokument.Some?)
  }

  lemma ParsedAfter(s: State, a: Action, q: nat)
    requires ReferencesHold(s) && Enabled(s, a)
    ensures IsParsed(Exec(s, a), q) <==>
            IsParsed(s, q) || (a.AttemptParse? && a.ok && s.parseQueue[a.parseRow].target == q)
    ensures IsParsed(s, q) ==> Exec(s, a).raws[q] == s.raws[q]
  {
    hide Dispatch, Refreshed;
    var s' := Exec(s, a);
    if IsParsed(s, q) {
      var i :| 0 <= i < |s.parseQueue| && s.parseQueue[i].target == q && s.parseQueue[i].status.Done?;
      assert s'.parseQueue[i].target == q && s'.parseQueue[i].status.Done?;
    }
    if a.AttemptParse? && a.ok && s.parseQueue[a.parseRow].target == q {
      assert s'.parseQueue[a.parseRow].target == q && s'.parseQueue[a.parseRow].status.Done?;
    }
    if IsParsed(s', q) {
      var i :| 0 <= i < |s'.parseQueue| && s'.parseQueue[i].target == q && s'.parseQueue[i].status.Done?;
      assert i < |s.parseQueue| && s.parseQueue[i].target == q;
    }
  }

  lemma MirrorsKept(s: State, a: Action)
    requires ReferencesHold(s) && Enabled(s, a) && Mirrors(s)
    ensures Mirrors(Exec(s, a))
  {
    hide Dispatch, Refreshed, HasSnap, FiItems, HvdItems, IsParsed, Eligible;
    forall q: nat
      ensures IsParsed(Exec(s, a), q) <==>
              IsParsed(s, q) || (a.AttemptParse? && a.ok && s.parseQueue[a.parseRow].target == q)
      ensures IsParsed(s, q) ==> q < |s.raws| && Exec(s, a).raws[q] == s.raws[q]
    {
      ParsedAfter(s, a, q);
      ParsedIsStored(s, q);
    }
    if a.AttemptParse? && a.ok {
      var id := s.parseQueue[a.parseRow].target;
      DispatchLoaded(s.parsed, id, s.raws[id]);
    }
  }

  lemma ParsedIsStored(s: State, q: nat)
    ensures IsParsed(s, q) ==> q < |s.raws|
  {
  }

  lemma {:induction false} AlwaysMirrors(actions: seq<Action>, s: State)
    requires Reaches(actions, s)
    ensures Mirrors(s)
    decreases |actions|
  {
    if actions != [] {
      hide Mirrors, Exec, Enabled;
      var n := |actions| - 1;
      var before :| Reaches(actions[..n], before) && ReferencesHold(before) && Enabled(before, actions[n]) &&
                    s == Exec(before, actions[n]);
      AlwaysMirrors(actions[..n], before);
      MirrorsKept(before, actions[n]);
    }
  }

  // --- The rows of one snapshot ---

  /** The rows without their ids. */
  ghost function Rows<T>(children: seq<Numbered<T>>): (r: seq<Child<T>>)
    ensures |r| == |children|
  {
    seq(|children|, j requires 0 <= j < |children| => children[j].row)
  }

  /** The list as rows of the snapshot, numbered from 1. */
  ghost function Listed<T>(snapshotId: nat, list: seq<T>): seq<Child<T>> {
    seq(|list|, j requires 0 <= j < |list| => Child(snapshotId, j + 1, list[j]))
  }

  lemma {:induction false} ChildRows<T(!new)>(rows: seq<Child<T>>, snapshotId: nat)
    ensures Rows(ChildrenOf(rows, snapshotId)) == Filter(OfSnapshot(snapshotId), rows)
  {
    if rows != [] {
      var m := |rows| - 1;
      ChildRows(rows[..m], snapshotId);
      assert rows == rows[..m] + [rows[m]];
      FilterConcat(OfSnapshot(snapshotId), rows[..m], [rows[m]]);
      RowsConcat(ChildrenOf(rows[..m], snapshotId), rows[m], m, snapshotId);
    }
  }

  lemma RowsConcat<T>(before: seq<Numbered<T>>, row: Child<T>, m: nat, snapshotId: nat)
    ensures Rows(before + if row.snapshotId == snapshotId then [Numbered(m, row)] else [])
         == Rows(before) + Filter(OfSnapshot(snapshotId), [row])
  {
    assert [row][1..] == [];
    assert before + [] == before;
  }

  lemma FiSnapTells(s: State, key: Key, i: nat)
    requires Faithful(s.parsed, s.raws) && Mirrors(s) && i < |s.parsed.fi| && s.parsed.fi[i].key == key
    ensures var snap := s.parsed.fi[i];
            && TellsFi(s, key, snap.rawPayloadId, snap.sourceIndex, snap.item)
            && snap.payloadCreatedAt == s.raws[snap.rawPayloadId].createdAt
  {
    hide HvdFaithful, ListsFaithful, UniqueSnaps, FiItems, IsParsed;
    var snap := s.parsed.fi[i];
    assert snap in s.parsed.fi;
    assert HasSnap(s.parsed.fi, snap.rawPayloadId, snap.sourceIndex);
    ItemsAre(s.raws[snap.rawPayloadId]);
  }

  lemma ToldFiHasSnap(s: State, key: Key, q: nat, n: nat, item: FiItem) returns (i: nat)
    requires Faithful(s.parsed, s.raws) && Mirrors(s) && TellsFi(s, key, q, n, item)
    ensures i < |s.parsed.fi| && s.parsed.fi[i].key == key && s.parsed.fi[i].payloadCreatedAt == s.raws[q].createdAt
  {
    hide HvdFaithful, ListsFaithful, UniqueSnaps, FiItems, IsParsed;
    ItemsAre(s.raws[q]);
    assert HasSnap(s.parsed.fi, q, n);
    i := SnapId(s.parsed.fi, q, n);
    assert s.parsed.fi[i] in s.parsed.fi;
  }

  lemma HvdSnapTells(s: State, key: Key, i: nat)
    requires Faithful(s.parsed, s.raws) && Mirrors(s) && i < |s.parsed.hvd| && s.parsed.hvd[i].key == key
    ensures var snap := s.parsed.hvd[i];
            && TellsHvd(s, key, snap.rawPayloadId, snap.sourceIndex, snap.item)
            && snap.payloadCreatedAt == s.raws[snap.rawPayloadId].createdAt
  {
    hide FiFaithful, ListsFaithful, UniqueSnaps, HvdItems, IsParsed;
    var snap := s.parsed.hvd[i];
    assert snap in s.parsed.hvd;
    assert HasSnap(s.parsed.hvd, snap.rawPayloadId, snap.sourceIndex);
    ItemsAre(s.raws[snap.rawPayloadId]);
  }

  lemma ToldHvdHasSnap(s: State, key: Key, q: nat, n: nat, item: HvdItem) returns (i: nat)
    requires Faithful(s.parsed, s.raws) && Mirrors(s) && TellsHvd(s, key, q, n, item)
    ensures i < |s.parsed.hvd| && s.parsed.hvd[i].key == key && s.parsed.hvd[i].payloadCreatedAt == s.raws[q].createdAt
  {
    hide FiFaithful, ListsFaithful, UniqueSnaps, HvdItems, IsParsed;
    ItemsAre(s.raws[q]);
    assert HasSnap(s.parsed.hvd, q, n);
    i := SnapId(s.parsed.hvd, q, n);
    assert s.parsed.hvd[i] in s.parsed.hvd;
  }

  lemma ListSnapTells(s: State, key: Key, i: nat)
    requires Faithful(s.parsed, s.raws) && Mirrors(s) && i < |s.parsed.lists| && s.parsed.lists[i].key == key
    ensures var snap := s.parsed.lists[i];
            && TellsDocs(s, key, snap.rawPayloadId) && snap.sourceIndex == 1
            && snap.item == s.raws[snap.rawPayloadId].content.dokument.value
            && snap.payloadCreatedAt == s.raws[snap.rawPayloadId].createdAt
  {
    hide FiFaithful, HvdFaithful, UniqueSnaps, IsParsed;
    var snap := s.parsed.lists[i];
    assert snap in s.parsed.lists;
    assert HasSnap(s.parsed.lists, snap.rawPayloadId, snap.sourceIndex);
  }

  lemma ToldListHasSnap(s: State, key: Key, q: nat) returns (i: nat)
    requires Faithful(s.parsed, s.raws) && Mirrors(s) && TellsDocs(s, key, q)
    ensures i < |s.parsed.lists| && s.parsed.lists[i].key == key
            && s.parsed.lists[i].payloadCreatedAt == s.raws[q].createdAt
  {
    hide FiFaithful, HvdFaithful, UniqueSnaps, IsParsed;
    assert HasSnap(s.parsed.lists, q, 1);
    i := SnapId(s.parsed.lists, q, 1);
    assert s.parsed.lists[i] in s.parsed.lists;
  }

  // --- What the read tables show ---

  /** The overview row has the core fields of the newest HVD item about the company, if there is one. */
  ghost predicate ShowsHvd(s: State, key: Key, row: Overview) {
    if row.hvd.None? then forall q: nat, n: nat, item :: !TellsHvd(s, key, q, n, item) else
      exists q: nat, n: nat, item :: TellsHvd(s, key, q, n, item) && row.hvd == Some(item.core) &&
        forall q': nat, n': nat, item' :: TellsHvd(s, key, q', n', item') ==>
          s.raws[q'].createdAt <= s.raws[q].createdAt
  }

  /** The snapshot is that of element `n` of payload `q`. */
  ghost predicate IsSnapOf<T>(snaps: seq<Snap<T>>, i: nat, q: nat, n: nat) {
    i < |snaps| && snaps[i].rawPayloadId == q && snaps[i].sourceIndex == n
  }

  /**
   The overview, officers and reports are those of the item `n` of payload `q`, the newest about
   the company; each officer as often as the payload was parsed.
   */
  ghost predicate ShowsFi(s: State, key: Key, shown: Slice, i: nat, q: nat, n: nat, item: FiItem) {
    && TellsFi(s, key, q, n, item) && IsSnapOf(s.parsed.fi, i, q, n)
    && (forall q': nat, n': nat, item' :: TellsFi(s, key, q', n', item') ==>
          s.raws[q'].createdAt <= s.raws[q].createdAt)
    && |shown.overview| == 1 && shown.overview[0].fi == item.core && ShowsHvd(s, key, shown.overview[0])
    && IdsRise(shown.officers) && IdsRise(shown.reports)
    && Rows(shown.officers) == Listed(i, Repeated(item.funktionarer, |Filter(DoneWith(q), s.parseQueue)|))
    && (|Filter(DoneWith(q), s.parseQueue)| == 1 ==> Rows(shown.officers) == Listed(i, item.funktionarer))
    && Rows(shown.reports) == Listed(i, item.rapporter)
  }

  lemma HvdShown(s: State, key: Key, fi: string)
    requires Faithful(s.parsed, s.raws) && Mirrors(s)
    ensures var hvd := Latest(s.parsed.hvd, key);
            ShowsHvd(s, key, Overview(fi, if hvd.Some? then Some(s.parsed.hvd[hvd.value].item.core) else None))
  {
    hide Mirrors, Faithful, IsParsed, HvdItemOf, About, Latest;
    LatestIsNewest(s.parsed.hvd, key);
    var hvd := Latest(s.parsed.hvd, key);
    if hvd.Some? {
      var snap := s.parsed.hvd[hvd.value];
      HvdSnapTells(s, key, hvd.value);
      forall q: nat, n: nat, item | TellsHvd(s, key, q, n, item)
        ensures s.raws[q].createdAt <= s.raws[snap.rawPayloadId].createdAt
      {
        var i := ToldHvdHasSnap(s, key, q, n, item);
      }
    } else {
      forall q: nat, n: nat, item ensures !TellsHvd(s, key, q, n, item) {
        if TellsHvd(s, key, q, n, item) {
          var i := ToldHvdHasSnap(s, key, q, n, item);
        }
      }
    }
  }

  lemma StoredIsListed<T(!new)>(rows: seq<Child<T>>, snapshotId: nat, list: seq<T>)
    requires Stores(rows, snapshotId, list)
    ensures Rows(ChildrenOf(rows, snapshotId)) == Listed(snapshotId, list)
    ensures IdsRise(ChildrenOf(rows, snapshotId))
  {
    ChildRows(rows, snapshotId);
    ChildrenExactly(rows, snapshotId);
  }

  lemma ReportsShown(s: State, i: nat)
    requires Whole(s.parsed) && i < |s.parsed.fi|
    ensures Rows(ChildrenOf(s.parsed.rapporter, i)) == Listed(i, s.parsed.fi[i].item.rapporter)
    ensures IdsRise(ChildrenOf(s.parsed.rapporter, i))
  {
    hide ChildrenOf, Filter, ListsDocs, Stores, Listed, Rows;
    assert Stores(s.parsed.rapporter, i, Reports()(s.parsed.fi[i].item));
    StoredIsListed(s.parsed.rapporter, i, s.parsed.fi[i].item.rapporter);
  }

  lemma OfficersShown(actions: seq<Action>, s: State, i: nat)
    requires Reaches(actions, s) && i < |s.parsed.fi|
    ensures var snap := s.parsed.fi[i];
            && Rows(ChildrenOf(s.parsed.funktionarer, i))
               == Listed(i, Repeated(snap.item.funktionarer, |Filter(DoneWith(snap.rawPayloadId), s.parseQueue)|))
            && IdsRise(ChildrenOf(s.parsed.funktionarer, i))
    ensures forall list: seq<Officer> :: Repeated(list, 1) == list
  {
    hide ChildrenOf, Filter, Reaches, Stores, Listed, Rows;
    OfficersStoredOncePerLoad(actions, s, i);
    var snap := s.parsed.fi[i];
    StoredIsListed(s.parsed.funktionarer, i,
                   Repeated(snap.item.funktionarer, |Filter(DoneWith(snap.rawPayloadId), s.parseQueue)|));
    forall list: seq<Officer> ensures Repeated(list, 1) == list {
      assert Repeated(list, 1) == Repeated(list, 0) + list;
    }
  }

  /**
   In every reachable state, a fresh company that some parsed payload tells of shows the newest
   such item: its core, its reports in order, and its officers in order, once if the payload
   was parsed once. A fresh company nothing tells of shows nothing.
   */
  lemma FreshShowsNewest(actions: seq<Action>, s: State, key: Key)
    requires Reaches(actions, s) && Fresh(s, key)
    ensures var shown := ReadSlice(s.read, key);
            if exists q: nat, n: nat, item :: TellsFi(s, key, q, n, item)
            then exists i: nat, q: nat, n: nat, item :: ShowsFi(s, key, shown, i, q, n, item)
            else shown.overview == [] && shown.officers == [] && shown.reports == []
  {
    FactsOf(actions, s);
    hide *;
    LatestIsNewest(s.parsed.fi, key);
    var latest := Latest(s.parsed.fi, key);
    if latest.None? {
      forall q: nat, n: nat, item ensures !TellsFi(s, key, q, n, item) {
        if TellsFi(s, key, q, n, item) {
          var j := ToldFiHasSnap(s, key, q, n, item);
        }
      }
      NothingViewed(s, key);
    } else {
      var i := latest.value;
      var snap := s.parsed.fi[i];
      FiSnapTells(s, key, i);
      forall q: nat, n: nat, item | TellsFi(s, key, q, n, item)
        ensures s.raws[q].createdAt <= s.raws[snap.rawPayloadId].createdAt
      {
        var j := ToldFiHasSnap(s, key, q, n, item);
      }
      HvdShown(s, key, snap.item.core);
      ReportsShown(s, i);
      OfficersShown(actions, s, i);
      NewestViewed(s, key, i);
      assert ShowsFi(s, key, ReadSlice(s.read, key), i, snap.rawPayloadId, snap.sourceIndex, snap.item) by {
        ShowsTogether(s, key, ReadSlice(s.read, key), i);
      }
    }
  }

  lemma FactsOf(actions: seq<Action>, s: State)
    requires Reaches(actions, s)
    ensures Faithful(s.parsed, s.raws) && Mirrors(s) && Whole(s.parsed)
  {
    hide Reaches, Faithful, Mirrors, Whole;
    ReachableInv(actions, s);
    AlwaysMirrors(actions, s);
    AlwaysWhole(actions, s);
  }

  lemma NothingViewed(s: State, key: Key)
    requires Fresh(s, key) && Latest(s.parsed.fi, key).None?
    ensures var shown := ReadSlice(s.read, key);
            shown.overview == [] && shown.officers == [] && shown.reports == []
  {
    hide ReadSlice, Latest;
  }

  lemma NewestViewed(s: State, key: Key, i: nat)
    requires Fresh(s, key) && Latest(s.parsed.fi, key) == Some(i)
    ensures var shown, hvd := ReadSlice(s.read, key), Latest(s.parsed.hvd, key);
            && shown.overview == [Overview(s.parsed.fi[i].item.core,
                                           if hvd.Some? then Some(s.parsed.hvd[hvd.value].item.core) else None)]
            && shown.officers == ChildrenOf(s.parsed.funktionarer, i)
            && shown.reports == ChildrenOf(s.parsed.rapporter, i)
  {
    hide ReadSlice, Latest, ChildrenOf;
  }

  lemma ShowsTogether(s: State, key: Key, shown: Slice, i: nat)
    requires i < |s.parsed.fi|
    requires var snap := s.parsed.fi[i];
             && TellsFi(s, key, snap.rawPayloadId, snap.sourceIndex, snap.item)
             && (forall q: nat, n: nat, item :: TellsFi(s, key, q, n, item) ==>
                   s.raws[q].createdAt <= s.raws[snap.rawPayloadId].createdAt)
             && |shown.overview| == 1 && shown.overview[0].fi == snap.item.core
             && ShowsHvd(s, key, shown.overview[0])
             && IdsRise(shown.officers) && IdsRise(shown.reports)
             && Rows(shown.officers)
                == Listed(i, Repeated(snap.item.funktionarer, |Filter(DoneWith(snap.rawPayloadId), s.parseQueue)|))
             && Rows(shown.reports) == Listed(i, snap.item.rapporter)
    requires forall list: seq<Officer> :: Repeated(list, 1) == list
    ensures var snap := s.parsed.fi[i];
            ShowsFi(s, key, shown, i, snap.rawPayloadId, snap.sourceIndex, snap.item)
  {
    hide TellsFi, ShowsHvd, IdsRise, Rows, Listed, Repeated, Filter;
  }

  /** The documents are those of payload `q`'s list, the newest of the company, each id once. */
  ghost predicate ShowsDocs(s: State, key: Key, shown: Slice, i: nat, q: nat) {
    && TellsDocs(s, key, q) && IsSnapOf(s.parsed.lists, i, q, 1) && IdsRise(shown.documents)
    && (forall q': nat :: TellsDocs(s, key, q') ==> s.raws[q'].createdAt <= s.raws[q].createdAt)
    && InPlace(Rows(shown.documents))
    && forall r :: r in Rows(shown.documents) <==> FirstOfId(r, i, s.raws[q].content.dokument.value)
  }

  /** A fresh company shows the documents of its newest parsed list; without one it shows none. */
  lemma FreshShowsDocuments(actions: seq<Action>, s: State, key: Key)
    requires Reaches(actions, s) && Fresh(s, key)
    ensures var shown := ReadSlice(s.read, key);
            if exists q: nat :: TellsDocs(s, key, q) then exists i: nat, q: nat :: ShowsDocs(s, key, shown, i, q)
            else shown.documents == []
  {
    FactsOf(actions, s);
    hide *;
    LatestIsNewest(s.parsed.lists, key);
    var latest := Latest(s.parsed.lists, key);
    DocumentsViewed(s, key);
    if latest.None? {
      forall q: nat ensures !TellsDocs(s, key, q) {
        if TellsDocs(s, key, q) {
          var j := ToldListHasSnap(s, key, q);
        }
      }
    } else {
      var i := latest.value;
      var q := s.parsed.lists[i].rawPayloadId;
      ListSnapTells(s, key, i);
      forall q': nat | TellsDocs(s, key, q')
        ensures s.raws[q'].createdAt <= s.raws[q].createdAt
      {
        var j := ToldListHasSnap(s, key, q');
      }
      DocsShown(s, i);
      assert ShowsDocs(s, key, ReadSlice(s.read, key), i, q) by { DocsTogether(s, key, ReadSlice(s.read, key), i); }
    }
  }

  lemma DocumentsViewed(s: State, key: Key)
    requires Fresh(s, key)
    ensures var latest := Latest(s.parsed.lists, key);
            ReadSlice(s.read, key).documents
            == if latest.Some? then ChildrenOf(s.parsed.documents, latest.value) else []
  {
    hide ReadSlice, Latest, ChildrenOf;
  }

  lemma DocsShown(s: State, i: nat)
    requires Whole(s.parsed) && i < |s.parsed.lists|
    ensures var rows := ChildrenOf(s.parsed.documents, i);
            && IdsRise(rows) && InPlace(Rows(rows))
            && forall r :: r in Rows(rows) <==> FirstOfId(r, i, s.parsed.lists[i].item)
  {
    ChildRows(s.parsed.documents, i);
    ChildrenExactly(s.parsed.documents, i);
    hide ChildrenOf, Filter, ListsAll, InPlace, FirstOfId;
    assert StoresDocs(s.parsed.documents, i, s.parsed.lists[i].item);
  }

  lemma DocsTogether(s: State, key: Key, shown: Slice, i: nat)
    requires i < |s.parsed.lists|
    requires var q := s.parsed.lists[i].rawPayloadId;
             && s.parsed.lists[i].sourceIndex == 1
             && TellsDocs(s, key, q) && s.parsed.lists[i].item == s.raws[q].content.dokument.value
             && (forall q': nat :: TellsDocs(s, key, q') ==> s.raws[q'].createdAt <= s.raws[q].createdAt)
             && IdsRise(shown.documents) && InPlace(Rows(shown.documents))
             && forall r :: r in Rows(shown.documents) <==> FirstOfId(r, i, s.parsed.lists[i].item)
    ensures ShowsDocs(s, key, shown, i, s.parsed.lists[i].rawPayloadId)
  {
    hide IdsRise, InPlace, Rows, FirstOfId;
  }

  /**
   So when every payload keeps to its own company and no refresh of a company is owed, its read
   tables show its newest parsed items.
   */
  lemma NothingOwedShowsNewest(actions: seq<Action>, s: State, key: Key)
    requires Reaches(actions, s) && NumbersMatch(s.raws) && !Owed(s, key)
    ensures var shown := ReadSlice(s.read, key);
            && (if exists q: nat, n: nat, item :: TellsFi(s, key, q, n, item)
                then exists i: nat, q: nat, n: nat, item :: ShowsFi(s, key, shown, i, q, n, item)
                else shown.overview == [] && shown.officers == [] && shown.reports == [])
            && (if exists q: nat :: TellsDocs(s, key, q)
                then exists i: nat, q: nat :: ShowsDocs(s, key, shown, i, q)
                else shown.documents == [])
  {
    hide Reaches, NumbersMatch, Owed, ReadSlice, View, TellsFi, TellsDocs, ShowsFi, ShowsDocs;
    StaleReadModelHasJobOwed(actions, s, key);
    FreshShowsNewest(actions, s, key);
    FreshShowsDocuments(actions, s, key);
  }
}
