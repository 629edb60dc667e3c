/**
 Exactly which payloads can make the pipeline lose track of a company: those that hold data
 of a company other than the one their raw row is filed under
 (backend/src/migrations/1000000000028-BvPipelineQueueServingTables.ts:99-141, 510-531).
 */
module BvLostTrack {
  import opened Wrappers
  import opened BvParsed
  import opened BvLoaders
  import opened BvPipeline
  import opened BvPipelineSafety
  import opened BvPipelineTheorems

  // --- A loaded item shows in the "latest" views ---

  lemma {:induction false} FiItemsAreThere(p: Parsed, id: nat, raw: Raw, items: seq<FiItem>)
    ensures forall n :: 1 <= n <= |items| ==> HasSnap(LoadFiItems(p, id, raw, items).fi, id, n)
  {
    hide HasSnap, AddSnap, AppendOfficers, InsertAbsent;
    if items != [] {
      var n := |items|;
      FiItemsAreThere(p, id, raw, items[..n - 1]);
      HasSnapGrows(LoadFiItems(p, id, raw, items[..n - 1]).fi, FiRow(id, raw, items[n - 1], n));
    }
  }

  lemma {:induction false} HvdItemsAreThere(p: Parsed, id: nat, raw: Raw, items: seq<HvdItem>)
    ensures forall n :: 1 <= n <= |items| ==> HasSnap(LoadHvdItems(p, id, raw, items).hvd, id, n)
  {
    hide HasSnap, AddSnap, InsertAbsent;
    if items != [] {
      var n := |items|;
      HvdItemsAreThere(p, id, raw, items[..n - 1]);
      HasSnapGrows(LoadHvdItems(p, id, raw, items[..n - 1]).hvd, HvdRow(id, raw, items[n - 1], n));
    }
  }

  lemma DispatchStoresAll(p: Parsed, id: nat, raw: Raw)
    ensures forall n :: 1 <= n <= |FiItems(raw)| ==> HasSnap(Dispatch(p, id, raw).fi, id, n)
    ensures forall n :: 1 <= n <= |HvdItems(raw)| ==> HasSnap(Dispatch(p, id, raw).hvd, id, n)
  {
    hide HasSnap, LoadFiItems, LoadHvdItems, FiItems, HvdItems, AddSnap, InsertDocs;
    var first := LoadFiItems(p, id, raw, FiItems(raw));
    FiItemsAreThere(p, id, raw, FiItems(raw));
    HvdItemsAreThere(first, id, raw, HvdItems(raw));
    LoadHvdLeavesFi(first, id, raw, HvdItems(raw));
  }

  lemma FiItemShows(p: Parsed, raws: seq<Raw>, id: nat, n: nat)
    requires Faithful(p, raws) && id < |raws| && 1 <= n <= |FiItems(raws[id])|
    ensures Latest(Dispatch(p, id, raws[id]).fi, ItemKey(raws[id], FiItems(raws[id])[n - 1].ownNumber)).Some?
  {
    hide Dispatch, FiItems, Latest, HvdFaithful, ListsFaithful, UniqueSnaps, ItemKey;
    var after := Dispatch(p, id, raws[id]);
    DispatchStoresAll(p, id, raws[id]);
    DispatchFaithful(p, raws, id);
    assert HasSnap(after.fi, id, n);
    var s :| s in after.fi && s.rawPayloadId == id && s.sourceIndex == n;
    LatestIsNewest(after.fi, ItemKey(raws[id], FiItems(raws[id])[n - 1].ownNumber));
  }

  lemma HvdItemShows(p: Parsed, raws: seq<Raw>, id: nat, n: nat)
    requires Faithful(p, raws) && id < |raws| && 1 <= n <= |HvdItems(raws[id])|
    ensures Latest(Dispatch(p, id, raws[id]).hvd, ItemKey(raws[id], HvdItems(raws[id])[n - 1].ownNumber)).Some?
  {
    hide Dispatch, HvdItems, Latest, FiFaithful, ListsFaithful, UniqueSnaps, ItemKey;
    var after := Dispatch(p, id, raws[id]);
    DispatchStoresAll(p, id, raws[id]);
    DispatchFaithful(p, raws, id);
    assert HasSnap(after.hvd, id, n);
    var s :| s in after.hvd && s.rawPayloadId == id && s.sourceIndex == n;
    LatestIsNewest(after.hvd, ItemKey(raws[id], HvdItems(raws[id])[n - 1].ownNumber));
  }

  // --- Runs that lose a company ---

  /** A payload is stored, enqueued and parsed. */
  lemma ParsePayload(actions: seq<Action>, s: State, raw: Raw) returns (more: seq<Action>, s': State)
    requires Reaches(actions, s) && ReferencesHold(s)
    ensures Reaches(more, s') && ReferencesHold(s')
    ensures more == actions + [StoreRaw(raw)] + [Enqueue(|s.raws|, None, 0)] + [AttemptParse(|s.parseQueue|, true)]
    ensures s'.raws == s.raws + [raw] && s'.parsed == Dispatch(s.parsed, |s.raws|, raw) && s'.read == s.read
    ensures s'.refreshQueue == s.refreshQueue + [NewJob(raw.key, None, 0)]
  {
    hide Dispatch, Reaches, Refreshed;
    var stored := Exec(s, StoreRaw(raw));
    ReachesStep(actions, s, StoreRaw(raw));
    var enqueue := Enqueue(|s.raws|, None, 0);
    var queued := Exec(stored, enqueue);
    ReachesStep(actions + [StoreRaw(raw)], stored, enqueue);
    var attempt := AttemptParse(|s.parseQueue|, true);
    s' := Exec(queued, attempt);
    more := actions + [StoreRaw(raw)] + [enqueue] + [attempt];
    ReachesStep(actions + [StoreRaw(raw)] + [enqueue], queued, attempt);
  }

  /** The company's read rows differ from its view, and no refresh is owed to it. */
  ghost predicate Lost(s: State, key: Key) {
    !Fresh(s, key) && !Owed(s, key)
  }

  /** A foreign FI item loses its company at once. */
  lemma ForeignFiItemLoses(raw: Raw, n: nat) returns (actions: seq<Action>, s: State)
    requires 1 <= n <= |FiItems(raw)| && ItemKey(raw, FiItems(raw)[n - 1].ownNumber) != raw.key
    ensures actions == [StoreRaw(raw), Enqueue(0, None, 0), AttemptParse(0, true)]
    ensures Reaches(actions, s) && s.raws == [raw] && Lost(s, ItemKey(raw, FiItems(raw)[n - 1].ownNumber))
  {
    hide Dispatch, Reaches, FiItems, ItemKey, Latest, LatestChildren;
    var key := ItemKey(raw, FiItems(raw)[n - 1].ownNumber);
    assert Reaches([], START) by { ReachesNothing(); }
    actions, s := ParsePayload([], START, raw);
    FiItemShows(NOTHING_PARSED, [raw], 0, n);
    assert [] + [raw] == [raw];
    assert |View(s.parsed, key).overview| == 1 && ReadSlice(START.read, key).overview == [];
  }

  /** A payload filed under one company that holds another's data. */
  const HELD := Key("t", "5560000002")
  const MISFILED_RAW := Raw(Key("t", "5560000001"), "bolagsverket", 0,
                            Content(Some([FiItem(Some("5560000002"), "core", [], [])]), None, None))

  /** After three steps the other company's view has a row, its read table has none, and no job will fix it. */
  lemma MismatchIsForgotten() returns (s: State)
    ensures Reaches([StoreRaw(MISFILED_RAW), Enqueue(0, None, 0), AttemptParse(0, true)], s)
    ensures !Fresh(s, HELD) && !Owed(s, HELD)
  {
    hide Reaches, Fresh, Owed;
    var actions: seq<Action>;
    actions, s := ForeignFiItemLoses(MISFILED_RAW, 1);
  }

  lemma ReachesNothing()
    ensures Reaches([], START) && ReferencesHold(START)
  {
  }

  /** A payload of the foreign company itself, with one FI item. */
  function OwnPayload(key: Key): Raw {
    Raw(key, "bolagsverket", 0, Content(Some([FiItem(None, "core", [], [])]), None, None))
  }

  lemma OwnPayloadFacts(key: Key)
    ensures var raw := OwnPayload(key);
            && TouchedKeys(raw) == {key} && HvdItems(raw) == []
            && |FiItems(raw)| == 1 && ItemKey(raw, FiItems(raw)[0].ownNumber) == key
            && Dispatch(NOTHING_PARSED, 0, raw).hvd == []
  {
    var raw := OwnPayload(key);
    var item := FiItem(None, "core", [], []);
    assert FiItems(raw) == [item] && ItemKey(raw, item.ownNumber) == key;
    LoadFiLeavesHvd(NOTHING_PARSED, 0, raw, [item]);
    assert TouchedKeys(raw) == {key};
  }

  lemma {:induction false} LoadFiLeavesHvd(p: Parsed, id: nat, raw: Raw, items: seq<FiItem>)
    ensures LoadFiItems(p, id, raw, items).hvd == p.hvd
  {
    if items != [] {
      LoadFiLeavesHvd(p, id, raw, items[..|items| - 1]);
    }
  }

  /** The foreign company's own payload is parsed and refreshed. */
  lemma OwnPayloadServed(key: Key) returns (actions: seq<Action>, s: State)
    ensures Reaches(actions, s) && ReferencesHold(s) && s.raws == [OwnPayload(key)]
    ensures s.parsed == Dispatch(NOTHING_PARSED, 0, OwnPayload(key)) && Fresh(s, key)
    ensures |View(s.parsed, key).overview| == 1 && View(s.parsed, key).overview[0].hvd == None
    ensures forall i :: 0 <= i < |s.refreshQueue| ==> s.refreshQueue[i].status.Done?
  {
    hide Dispatch, Reaches, FiItems, HvdItems, ItemKey, Latest, Refreshed, View, ReadSlice, TouchedKeys;
    ReachesNothing();
    var parsed: State;
    actions, parsed := ParsePayload([], START, OwnPayload(key));
    ReachesStep(actions, parsed, AttemptRefresh(0, true));
    s := Exec(parsed, AttemptRefresh(0, true));
    actions := actions + [AttemptRefresh(0, true)];
    RefreshIsExact(parsed.read, parsed.parsed, key, key);
    assert [] + [OwnPayload(key)] == [OwnPayload(key)];
    OwnPayloadFacts(key);
    FiItemShows(NOTHING_PARSED, [OwnPayload(key)], 0, 1);
    OverviewWithoutHvd(s.parsed, key);
  }

  lemma OverviewWithoutHvd(p: Parsed, key: Key)
    requires p.hvd == [] && Latest(p.fi, key).Some?
    ensures |View(p, key).overview| == 1 && View(p, key).overview[0].hvd == None
  {
    hide LatestChildren;
  }

  lemma OverviewWithHvd(p: Parsed, key: Key)
    requires Latest(p.hvd, key).Some?
    ensures forall o :: o in View(p, key).overview ==> o.hvd.Some?
  {
    hide Latest, LatestChildren;
  }

  /** A foreign HVD item loses its company once that company has been served. */
  lemma ForeignHvdItemLoses(raw: Raw, n: nat) returns (actions: seq<Action>, s: State)
    requires 1 <= n <= |HvdItems(raw)| && ItemKey(raw, HvdItems(raw)[n - 1].ownNumber) != raw.key
    ensures var key := ItemKey(raw, HvdItems(raw)[n - 1].ownNumber);
            Reaches(actions, s) && s.raws == [OwnPayload(key), raw] && Lost(s, key)
  {
    hide Dispatch, Reaches, HvdItems, ItemKey, Latest, View, ReadSlice;
    var key := ItemKey(raw, HvdItems(raw)[n - 1].ownNumber);
    var served: State;
    actions, served := OwnPayloadServed(key);
    actions, s := ParsePayload(actions, served, raw);
    DispatchFaithful(NOTHING_PARSED, [OwnPayload(key)], 0);
    FaithfulLater(served.parsed, [OwnPayload(key)], raw);
    assert [OwnPayload(key)] + [raw] == [OwnPayload(key), raw];
    HvdItemShows(served.parsed, [OwnPayload(key), raw], 1, n);
    OverviewWithHvd(s.parsed, key);
    var shown := View(served.parsed, key).overview;
    assert shown[0] in shown;
  }

  // --- The condition ---

  /** Every other payload holds only data of its own company. */
  ghost predicate OthersMatch(raws: seq<Raw>, raw: Raw) {
    forall r :: r in raws && r != raw ==> TouchedKeys(r) <= {r.key}
  }

  /**
   A payload holds data of its own company only, exactly when no run in which all other
   payloads do so ever leaves a company neither up to date nor owed a refresh.
   */
  lemma PayloadIsHarmlessExactly(raw: Raw)
    ensures TouchedKeys(raw) <= {raw.key} <==>
            forall actions, s, key :: Reaches(actions, s) && OthersMatch(s.raws, raw) ==> !Lost(s, key)
  {
    hide Reaches, TouchedKeys, Fresh, Owed;
    if TouchedKeys(raw) <= {raw.key} {
      forall actions, s, key | Reaches(actions, s) && OthersMatch(s.raws, raw) ensures !Lost(s, key) {
        assert forall r :: r in s.raws ==> r == raw || TouchedKeys(r) <= {r.key};
        HarmlessRun(actions, s, raw, key);
      }
    } else {
      var actions, s, key := ForeignPayloadLoses(raw);
    }
  }

  lemma HarmlessRun(actions: seq<Action>, s: State, raw: Raw, key: Key)
    requires Reaches(actions, s) && OthersMatch(s.raws, raw) && TouchedKeys(raw) <= {raw.key}
    ensures !Lost(s, key)
  {
    hide Reaches, TouchedKeys, View, ReadSlice;
    StaleReadModelHasJobOwed(actions, s, key);
  }

  /** Every payload that holds another company's data loses a company in some run whose other payloads match. */
  lemma ForeignPayloadLoses(raw: Raw) returns (actions: seq<Action>, s: State, key: Key)
    requires !(TouchedKeys(raw) <= {raw.key})
    ensures Reaches(actions, s) && OthersMatch(s.raws, raw) && Lost(s, key)
  {
    hide Reaches, FiItems, HvdItems, ItemKey, Lost;
    key :| key in TouchedKeys(raw) && key != raw.key;
    if item :| item in FiItems(raw) && ItemKey(raw, item.ownNumber) == key {
      var i :| 0 <= i < |FiItems(raw)| && FiItems(raw)[i] == item;
      actions, s := ForeignFiItemLoses(raw, i + 1);
    } else {
      var item :| item in HvdItems(raw) && ItemKey(raw, item.ownNumber) == key;
      var i :| 0 <= i < |HvdItems(raw)| && HvdItems(raw)[i] == item;
      actions, s := ForeignHvdItemLoses(raw, i + 1);
      OwnPayloadFacts(key);
    }
  }
}
