/**
 The pipeline's stored procedures over the tables they update in place: the batch loops,
 their savepoints and exception handlers, each proved to be the state machine's actions.
 (backend/src/migrations/1000000000028-BvPipelineQueueServingTables.ts:76-143, 480-552,
 1000000000033-OwnershipBvIngestionQueue.ts:40-93,
 1000000000026-AddBvParsedPayloadTables.ts:415-874)
 */
module BvDatabase {
  import opened Wrappers
  import opened BvParsed
  import opened BvPipeline
  import opened BvPipelineSafety

  /** `ORDER BY priority DESC, id` */
  predicate Before<T>(queue: seq<Job<T>>, i: nat, k: nat)
    requires i < |queue| && k < |queue|
  {
    queue[i].priority > queue[k].priority || (queue[i].priority == queue[k].priority && i < k)
  }

  predicate Selectable<T>(queue: seq<Job<T>>, locked: set<nat>, i: nat) {
    i < |queue| && Eligible(queue[i]) && i !in locked
  }

  /** The rows a worker's query returns: the best selectable ones, best first, at most `limit`. */
  ghost predicate IsBatch<T>(queue: seq<Job<T>>, locked: set<nat>, limit: nat, picked: seq<nat>) {
    && |picked| <= limit
    && (forall a :: 0 <= a < |picked| ==> Selectable(queue, locked, picked[a]))
    && (forall a, b :: 0 <= a < b < |picked| ==> Before(queue, picked[a], picked[b]))
    && (forall i :: Selectable(queue, locked, i) && i !in picked ==>
          |picked| == limit && forall a :: 0 <= a < |picked| ==> Before(queue, picked[a], i))
  }

  /** The best selectable row that is not yet picked. */
  method NextRow<T>(queue: seq<Job<T>>, locked: set<nat>, picked: seq<nat>) returns (best: Option<nat>)
    ensures best.None? ==> forall i :: Selectable(queue, locked, i) ==> i in picked
    ensures best.Some? ==> Selectable(queue, locked, best.value) && best.value !in picked
    ensures best.Some? ==> forall i :: Selectable(queue, locked, i) && i !in picked && i != best.value ==>
              Before(queue, best.value, i)
  {
    best := None;
    for i := 0 to |queue|
      invariant best.None? ==> forall k: nat :: Selectable(queue, locked, k) && k < i ==> k in picked
      invariant best.Some? ==> best.value < i && Selectable(queue, locked, best.value) && best.value !in picked
      invariant best.Some? ==>
        forall k: nat :: Selectable(queue, locked, k) && k < i && k !in picked && k != best.value ==>
          Before(queue, best.value, k)
    {
      if Selectable(queue, locked, i) && i !in picked &&
         (best.None? || queue[i].priority > queue[best.value].priority) {
        best := Some(i);
      }
    }
  }

  /** `SELECT … FOR UPDATE SKIP LOCKED LIMIT p_batch_size`; `locked` are the rows other workers hold. */
  method SelectBatch<T>(queue: seq<Job<T>>, locked: set<nat>, limit: nat) returns (picked: seq<nat>)
    ensures IsBatch(queue, locked, limit, picked)
  {
    picked := [];
    while |picked| < limit
      invariant |picked| <= limit
      invariant forall a :: 0 <= a < |picked| ==> Selectable(queue, locked, picked[a])
      invariant forall a, b :: 0 <= a < b < |picked| ==> Before(queue, picked[a], picked[b])
      invariant forall i, a :: Selectable(queue, locked, i) && i !in picked && 0 <= a < |picked| ==>
                  Before(queue, picked[a], i)
      decreases limit - |picked|
    {
      var best := NextRow(queue, locked, picked);
      if best.None? {
        return;
      }
      picked := picked + [best.value];
    }
  }

  ghost function ParseBatch(s: State, picked: seq<nat>, outcomes: nat -> bool): (s': State)
    requires ReferencesHold(s) && forall a :: 0 <= a < |picked| ==> picked[a] < |s.parseQueue|
    ensures ReferencesHold(s') && |s'.parseQueue| == |s.parseQueue|
  {
    if picked == [] then s else
      var n := |picked| - 1;
      var before := ParseBatch(s, picked[..n], outcomes);
      AfterParseKeepsReferences(before, picked[n], outcomes(n));
      AfterParse(before, picked[n], outcomes(n))
  }

  ghost function RefreshBatch(s: State, picked: seq<nat>, outcomes: nat -> bool): (s': State)
    requires forall a :: 0 <= a < |picked| ==> picked[a] < |s.refreshQueue|
    ensures |s'.refreshQueue| == |s.refreshQueue|
  {
    if picked == [] then s else
      AfterRefresh(RefreshBatch(s, picked[..|picked| - 1], outcomes), picked[|picked| - 1], outcomes(|picked| - 1))
  }

  lemma AfterParseKeepsReferences(s: State, i: nat, ok: bool)
    requires ReferencesHold(s) && i < |s.parseQueue|
    ensures ReferencesHold(AfterParse(s, i, ok)) && |AfterParse(s, i, ok).parseQueue| == |s.parseQueue|
  {
    hide Dispatch;
  }

  lemma ParseBatchStep(s: State, picked: seq<nat>, outcomes: nat -> bool, n: nat)
    requires ReferencesHold(s) && n < |picked| && forall a :: 0 <= a < |picked| ==> picked[a] < |s.parseQueue|
    ensures var before := ParseBatch(s, picked[..n], outcomes);
            && before.parseQueue[picked[n]].target < |before.raws|
            && ParseBatch(s, picked[..n + 1], outcomes) == AfterParse(before, picked[n], outcomes(n))
  {
    hide AfterParse;
    assert picked[..n + 1][..n] == picked[..n];
  }

  class Database {
    var raws: seq<Raw>
    var lookups: seq<LookupStatus>
    var parseQueue: seq<Job<nat>>
    var refreshQueue: seq<Job<Key>>
    var ingestQueue: seq<IngestRow>
    var parsed: Parsed
    var read: ReadTables

    constructor ()
      ensures Contents() == START
    {
      raws, lookups, parseQueue, refreshQueue, ingestQueue := [], [], [], [], [];
      parsed, read := NOTHING_PARSED, ReadTables([], [], [], []);
    }

    ghost function Contents(): State
      reads this
    {
      State(raws, lookups, parseQueue, refreshQueue, ingestQueue, parsed, read)
    }

    /** The officers of one snapshot, each numbered after the highest number stored so far. */
    static method StoreFunktionarer(rows: seq<Child<Officer>>, snapshotId: nat, funktionarer: seq<Officer>)
      returns (rows': seq<Child<Officer>>)
      ensures rows' == AppendOfficers(rows, snapshotId, funktionarer)
    {
      rows' := rows;
      for m := 0 to |funktionarer|
        invariant rows' == AppendOfficers(rows, snapshotId, funktionarer[..m])
      {
        hide NextIndex;
        assert funktionarer[..m + 1][..m] == funktionarer[..m];
        rows' := rows' + [Child(snapshotId, NextIndex(rows', snapshotId), funktionarer[m])];
      }
      assert funktionarer[..|funktionarer|] == funktionarer;
    }

    /** `load_fi_organisation_from_raw`, after the payload was found to have organisations. */
    method LoadFiOrganisation(id: nat, raw: Raw, items: seq<FiItem>)
      modifies this`parsed
      ensures parsed == LoadFiItems(old(parsed), id, raw, items)
    {
      hide AppendOfficers, InsertAbsent, SnapId;
      for n := 0 to |items|
        invariant parsed == LoadFiItems(old(parsed), id, raw, items[..n])
      {
        assert items[..n + 1][..n] == items[..n];
        var item := items[n];
        var row := FiRow(id, raw, item, n + 1);
        ghost var before := parsed;
        parsed := parsed.(fi := AddSnap(parsed.fi, row));
        assert HasSnap(parsed.fi, id, n + 1) by { assert row in before.fi + [row]; }
        var snapshotId := SnapId(parsed.fi, id, n + 1);
        var rows := StoreFunktionarer(parsed.funktionarer, snapshotId, item.funktionarer);
        parsed := parsed.(funktionarer := rows,
                          rapporter := InsertAbsent(parsed.rapporter, snapshotId, item.rapporter));
        assert parsed == LoadFiItem(before, id, raw, item, n + 1);
      }
      assert items[..|items|] == items;
    }

    /** `load_hvd_organisation_from_raw` */
    method LoadHvdOrganisation(id: nat, raw: Raw, items: seq<HvdItem>)
      modifies this`parsed
      ensures parsed == LoadHvdItems(old(parsed), id, raw, items)
    {
      for n := 0 to |items|
        invariant parsed == LoadHvdItems(old(parsed), id, raw, items[..n])
      {
        assert items[..n + 1][..n] == items[..n];
        var row := HvdRow(id, raw, items[n], n + 1);
        ghost var before := parsed;
        parsed := parsed.(hvd := AddSnap(parsed.hvd, row));
        assert HasSnap(parsed.hvd, id, n + 1) by { assert row in before.hvd + [row]; }
        parsed := parsed.(names := InsertAbsent(parsed.names, SnapId(parsed.hvd, id, n + 1), items[n].names));
        assert parsed == LoadHvdItem(before, id, raw, items[n], n + 1);
      }
      assert items[..|items|] == items;
    }

    /** `dispatch_raw_payload` */
    method DispatchRawPayload(id: nat)
      requires id < |raws|
      modifies this`parsed
      ensures parsed == Dispatch(old(parsed), id, raws[id])
    {
      hide LoadFiItems, LoadHvdItems;
      var raw := raws[id];
      LoadFiOrganisation(id, raw, FiItems(raw));
      LoadHvdOrganisation(id, raw, HvdItems(raw));
      if raw.content.dokument.Some? {
        parsed := LoadDocs(parsed, id, raw, raw.content.dokument.value);
      }
    }

    /** One turn of the parse loop: the row is claimed, worked on from a savepoint, and booked. */
    method ParseRow(i: nat, ok: bool)
      requires i < |parseQueue| && parseQueue[i].target < |raws|
      modifies this
      ensures Contents() == AfterParse(old(Contents()), i, ok)
    {
      hide Dispatch;
      var j := parseQueue[i];
      parseQueue := parseQueue[i := j.(status := Processing)];
      lookups := MarkParsing(lookups, j.lookup);
      var savepointParsed, savepointParse, savepointRefresh := parsed, parseQueue, refreshQueue;
      DispatchRawPayload(j.target);
      parseQueue := parseQueue[i := j.(status := Done)];
      refreshQueue := refreshQueue + [NewJob(raws[j.target].key, j.lookup, 0)];
      if !ok {
        parsed, parseQueue, refreshQueue := savepointParsed, savepointParse, savepointRefresh;
        var failed := AfterFailure(j);
        parseQueue := parseQueue[i := failed];
        if failed.status.Failed? {
          lookups := SetLookup(lookups, j.lookup, LookupFailed(false));
        }
      }
    }

    /** `process_parse_queue`; `outcomes` says which attempts succeed. */
    method ProcessParseQueue(batchSize: nat, locked: set<nat>, outcomes: nat -> bool) returns (picked: seq<nat>)
      requires ReferencesHold(Contents())
      modifies this
      ensures IsBatch(old(parseQueue), locked, batchSize, picked)
      ensures Contents() == ParseBatch(old(Contents()), picked, outcomes)
    {
      picked := SelectBatch(parseQueue, locked, batchSize);
      hide AfterParse, ReferencesHold;
      for n := 0 to |picked|
        invariant ReferencesHold(Contents()) && Contents() == ParseBatch(old(Contents()), picked[..n], outcomes)
      {
        ParseBatchStep(old(Contents()), picked, outcomes, n);
        assert parseQueue[picked[n]].target < |raws| by { RowIsKnown(Contents(), picked[n]); }
        ParseRow(picked[n], outcomes(n));
      }
      assert picked[..|picked|] == picked;
    }

    /** `refresh_company_current_all`: each read table in turn. */
    method RefreshCompany(key: Key)
      modifies this`read
      ensures read == Refreshed(old(read), parsed, key)
    {
      read := read.(overview := Replaced(read.overview, key, OverviewOf(parsed, key)));
      read := read.(officers := Replaced(read.officers, key, LatestChildren(parsed.fi, parsed.funktionarer, key)));
      read := read.(reports := Replaced(read.reports, key, LatestChildren(parsed.fi, parsed.rapporter, key)));
      read := read.(documents := Replaced(read.documents, key, LatestChildren(parsed.lists, parsed.documents, key)));
    }

    /** One turn of the refresh loop. */
    method RefreshRow(i: nat, ok: bool)
      requires i < |refreshQueue|
      modifies this
      ensures Contents() == AfterRefresh(old(Contents()), i, ok)
    {
      hide Refreshed;
      var j := refreshQueue[i];
      refreshQueue := refreshQueue[i := j.(status := Processing)];
      var savepointRead, savepointIngest := read, ingestQueue;
      var savepointRefresh, savepointLookups := refreshQueue, lookups;
      RefreshCompany(j.target);
      ingestQueue := ingestQueue + [IngestRow(j.target, i)];
      refreshQueue := refreshQueue[i := j.(status := Done)];
      lookups := SetLookup(lookups, j.lookup, Completed);
      if !ok {
        read, ingestQueue, refreshQueue, lookups := savepointRead, savepointIngest, savepointRefresh, savepointLookups;
        var failed := AfterFailure(j);
        refreshQueue := refreshQueue[i := failed];
        if failed.status.Failed? {
          lookups := SetLookup(lookups, j.lookup, LookupFailed(false));
        }
      }
    }

    /** `process_refresh_queue` */
    method ProcessRefreshQueue(batchSize: nat, locked: set<nat>, outcomes: nat -> bool) returns (picked: seq<nat>)
      modifies this
      ensures IsBatch(old(refreshQueue), locked, batchSize, picked)
      ensures Contents() == RefreshBatch(old(Contents()), picked, outcomes)
    {
      picked := SelectBatch(refreshQueue, locked, batchSize);
      hide AfterRefresh;
      for n := 0 to |picked|
        invariant Contents() == RefreshBatch(old(Contents()), picked[..n], outcomes)
      {
        assert picked[..n + 1][..n] == picked[..n];
        RefreshRow(picked[n], outcomes(n));
      }
      assert picked[..|picked|] == picked;
    }
  }

  // --- A batch is a run of attempts ---

  /** Every row of a parse batch is still eligible when its turn comes, so the batch is a run of actions. */
  lemma {:induction false} ParseBatchIsARun(actions: seq<Action>, s: State, locked: set<nat>, limit: nat,
                                            picked: seq<nat>, outcomes: nat -> bool, n: nat) returns (more: seq<Action>)
    requires Reaches(actions, s) && ReferencesHold(s) && IsBatch(s.parseQueue, locked, limit, picked) && n <= |picked|
    ensures |more| == n && forall a :: 0 <= a < n ==> more[a] == AttemptParse(picked[a], outcomes(a))
    ensures Reaches(actions + more, ParseBatch(s, picked[..n], outcomes))
    ensures forall i :: 0 <= i < |s.parseQueue| && i !in picked[..n] ==>
              ParseBatch(s, picked[..n], outcomes).parseQueue[i] == s.parseQueue[i]
  {
    hide Dispatch, Reaches, ParseBatch, AfterParse;
    if n == 0 {
      more := [];
      assert actions + more == actions && picked[..0] == [];
      NoBatch(s, outcomes);
    } else {
      more := ParseBatchIsARun(actions, s, locked, limit, picked, outcomes, n - 1);
      var a := AttemptParse(picked[n - 1], outcomes(n - 1));
      ParseBatchStep(s, picked, outcomes, n - 1);
      var before := ParseBatch(s, picked[..n - 1], outcomes);
      assert picked[n - 1] !in picked[..n - 1];
      assert before.parseQueue[picked[n - 1]] == s.parseQueue[picked[n - 1]];
      ReachesNext(actions + more, before, a);
      assert actions + more + [a] == actions + (more + [a]);
      OthersUntouched(before, picked[n - 1], outcomes(n - 1));
      assert picked[..n] == picked[..n - 1] + [picked[n - 1]];
      more := more + [a];
    }
  }

  lemma RefreshBatchStep(s: State, picked: seq<nat>, outcomes: nat -> bool, n: nat)
    requires n < |picked| && forall a :: 0 <= a < |picked| ==> picked[a] < |s.refreshQueue|
    ensures RefreshBatch(s, picked[..0], outcomes) == s
    ensures RefreshBatch(s, picked[..n + 1], outcomes)
         == AfterRefresh(RefreshBatch(s, picked[..n], outcomes), picked[n], outcomes(n))
  {
    hide AfterRefresh;
    assert picked[..n + 1][..n] == picked[..n];
  }

  /** Likewise for a refresh batch. */
  lemma {:induction false} RefreshBatchIsARun(actions: seq<Action>, s: State, locked: set<nat>, limit: nat,
                                              picked: seq<nat>, outcomes: nat -> bool, n: nat)
    returns (more: seq<Action>)
    requires Reaches(actions, s) && IsBatch(s.refreshQueue, locked, limit, picked) && n <= |picked|
    ensures |more| == n && forall a :: 0 <= a < n ==> more[a] == AttemptRefresh(picked[a], outcomes(a))
    ensures Reaches(actions + more, RefreshBatch(s, picked[..n], outcomes))
    ensures forall i :: 0 <= i < |s.refreshQueue| && i !in picked[..n] ==>
              RefreshBatch(s, picked[..n], outcomes).refreshQueue[i] == s.refreshQueue[i]
  {
    hide AfterRefresh, Reaches, ReferencesHold, RefreshBatch;
    if n == 0 {
      more := [];
      assert actions + more == actions && picked[..0] == [];
      assert RefreshBatch(s, [], outcomes) == s by { NoRefreshBatch(s, outcomes); }
    } else {
      more := RefreshBatchIsARun(actions, s, locked, limit, picked, outcomes, n - 1);
      var a := AttemptRefresh(picked[n - 1], outcomes(n - 1));
      RefreshBatchStep(s, picked, outcomes, n - 1);
      var before := RefreshBatch(s, picked[..n - 1], outcomes);
      assert picked[n - 1] !in picked[..n - 1];
      assert before.refreshQueue[picked[n - 1]] == s.refreshQueue[picked[n - 1]];
      ReachableReferences(actions + more, before);
      ReachesNext(actions + more, before, a);
      assert actions + more + [a] == actions + (more + [a]);
      OtherRefreshesUntouched(before, picked[n - 1], outcomes(n - 1));
      assert picked[..n] == picked[..n - 1] + [picked[n - 1]];
      more := more + [a];
    }
  }

  lemma OtherRefreshesUntouched(s: State, i: nat, ok: bool)
    requires i < |s.refreshQueue|
    ensures forall k :: 0 <= k < |s.refreshQueue| && k != i ==>
              AfterRefresh(s, i, ok).refreshQueue[k] == s.refreshQueue[k]
  {
    hide Refreshed;
  }

  lemma NoRefreshBatch(s: State, outcomes: nat -> bool)
    ensures RefreshBatch(s, [], outcomes) == s
  {
  }

  lemma ReachableReferences(actions: seq<Action>, s: State)
    requires Reaches(actions, s)
    ensures ReferencesHold(s)
  {
    ReachableInv(actions, s);
  }

  lemma NoBatch(s: State, outcomes: nat -> bool)
    requires ReferencesHold(s)
    ensures ParseBatch(s, [], outcomes) == s
  {
  }

  lemma OthersUntouched(s: State, i: nat, ok: bool)
    requires i < |s.parseQueue| && s.parseQueue[i].target < |s.raws|
    ensures |AfterParse(s, i, ok).parseQueue| == |s.parseQueue|
    ensures forall k :: 0 <= k < |s.parseQueue| && k != i ==> AfterParse(s, i, ok).parseQueue[k] == s.parseQueue[k]
  {
    hide Dispatch;
  }

  lemma ReachesNext(actions: seq<Action>, s: State, a: Action)
    requires Reaches(actions, s) && ReferencesHold(s) && Enabled(s, a)
    ensures Reaches(actions + [a], Exec(s, a))
  {
    assert (actions + [a])[..|actions|] == actions;
  }
}
