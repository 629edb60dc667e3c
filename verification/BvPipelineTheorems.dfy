/**
 The pipeline's promises, over every run: no stale read model is forgotten, officers are
 stored once per load, queues stay sane and drain, and lookups report the truth.
 (backend/src/migrations/1000000000028-BvPipelineQueueServingTables.ts:278-402, 494-552,
 1000000000033-OwnershipBvIngestionQueue.ts:40-93)
 */
module BvPipelineTheorems {
  import opened Wrappers
  import opened Sequences
  import opened BvParsed
  import opened BvLoaders
  import opened BvPipeline
  import opened BvPipelineSafety

  /** Every payload holds only data of the company its raw row is filed under. */
  ghost predicate NumbersMatch(raws: seq<Raw>) {
    forall raw :: raw in raws ==> TouchedKeys(raw) <= {raw.key}
  }

  /**
   In every reachable state and for every company: its read rows equal its view, or a
   refresh row for it is still pending, to be retried or failed.
   */
  lemma StaleReadModelHasJobOwed(actions: seq<Action>, s: State, key: Key)
    requires Reaches(actions, s) && NumbersMatch(s.raws)
    ensures ReadSlice(s.read, key) == View(s.parsed, key) || Owed(s, key)
  {
    ReachableInv(actions, s);
    hide ReadSlice, View, TouchedKeys, Faithful, OfficersExact, OneRefreshPerParse, OneIngestPerRefresh, Owed;
    assert Fresh(s, key) || Owed(s, key) || Misfiled(s, key);
  }

  lemma ReachesStep(actions: seq<Action>, s: State, a: Action)
    requires Reaches(actions, s) && ReferencesHold(s) && Enabled(s, a)
    ensures Reaches(actions + [a], Exec(s, a))
  {
    assert (actions + [a])[..|actions|] == actions;
  }

  // --- Exactly-once parse effect ---

  /** However many attempts failed first, a snapshot's officers are stored once per done parse row of its payload. */
  lemma OfficersStoredOncePerLoad(actions: seq<Action>, s: State, snapshotId: nat)
    requires Reaches(actions, s) && snapshotId < |s.parsed.fi|
    ensures var snap := s.parsed.fi[snapshotId];
            Stores(s.parsed.funktionarer, snapshotId,
                   Repeated(snap.item.funktionarer, |Filter(DoneWith(snap.rawPayloadId), s.parseQueue)|))
  {
    ReachableInv(actions, s);
    hide Stores, Repeated;
    assert DoneLoads(s.parseQueue)(s.parsed.fi[snapshotId].rawPayloadId) ==
           |Filter(DoneWith(s.parsed.fi[snapshotId].rawPayloadId), s.parseQueue)|;
  }

  /** An item of a payload that was loaded has its snapshot, which holds the item. */
  lemma DoneLoadIsStored(s: State, id: nat, n: nat)
    requires Inv(s) && id < |s.raws| && 1 <= n <= |FiItems(s.raws[id])| && |Filter(DoneWith(id), s.parseQueue)| > 0
    ensures HasSnap(s.parsed.fi, id, n)
    ensures var snap := s.parsed.fi[SnapId(s.parsed.fi, id, n)];
            snap.rawPayloadId == id && snap.item == FiItems(s.raws[id])[n - 1]
  {
    hide Stores, FiItems, ReferencesHold, JobsOk, OneRefreshPerParse, OneIngestPerRefresh, NeverLost, LookupJustified,
         HvdFaithful, ListsFaithful, UniqueSnaps;
    assert DoneLoads(s.parseQueue)(id) > 0;
    assert s.parsed.fi[SnapId(s.parsed.fi, id, n)] in s.parsed.fi;
  }

  /**
   Once a payload's only parse row is done, every one of its FI elements has a snapshot
   whose officers are stored exactly once, with source_index 1 to n.
   */
  lemma EnqueuedOnceIsStoredOnce(actions: seq<Action>, s: State, id: nat, n: nat)
    requires Reaches(actions, s) && id < |s.raws| && 1 <= n <= |FiItems(s.raws[id])|
    requires |Filter(DoneWith(id), s.parseQueue)| == 1
    ensures HasSnap(s.parsed.fi, id, n)
    ensures Stores(s.parsed.funktionarer, SnapId(s.parsed.fi, id, n), FiItems(s.raws[id])[n - 1].funktionarer)
  {
    hide Inv, Reaches, Stores, FiItems;
    ReachableInv(actions, s);
    DoneLoadIsStored(s, id, n);
    OfficersStoredOncePerLoad(actions, s, SnapId(s.parsed.fi, id, n));
    var list := FiItems(s.raws[id])[n - 1].funktionarer;
    assert Repeated(list, 1) == Repeated(list, 0) + list == list;
  }

  /** The FI loader is not idempotent: officers are stored exactly once only if the payload was loaded exactly once. */
  lemma StoredOnceMeansLoadedOnce(actions: seq<Action>, s: State, snapshotId: nat)
    requires Reaches(actions, s) && snapshotId < |s.parsed.fi| && s.parsed.fi[snapshotId].item.funktionarer != []
    ensures Stores(s.parsed.funktionarer, snapshotId, s.parsed.fi[snapshotId].item.funktionarer) <==>
            |Filter(DoneWith(s.parsed.fi[snapshotId].rawPayloadId), s.parseQueue)| == 1
  {
    hide Reaches, Filter;
    OfficersStoredOncePerLoad(actions, s, snapshotId);
    var snap := s.parsed.fi[snapshotId];
    var times := |Filter(DoneWith(snap.rawPayloadId), s.parseQueue)|;
    RepeatedLength(snap.item.funktionarer, times);
    if times == 1 {
      assert Repeated(snap.item.funktionarer, 1) == Repeated(snap.item.funktionarer, 0) + snap.item.funktionarer;
      assert Repeated(snap.item.funktionarer, 1) == snap.item.funktionarer;
    } else if times > 1 {
      assert |Repeated(snap.item.funktionarer, times)| > |snap.item.funktionarer|;
    }
  }

  /** What two callers do who enqueue the same payload: both rows are parsed. */
  function EnqueuedTwiceRun(raw: Raw): seq<Action> {
    [StoreRaw(raw), Enqueue(0, None, 0), Enqueue(0, None, 0), AttemptParse(0, true), AttemptParse(1, true)]
  }

  lemma EnqueuedTwice(raw: Raw) returns (s: State)
    ensures Reaches(EnqueuedTwiceRun(raw), s) && s.raws == [raw] && |Filter(DoneWith(0), s.parseQueue)| == 2
  {
    hide Dispatch, Refreshed, Reaches, Filter;
    var run := EnqueuedTwiceRun(raw);
    var stored := Exec(START, run[0]);
    var once := Exec(stored, run[1]);
    var twice := Exec(once, run[2]);
    var parsed := Exec(twice, run[3]);
    s := Exec(parsed, run[4]);
    StartReached();
    ReachesStep([], START, run[0]);
    ReachesStep([] + [run[0]], stored, run[1]);
    ReachesStep([] + [run[0]] + [run[1]], once, run[2]);
    ReachesStep([] + [run[0]] + [run[1]] + [run[2]], twice, run[3]);
    ReachesStep([] + [run[0]] + [run[1]] + [run[2]] + [run[3]], parsed, run[4]);
    assert [] + [run[0]] + [run[1]] + [run[2]] + [run[3]] + [run[4]] == run;
    assert |s.parseQueue| == 2 && forall j :: j in s.parseQueue ==> DoneWith(0)(j);
    FilterAll(DoneWith(0), s.parseQueue);
  }

  lemma StartReached()
    ensures Reaches([], START)
  {
  }

  /** A payload whose company has one officer. */
  const ONE_OFFICER := Officer("191212121212", [])
  const ONE_OFFICER_RAW := Raw(Key("t", "5560000001"), "bolagsverket", 0,
                               Content(Some([FiItem(None, "core", [ONE_OFFICER], [])]), None, None))

  /** Enqueued by two callers, the payload's one officer is stored twice. */
  lemma EnqueuedTwiceIsStoredTwice() returns (s: State)
    ensures Reaches(EnqueuedTwiceRun(ONE_OFFICER_RAW), s) && HasSnap(s.parsed.fi, 0, 1)
    ensures Stores(s.parsed.funktionarer, SnapId(s.parsed.fi, 0, 1), [ONE_OFFICER, ONE_OFFICER])
  {
    hide Inv, Reaches, Stores, HasSnap, Filter;
    s := EnqueuedTwice(ONE_OFFICER_RAW);
    ReachableInv(EnqueuedTwiceRun(ONE_OFFICER_RAW), s);
    assert |FiItems(ONE_OFFICER_RAW)| == 1 && FiItems(ONE_OFFICER_RAW)[0].funktionarer == [ONE_OFFICER];
    DoneLoadIsStored(s, 0, 1);
    OfficersStoredOncePerLoad(EnqueuedTwiceRun(ONE_OFFICER_RAW), s, SnapId(s.parsed.fi, 0, 1));
    var list := [ONE_OFFICER];
    assert Repeated(list, 2) == Repeated(list, 1) + list && Repeated(list, 1) == Repeated(list, 0) + list;
    assert Repeated(list, 2) == [ONE_OFFICER, ONE_OFFICER];
  }

  lemma {:induction false} RepeatedLength<T>(list: seq<T>, times: nat)
    ensures |Repeated(list, times)| == times * |list|
    ensures times > 1 && list != [] ==> |Repeated(list, times)| > |list|
  {
    if times > 0 {
      RepeatedLength(list, times - 1);
    }
  }

  // --- Queue safety and termination ---

  lemma QueuesStaySane(actions: seq<Action>, s: State)
    requires Reaches(actions, s)
    ensures forall i :: 0 <= i < |s.parseQueue| ==> JobOk(s.parseQueue[i])
    ensures forall i :: 0 <= i < |s.parseQueue| && s.parseQueue[i].status.Retry? ==> Eligible(s.parseQueue[i])
    ensures forall i :: 0 <= i < |s.refreshQueue| ==> JobOk(s.refreshQueue[i])
    ensures forall i :: 0 <= i < |s.refreshQueue| && s.refreshQueue[i].status.Retry? ==> Eligible(s.refreshQueue[i])
  {
    ReachableInv(actions, s);
  }

  lemma EachDoneRowLeadsToOne(actions: seq<Action>, s: State)
    requires Reaches(actions, s)
    ensures OneRefreshPerParse(s) && OneIngestPerRefresh(s)
  {
    ReachableInv(actions, s);
  }

  /** Done and failed rows never change again, and no row changes what it is for. */
  lemma FinishedRowsAreFinal(s: State, a: Action)
    requires ReferencesHold(s) && Enabled(s, a)
    ensures |s.parseQueue| <= |Exec(s, a).parseQueue| && |s.refreshQueue| <= |Exec(s, a).refreshQueue|
    ensures forall i :: 0 <= i < |s.parseQueue| ==>
              && Exec(s, a).parseQueue[i].target == s.parseQueue[i].target
              && (s.parseQueue[i].status.Done? || s.parseQueue[i].status.Failed? ==>
                    Exec(s, a).parseQueue[i] == s.parseQueue[i])
    ensures forall i :: 0 <= i < |s.refreshQueue| ==>
              && Exec(s, a).refreshQueue[i].target == s.refreshQueue[i].target
              && (s.refreshQueue[i].status.Done? || s.refreshQueue[i].status.Failed? ==>
                    Exec(s, a).refreshQueue[i] == s.refreshQueue[i])
  {
    hide Dispatch, Refreshed;
  }

  /** The attempts a row can still take, and `extra` for what its success would start. */
  ghost function RowWork<T>(j: Job<T>, extra: nat): nat {
    if Eligible(j) then (if j.maxRetries > j.retryCount then j.maxRetries - j.retryCount else 1) + extra else 0
  }

  ghost function Work<T>(queue: seq<Job<T>>, extra: nat): nat {
    if queue == [] then 0 else Work(queue[..|queue| - 1], extra) + RowWork(queue[|queue| - 1], extra)
  }

  lemma {:induction false} WorkUpdate<T>(queue: seq<Job<T>>, extra: nat, i: nat, j: Job<T>)
    requires i < |queue|
    ensures Work(queue[i := j], extra) == Work(queue, extra) - RowWork(queue[i], extra) + RowWork(j, extra)
  {
    hide RowWork;
    var n := |queue| - 1;
    if i == n {
      assert queue[i := j][..n] == queue[..n];
    } else {
      assert queue[i := j][..n] == queue[..n][i := j];
      WorkUpdate(queue[..n], extra, i, j);
    }
  }

  /** A parse row may cost its own attempts and those of the refresh row it leads to. */
  ghost function TotalWork(s: State): nat {
    Work(s.parseQueue, MAX_RETRIES) + Work(s.refreshQueue, 0)
  }

  /** Every attempt, successful or not, leaves strictly less work. */
  lemma EveryAttemptCounts(s: State, a: Action)
    requires Inv(s) && Enabled(s, a) && (a.AttemptParse? || a.AttemptRefresh?)
    ensures TotalWork(Exec(s, a)) < TotalWork(s)
  {
    hide Dispatch, Refreshed, Faithful, OfficersExact, OneRefreshPerParse, OneIngestPerRefresh, NeverLost,
         LookupJustified;
    match a
    case AttemptParse(i, ok) =>
      WorkUpdate(s.parseQueue, MAX_RETRIES, i, Exec(s, a).parseQueue[i]);
      if ok {
        var more := Exec(s, a).refreshQueue;
        assert more[..|more| - 1] == s.refreshQueue;
      }
    case AttemptRefresh(i, ok) =>
      WorkUpdate(s.refreshQueue, 0, i, Exec(s, a).refreshQueue[i]);
  }

  ghost predicate Drains(s: State, attempts: seq<Action>, s': State)
    decreases |attempts|
  {
    if attempts == [] then s' == s else
      var n := |attempts| - 1;
      (attempts[n].AttemptParse? || attempts[n].AttemptRefresh?) &&
      exists before ::
        Drains(s, attempts[..n], before) && ReferencesHold(before) && Enabled(before, attempts[n]) &&
        s' == Exec(before, attempts[n])
  }

  /** With nothing new enqueued, at most `TotalWork` attempts are ever possible. */
  lemma {:induction false} DrainingEnds(s: State, attempts: seq<Action>, s': State)
    requires Inv(s) && Drains(s, attempts, s')
    ensures Inv(s') && |attempts| + TotalWork(s') <= TotalWork(s)
    decreases |attempts|
  {
    hide Inv, Exec, Enabled, TotalWork;
    if attempts != [] {
      var n := |attempts| - 1;
      var before :| Drains(s, attempts[..n], before) && ReferencesHold(before) && Enabled(before, attempts[n]) &&
                    s' == Exec(before, attempts[n]);
      DrainingEnds(s, attempts[..n], before);
      EveryAttemptCounts(before, attempts[n]);
      InvKept(before, attempts[n]);
    }
  }

  // --- Lookups ---

  /** `completed` means a refresh row of the lookup is done; a pipeline failure means one of its rows failed. */
  lemma LookupStatusIsJustified(actions: seq<Action>, s: State, l: nat)
    requires Reaches(actions, s) && l < |s.lookups|
    ensures s.lookups[l].Completed? ==> DoneRefreshFor(s, l)
    ensures s.lookups[l] == LookupFailed(false) ==> FailedRowFor(s, l)
    ensures s.lookups[l].Queued? ==> !AttemptedFor(s, l)
    ensures s.lookups[l].Parsing? ==> AttemptedFor(s, l)
  {
    ReachableInv(actions, s);
    assert LookupJustified(s, l);
  }

  ghost predicate OwnsOneParseRow(s: State, l: nat) {
    exists i :: 0 <= i < |s.parseQueue| && s.parseQueue[i].lookup == Some(l) &&
      forall k :: 0 <= k < |s.parseQueue| && s.parseQueue[k].lookup == Some(l) ==> k == i
  }

  lemma CountZero<T>(p: T -> bool, s: seq<T>, i: nat)
    requires |Filter(p, s)| == 0 && i < |s|
    ensures !p(s[i])
  {
    FilterMember(p, s, s[i]);
  }

  lemma CountTwo<T>(p: T -> bool, s: seq<T>, i: nat, k: nat)
    requires i < k < |s| && p(s[i]) && p(s[k])
    ensures |Filter(p, s)| >= 2
  {
    assert s == s[..k] + s[k..] && s[..k][i] == s[i] && s[k..][0] == s[k];
    FilterConcat(p, s[..k], s[k..]);
    FilterMember(p, s[..k], s[i]);
    FilterMember(p, s[k..], s[k]);
  }

  lemma CountOne<T>(p: T -> bool, s: seq<T>, i: nat, k: nat)
    requires |Filter(p, s)| <= 1 && i < |s| && k < |s| && p(s[i]) && p(s[k])
    ensures i == k
  {
    if i < k {
      CountTwo(p, s, i, k);
    } else if k < i {
      CountTwo(p, s, k, i);
    }
  }

  lemma CountAtMostOne<T>(p: T -> bool, s: seq<T>, i: nat)
    requires i < |s| && forall k :: 0 <= k < |s| && p(s[k]) ==> k == i
    ensures |Filter(p, s)| == if p(s[i]) then 1 else 0
  {
    assert s == s[..i] + [s[i]] + s[i + 1..];
    FilterConcat(p, s[..i] + [s[i]], s[i + 1..]);
    FilterConcat(p, s[..i], [s[i]]);
    FilterNone(p, s[..i]);
    FilterNone(p, s[i + 1..]);
  }

  /** With one parse row, a lookup has a refresh row only after that row is done, and then just one. */
  lemma RefreshRowsOfOne(s: State, l: nat, i: nat, k: nat)
    requires OneRefreshPerParse(s) && ReferencesHold(s)
    requires i < |s.parseQueue| && s.parseQueue[i].lookup == Some(l)
    requires forall m :: 0 <= m < |s.parseQueue| && s.parseQueue[m].lookup == Some(l) ==> m == i
    requires k < |s.refreshQueue| && s.refreshQueue[k].lookup == Some(l)
    ensures s.parseQueue[i].status.Done?
    ensures s.refreshQueue[k].target == s.raws[s.parseQueue[i].target].key
    ensures forall m :: 0 <= m < |s.refreshQueue| && s.refreshQueue[m].lookup == Some(l) ==>
              s.refreshQueue[m].target == s.refreshQueue[k].target ==> m == k
  {
    var key := s.refreshQueue[k].target;
    var p, r := DoneParseOf(s.raws, key, Some(l)), RefreshOf(key, Some(l));
    assert |Filter(r, s.refreshQueue)| == |Filter(p, s.parseQueue)|;
    CountAtMostOne(p, s.parseQueue, i);
    if |Filter(r, s.refreshQueue)| == 0 {
      CountZero(r, s.refreshQueue, k);
    }
    forall m | 0 <= m < |s.refreshQueue| && s.refreshQueue[m].lookup == Some(l) && s.refreshQueue[m].target == key
      ensures m == k
    {
      CountOne(r, s.refreshQueue, m, k);
    }
  }

  lemma FinishedHasNoWork(actions: seq<Action>, s: State, l: nat)
    requires Reaches(actions, s) && ReferencesHold(s) && OwnsOneParseRow(s, l) && l < |s.lookups|
    requires s.lookups[l].Completed? || s.lookups[l] == LookupFailed(false)
    ensures forall k :: 0 <= k < |s.parseQueue| && s.parseQueue[k].lookup == Some(l) ==> !Eligible(s.parseQueue[k])
    ensures forall k :: 0 <= k < |s.refreshQueue| && s.refreshQueue[k].lookup == Some(l) ==>
              !Eligible(s.refreshQueue[k])
  {
    hide Reaches, Faithful, OfficersExact, OneRefreshPerParse, OneIngestPerRefresh, NeverLost, LookupJustified,
         Eligible, ReferencesHold, JobsOk;
    ReachableInv(actions, s);
    assert LookupJustified(s, l);
    var i :| 0 <= i < |s.parseQueue| && s.parseQueue[i].lookup == Some(l) &&
             forall k :: 0 <= k < |s.parseQueue| && s.parseQueue[k].lookup == Some(l) ==> k == i;
    FinishedLookupHasNoWork(s, l, i);
  }

  /** A lookup that owns one parse row and is completed, or failed in the pipeline, never changes status again. */
  lemma FinishedLookupIsFinal(actions: seq<Action>, s: State, a: Action, l: nat)
    requires Reaches(actions, s) && Enabled(s, a) && l < |s.lookups|
    requires s.lookups[l].Completed? || s.lookups[l] == LookupFailed(false)
    requires ReferencesHold(s) && OwnsOneParseRow(s, l)
    ensures Exec(s, a).lookups[l] == s.lookups[l]
  {
    hide Exec, Enabled, Reaches, Eligible, ReferencesHold;
    FinishedHasNoWork(actions, s, l);
    StatusNeedsWork(s, a, l);
  }

  /** Once a lookup owns a parse row, only an attempt at one of its rows changes its answer. */
  lemma StatusNeedsWork(s: State, a: Action, l: nat)
    requires ReferencesHold(s) && Enabled(s, a) && l < |s.lookups| && HasJobFor(s.parseQueue, l)
    requires s.lookups[l].Completed? || s.lookups[l] == LookupFailed(false)
    requires forall k :: 0 <= k < |s.parseQueue| && s.parseQueue[k].lookup == Some(l) ==> !Eligible(s.parseQueue[k])
    requires forall k :: 0 <= k < |s.refreshQueue| && s.refreshQueue[k].lookup == Some(l) ==>
               !Eligible(s.refreshQueue[k])
    ensures Exec(s, a).lookups[l] == s.lookups[l]
  {
    hide Dispatch, Refreshed, Eligible;
  }

  lemma FinishedLookupHasNoWork(s: State, l: nat, i: nat)
    requires ReferencesHold(s) && OneRefreshPerParse(s) && LookupJustified(s, l) && l < |s.lookups|
    requires s.lookups[l].Completed? || s.lookups[l] == LookupFailed(false)
    requires i < |s.parseQueue| && s.parseQueue[i].lookup == Some(l)
    requires forall k :: 0 <= k < |s.parseQueue| && s.parseQueue[k].lookup == Some(l) ==> k == i
    ensures forall k :: 0 <= k < |s.parseQueue| && s.parseQueue[k].lookup == Some(l) ==> !Eligible(s.parseQueue[k])
    ensures forall k :: 0 <= k < |s.refreshQueue| && s.refreshQueue[k].lookup == Some(l) ==>
              !Eligible(s.refreshQueue[k])
  {
    hide OneRefreshPerParse, ReferencesHold;
    forall k | 0 <= k < |s.refreshQueue| && s.refreshQueue[k].lookup == Some(l)
      ensures s.parseQueue[i].status.Done? && !Eligible(s.refreshQueue[k])
    {
      RefreshRowsOfOne(s, l, i, k);
      if m :| 0 <= m < |s.refreshQueue| && s.refreshQueue[m].lookup == Some(l) &&
              (s.refreshQueue[m].status.Done? || s.refreshQueue[m].status.Failed?) {
        RefreshRowsOfOne(s, l, i, m);
      }
    }
  }

  /** Without work left for a lookup, no action ends a row of it. */
  lemma NoNewOutcome(s: State, a: Action, l: nat)
    requires ReferencesHold(s) && Enabled(s, a)
    requires forall k :: 0 <= k < |s.parseQueue| && s.parseQueue[k].lookup == Some(l) ==> !Eligible(s.parseQueue[k])
    requires forall k :: 0 <= k < |s.refreshQueue| && s.refreshQueue[k].lookup == Some(l) ==>
               !Eligible(s.refreshQueue[k])
    ensures DoneRefreshFor(Exec(s, a), l) ==> DoneRefreshFor(s, l)
    ensures FailedRowFor(Exec(s, a), l) ==> FailedRowFor(s, l)
  {
    hide Dispatch, Refreshed, Eligible;
    var s' := Exec(s, a);
    if i :| 0 <= i < |s'.refreshQueue| && s'.refreshQueue[i].lookup == Some(l) && s'.refreshQueue[i].status.Done? {
      assert i < |s.refreshQueue| && s.refreshQueue[i] == s'.refreshQueue[i];
    }
    if i :| 0 <= i < |s'.parseQueue| && s'.parseQueue[i].lookup == Some(l) && s'.parseQueue[i].status.Failed? {
      assert i < |s.parseQueue| && s.parseQueue[i] == s'.parseQueue[i];
    }
    if i :| 0 <= i < |s'.refreshQueue| && s'.refreshQueue[i].lookup == Some(l) && s'.refreshQueue[i].status.Failed? {
      assert i < |s.refreshQueue| && s.refreshQueue[i] == s'.refreshQueue[i];
    }
  }

  /** The action that ends the first row of a lookup for good sets its status. */
  lemma FirstOutcome(s: State, a: Action, l: nat)
    requires ReferencesHold(s) && Enabled(s, a) && !DoneRefreshFor(s, l) && !FailedRowFor(s, l)
    requires l < |Exec(s, a).lookups|
    ensures DoneRefreshFor(Exec(s, a), l) ==> Exec(s, a).lookups[l] == Completed
    ensures FailedRowFor(Exec(s, a), l) ==> Exec(s, a).lookups[l] == LookupFailed(false)
  {
    hide Dispatch, Refreshed;
    var s' := Exec(s, a);
    if i :| 0 <= i < |s'.refreshQueue| && s'.refreshQueue[i].lookup == Some(l) && s'.refreshQueue[i].status.Done? {
      assert a == AttemptRefresh(i, true);
    }
    if FailedRowFor(s', l) {
      if i :| 0 <= i < |s'.parseQueue| && s'.parseQueue[i].lookup == Some(l) && s'.parseQueue[i].status.Failed? {
        assert a == AttemptParse(i, false);
      } else {
        var i :| 0 <= i < |s'.refreshQueue| && s'.refreshQueue[i].lookup == Some(l)
                 && s'.refreshQueue[i].status.Failed?;
        assert a == AttemptRefresh(i, false);
      }
    }
  }

  /** A row of the lookup that ended had a parse row behind it, the only one. */
  lemma OwnedBefore(s: State, a: Action, l: nat)
    requires ReferencesHold(s) && Enabled(s, a) && OneRefreshPerParse(s) && OwnsOneParseRow(Exec(s, a), l)
    requires DoneRefreshFor(s, l) || FailedRowFor(s, l)
    ensures OwnsOneParseRow(s, l) && l < |s.lookups|
  {
    hide Dispatch, Refreshed;
    var s' := Exec(s, a);
    assert forall k :: 0 <= k < |s.parseQueue| ==> s'.parseQueue[k].lookup == s.parseQueue[k].lookup;
    var i :| 0 <= i < |s'.parseQueue| && s'.parseQueue[i].lookup == Some(l) &&
             forall k :: 0 <= k < |s'.parseQueue| && s'.parseQueue[k].lookup == Some(l) ==> k == i;
    if k: nat :| k < |s.parseQueue| && s.parseQueue[k].lookup == Some(l) {
      assert k == i;
    } else {
      var k: nat :| k < |s.refreshQueue| && s.refreshQueue[k].lookup == Some(l);
      RefreshHasParse(s, l, k);
    }
  }

  lemma RefreshHasParse(s: State, l: nat, k: nat)
    requires OneRefreshPerParse(s) && k < |s.refreshQueue| && s.refreshQueue[k].lookup == Some(l)
    ensures exists i :: 0 <= i < |s.parseQueue| && s.parseQueue[i].lookup == Some(l)
  {
    var key := s.refreshQueue[k].target;
    var p, r := DoneParseOf(s.raws, key, Some(l)), RefreshOf(key, Some(l));
    assert |Filter(r, s.refreshQueue)| == |Filter(p, s.parseQueue)|;
    if |Filter(r, s.refreshQueue)| == 0 {
      CountZero(r, s.refreshQueue, k);
    } else {
      FilterMember(p, s.parseQueue, Filter(p, s.parseQueue)[0]);
    }
  }

  /**
   Over any run, a lookup with one parse row is completed exactly when its refresh row is done,
   and failed in the pipeline exactly when one of its rows failed for good.
   */
  lemma {:induction false} StatusTellsOutcome(actions: seq<Action>, s: State, l: nat)
    requires Reaches(actions, s) && l < |s.lookups| && OwnsOneParseRow(s, l)
    ensures s.lookups[l].Completed? <==> DoneRefreshFor(s, l)
    ensures s.lookups[l] == LookupFailed(false) <==> FailedRowFor(s, l)
    decreases |actions|
  {
    LookupStatusIsJustified(actions, s, l);
    if actions != [] {
      hide Exec, Enabled, Inv, DoneRefreshFor, FailedRowFor, OwnsOneParseRow;
      var n := |actions| - 1;
      var before :| Reaches(actions[..n], before) && ReferencesHold(before) && Enabled(before, actions[n]) &&
                    s == Exec(before, actions[n]);
      if DoneRefreshFor(before, l) || FailedRowFor(before, l) {
        assert OneRefreshPerParse(before) by { EachDoneRowLeadsToOne(actions[..n], before); }
        OwnedBefore(before, actions[n], l);
        StatusTellsOutcome(actions[..n], before, l);
        FinishedLookupIsFinal(actions[..n], before, actions[n], l);
        FinishedHasNoWork(actions[..n], before, l);
        NoNewOutcome(before, actions[n], l);
      } else {
        FirstOutcome(before, actions[n], l);
      }
    }
  }
}
