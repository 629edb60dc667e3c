/**
 What every reachable state of the pipeline satisfies
 (backend/src/migrations/1000000000028-BvPipelineQueueServingTables.ts:494-552,
 1000000000033-OwnershipBvIngestionQueue.ts:40-93).
 */
module BvPipelineSafety {
  import opened Wrappers
  import opened Sequences
  import opened BvParsed
  import opened BvLoaders
  import opened BvPipeline

  /** Counters stay in bounds, no row is left half-processed, and a `retry` row can be picked up again. */
  ghost predicate JobOk<T>(j: Job<T>) {
    && j.maxRetries == 5 && j.retryCount <= j.maxRetries && !j.status.Processing?
    && (j.status.Pending? || j.status.Retry? ==> j.retryCount < j.maxRetries)
    && (j.status.Failed? ==> j.retryCount == j.maxRetries)
  }

  ghost predicate JobsOk<T>(queue: seq<Job<T>>) {
    forall i :: 0 <= i < |queue| ==> JobOk(queue[i])
  }

  // --- Counting rows ---

  lemma {:induction false} CountUpdate<T>(p: T -> bool, s: seq<T>, i: nat, x: T)
    requires i < |s|
    ensures |Filter(p, s[i := x])| == |Filter(p, s)| - (if p(s[i]) then 1 else 0) + if p(x) then 1 else 0
  {
    if i == 0 {
      assert s[0 := x][1..] == s[1..];
    } else {
      assert s[i := x][1..] == s[1..][i - 1 := x];
      CountUpdate(p, s[1..], i - 1, x);
    }
  }

  lemma CountAppend<T>(p: T -> bool, s: seq<T>, x: T)
    ensures |Filter(p, s + [x])| == |Filter(p, s)| + if p(x) then 1 else 0
  {
    FilterConcat(p, s, [x]);
  }

  function DoneWith(id: nat): Job<nat> -> bool {
    (j: Job<nat>) => j.status.Done? && j.target == id
  }

  /** How many parse rows of a payload are done. */
  ghost function DoneLoads(queue: seq<Job<nat>>): nat -> nat {
    (id: nat) => |Filter(DoneWith(id), queue)|
  }

  /** A done parse row whose payload belongs to `key`, for this lookup. */
  ghost function DoneParseOf(raws: seq<Raw>, key: Key, lookup: Option<nat>): Job<nat> -> bool {
    (j: Job<nat>) => j.status.Done? && j.lookup == lookup && j.target < |raws| && raws[j.target].key == key
  }

  ghost function RefreshOf(key: Key, lookup: Option<nat>): Job<Key> -> bool {
    (j: Job<Key>) => j.target == key && j.lookup == lookup
  }

  /** Each done parse row has led to exactly one refresh row, for its company and lookup. */
  ghost predicate OneRefreshPerParse(s: State) {
    forall key, lookup ::
      |Filter(RefreshOf(key, lookup), s.refreshQueue)| == |Filter(DoneParseOf(s.raws, key, lookup), s.parseQueue)|
  }

  ghost function IngestOf(key: Key, refreshRow: nat): IngestRow -> bool {
    (r: IngestRow) => r == IngestRow(key, refreshRow)
  }

  /** Each done refresh row has led to exactly one ingest row, for its company, and there are no others. */
  ghost predicate OneIngestPerRefresh(s: State) {
    && (forall r :: r in s.ingestQueue ==>
          r.refreshQueueId < |s.refreshQueue| && s.refreshQueue[r.refreshQueueId].target == r.key)
    && (forall i :: 0 <= i < |s.refreshQueue| ==>
          |Filter(IngestOf(s.refreshQueue[i].target, i), s.ingestQueue)|
            == if s.refreshQueue[i].status.Done? then 1 else 0)
  }

  // --- Staleness ---

  ghost predicate Fresh(s: State, key: Key) {
    ReadSlice(s.read, key) == View(s.parsed, key)
  }

  /** A refresh row for the company that has not been done: pending, to be retried, or failed. */
  ghost predicate Owed(s: State, key: Key) {
    exists i :: 0 <= i < |s.refreshQueue| && s.refreshQueue[i].target == key && !s.refreshQueue[i].status.Done?
  }

  /** A loaded payload stored data under this company although its raw row belongs to another. */
  ghost predicate Misfiled(s: State, key: Key) {
    exists i :: 0 <= i < |s.parseQueue| && s.parseQueue[i].status.Done? && s.parseQueue[i].target < |s.raws| &&
      key in TouchedKeys(s.raws[s.parseQueue[i].target]) && key != s.raws[s.parseQueue[i].target].key
  }

  ghost predicate NeverLost(s: State) {
    forall key :: Fresh(s, key) || Owed(s, key) || Misfiled(s, key)
  }

  // --- Lookups ---

  ghost predicate DoneRefreshFor(s: State, l: nat) {
    exists i :: 0 <= i < |s.refreshQueue| && s.refreshQueue[i].lookup == Some(l) && s.refreshQueue[i].status.Done?
  }

  ghost predicate FailedRowFor(s: State, l: nat) {
    || (exists i :: 0 <= i < |s.parseQueue| && s.parseQueue[i].lookup == Some(l) && s.parseQueue[i].status.Failed?)
    || (exists i ::
          0 <= i < |s.refreshQueue| && s.refreshQueue[i].lookup == Some(l) && s.refreshQueue[i].status.Failed?)
  }

  /** A parse row of the lookup has been tried. */
  ghost predicate AttemptedFor(s: State, l: nat) {
    exists i :: 0 <= i < |s.parseQueue| && s.parseQueue[i].lookup == Some(l)
                && (s.parseQueue[i].retryCount > 0 || !s.parseQueue[i].status.Pending?)
  }

  ghost predicate LookupJustified(s: State, l: nat) {
    l < |s.lookups| ==>
      && (s.lookups[l].Completed? ==> DoneRefreshFor(s, l))
      && (s.lookups[l] == LookupFailed(false) ==> FailedRowFor(s, l))
      && (s.lookups[l].Queued? ==> !AttemptedFor(s, l))
      && (s.lookups[l].Parsing? ==> AttemptedFor(s, l))
  }

  ghost predicate Inv(s: State) {
    && ReferencesHold(s)
    && JobsOk(s.parseQueue) && JobsOk(s.refreshQueue)
    && Faithful(s.parsed, s.raws)
    && OfficersExact(s.parsed, s.raws, DoneLoads(s.parseQueue))
    && OneRefreshPerParse(s)
    && OneIngestPerRefresh(s)
    && NeverLost(s)
    && forall l :: LookupJustified(s, l)
  }

  lemma StartInv()
    ensures Inv(START)
  {
    assert forall key :: ReadSlice(START.read, key) == View(START.parsed, key);
  }

  lemma QueuesKeep(s: State, a: Action)
    requires ReferencesHold(s) && Enabled(s, a) && JobsOk(s.parseQueue) && JobsOk(s.refreshQueue)
    ensures ReferencesHold(Exec(s, a)) && JobsOk(Exec(s, a).parseQueue) && JobsOk(Exec(s, a).refreshQueue)
  {
    hide Dispatch, Refreshed;
  }

  lemma FaithfulKept(s: State, a: Action)
    requires ReferencesHold(s) && Enabled(s, a) && Faithful(s.parsed, s.raws)
    ensures Faithful(Exec(s, a).parsed, Exec(s, a).raws)
  {
    hide Dispatch, Refreshed, Faithful;
    match a
    case StoreRaw(raw) => FaithfulLater(s.parsed, s.raws, raw);
    case AttemptParse(i, ok) =>
      if ok {
        DispatchFaithful(s.parsed, s.raws, s.parseQueue[i].target);
      }
    case _ =>
  }

  lemma SameTimes(p: Parsed, raws: seq<Raw>, f: nat -> nat, g: nat -> nat)
    requires OfficersExact(p, raws, f) && forall q :: f(q) == g(q)
    ensures OfficersExact(p, raws, g)
  {
    hide Stores, Repeated, FiItems, HasSnap;
  }

  lemma MoreRaws(p: Parsed, raws: seq<Raw>, raw: Raw, times: nat -> nat)
    requires OfficersExact(p, raws, times) && times(|raws|) == 0
    ensures OfficersExact(p, raws + [raw], times)
  {
    hide Stores, Repeated, FiItems, HasSnap;
  }

  lemma OfficersKept(s: State, a: Action)
    requires ReferencesHold(s) && Enabled(s, a) && Faithful(s.parsed, s.raws)
    requires OfficersExact(s.parsed, s.raws, DoneLoads(s.parseQueue))
    ensures OfficersExact(Exec(s, a).parsed, Exec(s, a).raws, DoneLoads(Exec(s, a).parseQueue))
  {
    hide Dispatch, Refreshed, Faithful, OfficersExact, ReferencesHold;
    match a
    case StoreRaw(raw) =>
      NoRowsYet(s);
      MoreRaws(s.parsed, s.raws, raw, DoneLoads(s.parseQueue));
    case Enqueue(id, l, priority) =>
      forall q: nat ensures DoneLoads(s.parseQueue)(q) == DoneLoads(Exec(s, a).parseQueue)(q) {
        CountAppend(DoneWith(q), s.parseQueue, NewJob(id, l, priority));
      }
      SameTimes(s.parsed, s.raws, DoneLoads(s.parseQueue), DoneLoads(Exec(s, a).parseQueue));
    case AttemptParse(i, ok) =>
      var j := s.parseQueue[i];
      assert j.target < |s.raws| by { RowIsKnown(s, i); }
      var before := DoneLoads(s.parseQueue);
      var after := DoneLoads(Exec(s, a).parseQueue);
      forall q: nat ensures after(q) == before(q) + if ok && q == j.target then 1 else 0 {
        CountUpdate(DoneWith(q), s.parseQueue, i, Exec(s, a).parseQueue[i]);
      }
      if ok {
        DispatchOfficers(s.parsed, s.raws, before, j.target);
        SameTimes(Exec(s, a).parsed, s.raws, OnceMore(before, j.target), after);
      } else {
        SameTimes(s.parsed, s.raws, before, after);
      }
    case _ =>
  }

  lemma RowIsKnown(s: State, i: nat)
    requires ReferencesHold(s) && i < |s.parseQueue|
    ensures s.parseQueue[i].target < |s.raws|
  {
  }

  lemma NoRowsYet(s: State)
    requires ReferencesHold(s)
    ensures DoneLoads(s.parseQueue)(|s.raws|) == 0
  {
    FilterNone(DoneWith(|s.raws|), s.parseQueue);
  }

  lemma RefreshCountKept(s: State, a: Action)
    requires ReferencesHold(s) && Enabled(s, a) && OneRefreshPerParse(s)
    ensures OneRefreshPerParse(Exec(s, a))
  {
    hide Dispatch, Refreshed;
    var s' := Exec(s, a);
    forall key, lookup
      ensures |Filter(RefreshOf(key, lookup), s'.refreshQueue)|
           == |Filter(DoneParseOf(s'.raws, key, lookup), s'.parseQueue)|
    {
      var p, r := DoneParseOf(s.raws, key, lookup), RefreshOf(key, lookup);
      match a
      case StoreRaw(raw) => FilterAgree(p, DoneParseOf(s'.raws, key, lookup), s.parseQueue);
      case Enqueue(id, l, priority) => CountAppend(p, s.parseQueue, NewJob(id, l, priority));
      case AttemptParse(i, ok) =>
        CountUpdate(p, s.parseQueue, i, s'.parseQueue[i]);
        if ok {
          CountAppend(r, s.refreshQueue, s'.refreshQueue[|s.refreshQueue|]);
        }
      case AttemptRefresh(i, ok) => CountUpdate(r, s.refreshQueue, i, s'.refreshQueue[i]);
      case _ =>
    }
  }

  lemma IngestCountKept(s: State, a: Action)
    requires ReferencesHold(s) && Enabled(s, a) && OneIngestPerRefresh(s)
    ensures OneIngestPerRefresh(Exec(s, a))
  {
    hide Dispatch, Refreshed, ReferencesHold;
    var s' := Exec(s, a);
    forall i | 0 <= i < |s'.refreshQueue|
      ensures |Filter(IngestOf(s'.refreshQueue[i].target, i), s'.ingestQueue)|
           == if s'.refreshQueue[i].status.Done? then 1 else 0
    {
      var p := IngestOf(s'.refreshQueue[i].target, i);
      if i >= |s.refreshQueue| {
        FilterNone(p, s.ingestQueue);
      }
      if a.AttemptRefresh? && a.ok {
        CountAppend(p, s.ingestQueue, IngestRow(s.refreshQueue[a.refreshRow].target, a.refreshRow));
      }
    }
  }

  // --- Staleness over one action ---

  lemma OwedKept(s: State, a: Action, key: Key)
    requires ReferencesHold(s) && Enabled(s, a) && Owed(s, key)
    requires a.AttemptRefresh? && a.ok ==> s.refreshQueue[a.refreshRow].target != key
    ensures Owed(Exec(s, a), key)
  {
    hide Dispatch, Refreshed, ReferencesHold;
    var s' := Exec(s, a);
    var i :| 0 <= i < |s.refreshQueue| && s.refreshQueue[i].target == key && !s.refreshQueue[i].status.Done?;
    assert i < |s'.refreshQueue| && s'.refreshQueue[i].target == key && !s'.refreshQueue[i].status.Done?;
  }

  lemma MisfiledKept(s: State, a: Action, key: Key)
    requires ReferencesHold(s) && Enabled(s, a) && Misfiled(s, key)
    ensures Misfiled(Exec(s, a), key)
  {
    hide Dispatch, Refreshed, TouchedKeys, ReferencesHold;
    var s' := Exec(s, a);
    var i :| 0 <= i < |s.parseQueue| && s.parseQueue[i].status.Done? && s.parseQueue[i].target < |s.raws| &&
             key in TouchedKeys(s.raws[s.parseQueue[i].target]) && key != s.raws[s.parseQueue[i].target].key;
    assert s'.parseQueue[i] == s.parseQueue[i] && s'.raws[s.parseQueue[i].target] == s.raws[s.parseQueue[i].target];
  }

  lemma FreshKept(s: State, a: Action, key: Key)
    requires ReferencesHold(s) && Enabled(s, a) && Faithful(s.parsed, s.raws) && Fresh(s, key)
    ensures Fresh(Exec(s, a), key) || Owed(Exec(s, a), key) || Misfiled(Exec(s, a), key)
  {
    hide Dispatch, Refreshed, TouchedKeys, ReferencesHold, Faithful, View, ReadSlice;
    var s' := Exec(s, a);
    match a
    case AttemptParse(i, ok) =>
      RowIsKnown(s, i);
      var id := s.parseQueue[i].target;
      if ok {
        if key !in TouchedKeys(s.raws[id]) {
          DispatchFrame(s.parsed, s.raws, id, key);
        } else if key == s.raws[id].key {
          var j := s'.refreshQueue[|s.refreshQueue|];
          assert j.target == key && !j.status.Done?;
        } else {
          assert s'.parseQueue[i].status.Done? && s'.parseQueue[i].target == id;
        }
      }
    case AttemptRefresh(i, ok) =>
      if ok {
        RefreshIsExact(s.read, s.parsed, s.refreshQueue[i].target, key);
      }
    case _ =>
  }

  lemma NeverLostKept(s: State, a: Action)
    requires ReferencesHold(s) && Enabled(s, a) && Faithful(s.parsed, s.raws) && NeverLost(s)
    ensures NeverLost(Exec(s, a))
  {
    hide Dispatch, Refreshed, TouchedKeys, ReferencesHold, Faithful, View, ReadSlice, Owed, Misfiled;
    forall key
      ensures Fresh(Exec(s, a), key) || Owed(Exec(s, a), key) || Misfiled(Exec(s, a), key)
    {
      if Fresh(s, key) {
        FreshKept(s, a, key);
      } else if Misfiled(s, key) {
        MisfiledKept(s, a, key);
      } else if a.AttemptRefresh? && a.ok && s.refreshQueue[a.refreshRow].target == key {
        RefreshIsExact(s.read, s.parsed, key, key);
      } else {
        OwedKept(s, a, key);
      }
    }
  }

  // --- Lookups over one action ---

  /** What an action does to a lookup's status, and why. */
  lemma StatusSet(s: State, a: Action, l: nat)
    requires ReferencesHold(s) && Enabled(s, a) && l < |Exec(s, a).lookups|
    ensures var now := Exec(s, a).lookups[l];
            || (l < |s.lookups| && now == s.lookups[l])
            || (a.CreateLookup? && l == |s.lookups| && now == Queued)
            || (a.MarkLookupFailed? && now == LookupFailed(true))
            || (a.AttemptParse? && s.parseQueue[a.parseRow].lookup == Some(l) &&
                (now == Parsing || (now == LookupFailed(false) && FailedRowFor(Exec(s, a), l))))
            || (a.AttemptRefresh? && s.refreshQueue[a.refreshRow].lookup == Some(l) &&
                ((now == Completed && DoneRefreshFor(Exec(s, a), l)) ||
                 (now == LookupFailed(false) && FailedRowFor(Exec(s, a), l))))
    ensures a.AttemptParse? && s.parseQueue[a.parseRow].lookup == Some(l) ==> !Exec(s, a).lookups[l].Queued?
  {
    hide Dispatch, Refreshed;
    var s' := Exec(s, a);
    match a
    case AttemptParse(i, ok) =>
      assert s'.parseQueue[i].lookup == s.parseQueue[i].lookup;
    case AttemptRefresh(i, ok) =>
      assert s'.refreshQueue[i].lookup == s.refreshQueue[i].lookup;
    case _ =>
  }

  lemma DoneRefreshStays(s: State, a: Action, l: nat)
    requires ReferencesHold(s) && Enabled(s, a) && DoneRefreshFor(s, l)
    ensures DoneRefreshFor(Exec(s, a), l)
  {
    hide Dispatch, Refreshed, ReferencesHold;
    var s' := Exec(s, a);
    var i :| 0 <= i < |s.refreshQueue| && s.refreshQueue[i].lookup == Some(l) && s.refreshQueue[i].status.Done?;
    assert s'.refreshQueue[i] == s.refreshQueue[i];
  }

  lemma LookupKept(s: State, a: Action, l: nat)
    requires ReferencesHold(s) && Enabled(s, a) && LookupJustified(s, l)
    ensures LookupJustified(Exec(s, a), l)
  {
    hide Exec, Enabled, ReferencesHold, AttemptedFor, DoneRefreshFor, FailedRowFor;
    if l < |Exec(s, a).lookups| {
      AttemptsAfter(s, a, l);
      StatusSet(s, a, l);
      if DoneRefreshFor(s, l) {
        DoneRefreshStays(s, a, l);
      }
      if FailedRowFor(s, l) {
        FailedRowsStay(s, a, l);
      }
    }
  }

  lemma AttemptsAfter(s: State, a: Action, l: nat)
    requires ReferencesHold(s) && Enabled(s, a)
    ensures AttemptedFor(Exec(s, a), l) <==>
            AttemptedFor(s, l) || (a.AttemptParse? && s.parseQueue[a.parseRow].lookup == Some(l))
    ensures AttemptedFor(s, l) ==> l < |s.lookups|
  {
    hide Dispatch, Refreshed;
    var s' := Exec(s, a);
    if i :| 0 <= i < |s.parseQueue| && s.parseQueue[i].lookup == Some(l)
            && (s.parseQueue[i].retryCount > 0 || !s.parseQueue[i].status.Pending?) {
      assert s'.parseQueue[i].lookup == Some(l)
             && (s'.parseQueue[i].retryCount > 0 || !s'.parseQueue[i].status.Pending?);
    }
    if a.AttemptParse? {
      assert s'.parseQueue[a.parseRow].retryCount > 0 || !s'.parseQueue[a.parseRow].status.Pending?;
    }
  }

  lemma FailedRowsStay(s: State, a: Action, l: nat)
    requires ReferencesHold(s) && Enabled(s, a) && FailedRowFor(s, l)
    ensures FailedRowFor(Exec(s, a), l)
  {
    hide Dispatch, Refreshed, ReferencesHold;
    var s' := Exec(s, a);
    if i :| 0 <= i < |s.parseQueue| && s.parseQueue[i].lookup == Some(l) && s.parseQueue[i].status.Failed? {
      assert s'.parseQueue[i] == s.parseQueue[i];
    } else {
      var i :| 0 <= i < |s.refreshQueue| && s.refreshQueue[i].lookup == Some(l) && s.refreshQueue[i].status.Failed?;
      assert s'.refreshQueue[i] == s.refreshQueue[i];
    }
  }

  lemma InvKept(s: State, a: Action)
    requires Inv(s) && Enabled(s, a)
    ensures Inv(Exec(s, a))
  {
    hide Exec, JobsOk, Faithful, OfficersExact, OneRefreshPerParse, OneIngestPerRefresh, NeverLost, LookupJustified,
         Enabled;
    QueuesKeep(s, a);
    FaithfulKept(s, a);
    OfficersKept(s, a);
    RefreshCountKept(s, a);
    IngestCountKept(s, a);
    NeverLostKept(s, a);
    forall l: nat ensures LookupJustified(Exec(s, a), l) {
      LookupKept(s, a, l);
    }
  }

  // --- Whole runs ---

  /** `actions`, each enabled in its turn, lead from the empty database to `s`. */
  ghost predicate Reaches(actions: seq<Action>, s: State)
    decreases |actions|
  {
    if actions == [] then s == START else
      var n := |actions| - 1;
      exists before ::
        Reaches(actions[..n], before) && ReferencesHold(before) && Enabled(before, actions[n])
        && s == Exec(before, actions[n])
  }

  lemma {:induction false} ReachableInv(actions: seq<Action>, s: State)
    requires Reaches(actions, s)
    ensures Inv(s)
    decreases |actions|
  {
    hide Inv, Exec, Enabled;
    if actions == [] {
      StartInv();
    } else {
      var n := |actions| - 1;
      var before :| Reaches(actions[..n], before) && ReferencesHold(before) && Enabled(before, actions[n]) &&
                    s == Exec(before, actions[n]);
      ReachableInv(actions[..n], before);
      InvKept(before, actions[n]);
    }
  }
}
