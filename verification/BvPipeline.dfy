/**
 The parse and refresh queues, the lookups they report on and the physical read tables
 (backend/src/migrations/1000000000028-BvPipelineQueueServingTables.ts and
 1000000000033-OwnershipBvIngestionQueue.ts), as a state machine: one action is one row
 attempt of a worker or one statement of the application. Row ids are positions.
 */
module BvPipeline {
  import opened Wrappers
  import opened Sequences
  import opened BvParsed

  datatype JobStatus = Pending | Processing | Retry | Done | Failed

  datatype Job<T> = Job(target: T, lookup: Option<nat>, status: JobStatus, priority: int, retryCount: nat,
                        maxRetries: nat)

  /** A lookup fails in the pipeline, or is given up by the application for want of a payload. */
  datatype LookupStatus = Queued | Parsing | Refreshing | Completed | LookupFailed(noPayload: bool)

  datatype IngestRow = IngestRow(key: Key, refreshQueueId: nat)

  // --- The read tables ---

  datatype ReadRow<T> = ReadRow(key: Key, value: T)

  datatype ReadTables = ReadTables(overview: seq<ReadRow<Overview>>, officers: seq<ReadRow<Numbered<Officer>>>,
                                   reports: seq<ReadRow<Numbered<string>>>, documents: seq<ReadRow<Numbered<Doc>>>)

  function NotOf<T>(key: Key): ReadRow<T> -> bool {
    (r: ReadRow<T>) => r.key != key
  }

  function RowsFor<T>(key: Key, values: seq<T>): seq<ReadRow<T>> {
    seq(|values|, i requires 0 <= i < |values| => ReadRow(key, values[i]))
  }

  /** `DELETE … WHERE key; INSERT … SELECT … WHERE key` */
  function Replaced<T>(table: seq<ReadRow<T>>, key: Key, values: seq<T>): seq<ReadRow<T>> {
    Filter(NotOf(key), table) + RowsFor(key, values)
  }

  /** The rows of one company, in table order. */
  function ValuesFor<T>(table: seq<ReadRow<T>>, key: Key): seq<T> {
    if table == [] then [] else
      (if table[0].key == key then [table[0].value] else []) + ValuesFor(table[1..], key)
  }

  function ReadSlice(read: ReadTables, key: Key): Slice {
    Slice(ValuesFor(read.overview, key), ValuesFor(read.officers, key), ValuesFor(read.reports, key),
          ValuesFor(read.documents, key))
  }

  /** `refresh_company_current_all` */
  function Refreshed(read: ReadTables, p: Parsed, key: Key): ReadTables {
    var slice := View(p, key);
    ReadTables(Replaced(read.overview, key, slice.overview), Replaced(read.officers, key, slice.officers),
               Replaced(read.reports, key, slice.reports), Replaced(read.documents, key, slice.documents))
  }

  lemma {:induction false} ValuesConcat<T>(a: seq<ReadRow<T>>, b: seq<ReadRow<T>>, key: Key)
    ensures ValuesFor(a + b, key) == ValuesFor(a, key) + ValuesFor(b, key)
  {
    if a == [] {
      assert a + b == b;
    } else {
      assert (a + b)[1..] == a[1..] + b;
      ValuesConcat(a[1..], b, key);
    }
  }

  lemma {:induction false} ValuesOfRows<T>(key: Key, values: seq<T>, other: Key)
    ensures ValuesFor(RowsFor(key, values), other) == if other == key then values else []
  {
    if values != [] {
      assert RowsFor(key, values)[1..] == RowsFor(key, values[1..]);
      ValuesOfRows(key, values[1..], other);
    }
  }

  lemma {:induction false} ValuesKept<T>(table: seq<ReadRow<T>>, key: Key, other: Key)
    ensures ValuesFor(Filter(NotOf(key), table), other) == if other == key then [] else ValuesFor(table, other)
  {
    if table != [] {
      ValuesKept(table[1..], key, other);
      ValuesConcat(if table[0].key != key then [table[0]] else [], Filter(NotOf(key), table[1..]), other);
    }
  }

  lemma ReplacedValues<T>(table: seq<ReadRow<T>>, key: Key, values: seq<T>, other: Key)
    ensures ValuesFor(Replaced(table, key, values), other) == if other == key then values else ValuesFor(table, other)
  {
    ValuesConcat(Filter(NotOf(key), table), RowsFor(key, values), other);
    ValuesKept(table, key, other);
    ValuesOfRows(key, values, other);
  }

  /** A refresh makes one company's rows equal its view and changes no other company's rows. */
  lemma RefreshIsExact(read: ReadTables, p: Parsed, key: Key, other: Key)
    ensures ReadSlice(Refreshed(read, p, key), other) == if other == key then View(p, key) else ReadSlice(read, other)
  {
    hide Replaced, ValuesFor, View;
    var slice := View(p, key);
    ReplacedValues(read.overview, key, slice.overview, other);
    ReplacedValues(read.officers, key, slice.officers, other);
    ReplacedValues(read.reports, key, slice.reports, other);
    ReplacedValues(read.documents, key, slice.documents, other);
  }

  // --- State and actions ---

  datatype State = State(
    raws: seq<Raw>,
    lookups: seq<LookupStatus>,
    parseQueue: seq<Job<nat>>,
    refreshQueue: seq<Job<Key>>,
    ingestQueue: seq<IngestRow>,
    parsed: Parsed,
    read: ReadTables)

  const START := State([], [], [], [], [], NOTHING_PARSED, ReadTables([], [], [], []))

  /** The column default of `max_retries`. */
  const MAX_RETRIES: nat := 5

  datatype Action =
    | StoreRaw(raw: Raw)
    | CreateLookup
    | MarkLookupFailed(lookup: nat)
    | Enqueue(rawPayloadId: nat, forLookup: Option<nat>, priority: int)
    | AttemptParse(parseRow: nat, ok: bool)
    | AttemptRefresh(refreshRow: nat, ok: bool)

  /** `status = 'pending' OR (status = 'retry' AND retry_count < max_retries)` */
  predicate Eligible<T>(j: Job<T>) {
    j.status.Pending? || (j.status.Retry? && j.retryCount < j.maxRetries)
  }

  predicate HasJobFor<T>(queue: seq<Job<T>>, lookup: nat) {
    exists i :: 0 <= i < |queue| && queue[i].lookup == Some(lookup)
  }

  predicate Enabled(s: State, a: Action) {
    match a
    case StoreRaw(_) => true
    case CreateLookup => true
    // the application gives up on a lookup only instead of enqueueing anything for it
    case MarkLookupFailed(l) => l < |s.lookups| && !HasJobFor(s.parseQueue, l)
    case Enqueue(id, l, _) => id < |s.raws| && (l.Some? ==> l.value < |s.lookups|)
    case AttemptParse(i, _) => i < |s.parseQueue| && Eligible(s.parseQueue[i])
    case AttemptRefresh(i, _) => i < |s.refreshQueue| && Eligible(s.refreshQueue[i])
  }

  /** The exception handler's bookkeeping. */
  function AfterFailure<T>(j: Job<T>): Job<T> {
    j.(retryCount := j.retryCount + 1, status := if j.retryCount + 1 >= j.maxRetries then Failed else Retry)
  }

  function NewJob<T>(target: T, lookup: Option<nat>, priority: int): Job<T> {
    Job(target, lookup, Pending, priority, 0, MAX_RETRIES)
  }

  function SetLookup(lookups: seq<LookupStatus>, l: Option<nat>, status: LookupStatus): seq<LookupStatus> {
    if l.Some? && l.value < |lookups| then lookups[l.value := status] else lookups
  }

  /** `SET status = 'parsing' WHERE … status IN ('queued', 'parsing')`, outside the exception block. */
  function MarkParsing(lookups: seq<LookupStatus>, l: Option<nat>): seq<LookupStatus> {
    if l.Some? && l.value < |lookups| && (lookups[l.value].Queued? || lookups[l.value].Parsing?)
    then lookups[l.value := Parsing] else lookups
  }

  function AfterParse(s: State, i: nat, ok: bool): State
    requires i < |s.parseQueue| && s.parseQueue[i].target < |s.raws|
  {
    var j := s.parseQueue[i];
    var raw := s.raws[j.target];
    var lookups := MarkParsing(s.lookups, j.lookup);
    if ok then
      s.(lookups := lookups,
         parsed := Dispatch(s.parsed, j.target, raw),
         parseQueue := s.parseQueue[i := j.(status := Done)],
         refreshQueue := s.refreshQueue + [NewJob(raw.key, j.lookup, 0)])
    else
      var j' := AfterFailure(j);
      s.(parseQueue := s.parseQueue[i := j'],
         lookups := if j'.status.Failed? then SetLookup(lookups, j.lookup, LookupFailed(false)) else lookups)
  }

  function AfterRefresh(s: State, i: nat, ok: bool): State
    requires i < |s.refreshQueue|
  {
    var j := s.refreshQueue[i];
    if ok then
      s.(read := Refreshed(s.read, s.parsed, j.target),
         ingestQueue := s.ingestQueue + [IngestRow(j.target, i)],
         refreshQueue := s.refreshQueue[i := j.(status := Done)],
         lookups := SetLookup(s.lookups, j.lookup, Completed))
    else
      var j' := AfterFailure(j);
      s.(refreshQueue := s.refreshQueue[i := j'],
         lookups := if j'.status.Failed? then SetLookup(s.lookups, j.lookup, LookupFailed(false)) else s.lookups)
  }

  /** Foreign keys: every queued payload exists, and so does every lookup a row belongs to. */
  predicate ReferencesHold(s: State) {
    && (forall i :: 0 <= i < |s.parseQueue| ==>
          && s.parseQueue[i].target < |s.raws|
          && (s.parseQueue[i].lookup.Some? ==> s.parseQueue[i].lookup.value < |s.lookups|))
    && (forall i :: 0 <= i < |s.refreshQueue| ==> s.refreshQueue[i].lookup.Some? ==>
          s.refreshQueue[i].lookup.value < |s.lookups|)
  }

  function Exec(s: State, a: Action): State
    requires ReferencesHold(s) && Enabled(s, a)
  {
    match a
    case StoreRaw(raw) => s.(raws := s.raws + [raw])
    case CreateLookup => s.(lookups := s.lookups + [Queued])
    case MarkLookupFailed(l) => s.(lookups := s.lookups[l := LookupFailed(true)])
    case Enqueue(id, l, priority) => s.(parseQueue := s.parseQueue + [NewJob(id, l, priority)])
    case AttemptParse(i, ok) => AfterParse(s, i, ok)
    case AttemptRefresh(i, ok) => AfterRefresh(s, i, ok)
  }
}
