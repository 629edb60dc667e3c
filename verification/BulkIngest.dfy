/**
 The streamed, checkpointed ingest of a company file
 (backend/src/bolagsverket-bulk/bolagsverket-bulk.service.ts:456-663,
 backend/src/ingestion/batch-writer.service.ts:16-58). What the database, the clock and
 the memory guard do is given per flush by the environment.
 */
module BulkIngest {
  import opened Wrappers
  import opened Sequences
  import opened Strings

  datatype RawRow = RawRow(lineNumber: nat, rawLine: string, parsedOk: bool)

  datatype Checkpoint = Checkpoint(checkpointSeq: nat, lastLineNumber: nat, rowsWritten: nat, stagingWritten: nat)

  /** A batch write commits, is rolled back, or times out and is then committed or rolled back unseen. */
  datatype WriteOutcome = Commits | RollsBack | TimesOutThenCommits | TimesOutThenRollsBack

  datatype FlushEnvironment = FlushEnvironment(
    write: WriteOutcome, progressSaved: bool, memoryWarn: bool, memoryPause: bool, memoryFail: bool, stillFailing: bool)

  /** `staged` holds the rows whose parsed form was staged, in order; `lineage` their recorded row numbers. */
  datatype Tables = Tables(raw: seq<RawRow>, staged: seq<RawRow>, lineage: seq<nat>, checkpoints: seq<Checkpoint>)

  datatype Batch = Batch(checkpointSeq: nat, lastLineNumber: nat, rawRows: seq<RawRow>, stagingRows: seq<RawRow>)

  datatype Stats = Stats(lineCount: nat, rowsInserted: nat, rowsFailed: nat)

  datatype Outcome = Finished(stats: Stats, stoppedEarlyByTestLimit: bool) | Aborted(stats: Stats)

  function IsParsed(): RawRow -> bool {
    (r: RawRow) => r.parsedOk
  }

  /** The row number recorded for each staged row: that of the raw row at the same position. */
  function LineageOf(rawRows: seq<RawRow>, stagingRows: seq<RawRow>): seq<nat> {
    seq(|stagingRows|, i requires 0 <= i < |stagingRows| => if i < |rawRows| then rawRows[i].lineNumber else 0)
  }

  function Committed(t: Tables, b: Batch): Tables {
    Tables(t.raw + b.rawRows, t.staged + b.stagingRows, t.lineage + LineageOf(b.rawRows, b.stagingRows),
           t.checkpoints + [Checkpoint(b.checkpointSeq, b.lastLineNumber, |b.rawRows|, |b.stagingRows|)])
  }

  predicate IsBlank(line: string) { Trim(line) == "" }

  /** The rows of a stream: its non-blank lines, numbered from 1, each parsed or malformed. */
  function RowsOf(lines: seq<string>, parses: string -> bool): seq<RawRow> {
    if lines == [] then [] else
      var before := RowsOf(lines[..|lines| - 1], parses);
      var line := lines[|lines| - 1];
      if IsBlank(line) then before else AndLine(before, line, parses)
  }

  /** A non-blank line becomes the next row. */
  function AndLine(before: seq<RawRow>, line: string, parses: string -> bool): seq<RawRow> {
    before + [RawRow(|before| + 1, line, parses(line))]
  }

  function NotBlank(): string -> bool {
    (line: string) => exists c :: c in line && !IsSpace(c)
  }

  /** One row for each line that is more than white space, in order, numbered from 1. */
  lemma {:induction false} RowsAreLines(lines: seq<string>, parses: string -> bool)
    ensures var rows, kept := RowsOf(lines, parses), Filter(NotBlank(), lines);
            && |rows| == |kept|
            && forall i :: 0 <= i < |rows| ==> rows[i] == RawRow(i + 1, kept[i], parses(kept[i]))
  {
    hide IsBlank, Filter, NotBlank;
    if lines == [] {
      FilterNone(NotBlank(), lines);
    } else {
      var n := |lines| - 1;
      RowsAreLines(lines[..n], parses);
      BlankLine(lines[n]);
      assert lines == lines[..n] + [lines[n]];
      FilterConcat(NotBlank(), lines[..n], [lines[n]]);
    }
  }

  lemma BlankLine(line: string)
    ensures Filter(NotBlank(), [line]) == if IsBlank(line) then [] else [line]
  {
    hide IsSpace, Trim;
    TrimmedAway(line);
    assert [line][1..] == [];
  }

  lemma {:induction false} RowsGrow(lines: seq<string>, parses: string -> bool, i: nat)
    requires i <= |lines|
    ensures RowsOf(lines[..i], parses) <= RowsOf(lines, parses)
  {
    hide IsBlank;
    if i == |lines| {
      assert lines[..i] == lines;
    } else {
      RowsGrow(lines[..|lines| - 1], parses, i);
      assert lines[..|lines| - 1][..i] == lines[..i];
    }
  }

  ghost function Written(checkpoints: seq<Checkpoint>): nat {
    if checkpoints == [] then 0
    else Written(checkpoints[..|checkpoints| - 1]) + checkpoints[|checkpoints| - 1].rowsWritten
  }

  /** A checkpoint carries its number, and its line is the total of the rows written up to it. */
  ghost predicate CheckpointRight(checkpoints: seq<Checkpoint>, i: nat)
    requires i < |checkpoints|
  {
    && checkpoints[i].checkpointSeq == i + 1 && checkpoints[i].rowsWritten > 0
    && checkpoints[i].lastLineNumber == Written(checkpoints[..i + 1])
  }

  /** The line the last checkpoint stands at. */
  ghost function LastLine(checkpoints: seq<Checkpoint>): nat {
    if checkpoints == [] then 0 else checkpoints[|checkpoints| - 1].lastLineNumber
  }

  /**
   The stored tables are a prefix of the stream's rows: exactly the first `k`, where `k` is
   the last checkpoint's line; the parsed ones are staged; every checkpoint is right.
   */
  ghost predicate PrefixStored(t: Tables, rows: seq<RawRow>) {
    && t.raw <= rows
    && t.staged == Filter(IsParsed(), t.raw)
    && |t.raw| == LastLine(t.checkpoints)
    && forall i :: 0 <= i < |t.checkpoints| ==> CheckpointRight(t.checkpoints, i)
  }

  /** A batch that continues the stored prefix. */
  ghost predicate Continues(t: Tables, b: Batch, rows: seq<RawRow>) {
    && b.rawRows != [] && t.raw + b.rawRows <= rows
    && b.stagingRows == Filter(IsParsed(), b.rawRows)
    && b.lastLineNumber == |t.raw| + |b.rawRows| && b.checkpointSeq == |t.checkpoints| + 1
  }

  lemma CommitKeepsPrefix(t: Tables, b: Batch, rows: seq<RawRow>)
    requires PrefixStored(t, rows) && Continues(t, b, rows)
    ensures PrefixStored(Committed(t, b), rows)
  {
    hide Filter, IsParsed;
    var cs, cs' := t.checkpoints, Committed(t, b).checkpoints;
    FilterConcat(IsParsed(), t.raw, b.rawRows);
    forall i | 0 <= i < |cs'| ensures CheckpointRight(cs', i) {
      if i < |cs| {
        assert cs'[..i + 1] == cs[..i + 1];
        assert CheckpointRight(cs, i);
      } else {
        assert cs'[..i + 1] == cs' && cs'[..i] == cs;
        assert cs != [] ==> CheckpointRight(cs, |cs| - 1) && cs[..|cs|] == cs;
      }
    }
  }

  /** What is stored of some rows is stored of any longer stream of rows. */
  lemma PrefixOfMore(t: Tables, rows: seq<RawRow>, more: seq<RawRow>)
    requires PrefixStored(t, rows) && rows <= more
    ensures PrefixStored(t, more)
  {
    hide Filter;
  }

  /** The malformed rows, counted as the writer reports them. */
  function FailedRows(rows: seq<RawRow>): (n: nat)
    ensures n + |Filter(IsParsed(), rows)| == |rows|
  {
    if rows == [] then 0 else (if rows[0].parsedOk then 0 else 1) + FailedRows(rows[1..])
  }

  /** `Math.max(min, Math.min(1000, configured))` */
  function InitialBatchSize(configured: int, testMode: bool): (n: nat)
    ensures (if testMode then 1 else 50) <= n <= 1000
    ensures (if testMode then 1 else 50) <= configured <= 1000 ==> n == configured
    ensures configured > 1000 ==> n == 1000
    ensures configured < (if testMode then 1 else 50) ==> n == if testMode then 1 else 50
  {
    var wanted := if configured < 1000 then configured else 1000;
    if wanted > MinBatchSize(testMode) then wanted else MinBatchSize(testMode)
  }

  function MinBatchSize(testMode: bool): nat { if testMode then 1 else 50 }

  /** The limit's last row has just been parsed. */
  ghost predicate ReachesLimit(limit: Option<nat>, rows: seq<RawRow>) {
    limit == Some(|Filter(IsParsed(), rows)|) && rows != [] && rows[|rows| - 1].parsedOk
  }

  ghost predicate BelowLimit(limit: Option<nat>, rows: seq<RawRow>) {
    limit.Some? ==> |Filter(IsParsed(), rows)| < limit.value
  }

  lemma StartsBelowLimit(limit: Option<nat>)
    requires limit != Some(0)
    ensures BelowLimit(limit, [])
  {
  }

  lemma ParsedOnto(rows: seq<RawRow>, row: RawRow)
    ensures Filter(IsParsed(), rows + [row]) ==
            if row.parsedOk then Filter(IsParsed(), rows) + [row] else Filter(IsParsed(), rows)
  {
    FilterConcat(IsParsed(), rows, [row]);
  }

  lemma OneMoreRow(limit: Option<nat>, read: seq<RawRow>, row: RawRow)
    requires BelowLimit(limit, read)
    ensures if row.parsedOk && limit.Some? && |Filter(IsParsed(), read + [row])| >= limit.value
            then ReachesLimit(limit, read + [row]) else BelowLimit(limit, read + [row])
  {
    hide Filter;
    ParsedOnto(read, row);
  }

  /** No shorter prefix of the rows has as many parsed ones: nothing is read past the limit. */
  lemma LimitIsReachedLast(limit: Option<nat>, rows: seq<RawRow>, n: nat)
    requires ReachesLimit(limit, rows) && n < |rows|
    ensures BelowLimit(limit, rows[..n])
  {
    hide Filter;
    assert rows == rows[..n] + rows[n..] && rows[n..][|rows| - n - 1] == rows[|rows| - 1];
    FilterConcat(IsParsed(), rows[..n], rows[n..]);
    FilterMember(IsParsed(), rows[n..], rows[|rows| - 1]);
  }

  class IngestRun {
    var tables: Tables
    /** A write that timed out and may still commit. */
    var inFlight: Option<Batch>
    var lineNumber: nat
    var parsedSuccessCount: nat
    var checkpointSeq: nat
    var rowsInserted: nat
    var rowsFailed: nat
    var rawChunk: seq<RawRow>
    var stagingChunk: seq<RawRow>
    var currentBatchSize: nat
    const minBatchSize: nat
    const initialBatchSize: nat
    const maxRowsToProcess: Option<nat>

    constructor (configuredBatch: int, maxRows: Option<nat>)
      ensures Working([]) && tables == Tables([], [], [], [])
      ensures maxRowsToProcess == if maxRows == Some(0) then None else maxRows
      ensures lineNumber == 0 && parsedSuccessCount == 0
      ensures initialBatchSize == InitialBatchSize(configuredBatch, maxRowsToProcess.Some?)
      ensures minBatchSize == (if maxRowsToProcess.Some? then 1 else 50) && currentBatchSize == initialBatchSize
    {
      var testMode := maxRows.Some? && maxRows.value != 0;
      maxRowsToProcess := if testMode then maxRows else None;
      minBatchSize := MinBatchSize(testMode);
      initialBatchSize := InitialBatchSize(configuredBatch, testMode);
      currentBatchSize := InitialBatchSize(configuredBatch, testMode);
      tables, inFlight := Tables([], [], [], []), None;
      lineNumber, parsedSuccessCount, checkpointSeq, rowsInserted, rowsFailed := 0, 0, 0, 0, 0;
      rawChunk, stagingChunk := [], [];
    }

    /** What is true between lines: all `rows` read so far are stored or in the current chunk. */
    ghost predicate Working(rows: seq<RawRow>)
      reads this
    {
      && inFlight.None? && PrefixStored(tables, rows)
      && rows == tables.raw + rawChunk && lineNumber == |rows|
      && stagingChunk == Filter(IsParsed(), rawChunk)
      && parsedSuccessCount == |Filter(IsParsed(), rows)|
      && checkpointSeq == |tables.checkpoints|
      && Counted() && 1 <= minBatchSize <= currentBatchSize <= initialBatchSize <= 1000
      && maxRowsToProcess != Some(0)
    }

    /** The counters say what was stored. */
    ghost predicate Counted()
      reads this
    {
      rowsInserted == |tables.staged| && rowsInserted + rowsFailed == |tables.raw|
    }

    /** What is true in every reachable state, after an abort too. */
    ghost predicate Sound(rows: seq<RawRow>)
      reads this
    {
      && PrefixStored(tables, rows)
      && (inFlight.Some? ==> Continues(tables, inFlight.value, rows))
    }

    /** `writeStagingBatch`: the transaction raced against the timeout. */
    method WriteStagingBatch(b: Batch, outcome: WriteOutcome, ghost rows: seq<RawRow>) returns (ok: bool)
      requires inFlight.None? && PrefixStored(tables, rows) && Continues(tables, b, rows)
      modifies this`tables, this`inFlight
      ensures ok == outcome.Commits? && Sound(rows)
      ensures tables == if ok then Committed(old(tables), b) else old(tables)
      ensures inFlight == if outcome.TimesOutThenCommits? then Some(b) else None
    {
      ok := false;
      match outcome {
        case Commits =>
          CommitKeepsPrefix(tables, b, rows);
          tables := Committed(tables, b);
          ok := true;
        case RollsBack =>
        case TimesOutThenCommits => inFlight := Some(b);
        case TimesOutThenRollsBack =>
      }
    }

    /** The transaction behind a timed-out write commits after all. */
    method LateCommit(ghost rows: seq<RawRow>)
      requires Sound(rows) && inFlight.Some?
      modifies this`tables, this`inFlight
      ensures Sound(rows) && inFlight.None? && tables == Committed(old(tables), old(inFlight).value)
    {
      CommitKeepsPrefix(tables, inFlight.value, rows);
      tables := Committed(tables, inFlight.value);
      inFlight := None;
    }

    /** The batch of the current chunk continues what is stored; once it is stored the counters are right again. */
    lemma ChunkContinues(rows: seq<RawRow>)
      requires Working(rows) && !(|rawChunk| == 0 && |stagingChunk| == 0)
      ensures Continues(tables, Batch(checkpointSeq + 1, lineNumber, rawChunk, stagingChunk), rows)
      ensures PrefixStored(tables, rows) && inFlight.None?
    {
      hide PrefixStored, IsParsed;
    }

    /** Every row read is stored once the chunk is empty. */
    lemma AllStored(rows: seq<RawRow>)
      requires Working(rows) && rawChunk == []
      ensures tables.raw == rows && lineNumber == |rows| && Sound(rows)
      ensures rowsInserted + rowsFailed == |rows| && rowsInserted == |tables.staged| == parsedSuccessCount
    {
      hide Filter;
    }

    /** Nothing was written but a batch of `n` rows, or it is still under way. */
    ghost predicate SizesAfter(before: seq<Checkpoint>, n: nat)
      reads this
    {
      && (tables.checkpoints == before ||
          (|tables.checkpoints| == |before| + 1 && before <= tables.checkpoints
           && tables.checkpoints[|before|].rowsWritten == n))
      && (inFlight.Some? ==> |inFlight.value.rawRows| == n)
    }

    /** Batches hold at most the initial size; all but the last at least the minimum size. */
    ghost predicate Batched()
      reads this
    {
      && (forall c :: c in tables.checkpoints ==> c.rowsWritten <= initialBatchSize)
      && (inFlight.Some? ==> |inFlight.value.rawRows| <= initialBatchSize)
      && (forall i :: 0 <= i < |tables.checkpoints| - 1 ==> tables.checkpoints[i].rowsWritten >= minBatchSize)
    }

    /** Between lines every batch written was full, and the chunk is not. */
    ghost predicate Filling()
      reads this
    {
      && Batched() && |rawChunk| < currentBatchSize
      && forall c :: c in tables.checkpoints ==> c.rowsWritten >= minBatchSize
    }

    /** `flush`: false when it throws. */
    method Flush(env: FlushEnvironment, ghost rows: seq<RawRow>) returns (ok: bool)
      requires Working(rows)
      modifies this
      ensures Sound(rows) && Counted() && lineNumber == old(lineNumber) && parsedSuccessCount == old(parsedSuccessCount)
      ensures ok ==> Working(rows) && rawChunk == []
      ensures minBatchSize <= currentBatchSize <= old(currentBatchSize)
      ensures ok && |old(rawChunk)| > 0 ==>
                if env.memoryWarn
                then (5 * currentBatchSize <= 4 * old(currentBatchSize) || currentBatchSize == minBatchSize)
                     && 4 * old(currentBatchSize) < 5 * (currentBatchSize + 1)
                else currentBatchSize == old(currentBatchSize)
      ensures old(rawChunk) == [] ==> tables == old(tables) && inFlight.None?
      ensures SizesAfter(old(tables.checkpoints), |old(rawChunk)|)
    {
      hide PrefixStored, Filter, FailedRows;
      if |rawChunk| == 0 && |stagingChunk| == 0 {
        return true;
      }
      ChunkContinues(rows);
      checkpointSeq := checkpointSeq + 1;
      ghost var stored := tables;
      var b := Batch(checkpointSeq, lineNumber, rawChunk, stagingChunk);
      var written := WriteStagingBatch(b, env.write, rows);
      if !written {
        return false;
      }
      FilterConcat(IsParsed(), stored.raw, rawChunk);
      rowsInserted := rowsInserted + |stagingChunk|;
      rowsFailed := rowsFailed + FailedRows(rawChunk);
      rawChunk, stagingChunk := [], [];
      assert stagingChunk == Filter(IsParsed(), rawChunk) by { FilterNone(IsParsed(), rawChunk); }
      if !env.progressSaved || env.memoryFail {
        return false;
      }
      if env.memoryWarn && currentBatchSize > minBatchSize {
        var reduced := currentBatchSize * 4 / 5;
        currentBatchSize := if reduced > minBatchSize then reduced else minBatchSize;
      }
      if env.memoryPause && env.stillFailing {
        return false;
      }
      return true;
    }

    /** A line is read: it joins the chunk, and the staging chunk when it parsed. */
    method TakeRow(row: RawRow, ghost read: seq<RawRow>)
      requires Working(read) && row.lineNumber == lineNumber + 1
      modifies this`lineNumber, this`parsedSuccessCount, this`rawChunk, this`stagingChunk
      ensures Working(read + [row]) && rawChunk == old(rawChunk) + [row]
    {
      hide PrefixStored, Filter;
      PrefixOfMore(tables, read, read + [row]);
      ParsedOnto(read, row);
      ParsedOnto(rawChunk, row);
      lineNumber := lineNumber + 1;
      rawChunk := rawChunk + [row];
      if row.parsedOk {
        parsedSuccessCount := parsedSuccessCount + 1;
        stagingChunk := stagingChunk + [row];
      }
    }

    lemma StartsFilling()
      requires Working([])
      ensures Filling()
    {
      hide Filter;
      var cs := tables.checkpoints;
      assert cs[..|cs|] == cs;
      assert cs != [] ==> CheckpointRight(cs, |cs| - 1);
    }

    lemma StillFilling()
      requires inFlight.None? && |rawChunk| < currentBatchSize
      requires forall c :: c in tables.checkpoints ==> minBatchSize <= c.rowsWritten <= initialBatchSize
      ensures Filling()
    {
    }

    lemma FillingMeans()
      requires Filling()
      ensures Batched() && |rawChunk| < currentBatchSize
      ensures forall c :: c in tables.checkpoints ==> minBatchSize <= c.rowsWritten <= initialBatchSize
    {
    }

    lemma SizesAreBounded(rows: seq<RawRow>)
      requires Working(rows)
      ensures inFlight.None? && 1 <= minBatchSize <= currentBatchSize <= initialBatchSize
    {
    }

    /** A flush of at most a full chunk keeps batches in bounds; after a full one the next chunk can fill. */
    lemma BatchesKept(before: seq<Checkpoint>, n: nat)
      requires SizesAfter(before, n) && n <= initialBatchSize
      requires forall c :: c in before ==> minBatchSize <= c.rowsWritten <= initialBatchSize
      ensures Batched()
      ensures n >= minBatchSize && rawChunk == [] && currentBatchSize > 0 ==> Filling()
    {
    }

    lemma CountsAreRows(rows: seq<RawRow>)
      requires Working(rows)
      ensures lineNumber == |rows| && parsedSuccessCount == |Filter(IsParsed(), rows)|
    {
    }

    lemma SoundForMore(rows: seq<RawRow>, more: seq<RawRow>)
      requires Sound(rows) && rows <= more
      ensures Sound(more)
    {
      hide PrefixStored;
      PrefixOfMore(tables, rows, more);
    }

    lemma WorkingIsSound(rows: seq<RawRow>)
      requires Working(rows)
      ensures Sound(rows) && Counted() && maxRowsToProcess != Some(0)
    {
      hide PrefixStored;
    }

    /**
     `ingestStreamWithCheckpoints`, from a fresh run: the stream delivers `lines` and then ends,
     or throws. No batch is larger than the configured size, and all but the last hold at
     least the minimum size.
     */
    method Ingest(lines: seq<string>, streamFails: bool, parses: string -> bool, env: nat -> FlushEnvironment)
      returns (outcome: Outcome)
      requires Working([])
      modifies this
      ensures Sound(RowsOf(lines, parses)) && Batched()
      ensures outcome.stats.rowsInserted == rowsInserted && outcome.stats.rowsFailed == rowsFailed && Counted()
      ensures outcome.Finished? ==>
                && outcome.stats.rowsInserted + outcome.stats.rowsFailed == outcome.stats.lineCount == |tables.raw|
                && outcome.stats.rowsInserted == |tables.staged|
                && if outcome.stoppedEarlyByTestLimit then ReachesLimit(maxRowsToProcess, tables.raw)
                   else !streamFails && tables.raw == RowsOf(lines, parses) && BelowLimit(maxRowsToProcess, tables.raw)
    {
      hide *;
      var flushes := 0;
      var stopped := false;
      var i := 0;
      NoRows(lines[..0], parses);
      WorkingIsSound([]);
      StartsBelowLimit(maxRowsToProcess);
      StartsFilling();
      FillingMeans();
      while i < |lines| && !stopped
        invariant 0 <= i <= |lines| && Working(RowsOf(lines[..i], parses)) && Filling()
        invariant |rawChunk| < currentBatchSize
        invariant if stopped then ReachesLimit(maxRowsToProcess, RowsOf(lines[..i], parses))
                  else BelowLimit(maxRowsToProcess, RowsOf(lines[..i], parses))
      {
        var line := lines[i];
        ghost var read := RowsOf(lines[..i], parses);
        OneMoreLine(lines, parses, i);
        RowsGrow(lines, parses, i + 1);
        CountsAreRows(read);
        SizesAreBounded(read);
        FillingMeans();
        ghost var written, size := tables.checkpoints, |rawChunk| + 1;
        i := i + 1;
        if IsBlank(line) {
          continue;
        }
        var row := RawRow(lineNumber + 1, line, parses(line));
        TakeRow(row, read);
        CountsAreRows(read + [row]);
        OneMoreRow(maxRowsToProcess, read, row);
        if row.parsedOk && maxRowsToProcess.Some? && parsedSuccessCount >= maxRowsToProcess.value {
          stopped := true;
        }
        if |rawChunk| >= currentBatchSize {
          var ok := Flush(env(flushes), read + [row]);
          flushes := flushes + 1;
          BatchesKept(written, size);
          if !ok {
            SoundForMore(read + [row], RowsOf(lines, parses));
            return Aborted(Stats(lineNumber, rowsInserted, rowsFailed));
          }
          SizesAreBounded(read + [row]);
        } else {
          SizesAreBounded(read + [row]);
          StillFilling();
        }
      }
      ghost var read := RowsOf(lines[..i], parses);
      RowsGrow(lines, parses, i);
      FillingMeans();
      if !stopped && streamFails {
        WorkingIsSound(read);
        SoundForMore(read, RowsOf(lines, parses));
        return Aborted(Stats(lineNumber, rowsInserted, rowsFailed));
      }
      SizesAreBounded(read);
      ghost var written, size := tables.checkpoints, |rawChunk|;
      var ok := Flush(env(flushes), read);
      BatchesKept(written, size);
      SoundForMore(read, RowsOf(lines, parses));
      if !ok {
        return Aborted(Stats(lineNumber, rowsInserted, rowsFailed));
      }
      AllStored(read);
      assert !stopped ==> lines[..i] == lines;
      return Finished(Stats(lineNumber, rowsInserted, rowsFailed), stopped);
    }
  }

  lemma NoRows(lines: seq<string>, parses: string -> bool)
    requires lines == []
    ensures RowsOf(lines, parses) == []
  {
  }

  lemma OneMoreLine(lines: seq<string>, parses: string -> bool, i: nat)
    requires i < |lines|
    ensures IsBlank(lines[i]) ==> RowsOf(lines[..i + 1], parses) == RowsOf(lines[..i], parses)
    ensures !IsBlank(lines[i]) ==>
              RowsOf(lines[..i + 1], parses) == AndLine(RowsOf(lines[..i], parses), lines[i], parses)
    ensures AndLine(RowsOf(lines[..i], parses), lines[i], parses)
         == RowsOf(lines[..i], parses) + [RawRow(|RowsOf(lines[..i], parses)| + 1, lines[i], parses(lines[i]))]
  {
    hide IsBlank;
    assert lines[..i + 1][..i] == lines[..i];
  }

  // --- Lineage ---

  ghost predicate LinesDistinct(rows: seq<RawRow>) {
    forall i, j :: 0 <= i < j < |rows| ==> rows[i].lineNumber != rows[j].lineNumber
  }

  /** Every staged row of the batch is recorded under its own line. */
  ghost predicate LineageRight(rows: seq<RawRow>) {
    var staged := Filter(IsParsed(), rows);
    forall i :: 0 <= i < |staged| ==> LineageOf(rows, staged)[i] == staged[i].lineNumber
  }

  /** No malformed row comes before a parsed one. */
  ghost predicate MalformedLast(rows: seq<RawRow>) {
    forall i, j :: 0 <= i < j < |rows| && rows[j].parsedOk ==> rows[i].parsedOk
  }

  lemma {:induction false} ParsedFirst(rows: seq<RawRow>)
    requires MalformedLast(rows)
    ensures Filter(IsParsed(), rows) == rows[..|Filter(IsParsed(), rows)|]
  {
    if rows != [] {
      if rows[0].parsedOk {
        ParsedFirst(rows[1..]);
      } else {
        FilterNone(IsParsed(), rows);
      }
    }
  }

  /** The first malformed row that is followed by a parsed one shifts the numbering. */
  lemma {:induction false} ShiftedByMalformed(rows: seq<RawRow>, i: nat, j: nat)
    requires i < j < |rows| && rows[j].parsedOk && !rows[i].parsedOk && forall k :: 0 <= k < i ==> rows[k].parsedOk
    ensures i < |Filter(IsParsed(), rows)| && Filter(IsParsed(), rows)[i] in rows[i + 1..]
  {
    hide Filter;
    var head, rest := rows[..i], rows[i + 1..];
    assert rows == head + [rows[i]] + rest;
    FilterConcat(IsParsed(), head + [rows[i]], rest);
    FilterConcat(IsParsed(), head, [rows[i]]);
    FilterAll(IsParsed(), head);
    FilterNone(IsParsed(), [rows[i]]);
    FilterMembers(IsParsed(), rest);
    assert rest[j - i - 1] == rows[j] && rows[j] in Filter(IsParsed(), rest);
    assert Filter(IsParsed(), rows)[i] == Filter(IsParsed(), rest)[0];
  }

  /** The lineage of a batch is right exactly when no malformed row precedes a parsed one. */
  lemma LineageRightExactly(rows: seq<RawRow>)
    requires LinesDistinct(rows)
    ensures LineageRight(rows) <==> MalformedLast(rows)
  {
    hide Filter;
    var staged := Filter(IsParsed(), rows);
    if MalformedLast(rows) {
      ParsedFirst(rows);
    } else {
      var b, j :| 0 <= b < j < |rows| && rows[j].parsedOk && !rows[b].parsedOk;
      var i := FirstMalformed(rows, b);
      ShiftedByMalformed(rows, i, j);
      var k :| i + 1 <= k < |rows| && rows[k] == staged[i];
      assert rows[i].lineNumber != staged[i].lineNumber;
    }
  }

  /** A malformed line, then a parsed one: the parsed row is recorded under the malformed row's number. */
  lemma MalformedFirstShifts()
    ensures var rows := [RawRow(1, "x", false), RawRow(2, "y", true)];
            && Filter(IsParsed(), rows) == [rows[1]] && LineageOf(rows, [rows[1]]) == [1]
            && !LineageRight(rows)
  {
    hide Filter;
    var rows := [RawRow(1, "x", false), RawRow(2, "y", true)];
    assert rows == [rows[0]] + [rows[1]];
    FilterOnto(IsParsed(), rows[0], [rows[1]]);
    FilterAll(IsParsed(), [rows[1]]);
  }

  lemma {:induction false} FirstMalformed(rows: seq<RawRow>, b: nat) returns (i: nat)
    requires b < |rows| && !rows[b].parsedOk
    ensures i <= b && !rows[i].parsedOk && forall k :: 0 <= k < i ==> rows[k].parsedOk
  {
    if k :| 0 <= k < b && !rows[k].parsedOk {
      i := FirstMalformed(rows, k);
    } else {
      i := b;
    }
  }
}
