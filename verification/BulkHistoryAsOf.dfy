/**
 The temporal history agrees with the current table at every moment, over any sequence
 of runs, exactly when no file contradicts itself about a company.
 (backend/src/bolagsverket-bulk/bolagsverket-bulk-upsert.service.ts:173-261)
 */
module BulkHistoryAsOf {
  import opened Wrappers
  import opened Strings
  import opened BulkHistory

  /** One run; the removal pass follows only when all rows were applied. */
  datatype FileRun = FileRun(id: nat, runAt: int, rows: seq<StagingRow>, completed: bool)

  ghost predicate RunStep(u: Universe, run: FileRun, u': Universe) {
    var applied := ApplyRows(u, run.id, run.runAt, run.rows);
    if run.completed then RemovalsNoted(applied, run.id, run.runAt, u') else u' == applied
  }

  /** `states[i]` is what the tables hold after the first `i` runs. */
  ghost predicate Trace(runs: seq<FileRun>, states: seq<Universe>) {
    && |states| == |runs| + 1 && states[0] == EMPTY_UNIVERSE
    && forall i :: 0 <= i < |runs| ==> RunStep(states[i], runs[i], states[i + 1])
  }

  ghost predicate RunsOrdered(runs: seq<FileRun>) {
    forall i, j :: 0 <= i < j < |runs| ==> runs[i].runAt < runs[j].runAt && runs[i].id != runs[j].id
  }

  /** All rows of a file about one company carry the same record. */
  ghost predicate Consistent(rows: seq<StagingRow>) {
    forall i, j :: 0 <= i < |rows| && 0 <= j < |rows| && OrgOf(rows[i]) == OrgOf(rows[j]) != "" ==>
      rows[i].contentHash == rows[j].contentHash
  }

  ghost predicate ValidAt(r: HistoryRow, t: int) {
    r.validFrom <= t && (r.validTo.Some? ==> t < r.validTo.value)
  }

  /** How many runs had happened at time `t`. */
  ghost function RunsBy(runs: seq<FileRun>, t: int): (n: nat)
    ensures n <= |runs|
  {
    if runs == [] then 0 else if runs[|runs| - 1].runAt <= t then |runs| else RunsBy(runs[..|runs| - 1], t)
  }

  /** The record the current table held for a company at time `t`. */
  ghost function HeldAt(runs: seq<FileRun>, states: seq<Universe>, org: string, t: int): Option<string>
    requires |states| == |runs| + 1
  {
    var u := states[RunsBy(runs, t)];
    if org in u.current then Some(u.current[org].currentRecordHash) else None
  }

  /**
   At time `t` the history rows of a company all carry what the current table held, and there
   is one if it held anything.
   */
  ghost predicate AgreesAt(history: seq<HistoryRow>, org: string, t: int, held: Option<string>) {
    && (forall r :: r in history && r.org == org && ValidAt(r, t) ==> held == Some(r.recordHash))
    && (held.Some? ==> exists r :: r in history && r.org == org && ValidAt(r, t))
  }

  ghost predicate HistoryAgrees(runs: seq<FileRun>, states: seq<Universe>)
    requires |states| == |runs| + 1
  {
    forall org, t :: AgreesAt(states[|runs|].history, org, t, HeldAt(runs, states, org, t))
  }

  // --- What one run does to the history ---

  /** Rows are only added, from `a` on and open, or closed at `a`. */
  ghost predicate Grown(h: seq<HistoryRow>, h': seq<HistoryRow>, a: int) {
    && |h| <= |h'|
    && (forall i :: 0 <= i < |h| ==> h'[i] == h[i] || (h[i].validTo.None? && h'[i] == h[i].(validTo := Some(a))))
    && (forall i :: |h| <= i < |h'| ==> h'[i].validFrom == a && h'[i].validTo.None?)
  }

  ghost predicate OpenFor(r: HistoryRow, org: string) {
    r.org == org && r.validTo.None?
  }

  /** A row written by time `a`: closed by then, or open and carrying the current record. */
  ghost predicate RowSettled(current: map<string, CurrentRow>, r: HistoryRow, a: int) {
    && r.validFrom <= a
    && if r.validTo.Some? then r.validTo.value <= a
       else r.org in current && r.recordHash == current[r.org].currentRecordHash
  }

  ghost predicate Settled(u: Universe, a: int) {
    && (forall i :: 0 <= i < |u.history| ==> RowSettled(u.current, u.history[i], a))
    && (forall org :: org in u.current ==> exists i :: 0 <= i < |u.history| && OpenFor(u.history[i], org))
  }

  ghost predicate Mentions(rows: seq<StagingRow>, org: string, hash: string) {
    exists row :: row in rows && OrgOf(row) == org && row.contentHash == hash
  }

  /** The rows of the run under way come from its file. */
  ghost predicate FromFile(u: Universe, run: nat, rows: seq<StagingRow>) {
    forall i :: 0 <= i < |u.history| && u.history[i].fileRunId == run ==>
      Mentions(rows, u.history[i].org, u.history[i].recordHash)
  }

  lemma MentionsMore(rows: seq<StagingRow>, row: StagingRow)
    ensures forall org, hash :: Mentions(rows, org, hash) ==> Mentions(rows + [row], org, hash)
    ensures Mentions(rows + [row], OrgOf(row), row.contentHash)
  {
    assert row in rows + [row];
    forall org, hash | Mentions(rows, org, hash)
      ensures Mentions(rows + [row], org, hash)
    {
      var r :| r in rows && OrgOf(r) == org && r.contentHash == hash;
      assert r in rows + [row];
    }
  }

  /** A consistent file mentions a company with one record only. */
  lemma MentionsOne(rows: seq<StagingRow>, k: nat, hash: string)
    requires k < |rows| && Consistent(rows) && OrgOf(rows[k]) != "" && Mentions(rows[..k], OrgOf(rows[k]), hash)
    ensures hash == rows[k].contentHash
  {
    var r :| r in rows[..k] && OrgOf(r) == OrgOf(rows[k]) && r.contentHash == hash;
    var m :| 0 <= m < k && rows[m] == r;
  }

  /** When a company's record changes, none of its open rows is of the run under way. */
  lemma ChangeMeansOlder(u: Universe, run: nat, a: int, rows: seq<StagingRow>, k: nat, i: nat)
    requires k < |rows| && Settled(u, a) && FromFile(u, run, rows[..k]) && Consistent(rows)
    requires OrgOf(rows[k]) != "" && ChangeOf(u, rows[k]).Updated?
    requires i < |u.history| && OpenFor(u.history[i], OrgOf(rows[k]))
    ensures u.history[i].fileRunId != run
  {
    hide OrgOf, Consistent;
    assert RowSettled(u.current, u.history[i], a);
    if u.history[i].fileRunId == run {
      MentionsOne(rows, k, u.history[i].recordHash);
    }
  }

  lemma ApplyRowSettles(u: Universe, run: nat, a: int, rows: seq<StagingRow>, k: nat)
    requires k < |rows| && Settled(u, a) && FromFile(u, run, rows[..k]) && Consistent(rows)
    ensures Settled(ApplyRow(u, run, a, rows[k]), a)
  {
    hide OrgOf, Consistent, Mentions, FromFile;
    var org := OrgOf(rows[k]);
    var u' := ApplyRow(u, run, a, rows[k]);
    if org != "" {
      var n := |u.history|;
      assert OpenFor(u'.history[n], org);
      forall i | 0 <= i < |u'.history|
        ensures RowSettled(u'.current, u'.history[i], a)
      {
        if i < n {
          assert RowSettled(u.current, u.history[i], a);
          if ChangeOf(u, rows[k]).Updated? && OpenFor(u.history[i], org) {
            ChangeMeansOlder(u, run, a, rows, k, i);
          }
        }
      }
      forall o | o in u'.current
        ensures exists i :: 0 <= i < |u'.history| && OpenFor(u'.history[i], o)
      {
        if o != org {
          var i :| 0 <= i < n && OpenFor(u.history[i], o);
          assert OpenFor(u'.history[i], o);
        }
      }
    }
  }

  lemma ApplyRowFromFile(u: Universe, run: nat, a: int, rows: seq<StagingRow>, k: nat)
    requires k < |rows| && FromFile(u, run, rows[..k])
    ensures FromFile(ApplyRow(u, run, a, rows[k]), run, rows[..k + 1])
  {
    hide OrgOf, Mentions;
    assert rows[..k + 1] == rows[..k] + [rows[k]];
    MentionsMore(rows[..k], rows[k]);
  }

  lemma {:induction false} ApplyRowsSettle(u: Universe, run: nat, a: int, rows: seq<StagingRow>, k: nat)
    requires Settled(u, a) && (forall i :: 0 <= i < |u.history| ==> u.history[i].fileRunId != run)
    requires k <= |rows| && Consistent(rows)
    ensures Settled(ApplyRows(u, run, a, rows[..k]), a) && FromFile(ApplyRows(u, run, a, rows[..k]), run, rows[..k])
  {
    hide Settled, FromFile, ApplyRow, Consistent;
    if k == 0 {
      NothingFromFile(u, run);
      assert rows[..0] == [];
    } else {
      ApplyRowsSettle(u, run, a, rows, k - 1);
      ApplyRowSettles(ApplyRows(u, run, a, rows[..k - 1]), run, a, rows, k - 1);
      ApplyRowFromFile(ApplyRows(u, run, a, rows[..k - 1]), run, a, rows, k - 1);
      assert rows[..k][..k - 1] == rows[..k - 1];
    }
  }

  lemma NothingFromFile(u: Universe, run: nat)
    requires forall i :: 0 <= i < |u.history| ==> u.history[i].fileRunId != run
    ensures FromFile(u, run, [])
  {
  }

  lemma RemovalsSettle(u: Universe, run: nat, a: int, u': Universe)
    requires Settled(u, a) && RemovalsNoted(u, run, a, u')
    ensures Settled(u', a)
  {
    forall i | 0 <= i < |u'.history|
      ensures RowSettled(u'.current, u'.history[i], a)
    {
      if i < |u.history| {
        assert RowSettled(u.current, u.history[i], a);
      } else {
        assert u'.history[i] == u'.history[|u.history|..][i - |u.history|];
      }
    }
    forall org | org in u'.current
      ensures exists i :: 0 <= i < |u'.history| && OpenFor(u'.history[i], org)
    {
      var i :| 0 <= i < |u.history| && OpenFor(u.history[i], org);
      assert OpenFor(u'.history[i], org);
    }
  }

  lemma {:induction false} ApplyRowsGrow(u: Universe, run: nat, a: int, rows: seq<StagingRow>)
    requires forall i :: 0 <= i < |u.history| ==> u.history[i].fileRunId != run
    ensures Grown(u.history, ApplyRows(u, run, a, rows).history, a)
    ensures forall i :: |u.history| <= i < |ApplyRows(u, run, a, rows).history| ==>
              ApplyRows(u, run, a, rows).history[i].fileRunId == run
  {
    hide Digits;
    if rows != [] {
      ApplyRowsGrow(u, run, a, rows[..|rows| - 1]);
    }
  }

  lemma StepGrows(u: Universe, run: FileRun, u': Universe)
    requires RunStep(u, run, u') && forall i :: 0 <= i < |u.history| ==> u.history[i].fileRunId != run.id
    ensures Grown(u.history, u'.history, run.runAt)
    ensures forall i :: |u.history| <= i < |u'.history| ==> u'.history[i].fileRunId == run.id
  {
    hide ApplyRows;
    ApplyRowsGrow(u, run.id, run.runAt, run.rows);
    var h := ApplyRows(u, run.id, run.runAt, run.rows).history;
    forall i | |h| <= i < |u'.history|
      ensures u'.history[i].fileRunId == run.id && u'.history[i].validFrom == run.runAt && u'.history[i].validTo.None?
    {
      assert u'.history[i] == u'.history[|h|..][i - |h|];
    }
  }

  lemma StepSettles(u: Universe, run: FileRun, u': Universe, earlier: int)
    requires RunStep(u, run, u') && Consistent(run.rows)
    requires forall i :: 0 <= i < |u.history| ==> u.history[i].fileRunId != run.id
    requires Settled(u, earlier) && earlier <= run.runAt
    ensures Settled(u', run.runAt)
  {
    hide Consistent, RemovalsNoted;
    assert Settled(u, run.runAt);
    ApplyRowsSettle(u, run.id, run.runAt, run.rows, |run.rows|);
    assert run.rows[..|run.rows|] == run.rows;
    if run.completed {
      RemovalsSettle(ApplyRows(u, run.id, run.runAt, run.rows), run.id, run.runAt, u');
    }
  }

  // --- Agreement over all runs ---

  /** Before `a` nothing about the past changes. */
  lemma PastUnchanged(h: seq<HistoryRow>, h': seq<HistoryRow>, a: int, org: string, t: int, held: Option<string>)
    requires Grown(h, h', a) && t < a && AgreesAt(h, org, t, held)
    ensures AgreesAt(h', org, t, held)
  {
    forall r | r in h' && r.org == org && ValidAt(r, t)
      ensures held == Some(r.recordHash)
    {
      var i :| 0 <= i < |h'| && h'[i] == r;
      assert i < |h| && h[i] in h && ValidAt(h[i], t);
    }
    if held.Some? {
      var r :| r in h && r.org == org && ValidAt(r, t);
      var i :| 0 <= i < |h| && h[i] == r;
      assert h'[i] in h' && ValidAt(h'[i], t);
    }
  }

  /** From the last run on, the history shows what the current table holds. */
  lemma PresentAgrees(u: Universe, a: int, org: string, t: int)
    requires Settled(u, a) && t >= a
    ensures AgreesAt(u.history, org, t, if org in u.current then Some(u.current[org].currentRecordHash) else None)
  {
    forall r | r in u.history && r.org == org && ValidAt(r, t)
      ensures org in u.current && u.current[org].currentRecordHash == r.recordHash
    {
      var i :| 0 <= i < |u.history| && u.history[i] == r;
      assert RowSettled(u.current, u.history[i], a);
    }
    if org in u.current {
      var i :| 0 <= i < |u.history| && OpenFor(u.history[i], org);
      assert RowSettled(u.current, u.history[i], a);
      assert u.history[i] in u.history && ValidAt(u.history[i], t);
    }
  }

  /** History rows name only runs that happened, none of them later than the last. */
  ghost predicate KnownRuns(runs: seq<FileRun>, u: Universe) {
    forall i :: 0 <= i < |u.history| ==> exists k :: 0 <= k < |runs| && runs[k].id == u.history[i].fileRunId
  }

  lemma NewRunIsNew(runs: seq<FileRun>, u: Universe)
    requires runs != [] && RunsOrdered(runs) && KnownRuns(runs[..|runs| - 1], u)
    ensures forall i :: 0 <= i < |u.history| ==> u.history[i].fileRunId != runs[|runs| - 1].id
  {
    forall i | 0 <= i < |u.history|
      ensures u.history[i].fileRunId != runs[|runs| - 1].id
    {
      var k :| 0 <= k < |runs[..|runs| - 1]| && runs[..|runs| - 1][k].id == u.history[i].fileRunId;
      assert runs[k].id == u.history[i].fileRunId;
    }
  }

  lemma RunsStayKnown(runs: seq<FileRun>, u: Universe, u': Universe)
    requires runs != [] && RunsOrdered(runs) && KnownRuns(runs[..|runs| - 1], u) && RunStep(u, runs[|runs| - 1], u')
    ensures KnownRuns(runs, u')
  {
    hide RunStep;
    var n := |runs| - 1;
    NewRunIsNew(runs, u);
    StepGrows(u, runs[n], u');
    forall i | 0 <= i < |u'.history|
      ensures exists k :: 0 <= k < |runs| && runs[k].id == u'.history[i].fileRunId
    {
      if i < |u.history| {
        var k :| 0 <= k < |runs[..n]| && runs[..n][k].id == u.history[i].fileRunId;
        assert runs[k].id == u'.history[i].fileRunId;
      } else {
        assert runs[n].id == u'.history[i].fileRunId;
      }
    }
  }

  lemma {:induction false} TraceFacts(runs: seq<FileRun>, states: seq<Universe>)
    requires Trace(runs, states) && RunsOrdered(runs)
    ensures KnownRuns(runs, states[|runs|])
  {
    hide RunStep;
    if runs != [] {
      var n := |runs| - 1;
      assert states[..n + 1][n] == states[n];
      TraceFacts(runs[..n], states[..n + 1]);
      RunsStayKnown(runs, states[n], states[n + 1]);
    }
  }

  ghost function LastTime(runs: seq<FileRun>): int {
    if runs == [] then 0 else runs[|runs| - 1].runAt
  }

  /** With consistent files the tables are settled after every run. */
  lemma {:induction false} AlwaysSettled(runs: seq<FileRun>, states: seq<Universe>)
    requires Trace(runs, states) && RunsOrdered(runs) && forall i :: 0 <= i < |runs| ==> Consistent(runs[i].rows)
    ensures runs == [] ==> Settled(states[0], 0)
    ensures Settled(states[|runs|], LastTime(runs)) && (runs == [] ==> forall a :: Settled(states[0], a))
  {
    hide RunStep, Consistent;
    if runs != [] {
      var n := |runs| - 1;
      var before := runs[..n];
      AlwaysSettled(before, states[..n + 1]);
      TraceFacts(before, states[..n + 1]);
      NewRunIsNew(runs, states[n]);
      assert before != [] ==> LastTime(before) <= runs[n].runAt;
      StepSettles(states[n], runs[n], states[n + 1], if before == [] then runs[n].runAt else LastTime(before));
    }
  }

  lemma {:induction false} ConsistentFilesAgree(runs: seq<FileRun>, states: seq<Universe>)
    requires Trace(runs, states) && RunsOrdered(runs) && forall i :: 0 <= i < |runs| ==> Consistent(runs[i].rows)
    ensures HistoryAgrees(runs, states)
  {
    hide RunStep, Consistent, AgreesAt;
    if runs == [] {
      forall org, t ensures AgreesAt(states[0].history, org, t, HeldAt(runs, states, org, t)) {
        NothingHeld(org, t);
      }
    } else {
      var n := |runs| - 1;
      var before := runs[..n];
      assert states[..n + 1][n] == states[n];
      ConsistentFilesAgree(before, states[..n + 1]);
      TraceFacts(before, states[..n + 1]);
      NewRunIsNew(runs, states[n]);
      StepGrows(states[n], runs[n], states[n + 1]);
      AlwaysSettled(runs, states);
      forall org, t
        ensures AgreesAt(states[n + 1].history, org, t, HeldAt(runs, states, org, t))
      {
        if t < runs[n].runAt {
          assert HeldAt(before, states[..n + 1], org, t) == HeldAt(runs, states, org, t);
          PastUnchanged(states[n].history, states[n + 1].history, runs[n].runAt, org, t, HeldAt(runs, states, org, t));
        } else {
          PresentAgrees(states[n + 1], runs[n].runAt, org, t);
        }
      }
    }
  }

  lemma NothingHeld(org: string, t: int)
    ensures AgreesAt([], org, t, None)
  {
  }

  // --- A file that contradicts itself ---

  ghost predicate Recorded(h: seq<HistoryRow>, org: string, run: nat, hash: string, a: int) {
    exists i :: 0 <= i < |h| && h[i].org == org && h[i].fileRunId == run && h[i].recordHash == hash &&
      h[i].validFrom == a && (h[i].validTo.Some? ==> h[i].validTo.value > a)
  }

  lemma {:induction false} AppliedIsRecorded(u: Universe, run: nat, a: int, rows: seq<StagingRow>, k: nat)
    requires k < |rows| && OrgOf(rows[k]) != ""
    ensures exists i :: 0 <= i < |ApplyRows(u, run, a, rows).history| &&
              OpenRecord(ApplyRows(u, run, a, rows).history[i], OrgOf(rows[k]), run, rows[k].contentHash, a)
  {
    hide OrgOf;
    var n := |rows| - 1;
    var before := ApplyRows(u, run, a, rows[..n]);
    var h' := ApplyRows(u, run, a, rows).history;
    if k == n {
      assert OpenRecord(h'[|before.history|], OrgOf(rows[k]), run, rows[k].contentHash, a);
    } else {
      AppliedIsRecorded(u, run, a, rows[..n], k);
      var i :| 0 <= i < |before.history| && OpenRecord(before.history[i], OrgOf(rows[k]), run, rows[k].contentHash, a);
      assert h'[i] == before.history[i];
    }
  }

  ghost predicate OpenRecord(r: HistoryRow, org: string, run: nat, hash: string, a: int) {
    r.org == org && r.fileRunId == run && r.recordHash == hash && r.validFrom == a && r.validTo.None?
  }

  lemma StepRecords(u: Universe, run: FileRun, u': Universe, k: nat)
    requires RunStep(u, run, u') && k < |run.rows| && OrgOf(run.rows[k]) != ""
    ensures Recorded(u'.history, OrgOf(run.rows[k]), run.id, run.rows[k].contentHash, run.runAt)
  {
    hide OrgOf, ApplyRows;
    AppliedIsRecorded(u, run.id, run.runAt, run.rows, k);
    var h := ApplyRows(u, run.id, run.runAt, run.rows).history;
    var i :| 0 <= i < |h| && OpenRecord(h[i], OrgOf(run.rows[k]), run.id, run.rows[k].contentHash, run.runAt);
    assert u'.history[i] == h[i];
  }

  lemma StaysRecorded(h: seq<HistoryRow>, h': seq<HistoryRow>, later: int, org: string, run: nat, hash: string, a: int)
    requires Grown(h, h', later) && a < later && Recorded(h, org, run, hash, a)
    ensures Recorded(h', org, run, hash, a)
  {
    var i :| 0 <= i < |h| && h[i].org == org && h[i].fileRunId == run && h[i].recordHash == hash &&
             h[i].validFrom == a && (h[i].validTo.Some? ==> h[i].validTo.value > a);
    assert h'[i].org == org && h'[i].recordHash == hash;
  }

  lemma {:induction false} RecordsForever(runs: seq<FileRun>, states: seq<Universe>, m: nat, k: nat)
    requires Trace(runs, states) && RunsOrdered(runs) && m < |runs| && k < |runs[m].rows|
             && OrgOf(runs[m].rows[k]) != ""
    ensures Recorded(states[|runs|].history, OrgOf(runs[m].rows[k]), runs[m].id, runs[m].rows[k].contentHash,
                     runs[m].runAt)
    decreases |runs|
  {
    hide RunStep, OrgOf, Recorded;
    var n := |runs| - 1;
    var before := runs[..n];
    assert states[..n + 1][n] == states[n] && RunStep(states[n], runs[n], states[n + 1]);
    if m == n {
      StepRecords(states[n], runs[n], states[n + 1], k);
    } else {
      RecordsForever(before, states[..n + 1], m, k);
      TraceFacts(before, states[..n + 1]);
      NewRunIsNew(runs, states[n]);
      StepGrows(states[n], runs[n], states[n + 1]);
      StaysRecorded(states[n].history, states[n + 1].history, runs[n].runAt, OrgOf(runs[m].rows[k]), runs[m].id,
                    runs[m].rows[k].contentHash, runs[m].runAt);
    }
  }

  lemma RecordedIsHeld(h: seq<HistoryRow>, org: string, run: nat, hash: string, a: int, held: Option<string>)
    requires Recorded(h, org, run, hash, a) && AgreesAt(h, org, a, held)
    ensures held == Some(hash)
  {
    var i :| 0 <= i < |h| && h[i].org == org && h[i].fileRunId == run && h[i].recordHash == hash &&
             h[i].validFrom == a && (h[i].validTo.Some? ==> h[i].validTo.value > a);
    assert h[i] in h && ValidAt(h[i], a);
  }

  lemma AgreementNeedsConsistentFiles(runs: seq<FileRun>, states: seq<Universe>, m: nat)
    requires Trace(runs, states) && RunsOrdered(runs) && HistoryAgrees(runs, states) && m < |runs|
    ensures Consistent(runs[m].rows)
  {
    hide RunStep, RunsOrdered, Recorded, AgreesAt, HeldAt, OrgOf;
    var rows, h := runs[m].rows, states[|runs|].history;
    forall i, j | 0 <= i < |rows| && 0 <= j < |rows| && OrgOf(rows[i]) == OrgOf(rows[j]) != ""
      ensures rows[i].contentHash == rows[j].contentHash
    {
      var org, a := OrgOf(rows[i]), runs[m].runAt;
      RecordsForever(runs, states, m, i);
      RecordsForever(runs, states, m, j);
      assert AgreesAt(h, org, a, HeldAt(runs, states, org, a));
      RecordedIsHeld(h, org, runs[m].id, rows[i].contentHash, a, HeldAt(runs, states, org, a));
      RecordedIsHeld(h, org, runs[m].id, rows[j].contentHash, a, HeldAt(runs, states, org, a));
    }
  }

  /**
   Over any sequence of runs at increasing times, the history rows valid at a moment all
   carry the record the current table held then, and some row is valid from first sight on
   (removals and returns included), exactly when no file has two different records for
   one company.
   */
  lemma HistoryAgreesExactly(runs: seq<FileRun>, states: seq<Universe>)
    requires Trace(runs, states) && RunsOrdered(runs)
    ensures HistoryAgrees(runs, states) <==> forall m :: 0 <= m < |runs| ==> Consistent(runs[m].rows)
  {
    hide RunStep, RunsOrdered, HistoryAgrees, Consistent;
    if forall m :: 0 <= m < |runs| ==> Consistent(runs[m].rows) {
      ConsistentFilesAgree(runs, states);
    }
    if HistoryAgrees(runs, states) {
      forall m | 0 <= m < |runs| ensures Consistent(runs[m].rows) {
        AgreementNeedsConsistentFiles(runs, states, m);
      }
    }
  }

  /** A file with two different records for one company. */
  const CONTRADICTION := FileRun(0, 0, [StagingRow(Some("1"), "a", false), StagingRow(Some("1"), "b", false)], false)

  /** One file, one company, two records: at the run's own time the history shows both. */
  lemma ContradictionDisagrees(states: seq<Universe>)
    requires Trace([CONTRADICTION], states)
    ensures !HistoryAgrees([CONTRADICTION], states)
  {
    var rows, runs := CONTRADICTION.rows, [CONTRADICTION];
    hide RunStep;
    HistoryAgreesExactly(runs, states);
    assert OrgOf(rows[0]) == OrgOf(rows[1]) == "1" && rows[0].contentHash != rows[1].contentHash;
    assert !Consistent(runs[0].rows);
  }
}
