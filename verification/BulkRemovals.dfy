/**
 The current company table told from the files alone: what it shows of each company after any
 sequence of runs, which companies a run notes as removed, and what it notes of each row.
 (backend/src/bolagsverket-bulk/bolagsverket-bulk-upsert.service.ts:97-261)
 */
module BulkRemovals {
  import opened Wrappers
  import opened BulkHistory
  import opened BulkHistoryAsOf

  ghost predicate Mentioned(rows: seq<StagingRow>, org: string) {
    exists k :: 0 <= k < |rows| && OrgOf(rows[k]) == org
  }

  /** The `k`-th row is the last of the file about the company. */
  ghost predicate LastAbout(rows: seq<StagingRow>, org: string, k: nat) {
    k < |rows| && OrgOf(rows[k]) == org && forall j :: k < j < |rows| ==> OrgOf(rows[j]) != org
  }

  lemma {:induction false} SomeIsLast(rows: seq<StagingRow>, org: string) returns (k: nat)
    requires Mentioned(rows, org)
    ensures LastAbout(rows, org, k)
  {
    hide OrgOf;
    var n := |rows| - 1;
    if OrgOf(rows[n]) == org {
      k := n;
    } else {
      assert forall j :: 0 <= j < n ==> rows[..n][j] == rows[j];
      k := SomeIsLast(rows[..n], org);
    }
  }

  // --- One file ---

  /** What the table holds of a company after a file's rows: its last row there, if it has one. */
  ghost predicate HoldsLast(u: Universe, run: nat, runAt: int, rows: seq<StagingRow>, org: string, u': Universe) {
    && (!Mentioned(rows, org) ==>
          (org in u'.current <==> org in u.current) && (org in u.current ==> u'.current[org] == u.current[org]))
    && (forall k: nat :: LastAbout(rows, org, k) ==>
          && org in u'.current
          && u'.current[org] == CurrentRow(rows[k].contentHash, run, !rows[k].deregistered,
                                           if org in u.current then u.current[org].firstSeenAt else runAt, runAt))
  }

  lemma {:induction false} AppliedHoldsLast(u: Universe, run: nat, runAt: int, rows: seq<StagingRow>, org: string)
    requires org != ""
    ensures HoldsLast(u, run, runAt, rows, org, ApplyRows(u, run, runAt, rows))
  {
    hide OrgOf, ApplyRow, HoldsLast;
    if rows == [] {
      NoRowsHold(u, run, runAt, org);
    } else {
      var n := |rows| - 1;
      AppliedHoldsLast(u, run, runAt, rows[..n], org);
      OneMoreHeld(u, run, runAt, rows, org, ApplyRows(u, run, runAt, rows[..n]));
    }
  }

  lemma NoRowsHold(u: Universe, run: nat, runAt: int, org: string)
    ensures HoldsLast(u, run, runAt, [], org, u)
  {
  }

  lemma OneMoreHeld(u: Universe, run: nat, runAt: int, rows: seq<StagingRow>, org: string, before: Universe)
    requires rows != [] && org != "" && HoldsLast(u, run, runAt, rows[..|rows| - 1], org, before)
    ensures HoldsLast(u, run, runAt, rows, org, ApplyRow(before, run, runAt, rows[|rows| - 1]))
  {
    hide OrgOf, ApplyRow, Mentioned, LastAbout;
    var n := |rows| - 1;
    NextRow(rows, org);
    AppliedOne(before, run, runAt, rows[n], org);
    if OrgOf(rows[n]) == org {
      if Mentioned(rows[..n], org) {
        var k := SomeIsLast(rows[..n], org);
      }
    } else {
      forall k: nat | LastAbout(rows, org, k) ensures k < n { LastIsInside(rows[..n], org, k); }
    }
  }

  lemma NextRow(rows: seq<StagingRow>, org: string)
    requires rows != []
    ensures var n := |rows| - 1;
            && (Mentioned(rows, org) <==> Mentioned(rows[..n], org) || OrgOf(rows[n]) == org)
            && forall k: nat :: LastAbout(rows, org, k) <==>
                 if OrgOf(rows[n]) == org then k == n else LastAbout(rows[..n], org, k)
  {
    hide OrgOf;
    var n := |rows| - 1;
    assert forall j :: 0 <= j < n ==> rows[..n][j] == rows[j];
  }

  lemma AppliedOne(u: Universe, run: nat, runAt: int, row: StagingRow, org: string)
    requires org != ""
    ensures var u' := ApplyRow(u, run, runAt, row);
            if OrgOf(row) == org then
              && org in u'.current
              && u'.current[org] == CurrentRow(row.contentHash, run, !row.deregistered,
                                               if org in u.current then u.current[org].firstSeenAt else runAt, runAt)
            else (org in u'.current <==> org in u.current) && (org in u.current ==> u'.current[org] == u.current[org])
  {
    hide OrgOf, CloseAll;
  }

  lemma {:induction false} NoEmptyNumber(u: Universe, run: nat, runAt: int, rows: seq<StagingRow>)
    requires "" !in u.current
    ensures "" !in ApplyRows(u, run, runAt, rows).current
  {
    hide OrgOf, CloseAll;
    if rows != [] {
      NoEmptyNumber(u, run, runAt, rows[..|rows| - 1]);
    }
  }

  // --- All runs ---

  /**
   `c` tells of the company what the files say: run `first` is the first to mention it and run
   `last` the last, in its row `k`; `seen` is the last run that mentioned it or noted it missing.
   */
  ghost predicate ToldBy(runs: seq<FileRun>, org: string, c: CurrentRow, first: nat, last: nat, k: nat, seen: nat) {
    && first <= last <= seen < |runs|
    && Mentioned(runs[first].rows, org) && (forall j :: 0 <= j < first ==> !Mentioned(runs[j].rows, org))
    && LastAbout(runs[last].rows, org, k) && (forall j :: last < j < |runs| ==> !Mentioned(runs[j].rows, org))
    && (seen == last || runs[seen].completed) && (forall j :: seen < j < |runs| ==> !runs[j].completed)
    && c.currentRecordHash == runs[last].rows[k].contentHash && c.sourceFileRunId == runs[last].id
    && c.firstSeenAt == runs[first].runAt && c.lastSeenAt == runs[seen].runAt
    && (c.isActive <==> !runs[last].rows[k].deregistered && seen == last)
  }

  ghost predicate Told(runs: seq<FileRun>, org: string, c: CurrentRow) {
    exists first: nat, last: nat, k: nat, seen: nat :: ToldBy(runs, org, c, first, last, k, seen)
  }

  ghost predicate EverMentioned(runs: seq<FileRun>, org: string) {
    exists m :: 0 <= m < |runs| && Mentioned(runs[m].rows, org)
  }

  lemma EverOrNow(runs: seq<FileRun>, org: string)
    requires runs != []
    ensures var n := |runs| - 1;
            EverMentioned(runs, org) <==> EverMentioned(runs[..n], org) || Mentioned(runs[n].rows, org)
  {
    hide Mentioned;
    var n := |runs| - 1;
    assert forall j :: 0 <= j < n ==> runs[..n][j] == runs[j];
  }

  /** The table lists the companies some file mentioned, each as the files tell of it. */
  ghost predicate ListsTold(runs: seq<FileRun>, u: Universe) {
    && "" !in u.current
    && (forall org :: org != "" ==> (org in u.current <==> EverMentioned(runs, org)))
    && (forall org :: org in u.current ==> Told(runs, org, u.current[org]))
  }

  /** The row of a company not seen in the `n`-th run, which noted that if it was completed. */
  lemma ToldStill(runs: seq<FileRun>, org: string, c: CurrentRow)
    requires runs != [] && Told(runs[..|runs| - 1], org, c) && !Mentioned(runs[|runs| - 1].rows, org)
    ensures var run := runs[|runs| - 1];
            Told(runs, org, if run.completed then c.(isActive := false, lastSeenAt := run.runAt) else c)
    ensures RunsOrdered(runs) ==> c.sourceFileRunId != runs[|runs| - 1].id
  {
    hide Mentioned, LastAbout;
    var n := |runs| - 1;
    var before := runs[..n];
    assert forall j :: 0 <= j < n ==> before[j] == runs[j];
    var first: nat, last: nat, k: nat, seen: nat :| ToldBy(before, org, c, first, last, k, seen);
    if runs[n].completed {
      assert ToldBy(runs, org, c.(isActive := false, lastSeenAt := runs[n].runAt), first, last, k, n);
    } else {
      assert ToldBy(runs, org, c, first, last, k, seen);
    }
  }

  lemma ToldAfresh(runs: seq<FileRun>, org: string, k: nat, firstSeenAt: int)
    requires runs != [] && LastAbout(runs[|runs| - 1].rows, org, k)
    requires if EverMentioned(runs[..|runs| - 1], org)
             then exists c :: Told(runs[..|runs| - 1], org, c) && c.firstSeenAt == firstSeenAt
             else firstSeenAt == runs[|runs| - 1].runAt
    ensures var run := runs[|runs| - 1];
            var row := run.rows[k];
            Told(runs, org, CurrentRow(row.contentHash, run.id, !row.deregistered, firstSeenAt, run.runAt))
  {
    hide Mentioned, LastAbout, EverMentioned;
    var n := |runs| - 1;
    var run, before := runs[n], runs[..n];
    LastIsMention(run.rows, org, k);
    var c := CurrentRow(run.rows[k].contentHash, run.id, !run.rows[k].deregistered, firstSeenAt, run.runAt);
    assert forall j :: 0 <= j < n ==> before[j] == runs[j];
    if EverMentioned(before, org) {
      var d :| Told(before, org, d) && d.firstSeenAt == firstSeenAt;
      var first: nat, last: nat, m: nat, seen: nat :| ToldBy(before, org, d, first, last, m, seen);
      assert ToldBy(runs, org, c, first, n, k, n);
    } else {
      NeverBefore(before, org);
      assert ToldBy(runs, org, c, n, n, k, n);
    }
  }

  lemma LastIsMention(rows: seq<StagingRow>, org: string, k: nat)
    requires LastAbout(rows, org, k)
    ensures Mentioned(rows, org) && k < |rows|
  {
  }

  lemma NeverBefore(runs: seq<FileRun>, org: string)
    requires !EverMentioned(runs, org)
    ensures forall j :: 0 <= j < |runs| ==> !Mentioned(runs[j].rows, org)
  {
  }

  /** After the file's rows, before removals are noted. */
  lemma AppliedTells(runs: seq<FileRun>, u: Universe, org: string)
    requires runs != [] && RunsOrdered(runs) && ListsTold(runs[..|runs| - 1], u) && org != ""
    ensures var run := runs[|runs| - 1];
            var applied := ApplyRows(u, run.id, run.runAt, run.rows);
            && (org in applied.current <==> EverMentioned(runs, org))
            && (org in applied.current && Mentioned(run.rows, org) ==>
                  Told(runs, org, applied.current[org]) && applied.current[org].sourceFileRunId == run.id)
            && (org in applied.current && !Mentioned(run.rows, org) ==>
                  && org in u.current && applied.current[org] == u.current[org]
                  && Told(runs[..|runs| - 1], org, applied.current[org])
                  && applied.current[org].sourceFileRunId != run.id)
  {
    hide Mentioned, LastAbout, EverMentioned, Told, RunsOrdered;
    var run := runs[|runs| - 1];
    AppliedHoldsLast(u, run.id, run.runAt, run.rows, org);
    EverOrNow(runs, org);
    if Mentioned(run.rows, org) {
      var k := SomeIsLast(run.rows, org);
      ToldAfresh(runs, org, k, if org in u.current then u.current[org].firstSeenAt else run.runAt);
    } else if org in u.current {
      ToldStill(runs, org, u.current[org]);
    }
  }

  lemma RunTells(runs: seq<FileRun>, u: Universe, u': Universe)
    requires runs != [] && RunsOrdered(runs) && ListsTold(runs[..|runs| - 1], u) && RunStep(u, runs[|runs| - 1], u')
    ensures ListsTold(runs, u')
  {
    hide Mentioned, EverMentioned, Told, RunsOrdered, ApplyRows;
    var run := runs[|runs| - 1];
    var applied := ApplyRows(u, run.id, run.runAt, run.rows);
    NoEmptyNumber(u, run.id, run.runAt, run.rows);
    forall org | org != ""
      ensures org in u'.current <==> EverMentioned(runs, org)
      ensures org in u'.current ==> Told(runs, org, u'.current[org])
    {
      AppliedTells(runs, u, org);
      if org in applied.current && !Mentioned(run.rows, org) {
        ToldStill(runs, org, applied.current[org]);
      }
    }
  }

  /**
   Over any sequence of runs, the current table lists exactly the companies some file
   mentioned; each carries its last row's record and run and the time of its first run, and
   is active exactly when that row is not deregistered and no later run was completed.
   */
  lemma {:induction false} CurrentTellsFiles(runs: seq<FileRun>, states: seq<Universe>)
    requires Trace(runs, states) && RunsOrdered(runs)
    ensures ListsTold(runs, states[|runs|])
  {
    hide RunStep, Told;
    if runs != [] {
      var n := |runs| - 1;
      assert states[..n + 1][n] == states[n];
      CurrentTellsFiles(runs[..n], states[..n + 1]);
      RunTells(runs, states[n], states[n + 1]);
    }
  }

  lemma PrefixTrace(runs: seq<FileRun>, states: seq<Universe>, n: nat)
    requires Trace(runs, states) && RunsOrdered(runs) && n <= |runs|
    ensures Trace(runs[..n], states[..n + 1]) && RunsOrdered(runs[..n]) && states[..n + 1][n] == states[n]
  {
    hide RunStep;
  }

  // --- Removals ---

  /** The history has a row of that run noting the company as removed. */
  ghost predicate NotedRemoved(h: seq<HistoryRow>, org: string, run: nat) {
    exists i :: 0 <= i < |h| && h[i].org == org && h[i].fileRunId == run && h[i].changeType == Removed
  }

  lemma {:induction false} RowsRemoveNothing(u: Universe, run: nat, runAt: int, rows: seq<StagingRow>)
    ensures var h := ApplyRows(u, run, runAt, rows).history;
            && |u.history| <= |h|
            && (forall i :: 0 <= i < |u.history| ==> h[i].fileRunId == u.history[i].fileRunId)
            && (forall i :: |u.history| <= i < |h| ==> h[i].changeType != Removed)
  {
    hide OrgOf;
    if rows != [] {
      RowsRemoveNothing(u, run, runAt, rows[..|rows| - 1]);
    }
  }

  /** One run: removed are the companies it knew and its file does not mention. */
  lemma StepRemoves(runs: seq<FileRun>, u: Universe, u': Universe, org: string)
    requires runs != [] && RunsOrdered(runs) && ListsTold(runs[..|runs| - 1], u) && RunStep(u, runs[|runs| - 1], u')
    requires KnownRuns(runs[..|runs| - 1], u)
    ensures var run := runs[|runs| - 1];
            NotedRemoved(u'.history, org, run.id) <==>
            run.completed && org in u.current && !Mentioned(run.rows, org)
  {
    hide Mentioned, Told, ApplyRows, RunsOrdered, KnownRuns;
    var run := runs[|runs| - 1];
    var applied := ApplyRows(u, run.id, run.runAt, run.rows);
    NewRunIsNew(runs, u);
    RowsRemoveNothing(u, run.id, run.runAt, run.rows);
    NoEmptyNumber(u, run.id, run.runAt, run.rows);
    if org != "" {
      AppliedTells(runs, u, org);
      AppliedHoldsLast(u, run.id, run.runAt, run.rows, org);
    }
    assert run.completed ==>
        (org in Missing(applied, run.id) <==> org in u.current && !Mentioned(run.rows, org));
    if run.completed {
      NotedExactly(applied, run.id, run.runAt, u', org);
    } else {
      assert u' == applied;
    }
  }

  lemma NotedExactly(u: Universe, run: nat, runAt: int, u': Universe, org: string)
    requires RemovalsNoted(u, run, runAt, u') && !NotedRemoved(u.history, org, run)
    ensures NotedRemoved(u'.history, org, run) <==> org in Missing(u, run)
  {
    hide RemovalsNoted;
    var n, h := |u.history|, u'.history;
    AddedAre(u, run, runAt, u');
    if org in Missing(u, run) {
      var i :| n <= i < |h| && h[i] == RemovalRow(u, org, run, runAt);
      assert h[i].changeType == Removed;
    }
  }

  lemma AddedAre(u: Universe, run: nat, runAt: int, u': Universe)
    requires RemovalsNoted(u, run, runAt, u')
    ensures var n, h := |u.history|, u'.history;
            && n <= |h| && (forall i :: 0 <= i < n ==> h[i] == u.history[i])
            && (forall i :: n <= i < |h| ==> h[i].org in Missing(u, run))
            && forall org :: org in Missing(u, run) ==>
                 exists i :: n <= i < |h| && h[i] == RemovalRow(u, org, run, runAt)
  {
    var n, h := |u.history|, u'.history;
    forall i | n <= i < |h| ensures h[i].org in Missing(u, run) {
      assert h[i] == h[n..][i - n];
    }
    forall org | org in Missing(u, run)
      ensures exists i :: n <= i < |h| && h[i] == RemovalRow(u, org, run, runAt)
    {
      var i :| 0 <= i < |h[n..]| && h[n..][i] == RemovalRow(u, org, run, runAt);
      assert h[n + i] == h[n..][i];
    }
  }

  lemma NotedStays(h: seq<HistoryRow>, h': seq<HistoryRow>, later: int, org: string, run: nat)
    requires Grown(h, h', later) && forall i :: |h| <= i < |h'| ==> h'[i].fileRunId != run
    ensures NotedRemoved(h', org, run) <==> NotedRemoved(h, org, run)
  {
    if i :| 0 <= i < |h| && h[i].org == org && h[i].fileRunId == run && h[i].changeType == Removed {
      assert h'[i].changeType == Removed;
    }
  }

  /**
   From a run on, the history has a removal of the company noted by it exactly when the run was
   completed, the company was in the table before it, and no row of its file is about it.
   */
  lemma {:induction false} RemovedExactly(runs: seq<FileRun>, states: seq<Universe>, m: nat, n: nat, org: string)
    requires Trace(runs, states) && RunsOrdered(runs) && m < n <= |runs|
    ensures NotedRemoved(states[n].history, org, runs[m].id) <==>
            runs[m].completed && org in states[m].current && !Mentioned(runs[m].rows, org)
    decreases n
  {
    hide RunStep, Mentioned, NotedRemoved, ListsTold, KnownRuns;
    PrefixTrace(runs, states, n - 1);
    PrefixTrace(runs, states, n);
    TraceFacts(runs[..n - 1], states[..n]);
    assert runs[..n][..n - 1] == runs[..n - 1] && runs[..n][n - 1] == runs[n - 1];
    assert RunStep(states[n - 1], runs[n - 1], states[n]);
    if m == n - 1 {
      CurrentTellsFiles(runs[..m], states[..m + 1]);
      StepRemoves(runs[..n], states[m], states[n], org);
    } else {
      RemovedExactly(runs, states, m, n - 1, org);
      NewRunIsNew(runs[..n], states[n - 1]);
      StepGrows(states[n - 1], runs[n - 1], states[n]);
      NotedStays(states[n - 1].history, states[n].history, runs[n - 1].runAt, org, runs[m].id);
    }
  }

  /** After a completed run a company is active exactly when its file's last row about it is not deregistered. */
  lemma ActiveExactly(runs: seq<FileRun>, states: seq<Universe>, m: nat, org: string)
    requires Trace(runs, states) && RunsOrdered(runs) && m < |runs| && runs[m].completed
    requires org in states[m + 1].current
    ensures states[m + 1].current[org].isActive <==>
            exists k: nat :: LastAbout(runs[m].rows, org, k) && !runs[m].rows[k].deregistered
  {
    hide RunStep, LastAbout, Mentioned;
    PrefixTrace(runs, states, m + 1);
    CurrentTellsFiles(runs[..m + 1], states[..m + 2]);
    ActiveInLast(runs[..m + 1], org, states[m + 1].current[org]);
  }

  lemma ActiveInLast(runs: seq<FileRun>, org: string, c: CurrentRow)
    requires runs != [] && runs[|runs| - 1].completed && Told(runs, org, c)
    ensures var rows := runs[|runs| - 1].rows;
            c.isActive <==> exists k: nat :: LastAbout(rows, org, k) && !rows[k].deregistered
  {
    var n := |runs| - 1;
    var first: nat, last: nat, k: nat, seen: nat :| ToldBy(runs, org, c, first, last, k, seen);
    if j: nat :| LastAbout(runs[n].rows, org, j) {
      assert Mentioned(runs[n].rows, org) && last == n;
      LastIsOne(runs[n].rows, org, j, k);
    }
  }

  lemma LastIsOne(rows: seq<StagingRow>, org: string, j: nat, k: nat)
    requires LastAbout(rows, org, j) && LastAbout(rows, org, k)
    ensures j == k
  {
  }

  // --- What a run notes of each row ---

  /** The record last known of a company before the `k`-th row of a file, if any. */
  ghost predicate KnownBefore(u: Universe, rows: seq<StagingRow>, k: nat, org: string, known: Option<string>)
    requires k <= |rows|
  {
    if Mentioned(rows[..k], org) then
      exists j: nat :: LastAbout(rows[..k], org, j) && known == Some(rows[j].contentHash)
    else if org in u.current then known == Some(u.current[org].currentRecordHash)
    else known == None
  }

  /** The `k`-th row is noted: as new, updated or unchanged against what was last known. */
  ghost predicate Noted(u: Universe, run: nat, runAt: int, rows: seq<StagingRow>, k: nat, r: HistoryRow)
    requires k < |rows|
  {
    && r.org == OrgOf(rows[k]) && r.fileRunId == run && r.recordHash == rows[k].contentHash && r.validFrom == runAt
    && (r.changeType == New <==> KnownBefore(u, rows, k, r.org, None))
    && (r.changeType == Unchanged <==> KnownBefore(u, rows, k, r.org, Some(r.recordHash)))
    && r.changeType != Removed
  }

  lemma NotedAtOnce(u: Universe, run: nat, runAt: int, rows: seq<StagingRow>, k: nat)
    requires k < |rows| && OrgOf(rows[k]) != ""
    ensures var before := ApplyRows(u, run, runAt, rows[..k]);
            var h := ApplyRow(before, run, runAt, rows[k]).history;
            |h| == |before.history| + 1 && Noted(u, run, runAt, rows, k, h[|before.history|])
  {
    hide Mentioned, LastAbout;
    var org := OrgOf(rows[k]);
    var before := ApplyRows(u, run, runAt, rows[..k]);
    AppliedHoldsLast(u, run, runAt, rows[..k], org);
    if Mentioned(rows[..k], org) {
      var j := SomeIsLast(rows[..k], org);
      assert LastAbout(rows[..k], org, j) && j < k by { LastIsInside(rows[..k], org, j); }
      forall i: nat | LastAbout(rows[..k], org, i) ensures i == j {
        LastIsOne(rows[..k], org, i, j);
      }
    }
  }

  lemma LastIsInside(rows: seq<StagingRow>, org: string, j: nat)
    requires LastAbout(rows, org, j)
    ensures j < |rows|
  {
  }

  /** Of the tables a file's rows lead to, the history has one row for each row with a number, in order. */
  lemma {:induction false} RowsAreNoted(u: Universe, run: nat, runAt: int, rows: seq<StagingRow>, n: nat)
    returns (ranks: seq<nat>)
    requires n <= |rows|
    ensures var h := ApplyRows(u, run, runAt, rows[..n]).history;
            && |h| == |u.history| + |ranks|
            && (forall i, j :: 0 <= i < j < |ranks| ==> ranks[i] < ranks[j])
            && (forall k: nat :: k in ranks <==> k < n && OrgOf(rows[k]) != "")
            && (forall i :: 0 <= i < |ranks| ==>
                  ranks[i] < |rows| && Noted(u, run, runAt, rows, ranks[i], h[|u.history| + i]))
  {
    hide ApplyRow, OrgOf, Noted;
    if n == 0 {
      ranks := [];
      assert rows[..0] == [];
    } else {
      ranks := RowsAreNoted(u, run, runAt, rows, n - 1);
      assert rows[..n][..n - 1] == rows[..n - 1];
      var before := ApplyRows(u, run, runAt, rows[..n - 1]);
      RowKeepsNotes(before, run, runAt, rows[n - 1]);
      forall i | 0 <= i < |ranks|
        ensures ranks[i] < n - 1
        ensures Noted(u, run, runAt, rows, ranks[i],
                      ApplyRow(before, run, runAt, rows[n - 1]).history[|u.history| + i])
      {
        assert ranks[i] in ranks;
        NoteStays(u, run, runAt, rows, ranks[i], before.history[|u.history| + i],
                  ApplyRow(before, run, runAt, rows[n - 1]).history[|u.history| + i]);
      }
      if OrgOf(rows[n - 1]) != "" {
        NotedAtOnce(u, run, runAt, rows, n - 1);
        ranks := ranks + [n - 1];
      }
    }
  }

  ghost predicate SameNote(r: HistoryRow, s: HistoryRow) {
    && r.org == s.org && r.fileRunId == s.fileRunId && r.changeType == s.changeType
    && r.recordHash == s.recordHash && r.validFrom == s.validFrom
  }

  lemma RowKeepsNotes(u: Universe, run: nat, runAt: int, row: StagingRow)
    ensures var h := ApplyRow(u, run, runAt, row).history;
            && |u.history| <= |h| && (OrgOf(row) == "" ==> h == u.history)
            && forall i :: 0 <= i < |u.history| ==> SameNote(u.history[i], h[i])
  {
    hide OrgOf;
  }

  lemma NoteStays(u: Universe, run: nat, runAt: int, rows: seq<StagingRow>, k: nat, r: HistoryRow, s: HistoryRow)
    requires k < |rows| && Noted(u, run, runAt, rows, k, r) && SameNote(r, s)
    ensures Noted(u, run, runAt, rows, k, s)
  {
    hide KnownBefore, OrgOf;
  }

  /** How many of the rows are noted as a change. */
  ghost function Changes(h: seq<HistoryRow>): nat {
    if h == [] then 0 else Changes(h[..|h| - 1]) + if h[|h| - 1].changeType in {New, Updated} then 1 else 0
  }

  lemma {:induction false} ClosingKeepsChanges(h: seq<HistoryRow>, org: string, run: nat, runAt: int)
    ensures Changes(CloseAll(h, org, run, runAt)) == Changes(h)
  {
    if h != [] {
      var n := |h| - 1;
      assert CloseAll(h, org, run, runAt)[..n] == CloseAll(h[..n], org, run, runAt);
      ClosingKeepsChanges(h[..n], org, run, runAt);
    }
  }

  /** The count of changes a run returns is how many changes it noted in the history. */
  lemma {:induction false} ChangedIsNoted(u: Universe, run: nat, runAt: int, rows: seq<StagingRow>)
    ensures Changes(ApplyRows(u, run, runAt, rows).history) == Changes(u.history) + ChangedRows(u, run, runAt, rows)
  {
    hide OrgOf, CloseAll;
    if rows != [] {
      var n := |rows| - 1;
      ChangedIsNoted(u, run, runAt, rows[..n]);
      var before, row := ApplyRows(u, run, runAt, rows[..n]), rows[n];
      var noted := HistoryRow(OrgOf(row), run, ChangeOf(before, row), row.contentHash, runAt, None);
      var h := before.history + [noted];
      assert h[..|h| - 1] == before.history;
      ClosingKeepsChanges(h, OrgOf(row), run, runAt);
    }
  }
}
