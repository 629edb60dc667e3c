/**
 When a row of the company history is closed: at the next run that notes the company as updated,
 and at no other (backend/src/bolagsverket-bulk/bolagsverket-bulk-upsert.service.ts:173-227).
 */
module BulkClosings {
  import opened Wrappers
  import opened BulkHistory
  import opened BulkHistoryAsOf
  import opened BulkRemovals

  /** Among the rows from `from` on, one notes the company as updated. */
  ghost predicate UpdatedFrom(h: seq<HistoryRow>, from: nat, org: string) {
    exists k :: from <= k < |h| && h[k].org == org && h[k].changeType == Updated
  }

  function Shut(r: HistoryRow, runAt: int): HistoryRow {
    if r.validTo.None? then r.(validTo := Some(runAt)) else r
  }

  /** What a run makes of the rows there were: those of updated companies are closed; its own stay open. */
  ghost predicate ClosesUpdated(h: seq<HistoryRow>, h': seq<HistoryRow>, run: nat, runAt: int) {
    && |h| <= |h'|
    && (forall i :: 0 <= i < |h| ==> h'[i] == if UpdatedFrom(h', |h|, h[i].org) then Shut(h[i], runAt) else h[i])
    && (forall i :: |h| <= i < |h'| ==>
          h'[i].fileRunId == run && h'[i].validFrom == runAt && h'[i].validTo == None)
  }

  lemma {:induction false} RowsClose(u: Universe, run: nat, runAt: int, rows: seq<StagingRow>)
    requires forall i :: 0 <= i < |u.history| ==> u.history[i].fileRunId != run
    ensures ClosesUpdated(u.history, ApplyRows(u, run, runAt, rows).history, run, runAt)
  {
    if rows != [] {
      var n := |rows| - 1;
      RowsClose(u, run, runAt, rows[..n]);
      OneRowCloses(u.history, ApplyRows(u, run, runAt, rows[..n]), run, runAt, rows[n]);
    }
  }

  lemma OneRowCloses(h: seq<HistoryRow>, u: Universe, run: nat, runAt: int, row: StagingRow)
    requires ClosesUpdated(h, u.history, run, runAt) && forall i :: 0 <= i < |h| ==> h[i].fileRunId != run
    ensures ClosesUpdated(h, ApplyRow(u, run, runAt, row).history, run, runAt)
  {
    hide OrgOf;
    var org := OrgOf(row);
    var h' := ApplyRow(u, run, runAt, row).history;
    if org != "" {
      var n := |u.history|;
      NextNoted(u, run, runAt, row);
      forall o ensures UpdatedFrom(h', |h|, o) <==>
                       UpdatedFrom(u.history, |h|, o) || (o == org && ChangeOf(u, row).Updated?) {
        MoreUpdated(h, u.history, h', o);
      }
    }
  }

  lemma NextNoted(u: Universe, run: nat, runAt: int, row: StagingRow)
    requires OrgOf(row) != ""
    ensures var h', n, org := ApplyRow(u, run, runAt, row).history, |u.history|, OrgOf(row);
            && |h'| == n + 1 && h'[n] == HistoryRow(org, run, ChangeOf(u, row), row.contentHash, runAt, None)
            && forall i :: 0 <= i < n ==>
                 h'[i] == if ChangeOf(u, row).Updated? then Closed(u.history[i], org, run, runAt) else u.history[i]
  {
    hide OrgOf;
  }

  lemma MoreUpdated(h: seq<HistoryRow>, before: seq<HistoryRow>, after: seq<HistoryRow>, org: string)
    requires |h| <= |before| && |after| == |before| + 1
    requires forall i :: 0 <= i < |before| ==>
               after[i].org == before[i].org && after[i].changeType == before[i].changeType
    ensures UpdatedFrom(after, |h|, org) <==>
            UpdatedFrom(before, |h|, org) || (after[|before|].org == org && after[|before|].changeType == Updated)
  {
    if k :| |h| <= k < |before| && before[k].org == org && before[k].changeType == Updated {
      assert after[k].org == org;
    }
  }

  lemma RunCloses(u: Universe, run: FileRun, u': Universe)
    requires RunStep(u, run, u') && forall i :: 0 <= i < |u.history| ==> u.history[i].fileRunId != run.id
    ensures ClosesUpdated(u.history, u'.history, run.id, run.runAt)
  {
    hide ApplyRows;
    RowsClose(u, run.id, run.runAt, run.rows);
    var applied := ApplyRows(u, run.id, run.runAt, run.rows);
    if run.completed {
      var n, h' := |applied.history|, u'.history;
      assert forall i :: 0 <= i < n ==> h'[i] == applied.history[i];
      forall i | n <= i < |h'|
        ensures h'[i].fileRunId == run.id && h'[i].validFrom == run.runAt && h'[i].validTo == None
        ensures h'[i].changeType == Removed
      {
        assert h'[i] == h'[n..][i - n];
      }
      forall org ensures UpdatedFrom(h', |u.history|, org) <==> UpdatedFrom(applied.history, |u.history|, org) {
        if k :| |u.history| <= k < n && applied.history[k].org == org && applied.history[k].changeType == Updated {
          assert h'[k].org == org;
        }
      }
    }
  }

  /** The history has a row of that run noting the company as updated. */
  ghost predicate NotedUpdated(h: seq<HistoryRow>, org: string, run: nat) {
    exists k :: 0 <= k < |h| && h[k].org == org && h[k].fileRunId == run && h[k].changeType == Updated
  }

  /** The row is of run `m`, valid from it to the first later run that noted the company as updated, if any has. */
  ghost predicate ValidUntilUpdate(runs: seq<FileRun>, h: seq<HistoryRow>, r: HistoryRow, m: nat) {
    && m < |runs| && r.fileRunId == runs[m].id && r.validFrom == runs[m].runAt
    && if r.validTo.None? then forall j :: m < j < |runs| ==> !NotedUpdated(h, r.org, runs[j].id)
       else exists j :: m < j < |runs| && NotedUpdated(h, r.org, runs[j].id) && r.validTo.value == runs[j].runAt
                        && forall k :: m < k < j ==> !NotedUpdated(h, r.org, runs[k].id)
  }

  lemma NotedAfter(h: seq<HistoryRow>, h': seq<HistoryRow>, run: nat, runAt: int, org: string, other: nat)
    requires ClosesUpdated(h, h', run, runAt) && forall i :: 0 <= i < |h| ==> h[i].fileRunId != run
    ensures other != run ==> (NotedUpdated(h', org, other) <==> NotedUpdated(h, org, other))
    ensures NotedUpdated(h', org, run) <==> UpdatedFrom(h', |h|, org)
  {
    if k :| 0 <= k < |h| && h[k].org == org && h[k].fileRunId == other && h[k].changeType == Updated {
      assert h'[k].org == org;
    }
    if k :| 0 <= k < |h'| && h'[k].org == org && h'[k].fileRunId == run && h'[k].changeType == Updated {
      assert k >= |h|;
    }
  }

  lemma StillValid(runs: seq<FileRun>, h: seq<HistoryRow>, h': seq<HistoryRow>, i: nat, m: nat)
    requires runs != [] && RunsOrdered(runs)
    requires var run := runs[|runs| - 1];
             ClosesUpdated(h, h', run.id, run.runAt) && forall j :: 0 <= j < |h| ==> h[j].fileRunId != run.id
    requires i < |h| && ValidUntilUpdate(runs[..|runs| - 1], h, h[i], m)
    ensures ValidUntilUpdate(runs, h', h'[i], m)
  {
    hide NotedUpdated, UpdatedFrom;
    var n := |runs| - 1;
    var run, r := runs[n], h[i];
    assert forall j :: 0 <= j < n ==> runs[..n][j] == runs[j];
    forall j | 0 <= j < n ensures NotedUpdated(h', r.org, runs[j].id) <==> NotedUpdated(h, r.org, runs[j].id) {
      NotedAfter(h, h', run.id, run.runAt, r.org, runs[j].id);
    }
    NotedAfter(h, h', run.id, run.runAt, r.org, run.id);
    assert h'[i].org == r.org;
    if r.validTo.Some? {
      var j :| m < j < n && NotedUpdated(h, r.org, runs[..n][j].id) && r.validTo.value == runs[..n][j].runAt
               && forall k :: m < k < j ==> !NotedUpdated(h, r.org, runs[..n][k].id);
      assert NotedUpdated(h', r.org, runs[j].id) && h'[i] == r;
      forall k | m < k < j ensures !NotedUpdated(h', r.org, runs[k].id) {
        assert !NotedUpdated(h, r.org, runs[..n][k].id);
      }
    } else {
      forall k | m < k < n ensures !NotedUpdated(h', r.org, runs[k].id) {
        assert !NotedUpdated(h, r.org, runs[..n][k].id);
      }
    }
  }

  /**
   Over any sequence of runs every history row is valid from its run to the first later one that
   noted the company as updated; a run that found it unchanged, new or removed closes nothing.
   */
  lemma {:induction false} ClosedExactly(runs: seq<FileRun>, states: seq<Universe>, i: nat) returns (m: nat)
    requires Trace(runs, states) && RunsOrdered(runs) && i < |states[|runs|].history|
    ensures ValidUntilUpdate(runs, states[|runs|].history, states[|runs|].history[i], m)
  {
    hide RunStep, ClosesUpdated, NotedUpdated;
    var n := |runs| - 1;
    PrefixTrace(runs, states, n);
    TraceFacts(runs[..n], states[..n + 1]);
    NewRunIsNew(runs, states[n]);
    assert RunStep(states[n], runs[n], states[n + 1]);
    RunCloses(states[n], runs[n], states[n + 1]);
    if i < |states[n].history| {
      m := ClosedExactly(runs[..n], states[..n + 1], i);
      StillValid(runs, states[n].history, states[n + 1].history, i, m);
    } else {
      m := n;
      OwnRow(states[n].history, states[n + 1].history, runs[n].id, runs[n].runAt, i);
    }
  }

  lemma OwnRow(h: seq<HistoryRow>, h': seq<HistoryRow>, run: nat, runAt: int, i: nat)
    requires ClosesUpdated(h, h', run, runAt) && |h| <= i < |h'|
    ensures h'[i].fileRunId == run && h'[i].validFrom == runAt && h'[i].validTo == None
  {
  }
}
