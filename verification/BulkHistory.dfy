/**
 The weekly company universe: applying a file's staging rows to the current table and
 its temporal history, and noting the companies a file no longer mentions.
 (backend/src/bolagsverket-bulk/bolagsverket-bulk-upsert.service.ts:97-261)
 */
module BulkHistory {
  import opened Wrappers
  import opened Strings

  /** A staging row: the raw identity value and the hash of the whole record. */
  datatype StagingRow = StagingRow(identityValue: Option<string>, contentHash: string, deregistered: bool)

  datatype ChangeType = New | Updated | Unchanged | Removed

  datatype HistoryRow = HistoryRow(org: string, fileRunId: nat, changeType: ChangeType, recordHash: string,
                                   validFrom: int, validTo: Option<int>)

  datatype CurrentRow = CurrentRow(currentRecordHash: string, sourceFileRunId: nat, isActive: bool,
                                   firstSeenAt: int, lastSeenAt: int)

  datatype Universe = Universe(current: map<string, CurrentRow>, history: seq<HistoryRow>)

  const EMPTY_UNIVERSE := Universe(map[], [])

  /** The organisation a staging row is about; rows without digits are skipped. */
  function OrgOf(row: StagingRow): (org: string)
    ensures AllDigits(org) && (org != "" ==> row.identityValue.Some? && org == Digits(row.identityValue.value))
    ensures row.identityValue.Some? && AllDigits(row.identityValue.value) ==> org == row.identityValue.value
  {
    Digits(row.identityValue.GetOr(""))
  }

  /** `SET valid_to = runAt WHERE organisation = org AND file_run_id <> run AND valid_to IS NULL` */
  function Closed(r: HistoryRow, org: string, run: nat, runAt: int): HistoryRow {
    if r.org == org && r.fileRunId != run && r.validTo.None? then r.(validTo := Some(runAt)) else r
  }

  function CloseAll(history: seq<HistoryRow>, org: string, run: nat, runAt: int): (r: seq<HistoryRow>)
    ensures |r| == |history|
    ensures forall i :: 0 <= i < |history| ==> r[i] == Closed(history[i], org, run, runAt)
  {
    seq(|history|, i requires 0 <= i < |history| => Closed(history[i], org, run, runAt))
  }

  function ChangeOf(u: Universe, row: StagingRow): ChangeType {
    if OrgOf(row) !in u.current then New
    else if u.current[OrgOf(row)].currentRecordHash != row.contentHash then Updated
    else Unchanged
  }

  /** One staging row applied: current row, history row, and the closing of older open rows on a change. */
  function ApplyRow(u: Universe, run: nat, runAt: int, row: StagingRow): Universe {
    var org := OrgOf(row);
    if org == "" then u else
      var change := ChangeOf(u, row);
      var firstSeen := if org in u.current then u.current[org].firstSeenAt else runAt;
      var history := u.history + [HistoryRow(org, run, change, row.contentHash, runAt, None)];
      Universe(u.current[org := CurrentRow(row.contentHash, run, !row.deregistered, firstSeen, runAt)],
               if change.Updated? then CloseAll(history, org, run, runAt) else history)
  }

  function ApplyRows(u: Universe, run: nat, runAt: int, rows: seq<StagingRow>): Universe {
    if rows == [] then u else ApplyRow(ApplyRows(u, run, runAt, rows[..|rows| - 1]), run, runAt, rows[|rows| - 1])
  }

  /** The companies the current table took from an earlier run. */
  function Missing(u: Universe, run: nat): set<string> {
    set org | org in u.current && u.current[org].sourceFileRunId != run
  }

  /** A current row once the removal pass has dealt with the companies in `gone`. */
  function AfterPass(u: Universe, gone: set<string>, org: string, runAt: int): CurrentRow
    requires org in u.current
  {
    if org in gone then u.current[org].(isActive := false, lastSeenAt := runAt) else u.current[org]
  }

  function RemovalRow(u: Universe, org: string, run: nat, runAt: int): HistoryRow
    requires org in u.current
  {
    HistoryRow(org, run, Removed, u.current[org].currentRecordHash, runAt, None)
  }

  /** After the removal pass: one removal row per missing company, in some order, and they are inactive. */
  ghost predicate RemovalsNoted(u: Universe, run: nat, runAt: int, u': Universe) {
    && u'.current.Keys == u.current.Keys
    && (forall org :: org in u.current ==> u'.current[org] == AfterPass(u, Missing(u, run), org, runAt))
    && u.history <= u'.history
    && |u'.history| == |u.history| + |Missing(u, run)|
    && (forall org :: org in Missing(u, run) ==> RemovalRow(u, org, run, runAt) in u'.history[|u.history|..])
    && (forall r :: r in u'.history[|u.history|..] ==>
          r.org in Missing(u, run) && r == RemovalRow(u, r.org, run, runAt))
  }

  /** The tables, updated in place. */
  class BulkUniverse {
    var current: map<string, CurrentRow>
    var history: seq<HistoryRow>

    constructor ()
      ensures Contents() == EMPTY_UNIVERSE
    {
      current, history := map[], [];
    }

    ghost function Contents(): Universe
      reads this
    {
      Universe(current, history)
    }

    method ApplyStagingToCurrent(run: nat, runAt: int, rows: seq<StagingRow>) returns (upserted: nat, changed: nat)
      modifies this
      ensures Contents() == ApplyRows(old(Contents()), run, runAt, rows)
      ensures upserted == |rows|
      ensures changed == ChangedRows(old(Contents()), run, runAt, rows)
    {
      changed := 0;
      for i := 0 to |rows|
        invariant Contents() == ApplyRows(old(Contents()), run, runAt, rows[..i])
        invariant changed == ChangedRows(old(Contents()), run, runAt, rows[..i])
      {
        assert rows[..i + 1][..i] == rows[..i];
        hide Digits;
        var row := rows[i];
        var org := OrgOf(row);
        if org == "" {
          continue;
        }
        var isNew := org !in current;
        var isChanged := isNew || current[org].currentRecordHash != row.contentHash;
        if isChanged {
          changed := changed + 1;
        }
        var firstSeenAt := if isNew then runAt else current[org].firstSeenAt;
        current := current[org := CurrentRow(row.contentHash, run, !row.deregistered, firstSeenAt, runAt)];
        history := history + [HistoryRow(org, run, if isNew then New else if isChanged then Updated else Unchanged,
                                         row.contentHash, runAt, None)];
        if !isNew && isChanged {
          CloseOlder(org, run, runAt);
        }
      }
      assert rows[..|rows|] == rows;
      upserted := |rows|;
    }

    method CloseOlder(org: string, run: nat, runAt: int)
      modifies this`history
      ensures history == CloseAll(old(history), org, run, runAt)
    {
      var i := 0;
      while i < |history|
        invariant 0 <= i <= |history| == |old(history)|
        invariant forall k :: 0 <= k < i ==> history[k] == Closed(old(history)[k], org, run, runAt)
        invariant forall k :: i <= k < |history| ==> history[k] == old(history)[k]
      {
        if history[i].org == org && history[i].fileRunId != run && history[i].validTo.None? {
          history := history[i := history[i].(validTo := Some(runAt))];
        }
        i := i + 1;
      }
    }

    method DetectRemovedCompanies(run: nat, runAt: int) returns (removed: nat)
      modifies this
      ensures RemovalsNoted(old(Contents()), run, runAt, Contents())
      ensures removed == |Missing(old(Contents()), run)|
    {
      var todo := set org | org in current && current[org].sourceFileRunId != run;
      ghost var was := Contents();
      ghost var missing := todo;
      removed := 0;
      while todo != {}
        invariant todo <= missing == Missing(was, run) && removed + |todo| == |missing|
        invariant current.Keys == was.current.Keys
        invariant forall org :: org in current ==> current[org] == AfterPass(was, missing - todo, org, runAt)
        invariant was.history <= history && |history| == |was.history| + removed
        invariant forall org :: org in missing - todo ==> RemovalRow(was, org, run, runAt) in history[|was.history|..]
        invariant forall r :: r in history[|was.history|..] ==>
                    r.org in missing && r == RemovalRow(was, r.org, run, runAt)
        decreases |todo|
      {
        var org :| org in todo;
        var row := current[org];
        ghost var before := history;
        history := history + [HistoryRow(org, run, Removed, row.currentRecordHash, runAt, None)];
        assert history[|was.history|..] == before[|was.history|..] + [RemovalRow(was, org, run, runAt)];
        current := current[org := row.(isActive := false, lastSeenAt := runAt)];
        removed := removed + 1;
        todo := todo - {org};
      }
    }
  }

  function ChangedRows(u: Universe, run: nat, runAt: int, rows: seq<StagingRow>): nat {
    if rows == [] then 0 else
      var before := rows[..|rows| - 1];
      var row := rows[|rows| - 1];
      ChangedRows(u, run, runAt, before) +
      if OrgOf(row) != "" && !ChangeOf(ApplyRows(u, run, runAt, before), row).Unchanged? then 1 else 0
  }
}
