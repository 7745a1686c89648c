/** Single runs of the migration runner: what they apply, when they complete, how they resume. */
module MigrationTheorems {
  import opened Results
  import opened MigrationVersions
  import opened DbMigration
  import Sorting

  function AlwaysOk(i: nat): bool {
    true
  }

  // A history table after `ensureHistoryTable`.
  predicate GoodTable(rows: seq<Row>) {
    DistinctVersions(rows) && DistinctHashes(rows) && AllHashed(rows)
  }

  function RowsOf(files: seq<MigrationFile>): (r: seq<Row>)
    ensures |r| == |files|
  {
    seq(|files|, i requires 0 <= i < |files| => RowOf(files[i]))
  }

  lemma InsertKeepsGood(rows: seq<Row>, f: MigrationFile)
    requires GoodTable(rows) && Insertable(rows, f) && f.hash != ""
    ensures GoodTable(rows + [RowOf(f)])
  {}

  /** A run only appends: old rows never change, and each executed file leaves its row. */
  lemma {:induction false} RunAppends(rows: seq<Row>, files: seq<MigrationFile>, sqlOk: SqlOutcome, i: nat)
    requires GoodTable(rows) && HashedFiles(files)
    ensures var run := RunFrom(rows, files, sqlOk, i);
            GoodTable(run.rows) && run.rows == rows + RowsOf(run.executed)
    decreases |files| - i
  {
    hide Decide, GoodTable, Insertable, RowsOf;
    NoRows(rows);
    if i < |files| {
      var f := files[i];
      if Decide(rows, f) == Skip {
        RunAppends(rows, files, sqlOk, i + 1);
      } else if Decide(rows, f) == Pending && sqlOk(i) && Insertable(rows, f) {
        InsertKeepsGood(rows, f);
        RunAppends(rows + [RowOf(f)], files, sqlOk, i + 1);
        RowsOfFirst(rows, f, RunFrom(rows + [RowOf(f)], files, sqlOk, i + 1).executed);
      }
    }
  }

  lemma NoRows(rows: seq<Row>)
    ensures rows + RowsOf([]) == rows
  {}

  lemma RowsOfFirst(rows: seq<Row>, f: MigrationFile, rest: seq<MigrationFile>)
    ensures (rows + [RowOf(f)]) + RowsOf(rest) == rows + RowsOf([f] + rest)
  {}

  // ---- what a run executes ---------------------------------------------------------------------------

  function Applied(rows: seq<Row>): set<string> {
    set r | r in rows && r.success :: r.version
  }

  /** The files whose version has not been seen before, in order. */
  function NewVersions(seen: set<string>, files: seq<MigrationFile>): seq<MigrationFile>
    decreases |files|
  {
    if files == [] then []
    else if files[0].version in seen then NewVersions(seen, files[1..])
    else [files[0]] + NewVersions(seen + {files[0].version}, files[1..])
  }

  function Position(outcome: Outcome, files: seq<MigrationFile>): nat {
    match outcome
    case Completed => |files|
    case VersionConflictAt(j) => j
    case ContentConflictAt(j) => j
    case FailedAt(j) => j
  }

  lemma AppliedAfterInsert(rows: seq<Row>, f: MigrationFile)
    ensures Applied(rows + [RowOf(f)]) == Applied(rows) + {f.version}
  {
    var all := rows + [RowOf(f)];
    assert all[|rows|] in all;
    forall r | r in rows ensures r in all {}
  }

  lemma PendingIsNew(rows: seq<Row>, f: MigrationFile)
    requires Decide(rows, f) == Pending
    ensures f.version !in Applied(rows)
  {}

  lemma SkippedIsApplied(rows: seq<Row>, f: MigrationFile)
    requires Decide(rows, f) == Skip
    ensures f.version in Applied(rows)
  {}

  /**
   A run that stops at position j, for whatever reason, has executed exactly the files before j
   whose version was new; conflicts are found only when the loop reaches them.
   */
  lemma {:induction false} RunExecutesPending(rows: seq<Row>, files: seq<MigrationFile>, sqlOk: SqlOutcome, i: nat)
    requires i <= |files|
    ensures var run := RunFrom(rows, files, sqlOk, i);
            var j := Position(run.outcome, files);
            && i <= j <= |files|
            && run.executed == NewVersions(Applied(rows), files[i..j])
            && (run.outcome != Completed ==> j < |files|)
    decreases |files| - i
  {
    hide Decide, Applied;
    if i < |files| {
      var f := files[i];
      var j := Position(RunFrom(rows, files, sqlOk, i).outcome, files);
      if Decide(rows, f) == Skip {
        RunExecutesPending(rows, files, sqlOk, i + 1);
        SkippedIsApplied(rows, f);
        assert files[i..j][1..] == files[i + 1..j];
      } else if Decide(rows, f) == Pending && sqlOk(i) && Insertable(rows, f) {
        RunExecutesPending(rows + [RowOf(f)], files, sqlOk, i + 1);
        AppliedAfterInsert(rows, f);
        PendingIsNew(rows, f);
        assert files[i..j][1..] == files[i + 1..j];
      }
    }
  }

  predicate HasVersion(r: Row, f: MigrationFile) {
    r.success && r.version == f.version
  }

  predicate HasHash(r: Row, f: MigrationFile) {
    r.success && r.hash == Some(f.hash)
  }

  // The decision in terms of the rows of the table.
  lemma DecisionOnRows(rows: seq<Row>, f: MigrationFile)
    ensures Decide(rows, f) == Skip ==> exists r :: r in rows && HasVersion(r, f) && HasHash(r, f)
    ensures Decide(rows, f) == VersionConflict ==> exists r :: r in rows && HasVersion(r, f) && !HasHash(r, f)
    ensures Decide(rows, f) == ContentConflict ==>
              (exists r :: r in rows && HasHash(r, f)) && forall r | r in rows :: !HasVersion(r, f)
    ensures Decide(rows, f) == Pending ==> forall r | r in rows :: !HasVersion(r, f) && !HasHash(r, f)
  {
    hide FindVersion, FindHash;
    if FindVersion(rows, f.version).Some? {
      assert HasVersion(FindVersion(rows, f.version).value, f);
    }
    if FindHash(rows, f.hash).Some? {
      assert HasHash(FindHash(rows, f.hash).value, f);
    }
  }

  /**
   Why a run stopped, on the table it left and the file at the reported position: a version conflict means an
   applied row of that version with another hash; a content conflict, an applied row of that hash and none of
   that version; and a failure, that no applied row had either and the SQL or the insertion failed.
   */
  lemma {:induction false} RunStopsBecause(rows: seq<Row>, files: seq<MigrationFile>, sqlOk: SqlOutcome, i: nat)
    ensures var run := RunFrom(rows, files, sqlOk, i);
            match run.outcome
            case Completed => true
            case VersionConflictAt(j) =>
              j < |files| && exists r :: r in run.rows && HasVersion(r, files[j]) && !HasHash(r, files[j])
            case ContentConflictAt(j) =>
              && j < |files| && (exists r :: r in run.rows && HasHash(r, files[j]))
              && forall r | r in run.rows :: !HasVersion(r, files[j])
            case FailedAt(j) =>
              && j < |files| && (forall r | r in run.rows :: !HasVersion(r, files[j]) && !HasHash(r, files[j]))
              && !(sqlOk(j) && Insertable(run.rows, files[j]))
    decreases |files| - i
  {
    hide Decide, HasVersion, HasHash;
    if i < |files| {
      DecisionOnRows(rows, files[i]);
      if Decide(rows, files[i]) == Skip {
        RunStopsBecause(rows, files, sqlOk, i + 1);
      } else if Decide(rows, files[i]) == Pending && sqlOk(i) && Insertable(rows, files[i]) {
        RunStopsBecause(rows + [RowOf(files[i])], files, sqlOk, i + 1);
      }
    }
  }

  /** What a run adds to the table: for each executed file, in order, a successful row with its data. */
  lemma ExecutedLeavesRow(rows: seq<Row>, files: seq<MigrationFile>, sqlOk: SqlOutcome, k: nat)
    requires GoodTable(rows) && HashedFiles(files) && k < |Run(rows, files, sqlOk).executed|
    ensures var run := Run(rows, files, sqlOk);
      && |run.rows| == |rows| + |run.executed| && run.rows[..|rows|] == rows
      && run.rows[|rows| + k].version == run.executed[k].version
      && run.rows[|rows| + k].script == run.executed[k].filename
      && run.rows[|rows| + k].hash == Some(run.executed[k].hash)
      && run.rows[|rows| + k].success
  {
    hide RunFrom, GoodTable;
    RunAppends(rows, files, sqlOk, 0);
  }

  lemma {:induction false} NewVersionsMembers(seen: set<string>, files: seq<MigrationFile>)
    ensures forall f | f in NewVersions(seen, files) :: f in files && f.version !in seen
    decreases |files|
  {
    if files != [] {
      NewVersionsMembers(seen, files[1..]);
      NewVersionsMembers(seen + {files[0].version}, files[1..]);
      assert files == [files[0]] + files[1..];
    }
  }

  lemma {:induction false} NewVersionsDistinct(seen: set<string>, files: seq<MigrationFile>)
    ensures forall i, j | 0 <= i < j < |NewVersions(seen, files)| ::
              NewVersions(seen, files)[i].version != NewVersions(seen, files)[j].version
    decreases |files|
  {
    if files != [] {
      var seen' := seen + {files[0].version};
      NewVersionsDistinct(seen, files[1..]);
      NewVersionsDistinct(seen', files[1..]);
      NewVersionsMembers(seen', files[1..]);
      var later := NewVersions(seen', files[1..]);
      assert forall j | 0 <= j < |later| :: later[j] in later;
    }
  }

  lemma {:induction false} NewVersionsSorted(seen: set<string>, files: seq<MigrationFile>)
    requires Sorting.Sorted(files, VersionLeq)
    ensures Sorting.Sorted(NewVersions(seen, files), VersionLeq)
    decreases |files|
  {
    hide VersionLeq;
    if files != [] {
      var rest := files[1..];
      var seen' := seen + {files[0].version};
      NewVersionsSorted(seen, rest);
      NewVersionsSorted(seen', rest);
      NewVersionsMembers(seen', rest);
      forall f | f in rest ensures VersionLeq(files[0], f) {
        var i :| 0 <= i < |rest| && rest[i] == f;
        assert files[i + 1] == f;
      }
    }
  }

  /** Every run on discovered files executes distinct versions in ascending version order. */
  lemma RunIsOrdered(found: seq<MigrationFile>, rows: seq<Row>, sqlOk: SqlOutcome)
    ensures Sorting.Sorted(Run(rows, DiscoverMigrations(found), sqlOk).executed, VersionLeq)
    ensures forall f | f in Run(rows, DiscoverMigrations(found), sqlOk).executed :: f.version !in Applied(rows)
    ensures var executed := Run(rows, DiscoverMigrations(found), sqlOk).executed;
            forall i, j | 0 <= i < j < |executed| :: executed[i].version != executed[j].version
  {
    hide *;
    var files := DiscoverMigrations(found);
    DiscoveryIsTheStableSort(found, files);
    RunUnfolds(rows, files, sqlOk);
    RunExecutesPending(rows, files, sqlOk, 0);
    var j := Position(RunFrom(rows, files, sqlOk, 0).outcome, files);
    PrefixSorted(files, j);
    assert files[0..j] == files[..j];
    NewVersionsSorted(Applied(rows), files[..j]);
    NewVersionsDistinct(Applied(rows), files[..j]);
    NewVersionsMembers(Applied(rows), files[..j]);
  }

  lemma RunUnfolds(rows: seq<Row>, files: seq<MigrationFile>, sqlOk: SqlOutcome)
    ensures Run(rows, files, sqlOk) == RunFrom(rows, files, sqlOk, 0)
  {}

  lemma PrefixSorted(files: seq<MigrationFile>, j: nat)
    requires Sorting.Sorted(files, VersionLeq) && j <= |files|
    ensures Sorting.Sorted(files[..j], VersionLeq)
  {}

  // ---- crash and resume --------------------------------------------------------------------------------

  lemma {:induction false} FindVersionStays(rows: seq<Row>, more: seq<Row>, version: string)
    requires DistinctVersions(rows + more) && FindVersion(rows, version).Some?
    ensures FindVersion(rows + more, version) == FindVersion(rows, version)
  {
    if more == [] {
      assert rows + more == rows;
    } else {
      var all := rows + more;
      assert all[..|all| - 1] == rows + more[..|more| - 1];
      FindVersionStays(rows, more[..|more| - 1], version);
      var r := FindVersion(rows, version).value;
      var k :| 0 <= k < |rows| && rows[k] == r;
      assert all[k] == r;
    }
  }

  // A file the table already reflects is skipped by every later run.
  lemma SkipStays(rows: seq<Row>, more: seq<Row>, f: MigrationFile)
    requires DistinctVersions(rows + more) && Decide(rows, f) == Skip
    ensures Decide(rows + more, f) == Skip
  {
    FindVersionStays(rows, more, f.version);
  }

  lemma InsertedIsSkipped(rows: seq<Row>, f: MigrationFile)
    ensures Decide(rows + [RowOf(f)], f) == Skip
  {
    assert (rows + [RowOf(f)])[|rows|] == RowOf(f);
  }

  /**
   Resume. If the files apply without conflict, then a run interrupted anywhere, followed by a run
   that is not, ends with the table and the executed sequence of one uninterrupted run.
   */
  lemma {:induction false} Resume(rows: seq<Row>, files: seq<MigrationFile>, sqlOk: SqlOutcome, i: nat)
    requires GoodTable(rows) && HashedFiles(files)
    requires RunFrom(rows, files, AlwaysOk, i).outcome == Completed
    ensures var full := RunFrom(rows, files, AlwaysOk, i);
            var part := RunFrom(rows, files, sqlOk, i);
            var rerun := RunFrom(part.rows, files, AlwaysOk, i);
            && rerun.outcome == Completed
            && rerun.rows == full.rows
            && part.executed + rerun.executed == full.executed
    decreases |files| - i
  {
    if i < |files| {
      var f := files[i];
      hide Decide, FindVersion, FindHash;
      if Decide(rows, f) == Skip {
        RunStep(rows, files, sqlOk, i);
        RunStep(rows, files, AlwaysOk, i);
        Resume(rows, files, sqlOk, i + 1);
        StillSkipped(rows, files, sqlOk, i + 1, f);
        RunStep(RunFrom(rows, files, sqlOk, i + 1).rows, files, AlwaysOk, i);
      } else if sqlOk(i) {
        ResumeInserted(rows, files, sqlOk, i);
      } else {
        RunStep(rows, files, sqlOk, i);
      }
    }
  }

  lemma StillSkipped(rows: seq<Row>, files: seq<MigrationFile>, sqlOk: SqlOutcome, i: nat, f: MigrationFile)
    requires GoodTable(rows) && HashedFiles(files) && Decide(rows, f) == Skip
    ensures Decide(RunFrom(rows, files, sqlOk, i).rows, f) == Skip
  {
    hide Decide;
    RunAppends(rows, files, sqlOk, i);
    SkipStays(rows, RowsOf(RunFrom(rows, files, sqlOk, i).executed), f);
  }

  lemma {:induction false} ResumeInserted(rows: seq<Row>, files: seq<MigrationFile>, sqlOk: SqlOutcome, i: nat)
    requires GoodTable(rows) && HashedFiles(files) && i < |files| && sqlOk(i)
    requires Decide(rows, files[i]) != Skip
    requires RunFrom(rows, files, AlwaysOk, i).outcome == Completed
    ensures var full := RunFrom(rows, files, AlwaysOk, i);
            var part := RunFrom(rows, files, sqlOk, i);
            var rerun := RunFrom(part.rows, files, AlwaysOk, i);
            && rerun.outcome == Completed
            && rerun.rows == full.rows
            && part.executed + rerun.executed == full.executed
    decreases |files| - i, 0
  {
    hide Decide, FindVersion, FindHash;
    var f := files[i];
    var rows' := rows + [RowOf(f)];
    RunStep(rows, files, AlwaysOk, i);
    InsertKeepsGood(rows, f);
    Resume(rows', files, sqlOk, i + 1);
    InsertedIsSkipped(rows, f);
    StillSkipped(rows', files, sqlOk, i + 1, f);
    var part := RunFrom(rows', files, sqlOk, i + 1);
    RunStep(part.rows, files, AlwaysOk, i);
    var rerun := RunFrom(part.rows, files, AlwaysOk, i + 1);
    assert ([f] + part.executed) + rerun.executed == [f] + (part.executed + rerun.executed);
  }

  // The table and the executed sequence after a series of interrupted runs.
  function Attempts(rows: seq<Row>, files: seq<MigrationFile>, attempts: seq<SqlOutcome>)
    : (seq<Row>, seq<MigrationFile>)
    decreases |attempts|
  {
    if attempts == [] then (rows, [])
    else
      var part := Run(rows, files, attempts[0]);
      var (rows', executed) := Attempts(part.rows, files, attempts[1..]);
      (rows', part.executed + executed)
  }

  /** However often the runner crashes, one run to the end gives the uninterrupted result; the next does nothing. */
  lemma {:induction false} CrashResume(rows: seq<Row>, files: seq<MigrationFile>, attempts: seq<SqlOutcome>)
    requires GoodTable(rows) && HashedFiles(files)
    requires Run(rows, files, AlwaysOk).outcome == Completed
    ensures var full := Run(rows, files, AlwaysOk);
            var (rows', executed) := Attempts(rows, files, attempts);
            var last := Run(rows', files, AlwaysOk);
            && last.outcome == Completed
            && last.rows == full.rows
            && executed + last.executed == full.executed
            && Run(last.rows, files, AlwaysOk).executed == []
            && Run(last.rows, files, AlwaysOk).rows == last.rows
    decreases |attempts|
  {
    hide RunFrom;
    if attempts == [] {
      Resume(rows, files, AlwaysOk, 0);
      var full := Run(rows, files, AlwaysOk);
      assert [] + full.executed == full.executed;
      var again := Run(full.rows, files, AlwaysOk);
      assert |full.executed + again.executed| == |full.executed| + |again.executed|;
    } else {
      var part := Run(rows, files, attempts[0]);
      Resume(rows, files, attempts[0], 0);
      RunAppends(rows, files, attempts[0], 0);
      CrashResume(part.rows, files, attempts[1..]);
      var (rows', executed) := Attempts(part.rows, files, attempts[1..]);
      var last := Run(rows', files, AlwaysOk);
      assert (part.executed + executed) + last.executed == part.executed + (executed + last.executed);
    }
  }

  // ---- when a run can complete ----------------------------------------------------------------------------

  predicate AgreesWith(r: Row, f: MigrationFile) {
    if r.success then r.version == f.version <==> r.hash == Some(f.hash)
    else r.version != f.version && r.hash != Some(f.hash)
  }

  /** Versions and hashes determine each other, among the files and against the table. */
  predicate ConflictFree(rows: seq<Row>, files: seq<MigrationFile>) {
    && (forall r, f | r in rows && f in files :: AgreesWith(r, f))
    && (forall f, g | f in files && g in files :: f.version == g.version <==> f.hash == g.hash)
  }

  lemma DecisionOfAgreeing(rows: seq<Row>, f: MigrationFile)
    requires GoodTable(rows) && f.hash != ""
    ensures Decide(rows, f) == Skip || (Decide(rows, f) == Pending && Insertable(rows, f))
       <==> forall r | r in rows :: AgreesWith(r, f)
  {
    var v, h := FindVersion(rows, f.version), FindHash(rows, f.hash);
    if v.Some? {
      var k :| 0 <= k < |rows| && rows[k] == v.value;
      if v.value.hash == Some(f.hash) {
        forall r | r in rows ensures AgreesWith(r, f) {
          var i :| 0 <= i < |rows| && rows[i] == r;
          assert i < k || i == k || k < i;
        }
      } else {
        assert !AgreesWith(v.value, f);
      }
    } else if h.Some? {
      assert !AgreesWith(h.value, f);
    }
  }

  lemma {:induction false} CompletesFrom(rows: seq<Row>, files: seq<MigrationFile>, i: nat)
    requires GoodTable(rows) && HashedFiles(files) && i <= |files|
    ensures RunFrom(rows, files, AlwaysOk, i).outcome == Completed <==> ConflictFree(rows, files[i..])
    decreases |files| - i
  {
    hide Decide, FindVersion, FindHash, AgreesWith;
    if i < |files| {
      var f, rest := files[i], files[i + 1..];
      assert files[i..] == [f] + rest;
      DecisionOfAgreeing(rows, f);
      RunStep(rows, files, AlwaysOk, i);
      if Decide(rows, f) == Skip {
        CompletesFrom(rows, files, i + 1);
        SkippedAgrees(rows, files, i);
      } else if Decide(rows, f) == Pending && Insertable(rows, f) {
        InsertKeepsGood(rows, f);
        CompletesFrom(rows + [RowOf(f)], files, i + 1);
        InsertedAgrees(rows, f, rest);
      }
    }
  }

  // A skipped file adds no condition: its row already speaks for it.
  lemma SkippedAgrees(rows: seq<Row>, files: seq<MigrationFile>, i: nat)
    requires i < |files| && Decide(rows, files[i]) == Skip
    requires forall r | r in rows :: AgreesWith(r, files[i])
    ensures ConflictFree(rows, [files[i]] + files[i + 1..]) <==> ConflictFree(rows, files[i + 1..])
  {
    var f, rest := files[i], files[i + 1..];
    var row := FindVersion(rows, f.version).value;
    if ConflictFree(rows, rest) {
      forall g | g in rest ensures f.version == g.version <==> f.hash == g.hash {
        assert AgreesWith(row, g);
      }
    }
  }

  // An inserted file's row imposes on later files what the file itself would.
  lemma InsertedAgrees(rows: seq<Row>, f: MigrationFile, rest: seq<MigrationFile>)
    requires forall r | r in rows :: AgreesWith(r, f)
    ensures ConflictFree(rows, [f] + rest) <==> ConflictFree(rows + [RowOf(f)], rest)
  {
    var rows', files := rows + [RowOf(f)], [f] + rest;
    assert RowOf(f) in rows' by { assert rows'[|rows|] == RowOf(f); }
    if ConflictFree(rows', rest) {
      forall g | g in rest ensures f.version == g.version <==> f.hash == g.hash {
        assert AgreesWith(RowOf(f), g);
      }
      forall r | r in rows ensures r in rows' {}
    }
    if ConflictFree(rows, files) {
      forall g | g in rest ensures g in files {}
      assert f in files;
    }
  }

  /** A run whose SQL all succeeds completes exactly on the conflict-free file lists. */
  lemma CompletesExactly(rows: seq<Row>, files: seq<MigrationFile>)
    requires GoodTable(rows) && HashedFiles(files)
    ensures Run(rows, files, AlwaysOk).outcome == Completed <==> ConflictFree(rows, files)
  {
    CompletesFrom(rows, files, 0);
    assert files[0..] == files;
  }

  // ---- what a backfill changes --------------------------------------------------------------------------------------

  /** The backfill changes the hash of applied rows that had none, to that of the last file of their version. */
  lemma BackfillChanges(rows: seq<Row>, files: seq<MigrationFile>, k: nat)
    requires Fillable(rows, files) && k < |rows|
    ensures var after := FillFirst(rows, files, |rows|)[k];
      && after.version == rows[k].version && after.script == rows[k].script && after.success == rows[k].success
      && (rows[k].success && (rows[k].hash == None || rows[k].hash == Some("")) ==>
          exists j ::
            0 <= j < |files| && IsLastOfVersion(files, j, rows[k].version) && after.hash == Some(files[j].hash))
      && (!(rows[k].success && (rows[k].hash == None || rows[k].hash == Some(""))) ==> after.hash == rows[k].hash)
  {
    hide FileOfVersion;
    assert rows[k] in rows;
    if rows[k].success && HashMissing(rows[k]) {
      var j := LastOfVersion(files, rows[k].version);
    }
  }

  predicate IsLastOfVersion(files: seq<MigrationFile>, j: nat, version: string) {
    && j < |files| && files[j].version == version
    && forall i | j < i < |files| :: files[i].version != version
  }

  lemma {:induction false} LastOfVersion(files: seq<MigrationFile>, version: string) returns (j: nat)
    requires FileOfVersion(files, version).Some?
    ensures IsLastOfVersion(files, j, version) && FileOfVersion(files, version) == Some(files[j])
  {
    var n := |files| - 1;
    if files[n].version == version {
      j := n;
    } else {
      j := LastOfVersion(files[..n], version);
    }
  }

  /** A row whose hash was backfilled makes the run skip the file the hash was taken from. */
  lemma BackfilledIsSkipped(rows: seq<Row>, files: seq<MigrationFile>, k: nat)
    requires DistinctVersions(rows) && Fillable(rows, files)
    requires k < |rows| && rows[k].success && HashMissing(rows[k])
    ensures FileOfVersion(files, rows[k].version).Some?
    ensures Decide(FillFirst(rows, files, |rows|), FileOfVersion(files, rows[k].version).value) == Skip
  {
    var filled := FillFirst(rows, files, |rows|);
    assert rows[k] in rows;
    assert !NeedsFile(rows[k], files);
    var f := FileOfVersion(files, rows[k].version).value;
    assert filled[k] in filled && filled[k].version == f.version;
    var r := FindVersion(filled, f.version).value;
    var j :| 0 <= j < |filled| && filled[j] == r;
    assert j < k || j == k || k < j;
  }
}
