/** The migration runner: packages/shared/dbmigration/component/db-migration.ts. */
module DbMigration {
  import opened Results
  import opened MigrationVersions

  /** A row of the history table; the hash column is nullable until the backfill is done. */
  datatype Row = Row(version: string, script: string, hash: Option<string>, success: bool)

  function RowOf(f: MigrationFile): Row {
    Row(f.version, f.filename, Some(f.hash), true)
  }

  // ---- the history table, consulted directly -------------------------------------------------------

  // The applied migration of a version: SELECT ... WHERE success = true.
  function FindVersion(rows: seq<Row>, version: string): (r: Option<Row>)
    ensures r.Some? ==> r.value in rows && r.value.success && r.value.version == version
    ensures r.None? ==> forall x | x in rows && x.success :: x.version != version
  {
    if rows == [] then None
    else
      var last := rows[|rows| - 1];
      assert rows == rows[..|rows| - 1] + [last];
      if last.success && last.version == version then Some(last)
      else FindVersion(rows[..|rows| - 1], version)
  }

  function FindHash(rows: seq<Row>, hash: string): (r: Option<Row>)
    ensures r.Some? ==> r.value in rows && r.value.success && r.value.hash == Some(hash)
    ensures r.None? ==> forall x | x in rows && x.success :: x.hash != Some(hash)
  {
    if rows == [] then None
    else
      var last := rows[|rows| - 1];
      assert rows == rows[..|rows| - 1] + [last];
      if last.success && last.hash == Some(hash) then Some(last)
      else FindHash(rows[..|rows| - 1], hash)
  }

  /** What the loop does with a file. */
  datatype Decision = Skip | VersionConflict | ContentConflict | Pending

  function Decide(rows: seq<Row>, f: MigrationFile): Decision {
    match FindVersion(rows, f.version)
    case Some(r) => if r.hash == Some(f.hash) then Skip else VersionConflict
    case None => if FindHash(rows, f.hash).Some? then ContentConflict else Pending
  }

  /** Both unique keys admit the new row. */
  predicate Insertable(rows: seq<Row>, f: MigrationFile) {
    forall r | r in rows :: r.version != f.version && r.hash != Some(f.hash)
  }

  datatype Outcome =
    | Completed
    | VersionConflictAt(position: nat)
    | ContentConflictAt(position: nat)
    | FailedAt(position: nat)

  datatype RunResult = RunResult(rows: seq<Row>, executed: seq<MigrationFile>, outcome: Outcome)

  // Which of the files' SQL succeeds when it is executed.
  type SqlOutcome = nat -> bool

  /** One run without indexes: every decision looks at the table itself. */
  function RunFrom(rows: seq<Row>, files: seq<MigrationFile>, sqlOk: SqlOutcome, i: nat): RunResult
    decreases |files| - i
  {
    if i >= |files| then RunResult(rows, [], Completed)
    else
      match Decide(rows, files[i])
      case Skip => RunFrom(rows, files, sqlOk, i + 1)
      case VersionConflict => RunResult(rows, [], VersionConflictAt(i))
      case ContentConflict => RunResult(rows, [], ContentConflictAt(i))
      case Pending =>
        if sqlOk(i) && Insertable(rows, files[i]) then
          var rest := RunFrom(rows + [RowOf(files[i])], files, sqlOk, i + 1);
          rest.(executed := [files[i]] + rest.executed)
        else RunResult(rows, [], FailedAt(i))
  }

  function Run(rows: seq<Row>, files: seq<MigrationFile>, sqlOk: SqlOutcome): RunResult {
    RunFrom(rows, files, sqlOk, 0)
  }

  function SqlOf(files: seq<MigrationFile>): (r: seq<string>)
    ensures |r| == |files|
  {
    seq(|files|, i requires 0 <= i < |files| => files[i].sql)
  }

  // ---- hash backfill --------------------------------------------------------------------------------

  datatype BackfillError = FileMissing(version: string) | DuplicateHash | NullHash

  predicate HashMissing(r: Row) {
    r.hash == None || r.hash == Some("")
  }

  // `migrationsByVersion`: of several files with a version the last one counts.
  function FileOfVersion(files: seq<MigrationFile>, version: string): (r: Option<MigrationFile>)
    ensures r.Some? ==> r.value in files && r.value.version == version
    ensures r.None? ==> forall f | f in files :: f.version != version
  {
    if files == [] then None
    else
      var last := files[|files| - 1];
      assert files == files[..|files| - 1] + [last];
      if last.version == version then Some(last) else FileOfVersion(files[..|files| - 1], version)
  }

  predicate DistinctVersions(rows: seq<Row>) {
    forall i, j | 0 <= i < j < |rows| :: rows[i].version != rows[j].version
  }

  // A unique key admits several NULLs.
  predicate DistinctHashes(rows: seq<Row>) {
    forall i, j | 0 <= i < j < |rows| && rows[i].hash.Some? :: rows[i].hash != rows[j].hash
  }

  predicate AllHashed(rows: seq<Row>) {
    && (forall r | r in rows :: r.hash.Some?)
    && (forall r | r in rows && r.success :: !HashMissing(r))
  }

  /** What backfilling makes of a row, given the files. */
  function Filled(r: Row, files: seq<MigrationFile>): Row {
    if r.success && HashMissing(r) && FileOfVersion(files, r.version).Some? then
      r.(hash := Some(FileOfVersion(files, r.version).value.hash))
    else r
  }

  predicate NeedsFile(r: Row, files: seq<MigrationFile>) {
    r.success && HashMissing(r) && FileOfVersion(files, r.version).None?
  }

  function FillFirst(rows: seq<Row>, files: seq<MigrationFile>, n: nat): (r: seq<Row>)
    requires n <= |rows|
    ensures |r| == |rows|
  {
    seq(|rows|, i requires 0 <= i < |rows| => if i < n then Filled(rows[i], files) else rows[i])
  }

  /** The condition under which the table can be brought to hashed form, and the form itself. */
  predicate Fillable(rows: seq<Row>, files: seq<MigrationFile>) {
    var filled := FillFirst(rows, files, |rows|);
    && (forall r | r in rows :: !NeedsFile(r, files))
    && (forall r | r in filled :: r.hash.Some?)
    && DistinctHashes(filled)
  }

  predicate HashedFiles(files: seq<MigrationFile>) {
    forall f | f in files :: f.hash != ""
  }

  function LoadByVersion(rows: seq<Row>): map<string, Row> {
    if rows == [] then map[]
    else
      var front, last := rows[..|rows| - 1], rows[|rows| - 1];
      if last.success then LoadByVersion(front)[last.version := last] else LoadByVersion(front)
  }

  function LoadByHash(rows: seq<Row>): map<string, Row> {
    if rows == [] then map[]
    else
      var front, last := rows[..|rows| - 1], rows[|rows| - 1];
      if last.success && !HashMissing(last) then LoadByHash(front)[last.hash.value := last] else LoadByHash(front)
  }

  /** The indexes say what the table says. */
  ghost predicate IndexesAgree(byVersion: map<string, Row>, byHash: map<string, Row>, rows: seq<Row>) {
    && (forall v :: v in byVersion <==> FindVersion(rows, v).Some?)
    && (forall v | v in byVersion :: byVersion[v].hash == FindVersion(rows, v).value.hash)
    && (forall h | h != "" :: h in byHash <==> FindHash(rows, h).Some?)
  }

  lemma {:induction false} LoadedIndexesAgree(rows: seq<Row>)
    ensures IndexesAgree(LoadByVersion(rows), LoadByHash(rows), rows)
  {
    if rows != [] {
      LoadedIndexesAgree(rows[..|rows| - 1]);
    }
  }

  lemma IndexesAfterInsert(byVersion: map<string, Row>, byHash: map<string, Row>, rows: seq<Row>, f: MigrationFile)
    requires IndexesAgree(byVersion, byHash, rows)
    ensures IndexesAgree(byVersion[f.version := RowOf(f)], byHash[f.hash := RowOf(f)], rows + [RowOf(f)])
  {
    assert (rows + [RowOf(f)])[..|rows|] == rows;
  }

  class Database {
    var rows: seq<Row>
    var tableExists: bool
    var hasHashColumn: bool
    var hasHashKey: bool
    // The SQL texts of committed migrations, in commit order.
    var committed: seq<string>

    ghost predicate Valid()
      reads this
    {
      && (!tableExists ==> rows == [])
      && (!hasHashColumn ==> forall r | r in rows :: r.hash == None)
      && DistinctVersions(rows)
      && (hasHashKey ==> DistinctHashes(rows))
    }

    // The state `migrate` has reached when it starts its loop.
    ghost predicate Ready()
      reads this
    {
      Valid() && tableExists && hasHashColumn && hasHashKey && AllHashed(rows)
    }

    constructor ()
      ensures Valid() && rows == [] && committed == [] && !tableExists
    {
      rows, committed := [], [];
      tableExists, hasHashColumn, hasHashKey := false, false, false;
    }

    /** CREATE TABLE IF NOT EXISTS, with the hash column and its unique key. */
    method CreateTable()
      requires Valid()
      modifies this`tableExists, this`hasHashColumn, this`hasHashKey
      ensures Valid() && tableExists
      ensures old(tableExists) ==> hasHashColumn == old(hasHashColumn) && hasHashKey == old(hasHashKey)
      ensures !old(tableExists) ==> hasHashColumn && hasHashKey
    {
      if !tableExists {
        tableExists, hasHashColumn, hasHashKey := true, true, true;
      }
    }

    /**
     Adds and fills the hash column. On success the table is the filled one; every update is a
     statement of its own, so a failure keeps the rows filled so far.
     */
    method EnsureHistoryTable(files: seq<MigrationFile>) returns (r: Result<(), BackfillError>)
      requires Valid() && HashedFiles(files)
      modifies this`rows, this`tableExists, this`hasHashColumn, this`hasHashKey
      ensures Valid()
      ensures r.Ok? <==> Fillable(old(rows), files)
      ensures r.Ok? ==> Ready() && rows == FillFirst(old(rows), files, |old(rows)|)
      ensures r.Err? ==> exists n :: 0 <= n <= |old(rows)| && rows == FillFirst(old(rows), files, n)
    {
      ghost var before := rows;
      CreateTable();
      hasHashColumn := true;
      var applied := rows;
      assert rows == FillFirst(before, files, 0);
      for i := 0 to |applied|
        invariant Valid() && tableExists && hasHashColumn
        invariant hasHashKey ==> DistinctHashes(before)
        invariant rows == FillFirst(before, files, i)
        invariant forall j | 0 <= j < i :: !NeedsFile(before[j], files)
      {
        if !(applied[i].success && HashMissing(applied[i])) {
          assert rows == FillFirst(before, files, i + 1);
          continue;
        }
        var file := FileOfVersion(files, applied[i].version);
        if file.None? {
          assert NeedsFile(before[i], files);
          return Err(FileMissing(applied[i].version));
        }
        var updated := rows[i := rows[i].(hash := Some(file.value.hash))];
        assert updated == FillFirst(before, files, i + 1);
        if hasHashKey && !DistinctHashes(updated) {
          StaysDuplicate(before, files, i + 1);
          return Err(DuplicateHash);
        }
        rows := updated;
      }
      if !(forall x | x in rows :: x.hash.Some?) {
        return Err(NullHash);
      }
      if !hasHashKey {
        if !DistinctHashes(rows) {
          return Err(DuplicateHash);
        }
        hasHashKey := true;
      }
      FilledRowsAreHashed(before, files);
      return Ok(());
    }

    /** One migration in its own transaction: its SQL and its history row, or nothing. */
    method Transaction(f: MigrationFile, sqlOk: bool) returns (done: bool)
      requires Ready() && f.hash != ""
      modifies this`rows, this`committed
      ensures Ready()
      ensures done == (sqlOk && Insertable(old(rows), f))
      ensures rows == if done then old(rows) + [RowOf(f)] else old(rows)
      ensures committed == if done then old(committed) + [f.sql] else old(committed)
    {
      var rowsAtBegin, committedAtBegin := rows, committed;
      if sqlOk {
        committed := committed + [f.sql];
        if Insertable(rows, f) {
          rows := rows + [RowOf(f)];
          return true;
        }
      }
      rows, committed := rowsAtBegin, committedAtBegin;
      return false;
    }
  }

  lemma FilledRowsAreHashed(rows: seq<Row>, files: seq<MigrationFile>)
    requires HashedFiles(files) && forall r | r in rows :: !NeedsFile(r, files)
    ensures forall r | r in FillFirst(rows, files, |rows|) && r.success :: !HashMissing(r)
  {
    var filled := FillFirst(rows, files, |rows|);
    forall r | r in filled && r.success ensures !HashMissing(r) {
      var i :| 0 <= i < |rows| && filled[i] == r;
      assert rows[i] in rows;
    }
  }

  // Hashed rows keep their hash, so a duplicate cannot be repaired by filling further rows.
  lemma StaysDuplicate(rows: seq<Row>, files: seq<MigrationFile>, n: nat)
    requires HashedFiles(files) && n <= |rows| && DistinctHashes(rows)
    requires !DistinctHashes(FillFirst(rows, files, n))
    ensures !DistinctHashes(FillFirst(rows, files, |rows|))
  {
    var part, full := FillFirst(rows, files, n), FillFirst(rows, files, |rows|);
    var i, j :| 0 <= i < j < |rows| && part[i].hash.Some? && part[i].hash == part[j].hash;
    assert full[i].hash == part[i].hash && full[j].hash == part[j].hash;
  }

  function Prepend(executed: seq<MigrationFile>, r: RunResult): RunResult {
    r.(executed := executed + r.executed)
  }

  // The decision as the loop takes it, from the two indexes.
  function DecideIndexed(byVersion: map<string, Row>, byHash: map<string, Row>, f: MigrationFile): Decision {
    if f.version in byVersion then
      if byVersion[f.version].hash == Some(f.hash) then Skip else VersionConflict
    else if f.hash in byHash then ContentConflict
    else Pending
  }

  /** As long as the indexes agree with the table, deciding from them is deciding from the table. */
  lemma IndexedDecisionIsDecision(
    byVersion: map<string, Row>, byHash: map<string, Row>, rows: seq<Row>, f: MigrationFile)
    requires IndexesAgree(byVersion, byHash, rows) && f.hash != ""
    ensures DecideIndexed(byVersion, byHash, f) == Decide(rows, f)
  {}

  lemma RunStep(rows: seq<Row>, files: seq<MigrationFile>, sqlOk: SqlOutcome, i: nat)
    requires i < |files|
    ensures match Decide(rows, files[i])
            case Skip => RunFrom(rows, files, sqlOk, i) == RunFrom(rows, files, sqlOk, i + 1)
            case VersionConflict => RunFrom(rows, files, sqlOk, i) == RunResult(rows, [], VersionConflictAt(i))
            case ContentConflict => RunFrom(rows, files, sqlOk, i) == RunResult(rows, [], ContentConflictAt(i))
            case Pending =>
              !(sqlOk(i) && Insertable(rows, files[i])) ==>
                RunFrom(rows, files, sqlOk, i) == RunResult(rows, [], FailedAt(i))
  {}

  lemma RunEnd(rows: seq<Row>, files: seq<MigrationFile>, sqlOk: SqlOutcome)
    ensures RunFrom(rows, files, sqlOk, |files|) == RunResult(rows, [], Completed)
  {}

  /** The loop of `migrate`, deciding from the two in-memory indexes. */
  method ApplyMigrations(db: Database, files: seq<MigrationFile>, sqlOk: SqlOutcome)
    returns (outcome: Outcome, migrationsExecuted: nat)
    requires db.Ready() && HashedFiles(files)
    modifies db`rows, db`committed
    ensures db.Ready()
    ensures var run := Run(old(db.rows), files, sqlOk);
            && db.rows == run.rows
            && db.committed == old(db.committed) + SqlOf(run.executed)
            && outcome == run.outcome
            && migrationsExecuted == |run.executed|
  {
    hide RunFrom, Decide, FindVersion, FindHash, LoadByVersion, LoadByHash, IndexesAgree, DistinctVersions,
      DistinctHashes, AllHashed, Insertable, HashMissing, SqlOf;
    var byVersion, byHash := LoadByVersion(db.rows), LoadByHash(db.rows);
    LoadedIndexesAgree(db.rows);
    assert SqlOf([]) == [];
    migrationsExecuted := 0;
    ghost var executed: seq<MigrationFile> := [];
    ghost var run := Run(db.rows, files, sqlOk);
    assert Prepend([], run) == run;
    for i := 0 to |files|
      invariant db.Ready()
      invariant IndexesAgree(byVersion, byHash, db.rows)
      invariant run == Prepend(executed, RunFrom(db.rows, files, sqlOk, i))
      invariant db.committed == old(db.committed) + SqlOf(executed)
      invariant migrationsExecuted == |executed|
    {
      var f := files[i];
      IndexedDecisionIsDecision(byVersion, byHash, db.rows, f);
      RunStep(db.rows, files, sqlOk, i);
      assert executed + [] == executed;
      if f.version in byVersion {
        if byVersion[f.version].hash == Some(f.hash) {
          continue;
        }
        return VersionConflictAt(i), migrationsExecuted;
      }
      if f.hash in byHash {
        return ContentConflictAt(i), migrationsExecuted;
      }
      IndexesAfterInsert(byVersion, byHash, db.rows, f);
      ghost var rowsBefore := db.rows;
      var done := db.Transaction(f, sqlOk(i));
      if !done {
        return FailedAt(i), migrationsExecuted;
      }
      migrationsExecuted := migrationsExecuted + 1;
      byVersion := byVersion[f.version := RowOf(f)];
      byHash := byHash[f.hash := RowOf(f)];
      StepExecuted(rowsBefore, files, sqlOk, i, executed);
      executed := executed + [f];
    }
    RunEnd(db.rows, files, sqlOk);
    return Completed, migrationsExecuted;
  }

  lemma StepExecuted(rows: seq<Row>, files: seq<MigrationFile>, sqlOk: SqlOutcome, i: nat, executed: seq<MigrationFile>)
    requires i < |files| && Decide(rows, files[i]) == Pending && sqlOk(i) && Insertable(rows, files[i])
    ensures Prepend(executed, RunFrom(rows, files, sqlOk, i))
         == Prepend(executed + [files[i]], RunFrom(rows + [RowOf(files[i])], files, sqlOk, i + 1))
    ensures SqlOf(executed + [files[i]]) == SqlOf(executed) + [files[i].sql]
  {
    var rest := RunFrom(rows + [RowOf(files[i])], files, sqlOk, i + 1);
    assert executed + ([files[i]] + rest.executed) == (executed + [files[i]]) + rest.executed;
  }

  datatype MigrateError = Backfill(error: BackfillError) | Stopped(outcome: Outcome)

  /** `migrate` on the files found: prepare the history table, then apply what is pending. */
  method Migrate(db: Database, found: seq<MigrationFile>, sqlOk: SqlOutcome) returns (r: Result<nat, MigrateError>)
    requires db.Valid() && HashedFiles(found)
    modifies db
    ensures db.Valid()
    ensures !Fillable(old(db.rows), DiscoverMigrations(found)) ==>
              && r.Err? && r.error.Backfill? && db.committed == old(db.committed)
              && exists n ::
                   0 <= n <= |old(db.rows)| && db.rows == FillFirst(old(db.rows), DiscoverMigrations(found), n)
    ensures Fillable(old(db.rows), DiscoverMigrations(found)) ==>
              var files := DiscoverMigrations(found);
              var run := Run(FillFirst(old(db.rows), files, |old(db.rows)|), files, sqlOk);
              && db.rows == run.rows
              && db.committed == old(db.committed) + SqlOf(run.executed)
              && r == if run.outcome == Completed then Ok(|run.executed|) else Err(Stopped(run.outcome))
  {
    var all := DiscoverMigrations(found);
    DiscoveryIsTheStableSort(found, all);
    assert HashedFiles(all) by {
      forall f | f in all ensures f.hash != "" {
        assert f in multiset(all);
        assert f in multiset(found);
      }
    }
    var ready := db.EnsureHistoryTable(all);
    if ready.Err? {
      return Err(Backfill(ready.error));
    }
    var outcome, executed := ApplyMigrations(db, all, sqlOk);
    if outcome != Completed {
      return Err(Stopped(outcome));
    }
    return Ok(executed);
  }
}
